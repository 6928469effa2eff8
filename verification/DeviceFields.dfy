/** What a device entry declares, what Home Assistant is sent for it, and what it
    keeps of that. */
module DeviceFields {
  import opened Wrappers

  /** A registry value: null, a string, or the ids of some labels. */
  datatype Value = Null | Text(text: string) | Labels(ids: seq<string>)

  type Fields = map<string, Value>

  /** The declared fields; None for one the entry leaves out. A name or an area
      of None is null, and labels that are null are an empty list. */
  datatype Declared = Declared(
    name: Option<Option<string>>, area: Option<Option<string>>, labels: Option<seq<string>>, disabled: Option<bool>)

  const NOTHING := Declared(None, None, None, None)

  /** The live id a reference of some kind names. */
  type Resolver = (string, string) -> Option<string>

  const RESTORABLE := {"name_by_user", "area_id", "labels", "disabled_by"}

  function OrNull(text: Option<string>): Value {
    if text.Some? then Text(text.value) else Null
  }

  function At(fields: Fields, f: string): Value {
    if f in fields then fields[f] else Null
  }

  // ---------- comparing ----------

  function LabelIds(v: Value): seq<string> {
    if v.Labels? then v.ids else []
  }

  /** Labels in any order; everything else as it is. */
  predicate FieldsEqual(a: Value, b: Value) {
    if a.Labels? || b.Labels? then multiset(LabelIds(a)) == multiset(LabelIds(b)) else a == b
  }

  predicate Drifts(params: Fields, live: Fields) {
    exists f <- params :: !FieldsEqual(At(live, f), params[f])
  }

  /** What Home Assistant reads back: a set of labels, each once, in its own
      order. */
  function Stored(v: Value, echo: seq<string> -> seq<string>): Value {
    if v.Labels? then Labels(echo(v.ids)) else v
  }

  ghost predicate KeepsSets(echo: seq<string> -> seq<string>) {
    forall ids :: Distinct(echo(ids)) && AsSet(echo(ids)) == AsSet(ids)
  }

  lemma {:induction false} DistinctCounts(ids: seq<string>, id: string)
    requires Distinct(ids)
    ensures multiset(ids)[id] == if id in AsSet(ids) then 1 else 0
  {
    if ids != [] {
      var last := |ids| - 1;
      DistinctCounts(ids[..last], id);
      assert ids == ids[..last] + [ids[last]];
    }
  }

  lemma {:induction false} OnceEach(ids: seq<string>)
    requires forall id :: multiset(ids)[id] <= 1
    ensures Distinct(ids)
  {
    forall i, j | 0 <= i < j < |ids| ensures ids[i] != ids[j] {
      assert ids == ids[..j] + ids[j..];
      assert ids[i] in ids[..j] && ids[j] in ids[j..];
      assert multiset(ids) == multiset(ids[..j]) + multiset(ids[j..]);
      assert multiset(ids[..j])[ids[i]] > 0 && multiset(ids[j..])[ids[j]] > 0;
      assert multiset(ids)[ids[j]] == multiset(ids[..j])[ids[j]] + multiset(ids[j..])[ids[j]];
    }
  }

  /** A list of labels is read back as it was sent exactly if it names each label
      once: one that repeats a label would read as drift for ever. */
  lemma ReadsBackIff(v: Value, echo: seq<string> -> seq<string>)
    requires KeepsSets(echo)
    ensures FieldsEqual(Stored(v, echo), v) <==> (v.Labels? ==> Distinct(v.ids))
  {
    if v.Labels? {
      var back := echo(v.ids);
      forall id ensures multiset(back)[id] == if id in AsSet(v.ids) then 1 else 0 {
        DistinctCounts(back, id);
      }
      if Distinct(v.ids) {
        forall id ensures multiset(back)[id] == multiset(v.ids)[id] {
          DistinctCounts(v.ids, id);
        }
      } else if multiset(back) == multiset(v.ids) {
        OnceEach(v.ids);
      }
    }
  }

  // ---------- what is sent ----------

  function ResolveAll(refs: seq<string>, resolve: Resolver): Option<seq<string>> {
    if refs == [] then Some([])
    else
      var before :- ResolveAll(refs[..|refs| - 1], resolve);
      var id :- resolve("label", refs[|refs| - 1]);
      Some(before + [id])
  }

  /** Each once, where it comes first. */
  function Unique(ids: seq<string>): seq<string> {
    if ids == [] then []
    else
      var before := Unique(ids[..|ids| - 1]);
      if ids[|ids| - 1] in before then before else before + [ids[|ids| - 1]]
  }

  lemma {:induction false} UniqueIs(ids: seq<string>)
    ensures Distinct(Unique(ids)) && AsSet(Unique(ids)) == AsSet(ids)
  {
    if ids != [] {
      var last := |ids| - 1;
      UniqueIs(ids[..last]);
      assert ids == ids[..last] + [ids[last]];
      var before := Unique(ids[..last]);
      assert AsSet(ids) == AsSet(ids[..last]) + {ids[last]};
      assert AsSet(before + [ids[last]]) == AsSet(before) + {ids[last]};
      assert ids[last] in before <==> ids[last] in AsSet(before);
    }
  }

  /** The labels that are sent, or None if one does not resolve. */
  function LabelsOf(refs: seq<string>, resolve: Resolver): Option<seq<string>> {
    var ids :- ResolveAll(refs, resolve);
    Some(Unique(ids))
  }

  function WithName(fields: Fields, d: Declared): Fields {
    if d.name.Some? then fields["name_by_user" := OrNull(d.name.value)] else fields
  }

  function WithArea(fields: Fields, d: Declared, resolve: Resolver): Option<Fields> {
    if d.area.None? then Some(fields)
    else if d.area.value.None? then Some(fields["area_id" := Null])
    else
      var id :- resolve("area", d.area.value.value);
      Some(fields["area_id" := Text(id)])
  }

  function WithLabels(fields: Fields, d: Declared, resolve: Resolver): Option<Fields> {
    if d.labels.None? then Some(fields)
    else
      var ids :- LabelsOf(d.labels.value, resolve);
      Some(fields["labels" := Labels(ids)])
  }

  function WithDisabled(fields: Fields, d: Declared): Fields {
    if d.disabled.Some? then fields["disabled_by" := if d.disabled.value then Text("user") else Null] else fields
  }

  /** The parameters of an update, or None if a reference does not resolve. */
  function Params(d: Declared, resolve: Resolver): Option<Fields> {
    var located :- WithArea(WithName(map[], d), d, resolve);
    var labelled :- WithLabels(located, d, resolve);
    Some(WithDisabled(labelled, d))
  }

  lemma {:induction false} ResolvesEarly(refs: seq<string>, resolve: Resolver, n: nat)
    requires n <= |refs| && ResolveAll(refs[..n], resolve).None?
    ensures ResolveAll(refs, resolve).None?
    decreases |refs|
  {
    if n < |refs| {
      assert refs[..|refs| - 1][..n] == refs[..n];
      ResolvesEarly(refs[..|refs| - 1], resolve, n);
    } else {
      assert refs[..n] == refs;
    }
  }

  method ResolveLabels(refs: seq<string>, resolve: Resolver) returns (ids: Option<seq<string>>)
    ensures ids == LabelsOf(refs, resolve)
  {
    var resolved: seq<string>, seen: set<string> := [], {};
    for i := 0 to |refs|
      invariant ResolveAll(refs[..i], resolve).Some?
      invariant resolved == Unique(ResolveAll(refs[..i], resolve).value)
      invariant seen == AsSet(resolved)
    {
      assert refs[..i + 1][..i] == refs[..i];
      var id := resolve("label", refs[i]);
      if id.None? {
        ResolvesEarly(refs, resolve, i + 1);
        return None;
      }
      ghost var before := ResolveAll(refs[..i], resolve).value;
      assert (before + [id.value])[..|before|] == before;
      if id.value !in seen {
        seen := seen + {id.value};
        resolved := resolved + [id.value];
      }
    }
    assert refs[..|refs|] == refs;
    ids := Some(resolved);
  }

  method BuildParams(d: Declared, resolve: Resolver) returns (params: Option<Fields>)
    ensures params == Params(d, resolve)
  {
    hide LabelsOf;
    var fields: Fields := map[];
    if d.name.Some? {
      fields := fields["name_by_user" := OrNull(d.name.value)];
    }
    if d.area.Some? {
      if d.area.value.None? {
        fields := fields["area_id" := Null];
      } else {
        var id := resolve("area", d.area.value.value);
        if id.None? {
          return None;
        }
        fields := fields["area_id" := Text(id.value)];
      }
    }
    if d.labels.Some? {
      var ids := ResolveLabels(d.labels.value, resolve);
      if ids.None? {
        return None;
      }
      fields := fields["labels" := Labels(ids.value)];
    }
    if d.disabled.Some? {
      fields := fields["disabled_by" := if d.disabled.value then Text("user") else Null];
    }
    params := Some(fields);
  }

  predicate UserOwned(v: Value) {
    v.Text? ==> v.text in {"", "user"}
  }

  /** What is sent is what Home Assistant takes and reads back. */
  lemma ParamsAreSettable(d: Declared, resolve: Resolver)
    requires Params(d, resolve).Some?
    ensures
      var params := Params(d, resolve).value;
      && params.Keys <= RESTORABLE
      && (forall f <- params :: params[f].Labels? ==> Distinct(params[f].ids))
      && ("disabled_by" in params <==> d.disabled.Some?)
      && ("disabled_by" in params ==> UserOwned(params["disabled_by"]))
  {
    if d.labels.Some? {
      UniqueIs(ResolveAll(d.labels.value, resolve).value);
    }
  }

  /** The labels that some references name. */
  function Resolved(refs: seq<string>, resolve: Resolver): set<string> {
    set r <- refs | resolve("label", r).Some? :: resolve("label", r).value
  }

  lemma {:induction false} ResolvesEach(refs: seq<string>, resolve: Resolver)
    ensures ResolveAll(refs, resolve).Some? <==> forall i | 0 <= i < |refs| :: resolve("label", refs[i]).Some?
    ensures ResolveAll(refs, resolve).Some? ==>
              AsSet(ResolveAll(refs, resolve).value) == Resolved(refs, resolve)
    decreases |refs|
  {
    if refs != [] {
      var last := |refs| - 1;
      ResolvesEach(refs[..last], resolve);
      assert refs == refs[..last] + [refs[last]];
      if ResolveAll(refs, resolve).Some? {
        var id := resolve("label", refs[last]).value;
        var before := ResolveAll(refs[..last], resolve).value;
        assert AsSet(before + [id]) == AsSet(before) + {id};
        assert Resolved(refs, resolve) == Resolved(refs[..last], resolve) + {id};
      }
    }
  }

  /** Every declared field is sent with the value it declares, a field that is
      left out is not sent, and nothing is sent if a reference names nothing. */
  lemma ParamsSay(d: Declared, resolve: Resolver)
    ensures Params(d, resolve).Some? <==>
              && (d.area.Some? && d.area.value.Some? ==> resolve("area", d.area.value.value).Some?)
              && (d.labels.Some? ==> forall i | 0 <= i < |d.labels.value| :: resolve("label", d.labels.value[i]).Some?)
    ensures Params(d, resolve).Some? ==>
              var sent := Params(d, resolve).value;
              && ("name_by_user" in sent <==> d.name.Some?)
              && (d.name == Some(None) ==> sent["name_by_user"] == Null)
              && (forall name :: d.name == Some(Some(name)) ==> sent["name_by_user"] == Text(name))
              && ("area_id" in sent <==> d.area.Some?)
              && (d.area == Some(None) ==> sent["area_id"] == Null)
              && (forall area :: d.area == Some(Some(area)) ==>
                    sent["area_id"].Text? && resolve("area", area) == Some(sent["area_id"].text))
              && ("labels" in sent <==> d.labels.Some?)
              && (forall refs :: d.labels == Some(refs) ==>
                    sent["labels"].Labels? &&
                    AsSet(sent["labels"].ids) == Resolved(refs, resolve))
              && ("disabled_by" in sent <==> d.disabled.Some?)
              && (d.disabled == Some(true) ==> sent["disabled_by"] == Text("user"))
              && (d.disabled == Some(false) ==> sent["disabled_by"] == Null)
  {
    if d.labels.Some? {
      ResolvesEach(d.labels.value, resolve);
      if ResolveAll(d.labels.value, resolve).Some? {
        UniqueIs(ResolveAll(d.labels.value, resolve).value);
      }
    }
  }

  /** What a recorded original is restored with: nothing Home Assistant would
      refuse. */
  function RestoreParams(recorded: Fields): Fields {
    map f | f in recorded && f in RESTORABLE && (f == "disabled_by" ==> UserOwned(recorded[f])) :: recorded[f]
  }

  /** The original that is recorded for a field. */
  function Original(f: string, live: Value): Value {
    if f == "disabled_by" && live != Text("user") then Null else live
  }
}
