/** What becomes of a device once a plan is executed, said of what the entries
    declare, what is live and what is on the record. */
module DeviceOutcomes {
  import opened Wrappers
  import opened DeviceFields
  import opened Devices
  import opened DeviceLaws
  import opened Listing

  // ---------- the words of the laws ----------

  /** A device fits a match when every key that is given says so: each key narrows
      the choice, and an identifier is the domain and the id with a colon between. */
  lemma EachKeyNarrows(m: Match, live: map<Id, Device>, rules: Rules)
    ensures
      Matching(m, live, rules) ==
      Matching(Match(m.deviceId, "", ""), live, rules)
      * Matching(Match("", m.name, ""), live, rules) * Matching(Match("", "", m.identifier), live, rules)
    ensures Matching(Match("", "", ""), live, rules) == live.Keys
    ensures m.deviceId != "" ==>
              Matching(Match(m.deviceId, "", ""), live, rules) == if m.deviceId in live then {m.deviceId} else {}
    ensures forall domain, name, id <- live | domain + ":" + name == m.identifier && (domain, name) in live[id].identifiers ::
              id in Matching(Match("", "", m.identifier), live, rules)
    ensures m.identifier != "" ==>
              forall id <- Matching(Match("", "", m.identifier), live, rules) ::
                exists pair :: pair in live[id].identifiers && pair.0 + ":" + pair.1 == m.identifier
  {
    forall id <- live | HasIdentifier(live[id].identifiers, m.identifier)
      ensures exists pair :: pair in live[id].identifiers && pair.0 + ":" + pair.1 == m.identifier
    {
      var ids := live[id].identifiers;
      var i :| 0 <= i < |ids| && ids[i].0 + ":" + ids[i].1 == m.identifier;
      assert ids[i] in ids;
    }
    forall domain, name, id <- live | domain + ":" + name == m.identifier && (domain, name) in live[id].identifiers
      ensures HasIdentifier(live[id].identifiers, m.identifier)
    {
      var ids := live[id].identifiers;
      var i :| 0 <= i < |ids| && ids[i] == (domain, name);
    }
  }

  /** Values are compared as they are, and labels as often as each occurs. */
  lemma FieldsEqualIs(a: Value, b: Value)
    ensures !a.Labels? && !b.Labels? ==> (FieldsEqual(a, b) <==> a == b)
    ensures a.Labels? && b.Labels? ==>
              (FieldsEqual(a, b) <==> forall id :: multiset(a.ids)[id] == multiset(b.ids)[id])
    ensures a.Labels? != b.Labels? ==> (FieldsEqual(a, b) <==> LabelIds(a) + LabelIds(b) == [])
  {
    if a.Labels? && b.Labels? && forall id :: multiset(a.ids)[id] == multiset(b.ids)[id] {
      assert multiset(a.ids) == multiset(b.ids);
    }
    EmptyOnly(LabelIds(a));
    EmptyOnly(LabelIds(b));
  }

  lemma EmptyOnly(ids: seq<string>)
    ensures multiset(ids) == multiset{} <==> ids == []
  {
    if ids != [] {
      assert ids[0] in multiset(ids);
    }
  }

  // ---------- what becomes of a device ----------

  ghost predicate Recorded(s: Setting, recorded: seq<Id>) {
    Distinct(recorded) && AsSet(recorded) == s.originals.Keys
  }

  predicate Declares(d: Declared) {
    d.name.Some? || d.area.Some? || d.labels.Some? || d.disabled.Some?
  }

  /** Disabled by an integration, or by Home Assistant itself. */
  predicate DisabledByOthers(v: Value) {
    v.Text? && v.text != "" && v.text != "user"
  }

  predicate NoOtherMeans(s: Setting, i: nat, id: Id)
    requires i < |s.entries|
  {
    forall j | 0 <= j < |s.entries| && s.Matches(j) == {id} :: j == i
  }

  /** The entry's fields can be sent: its references name something, and it does
      not decide over a device that an integration disabled. */
  predicate Sendable(s: Setting, entry: Entry, id: Id)
    requires id in s.live
  {
    && Params(entry.fields, s.rules.resolve).Some?
    && (entry.fields.disabled.Some? ==> !DisabledByOthers(At(s.live[id].fields, "disabled_by")))
  }

  /** The value a field has to go back to: the one on the record, or the one the
      device has when the field is first managed. */
  function KeptOriginal(s: Setting, id: Id, f: string): Value
    requires id in s.live
  {
    if id in s.originals && f in s.originals[id] then s.originals[id][f]
    else if f == "disabled_by" && At(s.live[id].fields, f) != Text("user") then Null
    else At(s.live[id].fields, f)
  }

  predicate SameDevice(s: Setting, h: Home, id: Id) {
    SlotOf(h, id) == SlotOf(Home(s.live, s.originals), id)
  }

  /** A device one entry with fields means, and no other picks it alone, has every
      declared value afterwards and every other value still, and what each
      declared field was before stays on the record. If the fields cannot be sent
      or another entry picks the same device, nothing about it changes. */
  lemma EntryOutcome(s: Setting, recorded: seq<Id>, echo: Echo, i: nat, id: Id)
    requires Recorded(s, recorded) && KeepsSets(echo)
    requires i < |s.entries| && s.Matches(i) == {id} && Declares(s.entries[i].fields)
    ensures id in s.live
    ensures
      var h := After(s, recorded, echo);
      if NoOtherMeans(s, i, id) && Sendable(s, s.entries[i], id) then
        var sent := Params(s.entries[i].fields, s.rules.resolve).value;
        && id in h.live && id in h.originals && sent.Keys <= h.originals[id].Keys
        && (forall f <- sent :: FieldsEqual(At(h.live[id].fields, f), sent[f]) && h.originals[id][f] == KeptOriginal(s, id, f))
        && (forall f | f !in sent :: At(h.live[id].fields, f) == At(s.live[id].fields, f))
      else SameDevice(s, h, id)
  {
    hide Distinct, PlanOf, After, Execute, Setting.OpFor, Setting.ProtectedIn, Setting.UnmatchedIn, KeepsSets, Setting.OpOn;
    hide Params, FieldsEqual, Fits;
    assert id in s.Matches(i);
    OpForIs(s, i, id);
    OpOnIs(s, s.entries[i], id);
    var op := s.OpFor(i);
    if op.Some? && op.value.Update? {
      OpOrigin(s, recorded, op.value);
      DeviceAfter(s, recorded, echo, op.value);
      UpdateGives(s, op.value, echo, s.entries[i]);
      var done := Execute(Home(s.live, s.originals), op.value, echo);
      SlotsSame(After(s, recorded, echo), done, id);
    } else {
      forall other | other in PlanOf(s, recorded) ensures !Touches(other, id) {
        if Touches(other, id) {
          OnlyItsEntry(s, recorded, i, id, other);
        }
      }
      DeviceAfterNothing(s, recorded, echo, id);
      SlotsSame(After(s, recorded, echo), Home(s.live, s.originals), id);
    }
  }

  lemma OpForIs(s: Setting, i: nat, id: Id)
    requires i < |s.entries| && s.Matches(i) == {id} && id in s.live
    ensures
      if NoOtherMeans(s, i, id) then s.OpFor(i) == s.OpOn(s.entries[i], id)
      else s.OpFor(i) == Some(Failed(s.entries[i].key, ""))
  {
    hide Matching, Setting.OpOn;
    OnlyIsTheOne(s.Matches(i), id);
    assert i in s.Claimants(id);
    forall j | 0 <= j < |s.entries| ensures j in s.Claimants(id) <==> s.Matches(j) == {id} {
    }
    assert s.Claimants(id) == {i} ==> NoOtherMeans(s, i, id) by {
      assert forall j | j in s.Claimants(id) && s.Claimants(id) == {i} :: j in {i};
    }
    if |s.Claimants(id)| == 1 {
      AloneIs(s.Claimants(id), i);
    }
  }

  /** The op for an entry that has the device, in the words above. */
  lemma OpOnIs(s: Setting, entry: Entry, id: Id)
    requires id in s.live && Declares(entry.fields)
    ensures
      var op := s.OpOn(entry, id);
      if !Sendable(s, entry, id) then op == Some(Failed(entry.key, ""))
      else
        var sent := Params(entry.fields, s.rules.resolve).value;
        if op.Some? then op.value == Update(entry.key, id, sent)
        else
          && id in s.originals && sent.Keys <= s.originals[id].Keys
          && forall f <- sent :: FieldsEqual(At(s.live[id].fields, f), sent[f])
  {
    hide Params, FieldsEqual;
  }

  lemma UpdateGives(s: Setting, op: Op, echo: Echo, entry: Entry)
    requires op.Update? && op.about in s.live && KeepsSets(echo) && Params(entry.fields, s.rules.resolve) == Some(op.params)
    ensures
      var id := op.about;
      var h := Execute(Home(s.live, s.originals), op, echo);
      && id in h.live && id in h.originals && op.params.Keys <= h.originals[id].Keys
      && (forall f <- op.params ::
            FieldsEqual(At(h.live[id].fields, f), op.params[f]) && h.originals[id][f] == KeptOriginal(s, id, f))
      && (forall f | f !in op.params :: At(h.live[id].fields, f) == At(s.live[id].fields, f))
  {
    hide Params, FieldsEqual, KeepsSets;
    ParamsAreSettable(entry.fields, s.rules.resolve);
    forall f <- op.params ensures FieldsEqual(Stored(op.params[f], echo), op.params[f]) {
      ReadsBackIff(op.params[f], echo);
    }
  }

  // ---------- what becomes of a recorded device ----------

  /** Some entry with fields means this device, whether it gets it or not. */
  ghost predicate Meant(s: Setting, id: Id) {
    exists i | 0 <= i < |s.entries| :: Declares(s.entries[i].fields) && id in s.Matches(i)
  }

  /** Some entry with fields matches nothing. */
  ghost predicate SomethingMissing(s: Setting) {
    exists i | 0 <= i < |s.entries| :: Declares(s.entries[i].fields) && s.Matches(i) == {}
  }

  /** What the record holds that Home Assistant takes back. */
  predicate GoesBack(s: Setting, id: Id, f: string) {
    && id in s.originals && f in s.originals[id]
    && f in {"name_by_user", "area_id", "labels", "disabled_by"}
    && (f == "disabled_by" ==> !DisabledByOthers(s.originals[id][f]))
  }

  predicate Once(v: Value) {
    v.Labels? ==> Distinct(v.ids)
  }

  /** A recorded device no entry means any more goes back to what is on the
      record, which is then dropped; one that is gone is dropped from the record;
      and while some entry matches nothing, or an integration has disabled a
      device whose `disabled_by` would go back, nothing about it changes. */
  lemma RecordedOutcome(s: Setting, recorded: seq<Id>, echo: Echo, id: Id)
    requires Recorded(s, recorded) && KeepsSets(echo) && id in s.originals && !Meant(s, id)
    ensures
      var h := After(s, recorded, echo);
      if id !in s.live then id !in h.live && id !in h.originals
      else if SomethingMissing(s) || (GoesBack(s, id, "disabled_by") && DisabledByOthers(At(s.live[id].fields, "disabled_by"))) then
        SameDevice(s, h, id)
      else
        && id in h.live && id !in h.originals
        && forall f ::
             if GoesBack(s, id, f) then Once(s.originals[id][f]) ==> FieldsEqual(At(h.live[id].fields, f), s.originals[id][f])
             else At(h.live[id].fields, f) == At(s.live[id].fields, f)
  {
    hide Distinct, PlanOf, After, Matching, Execute, Setting.OpFor, KeepsSets, FieldsEqual, Setting.RestoreKey, Setting.OpForRecorded;
    assert Meant(s, id) <==> s.Protected(id);
    assert SomethingMissing(s) <==> s.Unmatched();
    assert id in recorded by {
      assert id in AsSet(recorded);
    }
    var key := s.RestoreKey(id);
    var op := s.OpForRecorded(key, id, s.Unmatched());
    RecordedOpIs(s, id, key, s.Unmatched());
    OpOrigin(s, recorded, op);
    if op.Failed? {
      NothingTouches(s, recorded, id, op);
      DeviceAfterNothing(s, recorded, echo, id);
    } else {
      DeviceAfter(s, recorded, echo, op);
      var done := Execute(Home(s.live, s.originals), op, echo);
      GivesBack(s, op, echo);
      SlotsSame(After(s, recorded, echo), done, id);
    }
  }

  /** Whatever is planned for such a device goes by the name of the one entry that
      picks it alone without declaring anything for it, or else by the device's
      own id. */
  lemma RecordedOpIsNamed(s: Setting, recorded: seq<Id>, id: Id, op: Op)
    requires Recorded(s, recorded) && id in s.originals && !Meant(s, id)
    requires op in PlanOf(s, recorded) && op.about == id && id != ""
    ensures forall i | 0 <= i < |s.entries| && s.Matches(i) == {id} && NoOtherMeans(s, i, id) :: op.key == s.entries[i].key
    ensures (forall i | 0 <= i < |s.entries| && s.Matches(i) == {id} :: !NoOtherMeans(s, i, id)) ==> op.key == id
  {
    hide Distinct, PlanOf, Matching, Setting.OpFor, Setting.UnmatchedIn;
    assert Meant(s, id) <==> s.Protected(id);
    OpOrigin(s, recorded, op);
    if i :| 0 <= i < |s.entries| && s.OpFor(i) == Some(op) {
      EntryOpIsAbout(s, i);
    }
    assert op.key == s.RestoreKey(id) by {
      KeyOfRecorded(s, s.RestoreKey(id), id, s.Unmatched());
    }
    forall i | 0 <= i < |s.entries| && s.Matches(i) == {id} && NoOtherMeans(s, i, id) ensures s.RestoreKey(id) == s.entries[i].key {
      OnlyClaimant(s, i, id);
    }
    if |s.Claimants(id)| == 1 {
      var k := s.Claimant(id);
      AloneIs(s.Claimants(id), k);
      forall j | 0 <= j < |s.entries| && s.Matches(j) == {id} ensures j == k {
        assert j in s.Claimants(id) && j in {k};
      }
      assert NoOtherMeans(s, k, id);
    }
  }

  lemma OnlyClaimant(s: Setting, i: nat, id: Id)
    requires i < |s.entries| && s.Matches(i) == {id} && NoOtherMeans(s, i, id)
    ensures s.Claimants(id) == {i} && s.RestoreKey(id) == s.entries[i].key
  {
    hide Matching;
    assert s.Claimants(id) == {i};
  }

  lemma EntryOpIsAbout(s: Setting, i: nat)
    requires i < |s.entries| && s.OpFor(i).Some?
    ensures s.OpFor(i).value.Failed? ==> s.OpFor(i).value.about == ""
    ensures !s.OpFor(i).value.Failed? ==> s.Protected(s.OpFor(i).value.about)
  {
    hide Matching;
    if !s.OpFor(i).value.Failed? {
      UpdateIs(s, i);
    }
  }

  lemma KeyOfRecorded(s: Setting, key: Key, id: Id, held: bool)
    requires id in s.originals
    ensures s.OpForRecorded(key, id, held).key == key
  {
  }

  lemma RecordedOpIs(s: Setting, id: Id, key: Key, held: bool)
    requires id in s.originals
    ensures
      var op := s.OpForRecorded(key, id, held);
      && op.about == id
      && if id !in s.live then op.Forget?
         else if held || (GoesBack(s, id, "disabled_by") && DisabledByOthers(At(s.live[id].fields, "disabled_by"))) then op.Failed?
         else op.Restore? && (forall f :: f in op.params <==> GoesBack(s, id, f)) && forall f <- op.params :: op.params[f] == s.originals[id][f]
  {
  }

  lemma NothingTouches(s: Setting, recorded: seq<Id>, id: Id, op: Op)
    requires Recorded(s, recorded) && !s.Protected(id) && op.Failed?
    requires id in s.originals && op == s.OpForRecorded(s.RestoreKey(id), id, s.Unmatched())
    ensures forall other | other in PlanOf(s, recorded) :: !Touches(other, id)
  {
    hide Distinct, PlanOf, Matching, Setting.OpFor, Setting.UnmatchedIn, Setting.ProtectedIn, Setting.RestoreKey, Setting.OpForRecorded;
    forall other | other in PlanOf(s, recorded) ensures !Touches(other, id) {
      OpOrigin(s, recorded, other);
      if i :| 0 <= i < |s.entries| && s.OpFor(i) == Some(other) {
        if !other.Failed? {
          UpdateIs(s, i);
        }
      }
    }
  }

  lemma GivesBack(s: Setting, op: Op, echo: Echo)
    requires (op.Restore? && op.about in s.live) || (op.Forget? && op.about !in s.live)
    requires KeepsSets(echo)
    ensures
      var id := op.about;
      var h := Execute(Home(s.live, s.originals), op, echo);
      && id !in h.originals && (id in h.live <==> id in s.live)
      && (op.Restore? ==> forall f ::
            if f in op.params then Once(op.params[f]) ==> FieldsEqual(At(h.live[id].fields, f), op.params[f])
            else At(h.live[id].fields, f) == At(s.live[id].fields, f))
  {
    hide FieldsEqual, KeepsSets;
    if op.Restore? {
      forall f <- op.params ensures Once(op.params[f]) ==> FieldsEqual(Stored(op.params[f], echo), op.params[f]) {
        ReadsBackIff(op.params[f], echo);
      }
    }
  }
}
