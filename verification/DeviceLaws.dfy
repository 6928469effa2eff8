/** What executing a device plan does, and what a second plan is left with. */
module DeviceLaws {
  import opened Wrappers
  import opened DeviceFields
  import opened Devices
  import opened Listing

  datatype Home = Home(live: map<Id, Device>, originals: map<Id, Fields>)

  type Echo = seq<string> -> seq<string>

  function Written(live: Fields, params: Fields, echo: Echo): Fields {
    live + map f | f in params :: Stored(params[f], echo)
  }

  /** The originals of a device once it is updated: a field keeps the one recorded
      first. */
  function Recorded(originals: Fields, params: Fields, live: Fields): Fields {
    (map f | f in params :: Original(f, At(live, f))) + originals
  }

  function OriginalsOf(h: Home, id: Id): Fields {
    if id in h.originals then h.originals[id] else map[]
  }

  /** One op carried out. Failed ops are skipped, and so is one whose device is
      gone. */
  function Execute(h: Home, op: Op, echo: Echo): Home {
    match op
    case Failed(_, _) => h
    case Forget(_, id) => h.(originals := h.originals - {id})
    case Update(_, id, params) =>
      if id !in h.live then h
      else
        var d := h.live[id];
        Home(
          h.live[id := d.(fields := Written(d.fields, params, echo))],
          h.originals[id := Recorded(OriginalsOf(h, id), params, d.fields)])
    case Restore(_, id, params) =>
      if id !in h.live then h
      else
        var d := h.live[id];
        Home(h.live[id := d.(fields := Written(d.fields, params, echo))], h.originals - {id})
  }

  function ExecuteAll(h: Home, ops: seq<Op>, echo: Echo): Home {
    if ops == [] then h
    else Execute(ExecuteAll(h, ops[..|ops| - 1], echo), ops[|ops| - 1], echo)
  }

  // ---------- one device at a time ----------

  /** All that is known of one device. */
  datatype Slot = Slot(live: Option<Device>, originals: Option<Fields>)

  function SlotOf(h: Home, id: Id): Slot {
    Slot(Lookup(h.live, id), Lookup(h.originals, id))
  }

  predicate Touches(op: Op, id: Id) {
    !op.Failed? && op.about == id
  }

  lemma ExecuteElsewhere(h: Home, op: Op, echo: Echo, id: Id)
    requires !Touches(op, id)
    ensures SlotOf(Execute(h, op, echo), id) == SlotOf(h, id)
  {
  }

  lemma ExecuteHere(h: Home, other: Home, op: Op, echo: Echo)
    requires SlotOf(h, op.about) == SlotOf(other, op.about)
    ensures SlotOf(Execute(h, op, echo), op.about) == SlotOf(Execute(other, op, echo), op.about)
  {
  }

  lemma {:induction false} DeviceStays(h: Home, ops: seq<Op>, echo: Echo, id: Id)
    requires forall op | op in ops :: !Touches(op, id)
    ensures SlotOf(ExecuteAll(h, ops, echo), id) == SlotOf(h, id)
  {
    hide Execute;
    if ops != [] {
      var last := |ops| - 1;
      DeviceStays(h, ops[..last], echo, id);
      ExecuteElsewhere(ExecuteAll(h, ops[..last], echo), ops[last], echo, id);
    }
  }

  predicate OneEach(ops: seq<Op>) {
    forall j, k | 0 <= j < k < |ops| && !ops[j].Failed? && !ops[k].Failed? :: ops[j].about != ops[k].about
  }

  /** With one op per device, each does what it would do on its own. */
  lemma {:induction false} DeviceGets(h: Home, ops: seq<Op>, echo: Echo, i: nat)
    requires OneEach(ops) && i < |ops| && !ops[i].Failed?
    ensures SlotOf(ExecuteAll(h, ops, echo), ops[i].about) == SlotOf(Execute(h, ops[i], echo), ops[i].about)
    decreases |ops|
  {
    hide Execute;
    var last := |ops| - 1;
    var before := ExecuteAll(h, ops[..last], echo);
    if i == last {
      forall op | op in ops[..last] ensures !Touches(op, ops[i].about) {
        var j :| 0 <= j < last && ops[j] == op;
      }
      DeviceStays(h, ops[..last], echo, ops[i].about);
      ExecuteHere(before, h, ops[i], echo);
    } else {
      DeviceGets(h, ops[..last], echo, i);
      ExecuteElsewhere(before, ops[last], echo, ops[i].about);
    }
  }

  lemma PlanHasOneEach(s: Setting, recorded: seq<Id>)
    requires Distinct(recorded) && AsSet(recorded) == s.originals.Keys
    ensures OneEach(PlanOf(s, recorded))
  {
    hide PlanOf, Distinct;
    var ops := PlanOf(s, recorded);
    forall j, k | 0 <= j < k < |ops| && !ops[j].Failed? && !ops[k].Failed? ensures ops[j].about != ops[k].about {
      OneOpPerDevice(s, recorded, j, k);
    }
  }

  // ---------- the whole plan ----------

  ghost function After(s: Setting, recorded: seq<Id>, echo: Echo): Home {
    ExecuteAll(Home(s.live, s.originals), PlanOf(s, recorded), echo)
  }

  /** The setting of the next plan. */
  ghost function Again(s: Setting, recorded: seq<Id>, echo: Echo): Setting {
    s.(live := After(s, recorded, echo).live, originals := After(s, recorded, echo).originals)
  }

  /** What a plan says about one device. */
  predicate Plans(ops: seq<Op>, op: Op) {
    op in ops && !op.Failed?
  }

  lemma DeviceAfter(s: Setting, recorded: seq<Id>, echo: Echo, op: Op)
    requires Distinct(recorded) && AsSet(recorded) == s.originals.Keys && Plans(PlanOf(s, recorded), op)
    ensures SlotOf(After(s, recorded, echo), op.about) == SlotOf(Execute(Home(s.live, s.originals), op, echo), op.about)
  {
    hide Execute, PlanOf, ExecuteAll, Distinct;
    PlanHasOneEach(s, recorded);
    var ops := PlanOf(s, recorded);
    var i :| 0 <= i < |ops| && ops[i] == op;
    DeviceGets(Home(s.live, s.originals), ops, echo, i);
  }

  lemma DeviceAfterNothing(s: Setting, recorded: seq<Id>, echo: Echo, id: Id)
    requires forall op | op in PlanOf(s, recorded) :: !Touches(op, id)
    ensures SlotOf(After(s, recorded, echo), id) == SlotOf(Home(s.live, s.originals), id)
  {
    hide Execute, PlanOf, ExecuteAll;
    DeviceStays(Home(s.live, s.originals), PlanOf(s, recorded), echo, id);
  }

  /** Nothing a match looks at ever changes. */
  lemma {:induction false} IdentityStays(h: Home, ops: seq<Op>, echo: Echo)
    ensures
      var after := ExecuteAll(h, ops, echo).live;
      && after.Keys == h.live.Keys
      && forall id <- after :: after[id].name == h.live[id].name && after[id].identifiers == h.live[id].identifiers
  {
    if ops != [] {
      IdentityStays(h, ops[..|ops| - 1], echo);
    }
  }

  lemma MatchesStay(s: Setting, recorded: seq<Id>, echo: Echo)
    ensures
      var next := Again(s, recorded, echo);
      && next.live.Keys == s.live.Keys
      && (forall i | 0 <= i < |s.entries| :: next.Matches(i) == s.Matches(i))
      && (forall id :: next.Claimants(id) == s.Claimants(id))
      && (forall id :: next.Protected(id) <==> s.Protected(id))
      && (next.Unmatched() <==> s.Unmatched())
  {
    hide ExecuteAll, PlanOf;
    IdentityStays(Home(s.live, s.originals), PlanOf(s, recorded), echo);
    var next := Again(s, recorded, echo);
    forall i | 0 <= i < |s.entries| ensures next.Matches(i) == s.Matches(i) {
      assert forall id <- s.live ::
          Fits(s.entries[i].choice, id, next.live[id], s.rules) <==> Fits(s.entries[i].choice, id, s.live[id], s.rules);
    }
  }

  // ---------- planning again ----------

  /** Where an op of the plan comes from. */
  lemma OpOrigin(s: Setting, recorded: seq<Id>, op: Op)
    requires Distinct(recorded)
    ensures op in PlanOf(s, recorded) <==>
            || (exists i | 0 <= i < |s.entries| :: s.OpFor(i) == Some(op))
            || (op.about in recorded && op.about in s.originals && !s.Protected(op.about)
                && op == s.OpForRecorded(s.RestoreKey(op.about), op.about, s.Unmatched()))
  {
    hide Setting.OpFor, Setting.RestoreKey, Setting.ProtectedIn, Setting.UnmatchedIn, EntryOps, RecordedOps, Distinct;
    InEntryOps(s, |s.entries|, op);
    RecordedOpsAre(s, recorded);
  }

  /** A device an entry with fields has to itself is touched by that entry's
      update, if at all. */
  lemma OnlyItsEntry(s: Setting, recorded: seq<Id>, i: nat, id: Id, op: Op)
    requires Distinct(recorded) && i < |s.entries| && s.entries[i].fields != NOTHING && s.Matches(i) == {id}
    requires op in PlanOf(s, recorded) && Touches(op, id)
    ensures s.OpFor(i) == Some(op)
  {
    hide Setting.OpFor, Setting.RestoreKey, Setting.UnmatchedIn, PlanOf, Matching;
    assert s.Protected(id);
    OpOrigin(s, recorded, op);
    var m :| 0 <= m < |s.entries| && s.OpFor(m) == Some(op);
    UpdateIs(s, m);
    assert i in s.Claimants(id);
  }

  /** What an update leaves needs no other one. */
  lemma UpdatedIsSettled(s: Setting, entry: Entry, id: Id, echo: Echo, next: Setting)
    requires KeepsSets(echo) && id in s.live && id in next.live && next.rules == s.rules
    requires s.OpOn(entry, id).Some? && s.OpOn(entry, id).value.Update?
    requires
      var h := Execute(Home(s.live, s.originals), s.OpOn(entry, id).value, echo);
      next.live[id] == h.live[id] && id in next.originals && next.originals[id] == h.originals[id]
    ensures next.OpOn(entry, id) == None
  {
    hide Params, FieldsEqual, KeepsSets;
    var params := Params(entry.fields, s.rules.resolve).value;
    ParamsAreSettable(entry.fields, s.rules.resolve);
    forall f <- params ensures FieldsEqual(At(next.live[id].fields, f), params[f]) {
      ReadsBackIff(params[f], echo);
    }
    assert "disabled_by" in params ==> UserOwned(Stored(params["disabled_by"], echo));
  }

  lemma SlotsSame(h: Home, other: Home, id: Id)
    requires SlotOf(h, id) == SlotOf(other, id)
    ensures (id in h.live <==> id in other.live) && (id in h.live ==> h.live[id] == other.live[id])
    ensures (id in h.originals <==> id in other.originals) && (id in h.originals ==> h.originals[id] == other.originals[id])
  {
  }

  /** The next plan for an entry: the failure it had, or nothing. */
  lemma EntryAgain(s: Setting, recorded: seq<Id>, echo: Echo, i: nat)
    requires Distinct(recorded) && AsSet(recorded) == s.originals.Keys && KeepsSets(echo) && i < |s.entries|
    ensures
      var op := s.OpFor(i);
      Again(s, recorded, echo).OpFor(i) == if op.Some? && op.value.Failed? then op else None
  {
    hide Distinct, PlanOf, After, Matching, Execute, Setting.OpOn, Setting.ProtectedIn, Setting.UnmatchedIn, KeepsSets;
    MatchesStay(s, recorded, echo);
    var next := Again(s, recorded, echo);
    if |s.Matches(i)| == 1 {
      var id := Only(s.Matches(i));
      OnlyIsTheOne(s.Matches(i), id);
      if id in s.live && |s.Claimants(id)| == 1 {
        HeldEntryAgain(s, recorded, echo, i, id);
      }
    }
  }

  lemma HeldEntryAgain(s: Setting, recorded: seq<Id>, echo: Echo, i: nat, id: Id)
    requires Distinct(recorded) && AsSet(recorded) == s.originals.Keys && KeepsSets(echo) && i < |s.entries|
    requires s.Matches(i) == {id} && id in s.live && |s.Claimants(id)| == 1 && s.OpFor(i) == s.OpOn(s.entries[i], id)
    ensures
      var next := Again(s, recorded, echo);
      var op := s.OpOn(s.entries[i], id);
      && id in next.live
      && next.OpOn(s.entries[i], id) == if op.Some? && op.value.Failed? then op else None
  {
    hide Distinct, PlanOf, After, Matching, Execute, Setting.OpFor, Setting.ProtectedIn, Setting.UnmatchedIn, KeepsSets;
    MatchesStay(s, recorded, echo);
    var next := Again(s, recorded, echo);
    var entry := s.entries[i];
    var op := s.OpOn(entry, id);
    if op.Some? && op.value.Update? {
      OpOrigin(s, recorded, op.value);
      DeviceAfter(s, recorded, echo, op.value);
      var done := Execute(Home(s.live, s.originals), op.value, echo);
      UpdateLeaves(Home(s.live, s.originals), op.value, echo);
      SlotsSame(After(s, recorded, echo), done, id);
      UpdatedIsSettled(s, entry, id, echo, next);
    } else if entry.fields != NOTHING {
      forall other | other in PlanOf(s, recorded) ensures !Touches(other, id) {
        if Touches(other, id) {
          OnlyItsEntry(s, recorded, i, id, other);
        }
      }
      DeviceAfterNothing(s, recorded, echo, id);
      SlotsSame(After(s, recorded, echo), Home(s.live, s.originals), id);
    }
  }

  lemma UpdateLeaves(h: Home, op: Op, echo: Echo)
    requires op.Update? && op.about in h.live
    ensures op.about in Execute(h, op, echo).live && op.about in Execute(h, op, echo).originals
  {
  }

  /** The next plan for a device no entry protects: it is off the record, or its
      restore fails as it did. */
  lemma RecordAgain(s: Setting, recorded: seq<Id>, echo: Echo, id: Id)
    requires Distinct(recorded) && AsSet(recorded) == s.originals.Keys && !s.Protected(id)
    ensures
      var next := Again(s, recorded, echo);
      && next.RestoreKey(id) == s.RestoreKey(id)
      && (id in next.originals <==>
            id in s.originals && s.OpForRecorded(s.RestoreKey(id), id, s.Unmatched()).Failed?)
      && (id in next.originals ==>
            next.OpForRecorded(next.RestoreKey(id), id, next.Unmatched()) ==
            s.OpForRecorded(s.RestoreKey(id), id, s.Unmatched()))
  {
    hide Distinct, PlanOf, After, Matching, Execute, Setting.OpFor, Setting.ProtectedIn, Setting.UnmatchedIn, Setting.ClaimantsIn;
    MatchesStay(s, recorded, echo);
    RestoreKeyStays(s, Again(s, recorded, echo), id);
    assert id in AsSet(recorded) <==> id in recorded;
    var key := s.RestoreKey(id);
    if id in s.originals && !s.OpForRecorded(key, id, s.Unmatched()).Failed? {
      var op := s.OpForRecorded(key, id, s.Unmatched());
      OpOrigin(s, recorded, op);
      DeviceAfter(s, recorded, echo, op);
      OffTheRecord(Home(s.live, s.originals), op, echo);
      SlotsSame(After(s, recorded, echo), Execute(Home(s.live, s.originals), op, echo), id);
    } else {
      forall op | op in PlanOf(s, recorded) ensures !Touches(op, id) {
        OpOrigin(s, recorded, op);
        if exists i | 0 <= i < |s.entries| :: s.OpFor(i) == Some(op) {
          var i :| 0 <= i < |s.entries| && s.OpFor(i) == Some(op);
          if !op.Failed? {
            UpdateIs(s, i);
          }
        }
      }
      DeviceAfterNothing(s, recorded, echo, id);
      SlotsSame(After(s, recorded, echo), Home(s.live, s.originals), id);
    }
  }

  lemma OffTheRecord(h: Home, op: Op, echo: Echo)
    requires op.Forget? || (op.Restore? && op.about in h.live)
    ensures op.about !in Execute(h, op, echo).originals
  {
  }

  lemma RestoreKeyStays(s: Setting, next: Setting, id: Id)
    requires next.entries == s.entries && next.Claimants(id) == s.Claimants(id)
    ensures next.RestoreKey(id) == s.RestoreKey(id)
  {
    hide Setting.ClaimantsIn;
    if |s.Claimants(id)| == 1 {
      var k := s.Claimant(id);
      AloneIs(s.Claimants(id), k);
      assert next.Claimant(id) in {k};
    }
  }

  /** Executing a plan settles everything that can be: planning again yields only
      failed ops, exactly those that failed before. */
  lemma ReplanOnlyFails(s: Setting, recorded: seq<Id>, echo: Echo, again: seq<Id>, op: Op)
    requires Distinct(recorded) && AsSet(recorded) == s.originals.Keys && KeepsSets(echo)
    requires Distinct(again) && AsSet(again) == After(s, recorded, echo).originals.Keys
    ensures op in PlanOf(Again(s, recorded, echo), again) <==> op.Failed? && op in PlanOf(s, recorded)
  {
    hide Distinct, PlanOf, After, Matching, Execute, Setting.OpFor, Setting.ProtectedIn, Setting.UnmatchedIn, Setting.ClaimantsIn, Setting.RestoreKey, KeepsSets, Setting.OpForRecorded;
    var next := Again(s, recorded, echo);
    MatchesStay(s, recorded, echo);
    OpOrigin(s, recorded, op);
    OpOrigin(next, again, op);
    forall i | 0 <= i < |s.entries|
      ensures next.OpFor(i) == if s.OpFor(i).Some? && s.OpFor(i).value.Failed? then s.OpFor(i) else None
    {
      EntryAgain(s, recorded, echo, i);
    }
    assert op.about in AsSet(again) <==> op.about in again;
    assert op.about in AsSet(recorded) <==> op.about in recorded;
    if !s.Protected(op.about) {
      RecordAgain(s, recorded, echo, op.about);
    }
  }

  // ---------- giving back ----------

  /** The device as it is before any entry manages it: labels each once. */
  predicate Plain(fields: Fields) {
    forall f <- fields :: fields[f].Labels? ==> Distinct(fields[f].ids)
  }

  /** Nothing but updates of settable fields happens to the device. */
  predicate OnlyUpdated(ops: seq<Op>, id: Id) {
    forall op | op in ops && Touches(op, id) :: op.Update? && op.params.Keys <= RESTORABLE
  }

  /** The record tells what the device had before, and what is not on the record
      it still has. */
  ghost predicate Remembers(h: Home, id: Id, was: Fields) {
    && id in h.live
    && OriginalsOf(h, id).Keys <= RESTORABLE
    && forall f :: if f in OriginalsOf(h, id) then OriginalsOf(h, id)[f] == Original(f, At(was, f))
                   else At(h.live[id].fields, f) == At(was, f)
  }

  lemma UpdateRemembers(h: Home, op: Op, echo: Echo, was: Fields)
    requires Remembers(h, op.about, was) && op.Update? && op.params.Keys <= RESTORABLE
    ensures Remembers(Execute(h, op, echo), op.about, was)
  {
    var id := op.about;
    var after := Execute(h, op, echo);
    forall f ensures if f in OriginalsOf(after, id) then OriginalsOf(after, id)[f] == Original(f, At(was, f))
                     else At(after.live[id].fields, f) == At(was, f)
    {
      assert f in OriginalsOf(after, id) <==> f in op.params || f in OriginalsOf(h, id);
    }
  }

  lemma {:induction false} UpdatesRemember(h: Home, ops: seq<Op>, echo: Echo, id: Id)
    requires id in h.live && id !in h.originals && OnlyUpdated(ops, id)
    ensures Remembers(ExecuteAll(h, ops, echo), id, h.live[id].fields)
  {
    hide Execute, Remembers;
    if ops == [] {
      NothingRecorded(h, id);
    } else {
      var last := |ops| - 1;
      UpdatesRemember(h, ops[..last], echo, id);
      var before := ExecuteAll(h, ops[..last], echo);
      if Touches(ops[last], id) {
        UpdateRemembers(before, ops[last], echo, h.live[id].fields);
      } else {
        ExecuteElsewhere(before, ops[last], echo, id);
        SameIsRemembered(before, Execute(before, ops[last], echo), id, h.live[id].fields);
      }
    }
  }

  lemma NothingRecorded(h: Home, id: Id)
    requires id in h.live && id !in h.originals
    ensures Remembers(h, id, h.live[id].fields)
  {
  }

  lemma SameIsRemembered(h: Home, after: Home, id: Id, was: Fields)
    requires Remembers(h, id, was) && SlotOf(after, id) == SlotOf(h, id)
    ensures Remembers(after, id, was)
  {
    SlotsSame(after, h, id);
  }

  /** A device that is updated any number of times, with whatever is done to other
      devices in between, and restored once no entry means it, has the values of
      before the first update back: label order aside, and null where its
      `disabled_by` was nothing a restore could send. */
  lemma RestoreGivesBack(h: Home, ops: seq<Op>, id: Id, key: Key, echo: Echo, f: string)
    requires KeepsSets(echo) && id in h.live && id !in h.originals && Plain(h.live[id].fields)
    requires OnlyUpdated(ops, id) && id in ExecuteAll(h, ops, echo).originals
    ensures
      var managed := ExecuteAll(h, ops, echo);
      var restored := Execute(managed, Restore(key, id, RestoreParams(managed.originals[id])), echo);
      var was := At(h.live[id].fields, f);
      && id in restored.live && id !in restored.originals
      && FieldsEqual(At(restored.live[id].fields, f), if f in managed.originals[id] then Original(f, was) else was)
  {
    hide ExecuteAll;
    UpdatesRemember(h, ops, echo, id);
    var managed := ExecuteAll(h, ops, echo);
    var was := At(h.live[id].fields, f);
    var originals := managed.originals[id];
    assert originals == OriginalsOf(managed, id);
    if f in originals {
      assert originals[f] == Original(f, was) && f in RestoreParams(originals);
      ReadsBackIff(Original(f, was), echo);
    }
  }

  /** A field that was sent is on the record from then on. */
  lemma {:induction false} SentIsRecorded(h: Home, ops: seq<Op>, echo: Echo, i: nat)
    requires i < |ops| && ops[i].Update? && ops[i].about in h.live && OnlyUpdated(ops, ops[i].about)
    ensures ops[i].about in ExecuteAll(h, ops, echo).originals
    ensures ops[i].params.Keys <= ExecuteAll(h, ops, echo).originals[ops[i].about].Keys
    decreases |ops|
  {
    hide ExecuteAll;
    var last := |ops| - 1;
    var before := ExecuteAll(h, ops[..last], echo);
    IdentityStays(h, ops[..last], echo);
    assert ExecuteAll(h, ops, echo) == Execute(before, ops[last], echo) by {
      LastExecuted(h, ops, echo);
    }
    if i < last {
      SentIsRecorded(h, ops[..last], echo, i);
      assert ops[last] in ops;
    }
  }

  lemma LastExecuted(h: Home, ops: seq<Op>, echo: Echo)
    requires ops != []
    ensures ExecuteAll(h, ops, echo) == Execute(ExecuteAll(h, ops[..|ops| - 1], echo), ops[|ops| - 1], echo)
  {
  }
}
