/** Planning the device registry: which devices to update for a declared entry,
    and which recorded ones to restore, forget or leave alone. */
module Devices {
  import opened Wrappers
  import opened DeviceFields
  import opened Listing

  /** The keys of a match that are given; "" for one that is not. */
  datatype Match = Match(deviceId: Id, name: string, identifier: string)

  /** A live device: the integration's name for it, and what can be set. */
  datatype Device = Device(name: string, identifiers: seq<(string, string)>, fields: Fields)

  /** A declared entry. One without fields only names a device. */
  datatype Entry = Entry(key: Key, choice: Match, fields: Declared)

  /** How names compare, and what references resolve to. */
  datatype Rules = Rules(sameName: (string, string) -> bool, resolve: Resolver)

  /** `about` is the device an op concerns; "" for a failed entry. */
  datatype Op =
    | Update(key: Key, about: Id, params: Fields)
    | Restore(key: Key, about: Id, params: Fields)
    | Forget(key: Key, about: Id)
    | Failed(key: Key, about: Id)

  // ---------- matching ----------

  predicate HasIdentifier(identifiers: seq<(string, string)>, want: string) {
    exists i | 0 <= i < |identifiers| :: identifiers[i].0 + ":" + identifiers[i].1 == want
  }

  predicate Fits(m: Match, id: Id, d: Device, rules: Rules) {
    && (m.deviceId != "" ==> id == m.deviceId)
    && (m.name != "" ==> rules.sameName(d.name, m.name))
    && (m.identifier != "" ==> HasIdentifier(d.identifiers, m.identifier))
  }

  /** Every live device that satisfies all the given keys. */
  function Matching(m: Match, live: map<Id, Device>, rules: Rules): set<Id> {
    set id <- live | Fits(m, id, live[id], rules)
  }

  /** A device an integration disabled is not ours to enable. */
  predicate Guarded(d: Device) {
    !UserOwned(At(d.fields, "disabled_by"))
  }

  // ---------- the plan ----------

  datatype Setting = Setting(
    entries: seq<Entry>, live: map<Id, Device>, originals: map<Id, Fields>, rules: Rules)
  {
    function Matches(i: nat): set<Id>
      requires i < |entries|
    {
      Matching(entries[i].choice, live, rules)
    }

    /** The entries, of the first `n`, that resolve to this device and no other. */
    function ClaimantsIn(n: nat, id: Id): set<nat>
      requires n <= |entries|
    {
      set i | 0 <= i < n && Matches(i) == {id}
    }

    function Claimants(id: Id): set<nat> {
      ClaimantsIn(|entries|, id)
    }

    /** The devices an entry with fields means, whether it can have them or not. */
    ghost predicate ProtectedIn(n: nat, id: Id)
      requires n <= |entries|
    {
      exists i | 0 <= i < n :: entries[i].fields != NOTHING && id in Matches(i)
    }

    ghost predicate Protected(id: Id) {
      ProtectedIn(|entries|, id)
    }

    /** Some entry with fields matches nothing at all. */
    ghost predicate UnmatchedIn(n: nat)
      requires n <= |entries|
    {
      exists i | 0 <= i < n :: entries[i].fields != NOTHING && Matches(i) == {}
    }

    ghost predicate Unmatched() {
      UnmatchedIn(|entries|)
    }

    predicate FirstRecording(id: Id, params: Fields) {
      id !in originals || exists f <- params :: f !in originals[id]
    }

    /** What an entry that has a device to itself plans for it. */
    function OpOn(entry: Entry, id: Id): Option<Op>
      requires id in live
    {
      if entry.fields == NOTHING then None
      else if entry.fields.disabled.Some? && Guarded(live[id]) then Some(Failed(entry.key, ""))
      else
        var params := Params(entry.fields, rules.resolve);
        if params.None? then Some(Failed(entry.key, ""))
        else if Drifts(params.value, live[id].fields) || FirstRecording(id, params.value) then
          Some(Update(entry.key, id, params.value))
        else None
    }

    /** The one entry that has a device to itself. */
    ghost function Claimant(id: Id): nat
      requires |Claimants(id)| == 1
    {
      var i :| i in Claimants(id);
      i
    }

    ghost function OpFor(i: nat): Option<Op>
      requires i < |entries|
    {
      if |Matches(i)| != 1 then Some(Failed(entries[i].key, ""))
      else
        var id := Only(Matches(i));
        if id !in live || |Claimants(id)| != 1 then Some(Failed(entries[i].key, ""))
        else OpOn(entries[i], id)
    }

    /** The name a restore goes by: that of the entry which names the device
        without declaring fields, or the device's own. */
    ghost function RestoreKey(id: Id): Key {
      if |Claimants(id)| == 1 && Claimant(id) < |entries| then entries[Claimant(id)].key else id
    }

    /** What is planned for a recorded device that no entry protects; `held` if
        some entry matches nothing, which may be the one that meant it. */
    function OpForRecorded(key: Key, id: Id, held: bool): Op
      requires id in originals
    {
      if id !in live then Forget(key, id)
      else if held then Failed(key, id)
      else
        var params := RestoreParams(originals[id]);
        if "disabled_by" in params && Guarded(live[id]) then Failed(key, id)
        else Restore(key, id, params)
    }
  }

  ghost function EntryOps(s: Setting, n: nat): seq<Op>
    requires n <= |s.entries|
  {
    if n == 0 then []
    else EntryOps(s, n - 1) + if s.OpFor(n - 1).Some? then [s.OpFor(n - 1).value] else []
  }

  ghost function RecordedOps(s: Setting, order: seq<Id>): seq<Op> {
    if order == [] then []
    else
      var id := order[|order| - 1];
      RecordedOps(s, order[..|order| - 1]) +
      if id in s.originals && !s.Protected(id) then [s.OpForRecorded(s.RestoreKey(id), id, s.Unmatched())] else []
  }

  /** The plan: what the entries get, in their order, and then one op for each
      recorded device that no entry protects, in the order of the record. */
  ghost function PlanOf(s: Setting, recorded: seq<Id>): seq<Op> {
    EntryOps(s, |s.entries|) + RecordedOps(s, recorded)
  }

  // ---------- the planner ----------

  /** The ids of the matching devices; `order` is the live list. */
  method MatchDevices(m: Match, order: seq<Id>, live: map<Id, Device>, rules: Rules) returns (ids: seq<Id>)
    requires Distinct(order) && AsSet(order) == live.Keys
    ensures AsSet(ids) == Matching(m, live, rules) && |ids| == |Matching(m, live, rules)|
  {
    hide Fits;
    ids := [];
    for i := 0 to |order|
      invariant forall id :: id in ids <==> id in order[..i] && id in live && Fits(m, id, live[id], rules)
      invariant Distinct(ids)
    {
      var id := order[i];
      assert id in AsSet(order);
      assert order[..i + 1] == order[..i] + [id];
      if Fits(m, id, live[id], rules) {
        ids := ids + [id];
      }
    }
    assert order[..|order|] == order;
    assert forall id <- live :: id in AsSet(order);
    assert AsSet(ids) == Matching(m, live, rules);
    DistinctCount(ids);
  }

  lemma {:induction false} DistinctCount(ids: seq<Id>)
    requires Distinct(ids)
    ensures |AsSet(ids)| == |ids|
  {
    if ids != [] {
      var last := |ids| - 1;
      DistinctCount(ids[..last]);
      assert AsSet(ids) == AsSet(ids[..last]) + {ids[last]};
    }
  }

  /** Matches every entry before any is planned, so that a device two of them
      pick is known when the first comes up. */
  method Resolve(s: Setting, order: seq<Id>) returns (resolved: seq<seq<Id>>, claimedBy: map<Id, set<nat>>)
    requires Distinct(order) && AsSet(order) == s.live.Keys
    ensures |resolved| == |s.entries|
    ensures forall i | 0 <= i < |s.entries| :: Resolves(s, i, resolved[i])
    ensures forall id :: s.Claimants(id) == ClaimedBy(claimedBy, id)
  {
    hide Distinct, AsSet, Matching;
    resolved, claimedBy := [], map[];
    assert forall id :: s.ClaimantsIn(0, id) == ClaimedBy(claimedBy, id);
    for i := 0 to |s.entries|
      invariant |resolved| == i
      invariant forall k | 0 <= k < i :: Resolves(s, k, resolved[k])
      invariant forall id :: s.ClaimantsIn(i, id) == ClaimedBy(claimedBy, id)
    {
      var ids := MatchDevices(s.entries[i].choice, order, s.live, s.rules);
      assert Resolves(s, i, ids);
      resolved := resolved + [ids];
      ghost var before := claimedBy;
      if |ids| == 1 {
        claimedBy := claimedBy[ids[0] := ClaimedBy(claimedBy, ids[0]) + {i}];
      }
      forall id ensures s.ClaimantsIn(i + 1, id) == ClaimedBy(claimedBy, id) {
        ClaimantsStep(s, i, ids, before, claimedBy, id);
      }
    }
  }

  predicate Resolves(s: Setting, i: nat, ids: seq<Id>)
    requires i < |s.entries|
  {
    AsSet(ids) == s.Matches(i) && |ids| == |s.Matches(i)|
  }

  function ClaimedBy(claimedBy: map<Id, set<nat>>, id: Id): set<nat> {
    if id in claimedBy then claimedBy[id] else {}
  }

  lemma ClaimantsStep(s: Setting, i: nat, ids: seq<Id>, before: map<Id, set<nat>>, after: map<Id, set<nat>>, id: Id)
    requires i < |s.entries| && Resolves(s, i, ids)
    requires s.ClaimantsIn(i, id) == ClaimedBy(before, id)
    requires after == if |ids| == 1 then before[ids[0] := ClaimedBy(before, ids[0]) + {i}] else before
    ensures s.ClaimantsIn(i + 1, id) == ClaimedBy(after, id)
  {
    hide Matching, AsSet;
    if |ids| == 1 {
      SingleMatch(ids);
    } else {
      assert s.Matches(i) != {id};
    }
    ClaimantsGrow(s, i, id);
  }

  lemma ClaimantsGrow(s: Setting, i: nat, id: Id)
    requires i < |s.entries|
    ensures s.ClaimantsIn(i + 1, id) == if s.Matches(i) == {id} then s.ClaimantsIn(i, id) + {i} else s.ClaimantsIn(i, id)
  {
    hide Matching;
  }

  lemma SingleMatch(ids: seq<Id>)
    requires |ids| == 1
    ensures AsSet(ids) == {ids[0]}
  {
  }

  /** Plans one entry whose match picked these devices. */
  method PlanEntry(s: Setting, i: nat, ids: seq<Id>, claimants: set<nat>) returns (op: Option<Op>)
    requires i < |s.entries| && Resolves(s, i, ids)
    requires |ids| == 1 ==> claimants == s.Claimants(ids[0])
    ensures op == s.OpFor(i)
  {
    if |ids| != 1 {
      return Some(Failed(s.entries[i].key, ""));
    }
    SingleMatch(ids);
    OnlyIsTheOne(s.Matches(i), ids[0]);
    if |claimants| != 1 {
      return Some(Failed(s.entries[i].key, ""));
    }
    assert ids[0] in s.live;
    op := s.OpOn(s.entries[i], ids[0]);
  }

  /** An entry of the first `n`, without fields and alone on the device, gives
      its restore a name. */
  ghost predicate NamedBy(s: Setting, n: nat, id: Id, key: Key)
    requires n <= |s.entries|
  {
    exists k | 0 <= k < n :: s.Claimants(id) == {k} && s.entries[k].fields == NOTHING && key == s.entries[k].key
  }

  /** The names noted so far. */
  ghost predicate Names(s: Setting, n: nat, restoreKey: map<Id, Key>)
    requires n <= |s.entries|
  {
    && (forall id <- restoreKey :: NamedBy(s, n, id, restoreKey[id]))
    && forall k, id | 0 <= k < n && s.Claimants(id) == {k} && s.entries[k].fields == NOTHING :: id in restoreKey
  }

  lemma NamesStep(s: Setting, i: nat, ids: seq<Id>, claimants: set<nat>, restoreKey: map<Id, Key>)
    requires i < |s.entries| && Resolves(s, i, ids) && Names(s, i, restoreKey)
    requires |ids| == 1 ==> claimants == s.Claimants(ids[0])
    ensures Names(
              s, i + 1,
              if s.entries[i].fields == NOTHING && |ids| == 1 && |claimants| == 1 then
                restoreKey[ids[0] := s.entries[i].key]
              else restoreKey)
  {
    hide Matching, Resolves;
    NoteEntry(s, i, ids);
    if |ids| == 1 && |claimants| == 1 {
      AloneIs(claimants, i);
    }
  }

  /** Plans the entries, and notes what they protect, which devices they only
      name, and whether one of them matches nothing. */
  method PlanEntries(s: Setting, order: seq<Id>)
    returns (ops: seq<Op>, protected: set<Id>, restoreKey: map<Id, Key>, unmatched: bool)
    requires Distinct(order) && AsSet(order) == s.live.Keys
    ensures ops == EntryOps(s, |s.entries|)
    ensures forall id :: id in protected <==> s.Protected(id)
    ensures unmatched <==> s.Unmatched()
    ensures forall id | !s.Protected(id) :: s.RestoreKey(id) == if id in restoreKey then restoreKey[id] else id
  {
    hide Resolves, Distinct, AsSet, Matching, ClaimedBy, Setting.OpFor, Setting.RestoreKey, Setting.Matches, Setting.ClaimantsIn;
    assert Names(s, 0, map[]);
    assert !s.UnmatchedIn(0) && forall id :: !s.ProtectedIn(0, id) by {
    }
    var resolved, claimedBy := Resolve(s, order);
    ops, protected, restoreKey, unmatched := [], {}, map[], false;
    for i := 0 to |s.entries|
      invariant ops == EntryOps(s, i)
      invariant forall id :: id in protected <==> s.ProtectedIn(i, id)
      invariant unmatched <==> s.UnmatchedIn(i)
      invariant Names(s, i, restoreKey)
    {
      var entry, ids := s.entries[i], resolved[i];
      var claimants := if |ids| == 1 then ClaimedBy(claimedBy, ids[0]) else {};
      var op := PlanEntry(s, i, ids, claimants);
      if op.Some? {
        ops := ops + [op.value];
      }
      NoteEntry(s, i, ids);
      NamesStep(s, i, ids, claimants, restoreKey);
      if entry.fields != NOTHING {
        protected := protected + AsSet(ids);
        unmatched := unmatched || ids == [];
      } else if |ids| == 1 && |claimants| == 1 {
        restoreKey := restoreKey[ids[0] := entry.key];
      }
    }
    forall id | !s.Protected(id) ensures s.RestoreKey(id) == if id in restoreKey then restoreKey[id] else id {
      RestoreKeyIs(s, id, restoreKey);
    }
  }

  lemma NoteEntry(s: Setting, i: nat, ids: seq<Id>)
    requires i < |s.entries| && Resolves(s, i, ids)
    ensures forall id :: s.ProtectedIn(i + 1, id) <==>
              s.ProtectedIn(i, id) || (s.entries[i].fields != NOTHING && id in AsSet(ids))
    ensures s.UnmatchedIn(i + 1) <==> s.UnmatchedIn(i) || (s.entries[i].fields != NOTHING && ids == [])
    ensures forall id :: i in s.Claimants(id) <==> |ids| == 1 && ids[0] == id
  {
    hide Matching;
    if |ids| == 1 {
      SingleMatch(ids);
    } else {
      forall id ensures s.Matches(i) != {id} {
      }
    }
    assert AsSet(ids) == {} <==> ids == [] by {
      assert ids != [] ==> ids[0] in AsSet(ids);
    }
  }

  lemma AloneIs(claimants: set<nat>, i: nat)
    requires |claimants| == 1 && i in claimants
    ensures claimants == {i}
  {
    assert |claimants - {i}| == 0;
    assert claimants == claimants - {i} + {i};
  }

  lemma RestoreKeyIs(s: Setting, id: Id, restoreKey: map<Id, Key>)
    requires !s.Protected(id)
    requires Names(s, |s.entries|, restoreKey)
    ensures s.RestoreKey(id) == if id in restoreKey then restoreKey[id] else id
  {
    hide Matching;
    if |s.Claimants(id)| == 1 {
      var k := s.Claimant(id);
      AloneIs(s.Claimants(id), k);
      assert s.Matches(k) == {id};
      assert s.entries[k].fields == NOTHING;
      if id in restoreKey {
        var j :| 0 <= j < |s.entries| && s.Claimants(id) == {j} && restoreKey[id] == s.entries[j].key;
        assert k in {j};
      }
    }
  }

  /** The whole plan; `recorded` lists the devices of the record in order. */
  method PlanDevices(s: Setting, order: seq<Id>, recorded: seq<Id>) returns (ops: seq<Op>)
    requires Distinct(order) && AsSet(order) == s.live.Keys
    requires Distinct(recorded) && AsSet(recorded) == s.originals.Keys
    ensures ops == PlanOf(s, recorded)
  {
    hide Setting.RestoreKey, Setting.Protected, Setting.Unmatched, EntryOps, Distinct;
    var protected, restoreKey, unmatched;
    ops, protected, restoreKey, unmatched := PlanEntries(s, order);
    ghost var first := ops;
    for i := 0 to |recorded|
      invariant ops == first + RecordedOps(s, recorded[..i])
    {
      assert recorded[..i + 1][..i] == recorded[..i];
      var id := recorded[i];
      assert id in AsSet(recorded);
      if id in protected {
        continue;
      }
      var key := if id in restoreKey then restoreKey[id] else id;
      ops := ops + [s.OpForRecorded(key, id, unmatched)];
    }
    assert recorded[..|recorded|] == recorded;
  }

  // ---------- one op per device ----------

  lemma {:induction false} InEntryOps(s: Setting, n: nat, op: Op)
    requires n <= |s.entries|
    ensures op in EntryOps(s, n) <==> exists i | 0 <= i < n :: s.OpFor(i) == Some(op)
  {
    hide Setting.OpFor;
    if n > 0 {
      InEntryOps(s, n - 1, op);
    }
  }

  /** An update goes to the only device its entry matches, and no other entry
      matches just that one. */
  lemma UpdateIs(s: Setting, i: nat)
    requires i < |s.entries| && s.OpFor(i).Some? && !s.OpFor(i).value.Failed?
    ensures
      var op := s.OpFor(i).value;
      && op.Update? && op.key == s.entries[i].key
      && s.Matches(i) == {op.about} && s.Claimants(op.about) == {i}
      && s.Protected(op.about)
  {
    hide Matching;
    var id := Only(s.Matches(i));
    OnlyIsTheOne(s.Matches(i), id);
    AloneIs(s.Claimants(id), i);
  }

  predicate UpdateEachOnce(ops: seq<Op>) {
    forall j, k | 0 <= j < k < |ops| && ops[j].Update? && ops[k].Update? :: ops[j].about != ops[k].about
  }

  lemma {:induction false} UpdatesApart(s: Setting, n: nat)
    requires n <= |s.entries|
    ensures UpdateEachOnce(EntryOps(s, n))
  {
    hide Setting.OpFor, Setting.Matches, Setting.ClaimantsIn, Setting.ProtectedIn;
    if n > 0 && s.OpFor(n - 1).Some? {
      var before, last := EntryOps(s, n - 1), s.OpFor(n - 1).value;
      assert EntryOps(s, n) == before + [last];
      UpdatesApart(s, n - 1);
      forall j | 0 <= j < |before| && before[j].Update? && last.Update? ensures before[j].about != last.about {
        InEntryOps(s, n - 1, before[j]);
        var i :| 0 <= i < n - 1 && s.OpFor(i) == Some(before[j]);
        NotTwice(s, i, n - 1);
      }
      OneMoreUpdate(before, last);
    } else if n > 0 {
      UpdatesApart(s, n - 1);
      assert EntryOps(s, n) == EntryOps(s, n - 1);
    }
  }

  lemma OneMoreUpdate(ops: seq<Op>, last: Op)
    requires UpdateEachOnce(ops)
    requires forall j | 0 <= j < |ops| && ops[j].Update? && last.Update? :: ops[j].about != last.about
    ensures UpdateEachOnce(ops + [last])
  {
  }

  lemma NotTwice(s: Setting, i: nat, m: nat)
    requires i < m < |s.entries|
    requires s.OpFor(i).Some? && !s.OpFor(i).value.Failed? && s.OpFor(m).Some? && !s.OpFor(m).value.Failed?
    ensures s.OpFor(i).value.about != s.OpFor(m).value.about
  {
    hide Setting.OpFor, Setting.Matches, Setting.ClaimantsIn, Setting.ProtectedIn;
    UpdateIs(s, i);
    UpdateIs(s, m);
    assert m in {m} && m !in {i};
  }

  lemma {:induction false} RecordedOpsAre(s: Setting, order: seq<Id>)
    requires Distinct(order)
    ensures
      var ops := RecordedOps(s, order);
      && (forall op | op in ops ::
            op.about in s.originals && !s.Protected(op.about)
            && op == s.OpForRecorded(s.RestoreKey(op.about), op.about, s.Unmatched()))
      && (forall id | id in order && id in s.originals && !s.Protected(id) ::
            s.OpForRecorded(s.RestoreKey(id), id, s.Unmatched()) in ops)
      && (forall op | op in ops :: op.about in order)
      && (forall j, k | 0 <= j < k < |ops| :: ops[j].about != ops[k].about)
  {
    hide Setting.RestoreKey, Setting.ProtectedIn, Setting.UnmatchedIn;
    if order != [] {
      var last := |order| - 1;
      RecordedOpsAre(s, order[..last]);
      assert order == order[..last] + [order[last]];
      var before := RecordedOps(s, order[..last]);
      forall j | 0 <= j < |before| ensures before[j].about != order[last] {
        assert before[j] in before;
      }
    }
  }

  /** The plan never sends two ops to one device: what it updates it does not
      restore, and it does each only once. */
  lemma OneOpPerDevice(s: Setting, recorded: seq<Id>, j: nat, k: nat)
    requires Distinct(recorded) && AsSet(recorded) == s.originals.Keys
    requires j < k < |PlanOf(s, recorded)|
    requires !PlanOf(s, recorded)[j].Failed? && !PlanOf(s, recorded)[k].Failed?
    ensures PlanOf(s, recorded)[j].about != PlanOf(s, recorded)[k].about
  {
    hide Setting.OpFor, Setting.Matches, Setting.ClaimantsIn, Setting.ProtectedIn, Setting.RestoreKey, EntryOps, RecordedOps;
    var n := |s.entries|;
    var a, b := EntryOps(s, n), RecordedOps(s, recorded);
    UpdatesApart(s, n);
    RecordedOpsAre(s, recorded);
    var ops := PlanOf(s, recorded);
    if j < |a| {
      InEntryOps(s, n, a[j]);
      var i :| 0 <= i < n && s.OpFor(i) == Some(a[j]);
      UpdateIs(s, i);
      if k < |a| {
        InEntryOps(s, n, a[k]);
        var m :| 0 <= m < n && s.OpFor(m) == Some(a[k]);
        UpdateIs(s, m);
      } else {
        assert ops[k] in b;
      }
    } else {
      assert ops[j] == b[j - |a|] && ops[k] == b[k - |a|];
    }
  }

  /** A device two entries resolve to is updated by neither. */
  lemma SharedDeviceIsLeft(s: Setting, i: nat, j: nat, id: Id)
    requires i < j < |s.entries| && s.Matches(i) == {id} && s.Matches(j) == {id}
    ensures s.OpFor(i) == Some(Failed(s.entries[i].key, "")) && s.OpFor(j) == Some(Failed(s.entries[j].key, ""))
  {
    hide Matching;
    OnlyIsTheOne(s.Matches(i), id);
    if |s.Claimants(id)| == 1 {
      AloneIs(s.Claimants(id), i);
      assert j in s.Claimants(id);
    }
  }

  /** Every recorded device is either protected by an entry or has exactly one op
      of its own, which restores it, forgets it because it is gone, or says why
      it is held; and while an entry with fields matches nothing, nothing is
      restored. */
  lemma EveryRecordIsAccountedFor(s: Setting, recorded: seq<Id>, id: Id)
    requires Distinct(recorded) && AsSet(recorded) == s.originals.Keys && id in s.originals
    ensures
      var ops := RecordedOps(s, recorded);
      && (s.Protected(id) <==> forall op | op in ops :: op.about != id)
      && (forall j, k | 0 <= j < |ops| && 0 <= k < |ops| && ops[j].about == id == ops[k].about :: j == k)
      && (forall op | op in ops && op.about == id ::
            && (op.Forget? <==> id !in s.live)
            && (s.Unmatched() && id in s.live ==> op.Failed?)
            && !op.Update?)
  {
    hide Setting.ProtectedIn, Setting.UnmatchedIn, Setting.RestoreKey, RecordedOps;
    RecordedOpsAre(s, recorded);
    assert id in AsSet(recorded);
    if !s.Protected(id) {
      assert s.OpForRecorded(s.RestoreKey(id), id, s.Unmatched()).about == id;
    }
  }
}
