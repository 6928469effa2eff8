/** What Home Assistant holds and the agent remembers once an integration plan is
    executed, said of what was declared, live and remembered. */
module FlowOutcomes {
  import opened Wrappers
  import opened Listing
  import opened Flows
  import opened FlowLaws

  predicate SameTitle(a: Entry, item: Item) {
    a.domain == item.domain && a.title == item.title
  }

  predicate ManagedByADeclaredKey(s: Setting, id: Id) {
    exists item :: item in s.declared && item.key in s.memory.managed && s.memory.managed[item.key] == id
  }

  /** One of the first `n` items holds this entry afterwards. */
  ghost predicate TakenBefore(s: Setting, n: nat, id: Id)
    requires n <= |s.declared|
  {
    exists j :: 0 <= j < n && Lookup(s.After().memory.managed, s.declared[j].key) == Some(id)
  }

  /** The live entries of the item's domain and title that no declared key manages
      and no earlier item got. */
  ghost function Free(s: Setting, i: nat): set<Id>
    requires i < |s.declared|
  {
    set id <- s.live.byId |
      SameTitle(s.live.byId[id], s.declared[i]) && !ManagedByADeclaredKey(s, id) && !TakenBefore(s, i, id)
  }

  function Nameless(things: seq<Entry>, item: Item): set<nat> {
    set i | 0 <= i < |things| && SameTitle(things[i], item)
  }

  ghost function Matches(s: Setting, i: nat): nat
    requires i < |s.declared|
  {
    |Free(s, i)| + |Nameless(s.live.nameless, s.declared[i])|
  }

  predicate Has(s: Setting, i: nat)
    requires i < |s.declared|
  {
    var k := s.declared[i].key;
    k in s.memory.managed && s.memory.managed[k] in s.live.byId
  }

  /** A fingerprint is on file and is neither the present nor the older one of
      the data. */
  predicate OtherData(stored: Option<string>, data: Data, digest: Digest) {
    stored.Some? && stored.value != "" && stored.value != digest.hash(data) && stored.value != digest.legacy(data)
  }

  /** This very data is known to have failed. */
  predicate KnownToFail(stored: Option<string>, data: Data, digest: Digest) {
    stored.Some? && stored.value != "" && (stored.value == digest.hash(data) || stored.value == digest.legacy(data))
  }

  ghost predicate Fails(s: Setting, i: nat)
    requires i < |s.declared|
  {
    var item := s.declared[i];
    || item.data.None?
    || if Has(s, i) then OtherData(Lookup(s.memory.hashes, item.key), item.data.value, s.digest)
       else if Matches(s, i) == 0 then KnownToFail(Lookup(s.memory.failures, item.key), item.data.value, s.digest)
       else Matches(s, i) > 1 || Free(s, i) == {}
  }

  lemma {:induction false} NamelessCount(things: seq<Entry>, item: Item)
    ensures |Nameless(things, item)| == Fitting(things, Flows.Fits(item))
  {
    if things != [] {
      var last := |things| - 1;
      NamelessCount(things[..last], item);
      var before, thing := Nameless(things[..last], item), things[last];
      assert Nameless(things, item) == before + if SameTitle(thing, item) then {last} else {};
    }
  }

  lemma ClaimedBefore(s: Setting, i: nat, id: Id)
    requires s.Valid() && i <= |s.declared| && id in s.live.byId
    ensures id in s.At(i).claimed <==> ManagedByADeclaredKey(s, id) || TakenBefore(s, i, id)
  {
    hide Plan, ExecuteAll, WalkAll, VerdictOn, Lists, Injective, OpOf;
    AtStart(s);
    ClaimsGrow(s, 0, i);
    assert id in s.Start() <==> ManagedByADeclaredKey(s, id) by {
      if k :| k in s.memory.managed && k in Keys(s.declared) && s.memory.managed[k] == id {
        var item :| item in s.declared && item.key == k;
      }
    }
    if id in s.At(i).claimed && id !in s.Start() {
      var j :| 0 <= j < i && s.On(j).Adopts? && s.On(j).id == id;
      DeclaredIdAfter(s, j);
    }
    if TakenBefore(s, i, id) {
      var j :| 0 <= j < i && Lookup(s.After().memory.managed, s.declared[j].key) == Some(id);
      DeclaredIdAfter(s, j);
      assert s.declared[j] in s.declared;
      if s.On(j).Adopts? {
        AtStep(s, j);
        ClaimsGrow(s, j + 1, i);
      }
    }
  }

  lemma MatchesAre(s: Setting, i: nat)
    requires s.Valid() && i < |s.declared|
    ensures Free(s, i) == s.Matches(i)
    ensures Matches(s, i) == MatchCount(s.live, Flows.Fits(s.declared[i]), s.At(i).claimed)
  {
    hide Plan, ExecuteAll, WalkAll, VerdictOn, Lists, Injective, TakenBefore, ManagedByADeclaredKey;
    NamelessCount(s.live.nameless, s.declared[i]);
    forall id ensures id in Free(s, i) <==> id in s.Matches(i) {
      if id in s.live.byId {
        ClaimedBefore(s, i, id);
      }
    }
  }

  /** The verdict, in these terms. */
  lemma VerdictIs(s: Setting, i: nat)
    requires s.Valid() && i < |s.declared|
    ensures Fails(s, i) <==> OpOf(s.declared[i], s.On(i)) == Some(Failed(s.declared[i].key))
    ensures !Fails(s, i) ==>
              if Has(s, i) then s.On(i).Kept?
              else if Matches(s, i) == 0 then s.On(i).Creates?
              else s.On(i).Adopts? && Free(s, i) == {s.On(i).id}
  {
    hide Plan, ExecuteAll, WalkAll, Lists, Injective, Free;
    MatchesAre(s, i);
    var free := s.Matches(i);
    if |free| == 1 {
      OnlyIsTheOne(free, Only(free));
    }
  }

  lemma FailsIff(s: Setting, i: nat)
    requires s.Valid() && i < |s.declared|
    ensures Failed(s.declared[i].key) in s.Ops() <==> OpOf(s.declared[i], s.On(i)) == Some(Failed(s.declared[i].key))
  {
    hide Plan, ExecuteAll, WalkAll, VerdictOn, Lists, Injective, OpForDropped, OpOf;
    var op := Failed(s.declared[i].key);
    if OpOf(s.declared[i], s.On(i)) == Some(op) {
      OpIsPlanned(s, i);
    }
    if op in s.Ops() {
      OpOrigin(s, op);
      assert op.key in Keys(s.declared);
      var x :| 0 <= x < |s.declared| && OpOf(s.declared[x], s.On(x)) == Some(op);
      OpOfKey(s.declared[x], s.On(x));
    }
  }

  /** What an item gets: it keeps its entry, else takes the only free one of its
      domain and title, else has one made, and the fingerprint of its data is
      remembered. It fails, and nothing about it changes, exactly if its data is
      missing, or differs from that of the entry it has, or there is no single
      entry with an id to take, or nothing to take and the same data has failed
      before. */
  lemma ItemOutcome(s: Setting, i: nat)
    requires s.Valid() && i < |s.declared|
    ensures Failed(s.declared[i].key) in s.Ops() <==> Fails(s, i)
    ensures Fails(s, i) || Has(s, i) ==> SlotOf(s.After().memory, s.declared[i].key) == SlotOf(s.memory, s.declared[i].key)
    ensures !Fails(s, i) ==>
              var item := s.declared[i];
              var slot := SlotOf(s.After().memory, item.key);
              && slot.id.Some? && slot.id.value in s.After().live.byId
              && (!Has(s, i) ==> slot.hash == Some(s.digest.hash(item.data.value)) && slot.failure == None)
              && (!Has(s, i) && Matches(s, i) > 0 ==> Free(s, i) == {slot.id.value})
              && (!Has(s, i) && Matches(s, i) == 0 ==>
                    slot.id.value == s.made(item.key).id
                    && Create(item.key, Entry(item.domain, item.title), item.data.value) in s.Ops())
  {
    hide Plan, ExecuteAll, WalkAll, VerdictOn, Lists, Injective, Free, Matches, Fails;
    VerdictIs(s, i);
    FailsIff(s, i);
    DeclaredSlot(s, i);
    DecidedHasData(s, i);
    if !Fails(s, i) {
      EntryHeldStays(s, i);
      if s.On(i).Creates? {
        OpIsPlanned(s, i);
      }
    }
    if Has(s, i) {
      HasIsKept(s, i);
    }
  }

  lemma HasIsKept(s: Setting, i: nat)
    requires i < |s.declared| && Has(s, i)
    ensures OpOf(s.declared[i], s.On(i)) in {None, Some(Failed(s.declared[i].key))}
  {
    hide WalkAll, Candidates, MatchCount;
  }

  // ---------- keys nobody declares any more ----------

  ghost predicate Taken(s: Setting, id: Id) {
    TakenBefore(s, |s.declared|, id)
  }

  /** Some item that could not choose might have meant it. */
  ghost predicate Open(s: Setting, id: Id) {
    exists i :: 0 <= i < |s.declared| && MayMean(s, i, id)
  }

  ghost predicate MayMean(s: Setting, i: nat, id: Id)
    requires i < |s.declared|
  {
    (s.declared[i].data.None? || (!Has(s, i) && Matches(s, i) > 1)) && id in Free(s, i)
  }

  lemma OpenIsContested(s: Setting, id: Id)
    requires s.Valid()
    ensures Open(s, id) <==> id in s.End().contested
  {
    hide Plan, ExecuteAll, WalkAll, Lists, Injective, Free, Matches, VerdictOn, Candidates;
    AtStart(s);
    ContestedIs(s, |s.declared|);
    forall i | 0 <= i < |s.declared|
      ensures MayMean(s, i, id) <==> (s.On(i).Unresolved? || s.On(i).Ambiguous?) && id in s.Matches(i)
    {
      MatchesAre(s, i);
      OpenVerdict(s, i);
    }
  }

  lemma OpenVerdict(s: Setting, i: nat)
    requires i < |s.declared|
    ensures s.On(i).Unresolved? <==> s.declared[i].data.None?
    ensures s.On(i).Ambiguous? <==>
              s.declared[i].data.Some? && !Has(s, i)
              && MatchCount(s.live, Flows.Fits(s.declared[i]), s.At(i).claimed) > 1
  {
    hide WalkAll, Candidates, MatchCount;
  }

  /** An entry whose key is no longer declared is deleted, unless an item has
      taken it over or may have meant it; in the second case the agent keeps it
      and its key. */
  lemma DroppedOutcome(s: Setting, key: Key)
    requires s.Valid() && key in s.memory.managed && key !in Keys(s.declared) && s.memory.managed[key] in s.live.byId
    ensures
      var id := s.memory.managed[key];
      var kept := Lookup(s.After().live.byId, id) == Some(s.live.byId[id]);
      && (Taken(s, id) ==> kept && key !in s.After().memory.managed)
      && (!Taken(s, id) && Open(s, id) ==> kept && Lookup(s.After().memory.managed, key) == Some(id))
      && (!Taken(s, id) && !Open(s, id) ==> id !in s.After().live.byId && key !in s.After().memory.managed)
  {
    hide Plan, ExecuteAll, WalkAll, VerdictOn, Lists, Injective, Open, TakenBefore, ManagedByADeclaredKey, OpOf;
    var id := s.memory.managed[key];
    OpenIsContested(s, id);
    AtStart(s);
    ClaimedBefore(s, |s.declared|, id);
    NoDeclaredKeyHas(s, key);
    DroppedSlot(s, key);
    if Taken(s, id) || Open(s, id) {
      KeptEntryStays(s, id);
    } else {
      DroppedIsPlanned(s, key);
      DeletedIsGone(s, key, id);
    }
  }

  lemma NoDeclaredKeyHas(s: Setting, key: Key)
    requires s.Valid() && key in s.memory.managed && key !in Keys(s.declared)
    ensures !ManagedByADeclaredKey(s, s.memory.managed[key])
  {
    assert forall item | item in s.declared :: item.key in Keys(s.declared);
  }

  lemma DeletedIsGone(s: Setting, key: Key, id: Id)
    requires s.Valid() && id in s.live.byId && Delete(key, id) in s.Ops()
    ensures id !in s.After().live.byId
  {
    hide Plan, ExecuteAll, WalkAll, VerdictOn, Lists, Injective, OpForDropped;
    forall op | op in s.Ops() && op.Create? ensures s.made(op.key).id != id {
      OpOrigin(s, op);
      if x :| 0 <= x < |s.declared| && OpOf(s.declared[x], s.On(x)) == Some(op) {
        OpOfKey(s.declared[x], s.On(x));
        assert s.declared[x] in s.declared;
      } else {
        OpForDroppedIs(op.key, s.memory.managed[op.key], s.live, s.End().claimed, s.End().contested);
      }
    }
    var i :| 0 <= i < |s.Ops()| && s.Ops()[i] == Delete(key, id);
    EntryIsGone(Home(s.live, s.memory), s.Ops(), s.made, s.digest, i);
  }
}
