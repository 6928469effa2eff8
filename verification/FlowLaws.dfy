/** Executing an integration plan, and what planning again finds. */
module FlowLaws {
  import opened Wrappers
  import opened Listing
  import opened Flows

  datatype Home = Home(live: Live<Entry>, memory: Memory)

  /** What Home Assistant makes of a create: the new entry and its id. */
  datatype Made = Made(id: Id, entry: Entry)

  function Execute(s: Home, op: Op, made: Key -> Made, digest: Digest): Home {
    match op
    case Create(k, _, data) =>
      Home(
        s.live.(byId := s.live.byId[made(k).id := made(k).entry]),
        Memory(s.memory.managed[k := made(k).id], s.memory.hashes[k := digest.hash(data)], s.memory.failures - {k}))
    case Adopt(k, id, data) =>
      s.(memory := Memory(s.memory.managed[k := id], s.memory.hashes[k := digest.hash(data)], s.memory.failures - {k}))
    case Delete(k, id) =>
      Home(
        s.live.(byId := s.live.byId - {id}),
        Memory(s.memory.managed - {k}, s.memory.hashes - {k}, s.memory.failures))
    case Forget(k, _) =>
      s.(memory := Memory(s.memory.managed - {k}, s.memory.hashes - {k}, s.memory.failures - {k}))
    case Failed(_) => s
  }

  function ExecuteAll(s: Home, ops: seq<Op>, made: Key -> Made, digest: Digest): Home {
    if ops == [] then s else Execute(ExecuteAll(s, ops[..|ops| - 1], made, digest), ops[|ops| - 1], made, digest)
  }

  // ---------- ops with keys of their own ----------

  predicate OwnKeys(ops: seq<Op>) {
    forall i, j | 0 <= i < j < |ops| :: ops[i].key != ops[j].key
  }

  /** What is remembered under one key. */
  datatype Slot = Slot(id: Option<Id>, hash: Option<string>, failure: Option<string>)

  function SlotOf(memory: Memory, k: Key): Slot {
    Slot(Lookup(memory.managed, k), Lookup(memory.hashes, k), Lookup(memory.failures, k))
  }

  function SlotLeft(before: Slot, op: Op, made: Key -> Made, digest: Digest): Slot {
    match op
    case Create(k, _, data) => Slot(Some(made(k).id), Some(digest.hash(data)), None)
    case Adopt(_, id, data) => Slot(Some(id), Some(digest.hash(data)), None)
    case Delete(_, _) => Slot(None, None, before.failure)
    case Forget(_, _) => Slot(None, None, None)
    case Failed(_) => before
  }

  lemma ExecuteSlot(s: Home, op: Op, made: Key -> Made, digest: Digest, k: Key)
    ensures SlotOf(Execute(s, op, made, digest).memory, k) ==
            if k == op.key then SlotLeft(SlotOf(s.memory, k), op, made, digest) else SlotOf(s.memory, k)
  {
  }

  lemma {:induction false} SlotStays(s: Home, ops: seq<Op>, made: Key -> Made, digest: Digest, k: Key)
    requires forall i | 0 <= i < |ops| :: ops[i].key != k
    ensures SlotOf(ExecuteAll(s, ops, made, digest).memory, k) == SlotOf(s.memory, k)
  {
    hide SlotOf, Execute, SlotLeft;
    if ops != [] {
      SlotStays(s, ops[..|ops| - 1], made, digest, k);
      ExecuteSlot(ExecuteAll(s, ops[..|ops| - 1], made, digest), ops[|ops| - 1], made, digest, k);
    }
  }

  /** Each op leaves its mark under its own key. */
  lemma {:induction false} SlotIsLeft(s: Home, ops: seq<Op>, made: Key -> Made, digest: Digest, i: nat)
    requires i < |ops| && OwnKeys(ops)
    ensures SlotOf(ExecuteAll(s, ops, made, digest).memory, ops[i].key) ==
            SlotLeft(SlotOf(s.memory, ops[i].key), ops[i], made, digest)
  {
    hide SlotOf, Execute, SlotLeft;
    var last := |ops| - 1;
    if i < last {
      SlotIsLeft(s, ops[..last], made, digest, i);
    } else {
      SlotStays(s, ops[..last], made, digest, ops[i].key);
    }
    ExecuteSlot(ExecuteAll(s, ops[..last], made, digest), ops[last], made, digest, ops[i].key);
  }

  /** The live entry an op makes or removes. */
  function Touched(op: Op, made: Key -> Made): Option<Id> {
    match op
    case Create(k, _, _) => Some(made(k).id)
    case Delete(_, id) => Some(id)
    case _ => None
  }

  lemma {:induction false} EntryStays(s: Home, ops: seq<Op>, made: Key -> Made, digest: Digest, id: Id)
    requires forall i | 0 <= i < |ops| :: Touched(ops[i], made) != Some(id)
    ensures Lookup(ExecuteAll(s, ops, made, digest).live.byId, id) == Lookup(s.live.byId, id)
  {
    if ops != [] {
      EntryStays(s, ops[..|ops| - 1], made, digest, id);
    }
  }

  /** A created entry is there, if nothing removes it. */
  lemma {:induction false} EntryIsMade(s: Home, ops: seq<Op>, made: Key -> Made, digest: Digest, i: nat)
    requires i < |ops| && ops[i].Create?
    requires forall j | 0 <= j < |ops| && ops[j].Delete? :: ops[j].id != made(ops[i].key).id
    ensures made(ops[i].key).id in ExecuteAll(s, ops, made, digest).live.byId
  {
    if i < |ops| - 1 {
      EntryIsMade(s, ops[..|ops| - 1], made, digest, i);
    }
  }

  /** A removed entry is gone, if nothing makes it again. */
  lemma {:induction false} EntryIsGone(s: Home, ops: seq<Op>, made: Key -> Made, digest: Digest, i: nat)
    requires i < |ops| && ops[i].Delete?
    requires forall j | 0 <= j < |ops| && ops[j].Create? :: made(ops[j].key).id != ops[i].id
    ensures ops[i].id !in ExecuteAll(s, ops, made, digest).live.byId
  {
    if i < |ops| - 1 {
      EntryIsGone(s, ops[..|ops| - 1], made, digest, i);
    }
  }

  lemma {:induction false} NamelessStay(s: Home, ops: seq<Op>, made: Key -> Made, digest: Digest)
    ensures ExecuteAll(s, ops, made, digest).live.nameless == s.live.nameless
  {
    if ops != [] {
      NamelessStay(s, ops[..|ops| - 1], made, digest);
    }
  }

  // ---------- the walk ----------

  /** A manifest, what is live and remembered, the order of the keys, and what
      Home Assistant will make. */
  datatype Setting = Setting(
    declared: seq<Item>, live: Live<Entry>, memory: Memory, digest: Digest, order: seq<Key>, made: Key -> Made)
  {
    predicate OneEach() {
      forall i, j | 0 <= i < j < |declared| :: declared[i].key != declared[j].key
    }

    /** New ids are nobody's yet. */
    predicate MakesNewIds() {
      && (forall item <- declared ::
            made(item.key).id !in live.byId && made(item.key).id !in memory.managed.Values)
      && forall a <- declared, b <- declared :: made(a.key).id == made(b.key).id ==> a.key == b.key
    }

    ghost predicate Valid() {
      OneEach() && Injective(memory.managed) && Lists(order, memory.managed) && MakesNewIds()
    }

    function Start(): set<Id> {
      Claimed(Keys(declared), memory.managed)
    }

    /** The walk when it comes to the i-th item. */
    ghost function At(i: nat): Walk
      requires i <= |declared|
    {
      WalkAll(declared[..i], live, Start(), memory, digest)
    }

    ghost function End(): Walk {
      WalkAll(declared, live, Start(), memory, digest)
    }

    ghost function On(i: nat): Verdict
      requires i < |declared|
    {
      VerdictOn(declared[i], live, At(i).claimed, memory, digest)
    }

    ghost function Matches(i: nat): set<Id>
      requires i < |declared|
    {
      Candidates(live, Fits(declared[i]), At(i).claimed)
    }

    ghost function Ops(): seq<Op> {
      Plan(declared, live, memory, digest, order)
    }

    ghost function After(): Home {
      ExecuteAll(Home(live, memory), Ops(), made, digest)
    }
  }

  lemma AtStep(s: Setting, i: nat)
    requires i < |s.declared|
    ensures s.At(i + 1) == Advance(s.At(i), s.declared[i], s.On(i), s.Matches(i))
    ensures s.At(0) == Walk(s.Start(), {}, [])
    ensures s.At(|s.declared|) == s.End()
  {
    hide VerdictOn, Advance, Candidates;
    assert s.declared[..i + 1][..i] == s.declared[..i];
    assert s.declared[..|s.declared|] == s.declared;
  }

  lemma AtStart(s: Setting)
    ensures s.At(0) == Walk(s.Start(), {}, [])
    ensures s.At(|s.declared|) == s.End()
  {
    assert s.declared[..|s.declared|] == s.declared;
  }

  /** Claims only grow, and only by adoptions. */
  lemma {:induction false} ClaimsGrow(s: Setting, i: nat, j: nat)
    requires i <= j <= |s.declared|
    ensures s.At(i).claimed <= s.At(j).claimed
    ensures forall id :: id in s.At(j).claimed && id !in s.At(i).claimed ==>
              exists k | i <= k < j :: s.On(k) == Verdict.Adopts(id)
    decreases j - i
  {
    hide VerdictOn, WalkAll;
    if i < j {
      ClaimsGrow(s, i, j - 1);
      AtStep(s, j - 1);
    }
  }

  /** What is contested was a match of an item that could not decide. */
  lemma {:induction false} ContestedIs(s: Setting, i: nat)
    requires i <= |s.declared|
    ensures forall id :: id in s.At(i).contested <==>
              exists k | 0 <= k < i :: (s.On(k).Unresolved? || s.On(k).Ambiguous?) && id in s.Matches(k)
  {
    hide VerdictOn, WalkAll, Candidates;
    if i == 0 {
      AtStart(s);
    } else {
      ContestedIs(s, i - 1);
      AtStep(s, i - 1);
    }
  }

  /** The ops of the walk are those of its items, in order. */
  lemma {:induction false} WalkOpsAre(s: Setting, i: nat, op: Op)
    requires i <= |s.declared|
    ensures op in s.At(i).ops <==> exists k | 0 <= k < i :: OpOf(s.declared[k], s.On(k)) == Some(op)
  {
    hide VerdictOn, WalkAll, Candidates, OpOf;
    if i == 0 {
      AtStart(s);
    } else {
      WalkOpsAre(s, i - 1, op);
      AtStep(s, i - 1);
    }
  }

  lemma AdoptionIs(s: Setting, i: nat)
    requires i < |s.declared| && s.On(i).Adopts?
    ensures
      var id := s.On(i).id;
      && s.Matches(i) == {id} && id in s.live.byId && id !in s.At(i).claimed
      && Fits(s.declared[i])(s.live.byId[id])
      && MatchCount(s.live, Fits(s.declared[i]), s.At(i).claimed) == 1
  {
    hide WalkAll, Titled;
    AdoptsALiveOne(s.declared[i], s.live, s.At(i).claimed, s.memory, s.digest);
  }

  lemma SameTitle(a: Item, b: Item, e: Entry)
    requires Fits(b)(e)
    ensures Fits(a)(e) ==> Fits(a) == Fits(b)
  {
  }

  /** Once an item is ambiguous its matches stay as they are: every later item
      that could take one of them is as ambiguous. */
  lemma {:induction false} AmbiguousStays(s: Setting, i: nat, j: nat)
    requires i < |s.declared| && i <= j <= |s.declared| && s.On(i).Ambiguous?
    ensures Candidates(s.live, Fits(s.declared[i]), s.At(j).claimed) == s.Matches(i)
    decreases j
  {
    hide WalkAll;
    if i < j {
      AmbiguousStays(s, i, j - 1);
      AtStep(s, j - 1);
      if s.On(j - 1).Adopts? {
        AdoptionIs(s, j - 1);
        SameTitle(s.declared[i], s.declared[j - 1], s.live.byId[s.On(j - 1).id]);
      }
    }
  }

  // ---------- the ops of a plan ----------

  lemma OpOfKey(item: Item, v: Verdict)
    ensures OpOf(item, v).Some? ==> OpOf(item, v).value.key == item.key && !OpOf(item, v).value.Delete? && !OpOf(item, v).value.Forget?
  {
  }

  lemma OwnKeysOneMore(ops: seq<Op>, op: Op)
    requires OwnKeys(ops) && forall x | x in ops :: x.key != op.key
    ensures OwnKeys(ops + [op])
  {
    assert forall i | 0 <= i < |ops| :: ops[i] in ops;
  }

  lemma {:induction false} WalkOpsOwnKeys(s: Setting, i: nat)
    requires i <= |s.declared| && s.OneEach()
    ensures OwnKeys(s.At(i).ops)
  {
    hide VerdictOn, WalkAll, Candidates, OpOf;
    if i == 0 {
      AtStart(s);
    } else {
      WalkOpsOwnKeys(s, i - 1);
      AtStep(s, i - 1);
      var op := OpOf(s.declared[i - 1], s.On(i - 1));
      OpOfKey(s.declared[i - 1], s.On(i - 1));
      forall x | x in s.At(i - 1).ops ensures x.key != s.declared[i - 1].key {
        WalkOpsAre(s, i - 1, x);
        var k :| 0 <= k < i - 1 && OpOf(s.declared[k], s.On(k)) == Some(x);
        OpOfKey(s.declared[k], s.On(k));
      }
      if op.Some? {
        OwnKeysOneMore(s.At(i - 1).ops, op.value);
      }
    }
  }

  lemma {:induction false} InDroppedOps(
      order: seq<Key>, declared: set<Key>, live: Live<Entry>, managed: map<Key, Id>, claimed: set<Id>, contested: set<Id>, op: Op)
    ensures op in DroppedOps(order, declared, live, managed, claimed, contested) <==>
            exists i | 0 <= i < |order| ::
              IsDropped(order[i], declared, managed)
              && OpForDropped(order[i], managed[order[i]], live, claimed, contested) == Some(op)
  {
    hide OpForDropped;
    if order != [] {
      InDroppedOps(order[..|order| - 1], declared, live, managed, claimed, contested, op);
    }
  }

  lemma OpForDroppedIs(key: Key, id: Id, live: Live<Entry>, claimed: set<Id>, contested: set<Id>)
    ensures
      var op := OpForDropped(key, id, live, claimed, contested);
      op.Some? ==>
        && op.value.key == key
        && (op.value.Forget? || op.value.Delete?)
        && op.value.id == id && id in live.byId
        && (op.value.Delete? ==> id !in claimed && id !in contested)
        && (op.value.Forget? ==> id in claimed)
  {
  }

  lemma {:induction false} DroppedOpsOwnKeys(
      order: seq<Key>, declared: set<Key>, live: Live<Entry>, managed: map<Key, Id>, claimed: set<Id>, contested: set<Id>, n: nat)
    requires n <= |order| && Lists(order, managed)
    ensures OwnKeys(DroppedOps(order[..n], declared, live, managed, claimed, contested))
  {
    hide OpForDropped;
    if n == 0 {
      assert OwnKeys([]);
    } else {
      DroppedOpsOwnKeys(order, declared, live, managed, claimed, contested, n - 1);
      assert order[..n][..n - 1] == order[..n - 1];
      var ops := DroppedOps(order[..n - 1], declared, live, managed, claimed, contested);
      var key := order[n - 1];
      if IsDropped(key, declared, managed) {
        var last := OpForDropped(key, managed[key], live, claimed, contested);
        OpForDroppedIs(key, managed[key], live, claimed, contested);
        if last.Some? {
          forall x | x in ops ensures x.key != key {
            InDroppedOps(order[..n - 1], declared, live, managed, claimed, contested, x);
            var i :| 0 <= i < n - 1 && IsDropped(order[i], declared, managed)
                     && OpForDropped(order[i], managed[order[i]], live, claimed, contested) == Some(x);
            OpForDroppedIs(order[i], managed[order[i]], live, claimed, contested);
            assert order[i] != key;
          }
          OwnKeysOneMore(ops, last.value);
        }
      }
    }
  }

  ghost function Dropped(s: Setting): seq<Op> {
    DroppedOps(s.order, Keys(s.declared), s.live, s.memory.managed, s.End().claimed, s.End().contested)
  }

  function DroppedOp(s: Setting, key: Key, w: Walk): Option<Op>
    requires key in s.memory.managed
  {
    OpForDropped(key, s.memory.managed[key], s.live, w.claimed, w.contested)
  }

  /** Where an op of the plan comes from. */
  lemma OpOrigin(s: Setting, op: Op)
    requires op in s.Ops()
    ensures
      || (exists i :: 0 <= i < |s.declared| && OpOf(s.declared[i], s.On(i)) == Some(op))
      || (IsDropped(op.key, Keys(s.declared), s.memory.managed) && DroppedOp(s, op.key, s.End()) == Some(op))
  {
    hide VerdictOn, WalkAll, OpOf, OpForDropped, DroppedOps;
    AtStart(s);
    WalkOpsAre(s, |s.declared|, op);
    InDroppedOps(s.order, Keys(s.declared), s.live, s.memory.managed, s.End().claimed, s.End().contested, op);
    if op !in s.End().ops {
      var j :| 0 <= j < |s.order| && IsDropped(s.order[j], Keys(s.declared), s.memory.managed)
               && OpForDropped(s.order[j], s.memory.managed[s.order[j]], s.live, s.End().claimed, s.End().contested) == Some(op);
      OpForDroppedIs(s.order[j], s.memory.managed[s.order[j]], s.live, s.End().claimed, s.End().contested);
    }
  }

  lemma OpIsPlanned(s: Setting, i: nat)
    requires i < |s.declared| && OpOf(s.declared[i], s.On(i)).Some?
    ensures OpOf(s.declared[i], s.On(i)).value in s.Ops()
  {
    hide VerdictOn, WalkAll, OpOf, DroppedOps;
    AtStart(s);
    WalkOpsAre(s, |s.declared|, OpOf(s.declared[i], s.On(i)).value);
  }

  lemma DroppedIsPlanned(s: Setting, key: Key)
    requires s.Valid() && IsDropped(key, Keys(s.declared), s.memory.managed) && DroppedOp(s, key, s.End()).Some?
    ensures DroppedOp(s, key, s.End()).value in s.Ops()
  {
    hide OpForDropped, DroppedOps, WalkAll, Injective;
    var j :| 0 <= j < |s.order| && s.order[j] == key;
    InDroppedOps(
      s.order, Keys(s.declared), s.live, s.memory.managed, s.End().claimed, s.End().contested,
      DroppedOp(s, key, s.End()).value);
  }

  /** No two ops of a plan concern the same key. */
  lemma PlanOwnsKeys(s: Setting)
    requires s.Valid()
    ensures OwnKeys(s.Ops())
  {
    hide VerdictOn, WalkAll, OpOf, OpForDropped, DroppedOps, Injective;
    AtStart(s);
    WalkOpsOwnKeys(s, |s.declared|);
    assert s.order[..|s.order|] == s.order;
    DroppedOpsOwnKeys(
      s.order, Keys(s.declared), s.live, s.memory.managed, s.End().claimed, s.End().contested, |s.order|);
    var a := s.End().ops;
    var b := Dropped(s);
    forall x, y | x in a && y in b ensures x.key != y.key {
      WalkOpsAre(s, |s.declared|, x);
      var i :| 0 <= i < |s.declared| && OpOf(s.declared[i], s.On(i)) == Some(x);
      OpOfKey(s.declared[i], s.On(i));
      assert s.declared[i].key in Keys(s.declared);
      InDroppedOps(s.order, Keys(s.declared), s.live, s.memory.managed, s.End().claimed, s.End().contested, y);
      var j :| 0 <= j < |s.order| && IsDropped(s.order[j], Keys(s.declared), s.memory.managed)
               && OpForDropped(s.order[j], s.memory.managed[s.order[j]], s.live, s.End().claimed, s.End().contested) == Some(y);
      OpForDroppedIs(s.order[j], s.memory.managed[s.order[j]], s.live, s.End().claimed, s.End().contested);
    }
    OwnKeysJoin(a, b);
  }

  lemma OwnKeysJoin(a: seq<Op>, b: seq<Op>)
    requires OwnKeys(a) && OwnKeys(b) && forall x, y | x in a && y in b :: x.key != y.key
    ensures OwnKeys(a + b)
  {
    forall i, j | 0 <= i < j < |a + b| ensures (a + b)[i].key != (a + b)[j].key {
      if i < |a| && |a| <= j {
        assert (a + b)[i] in a && (a + b)[j] in b;
      }
    }
  }

  // ---------- after the plan ----------

  /** What an op of the plan leaves under its key. */
  lemma PlannedSlot(s: Setting, op: Op)
    requires s.Valid() && op in s.Ops()
    ensures SlotOf(s.After().memory, op.key) == SlotLeft(SlotOf(s.memory, op.key), op, s.made, s.digest)
  {
    hide Plan, OwnKeys, SlotOf, SlotLeft, ExecuteAll;
    PlanOwnsKeys(s);
    var i :| 0 <= i < |s.Ops()| && s.Ops()[i] == op;
    SlotIsLeft(Home(s.live, s.memory), s.Ops(), s.made, s.digest, i);
  }

  /** What a declared key holds afterwards. */
  lemma DeclaredSlot(s: Setting, i: nat)
    requires s.Valid() && i < |s.declared|
    ensures
      var k := s.declared[i].key;
      var op := OpOf(s.declared[i], s.On(i));
      SlotOf(s.After().memory, k) ==
      if op.Some? then SlotLeft(SlotOf(s.memory, k), op.value, s.made, s.digest) else SlotOf(s.memory, k)
  {
    hide Plan, OwnKeys, SlotOf, SlotLeft, ExecuteAll, VerdictOn, WalkAll, OpOf, OpForDropped, Injective, Lists;
    var k := s.declared[i].key;
    var op := OpOf(s.declared[i], s.On(i));
    OpOfKey(s.declared[i], s.On(i));
    if op.Some? {
      OpIsPlanned(s, i);
      PlannedSlot(s, op.value);
    } else {
      forall j | 0 <= j < |s.Ops()| ensures s.Ops()[j].key != k {
        OpOrigin(s, s.Ops()[j]);
        if x :| 0 <= x < |s.declared| && OpOf(s.declared[x], s.On(x)) == Some(s.Ops()[j]) {
          OpOfKey(s.declared[x], s.On(x));
        }
      }
      SlotStays(Home(s.live, s.memory), s.Ops(), s.made, s.digest, k);
    }
  }

  /** What a key nobody declares holds afterwards. */
  lemma DroppedSlot(s: Setting, key: Key)
    requires s.Valid() && key !in Keys(s.declared)
    ensures
      Lookup(s.After().memory.managed, key) ==
      if key in s.memory.managed && DroppedOp(s, key, s.End()).Some? then None else Lookup(s.memory.managed, key)
  {
    hide Plan, OwnKeys, ExecuteAll, VerdictOn, WalkAll, OpOf, OpForDropped, Injective;
    if IsDropped(key, Keys(s.declared), s.memory.managed) && DroppedOp(s, key, s.End()).Some? {
      var op := DroppedOp(s, key, s.End()).value;
      OpForDroppedIs(key, s.memory.managed[key], s.live, s.End().claimed, s.End().contested);
      DroppedIsPlanned(s, key);
      PlannedSlot(s, op);
      assert SlotLeft(SlotOf(s.memory, key), op, s.made, s.digest).id == None;
    } else {
      forall j | 0 <= j < |s.Ops()| ensures s.Ops()[j].key != key {
        OpOrigin(s, s.Ops()[j]);
        if x :| 0 <= x < |s.declared| && OpOf(s.declared[x], s.On(x)) == Some(s.Ops()[j]) {
          OpOfKey(s.declared[x], s.On(x));
          assert s.declared[x].key in Keys(s.declared);
        }
      }
      SlotStays(Home(s.live, s.memory), s.Ops(), s.made, s.digest, key);
      assert SlotOf(s.After().memory, key).id == SlotOf(s.memory, key).id;
    }
  }

  /** The plan deletes nothing a declared key holds or adopts, and nothing an
      undecided item might have meant. */
  lemma DeletesAreFree(s: Setting, op: Op)
    requires s.Valid() && op in s.Ops() && op.Delete?
    ensures op.id !in s.End().claimed && op.id !in s.End().contested && op.id in s.live.byId
    ensures IsDropped(op.key, Keys(s.declared), s.memory.managed) && s.memory.managed[op.key] == op.id
  {
    hide Plan, VerdictOn, WalkAll, OpForDropped;
    OpOrigin(s, op);
    if x :| 0 <= x < |s.declared| && OpOf(s.declared[x], s.On(x)) == Some(op) {
      OpOfKey(s.declared[x], s.On(x));
    } else {
      OpForDroppedIs(op.key, s.memory.managed[op.key], s.live, s.End().claimed, s.End().contested);
    }
  }

  /** An entry that is claimed, contested or managed by nobody stays. */
  lemma KeptEntryStays(s: Setting, id: Id)
    requires s.Valid() && id in s.live.byId
    requires id in s.End().claimed || id in s.End().contested || id !in s.memory.managed.Values
    ensures Lookup(s.After().live.byId, id) == Some(s.live.byId[id])
  {
    hide Plan, ExecuteAll, VerdictOn, WalkAll, OpForDropped, Injective, Lists;
    forall i | 0 <= i < |s.Ops()| ensures Touched(s.Ops()[i], s.made) != Some(id) {
      var op := s.Ops()[i];
      if op.Delete? {
        DeletesAreFree(s, op);
        assert s.memory.managed[op.key] in s.memory.managed.Values;
      } else {
        OpOrigin(s, op);
        if x :| 0 <= x < |s.declared| && OpOf(s.declared[x], s.On(x)) == Some(op) {
          OpOfKey(s.declared[x], s.On(x));
        } else {
          OpForDroppedIs(op.key, s.memory.managed[op.key], s.live, s.End().claimed, s.End().contested);
        }
      }
    }
    EntryStays(Home(s.live, s.memory), s.Ops(), s.made, s.digest, id);
  }

  /** Nothing comes back, and nothing appears but what was made. */
  lemma NewEntryIsMade(s: Setting, id: Id)
    requires s.Valid() && id in s.After().live.byId
    ensures Lookup(s.After().live.byId, id) == Lookup(s.live.byId, id) ||
            exists i :: 0 <= i < |s.declared| && s.On(i).Creates? && s.made(s.declared[i].key).id == id
  {
    hide Plan, ExecuteAll, VerdictOn, WalkAll, OpForDropped, Injective, Lists;
    forall op | op in s.Ops() && op.Create? ensures
        exists i :: 0 <= i < |s.declared| && s.On(i).Creates? && s.declared[i].key == op.key {
      OpOrigin(s, op);
      if x :| 0 <= x < |s.declared| && OpOf(s.declared[x], s.On(x)) == Some(op) {
        OpOfKey(s.declared[x], s.On(x));
      } else {
        OpForDroppedIs(op.key, s.memory.managed[op.key], s.live, s.End().claimed, s.End().contested);
      }
    }
    if forall i | 0 <= i < |s.Ops()| :: Touched(s.Ops()[i], s.made) != Some(id) {
      EntryStays(Home(s.live, s.memory), s.Ops(), s.made, s.digest, id);
    } else {
      var i :| 0 <= i < |s.Ops()| && Touched(s.Ops()[i], s.made) == Some(id);
      if s.Ops()[i].Delete? && forall op | op in s.Ops() && op.Create? :: s.made(op.key).id != id {
        EntryIsGone(Home(s.live, s.memory), s.Ops(), s.made, s.digest, i);
      }
    }
  }

  // ---------- planning again ----------

  /** The setting of the next plan. */
  ghost function Again(s: Setting, order: seq<Key>): Setting {
    s.(live := s.After().live, memory := s.After().memory, order := order)
  }

  predicate Undecided(v: Verdict) {
    v.Unusable? || v.Ambiguous? || v.Blocked?
  }

  lemma ItemOfKey(s: Setting, k: Key) returns (i: nat)
    requires k in Keys(s.declared)
    ensures i < |s.declared| && s.declared[i].key == k
  {
    i :| 0 <= i < |s.declared| && s.declared[i].key == k;
  }

  /** The id a declared key holds afterwards. */
  lemma DeclaredIdAfter(s: Setting, i: nat)
    requires s.Valid() && i < |s.declared|
    ensures
      var k := s.declared[i].key;
      Lookup(s.After().memory.managed, k) ==
      match s.On(i) {
        case Adopts(id) => Some(id)
        case Creates => Some(s.made(k).id)
        case _ => Lookup(s.memory.managed, k)
      }
  {
    hide Plan, ExecuteAll, WalkAll, Candidates, MatchCount;
    var k := s.declared[i].key;
    DeclaredSlot(s, i);
    assert SlotOf(s.After().memory, k).id == Lookup(s.After().memory.managed, k);
    DecidedHasData(s, i);
  }

  lemma DecidedHasData(s: Setting, i: nat)
    requires i < |s.declared|
    ensures s.On(i).Adopts? || s.On(i).Creates? ==> s.declared[i].data.Some?
    ensures s.On(i).Kept? || s.On(i).Stale? ==>
              s.declared[i].data.Some? && Held(s.declared[i].key, s.live, s.memory.managed)
    ensures Held(s.declared[i].key, s.live, s.memory.managed) ==>
              s.On(i).Kept? || s.On(i).Stale? || s.On(i).Unresolved?
    ensures Undecided(s.On(i)) ==> s.declared[i].data.Some?
  {
    hide WalkAll, Candidates, MatchCount;
  }

  /** The declared keys claim afterwards what was claimed in the end, and what
      was made for them. */
  lemma StartAgain(s: Setting, order: seq<Key>, id: Id)
    requires s.Valid()
    ensures id in s.live.byId ==> (id in Again(s, order).Start() <==> id in s.End().claimed)
    ensures (exists i :: 0 <= i < |s.declared| && s.On(i).Creates? && s.made(s.declared[i].key).id == id) ==>
              id in Again(s, order).Start()
  {
    hide Plan, ExecuteAll, WalkAll, VerdictOn, Injective, Lists;
    if i :| 0 <= i < |s.declared| && s.On(i).Creates? && s.made(s.declared[i].key).id == id {
      DeclaredIdAfter(s, i);
      HeldIsClaimed(s, order, i, id);
    }
    if id in s.live.byId {
      if id in s.End().claimed {
        ClaimedIsClaimedNext(s, order, id);
      }
      if id in Again(s, order).Start() {
        ClaimedNextIsClaimed(s, order, id);
      }
    }
  }

  lemma HeldIsClaimed(s: Setting, order: seq<Key>, i: nat, id: Id)
    requires i < |s.declared| && Lookup(s.After().memory.managed, s.declared[i].key) == Some(id)
    ensures id in Again(s, order).Start()
  {
    hide Plan, ExecuteAll;
    assert s.declared[i].key in Keys(s.declared);
  }

  lemma ClaimedIsClaimedNext(s: Setting, order: seq<Key>, id: Id)
    requires s.Valid() && id in s.End().claimed && id in s.live.byId
    ensures id in Again(s, order).Start()
  {
    hide Plan, ExecuteAll, WalkAll, VerdictOn, Injective, Lists;
    AtStart(s);
    ClaimsGrow(s, 0, |s.declared|);
    var i: nat;
    if id in s.Start() {
      var k :| k in s.memory.managed && k in Keys(s.declared) && s.memory.managed[k] == id;
      i := ItemOfKey(s, k);
      DecidedHasData(s, i);
    } else {
      i :| 0 <= i < |s.declared| && s.On(i) == Verdict.Adopts(id);
    }
    DeclaredIdAfter(s, i);
    HeldIsClaimed(s, order, i, id);
  }

  lemma ClaimedNextIsClaimed(s: Setting, order: seq<Key>, id: Id)
    requires s.Valid() && id in Again(s, order).Start() && id in s.live.byId
    ensures id in s.End().claimed
  {
    hide Plan, ExecuteAll, WalkAll, VerdictOn, Injective, Lists;
    var next := Again(s, order);
    AtStart(s);
    ClaimsGrow(s, 0, |s.declared|);
    var k :| k in next.memory.managed && k in Keys(s.declared) && next.memory.managed[k] == id;
    var i := ItemOfKey(s, k);
    DeclaredIdAfter(s, i);
    assert s.declared[i] in s.declared;
    if s.On(i).Adopts? {
      ClaimsGrow(s, i + 1, |s.declared|);
      AtStep(s, i);
    } else if !s.On(i).Creates? {
      assert s.memory.managed[k] in s.Start();
    }
  }

  /** How an item comes out the next time: settled ones stay settled, and the
      others fail again. */
  predicate Settles(v: Verdict, next: Verdict) {
    match v
    case Unresolved => next.Unresolved?
    case Kept => next.Kept?
    case Stale => next.Stale?
    case Adopts(_) => next.Kept?
    case Creates => next.Kept?
    case Unusable => next.Unusable? || next.Ambiguous?
    case Ambiguous => next.Ambiguous?
    case Blocked => next.Blocked?
  }

  lemma SlotAgain(s: Setting, i: nat)
    requires s.Valid() && i < |s.declared|
    ensures
      var k := s.declared[i].key;
      && (!s.On(i).Adopts? && !s.On(i).Creates? ==> SlotOf(s.After().memory, k) == SlotOf(s.memory, k))
      && (s.On(i).Adopts? || s.On(i).Creates? ==>
            s.declared[i].data.Some? && Lookup(s.After().memory.hashes, k) == Some(s.digest.hash(s.declared[i].data.value)))
  {
    hide Plan, ExecuteAll, WalkAll, VerdictOn;
    DeclaredSlot(s, i);
    DecidedHasData(s, i);
    assert SlotOf(s.After().memory, s.declared[i].key).hash == Lookup(s.After().memory.hashes, s.declared[i].key);
  }

  /** An item that holds an entry in the end holds it at the next plan. */
  lemma HeldAgain(s: Setting, i: nat, claimed: set<Id>)
    requires s.Valid() && i < |s.declared|
    requires s.On(i).Kept? || s.On(i).Stale? || s.On(i).Adopts? || s.On(i).Creates?
    ensures Settles(s.On(i), VerdictOn(s.declared[i], s.After().live, claimed, s.After().memory, s.digest))
  {
    hide Plan, ExecuteAll, WalkAll, VerdictOn, Lists, Injective;
    var k := s.declared[i].key;
    DecidedHasData(s, i);
    DeclaredIdAfter(s, i);
    SlotAgain(s, i);
    EntryHeldStays(s, i);
    assert Held(k, s.After().live, s.After().memory.managed);
    VerdictWhenHeld(s.declared[i], s.After().live, claimed, s.After().memory, s.digest);
    if s.On(i).Kept? || s.On(i).Stale? {
      VerdictWhenHeld(s.declared[i], s.live, s.At(i).claimed, s.memory, s.digest);
    }
    assert SlotOf(s.After().memory, k).hash == Lookup(s.After().memory.hashes, k);
  }

  lemma VerdictWhenHeld(item: Item, live: Live<Entry>, claimed: set<Id>, memory: Memory, digest: Digest)
    requires item.data.Some? && Held(item.key, live, memory.managed)
    ensures VerdictOn(item, live, claimed, memory, digest) == if Changed(item, memory, digest) then Stale else Kept
    ensures Lookup(memory.hashes, item.key) == Some(digest.hash(item.data.value)) ==> !Changed(item, memory, digest)
  {
  }

  lemma EntryHeldStays(s: Setting, i: nat)
    requires s.Valid() && i < |s.declared|
    requires s.On(i).Kept? || s.On(i).Stale? || s.On(i).Adopts? || s.On(i).Creates?
    ensures
      var id := Lookup(s.After().memory.managed, s.declared[i].key);
      id.Some? && id.value in s.After().live.byId
  {
    hide Plan, ExecuteAll, WalkAll, VerdictOn, Lists, Injective, OpOf;
    var k := s.declared[i].key;
    AtStart(s);
    DecidedHasData(s, i);
    DeclaredIdAfter(s, i);
    var id := Lookup(s.After().memory.managed, k).value;
    assert s.declared[i] in s.declared && k in Keys(s.declared);
    if s.On(i).Creates? {
      OpIsMade(s, i);
    } else {
      if s.On(i).Adopts? {
        AdoptionIs(s, i);
        AtStep(s, i);
        ClaimsGrow(s, i + 1, |s.declared|);
      } else {
        assert s.memory.managed[k] in s.Start();
        ClaimsGrow(s, 0, |s.declared|);
      }
      KeptEntryStays(s, id);
    }
  }

  lemma OpIsMade(s: Setting, i: nat)
    requires s.Valid() && i < |s.declared| && s.On(i).Creates?
    ensures s.made(s.declared[i].key).id in s.After().live.byId
  {
    hide Plan, ExecuteAll, WalkAll, VerdictOn, Lists, Injective;
    DecidedHasData(s, i);
    OpIsPlanned(s, i);
    var op := OpOf(s.declared[i], s.On(i)).value;
    var j :| 0 <= j < |s.Ops()| && s.Ops()[j] == op;
    assert s.declared[i] in s.declared;
    forall x | 0 <= x < |s.Ops()| && s.Ops()[x].Delete? ensures s.Ops()[x].id != s.made(op.key).id {
      DeletesAreFree(s, s.Ops()[x]);
    }
    EntryIsMade(Home(s.live, s.memory), s.Ops(), s.made, s.digest, j);
  }

  /** An undecided item still holds nothing. */
  lemma NotHeldAgain(s: Setting, i: nat)
    requires s.Valid() && i < |s.declared| && Undecided(s.On(i))
    ensures !Held(s.declared[i].key, s.After().live, s.After().memory.managed)
  {
    hide Plan, ExecuteAll, WalkAll, VerdictOn, Lists, Injective;
    var k := s.declared[i].key;
    DecidedHasData(s, i);
    DeclaredIdAfter(s, i);
    forall x | 0 <= x < |s.declared| && k in s.memory.managed ensures s.made(s.declared[x].key).id != s.memory.managed[k] {
      assert s.declared[x] in s.declared && s.memory.managed[k] in s.memory.managed.Values;
    }
    if k in s.memory.managed && s.memory.managed[k] in s.After().live.byId {
      NewEntryIsMade(s, s.memory.managed[k]);
    }
  }

  /** A match that nobody claims in the end is still a match. */
  lemma FreeMatchStays(s: Setting, order: seq<Key>, i: nat, id: Id)
    requires s.Valid() && i < |s.declared|
    requires id in s.Matches(i) && id !in s.End().claimed && (s.On(i).Ambiguous? || s.On(i).Unresolved?)
    ensures id in Candidates(s.After().live, Fits(s.declared[i]), Again(s, order).Start())
  {
    hide Plan, ExecuteAll, WalkAll, VerdictOn, Lists, Injective;
    ContestedIs(s, |s.declared|);
    AtStart(s);
    KeptEntryStays(s, id);
    StartAgain(s, order, id);
  }

  /** Nothing new can be matched. */
  lemma NoNewMatch(s: Setting, order: seq<Key>, i: nat, id: Id)
    requires s.Valid() && i < |s.declared|
    requires id in Candidates(s.After().live, Fits(s.declared[i]), Again(s, order).Start())
    ensures id in s.Matches(i)
  {
    hide Plan, ExecuteAll, WalkAll, VerdictOn, Lists, Injective;
    NewEntryIsMade(s, id);
    StartAgain(s, order, id);
    AtStart(s);
    ClaimsGrow(s, i, |s.declared|);
  }

  lemma UndecidedAgain(s: Setting, order: seq<Key>, i: nat)
    requires s.Valid() && i < |s.declared| && Undecided(s.On(i))
    ensures Settles(
              s.On(i),
              VerdictOn(s.declared[i], s.After().live, Again(s, order).Start(), s.After().memory, s.digest))
  {
    hide Plan, ExecuteAll, WalkAll, Lists, Injective;
    var item := s.declared[i];
    DecidedHasData(s, i);
    NotHeldAgain(s, i);
    SlotAgain(s, i);
    NamelessStay(Home(s.live, s.memory), s.Ops(), s.made, s.digest);
    var before := s.Matches(i);
    var after := Candidates(s.After().live, Fits(item), Again(s, order).Start());
    forall id | id in after ensures id in before {
      NoNewMatch(s, order, i, id);
    }
    if s.On(i).Ambiguous? {
      AtStart(s);
      AmbiguousStays(s, i, |s.declared|);
      forall id | id in before ensures id in after {
        assert id !in s.End().claimed;
        FreeMatchStays(s, order, i, id);
      }
      assert after == before;
    }
    assert before == {} ==> after == {};
    assert SlotOf(s.After().memory, item.key).failure == Lookup(s.After().memory.failures, item.key);
    assert SlotOf(s.memory, item.key).failure == Lookup(s.memory.failures, item.key);
  }

  lemma ItemSettles(s: Setting, order: seq<Key>, i: nat)
    requires s.Valid() && i < |s.declared|
    ensures Settles(
              s.On(i),
              VerdictOn(s.declared[i], s.After().live, Again(s, order).Start(), s.After().memory, s.digest))
  {
    hide Plan, ExecuteAll, WalkAll, Candidates, MatchCount;
    if Undecided(s.On(i)) {
      UndecidedAgain(s, order, i);
    } else if !s.On(i).Unresolved? {
      HeldAgain(s, i, Again(s, order).Start());
    }
  }

  /** The next walk claims nothing more than it starts with. */
  lemma {:induction false} WalkAgain(s: Setting, order: seq<Key>, i: nat)
    requires s.Valid() && i <= |s.declared|
    ensures Again(s, order).At(i).claimed == Again(s, order).Start()
    ensures forall k | 0 <= k < i :: Settles(s.On(k), Again(s, order).On(k))
  {
    hide Plan, ExecuteAll, WalkAll, VerdictOn, Lists, Injective, Candidates;
    var next := Again(s, order);
    if i == 0 {
      AtStart(next);
    } else {
      WalkAgain(s, order, i - 1);
      ItemSettles(s, order, i - 1);
      assert Settles(s.On(i - 1), next.On(i - 1));
      AtStep(next, i - 1);
    }
  }

  lemma ContestedAgain(s: Setting, order: seq<Key>, id: Id)
    requires s.Valid() && id in s.End().contested && id !in s.End().claimed
    ensures id in Again(s, order).End().contested
  {
    hide Plan, ExecuteAll, WalkAll, VerdictOn, Lists, Injective, Candidates;
    var next := Again(s, order);
    AtStart(s);
    AtStart(next);
    ContestedIs(s, |s.declared|);
    ContestedIs(next, |s.declared|);
    WalkAgain(s, order, |s.declared|);
    var k :| 0 <= k < |s.declared| && (s.On(k).Unresolved? || s.On(k).Ambiguous?) && id in s.Matches(k);
    FreeMatchStays(s, order, k, id);
    WalkAgain(s, order, k);
    assert id in next.Matches(k);
  }

  /** A key nobody declares gets nothing more planned. */
  lemma DroppedAgain(s: Setting, order: seq<Key>, key: Key)
    requires s.Valid() && key !in Keys(s.declared) && key in s.After().memory.managed
    ensures DroppedOp(Again(s, order), key, Again(s, order).End()).None?
  {
    hide Plan, ExecuteAll, WalkAll, VerdictOn, Injective, Candidates;
    var next := Again(s, order);
    DroppedSlot(s, key);
    var id := s.memory.managed[key];
    assert id in s.live.byId ==> id !in s.End().claimed && id in s.End().contested;
    AtStart(next);
    WalkAgain(s, order, |s.declared|);
    if id in s.live.byId {
      StartAgain(s, order, id);
      ContestedAgain(s, order, id);
    } else {
      forall x | 0 <= x < |s.declared| ensures s.made(s.declared[x].key).id != id {
        assert s.declared[x] in s.declared && id in s.memory.managed.Values;
      }
      if id in next.live.byId {
        NewEntryIsMade(s, id);
      }
    }
    assert DroppedOp(next, key, next.End()).None?;
  }

  lemma SettlesSame(item: Item, v: Verdict, next: Verdict)
    requires Settles(v, next)
    ensures OpOf(item, next) == if OpOf(item, v) == Some(Failed(item.key)) then Some(Failed(item.key)) else None
  {
  }

  /** Executing a plan settles everything that can be: planning again yields
      only failed ops, for exactly the items that failed before. */
  lemma ReplanOnlyFails(s: Setting, order: seq<Key>, op: Op)
    requires s.Valid() && Lists(order, s.After().memory.managed)
    ensures op in Again(s, order).Ops() <==> op.Failed? && op in s.Ops()
  {
    hide Plan, ExecuteAll, WalkAll, VerdictOn, Injective, Candidates, OpForDropped, OpOf;
    var next := Again(s, order);
    WalkAgain(s, order, |s.declared|);
    forall i | 0 <= i < |s.declared| ensures
        OpOf(s.declared[i], next.On(i)) ==
        if OpOf(s.declared[i], s.On(i)) == Some(Failed(s.declared[i].key)) then Some(Failed(s.declared[i].key)) else None {
      SettlesSame(s.declared[i], s.On(i), next.On(i));
    }
    if op in next.Ops() {
      OpOrigin(next, op);
      if i :| 0 <= i < |s.declared| && OpOf(s.declared[i], next.On(i)) == Some(op) {
        OpIsPlanned(s, i);
      } else {
        DroppedAgain(s, order, op.key);
      }
    }
    if op in s.Ops() && op.Failed? {
      OpOrigin(s, op);
      if i :| 0 <= i < |s.declared| && OpOf(s.declared[i], s.On(i)) == Some(op) {
        OpOfKey(s.declared[i], s.On(i));
        OpIsPlanned(next, i);
      } else {
        OpForDroppedIs(op.key, s.memory.managed[op.key], s.live, s.End().claimed, s.End().contested);
      }
    }
  }

  // ---------- ownership ----------

  /** Two items never adopt the same entry, and none adopts one a declared key
      held from the start. */
  lemma AdoptionsApart(s: Setting, i: nat, j: nat)
    requires i < j < |s.declared| && s.On(i).Adopts? && s.On(j).Adopts?
    ensures s.On(i).id != s.On(j).id
  {
    hide WalkAll, VerdictOn, Candidates;
    AtStep(s, i);
    ClaimsGrow(s, i + 1, j);
    AdoptionIs(s, j);
  }

  lemma AdoptedIsNotHeld(s: Setting, i: nat, k: Key)
    requires i < |s.declared| && s.On(i).Adopts? && k in s.memory.managed && k in Keys(s.declared)
    ensures s.memory.managed[k] != s.On(i).id
  {
    hide WalkAll, VerdictOn, Candidates;
    AtStart(s);
    ClaimsGrow(s, 0, i);
    AdoptionIs(s, i);
    assert s.memory.managed[k] in s.Start();
  }

  /** How a key comes to hold what it holds afterwards. */
  datatype Hold = ByAdoption(i: nat) | ByCreation(i: nat) | AsBefore

  ghost predicate HoldIs(s: Setting, k: Key, id: Id, h: Hold) {
    match h
    case ByAdoption(i) => i < |s.declared| && s.declared[i].key == k && s.On(i) == Verdict.Adopts(id)
    case ByCreation(i) => i < |s.declared| && s.declared[i].key == k && s.On(i).Creates? && s.made(k).id == id
    case AsBefore =>
      Lookup(s.memory.managed, k) == Some(id)
      && (k !in Keys(s.declared) ==> id !in s.live.byId || id !in s.End().claimed)
  }

  lemma HoldOf(s: Setting, k: Key) returns (h: Hold)
    requires s.Valid() && k in s.After().memory.managed
    ensures HoldIs(s, k, s.After().memory.managed[k], h)
  {
    hide Plan, ExecuteAll, WalkAll, VerdictOn, Candidates, Injective, Lists;
    if k in Keys(s.declared) {
      var i := ItemOfKey(s, k);
      DeclaredIdAfter(s, i);
      h := if s.On(i).Adopts? then ByAdoption(i) else if s.On(i).Creates? then ByCreation(i) else AsBefore;
    } else {
      DroppedSlot(s, k);
      h := AsBefore;
      assert s.memory.managed[k] in s.live.byId ==> s.memory.managed[k] !in s.End().claimed;
    }
  }

  lemma AdoptionIsAlone(s: Setting, a: Key, x: Hold, b: Key, y: Hold, id: Id)
    requires s.Valid() && HoldIs(s, a, id, x) && HoldIs(s, b, id, y) && x.ByAdoption?
    ensures a == b
  {
    hide Plan, ExecuteAll, WalkAll, VerdictOn, Candidates, Lists, Injective;
    assert y.ByCreation? ==> s.declared[y.i] in s.declared;
    AdoptionIs(s, x.i);
    match y {
      case ByAdoption(j) =>
        if x.i < j { AdoptionsApart(s, x.i, j); } else if j < x.i { AdoptionsApart(s, j, x.i); }
      case ByCreation(j) =>
      case AsBefore =>
        AtStart(s);
        AtStep(s, x.i);
        ClaimsGrow(s, x.i + 1, |s.declared|);
        if b in Keys(s.declared) {
          AdoptedIsNotHeld(s, x.i, b);
        }
    }
  }

  lemma OthersAreAlone(s: Setting, a: Key, x: Hold, b: Key, y: Hold, id: Id)
    requires s.Valid() && HoldIs(s, a, id, x) && HoldIs(s, b, id, y) && !x.ByAdoption? && !y.ByAdoption?
    ensures a == b
  {
    hide Plan, ExecuteAll, WalkAll, VerdictOn, Lists;
    assert x.ByCreation? ==> s.declared[x.i] in s.declared;
    assert y.ByCreation? ==> s.declared[y.i] in s.declared;
    assert x.AsBefore? || y.AsBefore? ==> id in s.memory.managed.Values;
  }

  /** No live entry is managed by two keys afterwards. */
  lemma PlanKeepsOneOwner(s: Setting)
    requires s.Valid()
    ensures Injective(s.After().memory.managed)
  {
    hide Plan, ExecuteAll, WalkAll, VerdictOn, Candidates, Lists, HoldIs;
    var managed := s.After().memory.managed;
    forall a, b | a in managed && b in managed && managed[a] == managed[b] ensures a == b {
      var x := HoldOf(s, a);
      var y := HoldOf(s, b);
      if x.ByAdoption? {
        AdoptionIsAlone(s, a, x, b, y, managed[a]);
      } else if y.ByAdoption? {
        AdoptionIsAlone(s, b, y, a, x, managed[a]);
      } else {
        OthersAreAlone(s, a, x, b, y, managed[a]);
      }
    }
  }

  /** A key is only forgotten for an entry that an item earlier in the same plan
      adopts: at every point of the execution the entry has an owner. */
  lemma ForgetFollowsAdopt(s: Setting, n: nat)
    requires s.Valid() && n < |s.Ops()| && s.Ops()[n].Forget?
    ensures exists m | 0 <= m < n :: s.Ops()[m].Adopt? && s.Ops()[m].id == s.Ops()[n].id
  {
    hide VerdictOn, WalkAll, OpForDropped, DroppedOps, Lists, ExecuteAll;
    var op := s.Ops()[n];
    OpOrigin(s, op);
    AtStart(s);
    var walked := s.End().ops;
    if x :| 0 <= x < |s.declared| && OpOf(s.declared[x], s.On(x)) == Some(op) {
      OpOfKey(s.declared[x], s.On(x));
    } else {
      OpForDroppedIs(op.key, s.memory.managed[op.key], s.live, s.End().claimed, s.End().contested);
      ForgottenIsAdopted(s, op.key);
      var i :| 0 <= i < |s.declared| && s.On(i) == Verdict.Adopts(op.id);
      DecidedHasData(s, i);
      var adopt := OpOf(s.declared[i], s.On(i)).value;
      WalkOpsAre(s, |s.declared|, adopt);
      var m :| 0 <= m < |walked| && walked[m] == adopt;
      assert s.Ops()[m] == adopt;
      assert n < |walked| ==> walked[n] == op;
      NoForgetInTheWalk(s);
    }
  }

  lemma NoForgetInTheWalk(s: Setting)
    ensures forall i | 0 <= i < |s.End().ops| :: !s.End().ops[i].Forget?
  {
    hide VerdictOn, WalkAll;
    AtStart(s);
    forall i | 0 <= i < |s.End().ops| ensures !s.End().ops[i].Forget? {
      WalkOpsAre(s, |s.declared|, s.End().ops[i]);
    }
  }

  lemma ForgottenIsAdopted(s: Setting, k: Key)
    requires s.Valid() && IsDropped(k, Keys(s.declared), s.memory.managed) && s.memory.managed[k] in s.End().claimed
    ensures exists i | 0 <= i < |s.declared| :: s.On(i) == Verdict.Adopts(s.memory.managed[k])
  {
    hide VerdictOn, WalkAll, Plan;
    AtStart(s);
    ClaimsGrow(s, 0, |s.declared|);
  }
}
