/** Executing a resource plan, and what planning again finds. */
module ResourceLaws {
  import opened Wrappers
  import opened Listing
  import opened Resources

  datatype Home = Home(live: Live<Item>, managed: map<Key, Id>)

  function Patched(item: Item, op: Op): Item
    requires op.Update?
  {
    Item(
      if op.newUrl.Some? then op.newUrl.value else item.url,
      if op.newKind.Some? then op.newKind.value else item.kind)
  }

  /** One op carried out; Home Assistant gives the resource created for a key
      the id `newId` says. Failed ops are skipped. */
  function Execute(s: Home, op: Op, newId: Key -> Id): Home {
    match op
    case Create(k, url, kind) =>
      Home(s.live.(byId := s.live.byId[newId(k) := Item(url, kind)]), s.managed[k := newId(k)])
    case Update(k, id, _, _) =>
      if id !in s.live.byId then s
      else Home(s.live.(byId := s.live.byId[id := Patched(s.live.byId[id], op)]), s.managed[k := id])
    case Delete(k, id) => Home(s.live.(byId := s.live.byId - {id}), s.managed - {k})
    case Forget(k, _) => s.(managed := s.managed - {k})
    case Failed(_) => s
  }

  function ExecuteAll(s: Home, ops: seq<Op>, newId: Key -> Id): Home {
    if ops == [] then s else Execute(ExecuteAll(s, ops[..|ops| - 1], newId), ops[|ops| - 1], newId)
  }

  // ---------- ops that do not meddle with each other ----------

  /** The live resource an op changes or, for a create, makes. */
  function Target(op: Op, newId: Key -> Id): Option<Id> {
    match op
    case Create(k, _, _) => Some(newId(k))
    case Update(_, id, _, _) => Some(id)
    case Delete(_, id) => Some(id)
    case _ => None
  }

  predicate Apart(a: Op, b: Op, newId: Key -> Id) {
    a.key != b.key && (Target(a, newId).Some? ==> Target(a, newId) != Target(b, newId))
  }

  predicate Independent(ops: seq<Op>, newId: Key -> Id) {
    forall i, j | 0 <= i < j < |ops| :: Apart(ops[i], ops[j], newId)
  }

  /** Updates find what they update. */
  predicate Grounded(live: Live<Item>, ops: seq<Op>) {
    forall op | op in ops && op.Update? :: op.id in live.byId
  }

  /** What an op leaves at its key, and at its target. */
  function KeyLeft(managed: map<Key, Id>, op: Op, newId: Key -> Id): Option<Id> {
    match op
    case Create(k, _, _) => Some(newId(k))
    case Update(_, id, _, _) => Some(id)
    case Delete(_, _) => None
    case Forget(_, _) => None
    case Failed(k) => Lookup(managed, k)
  }

  function ItemLeft(live: Live<Item>, op: Op): Option<Item> {
    match op
    case Create(_, url, kind) => Some(Item(url, kind))
    case Update(_, id, _, _) => if id in live.byId then Some(Patched(live.byId[id], op)) else None
    case _ => None
  }

  predicate NoneAtKey(ops: seq<Op>, k: Key) {
    forall i | 0 <= i < |ops| :: ops[i].key != k
  }

  predicate NoneAtId(ops: seq<Op>, id: Id, newId: Key -> Id) {
    forall i | 0 <= i < |ops| :: Target(ops[i], newId) != Some(id)
  }

  /** A key no op names keeps its resource. */
  lemma {:induction false} KeyStays(s: Home, ops: seq<Op>, newId: Key -> Id, k: Key)
    requires NoneAtKey(ops, k)
    ensures Lookup(ExecuteAll(s, ops, newId).managed, k) == Lookup(s.managed, k)
  {
    if ops != [] {
      KeyStays(s, ops[..|ops| - 1], newId, k);
    }
  }

  /** A resource no op targets stays as it is. */
  lemma {:induction false} ItemStays(s: Home, ops: seq<Op>, newId: Key -> Id, id: Id)
    requires NoneAtId(ops, id, newId)
    ensures Lookup(ExecuteAll(s, ops, newId).live.byId, id) == Lookup(s.live.byId, id)
  {
    if ops != [] {
      ItemStays(s, ops[..|ops| - 1], newId, id);
    }
  }

  lemma {:induction false} NamelessStay(s: Home, ops: seq<Op>, newId: Key -> Id)
    ensures ExecuteAll(s, ops, newId).live.nameless == s.live.nameless
  {
    if ops != [] {
      NamelessStay(s, ops[..|ops| - 1], newId);
    }
  }

  lemma ExecuteEffect(s: Home, op: Op, newId: Key -> Id)
    requires op.Update? ==> op.id in s.live.byId
    ensures Lookup(Execute(s, op, newId).managed, op.key) == KeyLeft(s.managed, op, newId)
    ensures Target(op, newId).Some? ==>
              Lookup(Execute(s, op, newId).live.byId, Target(op, newId).value) == ItemLeft(s.live, op)
  {
  }

  lemma ExecuteApart(s: Home, op: Op, other: Op, newId: Key -> Id)
    requires Apart(op, other, newId)
    ensures Lookup(Execute(s, other, newId).managed, op.key) == Lookup(s.managed, op.key)
    ensures Target(op, newId).Some? ==>
              Lookup(Execute(s, other, newId).live.byId, Target(op, newId).value) ==
              Lookup(s.live.byId, Target(op, newId).value)
  {
  }

  /** Independent ops each have their effect, whatever the others do. */
  lemma {:induction false} EachHasItsEffect(s: Home, ops: seq<Op>, newId: Key -> Id, i: nat)
    requires i < |ops| && Independent(ops, newId) && Grounded(s.live, ops)
    ensures
      var after := ExecuteAll(s, ops, newId);
      && Lookup(after.managed, ops[i].key) == KeyLeft(s.managed, ops[i], newId)
      && (Target(ops[i], newId).Some? ==>
            Lookup(after.live.byId, Target(ops[i], newId).value) == ItemLeft(s.live, ops[i]))
  {
    hide Execute, KeyLeft, ItemLeft, Apart, Target;
    var last := |ops| - 1;
    var before := ops[..last];
    var so := ExecuteAll(s, before, newId);
    if i < last {
      assert Independent(before, newId) && Grounded(s.live, before);
      EachHasItsEffect(s, before, newId, i);
      assert Apart(ops[i], ops[last], newId);
      ExecuteApart(so, ops[i], ops[last], newId);
    } else {
      LastIsUntouched(s, ops, newId);
      ExecuteEffect(so, ops[i], newId);
    }
  }

  lemma LastIsUntouched(s: Home, ops: seq<Op>, newId: Key -> Id)
    requires ops != [] && Independent(ops, newId) && Grounded(s.live, ops)
    ensures
      var op := ops[|ops| - 1];
      var so := ExecuteAll(s, ops[..|ops| - 1], newId);
      && (op.Update? ==> op.id in so.live.byId)
      && KeyLeft(so.managed, op, newId) == KeyLeft(s.managed, op, newId)
      && ItemLeft(so.live, op) == ItemLeft(s.live, op)
  {
    hide ExecuteAll;
    var op := ops[|ops| - 1];
    var before := ops[..|ops| - 1];
    assert NoneAtKey(before, op.key);
    KeyStays(s, before, newId, op.key);
    if op.Update? {
      assert op in ops;
      assert NoneAtId(before, op.id, newId);
      ItemStays(s, before, newId, op.id);
    }
  }

  // ---------- the ops of a plan ----------

  /** The ids Home Assistant gives out are nobody's yet. */
  predicate GivesNewIds(declared: seq<Resource>, live: Live<Item>, managed: map<Key, Id>, newId: Key -> Id) {
    && (forall r <- declared ::
          newId(r.key) != "" && newId(r.key) !in live.byId && newId(r.key) !in managed.Values)
    && forall a <- declared, b <- declared :: newId(a.key) == newId(b.key) ==> a.key == b.key
  }

  ghost predicate WellPosed(
      declared: seq<Resource>, live: Live<Item>, managed: map<Key, Id>, order: seq<Key>, newId: Key -> Id)
  {
    && OneEach(declared) && Injective(managed) && Lists(order, managed)
    && GivesNewIds(declared, live, managed, newId)
  }

  lemma {:induction false} InDeclaredOps(
      declared: seq<Resource>, live: Live<Item>, managed: map<Key, Id>, claimed: set<Id>, op: Op)
    ensures op in DeclaredOps(declared, live, managed, claimed) <==>
            exists i | 0 <= i < |declared| :: OpFor(declared[i], live, managed, claimed) == Some(op)
  {
    hide OpFor;
    if declared != [] {
      InDeclaredOps(declared[..|declared| - 1], live, managed, claimed, op);
    }
  }

  lemma {:induction false} InDroppedOps(
      order: seq<Key>, declared: set<Key>, live: Live<Item>, managed: map<Key, Id>, owned: set<Id>, contested: set<Id>, op: Op)
    ensures op in DroppedOps(order, declared, live, managed, owned, contested) <==>
            exists i | 0 <= i < |order| ::
              IsDropped(order[i], declared, managed)
              && OpForDropped(order[i], managed[order[i]], live, owned, contested) == Some(op)
  {
    hide OpForDropped;
    if order != [] {
      InDroppedOps(order[..|order| - 1], declared, live, managed, owned, contested, op);
    }
  }

  /** Two declared entries never own the same live resource. */
  lemma OwnedApart(
      declared: seq<Resource>, live: Live<Item>, managed: map<Key, Id>, a: Resource, b: Resource)
    requires Injective(managed) && a in declared && b in declared
    requires a.key != b.key && UrlPath(a.url) != UrlPath(b.url)
    requires Owned(a, live, managed, Claimed(Keys(declared), managed)).Some?
    ensures Owned(a, live, managed, Claimed(Keys(declared), managed)) !=
            Owned(b, live, managed, Claimed(Keys(declared), managed))
  {
    hide UrlPath;
    var claimed := Claimed(Keys(declared), managed);
    OwnedIs(a, live, managed, claimed);
    OwnedIs(b, live, managed, claimed);
    assert Held(a.key, live, managed) ==> managed[a.key] in claimed;
    assert Held(b.key, live, managed) ==> managed[b.key] in claimed;
  }

  lemma OwnedIs(r: Resource, live: Live<Item>, managed: map<Key, Id>, claimed: set<Id>)
    ensures
      var o := Owned(r, live, managed, claimed);
      o.Some? ==>
        && o.value in live.byId
        && (Held(r.key, live, managed) ==> o.value == managed[r.key])
        && (!Held(r.key, live, managed) ==> o.value in Candidates(live, OnPath(r.url), claimed))
  {
    var ids := Candidates(live, OnPath(r.url), claimed);
    if |ids| == 1 {
      OnlyIsTheOne(ids, Only(ids));
    }
  }

  lemma OpForIs(r: Resource, live: Live<Item>, managed: map<Key, Id>, claimed: set<Id>)
    ensures
      var op := OpFor(r, live, managed, claimed);
      var o := Owned(r, live, managed, claimed);
      op.Some? ==>
        && op.value.key == r.key
        && (op.value.Create? || op.value.Update? || op.value.Failed?)
        && (op.value.Update? <==> o.Some?)
        && (op.value.Update? ==> op.value.id == o.value && o.value in live.byId)
  {
    OwnedIs(r, live, managed, claimed);
  }

  lemma DeclaredApart(
      declared: seq<Resource>, live: Live<Item>, managed: map<Key, Id>, newId: Key -> Id, a: Resource, b: Resource)
    requires Injective(managed) && GivesNewIds(declared, live, managed, newId) && a in declared && b in declared
    requires a.key != b.key && UrlPath(a.url) != UrlPath(b.url)
    ensures
      var x := OpFor(a, live, managed, Claimed(Keys(declared), managed));
      var y := OpFor(b, live, managed, Claimed(Keys(declared), managed));
      x.Some? && y.Some? ==> Apart(x.value, y.value, newId)
  {
    hide OpFor, Owned, UrlPath;
    var claimed := Claimed(Keys(declared), managed);
    OpForIs(a, live, managed, claimed);
    OpForIs(b, live, managed, claimed);
    if Owned(a, live, managed, claimed).Some? {
      OwnedApart(declared, live, managed, a, b);
    }
  }

  lemma IndependentOneMore(ops: seq<Op>, op: Op, newId: Key -> Id)
    requires Independent(ops, newId) && forall x | x in ops :: Apart(x, op, newId)
    ensures Independent(ops + [op], newId)
  {
    hide Apart;
    forall i, j | 0 <= i < j < |ops + [op]| ensures Apart((ops + [op])[i], (ops + [op])[j], newId) {
      assert ops[i] in ops;
    }
  }

  lemma EntriesApart(declared: seq<Resource>, i: nat, j: nat)
    requires i < j < |declared| && OneEach(declared)
    ensures declared[i].key != declared[j].key && UrlPath(declared[i].url) != UrlPath(declared[j].url)
  {
  }

  lemma {:induction false} DeclaredOpsIndependent(
      declared: seq<Resource>, n: nat, live: Live<Item>, managed: map<Key, Id>, newId: Key -> Id)
    requires n <= |declared|
    requires OneEach(declared) && Injective(managed) && GivesNewIds(declared, live, managed, newId)
    ensures Independent(DeclaredOps(declared[..n], live, managed, Claimed(Keys(declared), managed)), newId)
  {
    hide OpFor, Apart, GivesNewIds, Injective, UrlPath, Claimed, OneEach;
    var claimed := Claimed(Keys(declared), managed);
    if n == 0 {
      assert Independent([], newId);
    } else {
      DeclaredOpsIndependent(declared, n - 1, live, managed, newId);
      assert declared[..n][..n - 1] == declared[..n - 1];
      var ops := DeclaredOps(declared[..n - 1], live, managed, claimed);
      var last := OpFor(declared[n - 1], live, managed, claimed);
      if last.Some? {
        forall x | x in ops ensures Apart(x, last.value, newId) {
          InDeclaredOps(declared[..n - 1], live, managed, claimed, x);
          var i :| 0 <= i < n - 1 && OpFor(declared[i], live, managed, claimed) == Some(x);
          EntriesApart(declared, i, n - 1);
          DeclaredApart(declared, live, managed, newId, declared[i], declared[n - 1]);
        }
        IndependentOneMore(ops, last.value, newId);
      }
    }
  }

  lemma OpForDroppedIs(key: Key, id: Id, live: Live<Item>, owned: set<Id>, contested: set<Id>)
    ensures
      var op := OpForDropped(key, id, live, owned, contested);
      op.Some? ==>
        && op.value.key == key
        && (op.value.Forget? || op.value.Delete?)
        && (op.value.Delete? ==> op.value.id == id && id in live.byId && id !in owned && id !in contested)
  {
  }

  lemma DroppedPairApart(
      order: seq<Key>, managed: map<Key, Id>, live: Live<Item>, owned: set<Id>, contested: set<Id>, newId: Key -> Id,
      i: nat, j: nat)
    requires i < j < |order| && Injective(managed) && Lists(order, managed)
    ensures order[i] in managed && order[j] in managed
    ensures
      var x := OpForDropped(order[i], managed[order[i]], live, owned, contested);
      var y := OpForDropped(order[j], managed[order[j]], live, owned, contested);
      x.Some? && y.Some? ==> Apart(x.value, y.value, newId)
  {
    OpForDroppedIs(order[i], managed[order[i]], live, owned, contested);
    OpForDroppedIs(order[j], managed[order[j]], live, owned, contested);
  }

  lemma {:induction false} DroppedOpsIndependent(
      order: seq<Key>, declared: set<Key>, live: Live<Item>, managed: map<Key, Id>, owned: set<Id>, contested: set<Id>,
      newId: Key -> Id, n: nat)
    requires n <= |order| && Injective(managed) && Lists(order, managed)
    ensures Independent(DroppedOps(order[..n], declared, live, managed, owned, contested), newId)
  {
    hide OpForDropped, Injective, Lists, Apart;
    if n == 0 {
      assert Independent([], newId);
    } else {
      DroppedOpsIndependent(order, declared, live, managed, owned, contested, newId, n - 1);
      assert order[..n][..n - 1] == order[..n - 1];
      var ops := DroppedOps(order[..n - 1], declared, live, managed, owned, contested);
      var key := order[n - 1];
      if IsDropped(key, declared, managed) {
        var last := OpForDropped(key, managed[key], live, owned, contested);
        if last.Some? {
          forall x | x in ops ensures Apart(x, last.value, newId) {
            InDroppedOps(order[..n - 1], declared, live, managed, owned, contested, x);
            var i :| 0 <= i < n - 1 && IsDropped(order[i], declared, managed)
                     && OpForDropped(order[i], managed[order[i]], live, owned, contested) == Some(x);
            DroppedPairApart(order, managed, live, owned, contested, newId, i, n - 1);
          }
          IndependentOneMore(ops, last.value, newId);
        }
      }
    }
  }

  lemma IndependentJoin(a: seq<Op>, b: seq<Op>, newId: Key -> Id)
    requires Independent(a, newId) && Independent(b, newId)
    requires forall x, y | x in a && y in b :: Apart(x, y, newId)
    ensures Independent(a + b, newId)
  {
    hide Apart;
    forall i, j | 0 <= i < j < |a + b| ensures Apart((a + b)[i], (a + b)[j], newId) {
      if i < |a| && |a| <= j {
        assert (a + b)[i] in a && (a + b)[j] in b;
      }
    }
  }

  /** No two ops of one plan concern the same key or the same live resource. */
  lemma PlanIsIndependent(
      declared: seq<Resource>, live: Live<Item>, managed: map<Key, Id>, order: seq<Key>, newId: Key -> Id)
    requires WellPosed(declared, live, managed, order, newId)
    ensures Independent(Plan(declared, live, managed, order), newId)
    ensures Grounded(live, Plan(declared, live, managed, order))
  {
    hide OpFor, OpForDropped, Independent, Owned, OwnedIds, ContestedIds, Injective, UrlPath, DeclaredOps, DroppedOps;
    var claimed := Claimed(Keys(declared), managed);
    var owned := OwnedIds(declared, live, managed, claimed);
    var contested := ContestedIds(declared, live, managed, claimed);
    assert declared[..|declared|] == declared && order[..|order|] == order;
    DeclaredOpsIndependent(declared, |declared|, live, managed, newId);
    DroppedOpsIndependent(order, Keys(declared), live, managed, owned, contested, newId, |order|);
    var a := DeclaredOps(declared, live, managed, claimed);
    var b := DroppedOps(order, Keys(declared), live, managed, owned, contested);
    forall x | x in a ensures x.Update? ==> x.id in live.byId {
      InDeclaredOps(declared, live, managed, claimed, x);
      var i :| 0 <= i < |declared| && OpFor(declared[i], live, managed, claimed) == Some(x);
      OpForIs(declared[i], live, managed, claimed);
    }
    forall y | y in b ensures !y.Update? {
      InDroppedOps(order, Keys(declared), live, managed, owned, contested, y);
      var j :| 0 <= j < |order| && IsDropped(order[j], Keys(declared), managed)
               && OpForDropped(order[j], managed[order[j]], live, owned, contested) == Some(y);
      OpForDroppedIs(order[j], managed[order[j]], live, owned, contested);
    }
    forall x, y | x in a && y in b ensures Apart(x, y, newId) {
      DroppedApart(declared, live, managed, order, newId, x, y);
    }
    IndependentJoin(a, b, newId);
  }

  lemma DroppedApart(
      declared: seq<Resource>, live: Live<Item>, managed: map<Key, Id>, order: seq<Key>, newId: Key -> Id, x: Op, y: Op)
    requires GivesNewIds(declared, live, managed, newId)
    requires
      var claimed := Claimed(Keys(declared), managed);
      && x in DeclaredOps(declared, live, managed, claimed)
      && y in DroppedOps(
           order, Keys(declared), live, managed,
           OwnedIds(declared, live, managed, claimed), ContestedIds(declared, live, managed, claimed))
    ensures Apart(x, y, newId)
  {
    hide OpFor, OpForDropped, Owned, ContestedIds, UrlPath, DeclaredOps, DroppedOps;
    var claimed := Claimed(Keys(declared), managed);
    var owned := OwnedIds(declared, live, managed, claimed);
    var contested := ContestedIds(declared, live, managed, claimed);
    InDeclaredOps(declared, live, managed, claimed, x);
    var i :| 0 <= i < |declared| && OpFor(declared[i], live, managed, claimed) == Some(x);
    OpForIs(declared[i], live, managed, claimed);
    InDroppedOps(order, Keys(declared), live, managed, owned, contested, y);
    var j :| 0 <= j < |order| && IsDropped(order[j], Keys(declared), managed)
             && OpForDropped(order[j], managed[order[j]], live, owned, contested) == Some(y);
    OpForDroppedIs(order[j], managed[order[j]], live, owned, contested);
    assert declared[i].key in Keys(declared);
    assert managed[order[j]] in managed.Values;
  }

  // ---------- planning again ----------

  /** A manifest, what Home Assistant has, what the agent remembers, the order
      it goes through its keys, and the ids it is going to be given. */
  datatype Setting = Setting(
    declared: seq<Resource>, live: Live<Item>, managed: map<Key, Id>, order: seq<Key>, newId: Key -> Id)
  {
    ghost predicate Valid() {
      WellPosed(declared, live, managed, order, newId)
    }

    function Claims(): set<Id> {
      Claimed(Keys(declared), managed)
    }

    ghost function Owner(r: Resource): Option<Id> {
      Owned(r, live, managed, Claims())
    }

    ghost function AllOwned(): set<Id> {
      OwnedIds(declared, live, managed, Claims())
    }

    function Contested(): set<Id> {
      ContestedIds(declared, live, managed, Claims())
    }

    ghost function For(r: Resource): Option<Op> {
      OpFor(r, live, managed, Claims())
    }

    ghost function Ops(): seq<Op> {
      Plan(declared, live, managed, order)
    }

    /** The home once the plan is executed. */
    ghost function After(): Home {
      ExecuteAll(Home(live, managed), Ops(), newId)
    }
  }

  /** Where an op of the plan comes from. */
  lemma OpOrigin(s: Setting, op: Op)
    requires op in s.Ops()
    ensures
      || (exists r :: r in s.declared && s.For(r) == Some(op))
      || (IsDropped(op.key, Keys(s.declared), s.managed)
          && OpForDropped(op.key, s.managed[op.key], s.live, s.AllOwned(), s.Contested()) == Some(op))
  {
    hide OpFor, OpForDropped, Owned, OwnedIds, ContestedIds, DeclaredOps, DroppedOps;
    InDeclaredOps(s.declared, s.live, s.managed, s.Claims(), op);
    InDroppedOps(s.order, Keys(s.declared), s.live, s.managed, s.AllOwned(), s.Contested(), op);
    if op in DeclaredOps(s.declared, s.live, s.managed, s.Claims()) {
      var i :| 0 <= i < |s.declared| && OpFor(s.declared[i], s.live, s.managed, s.Claims()) == Some(op);
      assert s.declared[i] in s.declared && s.For(s.declared[i]) == Some(op);
    } else {
      var j :| 0 <= j < |s.order| && IsDropped(s.order[j], Keys(s.declared), s.managed)
               && OpForDropped(s.order[j], s.managed[s.order[j]], s.live, s.AllOwned(), s.Contested()) == Some(op);
      OpForDroppedIs(s.order[j], s.managed[s.order[j]], s.live, s.AllOwned(), s.Contested());
    }
  }

  lemma OpIsPlanned(s: Setting, r: Resource)
    requires r in s.declared && s.For(r).Some?
    ensures s.For(r).value in s.Ops() && s.For(r).value.key == r.key
  {
    hide OpFor, DeclaredOps, DroppedOps, Owned, OwnedIds, ContestedIds;
    var i :| 0 <= i < |s.declared| && s.declared[i] == r;
    InDeclaredOps(s.declared, s.live, s.managed, s.Claims(), s.For(r).value);
    OpForIs(r, s.live, s.managed, s.Claims());
  }

  lemma DroppedIsPlanned(s: Setting, key: Key)
    requires s.Valid() && IsDropped(key, Keys(s.declared), s.managed)
    ensures
      var op := OpForDropped(key, s.managed[key], s.live, s.AllOwned(), s.Contested());
      op.Some? ==> op.value in s.Ops() && op.value.key == key
  {
    hide OpForDropped, DeclaredOps, DroppedOps, Owned, OwnedIds, ContestedIds, Injective, OneEach, GivesNewIds;
    var op := OpForDropped(key, s.managed[key], s.live, s.AllOwned(), s.Contested());
    if op.Some? {
      var j :| 0 <= j < |s.order| && s.order[j] == key;
      OpForDroppedIs(key, s.managed[key], s.live, s.AllOwned(), s.Contested());
      InDroppedOps(s.order, Keys(s.declared), s.live, s.managed, s.AllOwned(), s.Contested(), op.value);
    }
  }

  /** What an op of the plan leaves behind. */
  lemma PlannedEffect(s: Setting, op: Op)
    requires s.Valid() && op in s.Ops()
    ensures Lookup(s.After().managed, op.key) == KeyLeft(s.managed, op, s.newId)
    ensures Target(op, s.newId).Some? ==>
              Lookup(s.After().live.byId, Target(op, s.newId).value) == ItemLeft(s.live, op)
  {
    hide Plan, Independent, Grounded, KeyLeft, ItemLeft, ExecuteAll, WellPosed;
    PlanIsIndependent(s.declared, s.live, s.managed, s.order, s.newId);
    var i :| 0 <= i < |s.Ops()| && s.Ops()[i] == op;
    EachHasItsEffect(Home(s.live, s.managed), s.Ops(), s.newId, i);
  }

  /** A live resource no declared entry owns is left as it is, unless it is one
      the agent owned and nobody declares any more. */
  lemma StrangersAreUntouched(s: Setting, id: Id)
    requires s.Valid() && id !in s.AllOwned()
    requires id in s.live.byId ==> id !in s.managed.Values || id in s.Contested()
    requires forall r | r in s.declared :: s.newId(r.key) != id
    ensures Lookup(s.After().live.byId, id) == Lookup(s.live.byId, id)
  {
    hide Plan, ExecuteAll, WellPosed, ContestedIds, OpFor, OpForDropped, Owned;
    forall i | 0 <= i < |s.Ops()| ensures Target(s.Ops()[i], s.newId) != Some(id) {
      var op := s.Ops()[i];
      OpOrigin(s, op);
      if r :| r in s.declared && s.For(r) == Some(op) {
        OpForIs(r, s.live, s.managed, s.Claims());
        assert op.Update? ==> op.id in s.AllOwned();
      } else {
        OpForDroppedIs(op.key, s.managed[op.key], s.live, s.AllOwned(), s.Contested());
        assert s.managed[op.key] in s.managed.Values;
      }
    }
    ItemStays(Home(s.live, s.managed), s.Ops(), s.newId, id);
  }

  /** The key of an entry whose plan holds no op keeps its resource. */
  lemma UnplannedKeyStays(s: Setting, key: Key)
    requires s.Valid()
    requires forall r | r in s.declared && r.key == key :: s.For(r).None?
    requires IsDropped(key, Keys(s.declared), s.managed) ==>
               OpForDropped(key, s.managed[key], s.live, s.AllOwned(), s.Contested()).None?
    ensures Lookup(s.After().managed, key) == Lookup(s.managed, key)
  {
    hide Plan, ExecuteAll, WellPosed, OwnedIds, ContestedIds, OpFor, OpForDropped, Owned, OpFor;
    forall i | 0 <= i < |s.Ops()| ensures s.Ops()[i].key != key {
      var op := s.Ops()[i];
      OpOrigin(s, op);
      if r :| r in s.declared && s.For(r) == Some(op) {
        OpForIs(r, s.live, s.managed, s.Claims());
      }
    }
    KeyStays(Home(s.live, s.managed), s.Ops(), s.newId, key);
  }

  lemma SameEntry(declared: seq<Resource>, a: Resource, b: Resource)
    requires OneEach(declared) && a in declared && b in declared
    requires a.key == b.key || UrlPath(a.url) == UrlPath(b.url)
    ensures a == b
  {
    var i :| 0 <= i < |declared| && declared[i] == a;
    var j :| 0 <= j < |declared| && declared[j] == b;
  }

  /** A declared key afterwards: on the resource its entry owns, on the one made
      for it, or where it was if the entry failed. */
  lemma DeclaredKeyAfter(s: Setting, r: Resource)
    requires s.Valid() && r in s.declared
    ensures Lookup(s.After().managed, r.key) ==
            if s.Owner(r).Some? then s.Owner(r)
            else if s.For(r).Some? && s.For(r).value.Create? then Some(s.newId(r.key))
            else Lookup(s.managed, r.key)
  {
    hide Plan, ExecuteAll, OwnedIds, ContestedIds, OpFor, OpForDropped, Owned, UrlPath, Injective, GivesNewIds;
    OpForIs(r, s.live, s.managed, s.Claims());
    if s.For(r).Some? {
      OpIsPlanned(s, r);
      PlannedEffect(s, s.For(r).value);
    } else {
      forall other | other in s.declared && other.key == r.key ensures s.For(other).None? {
        SameEntry(s.declared, other, r);
      }
      UnplannedKeyStays(s, r.key);
      OwnedIs(r, s.live, s.managed, s.Claims());
      NothingPlannedIsHeld(r, s.live, s.managed, s.Claims());
    }
  }

  lemma NothingPlannedIsHeld(r: Resource, live: Live<Item>, managed: map<Key, Id>, claimed: set<Id>)
    requires OpFor(r, live, managed, claimed).None?
    ensures Held(r.key, live, managed)
    ensures PlanUpdate(r, managed[r.key], live.byId[managed[r.key]], false).None?
    ensures Owned(r, live, managed, claimed) == Some(managed[r.key])
  {
    OwnedIs(r, live, managed, claimed);
  }

  /** What an update or a create leaves is what the entry asks for. */
  lemma UpdateSettles(r: Resource, id: Id, item: Item, adopt: bool)
    ensures
      var op := PlanUpdate(r, id, item, adopt);
      && (op.Some? ==> PlanUpdate(r, id, Patched(item, op.value), false).None?)
      && (op.None? ==> PlanUpdate(r, id, item, false).None?)
    ensures PlanUpdate(r, id, Item(r.url, r.kind), false).None?
  {
    UrlPathIsAPath(r.url);
  }

  /** An entry that owns a resource, or is given one, needs nothing afterwards. */
  lemma OwnerIsSettled(s: Setting, r: Resource, claimed: set<Id>)
    requires s.Valid() && r in s.declared
    requires s.Owner(r).Some? || (s.For(r).Some? && s.For(r).value.Create?)
    ensures Held(r.key, s.After().live, s.After().managed)
    ensures OpFor(r, s.After().live, s.After().managed, claimed).None?
  {
    hide Plan, ExecuteAll, OwnedIds, ContestedIds, OpForDropped, UrlPath, WellPosed;
    OwnedIs(r, s.live, s.managed, s.Claims());
    DeclaredKeyAfter(s, r);
    var id := if s.Owner(r).Some? then s.Owner(r).value else s.newId(r.key);
    if s.For(r).Some? {
      OpIsPlanned(s, r);
      PlannedEffect(s, s.For(r).value);
      if s.Owner(r).Some? {
        UpdateSettles(r, id, s.live.byId[id], !Held(r.key, s.live, s.managed));
      } else {
        UpdateSettles(r, id, Item(r.url, r.kind), false);
      }
    } else {
      NothingPlannedIsHeld(r, s.live, s.managed, s.Claims());
      SettledItemStays(s, r);
    }
    assert Held(r.key, s.After().live, s.After().managed);
    assert Owned(r, s.After().live, s.After().managed, claimed) == Some(id);
  }

  lemma SettledItemStays(s: Setting, r: Resource)
    requires s.Valid() && r in s.declared && s.For(r).None? && s.Owner(r).Some?
    ensures Lookup(s.After().live.byId, s.Owner(r).value) == Lookup(s.live.byId, s.Owner(r).value)
  {
    hide Plan, ExecuteAll, ContestedIds, OpFor, OpForDropped, Owned, UrlPath;
    var id := s.Owner(r).value;
    OwnedIs(r, s.live, s.managed, s.Claims());
    forall i | 0 <= i < |s.Ops()| ensures Target(s.Ops()[i], s.newId) != Some(id) {
      var op := s.Ops()[i];
      OpOrigin(s, op);
      if other :| other in s.declared && s.For(other) == Some(op) {
        OpForIs(other, s.live, s.managed, s.Claims());
        if other.key == r.key || UrlPath(other.url) == UrlPath(r.url) {
          SameEntry(s.declared, other, r);
        } else {
          OwnedApart(s.declared, s.live, s.managed, r, other);
        }
      } else {
        OpForDroppedIs(op.key, s.managed[op.key], s.live, s.AllOwned(), s.Contested());
        assert id in s.AllOwned();
      }
    }
    ItemStays(Home(s.live, s.managed), s.Ops(), s.newId, id);
  }

  /** An entry the plan could not settle: its key holds nothing, and the matches
      are none of anybody's. */
  predicate Unsettled(s: Setting, r: Resource) {
    && !Held(r.key, s.live, s.managed)
    && MatchCount(s.live, OnPath(r.url), s.Claims()) != 0
    && (MatchCount(s.live, OnPath(r.url), s.Claims()) > 1 || Candidates(s.live, OnPath(r.url), s.Claims()) == {})
  }

  lemma UnsettledIff(s: Setting, r: Resource)
    ensures Unsettled(s, r) <==> s.For(r) == Some(Failed(r.key))
    ensures Unsettled(s, r) ==> s.Owner(r).None?
    ensures !Unsettled(s, r) ==> s.Owner(r).Some? || (s.For(r).Some? && s.For(r).value.Create?)
  {
  }

  /** The matches of an unsettled entry are contested and owned by nobody. */
  lemma UnsettledMatches(s: Setting, r: Resource, id: Id)
    requires s.Valid() && r in s.declared && Unsettled(s, r)
    requires id in Candidates(s.live, OnPath(r.url), s.Claims())
    ensures id in s.Contested() && id !in s.AllOwned()
  {
    hide Owned, UrlPath;
    assert Ambiguous(r, s.live, s.managed, s.Claims());
    UnsettledIff(s, r);
    forall other | other in s.declared ensures s.Owner(other) != Some(id) {
      OwnedIs(other, s.live, s.managed, s.Claims());
      assert Held(other.key, s.live, s.managed) ==> s.managed[other.key] in s.Claims();
      if s.Owner(other) == Some(id) {
        SameEntry(s.declared, other, r);
      }
    }
  }

  /** What the declared keys claim afterwards: what they own, what was made for
      them, and what an unsettled one was left with. */
  lemma ClaimsAfter(s: Setting, id: Id)
    requires s.Valid()
    ensures id in Claimed(Keys(s.declared), s.After().managed) <==>
            exists r :: r in s.declared && (
              || s.Owner(r) == Some(id)
              || (s.For(r).Some? && s.For(r).value.Create? && s.newId(r.key) == id)
              || (Unsettled(s, r) && Lookup(s.managed, r.key) == Some(id)))
  {
    hide Plan, ExecuteAll, OwnedIds, ContestedIds, OpFor, OpForDropped, Owned, UrlPath, WellPosed, Unsettled;
    forall r | r in s.declared ensures
        Lookup(s.After().managed, r.key) == Some(id) <==> (
          || s.Owner(r) == Some(id)
          || (s.For(r).Some? && s.For(r).value.Create? && s.newId(r.key) == id)
          || (Unsettled(s, r) && Lookup(s.managed, r.key) == Some(id))) {
      DeclaredKeyAfter(s, r);
      UnsettledIff(s, r);
      OpForIs(r, s.live, s.managed, s.Claims());
    }
    if id in Claimed(Keys(s.declared), s.After().managed) {
      var k :| k in s.After().managed && k in Keys(s.declared) && s.After().managed[k] == id;
      var r :| r in s.declared && r.key == k;
      assert Lookup(s.After().managed, r.key) == Some(id);
    }
  }

  /** An unsettled entry finds the very matches it failed on. */
  lemma MatchesStay(s: Setting, r: Resource, id: Id)
    requires s.Valid() && r in s.declared && Unsettled(s, r)
    ensures
      var claims := Claimed(Keys(s.declared), s.After().managed);
      id in Candidates(s.After().live, OnPath(r.url), claims) <==> id in Candidates(s.live, OnPath(r.url), s.Claims())
  {
    hide Plan, ExecuteAll, ContestedIds, OpFor, OpForDropped, Owned, UrlPath, Unsettled;
    ClaimsAfter(s, id);
    if id in Candidates(s.live, OnPath(r.url), s.Claims()) {
      UnsettledMatches(s, r, id);
      StrangersAreUntouched(s, id);
      forall other | other in s.declared ensures s.Owner(other) != Some(id) && Lookup(s.managed, other.key) != Some(id) {
        assert s.Owner(other) == Some(id) ==> id in s.AllOwned();
        assert other.key in Keys(s.declared);
        assert Lookup(s.managed, other.key) == Some(id) ==> id in s.Claims();
      }
    } else if id in Candidates(s.After().live, OnPath(r.url), Claimed(Keys(s.declared), s.After().managed)) {
      NewMatchIsOld(s, r, id);
    }
  }

  lemma ClaimedIsOwned(s: Setting, id: Id)
    requires id in s.live.byId && id in s.Claims()
    ensures exists r :: r in s.declared && s.Owner(r) == Some(id)
  {
    var k :| k in s.managed && k in Keys(s.declared) && s.managed[k] == id;
    var r :| r in s.declared && r.key == k;
    assert s.Owner(r) == Some(id);
  }

  lemma NewMatchIsOld(s: Setting, r: Resource, id: Id)
    requires s.Valid() && r in s.declared
    requires id in Candidates(s.After().live, OnPath(r.url), Claimed(Keys(s.declared), s.After().managed))
    ensures id in Candidates(s.live, OnPath(r.url), s.Claims())
  {
    hide Plan, ExecuteAll, ContestedIds, OpFor, OpForDropped, Owned, UrlPath, Unsettled;
    ClaimsAfter(s, id);
    forall i | 0 <= i < |s.Ops()| ensures Target(s.Ops()[i], s.newId) != Some(id) {
      var op := s.Ops()[i];
      assert op in s.Ops();
      OpOrigin(s, op);
      PlannedEffect(s, op);
      if other :| other in s.declared && s.For(other) == Some(op) {
        OpForIs(other, s.live, s.managed, s.Claims());
      } else {
        OpForDroppedIs(op.key, s.managed[op.key], s.live, s.AllOwned(), s.Contested());
      }
    }
    ItemStays(Home(s.live, s.managed), s.Ops(), s.newId, id);
    if id in s.live.byId && id in s.Claims() {
      ClaimedIsOwned(s, id);
    }
  }

  /** The setting of the next plan. */
  function Again(s: Setting, live: Live<Item>, managed: map<Key, Id>, order: seq<Key>): Setting {
    Setting(s.declared, live, managed, order, s.newId)
  }

  lemma UnsettledStays(s: Setting, r: Resource, order: seq<Key>)
    requires s.Valid() && r in s.declared && Unsettled(s, r)
    ensures
      var next := Again(s, s.After().live, s.After().managed, order);
      && Unsettled(next, r) && (Ambiguous(r, s.live, s.managed, s.Claims()) ==>
                                  Ambiguous(r, next.live, next.managed, next.Claims()))
      && Candidates(next.live, OnPath(r.url), next.Claims()) == Candidates(s.live, OnPath(r.url), s.Claims())
  {
    hide Plan, ExecuteAll, OwnedIds, ContestedIds, OpFor, OpForDropped, Owned, UrlPath, Candidates;
    var next := Again(s, s.After().live, s.After().managed, order);
    var path := OnPath(r.url);
    forall id ensures id in Candidates(next.live, path, next.Claims()) <==> id in Candidates(s.live, path, s.Claims()) {
      MatchesStay(s, r, id);
    }
    assert Candidates(next.live, path, next.Claims()) == Candidates(s.live, path, s.Claims());
    NamelessStay(Home(s.live, s.managed), s.Ops(), s.newId);
    UnsettledIff(s, r);
    DeclaredKeyAfter(s, r);
    if r.key in s.managed {
      StaleStays(s, r);
    }
  }

  /** A mapping to nothing maps to nothing afterwards. */
  lemma StaleStays(s: Setting, r: Resource)
    requires s.Valid() && r in s.declared && r.key in s.managed && !Held(r.key, s.live, s.managed)
    ensures s.managed[r.key] !in s.After().live.byId
  {
    hide Plan, ExecuteAll, ContestedIds, OpFor, OpForDropped, Owned, UrlPath;
    var id := s.managed[r.key];
    assert id in s.managed.Values;
    forall other | other in s.declared ensures s.Owner(other) != Some(id) {
      OwnedIs(other, s.live, s.managed, s.Claims());
    }
    StrangersAreUntouched(s, id);
  }

  /** A key no longer declared is only still there if its resource is contested,
      and then nothing is planned for it. */
  lemma DroppedKeyAfter(s: Setting, key: Key, order: seq<Key>)
    requires s.Valid() && key !in Keys(s.declared) && key in s.After().managed
    ensures
      var next := Again(s, s.After().live, s.After().managed, order);
      && key in s.managed && s.After().managed[key] == s.managed[key]
      && s.managed[key] in s.Contested() && s.managed[key] !in s.AllOwned()
      && OpForDropped(key, next.managed[key], next.live, next.AllOwned(), next.Contested()).None?
  {
    hide Plan, ExecuteAll, ContestedIds, OpFor, Owned, UrlPath, OwnedIds;
    var next := Again(s, s.After().live, s.After().managed, order);
    if IsDropped(key, Keys(s.declared), s.managed) {
      var op := OpForDropped(key, s.managed[key], s.live, s.AllOwned(), s.Contested());
      DroppedIsPlanned(s, key);
      OpForDroppedIs(key, s.managed[key], s.live, s.AllOwned(), s.Contested());
      if op.Some? {
        PlannedEffect(s, op.value);
      }
    }
    UnplannedKeyStays(s, key);
    var id := s.managed[key];
    assert id in s.live.byId && id !in s.AllOwned() && id in s.Contested();
    StrangersAreUntouched(s, id);
    ContestedStays(s, id, order);
    NotOwnedNext(s, id, order);
    assert OpForDropped(key, id, next.live, next.AllOwned(), next.Contested()).None?;
  }

  lemma ContestedStays(s: Setting, id: Id, order: seq<Key>)
    requires s.Valid() && id in s.Contested()
    ensures id in Again(s, s.After().live, s.After().managed, order).Contested()
  {
    hide Plan, ExecuteAll, OpFor, Owned, UrlPath, OwnedIds, OpForDropped, WellPosed, MatchCount;
    var r :| r in s.declared && Ambiguous(r, s.live, s.managed, s.Claims())
             && id in Candidates(s.live, OnPath(r.url), s.Claims());
    assert Unsettled(s, r);
    UnsettledStays(s, r, order);
  }

  lemma NotOwnedNext(s: Setting, id: Id, order: seq<Key>)
    requires s.Valid() && id in s.live.byId && id !in s.AllOwned()
    ensures id !in Again(s, s.After().live, s.After().managed, order).AllOwned()
  {
    hide Plan, ExecuteAll, OpFor, Owned, UrlPath, OpForDropped, ContestedIds;
    var next := Again(s, s.After().live, s.After().managed, order);
    forall r | r in s.declared ensures next.Owner(r) != Some(id) {
      UnsettledIff(s, r);
      if Unsettled(s, r) {
        UnsettledStays(s, r, order);
        UnsettledIff(next, r);
      } else {
        OwnerIsSettled(s, r, next.Claims());
        DeclaredKeyAfter(s, r);
        OwnedIs(r, next.live, next.managed, next.Claims());
        assert s.Owner(r) == Some(id) ==> id in s.AllOwned();
      }
    }
  }

  /** Executing a plan settles everything that can be: planning again yields
      only failed ops, for exactly the entries that failed before. */
  lemma ReplanOnlyFails(s: Setting, order: seq<Key>, op: Op)
    requires s.Valid() && Lists(order, s.After().managed)
    ensures
      op in Plan(s.declared, s.After().live, s.After().managed, order) <==>
      op.Failed? && op in s.Ops()
  {
    hide Plan, ExecuteAll, OpFor, Owned, UrlPath, OpForDropped, ContestedIds, OwnedIds, WellPosed, Unsettled;
    var next := Again(s, s.After().live, s.After().managed, order);
    forall r | r in s.declared ensures
        (next.For(r) == Some(Failed(r.key)) <==> s.For(r) == Some(Failed(r.key)))
        && (next.For(r).None? || next.For(r) == Some(Failed(r.key))) {
      UnsettledIff(s, r);
      UnsettledIff(next, r);
      if Unsettled(s, r) {
        UnsettledStays(s, r, order);
      } else {
        OwnerIsSettled(s, r, next.Claims());
      }
    }
    if op in next.Ops() {
      OpOrigin(next, op);
      if r :| r in s.declared && next.For(r) == Some(op) {
        OpIsPlanned(s, r);
      } else {
        DroppedKeyAfter(s, op.key, order);
      }
    }
    if op in s.Ops() && op.Failed? {
      OpOrigin(s, op);
      if r :| r in s.declared && s.For(r) == Some(op) {
        OpForIs(r, s.live, s.managed, s.Claims());
        OpIsPlanned(next, r);
      } else {
        OpForDroppedIs(op.key, s.managed[op.key], s.live, s.AllOwned(), s.Contested());
      }
    }
  }

  /** What a key may hold afterwards. */
  lemma KeyHolds(s: Setting, key: Key)
    requires s.Valid() && key in s.After().managed
    ensures
      var id := s.After().managed[key];
      || (exists r :: r in s.declared && r.key == key && s.Owner(r) == Some(id))
      || (exists r :: r in s.declared && r.key == key && s.newId(key) == id)
      || (Lookup(s.managed, key) == Some(id) && id !in s.AllOwned())
  {
    hide Plan, ExecuteAll, OpFor, Owned, UrlPath, OpForDropped, ContestedIds;
    var id := s.After().managed[key];
    if key in Keys(s.declared) {
      var r :| r in s.declared && r.key == key;
      DeclaredKeyAfter(s, r);
      UnsettledIff(s, r);
      forall other | other in s.declared && Unsettled(s, r) ensures s.Owner(other).Some? ==> s.Owner(other) != Lookup(s.managed, key) {
        OwnedIs(other, s.live, s.managed, s.Claims());
      }
    } else {
      DroppedKeyAfter(s, key, []);
    }
  }

  /** One owner per live resource, before and after. */
  lemma PlanKeepsOneOwner(s: Setting)
    requires s.Valid()
    ensures Injective(s.After().managed)
  {
    hide Plan, ExecuteAll, OpFor, Owned, UrlPath, OpForDropped, ContestedIds;
    forall a, b | a in s.After().managed && b in s.After().managed && s.After().managed[a] == s.After().managed[b]
      ensures a == b
    {
      var id := s.After().managed[a];
      KeyHolds(s, a);
      KeyHolds(s, b);
      forall x, y | x in s.declared && y in s.declared && s.Owner(x) == s.Owner(y) == Some(id) ensures x.key == y.key {
        OwnedIs(x, s.live, s.managed, s.Claims());
        if x.key != y.key {
          DifferentEntries(s.declared, x, y);
          OwnedApart(s.declared, s.live, s.managed, x, y);
        }
      }
      forall x | x in s.declared && s.Owner(x) == Some(id) ensures id in s.live.byId && id in s.AllOwned() {
        OwnedIs(x, s.live, s.managed, s.Claims());
      }
      assert Lookup(s.managed, a) == Some(id) ==> id in s.managed.Values;
      assert Lookup(s.managed, b) == Some(id) ==> id in s.managed.Values;
    }
  }

  lemma DifferentEntries(declared: seq<Resource>, a: Resource, b: Resource)
    requires OneEach(declared) && a in declared && b in declared && a.key != b.key
    ensures UrlPath(a.url) != UrlPath(b.url)
  {
    var i :| 0 <= i < |declared| && declared[i] == a;
    var j :| 0 <= j < |declared| && declared[j] == b;
  }
}
