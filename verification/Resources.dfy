/** Planning the Lovelace resources: which to create, adopt, update, delete or
    stop tracking, and executing such a plan. */
module Resources {
  import opened Wrappers
  import opened Listing

  /** A declared resource. */
  datatype Resource = Resource(key: Key, url: string, kind: string)

  datatype Item = Item(url: string, kind: string)

  datatype Op =
    | Create(key: Key, url: string, kind: string)
    | Update(key: Key, id: Id, newUrl: Option<string>, newKind: Option<string>)
    | Delete(key: Key, id: Id)
    | Forget(key: Key, id: Id)
    | Failed(key: Key)

  // ---------- identity ----------

  /** A url up to its query or fragment. */
  function UrlPath(url: string): (path: string)
    ensures path <= url
    ensures forall c | c in path :: c != '?' && c != '#'
    ensures |path| < |url| ==> url[|path|] in "?#"
  {
    if url == "" || url[0] == '?' || url[0] == '#' then "" else [url[0]] + UrlPath(url[1..])
  }

  predicate UrlMatches(declared: string, live: string) {
    if UrlPath(declared) == declared then UrlPath(live) == declared else live == declared
  }

  /** The path of a path is itself, so a url set as declared is never drift. */
  lemma {:induction false} UrlPathIsAPath(url: string)
    ensures UrlPath(UrlPath(url)) == UrlPath(url)
    ensures UrlMatches(url, url)
  {
    if url != "" && url[0] != '?' && url[0] != '#' {
      UrlPathIsAPath(url[1..]);
      assert UrlPath(url)[1..] == UrlPath(url[1..]);
    }
  }

  // ---------- the manifest ----------

  /** One entry per key and per url path. */
  predicate OneEach(declared: seq<Resource>) {
    forall i, j | 0 <= i < j < |declared| ::
      declared[i].key != declared[j].key && UrlPath(declared[i].url) != UrlPath(declared[j].url)
  }

  predicate Clashes(a: Resource, b: Resource) {
    a.key == b.key || UrlPath(a.url) == UrlPath(b.url)
  }

  /** An entry before this one was kept, and clashes with it. */
  ghost predicate LeftOut(items: seq<Resource>, kept: seq<Resource>, j: nat)
    requires j < |items|
  {
    exists i | 0 <= i < j :: items[i] in kept && Clashes(items[i], items[j])
  }

  ghost predicate AllLeftOut(items: seq<Resource>, n: nat, kept: seq<Resource>)
    requires n <= |items|
  {
    forall j | 0 <= j < n && items[j] !in kept :: LeftOut(items, kept, j)
  }

  predicate Earlier(items: seq<Resource>, n: nat, kept: seq<Resource>)
    requires n <= |items|
  {
    forall k | k in kept :: k in items[..n]
  }

  ghost predicate EachClashes(kept: seq<Resource>, refused: seq<Resource>) {
    forall r | r in refused :: exists k :: k in kept && Clashes(k, r)
  }

  /** How the first `n` entries are shared out between kept and refused. */
  ghost predicate SharedOut(items: seq<Resource>, n: nat, kept: seq<Resource>, refused: seq<Resource>)
    requires n <= |items|
  {
    && OneEach(kept)
    && (forall j | 0 <= j < n :: items[j] in kept || items[j] in refused)
    && EachClashes(kept, refused) && Earlier(items, n, kept) && AllLeftOut(items, n, kept)
  }

  lemma RefuseOne(items: seq<Resource>, n: nat, kept: seq<Resource>, refused: seq<Resource>, k: Resource)
    requires n < |items| && SharedOut(items, n, kept, refused) && k in kept && Clashes(k, items[n])
    ensures SharedOut(items, n + 1, kept, refused + [items[n]])
  {
    hide Clashes, OneEach;
    assert items[..n + 1] == items[..n] + [items[n]];
    var h :| 0 <= h < n && items[..n][h] == k;
    assert items[h] == k;
  }

  lemma KeepOne(items: seq<Resource>, n: nat, kept: seq<Resource>, refused: seq<Resource>)
    requires n < |items| && SharedOut(items, n, kept, refused) && forall k | k in kept :: !Clashes(k, items[n])
    ensures SharedOut(items, n + 1, kept + [items[n]], refused)
  {
    hide OneEach, EachClashes, Earlier, AllLeftOut;
    OneMoreOfEach(kept, items[n]);
    StillClash(kept, items[n], refused);
    KeptEarlier(items, n, kept);
    StillLeftOut(items, n, kept);
  }

  lemma OneMoreOfEach(kept: seq<Resource>, r: Resource)
    requires OneEach(kept) && forall k | k in kept :: !Clashes(k, r)
    ensures OneEach(kept + [r])
  {
    hide UrlPath;
    assert forall j | 0 <= j < |kept| :: kept[j] in kept;
  }

  lemma StillClash(kept: seq<Resource>, r: Resource, refused: seq<Resource>)
    requires EachClashes(kept, refused)
    ensures EachClashes(kept + [r], refused)
  {
    hide Clashes;
    forall x | x in refused ensures exists k :: k in kept + [r] && Clashes(k, x) {
      var k :| k in kept && Clashes(k, x);
      assert k in kept + [r];
    }
  }

  lemma KeptEarlier(items: seq<Resource>, n: nat, kept: seq<Resource>)
    requires n < |items| && Earlier(items, n, kept)
    ensures Earlier(items, n + 1, kept + [items[n]])
  {
    assert items[..n + 1] == items[..n] + [items[n]];
  }

  lemma StillLeftOut(items: seq<Resource>, n: nat, kept: seq<Resource>)
    requires n < |items| && AllLeftOut(items, n, kept)
    ensures AllLeftOut(items, n + 1, kept + [items[n]])
  {
    hide Clashes;
    var more := kept + [items[n]];
    assert items[n] in more;
    forall j | 0 <= j < n && items[j] !in more ensures LeftOut(items, more, j) {
      assert items[j] !in kept;
      var i :| 0 <= i < j && items[i] in kept && Clashes(items[i], items[j]);
      assert items[i] in more;
    }
  }

  /** Keeps each entry whose key and url path are free, first come first served;
      every one it leaves out clashes with one it kept before. */
  method KeepUnique(items: seq<Resource>) returns (kept: seq<Resource>, refused: seq<Resource>)
    ensures OneEach(kept)
    ensures forall i | 0 <= i < |items| :: items[i] in kept || items[i] in refused
    ensures forall r | r in refused :: exists k :: k in kept && Clashes(k, r)
    ensures forall k | k in kept :: k in items
    ensures forall j | 0 <= j < |items| && items[j] !in kept :: LeftOut(items, kept, j)
  {
    kept, refused := [], [];
    var keys: set<Key>, paths: set<string> := {}, {};
    hide UrlPath, LeftOut, OneEach;
    assert SharedOut(items, 0, [], []) by {
      NothingShared(items);
    }
    for i := 0 to |items|
      invariant keys == set k | k in kept :: k.key
      invariant paths == set k | k in kept :: UrlPath(k.url)
      invariant SharedOut(items, i, kept, refused)
    {
      hide SharedOut;
      var path := UrlPath(items[i].url);
      if items[i].key in keys || path in paths {
        ghost var k :| k in kept && Clashes(k, items[i]);
        RefuseOne(items, i, kept, refused, k);
        refused := refused + [items[i]];
        continue;
      }
      KeepOne(items, i, kept, refused);
      kept, keys, paths := kept + [items[i]], keys + {items[i].key}, paths + {path};
    }
    assert items[..|items|] == items;
  }

  lemma NothingShared(items: seq<Resource>)
    ensures SharedOut(items, 0, [], [])
  {
  }

  // ---------- the plan, one entry at a time ----------

  function PlanUpdate(r: Resource, id: Id, item: Item, adopt: bool): Option<Op> {
    var newKind := if item.kind != r.kind then Some(r.kind) else None;
    var newUrl := if !UrlMatches(r.url, item.url) then Some(r.url) else None;
    if newKind.None? && newUrl.None? && !adopt then None else Some(Update(r.key, id, newUrl, newKind))
  }

  /** On this url path. */
  function OnPath(url: string): Item -> bool {
    (item: Item) => UrlPath(item.url) == UrlPath(url)
  }

  function Keys(declared: seq<Resource>): set<Key> {
    set r <- declared :: r.key
  }

  /** The live resource a declared entry owns once the plan is executed, unless
      it creates one. */
  ghost function Owned(r: Resource, live: Live<Item>, managed: map<Key, Id>, claimed: set<Id>): Option<Id> {
    var ids := Candidates(live, OnPath(r.url), claimed);
    if Held(r.key, live, managed) then Some(managed[r.key])
    else if MatchCount(live, OnPath(r.url), claimed) == 1 && ids != {} then Some(Only(ids))
    else None
  }

  predicate Ambiguous(r: Resource, live: Live<Item>, managed: map<Key, Id>, claimed: set<Id>) {
    !Held(r.key, live, managed) && MatchCount(live, OnPath(r.url), claimed) > 1
  }

  /** What is planned for one declared entry. */
  ghost function OpFor(r: Resource, live: Live<Item>, managed: map<Key, Id>, claimed: set<Id>): Option<Op> {
    var owned := Owned(r, live, managed, claimed);
    if owned.Some? then
      var adopt := !Held(r.key, live, managed);
      if owned.value in live.byId then PlanUpdate(r, owned.value, live.byId[owned.value], adopt) else None
    else if MatchCount(live, OnPath(r.url), claimed) == 0 then Some(Create(r.key, r.url, r.kind))
    else Some(Failed(r.key))
  }

  ghost function OwnedIds(declared: seq<Resource>, live: Live<Item>, managed: map<Key, Id>, claimed: set<Id>): set<Id> {
    set r <- declared | Owned(r, live, managed, claimed).Some? :: Owned(r, live, managed, claimed).value
  }

  /** What an ambiguous adoption leaves open. */
  function ContestedIds(declared: seq<Resource>, live: Live<Item>, managed: map<Key, Id>, claimed: set<Id>): set<Id> {
    set r, id | r in declared && Ambiguous(r, live, managed, claimed) && id in Candidates(live, OnPath(r.url), claimed) :: id
  }

  function OpForDropped(key: Key, id: Id, live: Live<Item>, owned: set<Id>, contested: set<Id>): Option<Op> {
    if id !in live.byId || id in owned then Some(Forget(key, id))
    else if id in contested then None
    else Some(Delete(key, id))
  }

  function Maybe(op: Option<Op>): seq<Op> {
    if op.Some? then [op.value] else []
  }

  ghost function DeclaredOps(declared: seq<Resource>, live: Live<Item>, managed: map<Key, Id>, claimed: set<Id>): seq<Op> {
    if declared == [] then []
    else
      var last := |declared| - 1;
      DeclaredOps(declared[..last], live, managed, claimed) + Maybe(OpFor(declared[last], live, managed, claimed))
  }

  function DroppedOps(
      order: seq<Key>, declared: set<Key>, live: Live<Item>, managed: map<Key, Id>, owned: set<Id>, contested: set<Id>)
    : seq<Op>
  {
    if order == [] then []
    else
      var last := |order| - 1;
      var key := order[last];
      DroppedOps(order[..last], declared, live, managed, owned, contested) +
      if key in managed && key !in declared then Maybe(OpForDropped(key, managed[key], live, owned, contested)) else []
  }

  /** The whole plan, the keys no longer declared in the order given. */
  ghost function Plan(declared: seq<Resource>, live: Live<Item>, managed: map<Key, Id>, order: seq<Key>): seq<Op> {
    var claimed := Claimed(Keys(declared), managed);
    DeclaredOps(declared, live, managed, claimed) +
    DroppedOps(
      order, Keys(declared), live, managed,
      OwnedIds(declared, live, managed, claimed), ContestedIds(declared, live, managed, claimed))
  }

  // ---------- the planner ----------

  lemma OneMoreKey(declared: seq<Resource>, i: nat)
    requires i < |declared|
    ensures Keys(declared[..i + 1]) == Keys(declared[..i]) + {declared[i].key}
  {
    assert declared[..i + 1] == declared[..i] + [declared[i]];
  }

  method DeclaredKeys(declared: seq<Resource>) returns (keys: set<Key>)
    ensures keys == Keys(declared)
  {
    keys := {};
    for i := 0 to |declared|
      invariant keys == Keys(declared[..i])
    {
      OneMoreKey(declared, i);
      keys := keys + {declared[i].key};
    }
    assert declared[..|declared|] == declared;
  }

  /** Plans one declared entry, and reports what it owns or leaves contested. */
  method PlanOne(r: Resource, list: seq<Listed<Item>>, live: Live<Item>, managed: map<Key, Id>, claimed: set<Id>)
    returns (op: Option<Op>, owned: set<Id>, contested: set<Id>)
    requires UniqueIds(list) && ListsLive(list, live) && "" !in claimed
    ensures op == OpFor(r, live, managed, claimed)
    ensures owned == var o := Owned(r, live, managed, claimed); if o.Some? then {o.value} else {}
    ensures contested ==
            if Ambiguous(r, live, managed, claimed) then Candidates(live, OnPath(r.url), claimed) else {}
  {
    if r.key in managed && managed[r.key] in live.byId {
      var id := managed[r.key];
      return PlanUpdate(r, id, live.byId[id], false), {id}, {};
    }
    var count, ids := FindMatches(list, live, OnPath(r.url), claimed);
    if count == 1 {
      if ids == {} {
        return Some(Failed(r.key)), {}, {};
      }
      ghost var only := Only(ids);
      OnlyIsTheOne(ids, only);
      var id :| id in ids;
      return PlanUpdate(r, id, live.byId[id], true), {id}, {};
    }
    if count > 1 {
      return Some(Failed(r.key)), {}, ids;
    }
    op, owned, contested := Some(Create(r.key, r.url, r.kind)), {}, {};
  }

  lemma OneMoreOwned(declared: seq<Resource>, i: nat, live: Live<Item>, managed: map<Key, Id>, claimed: set<Id>)
    requires i < |declared|
    ensures
      var r := declared[i];
      var o := Owned(r, live, managed, claimed);
      && OwnedIds(declared[..i + 1], live, managed, claimed) ==
         OwnedIds(declared[..i], live, managed, claimed) + (if o.Some? then {o.value} else {})
      && ContestedIds(declared[..i + 1], live, managed, claimed) ==
         ContestedIds(declared[..i], live, managed, claimed) +
         (if Ambiguous(r, live, managed, claimed) then Candidates(live, OnPath(r.url), claimed) else {})
      && DeclaredOps(declared[..i + 1], live, managed, claimed) ==
         DeclaredOps(declared[..i], live, managed, claimed) + Maybe(OpFor(r, live, managed, claimed))
  {
    hide Owned, Candidates, Ambiguous, OpFor;
    assert declared[..i + 1] == declared[..i] + [declared[i]];
    assert declared[..i + 1][..i] == declared[..i];
  }

  const STORAGE_MODE := "storage"

  /** The planner, entry by entry and then key by key; outside storage mode
      every entry fails and nothing else is planned. `order` is the order in
      which the keys of `managed` are looked at. */
  method PlanResources(
      declared: seq<Resource>, list: seq<Listed<Item>>, mode: string, managed: map<Key, Id>, order: seq<Key>)
    returns (live: Live<Item>, ops: seq<Op>)
    requires UniqueIds(list) && Lists(order, managed) && "" !in managed.Values
    ensures ListsLive(list, live)
    ensures mode == STORAGE_MODE ==> ops == Plan(declared, live, managed, order)
    ensures mode != STORAGE_MODE ==>
              |ops| == |declared| && forall i | 0 <= i < |ops| :: ops[i] == Failed(declared[i].key)
  {
    if mode != STORAGE_MODE {
      live := IndexById(list);
      return live, seq(|declared|, i requires 0 <= i < |declared| => Failed(declared[i].key));
    }
    hide ListsLive, Owned, OpFor, Ambiguous, Candidates, UniqueIds, DroppedOps;
    assert forall k | k in order :: k in managed;
    live := IndexById(list);
    var keys := DeclaredKeys(declared);
    var claimed := ClaimedIds(order, keys, managed);
    assert "" !in claimed;
    var owned, contested := {}, {};
    ops := [];
    assert OwnedIds([], live, managed, claimed) == ContestedIds([], live, managed, claimed) == {} by {
    }
    for i := 0 to |declared|
      invariant ops == DeclaredOps(declared[..i], live, managed, claimed)
      invariant owned == OwnedIds(declared[..i], live, managed, claimed)
      invariant contested == ContestedIds(declared[..i], live, managed, claimed)
    {
      OneMoreOwned(declared, i, live, managed, claimed);
      var op, o, c := PlanOne(declared[i], list, live, managed, claimed);
      owned, contested := owned + o, contested + c;
      if op.Some? {
        ops := ops + [op.value];
      }
    }
    assert declared[..|declared|] == declared;
    var dropped := PlanDropped(order, keys, live, managed, owned, contested);
    ops := ops + dropped;
  }

  /** Plans the keys that are managed and no longer declared. */
  method PlanDropped(
      order: seq<Key>, declared: set<Key>, live: Live<Item>, managed: map<Key, Id>, owned: set<Id>, contested: set<Id>)
    returns (ops: seq<Op>)
    requires forall k | k in order :: k in managed
    ensures ops == DroppedOps(order, declared, live, managed, owned, contested)
  {
    ops := [];
    for i := 0 to |order|
      invariant ops == DroppedOps(order[..i], declared, live, managed, owned, contested)
    {
      assert order[..i + 1][..i] == order[..i];
      var key := order[i];
      if key !in declared {
        var id := managed[key];
        if id !in live.byId {
          ops := ops + [Forget(key, id)];
        } else if id in owned {
          ops := ops + [Forget(key, id)];
        } else if id in contested {
          continue;
        } else {
          ops := ops + [Delete(key, id)];
        }
      }
    }
    assert order[..|order|] == order;
  }
}
