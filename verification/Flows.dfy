/** Planning the integrations: which config entries to create, adopt, delete or
    stop tracking. What one item claims, the items after it no longer see. */
module Flows {
  import opened Wrappers
  import opened Listing

  /** What an integration's flow is fed: step to field to value. */
  type Data = map<string, map<string, string>>

  /** A live config entry. */
  datatype Entry = Entry(domain: string, title: string)

  /** A declared integration; its data is missing when a secret it refers to
      does not resolve. */
  datatype Item = Item(key: Key, domain: string, title: string, data: Option<Data>)

  /** Fingerprints of data: the form written now, and the older one that is
      still recognised. */
  datatype Digest = Digest(hash: Data -> string, legacy: Data -> string) {
    predicate Matches(stored: string, data: Data) {
      stored != "" && (stored == hash(data) || stored == legacy(data))
    }
  }

  /** What the agent remembers: the entry of each key, the fingerprint of the
      data it was made from, and that of the data whose create failed. */
  datatype Memory = Memory(managed: map<Key, Id>, hashes: map<Key, string>, failures: map<Key, string>)

  datatype Op =
    | Create(key: Key, entry: Entry, data: Data)
    | Adopt(key: Key, id: Id, data: Data)
    | Delete(key: Key, id: Id)
    | Forget(key: Key, id: Id)
    | Failed(key: Key)

  function Titled(domain: string, title: string): Entry -> bool {
    (e: Entry) => e.domain == domain && e.title == title
  }

  /** The entries an item could adopt: its domain under exactly its title. */
  function Fits(item: Item): Entry -> bool {
    Titled(item.domain, item.title)
  }

  predicate Changed(item: Item, memory: Memory, digest: Digest)
    requires item.data.Some?
  {
    && item.key in memory.hashes && memory.hashes[item.key] != ""
    && !digest.Matches(memory.hashes[item.key], item.data.value)
  }

  predicate Refused(item: Item, memory: Memory, digest: Digest)
    requires item.data.Some?
  {
    item.key in memory.failures && digest.Matches(memory.failures[item.key], item.data.value)
  }

  function Keys(declared: seq<Item>): set<Key> {
    set item <- declared :: item.key
  }

  // ---------- the walk over the declared items ----------

  /** How one item comes out, given what is claimed by then. */
  datatype Verdict = Unresolved | Kept | Stale | Adopts(id: Id) | Unusable | Ambiguous | Blocked | Creates

  ghost function VerdictOn(item: Item, live: Live<Entry>, claimed: set<Id>, memory: Memory, digest: Digest): Verdict {
    var ids := Candidates(live, Fits(item), claimed);
    var count := MatchCount(live, Fits(item), claimed);
    if item.data.None? then Unresolved
    else if Held(item.key, live, memory.managed) then if Changed(item, memory, digest) then Stale else Kept
    else if count == 1 then if ids == {} then Unusable else Adopts(Only(ids))
    else if count > 1 then Ambiguous
    else if Refused(item, memory, digest) then Blocked
    else Creates
  }

  /** What an item adds to the plan. */
  function OpOf(item: Item, v: Verdict): Option<Op> {
    match v
    case Kept => None
    case Adopts(id) => if item.data.Some? then Some(Adopt(item.key, id, item.data.value)) else None
    case Creates =>
      if item.data.Some? then Some(Create(item.key, Entry(item.domain, item.title), item.data.value)) else None
    case _ => Some(Failed(item.key))
  }

  /** The walk so far. */
  datatype Walk = Walk(claimed: set<Id>, contested: set<Id>, ops: seq<Op>)

  function Maybe(op: Option<Op>): seq<Op> {
    if op.Some? then [op.value] else []
  }

  function Advance(w: Walk, item: Item, v: Verdict, ids: set<Id>): Walk {
    Walk(
      if v.Adopts? then w.claimed + {v.id} else w.claimed,
      if v.Unresolved? || v.Ambiguous? then w.contested + ids else w.contested,
      w.ops + Maybe(OpOf(item, v)))
  }

  ghost function WalkAll(declared: seq<Item>, live: Live<Entry>, start: set<Id>, memory: Memory, digest: Digest): Walk {
    if declared == [] then Walk(start, {}, [])
    else
      var item := declared[|declared| - 1];
      var w := WalkAll(declared[..|declared| - 1], live, start, memory, digest);
      Advance(w, item, VerdictOn(item, live, w.claimed, memory, digest), Candidates(live, Fits(item), w.claimed))
  }

  // ---------- the keys nobody declares any more ----------

  function OpForDropped(key: Key, id: Id, live: Live<Entry>, claimed: set<Id>, contested: set<Id>): Option<Op> {
    if id !in live.byId then None
    else if id in claimed then Some(Forget(key, id))
    else if id in contested then None
    else Some(Delete(key, id))
  }

  function DroppedOps(
      order: seq<Key>, declared: set<Key>, live: Live<Entry>, managed: map<Key, Id>, claimed: set<Id>, contested: set<Id>)
    : seq<Op>
  {
    if order == [] then []
    else
      var last := |order| - 1;
      var key := order[last];
      DroppedOps(order[..last], declared, live, managed, claimed, contested) +
      if key in managed && key !in declared then Maybe(OpForDropped(key, managed[key], live, claimed, contested)) else []
  }

  ghost function Plan(
      declared: seq<Item>, live: Live<Entry>, memory: Memory, digest: Digest, order: seq<Key>)
    : seq<Op>
  {
    var w := WalkAll(declared, live, Claimed(Keys(declared), memory.managed), memory, digest);
    w.ops + DroppedOps(order, Keys(declared), live, memory.managed, w.claimed, w.contested)
  }

  // ---------- the planner ----------

  method DeclaredKeys(declared: seq<Item>) returns (keys: set<Key>)
    ensures keys == Keys(declared)
  {
    keys := {};
    for i := 0 to |declared|
      invariant keys == Keys(declared[..i])
    {
      assert declared[..i + 1] == declared[..i] + [declared[i]];
      keys := keys + {declared[i].key};
    }
    assert declared[..|declared|] == declared;
  }

  /** Looks at one item. */
  method Consider(
      item: Item, list: seq<Listed<Entry>>, live: Live<Entry>, claimed: set<Id>, memory: Memory, digest: Digest)
    returns (v: Verdict, ids: set<Id>)
    requires UniqueIds(list) && ListsLive(list, live) && "" !in claimed
    ensures v == VerdictOn(item, live, claimed, memory, digest)
    ensures v.Unresolved? || v.Ambiguous? ==> ids == Candidates(live, Fits(item), claimed)
  {
    hide Candidates;
    var count: nat;
    ids := {};
    if item.data.None? {
      count, ids := FindMatches(list, live, Fits(item), claimed);
      return Unresolved, ids;
    }
    if item.key in memory.managed && memory.managed[item.key] in live.byId {
      return if Changed(item, memory, digest) then Stale else Kept, {};
    }
    count, ids := FindMatches(list, live, Fits(item), claimed);
    if count == 1 {
      if ids == {} {
        return Unusable, ids;
      }
      OnlyIsTheOne(ids, Only(ids));
      var id :| id in ids;
      return Adopts(id), ids;
    }
    if count > 1 {
      return Ambiguous, ids;
    }
    v := if Refused(item, memory, digest) then Blocked else Creates;
  }

  method PlanDropped(
      order: seq<Key>, declared: set<Key>, live: Live<Entry>, managed: map<Key, Id>, claimed: set<Id>, contested: set<Id>)
    returns (ops: seq<Op>)
    requires forall k | k in order :: k in managed
    ensures ops == DroppedOps(order, declared, live, managed, claimed, contested)
  {
    ops := [];
    for i := 0 to |order|
      invariant ops == DroppedOps(order[..i], declared, live, managed, claimed, contested)
    {
      assert order[..i + 1][..i] == order[..i];
      var key := order[i];
      if key in declared {
        continue;
      }
      var id := managed[key];
      if id !in live.byId {
        continue;
      }
      if id in claimed {
        ops := ops + [Forget(key, id)];
        continue;
      }
      if id in contested {
        continue;
      }
      ops := ops + [Delete(key, id)];
    }
    assert order[..|order|] == order;
  }

  lemma ClaimsStayNamed(w: Walk, item: Item, v: Verdict, ids: set<Id>, live: Live<Entry>)
    requires "" !in w.claimed && (v.Adopts? ==> v.id in live.byId) && "" !in live.byId
    ensures "" !in Advance(w, item, v, ids).claimed
  {
  }

  lemma AdoptsALiveOne(item: Item, live: Live<Entry>, claimed: set<Id>, memory: Memory, digest: Digest)
    ensures
      var v := VerdictOn(item, live, claimed, memory, digest);
      v.Adopts? ==> v.id in Candidates(live, Fits(item), claimed) && Candidates(live, Fits(item), claimed) == {v.id}
  {
    var ids := Candidates(live, Fits(item), claimed);
    if |ids| == 1 {
      OnlyIsTheOne(ids, Only(ids));
    }
  }

  /** The planner: the declared items in their order, then the other keys. */
  method PlanIntegrations(
      declared: seq<Item>, list: seq<Listed<Entry>>, memory: Memory, digest: Digest, order: seq<Key>)
    returns (live: Live<Entry>, ops: seq<Op>)
    requires UniqueIds(list) && Lists(order, memory.managed) && "" !in memory.managed.Values
    ensures ListsLive(list, live)
    ensures ops == Plan(declared, live, memory, digest, order)
  {
    hide UniqueIds, VerdictOn, OpOf, DroppedOps;
    live := IndexById(list);
    var keys := DeclaredKeys(declared);
    var claimed := ClaimedIds(order, keys, memory.managed);
    ghost var start := claimed;
    assert "" !in claimed;
    assert "" !in live.byId;
    var contested: set<Id> := {};
    ops := [];
    for i := 0 to |declared|
      invariant Walk(claimed, contested, ops) == WalkAll(declared[..i], live, start, memory, digest)
      invariant "" !in claimed
    {
      assert declared[..i + 1][..i] == declared[..i];
      var item := declared[i];
      ghost var w := Walk(claimed, contested, ops);
      var v, ids := Consider(item, list, live, claimed, memory, digest);
      AdoptsALiveOne(item, live, claimed, memory, digest);
      assert v.Adopts? ==> v.id in live.byId;
      ClaimsStayNamed(w, item, v, ids, live);
      assert Advance(w, item, v, ids) == Advance(w, item, v, Candidates(live, Fits(item), claimed));
      if v.Adopts? {
        claimed := claimed + {v.id};
      }
      if v.Unresolved? || v.Ambiguous? {
        contested := contested + ids;
      }
      var op := OpOf(item, v);
      if op.Some? {
        ops := ops + [op.value];
      }
      assert Walk(claimed, contested, ops) == Advance(w, item, v, ids);
    }
    assert declared[..|declared|] == declared;
    assert forall k | k in order :: k in memory.managed;
    var dropped := PlanDropped(order, keys, live, memory.managed, claimed, contested);
    ops := ops + dropped;
  }
}
