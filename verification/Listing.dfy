/** A list as Home Assistant returns it, and finding the entries in it that a
    declared item could adopt. */
module Listing {
  import opened Wrappers

  type Key = string
  type Id = string

  /** One entry of the list; `id` may be "". */
  datatype Listed<T> = Listed(id: Id, thing: T)

  /** The entries with an id, and what the list holds without. */
  datatype Live<T> = Live(byId: map<Id, T>, nameless: seq<T>)

  /** The unclaimed entries that fit. */
  function Candidates<T>(live: Live<T>, fits: T -> bool, claimed: set<Id>): set<Id> {
    set id <- live.byId | fits(live.byId[id]) && id !in claimed
  }

  function Fitting<T>(things: seq<T>, fits: T -> bool): nat {
    if things == [] then 0
    else Fitting(things[..|things| - 1], fits) + if fits(things[|things| - 1]) then 1 else 0
  }

  function MatchCount<T>(live: Live<T>, fits: T -> bool, claimed: set<Id>): nat {
    |Candidates(live, fits, claimed)| + Fitting(live.nameless, fits)
  }

  ghost function Only(ids: set<Id>): Id
    requires |ids| == 1
  {
    var id :| id in ids;
    id
  }

  lemma OnlyIsTheOne(ids: set<Id>, id: Id)
    requires |ids| == 1 && id in ids
    ensures Only(ids) == id && ids == {id}
  {
    assert |ids - {id}| == 0;
    assert ids == ids - {id} + {id};
  }

  // ---------- reading the list ----------

  ghost predicate ListsLive<T>(list: seq<Listed<T>>, live: Live<T>) {
    && (forall i | 0 <= i < |list| && list[i].id != "" ::
          list[i].id in live.byId && live.byId[list[i].id] == list[i].thing)
    && (forall id <- live.byId :: id != "" && Listed(id, live.byId[id]) in list)
    && live.nameless == NamelessIn(list)
  }

  function NamelessIn<T>(list: seq<Listed<T>>): seq<T> {
    if list == [] then []
    else
      var last := list[|list| - 1];
      NamelessIn(list[..|list| - 1]) + if last.id == "" then [last.thing] else []
  }

  predicate UniqueIds<T>(list: seq<Listed<T>>) {
    forall i, j | 0 <= i < j < |list| && list[i].id != "" :: list[i].id != list[j].id
  }

  method IndexById<T>(list: seq<Listed<T>>) returns (live: Live<T>)
    requires UniqueIds(list)
    ensures ListsLive(list, live)
  {
    live := Live(map[], []);
    for i := 0 to |list|
      invariant ListsLive(list[..i], live)
    {
      assert list[..i + 1] == list[..i] + [list[i]];
      if list[i].id != "" {
        assert list[i].id !in live.byId;
        live := live.(byId := live.byId[list[i].id := list[i].thing]);
      } else {
        live := live.(nameless := live.nameless + [list[i].thing]);
      }
    }
    assert list[..|list|] == list;
  }

  ghost function IdsIn<T>(list: seq<Listed<T>>, fits: T -> bool, claimed: set<Id>): set<Id> {
    set o <- list | o.id != "" && fits(o.thing) && o.id !in claimed :: o.id
  }

  lemma IdsInStep<T>(list: seq<Listed<T>>, i: nat, fits: T -> bool, claimed: set<Id>)
    requires i < |list| && UniqueIds(list)
    ensures
      var o := list[i];
      && IdsIn(list[..i + 1], fits, claimed) ==
         IdsIn(list[..i], fits, claimed) +
         (if o.id != "" && fits(o.thing) && o.id !in claimed then {o.id} else {})
      && (o.id != "" ==> o.id !in IdsIn(list[..i], fits, claimed))
      && NamelessIn(list[..i + 1]) ==
         if o.id == "" then NamelessIn(list[..i]) + [o.thing] else NamelessIn(list[..i])
  {
    assert list[..i + 1] == list[..i] + [list[i]];
    assert list[..i + 1][..i] == list[..i];
  }

  lemma FittingStep<T>(things: seq<T>, thing: T, fits: T -> bool)
    ensures Fitting(things + [thing], fits) == Fitting(things, fits) + if fits(thing) then 1 else 0
  {
    assert (things + [thing])[..|things|] == things;
  }

  ghost function CountIn<T>(list: seq<Listed<T>>, fits: T -> bool, claimed: set<Id>): nat {
    |IdsIn(list, fits, claimed)| + Fitting(NamelessIn(list), fits)
  }

  lemma CountInStep<T>(list: seq<Listed<T>>, i: nat, fits: T -> bool, claimed: set<Id>)
    requires i < |list| && UniqueIds(list) && "" !in claimed
    ensures CountIn(list[..i + 1], fits, claimed) ==
            CountIn(list[..i], fits, claimed) + if fits(list[i].thing) && list[i].id !in claimed then 1 else 0
  {
    hide IdsIn, NamelessIn, Fitting, UniqueIds;
    IdsInStep(list, i, fits, claimed);
    FittingStep(NamelessIn(list[..i]), list[i].thing, fits);
  }

  lemma NothingIn<T>(fits: T -> bool, claimed: set<Id>)
    ensures IdsIn([], fits, claimed) == {} && CountIn([], fits, claimed) == 0
  {
  }

  lemma IdsInAreCandidates<T>(list: seq<Listed<T>>, live: Live<T>, fits: T -> bool, claimed: set<Id>)
    requires ListsLive(list, live)
    ensures IdsIn(list, fits, claimed) == Candidates(live, fits, claimed)
  {
    hide NamelessIn;
    forall id ensures id in IdsIn(list, fits, claimed) <==> id in Candidates(live, fits, claimed) {
      if id in live.byId {
        assert Listed(id, live.byId[id]) in list;
      }
    }
  }

  /** The matches for one item: how many, and which of them have an id. */
  method FindMatches<T>(list: seq<Listed<T>>, ghost live: Live<T>, fits: T -> bool, claimed: set<Id>)
    returns (count: nat, ids: set<Id>)
    requires UniqueIds(list) && ListsLive(list, live) && "" !in claimed
    ensures count == MatchCount(live, fits, claimed) && ids == Candidates(live, fits, claimed)
  {
    hide UniqueIds, Candidates, IdsIn;
    NothingIn(fits, claimed);
    count, ids := 0, {};
    for i := 0 to |list|
      invariant ids == IdsIn(list[..i], fits, claimed) && count == CountIn(list[..i], fits, claimed)
    {
      IdsInStep(list, i, fits, claimed);
      CountInStep(list, i, fits, claimed);
      if fits(list[i].thing) && list[i].id !in claimed {
        count := count + 1;
        if list[i].id != "" {
          ids := ids + {list[i].id};
        }
      }
    }
    assert list[..|list|] == list;
    IdsInAreCandidates(list, live, fits, claimed);
    assert count == MatchCount(live, fits, claimed);
  }

  // ---------- what the agent remembers ----------

  /** The keys in the order the planner goes through them. */
  ghost predicate Lists(order: seq<Key>, managed: map<Key, Id>) {
    && (forall k :: k in order <==> k in managed)
    && forall i, j | 0 <= i < j < |order| :: order[i] != order[j]
  }

  /** The live ids that declared keys are managing. */
  function Claimed(declared: set<Key>, managed: map<Key, Id>): set<Id> {
    set k <- managed | k in declared :: managed[k]
  }

  method ClaimedIds(order: seq<Key>, declared: set<Key>, managed: map<Key, Id>) returns (claimed: set<Id>)
    requires Lists(order, managed)
    ensures claimed == Claimed(declared, managed)
  {
    claimed := {};
    for i := 0 to |order|
      invariant claimed == set k | k in order[..i] && k in declared :: managed[k]
    {
      assert order[..i + 1] == order[..i] + [order[i]];
      if order[i] in declared {
        claimed := claimed + {managed[order[i]]};
      }
    }
    assert order[..|order|] == order;
  }

  /** No two keys manage the same live thing. */
  predicate Injective(managed: map<Key, Id>) {
    forall a <- managed, b <- managed :: managed[a] == managed[b] ==> a == b
  }

  /** Managed, and no longer declared. */
  predicate IsDropped(key: Key, declared: set<Key>, managed: map<Key, Id>) {
    key in managed && key !in declared
  }

  predicate Held<T>(key: Key, live: Live<T>, managed: map<Key, Id>) {
    key in managed && managed[key] in live.byId
  }

  function Lookup<K(==), V>(m: map<K, V>, k: K): Option<V> {
    if k in m then Some(m[k]) else None
  }
}
