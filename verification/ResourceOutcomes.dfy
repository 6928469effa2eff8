/** What Home Assistant holds once a resource plan is executed, said of what was
    declared, live and remembered. */
module ResourceOutcomes {
  import opened Wrappers
  import opened Listing
  import opened Resources
  import opened ResourceLaws

  /** A url is as declared if it is the same, or the declared path and a query or
      fragment behind it. */
  lemma UrlMatchesIff(declared: string, live: string)
    ensures UrlMatches(declared, live) <==>
              || live == declared
              || ((forall c | c in declared :: c != '?' && c != '#') && declared < live && live[|declared|] in "?#")
  {
    PathIs(declared, declared);
    PathIs(live, declared);
  }

  lemma {:induction false} PathIs(url: string, path: string)
    ensures UrlPath(url) == path <==>
              && path <= url && (forall c | c in path :: c != '?' && c != '#')
              && (path == url || url[|path|] in "?#")
  {
    assert forall c :: c in "?#" <==> c == '?' || c == '#';
    if path == "" || url == "" {
    } else if url[0] == '?' || url[0] == '#' {
      assert path <= url ==> path[0] == url[0] && path[0] in path;
    } else {
      PathIs(url[1..], path[1..]);
      assert path <= url <==> path[0] == url[0] && path[1..] <= url[1..];
      assert path == [path[0]] + path[1..] && url == [url[0]] + url[1..];
      assert forall c :: c in path <==> c == path[0] || c in path[1..];
    }
  }

  // ---------- what an entry can choose from ----------

  predicate SamePath(a: string, b: string) {
    UrlPath(a) == UrlPath(b)
  }

  predicate ManagedByADeclaredKey(s: Setting, id: Id) {
    exists r :: r in s.declared && r.key in s.managed && s.managed[r.key] == id
  }

  /** The live resources on the url path of the entry that no declared key manages. */
  function Free(s: Setting, r: Resource): set<Id> {
    set id <- s.live.byId | SamePath(s.live.byId[id].url, r.url) && !ManagedByADeclaredKey(s, id)
  }

  /** Those on its path that the list gives no id. */
  function Nameless(things: seq<Item>, url: string): set<nat> {
    set i | 0 <= i < |things| && SamePath(things[i].url, url)
  }

  function Matches(s: Setting, r: Resource): nat {
    |Free(s, r)| + |Nameless(s.live.nameless, r.url)|
  }

  /** The entry has no resource yet, and what is on its path is no single one
      with an id. */
  predicate Stuck(s: Setting, r: Resource) {
    && !(r.key in s.managed && s.managed[r.key] in s.live.byId)
    && Matches(s, r) > 0
    && (Matches(s, r) > 1 || Free(s, r) == {})
  }

  predicate AsDeclared(r: Resource, item: Item) {
    item.kind == r.kind && UrlMatches(r.url, item.url)
  }

  lemma {:induction false} NamelessCount(things: seq<Item>, url: string)
    ensures |Nameless(things, url)| == Fitting(things, OnPath(url))
  {
    if things != [] {
      var last := |things| - 1;
      NamelessCount(things[..last], url);
      var before, thing := Nameless(things[..last], url), things[last];
      assert Nameless(things, url) == before + if SamePath(thing.url, url) then {last} else {};
    }
  }

  lemma MatchesAre(s: Setting, r: Resource)
    ensures Free(s, r) == Candidates(s.live, OnPath(r.url), s.Claims())
    ensures Matches(s, r) == MatchCount(s.live, OnPath(r.url), s.Claims())
    ensures Stuck(s, r) <==> Unsettled(s, r)
  {
    hide UrlPath;
    NamelessCount(s.live.nameless, r.url);
    forall id ensures id in s.Claims() <==> ManagedByADeclaredKey(s, id) {
      if k :| k in s.managed && k in Keys(s.declared) && s.managed[k] == id {
        var other :| other in s.declared && other.key == k;
      }
    }
  }

  // ---------- what comes of an entry ----------

  lemma PlannedUpdate(r: Resource, id: Id, item: Item, adopt: bool)
    ensures
      var op := PlanUpdate(r, id, item, adopt);
      && (op.None? ==> AsDeclared(r, item))
      && (op.Some? ==> op.value.Update? && AsDeclared(r, Patched(item, op.value)))
    ensures AsDeclared(r, Item(r.url, r.kind))
  {
    UrlPathIsAPath(r.url);
  }

  /** Every declared entry has one live resource of its own afterwards, of its
      kind and on its url: the one it had, else the only free one on its path,
      else a new one. It fails, and stays where it was, exactly if it is stuck. */
  lemma DeclaredOutcome(s: Setting, r: Resource)
    requires s.Valid() && r in s.declared
    ensures Failed(r.key) in s.Ops() <==> Stuck(s, r)
    ensures Stuck(s, r) ==> Lookup(s.After().managed, r.key) == Lookup(s.managed, r.key)
    ensures !Stuck(s, r) ==>
              && r.key in s.After().managed
              && var id := s.After().managed[r.key];
              && id in s.After().live.byId && AsDeclared(r, s.After().live.byId[id])
              && if r.key in s.managed && s.managed[r.key] in s.live.byId then id == s.managed[r.key]
                 else if Free(s, r) != {} then Free(s, r) == {id}
                 else id == s.newId(r.key)
  {
    hide Plan, ExecuteAll, WellPosed, OpFor, Owned, AsDeclared, Patched, PlanUpdate, UrlPath, Stuck, Unsettled;
    MatchesAre(s, r);
    UnsettledIff(s, r);
    DeclaredKeyAfter(s, r);
    FailsIff(s, r);
    if !Stuck(s, r) {
      ChoiceIs(s, r);
      ResourceIsThere(s, r);
    }
  }

  lemma FailsIff(s: Setting, r: Resource)
    requires s.Valid() && r in s.declared
    ensures Failed(r.key) in s.Ops() <==> s.For(r) == Some(Failed(r.key))
  {
    hide Plan, ExecuteAll, OpFor, Owned, UrlPath, OpForDropped, Injective, GivesNewIds;
    if s.For(r) == Some(Failed(r.key)) {
      OpIsPlanned(s, r);
    }
    if Failed(r.key) in s.Ops() {
      OpOrigin(s, Failed(r.key));
      var other :| other in s.declared && s.For(other) == Some(Failed(r.key));
      OpForIs(other, s.live, s.managed, s.Claims());
      SameEntry(s.declared, other, r);
    }
  }

  lemma ChoiceIs(s: Setting, r: Resource)
    requires !Unsettled(s, r)
    ensures
      if r.key in s.managed && s.managed[r.key] in s.live.byId then s.Owner(r) == Some(s.managed[r.key])
      else if Free(s, r) != {} then s.Owner(r).Some? && Free(s, r) == {s.Owner(r).value}
      else s.Owner(r).None? && s.For(r) == Some(Create(r.key, r.url, r.kind))
  {
    hide UrlPath;
    MatchesAre(s, r);
    var free := Candidates(s.live, OnPath(r.url), s.Claims());
    if !Held(r.key, s.live, s.managed) && |free| == 1 {
      OnlyIsTheOne(free, Only(free));
    }
  }

  lemma ResourceIsThere(s: Setting, r: Resource)
    requires s.Valid() && r in s.declared && !Unsettled(s, r)
    ensures
      var id := if s.Owner(r).Some? then s.Owner(r).value else s.newId(r.key);
      id in s.After().live.byId && AsDeclared(r, s.After().live.byId[id])
  {
    hide Plan, ExecuteAll, OwnedIds, ContestedIds, OpForDropped, UrlPath, WellPosed, AsDeclared, PlanUpdate, Patched, Unsettled;
    OwnedIs(r, s.live, s.managed, s.Claims());
    UnsettledIff(s, r);
    var id := if s.Owner(r).Some? then s.Owner(r).value else s.newId(r.key);
    if s.Owner(r).Some? {
      PlannedUpdate(r, id, s.live.byId[id], !Held(r.key, s.live, s.managed));
    }
    PlannedUpdate(r, id, Item(r.url, r.kind), false);
    OpForIs(r, s.live, s.managed, s.Claims());
    if s.For(r).Some? {
      OpIsPlanned(s, r);
      PlannedEffect(s, s.For(r).value);
    } else {
      SettledItemStays(s, r);
    }
  }

  // ---------- what comes of a key nobody declares any more ----------

  /** Some declared entry has this resource afterwards. */
  ghost predicate Taken(s: Setting, id: Id) {
    exists r :: r in s.declared && r.key in s.After().managed && s.After().managed[r.key] == id
  }

  /** Some declared entry that could not choose might have meant it. */
  predicate Open(s: Setting, id: Id) {
    exists r :: r in s.declared && Stuck(s, r) && Matches(s, r) > 1 && id in Free(s, r)
  }

  /** A resource whose key is no longer declared is deleted, unless an entry has
      taken it over or may have meant it; in the second case the agent keeps it
      and its key. */
  lemma DroppedOutcome(s: Setting, key: Key)
    requires s.Valid() && key in s.managed && key !in Keys(s.declared)
    ensures
      var id := s.managed[key];
      var forgotten := key !in s.After().managed;
      && (id !in s.live.byId || Taken(s, id) ==> forgotten)
      && (id in s.live.byId && !Taken(s, id) && !Open(s, id) ==> forgotten && id !in s.After().live.byId)
      && (id in s.live.byId && !Taken(s, id) && Open(s, id) ==>
            && Lookup(s.After().managed, key) == Some(id)
            && Lookup(s.After().live.byId, id) == Lookup(s.live.byId, id))
  {
    hide Plan, ExecuteAll, WellPosed, OpFor, Owned, UrlPath, Stuck, Unsettled, OwnedIds, ContestedIds;
    var id := s.managed[key];
    var op := OpForDropped(key, id, s.live, s.AllOwned(), s.Contested());
    if id in s.live.byId {
      OnlyKeyOf(s, key);
      TakenIsOwned(s, id);
      OpenIsContested(s, id);
    }
    if op.Some? {
      DroppedIsPlanned(s, key);
      PlannedEffect(s, op.value);
    } else {
      UnplannedKeyStays(s, key);
      NotMadeForAnyone(s, id);
      StrangersAreUntouched(s, id);
    }
  }

  lemma OnlyKeyOf(s: Setting, key: Key)
    requires s.Valid() && key in s.managed
    ensures forall k | k in s.managed && s.managed[k] == s.managed[key] :: k == key
  {
  }

  lemma NotMadeForAnyone(s: Setting, id: Id)
    requires s.Valid() && id in s.live.byId
    ensures forall r | r in s.declared :: s.newId(r.key) != id
  {
  }

  lemma TakenIsOwned(s: Setting, id: Id)
    requires s.Valid() && id in s.live.byId && (forall k | k in s.managed && s.managed[k] == id :: k !in Keys(s.declared))
    ensures Taken(s, id) <==> id in s.AllOwned()
  {
    hide Plan, ExecuteAll, OpFor, Owned, UrlPath, Injective;
    forall r | r in s.declared ensures Lookup(s.After().managed, r.key) == Some(id) <==> s.Owner(r) == Some(id) {
      DeclaredKeyAfter(s, r);
      assert r.key in Keys(s.declared);
    }
    assert Taken(s, id) <==> exists r :: r in s.declared && s.Owner(r) == Some(id);
  }

  lemma OpenIsContested(s: Setting, id: Id)
    ensures Open(s, id) <==> id in s.Contested()
  {
    hide UrlPath, Matches, Free;
    forall r | r in s.declared ensures
      (Stuck(s, r) && Matches(s, r) > 1 && id in Free(s, r)) <==>
      (Ambiguous(r, s.live, s.managed, s.Claims()) && id in Candidates(s.live, OnPath(r.url), s.Claims()))
    {
      MatchesAre(s, r);
    }
  }
}
