/** Repository tree against live config: which paths drift, and how. */
module Differ {
  import opened Wrappers
  import opened ConfigTree

  datatype Kind = Add | Update | Delete | Unrecognized

  datatype Change = Change(path: Path, kind: Kind)

  /** One version of one file. `sops` tells an encrypted document. */
  datatype Blob = Blob(content: Content, sops: bool)

  /** What one commit tracks. */
  type Tree = map<Path, Blob>

  /** What stands at a live path: a file that reads, one that even stat fails
      on, or something no comparison is made with (not a regular file, or not
      readable). A path that is not in the map is gone. */
  datatype LiveFile = Readable(blob: Blob) | Unstatable | Opaque

  type Live = map<Path, LiveFile>

  predicate Writes(c: Change) {
    c.kind == Add || c.kind == Update
  }

  function Paths(changes: seq<Change>): set<Path> {
    set c <- changes :: c.path
  }

  lemma OneMorePath(changes: seq<Change>, i: nat)
    requires i < |changes|
    ensures Paths(changes[..i + 1]) == Paths(changes[..i]) + {changes[i].path}
  {
    assert changes[..i + 1] == changes[..i] + [changes[i]];
  }

  lemma NoPaths()
    ensures forall changes | changes == [] :: Paths(changes) == {}
  {
  }

  /** Deletes come after every write, the order the plan is sorted in. */
  predicate DeletesLast(changes: seq<Change>) {
    forall i, j | 0 <= i < j < |changes| :: changes[i].kind == Delete ==> !Writes(changes[j])
  }

  predicate OnePerPath(changes: seq<Change>) {
    forall i, j | 0 <= i < j < |changes| :: changes[i].path != changes[j].path
  }

  function BlobAt(tree: Tree, p: Path): Option<Blob> {
    if p in tree then Some(tree[p]) else None
  }

  predicate IsGone(live: Live, p: Path) {
    p !in live
  }

  /** The live content, when there is any to read. */
  function LiveBlob(live: Live, p: Path): Option<Blob> {
    if p in live && live[p].Readable? then Some(live[p].blob) else None
  }

  /** How a path drifts, or None when it does not. */
  function KindAt(tree: Tree, live: Live, manifest: set<Path>, p: Path): Option<Kind> {
    if p in tree then
      if p !in live || live[p].Unstatable? then Some(Add)
      else if live[p].Readable? && live[p].blob != tree[p] then Some(Update)
      else None
    else if p in manifest && p in live && live[p].Readable? then Some(Delete)
    else None
  }

  /** Every drifting path with its kind. */
  function Drift(tree: Tree, live: Live, manifest: set<Path>): map<Path, Kind> {
    map p | p in tree.Keys + manifest && KindAt(tree, live, manifest, p).Some? :: KindAt(tree, live, manifest, p).value
  }

  /** The changes found once the paths of `done` have been looked at. */
  predicate ListsOf(changes: seq<Change>, tree: Tree, live: Live, manifest: set<Path>, done: set<Path>) {
    && OnePerPath(changes)
    && (forall i | 0 <= i < |changes| ::
          changes[i].path in done && KindAt(tree, live, manifest, changes[i].path) == Some(changes[i].kind))
    && forall p <- done ::
         var kind := KindAt(tree, live, manifest, p);
         kind.Some? ==> Change(p, kind.value) in changes
  }

  lemma ListsOneMore(
      changes: seq<Change>, tree: Tree, live: Live, manifest: set<Path>, done: set<Path>, p: Path, c: Option<Change>)
    requires ListsOf(changes, tree, live, manifest, done) && p !in done
    requires var kind := KindAt(tree, live, manifest, p);
             if kind.Some? then c == Some(Change(p, kind.value)) else c == None
    ensures ListsOf(if c.Some? then changes + [c.value] else changes, tree, live, manifest, done + {p})
  {
  }

  predicate Lists(changes: seq<Change>, drift: map<Path, Kind>) {
    && OnePerPath(changes)
    && (forall i | 0 <= i < |changes| :: changes[i].path in drift && drift[changes[i].path] == changes[i].kind)
    && forall p <- drift :: Change(p, drift[p]) in changes
  }

  lemma AllLooked(changes: seq<Change>, tree: Tree, live: Live, manifest: set<Path>)
    requires ListsOf(changes, tree, live, manifest, tree.Keys + manifest)
    ensures Lists(changes, Drift(tree, live, manifest))
  {
  }

  function Among(paths: seq<Path>, n: nat): set<Path>
    requires n <= |paths|
  {
    set i | 0 <= i < n :: paths[i]
  }

  lemma OneMoreAmong(paths: seq<Path>, n: nat)
    requires n < |paths| && Distinct(paths)
    ensures Among(paths, n + 1) == Among(paths, n) + {paths[n]} && paths[n] !in Among(paths, n)
  {
  }

  lemma IsAmong(paths: seq<Path>, i: nat)
    requires i < |paths|
    ensures paths[i] in Among(paths, |paths|)
  {
  }

  lemma NothingAmong(paths: seq<Path>)
    ensures Among(paths, 0) == {}
  {
  }

  predicate OnlyWrites(changes: seq<Change>) {
    forall i | 0 <= i < |changes| :: changes[i].kind != Delete
  }

  predicate OnlyDeletes(changes: seq<Change>) {
    forall i | 0 <= i < |changes| :: changes[i].kind == Delete
  }

  method DiffTrackedPaths(tree: Tree, live: Live, tracked: seq<Path>, ghost owned: set<Path>) returns (changes: seq<Change>)
    requires Distinct(tracked) && Among(tracked, |tracked|) == tree.Keys
    ensures ListsOf(changes, tree, live, owned, tree.Keys)
    ensures OnlyWrites(changes)
  {
    hide KindAt, Distinct, Among, DiffTracked;
    changes := [];
    NothingAmong(tracked);
    assert ListsOf([], tree, live, owned, {}) && OnlyWrites([]);
    for i := 0 to |tracked|
      invariant ListsOf(changes, tree, live, owned, Among(tracked, i))
      invariant OnlyWrites(changes)
    {
      OneMoreAmong(tracked, i);
      IsAmong(tracked, i);
      var c := DiffTracked(tree, live, tracked[i]);
      DiffedTracked(tree, live, owned, tracked[i]);
      ListsOneMore(changes, tree, live, owned, Among(tracked, i), tracked[i], c);
      if c.Some? {
        assert OnlyWrites(changes + [c.value]);
        changes := changes + [c.value];
      }
    }
  }

  // ---------- the order of the plan ----------

  /** Strings as they are compared: character by character. */
  predicate AtMost(a: string, b: string) {
    a == "" || (b != "" && (a[0] < b[0] || (a[0] == b[0] && AtMost(a[1..], b[1..]))))
  }

  lemma {:induction false} AtMostIsTotal(a: string, b: string)
    ensures AtMost(a, b) || AtMost(b, a)
    decreases |a|
  {
    if a != "" && b != "" {
      AtMostIsTotal(a[1..], b[1..]);
    }
  }

  lemma {:induction false} AtMostIsTransitive(a: string, b: string, c: string)
    requires AtMost(a, b) && AtMost(b, c)
    ensures AtMost(a, c)
    decreases |a|
  {
    if a != "" && a[0] == b[0] == c[0] {
      AtMostIsTransitive(a[1..], b[1..], c[1..]);
    }
  }

  function Slashed(p: Path): string {
    if p == [] then "" else if |p| == 1 then p[0] else p[0] + "/" + Slashed(p[1..])
  }

  function Rank(kind: Kind): nat {
    match kind
    case Add => 0
    case Update => 0
    case Delete => 1
    case Unrecognized => 2
  }

  /** Writes before deletes, and each by path. */
  predicate InOrder(a: Change, b: Change) {
    Rank(a.kind) < Rank(b.kind) || (Rank(a.kind) == Rank(b.kind) && AtMost(Slashed(a.path), Slashed(b.path)))
  }

  predicate Sorted(changes: seq<Change>) {
    forall i, j | 0 <= i < j < |changes| :: InOrder(changes[i], changes[j])
  }

  lemma OrderIsTotal(a: Change, b: Change)
    ensures InOrder(a, b) || InOrder(b, a)
  {
    AtMostIsTotal(Slashed(a.path), Slashed(b.path));
  }

  lemma OrderIsTransitive(a: Change, b: Change, c: Change)
    requires InOrder(a, b) && InOrder(b, c)
    ensures InOrder(a, c)
  {
    hide AtMost;
    if Rank(a.kind) == Rank(b.kind) == Rank(c.kind) {
      AtMostIsTransitive(Slashed(a.path), Slashed(b.path), Slashed(c.path));
    }
  }

  method Insert(sorted: seq<Change>, c: Change) returns (longer: seq<Change>)
    requires Sorted(sorted)
    ensures Sorted(longer) && multiset(longer) == multiset(sorted) + multiset{c}
  {
    hide InOrder;
    var n: nat := |sorted|;
    while n > 0 && !InOrder(sorted[n - 1], c)
      invariant 0 <= n <= |sorted|
      invariant forall i | n <= i < |sorted| :: InOrder(c, sorted[i])
    {
      n := n - 1;
      OrderIsTotal(sorted[n], c);
    }
    longer := sorted[..n] + [c] + sorted[n..];
    assert sorted == sorted[..n] + sorted[n..];
    forall i | 0 <= i < n ensures InOrder(sorted[i], c) {
      if i < n - 1 {
        OrderIsTransitive(sorted[i], sorted[n - 1], c);
      }
    }
  }

  /** The same changes, in order. */
  method SortChanges(changes: seq<Change>) returns (sorted: seq<Change>)
    ensures Sorted(sorted) && multiset(sorted) == multiset(changes)
  {
    hide InOrder;
    sorted := [];
    for i := 0 to |changes|
      invariant Sorted(sorted) && multiset(sorted) == multiset(changes[..i])
    {
      assert changes[..i + 1] == changes[..i] + [changes[i]];
      sorted := Insert(sorted, changes[i]);
    }
    assert changes[..|changes|] == changes;
  }

  lemma {:induction false} OnceInAPlan(changes: seq<Change>, c: Change)
    requires OnePerPath(changes)
    ensures multiset(changes)[c] <= 1
  {
    if changes != [] {
      var last := |changes| - 1;
      assert changes == changes[..last] + [changes[last]];
      OnceInAPlan(changes[..last], c);
      assert changes[last] !in changes[..last];
    }
  }

  lemma AtTwoPlaces(changes: seq<Change>, i: nat, j: nat)
    requires i < j < |changes| && changes[i] == changes[j]
    ensures multiset(changes)[changes[i]] >= 2
  {
    var c := changes[i];
    assert changes == changes[..j] + changes[j..] && c in changes[..j] && c == changes[j..][0];
    assert multiset(changes)[c] == multiset(changes[..j])[c] + multiset(changes[j..])[c];
  }

  lemma SortedListsTheSame(changes: seq<Change>, sorted: seq<Change>, drift: map<Path, Kind>)
    requires Lists(changes, drift) && multiset(sorted) == multiset(changes)
    ensures Lists(sorted, drift)
  {
    assert forall c :: c in sorted <==> c in multiset(sorted);
    assert forall c :: c in changes <==> c in multiset(changes);
    forall i | 0 <= i < |sorted| ensures sorted[i].path in drift && drift[sorted[i].path] == sorted[i].kind {
      assert sorted[i] in changes;
    }
    forall i, j | 0 <= i < j < |sorted| ensures sorted[i].path != sorted[j].path {
      OnceInAPlan(changes, sorted[i]);
      if sorted[i] == sorted[j] {
        AtTwoPlaces(sorted, i, j);
      }
    }
  }

  lemma SortedDeletesLast(changes: seq<Change>)
    requires Sorted(changes)
    ensures DeletesLast(changes)
  {
    assert forall i, j | 0 <= i < j < |changes| :: InOrder(changes[i], changes[j]);
  }

  /** One change for every path that drifts, and for no other; writes first, and
      in the order of their paths. */
  method Compute(tree: Tree, live: Live, tracked: seq<Path>, manifest: seq<Path>) returns (changes: seq<Change>)
    requires Distinct(tracked) && Distinct(manifest)
    requires Among(tracked, |tracked|) == tree.Keys
    ensures Lists(changes, Drift(tree, live, Among(manifest, |manifest|)))
    ensures Sorted(changes) && DeletesLast(changes)
  {
    hide KindAt, ListsOf, Lists, Drift, Distinct, Among, Sorted, DeletesLast, InOrder;
    ghost var owned := Among(manifest, |manifest|);
    var writes := DiffTrackedPaths(tree, live, tracked, owned);
    var deletes: seq<Change> := [];
    NothingAmong(manifest);
    assert tree.Keys + {} == tree.Keys;
    assert writes + deletes == writes;
    for i := 0 to |manifest|
      invariant ListsOf(writes + deletes, tree, live, owned, tree.Keys + Among(manifest, i))
      invariant OnlyDeletes(deletes)
    {
      OneMoreAmong(manifest, i);
      IsAmong(manifest, i);
      assert tree.Keys + Among(manifest, i + 1) == tree.Keys + Among(manifest, i) + {manifest[i]};
      if manifest[i] !in tree {
        var c := DiffDeleted(live, manifest[i]);
        DiffedDeleted(tree, live, owned, manifest[i]);
        ListsOneMore(writes + deletes, tree, live, owned, tree.Keys + Among(manifest, i), manifest[i], c);
        if c.Some? {
          assert writes + deletes + [c.value] == writes + (deletes + [c.value]);
          deletes := deletes + [c.value];
        }
      } else {
        assert tree.Keys + Among(manifest, i + 1) == tree.Keys + Among(manifest, i);
      }
    }
    AllLooked(writes + deletes, tree, live, owned);
    changes := SortChanges(writes + deletes);
    SortedListsTheSame(writes + deletes, changes, Drift(tree, live, owned));
    SortedDeletesLast(changes);
  }

  lemma DiffedTracked(tree: Tree, live: Live, manifest: set<Path>, p: Path)
    requires p in tree
    ensures var kind := KindAt(tree, live, manifest, p);
            DiffTracked(tree, live, p) == if kind.Some? then Some(Change(p, kind.value)) else None
  {
  }

  lemma DiffedDeleted(tree: Tree, live: Live, manifest: set<Path>, p: Path)
    requires p !in tree && p in manifest
    ensures var kind := KindAt(tree, live, manifest, p);
            DiffDeleted(live, p) == if kind.Some? then Some(Change(p, kind.value)) else None
  {
  }

  function DiffTracked(tree: Tree, live: Live, p: Path): (c: Option<Change>)
    requires p in tree
    ensures c.Some? ==> c.value.path == p && Writes(c.value)
  {
    if p !in live || live[p].Unstatable? then Some(Change(p, Add))
    else if live[p].Opaque? then None
    else if live[p].blob == tree[p] then None
    else Some(Change(p, Update))
  }

  function DiffDeleted(live: Live, p: Path): (c: Option<Change>)
    ensures c.Some? ==> c.value == Change(p, Delete) && LiveBlob(live, p).Some?
  {
    if p in live && live[p].Readable? then Some(Change(p, Delete)) else None
  }

  /** With every live file readable, a path the branch tracks drifts exactly
      when its two contents differ. */
  lemma NoDriftIsAgreement(tree: Tree, live: Live, manifest: set<Path>, p: Path)
    requires p in live ==> live[p].Readable?
    ensures p in tree ==> (p !in Drift(tree, live, manifest) <==> LiveBlob(live, p) == BlobAt(tree, p))
    ensures p !in tree && p in manifest ==>
              (p !in Drift(tree, live, manifest) <==> LiveBlob(live, p) == BlobAt(tree, p))
    ensures p !in tree && p !in manifest ==> p !in Drift(tree, live, manifest)
  {
  }
}
