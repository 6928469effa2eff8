/** Applying a batch of file changes to the live config, and taking it back
    from the stash made before the first write. */
module Applier {
  import opened Wrappers
  import opened ConfigTree
  import opened Differ

  // ---------- the stash ----------

  datatype Status = Existed | Absent

  datatype Stash = Stash(status: map<Path, Status>, saved: map<Path, Content>, created: set<Path>)

  /** The directories the batch is going to create. */
  ghost predicate Created(changes: seq<Change>, dirs: set<Path>, d: Path) {
    d != [] && d !in dirs && exists i | 0 <= i < |changes| :: Writes(changes[i]) && Above(d, changes[i].path)
  }

  /** What the stash of `changes` over a tree holds. */
  ghost predicate StashOf(stash: Stash, changes: seq<Change>, files: map<Path, Content>, dirs: set<Path>) {
    && stash.status.Keys == Paths(changes)
    && (forall p <- stash.status :: stash.status[p] == Existed <==> p in files)
    && stash.saved == (map p | p in files && p in Paths(changes) :: files[p])
    && forall d :: d in stash.created <==> Created(changes, dirs, d)
  }

  /** A change the applier acts on: not the root, and nothing but a regular
      file where there is anything at all. */
  predicate Acceptable(changes: seq<Change>, dirs: set<Path>) {
    forall i | 0 <= i < |changes| :: changes[i].path != [] && changes[i].path !in dirs
  }

  /** The directories missing above each written path, found by walking up until
      one exists. */
  method DirsToCreate(changes: seq<Change>, live: ConfigDir) returns (created: set<Path>)
    requires live.Valid()
    ensures forall d :: d in created <==> Created(changes, live.dirs, d)
  {
    created := {};
    for i := 0 to |changes|
      invariant forall d :: d in created <==> Created(changes[..i], live.dirs, d)
    {
      assert changes[..i + 1] == changes[..i] + [changes[i]];
      ghost var before := created;
      if Writes(changes[i]) && changes[i].path != [] {
        var d := Parent(changes[i].path);
        while d != [] && d !in live.dirs
          invariant d < changes[i].path
          invariant forall e :: e in created <==>
                      e in before || (e != [] && e !in live.dirs && Above(d, e) && Above(e, changes[i].path))
          decreases |d|
        {
          forall e: Path | Above(Parent(d), e) && Above(e, changes[i].path) ensures e == d || Above(d, e) {
            assert e[|d| - 1] == changes[i].path[|d| - 1];
          }
          created := created + {d};
          d := Parent(d);
        }
        forall e | e != [] && e !in live.dirs && Above(e, changes[i].path) ensures e in created {
          if e <= d {
            AboveIsThere(live.files, live.dirs, d, e);
          }
        }
      }
      forall d ensures d in created <==> Created(changes[..i + 1], live.dirs, d) {
      }
    }
    assert changes[..|changes|] == changes;
  }

  /** Copies what the batch is about to touch, before anything is written. */
  method StashFiles(changes: seq<Change>, live: ConfigDir) returns (stash: Stash)
    requires live.Valid() && Acceptable(changes, live.dirs)
    ensures StashOf(stash, changes, live.files, live.dirs)
  {
    hide WellFormed, Created, Paths;
    NoPaths();
    var status: map<Path, Status> := map[];
    var saved: map<Path, Content> := map[];
    for i := 0 to |changes|
      invariant status.Keys == Paths(changes[..i])
      invariant forall p <- status :: status[p] == Existed <==> p in live.files
      invariant saved.Keys == live.files.Keys * status.Keys
      invariant forall p <- saved :: saved[p] == live.files[p]
    {
      OneMorePath(changes, i);
      var p := changes[i].path;
      if live.Exists(p) {
        saved := saved[p := live.files[p]];
        status := status[p := Existed];
      } else {
        status := status[p := Absent];
      }
    }
    assert changes[..|changes|] == changes;
    assert saved == (map p | p in live.files && p in Paths(changes) :: live.files[p]);
    var created := DirsToCreate(changes, live);
    stash := Stash(status, saved, created);
  }

  // ---------- writing ----------

  /** How far a tree may have come from (files0, dirs0) while `changes` were
      being written, wherever that stopped. */
  ghost predicate Between(
      files0: map<Path, Content>, dirs0: set<Path>, changes: seq<Change>, files: map<Path, Content>, dirs: set<Path>)
  {
    && WellFormed(files0, dirs0) && WellFormed(files, dirs)
    && (forall p | p !in Paths(changes) :: SameAt(files0, files, p))
    && dirs0 <= dirs
    && forall d <- dirs :: d in dirs0 || Created(changes, dirs0, d)
  }

  predicate SameAt(a: map<Path, Content>, b: map<Path, Content>, p: Path) {
    (p in a <==> p in b) && (p in a ==> a[p] == b[p])
  }

  function ContentAt(files: map<Path, Content>, p: Path): Option<Content> {
    if p in files then Some(files[p]) else None
  }

  /** The files after the whole batch. `merge` is the content written for a
      path: the repository's, with the live value at each ignored key; None
      where the two cannot be brought together. */
  function Applied(
      files: map<Path, Content>, changes: seq<Change>, repo: map<Path, Content>,
      merge: (Path, Content, Option<Content>) -> Option<Content>): map<Path, Content>
  {
    if changes == [] then files
    else AppliedOne(Applied(files, changes[..|changes| - 1], repo, merge), changes[|changes| - 1], repo, merge)
  }

  function AppliedOne(
      files: map<Path, Content>, c: Change, repo: map<Path, Content>,
      merge: (Path, Content, Option<Content>) -> Option<Content>): map<Path, Content>
  {
    if Writes(c) && c.path in repo && merge(c.path, repo[c.path], ContentAt(files, c.path)).Some? then
      files[c.path := merge(c.path, repo[c.path], ContentAt(files, c.path)).value]
    else if c.kind == Delete then files - {c.path}
    else files
  }

  /** The paths a batch touches, in order. */
  function Touched(changes: seq<Change>): seq<Path> {
    if changes == [] then []
    else
      var c := changes[|changes| - 1];
      Touched(changes[..|changes| - 1]) + if c.kind == Unrecognized then [] else [c.path]
  }

  /** No file stands where the path needs a directory. */
  predicate NoFileAbove(p: Path, files: map<Path, Content>) {
    forall n | 0 < n < |p| :: p[..n] !in files
  }

  /** The repository's content and the live content of a written path go together. */
  predicate CanMerge(
      c: Change, files: map<Path, Content>, repo: map<Path, Content>,
      merge: (Path, Content, Option<Content>) -> Option<Content>)
  {
    Writes(c) ==> c.path in repo && merge(c.path, repo[c.path], ContentAt(files, c.path)).Some?
  }

  /** What a disk that takes every change lets through. */
  predicate CanWrite(
      c: Change, files: map<Path, Content>, dirs: set<Path>, repo: map<Path, Content>,
      merge: (Path, Content, Option<Content>) -> Option<Content>)
  {
    && CanMerge(c, files, repo, merge)
    && (Writes(c) ==> c.path !in dirs && NoFileAbove(c.path, files))
    && (c.kind == Delete && (c.path in files || c.path in dirs) ==> !HasChild(c.path, files, dirs))
  }

  /** One change written, or left where it failed. */
  method WriteOne(
      c: Change, live: ConfigDir, repo: map<Path, Content>, merge: (Path, Content, Option<Content>) -> Option<Content>)
    returns (ok: bool)
    requires live.Valid() && c.path != []
    modifies live
    ensures live.Valid() && live.failing == old(live.failing)
    ensures old(live.dirs) - {c.path} <= live.dirs
    ensures forall d <- live.dirs :: d in old(live.dirs) || (Writes(c) && Above(d, c.path))
    ensures forall p | p != c.path :: SameAt(old(live.files), live.files, p)
    ensures Writes(c) ==> old(live.files).Keys <= live.files.Keys
    ensures ok ==> CanMerge(c, old(live.files), repo, merge)
    ensures ok && Writes(c) ==> Parent(c.path) in live.dirs
    ensures !live.failing ==> (ok <==> CanWrite(c, old(live.files), old(live.dirs), repo, merge))
    ensures c.kind == Unrecognized ==> live.files == old(live.files)
    ensures ok ==> live.files == AppliedOne(old(live.files), c, repo, merge)
  {
    match c.kind
    case Add | Update =>
      assert forall n | 0 < n < |c.path| :: Parent(c.path)[..n] == c.path[..n];
      var made := live.MakeDirs(Parent(c.path));
      if !made || c.path !in repo {
        return false;
      }
      var content := merge(c.path, repo[c.path], ContentAt(live.files, c.path));
      if content.None? {
        return false;
      }
      ok := live.WriteFile(c.path, content.value);
    case Delete =>
      if live.Exists(c.path) {
        ok := live.Remove(c.path);
      } else {
        ok := true;
      }
    case Unrecognized =>
      ok := true;
  }

  /** No file of the start has become a directory, and until the first delete
      every one of them is there. */
  ghost predicate NoFileBecameDir(
      changes: seq<Change>, n: nat, files0: map<Path, Content>, files: map<Path, Content>, dirs: set<Path>)
    requires n <= |changes|
  {
    && files0.Keys !! dirs
    && ((forall j | 0 <= j < n :: changes[j].kind != Delete) ==> files0.Keys <= files.Keys)
  }

  lemma WritingKeepsFilesFiles(
      changes: seq<Change>, i: nat, files0: map<Path, Content>,
      files1: map<Path, Content>, dirs1: set<Path>, files: map<Path, Content>, dirs: set<Path>)
    requires DeletesLast(changes) && i < |changes| && WellFormed(files, dirs)
    requires NoFileBecameDir(changes, i, files0, files1, dirs1)
    requires forall d <- dirs :: d in dirs1 || (Writes(changes[i]) && Above(d, changes[i].path))
    requires forall p | p != changes[i].path :: SameAt(files1, files, p)
    requires changes[i].kind != Delete ==> files1.Keys <= files.Keys
    ensures NoFileBecameDir(changes, i + 1, files0, files, dirs)
  {
  }

  lemma NothingWrittenYet(changes: seq<Change>, files: map<Path, Content>, dirs: set<Path>)
    requires WellFormed(files, dirs)
    ensures Between(files, dirs, changes, files, dirs) && NoFileBecameDir(changes, 0, files, files, dirs)
  {
  }

  lemma WritingStaysBetween(
      files0: map<Path, Content>, dirs0: set<Path>, changes: seq<Change>, i: nat,
      files1: map<Path, Content>, dirs1: set<Path>, files: map<Path, Content>, dirs: set<Path>)
    requires Acceptable(changes, dirs0) && i < |changes| && WellFormed(files, dirs)
    requires Between(files0, dirs0, changes, files1, dirs1)
    requires dirs1 - {changes[i].path} <= dirs
    requires forall d <- dirs :: d in dirs1 || (Writes(changes[i]) && Above(d, changes[i].path))
    requires forall p | p != changes[i].path :: SameAt(files1, files, p)
    ensures Between(files0, dirs0, changes, files, dirs)
  {
    assert changes[i].path in Paths(changes) && changes[i].path !in dirs0;
    assert dirs0 <= dirs by {
      assert forall d <- dirs0 :: d in dirs1 - {changes[i].path};
    }
    forall d <- dirs ensures d in dirs0 || Created(changes, dirs0, d) {
      if d !in dirs1 {
        assert Writes(changes[i]) && Above(d, changes[i].path);
      }
    }
    forall p | p !in Paths(changes) ensures SameAt(files0, files, p) {
      assert SameAt(files0, files1, p) && SameAt(files1, files, p);
    }
  }

  /** No change sits below another one that is written, as no two files of one
      commit do. */
  predicate Unentangled(changes: seq<Change>) {
    forall i, j | 0 <= i < |changes| && 0 <= j < |changes| ::
      Writes(changes[i]) && Writes(changes[j]) ==> !Above(changes[i].path, changes[j].path)
  }

  predicate DeletesExist(changes: seq<Change>, files: map<Path, Content>) {
    forall i | 0 <= i < |changes| :: changes[i].kind == Delete ==> changes[i].path in files
  }

  predicate AllRecognized(changes: seq<Change>) {
    forall i | 0 <= i < |changes| :: changes[i].kind != Unrecognized
  }

  /** What makes a batch one that can be taken back. */
  predicate Undoable(changes: seq<Change>, files: map<Path, Content>) {
    DeletesLast(changes) && Unentangled(changes) && AllRecognized(changes) && DeletesExist(changes, files)
  }

  /** A plan over the files it was computed from. */
  predicate Planned(changes: seq<Change>, files: map<Path, Content>) {
    OnePerPath(changes) && Undoable(changes, files)
  }

  /** Every write has something to write and no live file above it. */
  predicate AllWritable(
      changes: seq<Change>, files: map<Path, Content>, repo: map<Path, Content>,
      merge: (Path, Content, Option<Content>) -> Option<Content>)
  {
    forall i | 0 <= i < |changes| && Writes(changes[i]) ::
      CanMerge(changes[i], files, repo, merge) && NoFileAbove(changes[i].path, files)
  }

  /** The `i`th change of a plan finds its path as it was, and nothing in its way
      but what was there at the start. */
  lemma StepIsAsPlanned(
      changes: seq<Change>, i: nat, files0: map<Path, Content>, dirs0: set<Path>,
      files: map<Path, Content>, dirs: set<Path>, repo: map<Path, Content>,
      merge: (Path, Content, Option<Content>) -> Option<Content>)
    requires Planned(changes, files0) && i < |changes| && Acceptable(changes, dirs0)
    requires Between(files0, dirs0, changes, files, dirs) && files0.Keys !! dirs
    requires SameAt(files0, files, changes[i].path)
    ensures CanMerge(changes[i], files, repo, merge) <==> CanMerge(changes[i], files0, repo, merge)
    ensures (Writes(changes[i]) ==> CanMerge(changes[i], files0, repo, merge) && NoFileAbove(changes[i].path, files0)) ==>
              CanWrite(changes[i], files, dirs, repo, merge)
  {
    var c := changes[i];
    if Writes(c) {
      assert c.path !in dirs;
      forall n | 0 < n < |c.path| && c.path[..n] in files ensures c.path[..n] in files0 {
        if c.path[..n] in Paths(changes) {
          var j :| 0 <= j < |changes| && changes[j].path == c.path[..n];
          assert Above(changes[j].path, c.path);
        } else {
          assert SameAt(files0, files, c.path[..n]);
        }
      }
    }
  }

  /** A write that went through had only directories above it. */
  lemma WroteBelowDirs(p: Path, files0: map<Path, Content>, files: map<Path, Content>, dirs: set<Path>)
    requires WellFormed(files, dirs) && files0.Keys !! dirs && p != [] && Parent(p) in dirs
    ensures NoFileAbove(p, files0)
  {
    forall n | 0 < n < |p| ensures p[..n] !in files0 {
      AboveIsThere(files, dirs, Parent(p), p[..n]);
    }
  }

  lemma StepKeepsTheRest(
      changes: seq<Change>, i: nat, files0: map<Path, Content>, files1: map<Path, Content>, files: map<Path, Content>)
    requires OnePerPath(changes) && i < |changes|
    requires forall j | i <= j < |changes| :: SameAt(files0, files1, changes[j].path)
    requires forall p | p != changes[i].path :: SameAt(files1, files, p)
    ensures forall j | i < j < |changes| :: SameAt(files0, files, changes[j].path)
  {
    forall j | i < j < |changes| ensures SameAt(files0, files, changes[j].path) {
      assert SameAt(files0, files1, changes[j].path) && SameAt(files1, files, changes[j].path);
    }
  }

  method WriteChanges(
      changes: seq<Change>, live: ConfigDir, repo: map<Path, Content>,
      merge: (Path, Content, Option<Content>) -> Option<Content>)
    returns (ok: bool, written: seq<Path>)
    requires live.Valid() && Acceptable(changes, live.dirs)
    modifies live
    ensures Between(old(live.files), old(live.dirs), changes, live.files, live.dirs)
    ensures live.failing == old(live.failing)
    ensures ok ==> live.files == Applied(old(live.files), changes, repo, merge)
    ensures ok ==> written == Touched(changes)
    ensures ok ==> forall i | 0 <= i < |changes| && Writes(changes[i]) :: changes[i].path in repo
    ensures DeletesLast(changes) ==> old(live.files).Keys !! live.dirs
    ensures Planned(changes, old(live.files)) && ok ==> AllWritable(changes, old(live.files), repo, merge)
    ensures Planned(changes, old(live.files)) && !live.failing ==>
              (ok <==> AllWritable(changes, old(live.files), repo, merge))
  {
    hide WellFormed, Between, SameAt, Paths, AppliedOne, HasChild, DeletesLast;
    hide Unentangled, AllRecognized, DeletesExist, CanMerge, CanWrite, NoFileAbove;
    written := [];
    ghost var files0, dirs0 := live.files, live.dirs;
    NothingWrittenYet(changes, files0, dirs0);
    BetweenIsSound(files0, dirs0, changes, files0, dirs0);
    for i := 0 to |changes|
      invariant Between(files0, dirs0, changes, live.files, live.dirs) && live.failing == old(live.failing)
      invariant live.files == Applied(files0, changes[..i], repo, merge) && written == Touched(changes[..i])
      invariant forall j | 0 <= j < i && Writes(changes[j]) :: changes[j].path in repo
      invariant DeletesLast(changes) ==> NoFileBecameDir(changes, i, files0, live.files, live.dirs)
      invariant Planned(changes, files0) ==> forall j | i <= j < |changes| :: SameAt(files0, live.files, changes[j].path)
      invariant Planned(changes, files0) ==> forall j | 0 <= j < i && Writes(changes[j]) ::
                  CanMerge(changes[j], files0, repo, merge) && NoFileAbove(changes[j].path, files0)
    {
      var c := changes[i];
      assert changes[..i + 1][..i] == changes[..i];
      BetweenIsSound(files0, dirs0, changes, live.files, live.dirs);
      ghost var files1, dirs1 := live.files, live.dirs;
      if Planned(changes, files0) {
        StepIsAsPlanned(changes, i, files0, dirs0, files1, dirs1, repo, merge);
      }
      var done := WriteOne(c, live, repo, merge);
      if DeletesLast(changes) {
        WritingKeepsFilesFiles(changes, i, files0, files1, dirs1, live.files, live.dirs);
      }
      if Planned(changes, files0) {
        StepKeepsTheRest(changes, i, files0, files1, live.files);
        if done && Writes(c) {
          WroteBelowDirs(c.path, files0, live.files, live.dirs);
        }
      }
      WritingStaysBetween(files0, dirs0, changes, i, files1, dirs1, live.files, live.dirs);
      if !done {
        return false, [];
      }
      if c.kind != Unrecognized {
        written := written + [c.path];
      }
    }
    assert changes[..|changes|] == changes;
    ok := true;
  }

  // ---------- rolling back ----------

  /** Something the rollback cannot get past: a directory where a file is to be
      restored, or one that still holds something where nothing was. */
  ghost predicate InTheWay(stash: Stash, p: Path, files: map<Path, Content>, dirs: set<Path>) {
    p in stash.status && p in dirs && (stash.status[p] == Existed || HasChild(p, files, dirs))
  }

  ghost predicate ClearWay(stash: Stash, files: map<Path, Content>, dirs: set<Path>) {
    forall p <- stash.status :: !InTheWay(stash, p, files, dirs)
  }

  /** A path none of whose ancestors is in the set. */
  lemma {:induction false} SomeTopmost(ps: set<Path>) returns (p: Path)
    requires ps != {}
    ensures p in ps && forall q <- ps :: !Above(q, p)
    decreases ps
  {
    p :| p in ps;
    var higher := set q <- ps | Above(q, p);
    assert forall q <- ps | Above(q, p) :: q in higher;
    if higher != {} {
      assert p !in higher && higher < ps;
      var top := SomeTopmost(higher);
      forall r <- ps ensures !Above(r, top) {
        assert Above(r, top) ==> Above(r, p) && r in higher;
      }
      p := top;
    }
  }

  lemma {:induction false} SomeDeepest(ps: set<Path>) returns (p: Path)
    requires ps != {}
    ensures p in ps && forall q <- ps :: |q| <= |p|
    decreases ps
  {
    p :| p in ps;
    var rest := ps - {p};
    assert forall r <- ps :: r == p || r in rest;
    if rest != {} {
      var deeper := SomeDeepest(rest);
      if |deeper| > |p| {
        p := deeper;
      }
    }
  }

  lemma ChildStays(d: Path, gone: Path, files: map<Path, Content>, dirs: set<Path>)
    requires |gone| <= |d| && HasChild(d, files, dirs)
    ensures HasChild(d, files, dirs - {gone})
  {
    if p :| p in dirs && p != [] && Parent(p) == d {
      assert p in dirs - {gone};
    }
  }

  /** Removes the created directories that are empty, deepest first, so that
      those emptied by this go as well. */
  method RemoveEmptyCreatedDirs(created: set<Path>, live: ConfigDir)
    requires live.Valid() && [] !in created && !live.failing
    modifies live
    ensures live.Valid() && live.files == old(live.files) && !live.failing
    ensures live.dirs <= old(live.dirs) && old(live.dirs) - created <= live.dirs
    ensures forall d <- created :: d in live.dirs ==> HasChild(d, live.files, live.dirs)
  {
    var todo := created;
    while todo != {}
      invariant live.Valid() && live.files == old(live.files) && !live.failing
      invariant live.dirs <= old(live.dirs) && old(live.dirs) - created <= live.dirs
      invariant todo <= created
      invariant forall d <- created - todo, e <- todo :: |e| <= |d|
      invariant forall d <- created - todo :: d in live.dirs ==> HasChild(d, live.files, live.dirs)
    {
      ghost var deepest := SomeDeepest(todo);
      var d: Path :| d in todo && forall e <- todo :: |e| <= |d|;
      ghost var dirs1 := live.dirs;
      if d in live.dirs && !HasChild(d, live.files, live.dirs) {
        var removed := live.Remove(d);
        assert removed && d !in old(live.files) && live.files == old(live.files);
        forall e <- created - todo | e in live.dirs ensures HasChild(e, live.files, live.dirs) {
          ChildStays(e, d, live.files, dirs1);
        }
      }
      todo := todo - {d};
    }
  }

  /** A path not yet restored, nor anything below it, meets its turn as the
      rollback found it. */
  lemma WayIsAsFound(
      stash: Stash, p: Path, todo: set<Path>, changes: seq<Change>, files0: map<Path, Content>, dirs0: set<Path>,
      files1: map<Path, Content>, dirs1: set<Path>, files: map<Path, Content>, dirs: set<Path>)
    requires Acceptable(changes, dirs0) && StashOf(stash, changes, files0, dirs0)
    requires Between(files0, dirs0, changes, files1, dirs1) && Between(files0, dirs0, changes, files, dirs)
    requires p in todo && p in stash.status && forall q <- stash.status | Above(p, q) :: q in todo
    requires forall q <- todo :: SameAt(files1, files, q)
    requires dirs <= dirs1 && forall d <- dirs1 :: d in dirs || d in stash.status.Keys - todo
    ensures InTheWay(stash, p, files, dirs) <==> InTheWay(stash, p, files1, dirs1)
  {
    assert p in Paths(changes) && p !in dirs0;
    if q :| q in files1 && q != [] && Parent(q) == p {
      assert Above(p, q);
      assert q !in Paths(changes) ==> SameAt(files0, files1, q);
      assert SameAt(files1, files, q);
    }
    if q :| q in files && q != [] && Parent(q) == p {
      assert Above(p, q);
      assert q !in Paths(changes) ==> SameAt(files0, files, q);
      assert SameAt(files1, files, q);
    }
    if q :| q in dirs1 && q != [] && Parent(q) == p {
      assert Above(p, q);
      assert q in dirs;
    }
  }

  lemma BetweenIsSound(
      files0: map<Path, Content>, dirs0: set<Path>, changes: seq<Change>, files: map<Path, Content>, dirs: set<Path>)
    requires Between(files0, dirs0, changes, files, dirs)
    ensures WellFormed(files, dirs) && files.Keys !! dirs
    ensures forall p :: SameAt(files, files, p)
  {
  }

  ghost predicate RestoredAt(p: Path, files0: map<Path, Content>, dirs1: set<Path>, files: map<Path, Content>) {
    if p in files0 && p !in dirs1 then p in files && files[p] == files0[p] else p !in files
  }

  /** Puts every stashed path back, ancestors before what lies below them. */
  method RestoreFiles(
      stash: Stash, live: ConfigDir, ghost changes: seq<Change>, ghost files0: map<Path, Content>, ghost dirs0: set<Path>)
    returns (ok: bool, restored: set<Path>)
    requires live.Valid() && !live.failing
    requires Between(files0, dirs0, changes, live.files, live.dirs)
    requires Acceptable(changes, dirs0) && StashOf(stash, changes, files0, dirs0)
    modifies live
    ensures Between(files0, dirs0, changes, live.files, live.dirs) && !live.failing
    ensures ok <==> ClearWay(stash, old(live.files), old(live.dirs))
    ensures restored <= stash.status.Keys && (ok <==> restored == stash.status.Keys)
    ensures forall p <- stash.status :: RestoredAt(p, files0, old(live.dirs), live.files)
  {
    hide Between, SameAt, StashOf, InTheWay, Acceptable, HasChild;
    restored := {};
    var todo := stash.status.Keys;
    ghost var files1, dirs1 := live.files, live.dirs;
    BetweenIsSound(files0, dirs0, changes, files1, dirs1);
    while todo != {}
      invariant todo <= stash.status.Keys && restored <= stash.status.Keys - todo
      invariant Between(files0, dirs0, changes, live.files, live.dirs) && !live.failing
      invariant forall p <- todo, q <- stash.status | Above(p, q) :: q in todo
      invariant forall p <- todo :: SameAt(files1, live.files, p)
      invariant live.dirs <= dirs1 && forall d <- dirs1 :: d in live.dirs || d in stash.status.Keys - todo
      invariant forall p <- stash.status :: p in todo || RestoredAt(p, files0, dirs1, live.files)
      invariant forall p <- stash.status :: p in todo || (p in restored <==> !InTheWay(stash, p, files1, dirs1))
    {
      ghost var topmost := SomeTopmost(todo);
      var p: Path :| p in todo && forall q <- todo :: !Above(q, p);
      WayIsAsFound(stash, p, todo, changes, files0, dirs0, files1, dirs1, live.files, live.dirs);
      ghost var files2, dirs2 := live.files, live.dirs;
      BetweenIsSound(files0, dirs0, changes, files2, dirs2);
      assert p in dirs1 <==> p in dirs2;
      var done := RestoreOne(stash, p, live, changes, files0, dirs0);
      RestoreStep(stash, p, todo, files0, files1, dirs1, files2, live.files);
      todo := todo - {p};
      if done {
        restored := restored + {p};
      }
    }
    ok := restored == stash.status.Keys;
  }

  lemma RestoreStep(
      stash: Stash, p: Path, todo: set<Path>, files0: map<Path, Content>,
      files1: map<Path, Content>, dirs1: set<Path>, files2: map<Path, Content>, files: map<Path, Content>)
    requires forall q | q != p :: SameAt(files2, files, q)
    requires forall q <- todo :: SameAt(files1, files2, q)
    requires forall q <- stash.status :: q in todo || RestoredAt(q, files0, dirs1, files2)
    requires RestoredAt(p, files0, dirs1, files)
    ensures forall q <- todo :: q == p || SameAt(files1, files, q)
    ensures forall q <- stash.status :: q in todo - {p} || RestoredAt(q, files0, dirs1, files)
  {
    forall q <- stash.status ensures q in todo - {p} || RestoredAt(q, files0, dirs1, files) {
      assert q != p ==> SameAt(files2, files, q);
    }
    forall q <- todo ensures q == p || SameAt(files1, files, q) {
      assert q != p ==> SameAt(files2, files, q);
    }
  }

  method RestoreOne(
      stash: Stash, p: Path, live: ConfigDir,
      ghost changes: seq<Change>, ghost files0: map<Path, Content>, ghost dirs0: set<Path>)
    returns (done: bool)
    requires live.Valid() && !live.failing && p in stash.status
    requires Between(files0, dirs0, changes, live.files, live.dirs)
    requires Acceptable(changes, dirs0) && StashOf(stash, changes, files0, dirs0)
    modifies live
    ensures Between(files0, dirs0, changes, live.files, live.dirs) && !live.failing
    ensures done <==> !InTheWay(stash, p, old(live.files), old(live.dirs))
    ensures forall q | q != p :: SameAt(old(live.files), live.files, q)
    ensures live.dirs <= old(live.dirs) && old(live.dirs) - {p} <= live.dirs
    ensures p !in files0 ==> p !in live.files
    ensures p in files0 && p in old(live.dirs) ==> p !in live.files
    ensures p in files0 && p !in old(live.dirs) ==> p in live.files && live.files[p] == files0[p]
  {
    hide Between, StashOf, Acceptable, WellFormed, HasChild, SameAt;
    ghost var files1, dirs1 := live.files, live.dirs;
    AboutStashed(stash, p, changes, files0, dirs0, files1, dirs1);
    match stash.status[p] {
    case Existed =>
      RestoringMakesNoDirs(changes, files0, dirs0, files1, dirs1, p);
      var made := live.MakeDirs(Parent(p));
      done := live.WriteFile(p, stash.saved[p]);
      NoneMade(changes, files0, dirs0, files1, dirs1, p, live.dirs);
    case Absent =>
      done := true;
      if live.Exists(p) {
        done := live.Remove(p);
      }
    }
    RestoringStaysBetween(changes, files0, dirs0, files1, dirs1, p, live.files, live.dirs);
  }

  lemma AboutStashed(
      stash: Stash, p: Path, changes: seq<Change>, files0: map<Path, Content>, dirs0: set<Path>,
      files: map<Path, Content>, dirs: set<Path>)
    requires Acceptable(changes, dirs0) && StashOf(stash, changes, files0, dirs0) && p in stash.status
    requires Between(files0, dirs0, changes, files, dirs)
    ensures p in Paths(changes) && p !in dirs0 && p != [] && WellFormed(files, dirs) && files.Keys !! dirs
    ensures stash.status[p] == Existed <==> p in files0
    ensures p in files0 ==> p in stash.saved && stash.saved[p] == files0[p]
    ensures HasChild(p, files, dirs) ==> p in dirs
  {
  }

  /** The directories above a file that was there are there still. */
  lemma RestoringMakesNoDirs(
      changes: seq<Change>, files0: map<Path, Content>, dirs0: set<Path>,
      files: map<Path, Content>, dirs: set<Path>, p: Path)
    requires Between(files0, dirs0, changes, files, dirs) && p in files0
    ensures p != [] && forall n | 0 <= n <= |Parent(p)| :: Parent(p)[..n] in dirs && Parent(p)[..n] !in files
  {
    forall n | 0 <= n <= |Parent(p)| ensures Parent(p)[..n] in dirs {
      AboveIsThere(files0, dirs0, Parent(p), Parent(p)[..n]);
    }
  }

  lemma NoneMade(
      changes: seq<Change>, files0: map<Path, Content>, dirs0: set<Path>,
      files: map<Path, Content>, dirs: set<Path>, p: Path, after: set<Path>)
    requires Between(files0, dirs0, changes, files, dirs) && p in files0 && p != []
    requires dirs <= after && forall d <- after :: d in dirs || (d <= Parent(p) && d != [])
    ensures after == dirs
  {
    forall d <- after ensures d in dirs {
      if d <= Parent(p) {
        AboveIsThere(files0, dirs0, Parent(p), d);
      }
    }
  }

  lemma RestoringStaysBetween(
      changes: seq<Change>, files0: map<Path, Content>, dirs0: set<Path>,
      files1: map<Path, Content>, dirs1: set<Path>, p: Path, files: map<Path, Content>, dirs: set<Path>)
    requires Between(files0, dirs0, changes, files1, dirs1) && WellFormed(files, dirs)
    requires p in Paths(changes) && p !in dirs0
    requires files - {p} == files1 - {p} && dirs <= dirs1 && dirs1 - {p} <= dirs
    ensures Between(files0, dirs0, changes, files, dirs)
    ensures forall q | q != p :: SameAt(files1, files, q)
  {
    forall q | q != p ensures SameAt(files1, files, q) {
      assert q in files <==> q in files - {p};
      assert q in files1 <==> q in files1 - {p};
      if q in files {
        assert files[q] == (files - {p})[q] == (files1 - {p})[q];
      }
    }
    forall q | q !in Paths(changes) ensures SameAt(files0, files, q) {
      assert SameAt(files0, files1, q) && SameAt(files1, files, q);
    }
    assert forall d <- dirs0 :: d in dirs1 - {p};
  }

  /** A directory that is left over holds something, so there is a deeper one:
      none can be left. */
  lemma {:induction false} NotLeftOver(
      changes: seq<Change>, files0: map<Path, Content>, dirs0: set<Path>,
      files: map<Path, Content>, dirs: set<Path>, d: Path, depth: nat)
    requires Between(files0, dirs0, changes, files, dirs) && files.Keys <= files0.Keys
    requires forall e <- dirs :: |e| <= depth && (e in dirs0 || HasChild(e, files, dirs))
    requires d in dirs
    ensures d in dirs0
    decreases depth - |d|
  {
    if d !in dirs0 {
      var child: Path :| child != [] && Parent(child) == d && (child in files || child in dirs);
      if child in dirs {
        NotLeftOver(changes, files0, dirs0, files, dirs, child, depth);
      }
    }
  }

  lemma NothingCreatedStays(
      changes: seq<Change>, files0: map<Path, Content>, dirs0: set<Path>, created: set<Path>,
      files: map<Path, Content>, dirs: set<Path>)
    requires Between(files0, dirs0, changes, files, dirs) && files.Keys <= files0.Keys
    requires forall d :: d in created <==> Created(changes, dirs0, d)
    requires forall d <- created :: d in dirs ==> HasChild(d, files, dirs)
    ensures dirs == dirs0
  {
    var deepest := SomeDeepest(dirs);
    forall d <- dirs ensures d in dirs0 {
      NotLeftOver(changes, files0, dirs0, files, dirs, d, |deepest|);
    }
  }

  /** Restores the tree from a stash. It succeeds exactly when nothing stands in
      the way, and then both files and directories are as they were when the
      stash was made. When something does, only the paths it stood on are
      missing afterwards, and nothing stands in the way of another try. */
  method RollbackFrom(
      stash: Stash, live: ConfigDir, ghost changes: seq<Change>, ghost files0: map<Path, Content>, ghost dirs0: set<Path>)
    returns (ok: bool, restored: set<Path>)
    requires live.Valid() && !live.failing
    requires Between(files0, dirs0, changes, live.files, live.dirs)
    requires Acceptable(changes, dirs0) && StashOf(stash, changes, files0, dirs0)
    modifies live
    ensures live.Valid() && !live.failing
    ensures ok <==> ClearWay(stash, old(live.files), old(live.dirs))
    ensures live.dirs == dirs0
    ensures live.files == map p | p in files0 && (p !in stash.status || p !in old(live.dirs)) :: files0[p]
    ensures ok ==> live.files == files0 && restored == stash.status.Keys
    ensures Between(files0, dirs0, changes, live.files, live.dirs) && ClearWay(stash, live.files, live.dirs)
  {
    hide Between, StashOf, InTheWay, Acceptable, WellFormed, HasChild;
    ghost var files1, dirs1 := live.files, live.dirs;
    ok, restored := RestoreFiles(stash, live, changes, files0, dirs0);
    FilesRestored(stash, changes, files0, dirs0, files1, dirs1, live.files, live.dirs);
    BetweenIsSound(files0, dirs0, changes, live.files, live.dirs);
    RootNotCreated(stash, changes, files0, dirs0, live.files, live.dirs);
    ghost var dirs2 := live.dirs;
    RemoveEmptyCreatedDirs(stash.created, live);
    EverythingBack(stash, changes, files0, dirs0, live.files, dirs2, live.dirs);
  }

  lemma FilesRestored(
      stash: Stash, changes: seq<Change>, files0: map<Path, Content>, dirs0: set<Path>,
      files1: map<Path, Content>, dirs1: set<Path>, files: map<Path, Content>, dirs: set<Path>)
    requires StashOf(stash, changes, files0, dirs0) && Between(files0, dirs0, changes, files, dirs)
    requires forall p <- stash.status :: RestoredAt(p, files0, dirs1, files)
    ensures files == map p | p in files0 && (p !in stash.status || p !in dirs1) :: files0[p]
    ensures ClearWay(stash, files1, dirs1) ==> files == files0
  {
    forall p ensures p in files <==> p in files0 && (p !in stash.status || p !in dirs1)
             ensures p in files ==> files[p] == files0[p]
    {
      if p !in stash.status {
        assert SameAt(files0, files, p);
      } else {
        assert RestoredAt(p, files0, dirs1, files);
      }
    }
    if ClearWay(stash, files1, dirs1) {
      assert forall p <- files0 | p in stash.status :: p in dirs1 ==> InTheWay(stash, p, files1, dirs1);
    }
  }

  lemma RootNotCreated(
      stash: Stash, changes: seq<Change>, files0: map<Path, Content>, dirs0: set<Path>,
      files: map<Path, Content>, dirs: set<Path>)
    requires StashOf(stash, changes, files0, dirs0) && Between(files0, dirs0, changes, files, dirs)
    ensures [] !in stash.created
  {
  }

  lemma EverythingBack(
      stash: Stash, changes: seq<Change>, files0: map<Path, Content>, dirs0: set<Path>,
      files: map<Path, Content>, wider: set<Path>, dirs: set<Path>)
    requires Acceptable(changes, dirs0) && StashOf(stash, changes, files0, dirs0)
    requires Between(files0, dirs0, changes, files, wider) && dirs <= wider && wider - stash.created <= dirs
    requires WellFormed(files, dirs) && files.Keys <= files0.Keys
    requires forall d <- stash.created :: d in dirs ==> HasChild(d, files, dirs)
    ensures dirs == dirs0 && Between(files0, dirs0, changes, files, dirs) && ClearWay(stash, files, dirs)
  {
    assert dirs0 <= dirs by {
      assert forall d <- dirs0 :: d in wider - stash.created;
    }
    NothingCreatedStays(changes, files0, dirs0, stash.created, files, dirs);
    forall p <- stash.status ensures !InTheWay(stash, p, files, dirs) {
      assert p in Paths(changes);
    }
  }

  // ---------- when the way is clear ----------

  /** A plan of the differ (writes, from one commit, before deletes of live
      files) can be rolled back from wherever writing it stops. */
  lemma PlansLeaveAClearWay(
      changes: seq<Change>, stash: Stash, files0: map<Path, Content>, dirs0: set<Path>,
      files: map<Path, Content>, dirs: set<Path>)
    requires Acceptable(changes, dirs0) && StashOf(stash, changes, files0, dirs0)
    requires Between(files0, dirs0, changes, files, dirs)
    requires Undoable(changes, files0) && files0.Keys !! dirs
    ensures ClearWay(stash, files, dirs)
  {
    forall p <- stash.status ensures !InTheWay(stash, p, files, dirs) {
      var i :| 0 <= i < |changes| && changes[i].path == p;
      assert Writes(changes[i]) || p in files0;
    }
  }

  /** No commit has a file where another of its files has a directory. */
  predicate IsCommit(tree: Tree) {
    forall p <- tree, q <- tree :: !Above(p, q)
  }

  /** The view the plan was computed from reads only files that are there. */
  predicate SeenIn(live: Live, files: map<Path, Content>) {
    forall p <- live :: live[p].Readable? ==> p in files
  }

  /** Every plan the differ computes is of that kind. */
  lemma ComputedPlansCanBeUndone(changes: seq<Change>, tree: Tree, live: Live, manifest: set<Path>, files: map<Path, Content>)
    requires Lists(changes, Drift(tree, live, manifest)) && IsCommit(tree) && SeenIn(live, files)
    ensures Unentangled(changes) && DeletesExist(changes, files) && AllRecognized(changes)
  {
    forall i | 0 <= i < |changes|
      ensures Writes(changes[i]) ==> changes[i].path in tree
      ensures changes[i].kind == Delete ==> changes[i].path in files
      ensures changes[i].kind != Unrecognized
    {
      assert KindAt(tree, live, manifest, changes[i].path) == Some(changes[i].kind);
    }
  }

  const KEEP_REPO: (Path, Content, Option<Content>) -> Option<Content> := (p, repo, live) => Some(repo)

  /** With a delete before a write below it, the directory the write makes
      stands where the rollback has to put the deleted file back. */
  lemma DeleteFirstBlocksTheRollback(content: Content)
    ensures
      var changes := [Change(["a"], Delete), Change(["a", "b"], Add)];
      var files0: map<Path, Content>, dirs0: set<Path> := map[["a"] := content], {[]};
      var files: map<Path, Content>, dirs: set<Path> := map[["a", "b"] := content], {[], ["a"]};
      && Acceptable(changes, dirs0)
      && Between(files0, dirs0, changes, files, dirs)
      && files == Applied(files0, changes, files, KEEP_REPO)
      && forall stash | StashOf(stash, changes, files0, dirs0) :: !ClearWay(stash, files, dirs)
  {
    var changes := [Change(["a"], Delete), Change(["a", "b"], Add)];
    var files0: map<Path, Content>, dirs0: set<Path> := map[["a"] := content], {[]};
    var files: map<Path, Content>, dirs: set<Path> := map[["a", "b"] := content], {[], ["a"]};
    assert Parent(["a", "b"]) == ["a"] && Parent(["a"]) == [];
    assert Paths(changes) == {["a"], ["a", "b"]} by {
      assert changes[0].path == ["a"] && changes[1].path == ["a", "b"];
    }
    assert Above(["a"], changes[1].path) && Created(changes, dirs0, ["a"]);
    assert changes[..1] == [changes[0]] && changes[..1][..0] == [] && [changes[0]][..0] == [];
    assert Applied(files0, [], files, KEEP_REPO) == files0;
    assert Applied(files0, [changes[0]], files, KEEP_REPO) == files0 - {["a"]};
    assert Applied(files0, changes, files, KEEP_REPO) == (files0 - {["a"]})[["a", "b"] := content];
    forall stash | StashOf(stash, changes, files0, dirs0) ensures !ClearWay(stash, files, dirs) {
      assert InTheWay(stash, ["a"], files, dirs);
    }
  }

  // ---------- one apply ----------

  datatype Outcome = Outcome(ok: bool, rolledBack: bool, changed: seq<Path>, stash: Option<Stash>)

  /** The changes the path guard lets through, in order. */
  function Guarded(changes: seq<Change>, refused: Path -> bool, live: set<Path>): seq<Change> {
    if changes == [] then []
    else
      var c := changes[|changes| - 1];
      Guarded(changes[..|changes| - 1], refused, live) +
      if refused(c.path) || c.path == [] || c.path in live then [] else [c]
  }

  lemma {:induction false} GuardedIsAcceptable(changes: seq<Change>, refused: Path -> bool, dirs: set<Path>)
    ensures Acceptable(Guarded(changes, refused, dirs), dirs)
    ensures DeletesLast(changes) ==> DeletesLast(Guarded(changes, refused, dirs))
    ensures forall c <- Guarded(changes, refused, dirs) :: c in changes
    decreases |changes|
  {
    if changes != [] {
      var shorter := changes[..|changes| - 1];
      GuardedIsAcceptable(shorter, refused, dirs);
      var kept := Guarded(shorter, refused, dirs);
      if DeletesLast(changes) && |Guarded(changes, refused, dirs)| > |kept| {
        forall i | 0 <= i < |kept| && kept[i].kind == Delete ensures !Writes(changes[|changes| - 1]) {
          assert kept[i] in shorter;
        }
      }
    }
  }

  lemma {:induction false} GuardedAre(changes: seq<Change>, refused: Path -> bool, dirs: set<Path>, c: Change)
    ensures c in Guarded(changes, refused, dirs) <==>
              c in changes && !refused(c.path) && c.path != [] && c.path !in dirs
    decreases |changes|
  {
    if changes != [] {
      GuardedAre(changes[..|changes| - 1], refused, dirs, c);
    }
  }

  lemma {:induction false} GuardedIsPlanned(changes: seq<Change>, refused: Path -> bool, dirs: set<Path>, files: map<Path, Content>)
    ensures Undoable(changes, files) ==> Undoable(Guarded(changes, refused, dirs), files)
    ensures OnePerPath(changes) ==> OnePerPath(Guarded(changes, refused, dirs))
    decreases |changes|
  {
    var good := Guarded(changes, refused, dirs);
    GuardedIsAcceptable(changes, refused, dirs);
    forall i | 0 <= i < |good| ensures exists j :: 0 <= j < |changes| && changes[j] == good[i] {
      assert good[i] in changes;
    }
    if OnePerPath(changes) {
      if changes != [] {
        var shorter := changes[..|changes| - 1];
        GuardedIsPlanned(shorter, refused, dirs, files);
        GuardedIsAcceptable(shorter, refused, dirs);
        var kept := Guarded(shorter, refused, dirs);
        forall i | 0 <= i < |kept| ensures kept[i].path != changes[|changes| - 1].path {
          assert kept[i] in shorter;
        }
      }
    }
  }

  /** A path the batch does not name keeps what it has. */
  lemma {:induction false} AppliedElsewhere(
      files: map<Path, Content>, changes: seq<Change>, repo: map<Path, Content>,
      merge: (Path, Content, Option<Content>) -> Option<Content>, p: Path)
    requires forall i | 0 <= i < |changes| :: changes[i].path != p
    ensures ContentAt(Applied(files, changes, repo, merge), p) == ContentAt(files, p)
    decreases |changes|
  {
    if changes != [] {
      AppliedElsewhere(files, changes[..|changes| - 1], repo, merge, p);
    }
  }

  /** What a batch leaves at a path it names once: the repository's content
      brought together with what was live, or nothing. */
  lemma {:induction false} AppliedAt(
      files: map<Path, Content>, changes: seq<Change>, repo: map<Path, Content>,
      merge: (Path, Content, Option<Content>) -> Option<Content>, i: nat)
    requires OnePerPath(changes) && i < |changes| && CanMerge(changes[i], files, repo, merge)
    ensures
      var p := changes[i].path;
      var after := ContentAt(Applied(files, changes, repo, merge), p);
      && (Writes(changes[i]) ==> p in repo && after == merge(p, repo[p], ContentAt(files, p)))
      && (changes[i].kind == Delete ==> after == None)
    decreases |changes|
  {
    hide Applied, CanMerge;
    var shorter, last := changes[..|changes| - 1], |changes| - 1;
    ApplyStep(files, changes, repo, merge);
    if i == last {
      AppliedElsewhere(files, shorter, repo, merge, changes[i].path);
      WrittenAt(Applied(files, shorter, repo, merge), files, changes[i], repo, merge);
    } else {
      AppliedAt(files, shorter, repo, merge, i);
      assert changes[i].path != changes[last].path;
    }
  }

  lemma ApplyStep(
      files: map<Path, Content>, changes: seq<Change>, repo: map<Path, Content>,
      merge: (Path, Content, Option<Content>) -> Option<Content>)
    requires changes != []
    ensures Applied(files, changes, repo, merge)
         == AppliedOne(Applied(files, changes[..|changes| - 1], repo, merge), changes[|changes| - 1], repo, merge)
  {
  }

  lemma WrittenAt(
      before: map<Path, Content>, files: map<Path, Content>, c: Change, repo: map<Path, Content>,
      merge: (Path, Content, Option<Content>) -> Option<Content>)
    requires ContentAt(before, c.path) == ContentAt(files, c.path) && CanMerge(c, files, repo, merge)
    ensures
      var after := ContentAt(AppliedOne(before, c, repo, merge), c.path);
      && (Writes(c) ==> c.path in repo && after == merge(c.path, repo[c.path], ContentAt(files, c.path)))
      && (c.kind == Delete ==> after == None)
  {
  }

  /** An apply reports every path of its plan once, in the order of the plan. */
  lemma {:induction false} TouchedIs(changes: seq<Change>)
    requires AllRecognized(changes)
    ensures Touched(changes) == seq(|changes|, i requires 0 <= i < |changes| => changes[i].path)
    decreases |changes|
  {
    if changes != [] {
      TouchedIs(changes[..|changes| - 1]);
    }
  }

  /** What Home Assistant is asked for once the files are in place. */
  datatype Activation = Off | Reload | Restart

  /** Guard, stash, write, check, activate, and take everything back when a write
      or the check fails, or Home Assistant stays away after a restart. `valid` is
      the verdict of the configuration check, `healthy` that of the probe. */
  method Apply(
      changes: seq<Change>, live: ConfigDir, repo: map<Path, Content>, refused: Path -> bool,
      merge: (Path, Content, Option<Content>) -> Option<Content>, valid: bool, activation: Activation, healthy: bool)
    returns (r: Outcome)
    requires live.Valid()
    modifies live
    ensures live.Valid()
    ensures r.ok ==> changes == [] || (valid && (activation == Restart ==> healthy))
    ensures r.ok ==>
              var good := Guarded(changes, refused, old(live.dirs));
              && live.files == Applied(old(live.files), good, repo, merge)
              && r.changed == Touched(good) && !r.rolledBack
    ensures r.rolledBack ==> !r.ok && live.files == old(live.files) && live.dirs == old(live.dirs)
    ensures !r.ok ==> r.changed == []
    ensures r.stash.Some? <==> Guarded(changes, refused, old(live.dirs)) != []
    ensures r.stash.Some? ==>
              StashOf(r.stash.value, Guarded(changes, refused, old(live.dirs)), old(live.files), old(live.dirs))
    ensures r.stash.None? ==> live.files == old(live.files) && live.dirs == old(live.dirs)
    ensures !r.ok && !r.rolledBack && r.stash.Some? ==> live.dirs == old(live.dirs)
    ensures Undoable(changes, old(live.files)) ==>
              r.ok || (live.files == old(live.files) && live.dirs == old(live.dirs) && (r.rolledBack || r.stash.None?))
    ensures Planned(changes, old(live.files)) && !old(live.failing) ==>
              (r.ok <==>
                changes == [] ||
                var good := Guarded(changes, refused, old(live.dirs));
                && good != [] && AllWritable(good, old(live.files), repo, merge)
                && valid && (activation == Restart ==> healthy))
  {
    if changes == [] {
      return Outcome(true, false, [], None);
    }
    var good := Guarded(changes, refused, live.dirs);
    GuardedIsAcceptable(changes, refused, live.dirs);
    if good == [] {
      return Outcome(false, false, [], None);
    }
    hide Between, StashOf, ClearWay, Acceptable, WellFormed, Guarded, OnePerPath, AllWritable, Applied, Touched;
    hide DeletesLast, Unentangled, AllRecognized, DeletesExist;
    ghost var files0, dirs0 := live.files, live.dirs;
    GuardedIsPlanned(changes, refused, dirs0, files0);
    var stash := StashFiles(good, live);
    var written, touched := WriteChanges(good, live, repo, merge);
    if written && valid {
      if activation != Restart || healthy {
        return Outcome(true, false, touched, Some(stash));
      }
    }
    // Taking the batch back is assumed to meet no I/O failure of its own.
    live.failing := false;
    if Undoable(changes, files0) {
      PlansLeaveAClearWay(good, stash, files0, dirs0, live.files, live.dirs);
    }
    var undone, restored := RollbackFrom(stash, live, good, files0, dirs0);
    r := Outcome(false, undone, [], Some(stash));
  }
}
