/** Committing the live version of some paths onto the tracked branch while
    others push to it: fetch, refuse what moved, commit, push, and once more if
    the push lost a race. */
module CaptureProtocol {
  import opened Wrappers
  import opened ConfigTree
  import opened Differ
  import opened Classifier

  /** The branch on the server. It only ever moves forward. */
  class Remote {
    var history: History

    constructor (first: Tree)
      ensures history == [first]
    {
      history := [first];
    }

    /** What others push in the meantime. */
    method Receive(pushed: seq<Tree>)
      modifies this
      ensures history == old(history) + pushed
    {
      history := history + pushed;
    }

    /** A push is taken only on top of the commit it was built on. */
    method Push(parent: nat, tree: Tree, closed: bool) returns (accepted: bool)
      modifies this
      ensures accepted <==> !closed && parent + 1 == |old(history)|
      ensures history == if accepted then old(history) + [tree] else old(history)
    {
      accepted := !closed && parent + 1 == |history|;
      if accepted {
        history := history + [tree];
      }
    }
  }

  lemma AsSetOneMore(paths: seq<Path>, i: nat)
    requires i < |paths|
    ensures AsSet(paths[..i + 1]) == AsSet(paths[..i]) + {paths[i]}
  {
    assert paths[..i + 1] == paths[..i] + [paths[i]];
  }

  lemma AsSetAppended(paths: seq<Path>, p: Path)
    ensures AsSet(paths + [p]) == AsSet(paths) + {p}
  {
  }

  lemma EmptyAsSet(paths: seq<Path>)
    ensures AsSet(paths) == {} <==> paths == []
  {
    assert paths != [] ==> paths[0] in AsSet(paths);
  }

  /** Everything that is not the agent's doing during one capture. The four
      lists are what others push before the first fetch, between it and the
      first push, until the second fetch, and until the second push. */
  datatype Race = Race(
    allowed: bool,
    fetches: bool,
    compares: bool,
    refetches: bool,
    recompares: bool,
    closed: bool,
    before: seq<Tree>,
    during: seq<Tree>,
    again: seq<Tree>,
    late: seq<Tree>)
  {
    function Pushed(): seq<Tree> {
      before + during + again + late
    }
  }

  datatype Result = Result(ok: bool, commit: Option<nat>, paths: set<Path>, refused: set<Path>)

  const FAILED := Result(false, None, {}, {})

  datatype Outcome = Outcome(history: History, result: Result)

  // ---------- staging ----------

  /** The live version of a path that goes into the commit: content that reads,
      or the removal of a tracked file that is gone. Paths that are ignored or
      held back for the secrets in them do not go. */
  predicate Stageable(tree: Tree, live: Live, withheld: set<Path>, p: Path) {
    p !in withheld && (LiveBlob(live, p).Some? || (IsGone(live, p) && p in tree))
  }

  function Staged(tree: Tree, live: Live, withheld: set<Path>, files: set<Path>): set<Path> {
    set p <- files | Stageable(tree, live, withheld, p)
  }

  /** A tree with the live version of some paths. */
  function WithLive(tree: Tree, live: Live, paths: set<Path>): (result: Tree)
    ensures forall p :: BlobAt(result, p) == if p in paths then LiveBlob(live, p) else BlobAt(tree, p)
  {
    map p | p in tree.Keys + paths && (p in paths ==> LiveBlob(live, p).Some?) ::
      if p in paths then live[p].blob else tree[p]
  }

  /** Stages one path after the other into the index. */
  method StageDrift(tree: Tree, live: Live, withheld: set<Path>, files: seq<Path>) returns (index: Tree, staged: set<Path>)
    ensures staged == Staged(tree, live, withheld, AsSet(files))
    ensures index == WithLive(tree, live, staged)
  {
    index, staged := tree, {};
    for i := 0 to |files|
      invariant staged == Staged(tree, live, withheld, AsSet(files[..i]))
      invariant forall p :: BlobAt(index, p) == if p in staged then LiveBlob(live, p) else BlobAt(tree, p)
    {
      var p := files[i];
      AsSetOneMore(files, i);
      if p in withheld {
      } else if LiveBlob(live, p).Some? {
        index, staged := index[p := live[p].blob], staged + {p};
      } else if IsGone(live, p) && p in tree {
        index, staged := index - {p}, staged + {p};
      }
    }
    assert files[..|files|] == files;
    SameTree(index, WithLive(tree, live, staged));
  }

  lemma SameTree(a: Tree, b: Tree)
    requires forall p :: BlobAt(a, p) == BlobAt(b, p)
    ensures a == b
  {
    forall p ensures p in a <==> p in b {
      assert BlobAt(a, p) == BlobAt(b, p);
    }
    forall p <- a ensures a[p] == b[p] {
      assert BlobAt(a, p) == BlobAt(b, p);
    }
  }

  /** Splits the files into those the branch left alone and those it changed. */
  method DropMovedSince(h: History, from: nat, to: nat, files: seq<Path>) returns (kept: seq<Path>, moved: set<Path>)
    ensures AsSet(kept) == AsSet(files) - ChangedPaths(TreeAt(h, from), TreeAt(h, to))
    ensures moved == AsSet(files) * ChangedPaths(TreeAt(h, from), TreeAt(h, to))
  {
    if from == to {
      return files, {};
    }
    var changed := ChangedPaths(TreeAt(h, from), TreeAt(h, to));
    kept, moved := [], {};
    for i := 0 to |files|
      invariant AsSet(kept) == AsSet(files[..i]) - changed
      invariant moved == AsSet(files[..i]) * changed
    {
      AsSetOneMore(files, i);
      AsSetAppended(kept, files[i]);
      if files[i] in changed {
        moved := moved + {files[i]};
      } else {
        kept := kept + [files[i]];
      }
    }
    assert files[..|files|] == files;
  }

  // ---------- one attempt, and the protocol ----------

  datatype Attempt = Landed(paths: set<Path>) | Nothing | Rejected

  /** One attempt on the last commit of `h`, with `meanwhile` pushed by others
      before the agent's own push arrives. */
  function AttemptOn(
      h: History, files: set<Path>, live: Live, withheld: set<Path>, meanwhile: seq<Tree>, closed: bool)
    : (r: (History, Attempt))
    requires h != []
    ensures h <= r.0
  {
    var tip := h[|h| - 1];
    var staged := Staged(tip, live, withheld, files);
    var commit := WithLive(tip, live, staged);
    if commit == tip then (h + meanwhile, Nothing)
    else if closed || meanwhile != [] then (h + meanwhile, Rejected)
    else (h + [commit], Landed(staged))
  }

  function SecondAttempt(
      h: History, built: nat, files: set<Path>, refused: set<Path>, live: Live, withheld: set<Path>, race: Race)
    : (out: Outcome)
    requires built < |h|
    ensures h <= out.history
  {
    var tip := |h| - 1;
    var moved := ChangedPaths(h[built], h[tip]);
    var kept := files - moved;
    if !race.refetches || tip == built || !race.recompares then Outcome(h, FAILED)
    else if kept == {} then Outcome(h, Result(true, None, {}, refused + files * moved))
    else
      var (now, attempt) := AttemptOn(h, kept, live, withheld, race.late, race.closed);
      match attempt
      case Landed(paths) => Outcome(now, Result(true, Some(|h|), paths, refused + files * moved))
      case Nothing => Outcome(now, Result(true, None, {}, refused + files * moved))
      case Rejected => Outcome(now, FAILED)
  }

  function FirstAttempt(
      h: History, classified: nat, files: set<Path>, live: Live, withheld: set<Path>, race: Race)
    : (out: Outcome)
    requires classified < |h|
    ensures h <= out.history
  {
    var tip := |h| - 1;
    var moved := ChangedPaths(h[classified], h[tip]);
    var kept := files - moved;
    if !race.fetches || (tip != classified && !race.compares) then Outcome(h, FAILED)
    else if kept == {} then Outcome(h, Result(true, None, {}, files * moved))
    else
      var (now, attempt) := AttemptOn(h, kept, live, withheld, race.during, race.closed);
      match attempt
      case Landed(paths) => Outcome(now, Result(true, Some(|h|), paths, files * moved))
      case Nothing => Outcome(now, Result(true, None, {}, files * moved))
      case Rejected => SecondAttempt(now + race.again, tip, kept, files * moved, live, withheld, race)
  }

  /** The whole capture, from the history it starts on. */
  function Captured(
      h: History, classified: nat, files: set<Path>, live: Live, withheld: set<Path>, race: Race)
    : (out: Outcome)
    requires classified < |h|
    ensures h <= out.history
  {
    if !race.allowed || files == {} then Outcome(h, FAILED)
    else FirstAttempt(h + race.before, classified, files, live, withheld, race)
  }

  method CaptureFilesAt(remote: Remote, tip: nat, files: seq<Path>, live: Live, withheld: set<Path>, race: Race, meanwhile: seq<Tree>)
    returns (attempt: Attempt)
    requires tip + 1 == |remote.history|
    modifies remote
    ensures (remote.history, attempt) ==
            AttemptOn(old(remote.history), AsSet(files), live, withheld, meanwhile, race.closed)
  {
    hide AsSet, Staged, WithLive;
    var tree := remote.history[tip];
    var index, staged := StageDrift(tree, live, withheld, files);
    remote.Receive(meanwhile);
    NothingStaged(tree, live);
    if staged == {} || index == tree {
      return Nothing;
    }
    assert meanwhile == [] ==> remote.history == old(remote.history);
    var accepted := remote.Push(tip, index, race.closed);
    attempt := if accepted then Landed(staged) else Rejected;
  }

  lemma NothingStaged(tree: Tree, live: Live)
    ensures WithLive(tree, live, {}) == tree
  {
    SameTree(WithLive(tree, live, {}), tree);
  }

  /** Captures the live version of `files`, which were classified against the
      commit `classified`. */
  method CaptureFiles(
      remote: Remote, files: seq<Path>, live: Live, withheld: set<Path>, classified: nat, race: Race)
    returns (result: Result)
    requires classified < |remote.history|
    modifies remote
    ensures Outcome(remote.history, result) ==
            Captured(old(remote.history), classified, AsSet(files), live, withheld, race)
  {
    hide AsSet, AttemptOn, ChangedPaths;
    EmptyAsSet(files);
    if !race.allowed || files == [] {
      return FAILED;
    }
    remote.Receive(race.before);
    if !race.fetches {
      return FAILED;
    }
    var tip := |remote.history| - 1;
    if tip != classified && !race.compares {
      return FAILED;
    }
    var kept, refused := DropMovedSince(remote.history, classified, tip, files);
    EmptyAsSet(kept);
    if kept == [] {
      return Result(true, None, {}, refused);
    }
    var attempt := CaptureFilesAt(remote, tip, kept, live, withheld, race, race.during);
    if attempt.Landed? {
      return Result(true, Some(tip + 1), attempt.paths, refused);
    }
    if attempt.Nothing? {
      return Result(true, None, {}, refused);
    }

    remote.Receive(race.again);
    if !race.refetches {
      return FAILED;
    }
    var newTip := |remote.history| - 1;
    if newTip == tip {
      return FAILED;
    }
    if !race.recompares {
      return FAILED;
    }
    var still, more := DropMovedSince(remote.history, tip, newTip, kept);
    EmptyAsSet(still);
    if still == [] {
      return Result(true, None, {}, refused + more);
    }
    attempt := CaptureFilesAt(remote, newTip, still, live, withheld, race, race.late);
    if attempt.Landed? {
      return Result(true, Some(newTip + 1), attempt.paths, refused + more);
    }
    if attempt.Nothing? {
      return Result(true, None, {}, refused + more);
    }
    result := FAILED;
  }
}
