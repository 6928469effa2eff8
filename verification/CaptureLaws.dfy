/** What a capture leaves on the branch, whatever others push meanwhile. */
module CaptureLaws {
  import opened Wrappers
  import opened ConfigTree
  import opened Differ
  import opened Classifier
  import opened CaptureProtocol

  /** Somewhere after `from` the path stopped saying what it said there. */
  ghost predicate MovedAfter(h: History, from: nat, p: Path) {
    exists i | from <= i < |h| :: BlobAt(TreeAt(h, i), p) != BlobAt(TreeAt(h, from), p)
  }

  /** The commit a capture landed on: the tip, on a parent that says about each
      path it carries what the classified commit said, replacing exactly those
      paths by their live version. */
  predicate LandsUnmoved(
      h: History, r: Result, classified: nat, files: set<Path>, live: Live, withheld: set<Path>)
  {
    && r.commit.Some? && r.ok
    && classified < r.commit.value && r.commit.value + 1 == |h|
    && var parent := h[r.commit.value - 1];
       && h[r.commit.value] == WithLive(parent, live, r.paths)
       && h[r.commit.value] != parent
       && r.paths == Staged(parent, live, withheld, files - r.refused)
       && forall p <- files - r.refused :: BlobAt(parent, p) == BlobAt(TreeAt(h, classified), p)
  }

  /** A path is refused only because the branch really changed it after it was
      classified. */
  ghost predicate RefusedRightly(h: History, refused: set<Path>, classified: nat, files: set<Path>) {
    forall p <- refused :: p in files && MovedAfter(h, classified, p)
  }

  /** From `start` on, every commit but the agent's own was pushed by others. */
  predicate OthersFrom(h: History, start: nat, own: Option<nat>, pushed: seq<Tree>) {
    forall i | start <= i < |h| && Some(i) != own :: h[i] in pushed
  }

  lemma AttemptLands(
      h: History, files: set<Path>, live: Live, withheld: set<Path>, meanwhile: seq<Tree>, closed: bool)
    requires h != []
    ensures
      var (now, attempt) := AttemptOn(h, files, live, withheld, meanwhile, closed);
      && (attempt.Landed? ==>
            && now == h + [WithLive(h[|h| - 1], live, attempt.paths)]
            && WithLive(h[|h| - 1], live, attempt.paths) != h[|h| - 1]
            && attempt.paths == Staged(h[|h| - 1], live, withheld, files))
      && (!attempt.Landed? ==> now == h + meanwhile)
  {
  }

  lemma MovedBetween(h: History, longer: History, from: nat, a: nat, b: nat, p: Path)
    requires from <= a <= b < |h| && h <= longer && p in ChangedPaths(h[a], h[b])
    ensures MovedAfter(longer, from, p)
  {
    if BlobAt(h[a], p) == BlobAt(h[from], p) {
      assert BlobAt(TreeAt(longer, b), p) != BlobAt(TreeAt(longer, from), p);
    } else {
      assert BlobAt(TreeAt(longer, a), p) != BlobAt(TreeAt(longer, from), p);
    }
  }

  lemma StillRefusedRightly(h: History, longer: History, refused: set<Path>, classified: nat, files: set<Path>)
    requires h <= longer && RefusedRightly(h, refused, classified, files)
    ensures RefusedRightly(longer, refused, classified, files)
  {
    forall p <- refused ensures MovedAfter(longer, classified, p) {
      var i :| classified <= i < |h| && BlobAt(TreeAt(h, i), p) != BlobAt(TreeAt(h, classified), p);
      assert BlobAt(TreeAt(longer, i), p) != BlobAt(TreeAt(longer, classified), p);
    }
  }

  lemma MovedIsRefusedRightly(
      h: History, longer: History, files: set<Path>, asked: set<Path>, classified: nat, a: nat, b: nat)
    requires classified <= a <= b < |h| && h <= longer && files <= asked
    ensures RefusedRightly(longer, files * ChangedPaths(h[a], h[b]), classified, asked)
  {
    hide MovedAfter, ChangedPaths;
    forall p <- files * ChangedPaths(h[a], h[b]) ensures MovedAfter(longer, classified, p) {
      MovedBetween(h, longer, classified, a, b, p);
    }
  }

  lemma Joined(h: History, refused: set<Path>, more: set<Path>, classified: nat, files: set<Path>)
    requires RefusedRightly(h, refused, classified, files) && RefusedRightly(h, more, classified, files)
    ensures RefusedRightly(h, refused + more, classified, files)
  {
  }

  lemma OthersToo(h: History, more: seq<Tree>, start: nat, pushed: seq<Tree>)
    requires OthersFrom(h, start, None, pushed) && forall t | t in more :: t in pushed
    ensures OthersFrom(h + more, start, None, pushed)
  {
  }

  lemma OwnOnTop(h: History, tree: Tree, start: nat, pushed: seq<Tree>)
    requires OthersFrom(h, start, None, pushed)
    ensures OthersFrom(h + [tree], start, Some(|h|), pushed)
  {
  }

  /** What holds of a capture however it ends. */
  ghost predicate EndsWell(
      out: Outcome, h: History, classified: nat, files: set<Path>, live: Live, withheld: set<Path>, start: nat, pushed: seq<Tree>)
  {
    && h <= out.history
    && OthersFrom(out.history, start, out.result.commit, pushed)
    && RefusedRightly(out.history, out.result.refused, classified, files)
    && (out.result.commit.Some? ==>
          && |h| <= out.result.commit.value
          && LandsUnmoved(out.history, out.result, classified, files, live, withheld))
  }

  lemma SecondEndsWell(
      h: History, built: nat, files: set<Path>, refused: set<Path>, live: Live, withheld: set<Path>, race: Race,
      classified: nat, asked: set<Path>, start: nat)
    requires classified <= built < |h|
    requires files == asked - refused
    requires forall p <- files :: BlobAt(h[built], p) == BlobAt(h[classified], p)
    requires RefusedRightly(h, refused, classified, asked) && OthersFrom(h, start, None, race.Pushed())
    ensures EndsWell(
              SecondAttempt(h, built, files, refused, live, withheld, race),
              h, classified, asked, live, withheld, start, race.Pushed())
  {
    hide AttemptOn, Staged, WithLive, ChangedPaths, OthersFrom;
    var tip := |h| - 1;
    var moved := ChangedPaths(h[built], h[tip]);
    var kept := files - moved;
    var out := SecondAttempt(h, built, files, refused, live, withheld, race);
    AttemptLands(h, kept, live, withheld, race.late, race.closed);
    assert kept == asked - (refused + files * moved);
    StillRefusedRightly(h, out.history, refused, classified, asked);
    MovedIsRefusedRightly(h, out.history, files, asked, classified, built, tip);
    Joined(out.history, refused, files * moved, classified, asked);
    assert RefusedRightly(out.history, {}, classified, asked);
    OthersToo(h, race.late, start, race.Pushed());
    var (now, attempt) := AttemptOn(h, kept, live, withheld, race.late, race.closed);
    if attempt.Landed? {
      OwnOnTop(h, WithLive(h[tip], live, attempt.paths), start, race.Pushed());
    }
  }

  lemma FirstEndsWell(
      h: History, files: set<Path>, live: Live, withheld: set<Path>, race: Race, classified: nat, start: nat)
    requires classified < |h| && OthersFrom(h, start, None, race.Pushed())
    ensures EndsWell(
              FirstAttempt(h, classified, files, live, withheld, race),
              h, classified, files, live, withheld, start, race.Pushed())
  {
    hide AttemptOn, Staged, WithLive, ChangedPaths, RefusedRightly, OthersFrom, SecondAttempt;
    var tip := |h| - 1;
    var moved := ChangedPaths(h[classified], h[tip]);
    var kept := files - moved;
    var (now, attempt) := AttemptOn(h, kept, live, withheld, race.during, race.closed);
    AttemptLands(h, kept, live, withheld, race.during, race.closed);
    assert kept == files - files * moved;
    if race.fetches && (tip == classified || race.compares) && kept != {} && attempt.Rejected? {
      OthersToo(h, race.during, start, race.Pushed());
      OthersToo(now, race.again, start, race.Pushed());
      MovedIsRefusedRightly(h, now + race.again, files, files, classified, classified, tip);
      SecondEndsWell(
        now + race.again, tip, kept, files * moved, live, withheld, race, classified, files, start);
    } else {
      FirstEndsAtOnce(h, files, live, withheld, race, classified, start);
    }
  }

  lemma FirstEndsAtOnce(
      h: History, files: set<Path>, live: Live, withheld: set<Path>, race: Race, classified: nat, start: nat)
    requires classified < |h| && OthersFrom(h, start, None, race.Pushed())
    requires
      var kept := files - ChangedPaths(h[classified], h[|h| - 1]);
      var (now, attempt) := AttemptOn(h, kept, live, withheld, race.during, race.closed);
      !(race.fetches && (|h| - 1 == classified || race.compares) && kept != {} && attempt.Rejected?)
    ensures EndsWell(
              FirstAttempt(h, classified, files, live, withheld, race),
              h, classified, files, live, withheld, start, race.Pushed())
  {
    hide AttemptOn, Staged, WithLive, ChangedPaths, OthersFrom, SecondAttempt;
    var tip := |h| - 1;
    var moved := ChangedPaths(h[classified], h[tip]);
    var kept := files - moved;
    var out := FirstAttempt(h, classified, files, live, withheld, race);
    var (now, attempt) := AttemptOn(h, kept, live, withheld, race.during, race.closed);
    AttemptLands(h, kept, live, withheld, race.during, race.closed);
    assert kept == files - files * moved;
    assert h <= now;
    MovedIsRefusedRightly(h, out.history, files, files, classified, classified, tip);
    assert RefusedRightly(out.history, {}, classified, files);
    OthersToo(h, race.during, start, race.Pushed());
    OwnOnTop(h, WithLive(h[tip], live, if attempt.Landed? then attempt.paths else {}), start, race.Pushed());
  }

  /** A capture never takes back what somebody else pushed, on either attempt:
      the commit it reports is the tip, its parent is whatever the branch was
      when the push was taken, and about each path it carries that parent says
      what the classified commit said. Only paths the branch changed are
      refused, and without a commit the branch holds nothing of the agent's. */
  lemma CaptureNeverRevertsAPush(
      h: History, classified: nat, files: set<Path>, live: Live, withheld: set<Path>, race: Race)
    requires classified < |h|
    ensures
      var out := Captured(h, classified, files, live, withheld, race);
      && h <= out.history
      && OthersFrom(out.history, |h|, out.result.commit, race.Pushed())
      && RefusedRightly(out.history, out.result.refused, classified, files)
      && (out.result.commit.Some? ==>
            && LandsUnmoved(out.history, out.result, classified, files, live, withheld)
            && |h| <= out.result.commit.value)
  {
    hide FirstAttempt, LandsUnmoved;
    assert RefusedRightly(h, {}, classified, files);
    assert OthersFrom(h + race.before, |h|, None, race.Pushed());
    FirstEndsWell(h + race.before, files, live, withheld, race, classified, |h|);
    assert h <= h + race.before;
  }

  /** What a landed commit carries: of the asked paths that were not refused,
      exactly those that are not held back and read live, or are gone live and
      tracked by the parent. A path that is held back never gets to the branch. */
  lemma HeldBackStaysOut(
      h: History, classified: nat, files: set<Path>, live: Live, withheld: set<Path>, race: Race, p: Path)
    requires classified < |h| && Captured(h, classified, files, live, withheld, race).result.commit.Some?
    ensures
      var out := Captured(h, classified, files, live, withheld, race);
      var c := out.result.commit.value;
      && 0 < c < |out.history| && out.result.paths !! withheld
      && (p in out.result.paths <==>
            && p in files && p !in out.result.refused && p !in withheld
            && ((p in live && live[p].Readable?) || (p !in live && p in out.history[c - 1])))
      && (p in withheld ==>
            && (p in out.history[c] <==> p in out.history[c - 1])
            && (p in out.history[c] ==> out.history[c][p] == out.history[c - 1][p]))
      && (p in out.result.paths ==>
            && (p in out.history[c] <==> p in live)
            && (p in live ==> out.history[c][p] == live[p].blob))
  {
    hide Captured, RefusedRightly, OthersFrom;
    CaptureNeverRevertsAPush(h, classified, files, live, withheld, race);
    var out := Captured(h, classified, files, live, withheld, race);
    var c := out.result.commit.value;
    assert BlobAt(out.history[c], p) ==
           if p in out.result.paths then LiveBlob(live, p) else BlobAt(out.history[c - 1], p);
  }

  /** At this commit the paths say what they said at the classified one. */
  predicate UnmovedAt(h: History, seen: nat, classified: nat, paths: set<Path>) {
    forall p <- paths :: BlobAt(TreeAt(h, seen), p) == BlobAt(TreeAt(h, classified), p)
  }

  /** They do at some commit of the branch, from `from` on. */
  ghost predicate SeenUnmoved(h: History, from: nat, classified: nat, paths: set<Path>) {
    exists seen | from <= seen < |h| :: UnmovedAt(h, seen, classified, paths)
  }

  lemma SeenAt(h: History, from: nat, classified: nat, paths: set<Path>, seen: nat)
    requires from <= seen < |h| && UnmovedAt(h, seen, classified, paths)
    ensures SeenUnmoved(h, from, classified, paths)
  {
  }

  lemma SeenEarlier(h: History, from: nat, earlier: nat, classified: nat, paths: set<Path>)
    requires SeenUnmoved(h, from, classified, paths) && earlier <= from
    ensures SeenUnmoved(h, earlier, classified, paths)
  {
  }

  lemma SecondRefusesAll(
      h: History, built: nat, files: set<Path>, refused: set<Path>, live: Live, withheld: set<Path>, race: Race,
      classified: nat, asked: set<Path>)
    requires classified <= built < |h| && files == asked - refused
    requires forall p <- files :: BlobAt(h[built], p) == BlobAt(h[classified], p)
    ensures
      var out := SecondAttempt(h, built, files, refused, live, withheld, race);
      if out.result.ok then
        refused <= out.result.refused && SeenUnmoved(out.history, |h| - 1, classified, asked - out.result.refused)
      else out.result == FAILED
  {
    hide AttemptOn;
    var out := SecondAttempt(h, built, files, refused, live, withheld, race);
    if out.result.ok {
      SeenAt(out.history, |h| - 1, classified, asked - out.result.refused, |h| - 1);
    }
  }

  /** A capture that reports no failure has refused every path the branch changed
      since it was classified, up to a commit no older than what was fetched
      first; one that fails reports nothing at all. */
  lemma RefusesAllThatMoved(
      h: History, classified: nat, files: set<Path>, live: Live, withheld: set<Path>, race: Race)
    requires classified < |h|
    ensures
      var out := Captured(h, classified, files, live, withheld, race);
      if out.result.ok then
        && SeenUnmoved(out.history, |h| + |race.before| - 1, classified, files - out.result.refused)
        && forall p <- files :: BlobAt(TreeAt(h + race.before, |h| + |race.before| - 1), p) != BlobAt(h[classified], p) ==>
             p in out.result.refused
      else out.result == FAILED
  {
    hide AttemptOn, SecondAttempt;
    var first := h + race.before;
    var tip := |first| - 1;
    var moved := ChangedPaths(first[classified], first[tip]);
    var kept := files - moved;
    var out := Captured(h, classified, files, live, withheld, race);
    if race.allowed && files != {} && race.fetches && (tip == classified || race.compares) {
      var (now, attempt) := AttemptOn(first, kept, live, withheld, race.during, race.closed);
      assert first <= now;
      if kept != {} && attempt.Rejected? {
        assert kept == files - files * moved;
        SecondRefusesAll(now + race.again, tip, kept, files * moved, live, withheld, race, classified, files);
        if out.result.ok {
          SeenEarlier(out.history, |now + race.again| - 1, tip, classified, files - out.result.refused);
        }
      } else {
        SeenAt(out.history, tip, classified, files - out.result.refused, tip);
      }
    }
  }

  /** One path, before and after a commit that landed. */
  lemma CommitAt(
      h: History, classified: nat, files: set<Path>, live: Live, withheld: set<Path>, race: Race, p: Path)
    requires classified < |h| && Captured(h, classified, files, live, withheld, race).result.commit.Some?
    ensures
      var out := Captured(h, classified, files, live, withheld, race);
      var c := out.result.commit.value;
      && |h| <= c && c + 1 == |out.history|
      && out.result.paths <= files
      && (p in out.result.paths ==>
            && BlobAt(out.history[c], p) == LiveBlob(live, p)
            && BlobAt(out.history[c - 1], p) == BlobAt(h[classified], p))
      && (p !in out.result.paths ==> BlobAt(out.history[c], p) == BlobAt(out.history[c - 1], p))
  {
    hide Captured, RefusedRightly, OthersFrom;
    CaptureNeverRevertsAPush(h, classified, files, live, withheld, race);
  }

  /** A path nobody asked to capture is not in the commit. */
  lemma UncarriedIsUntouched(
      h: History, classified: nat, files: set<Path>, live: Live, withheld: set<Path>, race: Race, p: Path)
    requires classified < |h| && p !in files
    ensures
      var out := Captured(h, classified, files, live, withheld, race);
      out.result.commit.Some? ==>
        && 0 < out.result.commit.value < |out.history|
        && p !in out.result.paths
        && BlobAt(out.history[out.result.commit.value], p) == BlobAt(out.history[out.result.commit.value - 1], p)
  {
    hide Captured;
    if Captured(h, classified, files, live, withheld, race).result.commit.Some? {
      CommitAt(h, classified, files, live, withheld, race, p);
    }
  }

  /** The pushes leave the path as it is. */
  predicate Spare(pushed: seq<Tree>, p: Path, b: Option<Blob>) {
    forall t | t in pushed :: BlobAt(t, p) == b
  }

  lemma SparedTip(h: History, pushed: seq<Tree>, p: Path, b: Option<Blob>)
    requires h != [] && BlobAt(h[|h| - 1], p) == b && Spare(pushed, p, b)
    ensures var now := h + pushed; BlobAt(now[|now| - 1], p) == b
  {
    var now := h + pushed;
    assert pushed != [] ==> now[|now| - 1] in pushed;
  }

  predicate Missing(tree: Tree, live: Live, withheld: set<Path>, p: Path, b: Option<Blob>) {
    BlobAt(tree, p) == b && Stageable(tree, live, withheld, p) && LiveBlob(live, p) != b
  }

  lemma AttemptReaches(
      h: History, files: set<Path>, live: Live, withheld: set<Path>, meanwhile: seq<Tree>, closed: bool, p: Path,
      b: Option<Blob>)
    requires h != [] && p in files && Missing(h[|h| - 1], live, withheld, p, b)
    ensures
      var (now, attempt) := AttemptOn(h, files, live, withheld, meanwhile, closed);
      if closed || meanwhile != [] then now == h + meanwhile && attempt == Rejected
      else attempt.Landed? && p in attempt.paths
  {
    var tip := h[|h| - 1];
    var commit := WithLive(tip, live, Staged(tip, live, withheld, files));
    assert BlobAt(commit, p) != BlobAt(tip, p);
  }

  lemma SecondReaches(
      h: History, built: nat, files: set<Path>, refused: set<Path>, live: Live, withheld: set<Path>, race: Race,
      p: Path, b: Option<Blob>)
    requires built + 1 < |h| && p in files && race.refetches && race.recompares && !race.closed
    requires BlobAt(h[built], p) == b && Missing(h[|h| - 1], live, withheld, p, b)
    ensures p in SecondAttempt(h, built, files, refused, live, withheld, race).result.paths <==> race.late == []
  {
    hide AttemptOn;
    assert BlobAt(h[|h| - 1], p) == b;
    AttemptReaches(h, files - ChangedPaths(h[built], h[|h| - 1]), live, withheld, race.late, race.closed, p, b);
  }

  lemma FirstReaches(
      h: History, classified: nat, files: set<Path>, live: Live, withheld: set<Path>, race: Race,
      p: Path, b: Option<Blob>)
    requires classified < |h| && p in files
    requires race.fetches && race.compares && race.refetches && race.recompares && !race.closed
    requires Spare(race.during, p, b) && Spare(race.again, p, b)
    requires BlobAt(h[classified], p) == b && Missing(h[|h| - 1], live, withheld, p, b)
    ensures p in FirstAttempt(h, classified, files, live, withheld, race).result.paths <==>
            race.during == [] || race.late == []
  {
    hide AttemptOn, SecondAttempt, Spare;
    assert BlobAt(h[|h| - 1], p) == b;
    var moved := ChangedPaths(h[classified], h[|h| - 1]);
    AttemptReaches(h, files - moved, live, withheld, race.during, race.closed, p, b);
    if race.during != [] {
      var now := h + race.during + race.again;
      SparedTip(h, race.during, p, b);
      SparedTip(h + race.during, race.again, p, b);
      assert Missing(now[|now| - 1], live, withheld, p, b);
      SecondReaches(now, |h| - 1, files - moved, files * moved, live, withheld, race, p, b);
    }
  }

  /** With git working, a capture that has something to say about a path nobody
      else touches lands it unless both its pushes lose a race. */
  lemma CaptureLandsUnlessItLosesTwice(
      h: History, files: set<Path>, live: Live, withheld: set<Path>, race: Race, p: Path)
    requires h != [] && p in files
    requires race.allowed && race.fetches && race.compares && race.refetches && race.recompares && !race.closed
    requires forall t | t in race.Pushed() :: BlobAt(t, p) == BlobAt(h[|h| - 1], p)
    requires Stageable(h[|h| - 1], live, withheld, p) && LiveBlob(live, p) != BlobAt(h[|h| - 1], p)
    ensures
      var r := Captured(h, |h| - 1, files, live, withheld, race).result;
      p in r.paths <==> race.during == [] || race.late == []
  {
    hide FirstAttempt;
    var b := BlobAt(h[|h| - 1], p);
    var first := h + race.before;
    assert Spare(race.before, p, b) && Spare(race.during, p, b) && Spare(race.again, p, b);
    SparedTip(h, race.before, p, b);
    assert Missing(first[|first| - 1], live, withheld, p, b);
    FirstReaches(first, |h| - 1, files, live, withheld, race, p, b);
  }
}
