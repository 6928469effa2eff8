/** Small runs in which the next cycle does not do what one would expect of a
    merge, one for each exception the laws leave. */
module SyncHazards {
  import opened Wrappers
  import opened ConfigTree
  import opened Differ
  import opened Classifier
  import opened CaptureProtocol
  import opened CaptureLaws
  import opened SyncCycle
  import opened SyncAgreement
  import opened SyncNextCycle

  const A: Path := ["a.yaml"]
  const B: Path := ["b.yaml"]
  const ALL_WELL := Trouble({}, {}, {})

  /** Others push before the agent fetches, and not after that. */
  function Behind(before: seq<Tree>): Conditions {
    Conditions(true, ALL_WELL, {}, Race(true, true, true, true, true, false, before, [], [], []))
  }

  const QUIET := Behind([])

  /** One version of a file. */
  function Version(n: int): Blob {
    Blob([n], false)
  }

  function Live1(a: int): Live {
    map[A := Readable(Version(a))]
  }

  function Live2(a: int, b: int): Live {
    map[A := Readable(Version(a)), B := Readable(Version(b))]
  }

  function Tree1(a: int): Tree {
    map[A := Version(a)]
  }

  function Tree2(a: int, b: int): Tree {
    map[A := Version(a), B := Version(b)]
  }

  /** The agent owns both files. */
  function Known(good: nat, captured: Option<nat>, paths: set<Path>): Record {
    Record(Some(good), None, captured, paths, {}, {A, B})
  }

  /** A capture that lands at once, less the files changed before it. */
  lemma CaptureBehind(h: History, before: seq<Tree>, files: set<Path>, kept: set<Path>, live: Live)
    requires h != [] && files != {}
    requires
      var now := h + before;
      var tip := now[|now| - 1];
      && kept == files - ChangedPaths(h[|h| - 1], tip)
      && Staged(tip, live, {}, kept) == kept && WithLive(tip, live, kept) != tip
    ensures
      var now := h + before;
      Captured(h, |h| - 1, files, live, {}, Behind(before).race) ==
      Outcome(now + [WithLive(now[|now| - 1], live, kept)], Result(true, Some(|now|), kept, files - kept))
  {
    hide Staged, WithLive, ChangedPaths;
    var now := h + before;
    var tip := now[|now| - 1];
    assert kept != {} by {
      NothingStaged(tip, live);
    }
    assert files * ChangedPaths(h[|h| - 1], tip) == files - kept;
  }

  /** A check whose drift and routes are known. */
  lemma CheckBehind(
      w: World, before: seq<Tree>, asked: set<Path>, kept: set<Path>, planned: set<Path>)
    requires Seeded(w) && Asked(w, QUIET) == asked != {}
    requires Sent(w, ALL_WELL, Apply) == planned && Sent(w, ALL_WELL, Conflict) == {}
    requires
      var now := w.history + before;
      var tip := now[|now| - 1];
      && kept == asked - ChangedPaths(w.history[Tip(w)], tip)
      && Staged(tip, w.live, {}, kept) == kept && WithLive(tip, w.live, kept) != tip
    ensures
      var now := w.history + before;
      Reconciled(w, Behind(before)) == World(
        now + [WithLive(now[|now| - 1], w.live, kept)], w.live,
        w.record.(captured := Some(|now|), capturedPaths := w.record.capturedPaths + kept, conflicted := {}),
        Some(Plan(Tip(w), Restricted(Drifting(w), planned))))
    ensures Landing(w, Behind(before)) == Some(|w.history + before|) && Carried(w, Behind(before)) == kept
  {
    hide Captured, Staged, WithLive, Drift, RouteOf, ChangedPaths;
    CaptureBehind(w.history, before, asked, kept, w.live);
    assert Asked(w, Behind(before)) == asked;
    assert Drifting(w) != map[];
  }

  /** Once its plan is empty, an apply only moves the base. */
  lemma NothingApplied(w: World)
    requires w.plan.Some? && w.plan.value.changes == map[]
    ensures Applied(w, {}, true) == w.(record := DropCaptured(w.record.(good := Some(w.plan.value.tip)), {}))
  {
    assert WithTree(w.live, TreeAt(w.history, w.plan.value.tip), {}) == w.live;
    assert Put(map[], {}) == Removed(map[], {}) == {};
  }

  // ---------- one side changed, and yet ----------

  /** The agent applied a file, and the user removed it. */
  const REMOVED_LIVE :=
    World([Tree1(1)], map[], Record(Some(0), None, None, {}, {}, {A}), None)

  /** Its removal captured. */
  const REMOVAL_CAPTURED :=
    World([Tree1(1), map[]], map[], Record(Some(0), None, Some(1), {A}, {}, {A}), Some(Plan(0, map[])))

  lemma RemovalIsAsked()
    ensures Asked(REMOVED_LIVE, QUIET) == {A}
    ensures Sent(REMOVED_LIVE, ALL_WELL, Apply) == Sent(REMOVED_LIVE, ALL_WELL, Conflict) == {}
  {
    assert Drifting(REMOVED_LIVE) == map[A := Add];
    assert RouteAt(REMOVED_LIVE, ALL_WELL, A) == CaptureDelete;
  }

  lemma RemovalIsCaptured()
    ensures Carried(REMOVED_LIVE, QUIET) == {A} && Cycled(REMOVED_LIVE, QUIET, true) == REMOVAL_CAPTURED
  {
    hide Reconciled, Carried, Landing, Sent, Applied, Drift;
    var w := REMOVED_LIVE;
    RemovalIsAsked();
    assert w.history + [] == [Tree1(1)];
    assert Staged(Tree1(1), w.live, {}, {A}) == {A};
    assert WithLive(Tree1(1), w.live, {A}) == map[];
    CheckBehind(w, [], {A}, {A}, {});
    assert Restricted(Drifting(w), {}) == map[];
    assert Reconciled(w, QUIET).plan.value.changes.Keys == {};
    NothingApplied(Reconciled(w, QUIET));
  }

  lemma RecreatedIsAConflict(x: World)
    requires x == REMOVAL_CAPTURED.(live := Live1(2))
    ensures A in Drifting(x) && Comparable(x, ALL_WELL, A) && RouteAt(x, ALL_WELL, A) == Conflict
  {
    assert Drifting(x) == map[A := Delete];
  }

  /** The removal is captured, and the file then made anew, live only: that is a
      conflict, although the branch has not changed since. */
  lemma CapturedDeletionThenRecreatedConflicts()
    ensures BasesExist(REMOVED_LIVE) && Carried(REMOVED_LIVE, QUIET) == {A}
    ensures
      var v := Cycled(REMOVED_LIVE, QUIET, true);
      var x := v.(live := Live1(2));
      && v.live == map[] && x.history[Tip(x)] == map[]
      && A in Drifting(x) && Comparable(x, ALL_WELL, A) && RouteAt(x, ALL_WELL, A) == Conflict
  {
    hide Cycled, Carried, Drift, RouteOf, Comparable;
    RemovalIsCaptured();
    RecreatedIsAConflict(REMOVAL_CAPTURED.(live := Live1(2)));
  }

  /** A file the branch had from an import, edited live. */
  const EDITED_LIVE :=
    World([Tree1(1)], Live1(2), Record(None, Some(0), None, {}, {}, {}), None)

  /** Its edit captured: the agent has still not put the file live itself. */
  const EDIT_CAPTURED :=
    World([Tree1(1), Tree1(2)], Live1(2), Record(Some(0), Some(0), Some(1), {A}, {}, {}), Some(Plan(0, map[])))

  lemma EditIsAsked()
    ensures Asked(EDITED_LIVE, QUIET) == {A}
    ensures Sent(EDITED_LIVE, ALL_WELL, Apply) == Sent(EDITED_LIVE, ALL_WELL, Conflict) == {}
  {
    assert Drifting(EDITED_LIVE) == map[A := Update];
    assert RouteAt(EDITED_LIVE, ALL_WELL, A) == Capture;
  }

  lemma EditIsCaptured()
    ensures Carried(EDITED_LIVE, QUIET) == {A} && Cycled(EDITED_LIVE, QUIET, true) == EDIT_CAPTURED
  {
    hide Reconciled, Carried, Landing, Sent, Applied, Drift;
    var w := EDITED_LIVE;
    EditIsAsked();
    assert w.history + [] == [Tree1(1)];
    assert Staged(Tree1(1), w.live, {}, {A}) == {A};
    assert WithLive(Tree1(1), w.live, {A}) == Tree1(2);
    assert Tree1(1)[A] != Tree1(2)[A];
    CheckBehind(w, [], {A}, {A}, {});
    assert Restricted(Drifting(w), {}) == map[];
    assert Reconciled(w, QUIET).plan.value.changes.Keys == {};
    NothingApplied(Reconciled(w, QUIET));
  }

  lemma RemovedIsPutBack(x: World)
    requires x == EDIT_CAPTURED.(live := map[])
    ensures A in Drifting(x) && Comparable(x, ALL_WELL, A) && RouteAt(x, ALL_WELL, A) == Apply
  {
    assert Drifting(x) == map[A := Add];
  }

  /** A captured file the agent never applied is removed live: the next check
      plans to put it back, although the branch has not changed since. */
  lemma UnownedDeletionIsUndone()
    ensures BasesExist(EDITED_LIVE) && Carried(EDITED_LIVE, QUIET) == {A}
    ensures
      var v := Cycled(EDITED_LIVE, QUIET, true);
      var x := v.(live := map[]);
      && v.live == Live1(2) && x.history[Tip(x)] == Tree1(2)
      && A in Drifting(x) && Comparable(x, ALL_WELL, A) && RouteAt(x, ALL_WELL, A) == Apply
  {
    hide Cycled, Carried, Drift, RouteOf, Comparable;
    EditIsCaptured();
    RemovedIsPutBack(EDIT_CAPTURED.(live := map[]));
  }

  // ---------- a base that live never was ----------

  /** Two drifting files, each sent its way. */
  lemma TwoRoutes(w: World, t: Trouble, a: Verdict, b: Verdict)
    requires Seeded(w) && Drifting(w) == map[A := Update, B := Update]
    requires RouteAt(w, t, A) == a && RouteAt(w, t, B) == b
    ensures forall v :: Sent(w, t, v) == (if a == v then {A} else {}) + (if b == v then {B} else {})
  {
    hide Drift, RouteOf;
  }

  /** Two files that are live and tracked, and differ. */
  lemma TwoUpdates(w: World)
    requires Seeded(w) && w.record.manifest == {A, B} && w.live.Keys == w.history[Tip(w)].Keys == {A, B}
    requires forall p <- w.live :: w.live[p].Readable? && w.live[p].blob != w.history[Tip(w)][p]
    ensures Drifting(w) == map[A := Update, B := Update]
  {
  }

  /** The first file was captured, and then changed on the branch; the second
      has been edited live. */
  const UPDATE_DUE :=
    World([Tree2(1, 1), Tree2(2, 1), Tree2(3, 1)], Live2(2, 5), Known(0, Some(1), {A}), None)

  lemma UpdateIsDue()
    requires Drifting(UPDATE_DUE) == map[A := Update, B := Update]
    ensures RouteAt(UPDATE_DUE, ALL_WELL, A) == Apply && RouteAt(UPDATE_DUE, ALL_WELL, B) == Capture
    ensures Base(UPDATE_DUE, A) == Some(1)
  {
    hide Drift;
  }

  lemma UpdateIsPlanned()
    ensures Drifting(UPDATE_DUE) == map[A := Update, B := Update]
    ensures Asked(UPDATE_DUE, QUIET) == {B}
    ensures Sent(UPDATE_DUE, ALL_WELL, Apply) == {A} && Sent(UPDATE_DUE, ALL_WELL, Conflict) == {}
  {
    hide Sent, Drift, RouteOf;
    TwoUpdates(UPDATE_DUE);
    UpdateIsDue();
    TwoRoutes(UPDATE_DUE, ALL_WELL, Apply, Capture);
  }

  /** The branch once the edit of the second file is captured. */
  const UPDATE_WAITS :=
    World(
      [Tree2(1, 1), Tree2(2, 1), Tree2(3, 1), Tree2(3, 5)], Live2(2, 5), Known(0, Some(3), {A, B}),
      Some(Plan(2, map[A := Update])))

  lemma UpdateWaits()
    ensures Reconciled(UPDATE_DUE, QUIET) == UPDATE_WAITS
    ensures Landing(UPDATE_DUE, QUIET) == Some(3)
  {
    hide Reconciled, Carried, Landing, Sent, Drift;
    var w := UPDATE_DUE;
    UpdateIsPlanned();
    assert w.history + [] == w.history;
    assert Staged(Tree2(3, 1), w.live, {}, {B}) == {B};
    assert WithLive(Tree2(3, 1), w.live, {B}) == Tree2(3, 5);
    assert Tree2(3, 1)[B] != Tree2(3, 5)[B];
    CheckBehind(w, [], {B}, {B}, {A});
    assert Restricted(map[A := Update, B := Update], {A}) == map[A := Update];
  }

  /** The update of the first file waits while the edit of the second one is
      captured: the next check captures the old copy of the first one over the
      update. */
  lemma WaitingUpdateIsCapturedBack()
    ensures BasesExist(UPDATE_DUE) && A in Sent(UPDATE_DUE, ALL_WELL, Apply)
    ensures BaseBlob(UPDATE_DUE, A) == LiveBlob(UPDATE_DUE.live, A)
    ensures
      var next := Reconciled(UPDATE_DUE, QUIET);
      && next.history[Tip(next)] == Tree2(3, 5) && next.live == Live2(2, 5)
      && A in Drifting(next) && RouteAt(next, ALL_WELL, A) == Capture
  {
    hide Reconciled, Landing, Sent, Drift, RouteOf, Base;
    UpdateIsPlanned();
    UpdateIsDue();
    UpdateWaits();
    WaitingIsComparable();
    UnappliedPlanIsCapturedBackIff(UPDATE_DUE, QUIET, ALL_WELL, A);
  }

  lemma WaitingIsComparable()
    ensures Comparable(UPDATE_WAITS, ALL_WELL, A)
  {
  }

  /** The first file was captured before; both are edited live. */
  const BOTH_EDITED :=
    World([Tree2(1, 1), Tree2(2, 1)], Live2(3, 5), Known(0, Some(1), {A}), None)

  const PUSHED_BEFORE := Behind([Tree2(4, 1)])

  lemma BothAreAsked()
    ensures Asked(BOTH_EDITED, QUIET) == {A, B}
    ensures Sent(BOTH_EDITED, ALL_WELL, Apply) == Sent(BOTH_EDITED, ALL_WELL, Conflict) == {}
  {
    hide Sent, Drift;
    TwoUpdates(BOTH_EDITED);
    TwoRoutes(BOTH_EDITED, ALL_WELL, Capture, Capture);
  }

  /** The branch once the second file is captured on top of the push. */
  const ONE_REFUSED :=
    World(
      [Tree2(1, 1), Tree2(2, 1), Tree2(4, 1), Tree2(4, 5)], Live2(3, 5), Known(0, Some(3), {A, B}),
      Some(Plan(1, map[])))

  lemma OneIsRefused()
    ensures Reconciled(BOTH_EDITED, PUSHED_BEFORE) == ONE_REFUSED
    ensures Landing(BOTH_EDITED, PUSHED_BEFORE) == Some(3) && Carried(BOTH_EDITED, PUSHED_BEFORE) == {B}
    ensures Asked(BOTH_EDITED, PUSHED_BEFORE) == {A, B}
  {
    hide Reconciled, Carried, Landing, Sent, Drift;
    var w := BOTH_EDITED;
    BothAreAsked();
    var pushed := Tree2(4, 1);
    assert w.history + [pushed] == [Tree2(1, 1), Tree2(2, 1), pushed];
    assert ChangedPaths(Tree2(2, 1), pushed) == {A} by {
      assert Tree2(2, 1)[A] != pushed[A];
    }
    assert Staged(pushed, w.live, {}, {B}) == {B};
    assert WithLive(pushed, w.live, {B}) == Tree2(4, 5);
    assert pushed[B] != Tree2(4, 5)[B];
    CheckBehind(w, [pushed], {A, B}, {B}, {});
    assert Restricted(Drifting(w), {}) == map[];
  }

  /** Somebody pushes the first file before the capture, which refuses it and
      lands with the second one: the next check captures the first file over
      that push. */
  lemma RefusedFileIsCapturedOver()
    ensures BasesExist(BOTH_EDITED)
    ensures A in Asked(BOTH_EDITED, PUSHED_BEFORE) - Carried(BOTH_EDITED, PUSHED_BEFORE)
    ensures
      var next := Reconciled(BOTH_EDITED, PUSHED_BEFORE);
      && next.history[Tip(next)] == Tree2(4, 5) && next.live == Live2(3, 5)
      && A in Drifting(next) && RouteAt(next, ALL_WELL, A) == Capture
  {
    hide Reconciled, Carried, Landing, Sent, Drift, RouteOf, Base, Asked;
    OneIsRefused();
    RefusedIsComparable();
    RefusedIsAConflictIff(BOTH_EDITED, PUSHED_BEFORE, ALL_WELL, A);
  }

  lemma RefusedIsComparable()
    ensures Comparable(ONE_REFUSED, ALL_WELL, A)
  {
  }

  /** The branch changed both files. */
  const BOTH_UPDATED :=
    World([Tree2(1, 1), Tree2(2, 2)], Live2(1, 1), Known(0, None, {}), None)

  /** The live copy of the first file cannot be compared for one cycle. */
  const TOO_LARGE := QUIET.(trouble := Trouble({}, {A}, {}))

  lemma OneIsDeferred()
    ensures Drifting(BOTH_UPDATED) == map[A := Update, B := Update]
    ensures Asked(BOTH_UPDATED, TOO_LARGE) == {} && Sent(BOTH_UPDATED, TOO_LARGE.trouble, Defer) == {A}
    ensures Sent(BOTH_UPDATED, TOO_LARGE.trouble, Apply) == {B} && Sent(BOTH_UPDATED, TOO_LARGE.trouble, Conflict) == {}
  {
    hide Sent, Drift;
    TwoUpdates(BOTH_UPDATED);
    TwoRoutes(BOTH_UPDATED, TOO_LARGE.trouble, Defer, Apply);
  }

  /** The second file applied, the first one left as it was. */
  const ONE_UPDATED :=
    World(
      [Tree2(1, 1), Tree2(2, 2)], Live2(1, 2), Known(1, None, {}), Some(Plan(1, map[])))

  lemma OneIsUpdated()
    ensures Cycled(BOTH_UPDATED, TOO_LARGE, true) == ONE_UPDATED
    ensures Landing(BOTH_UPDATED, TOO_LARGE) == None
  {
    hide Sent, Drift, RouteOf, Applied;
    var w, e := BOTH_UPDATED, TOO_LARGE;
    OneIsDeferred();
    assert Capturing(w, e) == Outcome(w.history, FAILED);
    assert Restricted(Drifting(w), {B}) == map[B := Update];
    var checked := Reconciled(w, e);
    assert checked == w.(plan := Some(Plan(1, map[B := Update])));
    assert checked.plan.value.changes.Keys == {B};
    OneApplied(checked);
  }

  lemma OneApplied(checked: World)
    requires checked == BOTH_UPDATED.(plan := Some(Plan(1, map[B := Update])))
    ensures Applied(checked, {B}, true) == ONE_UPDATED
  {
    assert Pending(checked) == map[B := Update];
    assert WithTree(checked.live, Tree2(2, 2), {B}) == Live2(1, 2);
    assert Put(map[B := Update], {B}) == {B} && Removed(map[B := Update], {B}) == {};
  }

  /** That cycle applies the second file. When the first one can be compared
      again, its old copy is captured over the update, though nobody ever edited
      it live. */
  lemma DeferredFileIsCapturedOver()
    ensures BasesExist(BOTH_UPDATED) && A in Sent(BOTH_UPDATED, TOO_LARGE.trouble, Defer)
    ensures
      var v := Cycled(BOTH_UPDATED, TOO_LARGE, true);
      && v.history[Tip(v)] == Tree2(2, 2) && v.live == Live2(1, 2)
      && A in Drifting(v) && RouteAt(v, ALL_WELL, A) == Capture
  {
    hide Cycled, Landing, Sent, Drift, RouteOf, Base;
    OneIsDeferred();
    OneIsUpdated();
    DeferredIsComparable();
    DeferredIsCapturedIff(BOTH_UPDATED, TOO_LARGE, ONE_UPDATED, ALL_WELL, A);
  }

  lemma DeferredIsComparable()
    ensures Comparable(ONE_UPDATED, ALL_WELL, A)
  {
  }
}
