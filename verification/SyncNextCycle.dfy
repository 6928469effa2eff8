/** What one cycle makes of the next: where a path goes by what changed since
    its last full cycle, and when a path is taken for one that only changed live
    though it did not. */
module SyncNextCycle {
  import opened Wrappers
  import opened ConfigTree
  import opened Differ
  import opened Classifier
  import opened CaptureProtocol
  import opened CaptureLaws
  import opened SyncCycle
  import opened SyncAgreement

  /** Nothing keeps this path from being compared with its base. */
  predicate Comparable(w: World, t: Trouble, p: Path)
    requires Seeded(w)
  {
    && p !in w.record.conflicted
    && !Incomparable(ResolveBases(w.record, Tip(w)), Tip(w), t)
    && p !in t.tooLarge && p !in t.unreadable
    && (p in w.live ==> w.live[p].Readable?)
    && Base(w, p).Some?
    && (BaseBlob(w, p).Some? ==> !BaseBlob(w, p).value.sops)
  }

  /** A comparable path goes where the merge of its three contents sends it. */
  lemma RouteIsMerge(w: World, t: Trouble, p: Path)
    requires Seeded(w) && p in Drifting(w) && Comparable(w, t, p)
    ensures RouteAt(w, t, p) ==
            Merge(BaseBlob(w, p), BlobAt(w.history[Tip(w)], p), LiveBlob(w.live, p), p in w.record.manifest)
  {
    hide ResolveBases, Classify;
    ClassifyIsMerge(BaseBlob(w, p), w.history[Tip(w)], w.live, w.record.manifest, p);
  }

  // ---------- after a full cycle ----------

  predicate Agrees(w: World, p: Path)
    requires Seeded(w)
  {
    && Base(w, p).Some?
    && BaseBlob(w, p) == LiveBlob(w.live, p) == BlobAt(w.history[Tip(w)], p)
    && (p in w.live ==> w.live[p].Readable?)
  }

  /** Nobody pushes a change to this path while the cycle captures. */
  predicate Spares(w: World, e: Conditions, p: Path)
    requires Seeded(w)
  {
    forall t <- e.race.Pushed() :: BlobAt(t, p) == BlobAt(w.history[Tip(w)], p)
  }

  /** What others push is all that can change a path that was not captured. */
  lemma TipAfterCheck(w: World, e: Conditions, p: Path)
    requires Seeded(w) && p !in Carried(w, e) && Spares(w, e, p)
    ensures
      var checked := Reconciled(w, e);
      BlobAt(checked.history[Tip(checked)], p) == BlobAt(w.history[Tip(w)], p)
  {
    hide Captured, Sent, RefusedRightly, LandsUnmoved;
    CaptureNeverRevertsAPush(w.history, Tip(w), Asked(w, e), w.live, e.withheld, e.race);
    NothingToCapture(w, e);
    var after := Capturing(w, e).history;
    var last := |after| - 1;
    if Landing(w, e).Some? {
      LandedCommit(w, e, p);
      last := Landing(w, e).value - 1;
    }
    if e.capturing && |w.history| <= last {
      assert after[last] in e.race.Pushed();
    }
  }

  /** After a check and the apply of its plan, whoever else pushed meanwhile:
      live and the path's base say the same about every path that was captured
      or applied. So does the branch about a captured path, and about an applied
      one exactly if nobody pushed a change to it. */
  lemma FullCycleAgrees(w: World, e: Conditions, p: Path)
    requires BasesExist(w)
    ensures Reconciled(w, e).plan.Some?
    ensures
      var v := Cycled(w, e, true);
      var pending := Pending(Reconciled(w, e));
      && (p in Carried(w, e) ==> Agrees(v, p))
      && (p in Carried(w, e) + pending.Keys ==>
            && Base(v, p).Some? && BaseBlob(v, p) == LiveBlob(v.live, p) && p !in v.record.conflicted)
      && (p in pending ==>
            && (Agrees(v, p) <==> BlobAt(v.history[Tip(v)], p) == BlobAt(w.history[Tip(w)], p))
            && (Spares(w, e, p) ==> Agrees(v, p)))
  {
    hide Reconciled, Landing, Carried, Sent, Drifting, Replaced, Base, Spares;
    BaseAfter(w, e, true, p);
    HistoryGrows(w, e, true);
    PendingGoesLive(w, e, p);
    NotInConflict(w, e, p);
    if p in Carried(w, e) {
      CarriedIsNotPending(w, e, p);
      LandedCommit(w, e, p);
    } else if Spares(w, e, p) {
      TipAfterCheck(w, e, p);
    }
  }

  lemma NotInConflict(w: World, e: Conditions, p: Path)
    requires Seeded(w)
    ensures Reconciled(w, e).plan.Some?
    ensures p in Carried(w, e) + Pending(Reconciled(w, e)).Keys ==> p !in Cycled(w, e, true).record.conflicted
  {
    hide Captured, Drift, RouteOf;
    NothingToCapture(w, e);
    if p in Carried(w, e) {
      LandedCommit(w, e, p);
    }
  }

  lemma PendingGoesLive(w: World, e: Conditions, p: Path)
    requires Seeded(w)
    ensures Reconciled(w, e).plan.Some?
    ensures
      var v := Cycled(w, e, true);
      if p in Pending(Reconciled(w, e)) then
        LiveBlob(v.live, p) == BlobAt(w.history[Tip(w)], p) && (p in v.live ==> v.live[p].Readable?)
      else LiveBlob(v.live, p) == LiveBlob(w.live, p) && (p in v.live <==> p in w.live)
  {
    hide Captured, Sent, Drift, AfterApply;
    assert w.history <= Reconciled(w, e).history;
  }

  lemma CarriedIsNotPending(w: World, e: Conditions, p: Path)
    requires Seeded(w) && p in Carried(w, e)
    ensures Reconciled(w, e).plan.Some? && p !in Pending(Reconciled(w, e))
    ensures CapturedAfter(w, e, p) == Landing(w, e) && Landing(w, e).Some?
    ensures p in w.live ==> w.live[p].Readable?
  {
    hide Captured;
    LandedCommit(w, e, p);
    AskedIsUnmoved(w, e, p);
  }

  lemma BaseDependsOnTheRecord(w: World, x: World, p: Path)
    requires BasesExist(w) && w.history <= x.history && x.record == w.record
    ensures BasesExist(x) && Base(x, p) == Base(w, p) && BaseBlob(x, p) == BaseBlob(w, p)
  {
    hide Latest;
    BaseIsLatest(w, p);
    BaseIsLatest(x, p);
  }

  /** From then on, however live is edited and the branch moves: where the next
      check sends a path the cycle captured or applied, by what changed since
      the two sides last agreed. A change on both sides is a conflict, and one
      side's change wins, with two exceptions. A live file that appears where a
      deletion was captured is a conflict though only live changed, and one the
      agent does not own that disappears is put back. */
  lemma AfterAFullCycleRoutes(w: World, e: Conditions, x: World, t: Trouble, p: Path)
    requires BasesExist(w)
    requires Reconciled(w, e).plan.Some? && p in Carried(w, e) + Pending(Reconciled(w, e)).Keys
    requires
      var v := Cycled(w, e, true);
      v.history <= x.history && x.record == v.record
    requires Seeded(x) && p in Drifting(x) && Comparable(x, t, p)
    ensures
      var agreed := LiveBlob(Cycled(w, e, true).live, p);
      var now := LiveBlob(x.live, p);
      var liveMoved := now != agreed;
      var branchMoved := BlobAt(x.history[Tip(x)], p) != agreed;
      var dropped := now.None? && p !in x.record.manifest;
      && (liveMoved || branchMoved)
      && (RouteAt(x, t, p) == Conflict <==> liveMoved && !dropped && (branchMoved || agreed.None?))
      && (IsCapture(RouteAt(x, t, p)) <==> liveMoved && !dropped && !branchMoved && agreed.Some?)
      && (RouteAt(x, t, p) == Apply <==> !liveMoved || dropped)
  {
    hide Reconciled, Cycled, Carried, RouteAt, Base;
    var v := Cycled(w, e, true);
    BaseAfter(w, e, true, p);
    FullCycleAgrees(w, e, p);
    BaseDependsOnTheRecord(v, x, p);
    RouteIsMerge(x, t, p);
    assert p in x.live ==> x.live[p].Readable?;
    NoDriftIsAgreement(x.history[Tip(x)], x.live, x.record.manifest, p);
  }

  // ---------- when a base no longer tells what live came from ----------

  /** Compared with the tip itself, every file that differs looks edited live. */
  lemma TipAsBaseCaptures(x: World, t: Trouble, p: Path)
    requires Seeded(x) && p in Drifting(x) && Drifting(x)[p] == Update && Comparable(x, t, p)
    requires Base(x, p) == Some(Tip(x))
    ensures RouteAt(x, t, p) == Capture
  {
    hide Comparable, RouteAt, Base;
    RouteIsMerge(x, t, p);
  }

  /** A planned update that is not applied before a capture lands, on a branch
      that still asks for a change: the next check takes the stale live copy for
      an edit, and captures it over the branch, exactly if the path had been
      captured before. Otherwise the update stays planned. */
  lemma UnappliedPlanIsCapturedBackIff(w: World, e: Conditions, t: Trouble, p: Path)
    requires BasesExist(w) && e.capturing && Landing(w, e).Some?
    requires p in Sent(w, e.trouble, Apply) && Drifting(w)[p] == Update && Base(w, p).Some?
    requires BaseBlob(w, p) == LiveBlob(w.live, p) != Replaced(w, e, p) && Replaced(w, e, p).Some?
    requires Comparable(Reconciled(w, e), t, p)
    ensures
      var next := Reconciled(w, e);
      && p in Drifting(next)
      && (RouteAt(next, t, p) == Capture <==> p in w.record.capturedPaths)
      && (RouteAt(next, t, p) == Apply <==> p !in w.record.capturedPaths)
  {
    hide Captured, Comparable, RouteAt, ResolveBases, Landing, Replaced, Carried;
    var next := Reconciled(w, e);
    LandedCommit(w, e, p);
    assert p !in Asked(w, e);
    BaseAfter(w, e, false, p);
    BaseIsLatest(w, p);
    HistoryGrows(w, e, false);
    RouteIsMerge(next, t, p);
  }

  /** A capture that lands without a path the branch changed meanwhile: the next
      check finds the conflict it is, unless the path had been captured before,
      when the new commit has become its base and the change is captured over. */
  lemma RefusedIsAConflictIff(w: World, e: Conditions, t: Trouble, p: Path)
    requires BasesExist(w) && e.capturing
    requires Landing(w, e).Some? && p in Asked(w, e) - Carried(w, e)
    requires Replaced(w, e, p) != BlobAt(w.history[Tip(w)], p) && Replaced(w, e, p).Some?
    requires LiveBlob(w.live, p).Some? && LiveBlob(w.live, p) != Replaced(w, e, p)
    requires Comparable(Reconciled(w, e), t, p)
    ensures
      var next := Reconciled(w, e);
      && p in Drifting(next)
      && (RouteAt(next, t, p) == Conflict <==> p !in w.record.capturedPaths)
      && (RouteAt(next, t, p) == Capture <==> p in w.record.capturedPaths)
  {
    hide Captured, Sent, Comparable, RouteAt, Base, Landing, Replaced, Carried, Asked;
    var next := Reconciled(w, e);
    LandedCommit(w, e, p);
    AskedIsUnmoved(w, e, p);
    BaseAfter(w, e, false, p);
    BaseIsLatest(w, p);
    HistoryGrows(w, e, false);
    RouteIsMerge(next, t, p);
  }

  /** A path a cycle could not compare, while the rest of its plan was applied:
      from then on it is compared with the capture commit that has it as a
      captured path, if there is one, and else with the applied tip, which live
      never was. So once it can be compared, a live copy that differs from that
      commit is captured over the branch, exactly if the branch has not moved
      since, whatever it did before. */
  lemma DeferredIsCapturedIff(w: World, e: Conditions, x: World, t: Trouble, p: Path)
    requires BasesExist(w) && p in Sent(w, e.trouble, Defer) && e.capturing
    requires
      var v := Cycled(w, e, true);
      v.history <= x.history && x.record == v.record && Seeded(x)
    requires LiveBlob(x.live, p).Some? && p in x.history[Tip(x)] && Comparable(x, t, p)
    ensures
      var v := Cycled(w, e, true);
      var captured := CapturedAfter(w, e, p);
      var said := BlobAt(TreeAt(v.history, if captured.Some? then captured.value else Tip(w)), p);
      (p in Drifting(x) && RouteAt(x, t, p) == Capture) <==>
      LiveBlob(x.live, p) != said == BlobAt(x.history[Tip(x)], p)
  {
    hide Captured, Comparable, RouteAt, ResolveBases, Cycled, CapturedAfter, Base;
    var v := Cycled(w, e, true);
    BaseAfter(w, e, true, p);
    assert p !in Pending(Reconciled(w, e));
    BaseDependsOnTheRecord(v, x, p);
    assert p in x.live && x.live[p].Readable?;
    NoDriftIsAgreement(x.history[Tip(x)], x.live, x.record.manifest, p);
    if p in Drifting(x) {
      RouteIsMerge(x, t, p);
    }
  }
}
