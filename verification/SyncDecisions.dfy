/** What a check, an apply and an import do, said from the record, the branch and
    the live config alone. */
module SyncDecisions {
  import opened Wrappers
  import opened ConfigTree
  import opened Differ
  import opened Classifier
  import opened CaptureProtocol
  import opened CaptureLaws
  import opened SyncCycle
  import opened SyncAgreement
  import opened SyncRuns

  // ---------- which commit a path is compared with ----------

  /** A recorded commit the tip descends from. */
  predicate OnTheBranch(w: World, commit: Option<nat>) {
    commit.Some? && commit.value < |w.history|
  }

  /** The path was captured, and the capture commit is still there. */
  predicate CoveredByCapture(w: World, p: Path) {
    p in w.record.capturedPaths && OnTheBranch(w, w.record.captured)
  }

  /** The commit live and branch last agreed at: the later one of the last apply
      and the last import. */
  predicate LastAgreed(w: World, commit: nat) {
    && Some(commit) in {w.record.good, w.record.imported} && commit < |w.history|
    && forall c | c in {w.record.good, w.record.imported} && OnTheBranch(w, c) :: c.value <= commit
  }

  predicate NothingKnown(w: World, p: Path) {
    !OnTheBranch(w, w.record.good) && !OnTheBranch(w, w.record.imported) && !CoveredByCapture(w, p)
  }

  /** The commit a path is compared with. */
  predicate ComparedWith(w: World, p: Path, commit: nat) {
    if CoveredByCapture(w, p) then w.record.captured == Some(commit) else LastAgreed(w, commit)
  }

  /** A comparison with the tip that the cycle needs fails. */
  predicate ComparisonFails(w: World, t: Trouble) {
    exists commit <- t.failing ::
      && commit + 1 != |w.history|
      && (LastAgreed(w, commit)
          || (w.record.captured == Some(commit) && commit < |w.history| && w.record.capturedPaths != {}))
  }

  lemma BasesAre(w: World, p: Path)
    requires Seeded(w)
    ensures NothingKnown(w, p) <==> Base(w, p).None?
    ensures forall commit: nat :: ComparedWith(w, p, commit) <==> Base(w, p) == Some(commit)
  {
    var bases := ResolveBases(w.record, Tip(w));
    assert bases.fallback.Some? ==> LastAgreed(w, bases.fallback.value);
  }

  lemma ComparisonsAre(w: World, t: Trouble)
    requires Seeded(w)
    ensures ComparisonFails(w, t) <==> Incomparable(ResolveBases(w.record, Tip(w)), Tip(w), t)
  {
    var bases := ResolveBases(w.record, Tip(w));
    assert bases.fallback.Some? ==> LastAgreed(w, bases.fallback.value);
    assert forall commit: nat :: LastAgreed(w, commit) ==> bases.fallback == Some(commit);
  }

  // ---------- where a drifting path goes ----------

  /** What a check with capturing on makes of one path that drifts. */
  datatype Fate = Planned | Parked | Waiting | Handed

  /** Planned to be applied, parked as a conflict, waiting, or handed to the
      capture. */
  predicate Ends(w: World, e: Conditions, p: Path, fate: Fate)
    requires Seeded(w)
  {
    var next := Reconciled(w, e);
    && next.plan.Some?
    && (fate.Planned? <==> p in next.plan.value.changes)
    && (fate.Planned? ==> p in Drifting(w) && next.plan.value.changes[p] == Drifting(w)[p])
    && (fate.Parked? <==> p in next.record.conflicted)
    && (fate.Handed? <==> p in Asked(w, e))
    && (!fate.Handed? ==> p !in Carried(w, e))
  }

  lemma EndsBy(w: World, e: Conditions, p: Path)
    requires Seeded(w) && e.capturing && p in Drifting(w)
    ensures
      var v := RouteAt(w, e.trouble, p);
      Ends(w, e, p, match v case Apply => Planned case Conflict => Parked case Defer => Waiting case _ => Handed)
  {
    hide RouteOf, Captured, Drift;
    assert Drifting(w) != map[];
    if Landing(w, e).Some? {
      LandedCommit(w, e, p);
    }
  }

  /** A path that is not in conflict already and has no commit to be compared with
      is applied: the agent has never put these files live, so nothing in them is
      an edit. */
  lemma NothingKnownIsPlanned(w: World, e: Conditions, p: Path)
    requires Seeded(w) && e.capturing && p in Drifting(w) && p !in w.record.conflicted && NothingKnown(w, p)
    ensures Ends(w, e, p, Planned)
  {
    hide Drift;
    BasesAre(w, p);
    EndsBy(w, e, p);
  }

  /** A comparison that fails leaves everything planned but what is in conflict
      already, and captures nothing. */
  lemma FailedComparisonPlansAll(w: World, e: Conditions, p: Path)
    requires Seeded(w) && e.capturing && p in Drifting(w) && ComparisonFails(w, e.trouble)
    ensures Ends(w, e, p, if p in w.record.conflicted then Parked else Planned)
    ensures Asked(w, e) == {} && Reconciled(w, e).history == w.history
  {
    hide Drift, Classify;
    ComparisonsAre(w, e.trouble);
    EndsBy(w, e, p);
    assert forall q <- Drifting(w) :: RouteAt(w, e.trouble, q) in {Apply, Conflict};
    CaptureOfNothing(w.history, Tip(w), Asked(w, e), w.live, e.withheld, e.race);
  }

  /** The same, when some path can be compared and this one has a commit to be
      compared with: a live file too large to read waits; a base that cannot be
      read makes a conflict; and what the branch once held encrypted is applied. */
  lemma WhatCannotBeCompared(w: World, e: Conditions, p: Path, base: nat)
    requires Seeded(w) && e.capturing && p in Drifting(w) && p !in w.record.conflicted
    requires !ComparisonFails(w, e.trouble) && ComparedWith(w, p, base)
    ensures
      var tooLarge := p in w.live && w.live[p].Readable? && p in e.trouble.tooLarge;
      var encrypted := p in w.history[base] && w.history[base][p].sops;
      && (tooLarge ==> Ends(w, e, p, Waiting))
      && (!tooLarge && p in e.trouble.unreadable ==> Ends(w, e, p, Parked))
      && (!tooLarge && p !in e.trouble.unreadable && encrypted ==> Ends(w, e, p, Planned))
  {
    hide Drift, Classify, ResolveBases;
    BasesAre(w, p);
    ComparisonsAre(w, e.trouble);
    EndsBy(w, e, p);
  }

  /** A conflict on record stays parked while the path drifts. */
  lemma StandingIsParked(w: World, e: Conditions, p: Path)
    requires Seeded(w) && e.capturing && p in Drifting(w) && p in w.record.conflicted
    ensures Ends(w, e, p, Parked)
  {
    hide Drift;
    EndsBy(w, e, p);
  }

  /** With capturing off everything that drifts is planned, and nothing else
      changes but that no conflict stays on record. */
  lemma WithoutCapturing(w: World, e: Conditions)
    requires Seeded(w) && !e.capturing
    ensures Reconciled(w, e) ==
            w.(plan := Some(Plan(|w.history| - 1, Drifting(w))), record := w.record.(conflicted := {}))
  {
  }

  // ---------- what drifts ----------

  /** The kind of a drift, by what is live and what the tip tracks. */
  lemma DriftIs(w: World, p: Path)
    requires Seeded(w)
    ensures
      var tip := w.history[|w.history| - 1];
      var drift := Drifting(w);
      && (p in tip && p !in w.live ==> p in drift && drift[p] == Add)
      && (p in tip && p in w.live && w.live[p].Unstatable? ==> p in drift && drift[p] == Add)
      && (p in tip && p in w.live && w.live[p].Readable? ==>
            if w.live[p].blob == tip[p] then p !in drift else p in drift && drift[p] == Update)
      && (p !in tip && p in w.live && w.live[p].Readable? ==>
            if p in w.record.manifest then p in drift && drift[p] == Delete else p !in drift)
      && (p in w.live && w.live[p].Opaque? ==> p !in drift)
      && (p !in tip && (p !in w.live || w.live[p].Unstatable?) ==> p !in drift)
  {
  }

  // ---------- what an apply does ----------

  /** A failed apply leaves the record, the plan and the branch alone; what it may
      have changed is live, at planned paths it touched that are not in conflict,
      and there it left what the planned commit says. */
  lemma FailedApplyKeepsTheRecord(w: World, written: set<Path>, p: Path)
    requires Seeded(w)
    ensures
      var after := Next(w, ApplyPlan(written, false));
      && after.record == w.record && after.plan == w.plan && after.history == w.history
      && (w.plan.None? || p !in w.plan.value.changes || p in w.record.conflicted || p !in written ==>
            (p in after.live <==> p in w.live) && (p in w.live ==> after.live[p] == w.live[p]))
  {
  }

  /** What any apply leaves at a path it touched. */
  lemma AppliedIsLive(w: World, written: set<Path>, ok: bool, p: Path)
    requires Seeded(w) && w.plan.Some? && w.plan.value.tip < |w.history|
    requires p in w.plan.value.changes && p !in w.record.conflicted && p in written
    ensures
      var after := Next(w, ApplyPlan(written, ok));
      var tree := w.history[w.plan.value.tip];
      && after.history == w.history
      && (p in after.live <==> p in tree) && (p in tree ==> after.live[p] == Readable(tree[p]))
  {
  }

  /** A successful apply makes the planned commit the last good one, and leaves
      nothing planned; imports and conflicts stay on record. */
  lemma SuccessfulApplyMovesTheBase(w: World, written: set<Path>)
    requires Seeded(w) && w.plan.Some?
    ensures
      var after := Next(w, ApplyPlan(written, true));
      && after.record.good == Some(w.plan.value.tip)
      && after.plan == Some(Plan(w.plan.value.tip, map[]))
      && after.record.imported == w.record.imported && after.record.conflicted == w.record.conflicted
  {
  }

  /** An event that can move no base: no successful apply, no import, and no
      capture that lands. */
  predicate MovesNoBase(w: World, e: Event)
    requires Seeded(w)
  {
    !e.Import? && (e.ApplyPlan? ==> !e.ok) && (e.Check? ==> Landing(w, e.conditions).None?)
  }

  lemma BaseStays(w: World, e: Event, p: Path)
    requires BasesExist(w) && MovesNoBase(w, e)
    ensures BasesExist(Next(w, e)) && Base(Next(w, e), p) == Base(w, p)
  {
    hide Captured, Drift, RouteOf, ResolveBases;
    var after := Next(w, e);
    if e.Check? {
      RecordAfterCheck(w, e.conditions);
    }
    assert after.record == w.record.(conflicted := after.record.conflicted);
    BaseIsLatest(w, p);
    BaseIsLatest(after, p);
  }

  /** Over any run without a successful apply, an import or a landed capture every
      path keeps the base it had. */
  lemma {:induction false} BasesStayOverRuns(w: World, es: seq<Event>, p: Path)
    requires BasesExist(w) && forall i | 0 <= i < |es| :: MovesNoBase(Run(w, es[..i]), es[i])
    ensures BasesExist(Run(w, es)) && Base(Run(w, es), p) == Base(w, p)
  {
    hide Base, MovesNoBase, Next;
    if es != [] {
      var last := |es| - 1;
      assert forall i | 0 <= i < last :: es[..last][..i] == es[..i] && es[..last][i] == es[i];
      BasesStayOverRuns(w, es[..last], p);
      BaseStays(Run(w, es[..last]), es[last], p);
    }
  }

  // ---------- what an import does ----------

  /** An import puts every live file that reads and is not held back on the branch
      and removes nothing; that commit is on record as an agreement, or nothing
      happens when the branch says all of it already. */
  lemma ImportIs(w: World, withheld: set<Path>, p: Path)
    requires Seeded(w)
    ensures
      var after := Next(w, Import(withheld));
      var was, now := w.history[|w.history| - 1], after.history[|after.history| - 1];
      && after.live == w.live && after.plan == w.plan
      && (p in w.live && w.live[p].Readable? && p !in withheld ==> p in now && now[p] == w.live[p].blob)
      && (p in withheld || p !in w.live || !w.live[p].Readable? ==>
            (p in now <==> p in was) && (p in was ==> now[p] == was[p]))
      && (after.history == w.history ==> after.record == w.record)
      && (after.history != w.history ==>
            after.history == w.history + [now] && after.record == w.record.(imported := Some(|w.history|)))
  {
    var files := set q <- w.live | w.live[q].Readable? && q !in withheld;
    var was := w.history[|w.history| - 1];
    var commit := WithLive(was, w.live, files);
    assert BlobAt(commit, p) == if p in files then LiveBlob(w.live, p) else BlobAt(was, p);
  }
}
