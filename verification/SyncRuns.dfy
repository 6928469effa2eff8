/** What two-way sync keeps over every run of live edits, pushes, imports,
    checks, applies and roll backs, in any order. */
module SyncRuns {
  import opened Wrappers
  import opened ConfigTree
  import opened Differ
  import opened Classifier
  import opened CaptureProtocol
  import opened CaptureLaws
  import opened SyncCycle

  /** A roll back puts the stashed files back and leaves the record alone, the
      owned paths included: the branch still asks for those files. */
  datatype Event =
    | Edit(path: Path, file: Option<LiveFile>)
    | RollBack(stashed: map<Path, Option<LiveFile>>)
    | Pushed(tree: Tree)
    | Import(withheld: set<Path>)
    | Check(conditions: Conditions)
    | ApplyPlan(written: set<Path>, ok: bool)

  function Restored(live: Live, stashed: map<Path, Option<LiveFile>>): Live {
    map p | p in live.Keys + stashed.Keys && (p in stashed ==> stashed[p].Some?) ::
      if p in stashed then stashed[p].value else live[p]
  }

  function Next(w: World, e: Event): (after: World)
    requires Seeded(w)
    ensures w.history <= after.history
  {
    match e
    case Edit(p, file) => w.(live := if file.Some? then w.live[p := file.value] else w.live - {p})
    case RollBack(stashed) => w.(live := Restored(w.live, stashed))
    case Pushed(tree) => w.(history := w.history + [tree])
    case Import(withheld) => Imported(w, withheld)
    case Check(conditions) => Reconciled(w, conditions)
    case ApplyPlan(written, ok) => if w.plan.Some? then Applied(w, written, ok) else w
  }

  function Run(w: World, es: seq<Event>): (after: World)
    requires Seeded(w)
    ensures w.history <= after.history
  {
    if es == [] then w else Next(Run(w, es[..|es| - 1]), es[|es| - 1])
  }

  // ---------- no live version is lost ----------

  /** The commit a check compares a path with, when it can tell anything from
      it: known, comparable with the tip, and not an encrypted document. */
  function KnownBase(w: World, t: Trouble, p: Path): Option<nat>
    requires Seeded(w)
  {
    var bases := ResolveBases(w.record, Tip(w));
    var base := bases.ForPath(p);
    if Incomparable(bases, Tip(w), t) || base.None? then None
    else
      var blob := BlobAt(TreeAt(w.history, base.value), p);
      if blob.Some? && blob.value.sops then None else base
  }

  /** A check that plans to write over a live file has found its content in the
      base commit. */
  lemma PlannedOverIsInTheBase(w: World, e: Conditions, p: Path)
    requires Seeded(w) && e.capturing
    requires p in Reconciled(w, e).plan.value.changes && p in w.live && KnownBase(w, e.trouble, p).Some?
    ensures
      var base := KnownBase(w, e.trouble, p).value;
      && base <= Tip(w)
      && w.live[p].Readable?
      && BlobAt(w.history[base], p) == Some(w.live[p].blob)
  {
    hide Captured, ResolveBases, Classify;
    assert Drifting(w) != map[];
    var base := KnownBase(w, e.trouble, p).value;
    assert p in Sent(w, e.trouble, Apply);
    ClassifyIsMerge(BlobAt(TreeAt(w.history, base), p), w.history[Tip(w)], w.live, w.record.manifest, p);
  }

  predicate Quiet(e: Event) {
    !e.Check? && (e.ApplyPlan? ==> !e.ok)
  }

  /** Until it is applied or replaced the plan stands, and so does the record
      of conflicts. */
  lemma {:induction false} PlanStands(w: World, es: seq<Event>)
    requires Seeded(w) && forall i | 0 <= i < |es| :: Quiet(es[i])
    ensures Run(w, es).plan == w.plan && Run(w, es).record.conflicted == w.record.conflicted
  {
    if es != [] {
      PlanStands(w, es[..|es| - 1]);
    }
  }

  /** Whatever an apply writes over or removes is on the branch: if the live
      file still says what the check saw, that content is the path's blob in a
      commit the tip descends from. */
  lemma NoLiveVersionIsLost(w: World, e: Conditions, es: seq<Event>, written: set<Path>, ok: bool, p: Path)
    requires Seeded(w) && e.capturing && KnownBase(w, e.trouble, p).Some?
    requires forall i | 0 <= i < |es| :: Quiet(es[i])
    requires
      var before := Run(Next(w, Check(e)), es);
      var after := Next(before, ApplyPlan(written, ok));
      && p in before.live && p in w.live && before.live[p] == w.live[p]
      && (p in after.live ==> after.live[p] != before.live[p])
    ensures
      var before := Run(Next(w, Check(e)), es);
      exists i | 0 <= i < |before.history| ::
        before.live[p].Readable? && BlobAt(before.history[i], p) == Some(before.live[p].blob)
  {
    hide Reconciled, KnownBase;
    PlanStands(Next(w, Check(e)), es);
    var before := Run(Next(w, Check(e)), es);
    var after := Next(before, ApplyPlan(written, ok));
    assert before.plan.Some? && p in Pending(before);
    PlannedOverIsInTheBase(w, e, p);
    var base := KnownBase(w, e.trouble, p).value;
    assert w.history <= before.history;
    assert BlobAt(before.history[base], p) == Some(before.live[p].blob);
  }

  // ---------- standing conflicts ----------

  /** Checks that look with capturing on and find the path drifting. */
  predicate KeepsDrifting(w: World, es: seq<Event>, p: Path)
    requires Seeded(w)
  {
    forall i | 0 <= i < |es| && es[i].Check? ::
      es[i].conditions.capturing && p in Drifting(Run(w, es[..i]))
  }

  /** No apply writes the path, and no capture commit carries it. */
  predicate LeavesAlone(w: World, e: Event, p: Path)
    requires Seeded(w)
  {
    match e
    case ApplyPlan(_, _) => (p in Next(w, e).live <==> p in w.live) && (p in w.live ==> Next(w, e).live[p] == w.live[p])
    case Check(conditions) =>
      conditions.capturing && Drifting(w) != map[] ==>
        var out := Capturing(w, conditions);
        out.result.commit.Some? ==>
          && 0 < out.result.commit.value < |out.history|
          && p !in out.result.paths
          && BlobAt(out.history[out.result.commit.value], p) == BlobAt(out.history[out.result.commit.value - 1], p)
    case _ => true
  }

  /** A standing conflict ends at a check exactly when capturing is off or the
      path no longer drifts; until then nothing writes it on either side. */
  lemma ConflictStandsIff(w: World, e: Conditions, p: Path)
    requires Seeded(w) && p in w.record.conflicted
    ensures p in Reconciled(w, e).record.conflicted <==> e.capturing && p in Drifting(w)
    ensures LeavesAlone(w, Check(e), p)
  {
    hide Captured, Drift;
    assert p in Drifting(w) ==> RouteAt(w, e.trouble, p) == Conflict;
    var files := Sent(w, e.trouble, Capture) + Sent(w, e.trouble, CaptureDelete);
    assert p !in files;
    UncarriedIsUntouched(w.history, Tip(w), files, w.live, e.withheld, e.race, p);
  }

  lemma ConflictIsNotApplied(w: World, written: set<Path>, ok: bool, p: Path)
    requires Seeded(w) && p in w.record.conflicted
    ensures LeavesAlone(w, ApplyPlan(written, ok), p)
    ensures p in Next(w, ApplyPlan(written, ok)).record.conflicted
  {
  }

  predicate LeftAlone(w: World, es: seq<Event>, p: Path)
    requires Seeded(w)
  {
    forall i | 0 <= i < |es| :: LeavesAlone(Run(w, es[..i]), es[i], p)
  }

  lemma DriftsBefore(w: World, es: seq<Event>, p: Path)
    requires Seeded(w) && es != [] && KeepsDrifting(w, es, p)
    ensures
      var last := |es| - 1;
      && KeepsDrifting(w, es[..last], p)
      && (es[last].Check? ==> es[last].conditions.capturing && p in Drifting(Run(w, es[..last])))
  {
    hide Run, Drifting;
    assert forall i | 0 <= i < |es| - 1 :: es[..|es| - 1][..i] == es[..i];
  }

  lemma LeftAloneOnceMore(w: World, es: seq<Event>, p: Path)
    requires Seeded(w) && es != []
    requires LeftAlone(w, es[..|es| - 1], p) && LeavesAlone(Run(w, es[..|es| - 1]), es[|es| - 1], p)
    ensures LeftAlone(w, es, p)
  {
    hide Run, LeavesAlone;
    assert forall i | 0 <= i < |es| - 1 :: es[..|es| - 1][..i] == es[..i] && es[..|es| - 1][i] == es[i];
  }

  /** Over any run in which the path keeps drifting, a conflict once recorded
      stays recorded, no apply writes the path and no capture carries it. */
  lemma {:induction false} ConflictsAreSticky(w: World, es: seq<Event>, p: Path)
    requires Seeded(w) && p in w.record.conflicted && KeepsDrifting(w, es, p)
    ensures p in Run(w, es).record.conflicted && LeftAlone(w, es, p)
  {
    hide KeepsDrifting, Reconciled, Applied, Drifting;
    if es == [] {
      assert LeftAlone(w, es, p);
    } else {
      var last := |es| - 1;
      DriftsBefore(w, es, p);
      ConflictsAreSticky(w, es[..last], p);
      var v := Run(w, es[..last]);
      match es[last] {
        case Check(conditions) => ConflictStandsIff(v, conditions, p);
        case ApplyPlan(written, ok) => ConflictIsNotApplied(v, written, ok, p);
        case _ => assert LeavesAlone(v, es[last], p);
      }
      LeftAloneOnceMore(w, es, p);
    }
  }

  // ---------- ownership ----------

  /** The plan is about the commit it was made from, and removes only what the
      agent owns. */
  predicate PlanFits(w: World) {
    w.plan.Some? ==>
      && w.plan.value.tip < |w.history|
      && forall p <- w.plan.value.changes ::
           && (w.plan.value.changes[p] == Delete <==> p !in w.history[w.plan.value.tip])
           && (w.plan.value.changes[p] == Delete ==> p in w.record.manifest)
  }

  lemma PlanFitsAlways(w: World, e: Event)
    requires Seeded(w) && PlanFits(w)
    ensures PlanFits(Next(w, e))
  {
    hide Captured, RouteOf;
  }

  lemma {:induction false} PlanFitsOverRuns(w: World, es: seq<Event>)
    requires Seeded(w) && PlanFits(w)
    ensures PlanFits(Run(w, es))
  {
    hide PlanFits;
    if es != [] {
      PlanFitsOverRuns(w, es[..|es| - 1]);
      PlanFitsAlways(Run(w, es[..|es| - 1]), es[|es| - 1]);
    }
  }

  /** The event is a successful apply that put the path live. */
  predicate Wrote(w: World, e: Event, p: Path)
    requires Seeded(w)
  {
    && e.ApplyPlan? && e.ok && w.plan.Some?
    && p in Pending(w) && p in e.written && Pending(w)[p] != Delete
  }

  /** The event is a successful apply that removed it. */
  predicate Unwrote(w: World, e: Event, p: Path)
    requires Seeded(w)
  {
    && e.ApplyPlan? && e.ok && w.plan.Some?
    && p in Pending(w) && p in e.written && Pending(w)[p] == Delete
  }

  /** Only a successful apply changes what the agent owns. */
  lemma OwnershipStep(w: World, e: Event, p: Path)
    requires Seeded(w)
    ensures p in Next(w, e).record.manifest <==>
            Wrote(w, e, p) || (p in w.record.manifest && !Unwrote(w, e, p))
  {
    hide Captured, RouteOf, Drift;
  }

  ghost predicate OwnedSince(w: World, es: seq<Event>, p: Path, i: nat)
    requires Seeded(w)
  {
    && i < |es|
    && Wrote(Run(w, es[..i]), es[i], p)
    && forall j | i < j < |es| :: !Unwrote(Run(w, es[..j]), es[j], p)
  }

  lemma OwnedOneLater(w: World, es: seq<Event>, p: Path, i: nat)
    requires Seeded(w) && es != []
    ensures
      var last := |es| - 1;
      var v := Run(w, es[..last]);
      OwnedSince(w, es, p, i) <==>
      (i == last && Wrote(v, es[last], p)) || (OwnedSince(w, es[..last], p, i) && !Unwrote(v, es[last], p))
  {
    hide Run, Wrote, Unwrote;
    var last := |es| - 1;
    assert forall j | 0 <= j < last :: es[..last][..j] == es[..j] && es[..last][j] == es[j];
  }

  /** The agent owns a path exactly when one of its applies wrote it and none
      has removed it since: checks, captures and imports add nothing. */
  lemma {:induction false} OwnedIsWritten(w: World, es: seq<Event>, p: Path)
    requires Seeded(w) && w.record.manifest == {}
    ensures p in Run(w, es).record.manifest <==> exists i :: OwnedSince(w, es, p, i)
  {
    hide Wrote, Unwrote, Next;
    if es == [] {
      assert forall i :: !OwnedSince(w, es, p, i);
    } else {
      var last := |es| - 1;
      var v := Run(w, es[..last]);
      OwnedIsWritten(w, es[..last], p);
      OwnershipStep(v, es[last], p);
      OwnedOneLater(w, es, p, last);
      forall i: nat ensures OwnedSince(w, es, p, i) <==>
          (i == last && Wrote(v, es[last], p)) || (OwnedSince(w, es[..last], p, i) && !Unwrote(v, es[last], p)) {
        OwnedOneLater(w, es, p, i);
      }
    }
  }

  /** A live file an apply removes is one that an earlier successful apply wrote
      and none has removed since. */
  lemma DeletesOnlyWhatItWrote(w: World, es: seq<Event>, written: set<Path>, ok: bool, p: Path)
    requires Seeded(w) && w.record.manifest == {} && w.plan.None?
    requires
      var v := Run(w, es);
      p in v.live && p !in Next(v, ApplyPlan(written, ok)).live
    ensures exists i :: OwnedSince(w, es, p, i)
  {
    hide OwnedSince;
    var v := Run(w, es);
    PlanFitsOverRuns(w, es);
    assert p in v.record.manifest;
    OwnedIsWritten(w, es, p);
  }
}
