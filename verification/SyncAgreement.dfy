/** The bases the agent keeps: when they are contents both sides really had,
    and what that gives later cycles. */
module SyncAgreement {
  import opened Wrappers
  import opened ConfigTree
  import opened Differ
  import opened Classifier
  import opened CaptureProtocol
  import opened CaptureLaws
  import opened SyncCycle

  /** A cycle of the loop: a check, and the apply of its whole plan when nothing
      holds it back. Live does not change between the two. */
  function Cycled(w: World, e: Conditions, applies: bool): World
    requires Seeded(w)
  {
    var checked := Reconciled(w, e);
    if applies then Applied(checked, checked.plan.value.changes.Keys, true) else checked
  }

  function Base(w: World, p: Path): Option<nat>
    requires Seeded(w)
  {
    ResolveBases(w.record, Tip(w)).ForPath(p)
  }

  predicate BasesExist(w: World) {
    && Seeded(w)
    && (w.record.good.Some? ==> w.record.good.value < |w.history|)
    && (w.record.imported.Some? ==> w.record.imported.value < |w.history|)
    && (w.record.captured.Some? ==> w.record.captured.value < |w.history|)
  }

  /** The content of a path in its base commit. */
  function BaseBlob(w: World, p: Path): Option<Blob>
    requires Seeded(w)
  {
    if Base(w, p).Some? then BlobAt(TreeAt(w.history, Base(w, p).value), p) else None
  }

  /** Whether the cycle pushed a capture commit, and which. */
  function Landing(w: World, e: Conditions): Option<nat>
    requires Seeded(w)
  {
    if e.capturing then Capturing(w, e).result.commit else None
  }

  function Carried(w: World, e: Conditions): set<Path>
    requires Seeded(w)
  {
    if Landing(w, e).Some? then Capturing(w, e).result.paths else {}
  }

  function Asked(w: World, e: Conditions): set<Path>
    requires Seeded(w)
  {
    Sent(w, e.trouble, Capture) + Sent(w, e.trouble, CaptureDelete)
  }

  // ---------- what a check knows ----------

  /** A path is captured only if the branch left it alone since its base. */
  lemma AskedIsUnmoved(w: World, e: Conditions, p: Path)
    requires Seeded(w) && p in Asked(w, e)
    ensures Base(w, p).Some? && Base(w, p).value <= Tip(w)
    ensures BaseBlob(w, p).Some? && BaseBlob(w, p) == BlobAt(w.history[Tip(w)], p)
    ensures LiveBlob(w.live, p) != BaseBlob(w, p)
  {
    hide ResolveBases;
  }

  /** What the branch said about a path just before the capture commit. */
  function Replaced(w: World, e: Conditions, p: Path): Option<Blob>
    requires Seeded(w)
  {
    if Landing(w, e).Some? && Landing(w, e).value > 0 then
      BlobAt(TreeAt(Reconciled(w, e).history, Landing(w, e).value - 1), p)
    else None
  }

  /** What a landed commit says, path by path. */
  lemma LandedCommit(w: World, e: Conditions, p: Path)
    requires Seeded(w) && Landing(w, e).Some?
    ensures
      var c := Landing(w, e).value;
      var after := Reconciled(w, e).history;
      && Tip(w) < c && c + 1 == |after| && w.history <= after
      && Carried(w, e) <= Asked(w, e)
      && BlobAt(TreeAt(after, c), p) == (if p in Carried(w, e) then LiveBlob(w.live, p) else Replaced(w, e, p))
      && (p in Carried(w, e) ==> Replaced(w, e, p) == BlobAt(w.history[Tip(w)], p))
  {
    hide Captured, Sent, Drift;
    CommitAt(w.history, Tip(w), Asked(w, e), w.live, e.withheld, e.race, p);
    NothingToCapture(w, e);
  }

  lemma NothingToCapture(w: World, e: Conditions)
    requires Seeded(w)
    ensures Drifting(w) == map[] ==> Capturing(w, e) == Outcome(w.history, FAILED)
  {
    hide Captured;
    if Drifting(w) == map[] {
      CaptureOfNothing(w.history, Tip(w), Asked(w, e), w.live, e.withheld, e.race);
    }
  }

  /** The content a capture replaces on the branch is the path's content in its
      base, which is also what was fetched: nothing pushed in between is lost. */
  lemma CaptureReplacesOnlyTheBase(w: World, e: Conditions, p: Path)
    requires Seeded(w) && p in Carried(w, e)
    ensures Replaced(w, e, p).Some? && Replaced(w, e, p) == BaseBlob(w, p)
    ensures
      var after := Reconciled(w, e).history;
      Landing(w, e).Some? && BlobAt(TreeAt(after, Landing(w, e).value), p) == LiveBlob(w.live, p) != BaseBlob(w, p)
  {
    hide Reconciled, Asked, Landing, BaseBlob, Base, Replaced, TreeAt;
    assert Landing(w, e).Some?;
    LandedCommit(w, e, p);
    AskedIsUnmoved(w, e, p);
  }

  // ---------- bases are contents that were live ----------

  predicate AllReadable(live: Live) {
    forall p <- live :: live[p].Readable?
  }

  function Seen(live: Live): set<(Path, Blob)> {
    set p <- live | live[p].Readable? :: (p, live[p].blob)
  }

  predicate GroundedAt(w: World, ever: set<(Path, Blob)>, p: Path)
    requires Seeded(w)
  {
    BaseBlob(w, p).Some? ==> (p, BaseBlob(w, p).value) in ever
  }

  /** Every path is compared with a content it once had live, `ever` being all
      that was live so far. */
  ghost predicate Grounded(w: World, ever: set<(Path, Blob)>) {
    && BasesExist(w)
    && Seen(w.live) <= ever
    && forall p :: GroundedAt(w, ever, p)
  }

  /** A cycle that pushed a commit or moved the base left nothing undecided: no
      conflict and no deferred path, the whole plan applied with the commit, and
      nobody pushed to an earlier captured path behind its back. */
  predicate TidyCycle(w: World, e: Conditions, applies: bool)
    requires Seeded(w)
  {
    && (applies || Landing(w, e).Some? ==>
          && AllReadable(w.live)
          && (e.capturing ==> Sent(w, e.trouble, Conflict) == {} && Sent(w, e.trouble, Defer) == {}))
    && (Landing(w, e).Some? ==>
          && (applies || Sent(w, e.trouble, Apply) == {})
          && forall q <- w.record.capturedPaths - Carried(w, e) ::
               Replaced(w, e, q) == BlobAt(w.history[Tip(w)], q))
  }

  /** The base without a tip to check it against. */
  function Latest(r: Record, p: Path): Option<nat> {
    if r.captured.Some? && p in r.capturedPaths then r.captured
    else if r.good.Some? && r.imported.Some? then
      if r.good.value <= r.imported.value then r.imported else r.good
    else if r.good.Some? then r.good
    else r.imported
  }

  lemma BaseIsLatest(w: World, p: Path)
    requires BasesExist(w)
    ensures Base(w, p) == Latest(w.record, p)
    ensures Base(w, p).Some? ==> Base(w, p).value <= Tip(w)
  {
  }

  /** The base a path keeps from a capture, unless its plan entry is applied. */
  function CapturedBase(r: Record, p: Path): Option<nat> {
    if p in r.capturedPaths then r.captured else None
  }

  lemma LatestAfterApply(r: Record, tip: nat, pending: map<Path, Kind>, written: set<Path>, p: Path)
    requires r.imported.Some? ==> r.imported.value <= tip
    ensures Latest(AfterApply(r, tip, pending, written), p) ==
            if CapturedBase(r, p).Some? && p !in pending then r.captured else Some(tip)
  {
    if CapturedBase(r, p).Some? && p !in pending {
      assert p in r.capturedPaths - pending.Keys;
    }
  }

  lemma LatestAfterCapture(r: Record, result: Result, conflicts: set<Path>, p: Path)
    ensures Latest(AfterCapture(r, result, conflicts), p) ==
            if result.commit.Some? && (p in result.paths || p in r.capturedPaths) then result.commit
            else Latest(r, p)
    ensures CapturedBase(AfterCapture(r, result, conflicts), p) ==
            if result.commit.Some? && (p in result.paths || p in r.capturedPaths) then result.commit
            else CapturedBase(r, p)
  {
  }

  /** The record a check leaves. */
  lemma RecordAfterCheck(w: World, e: Conditions)
    requires Seeded(w)
    ensures
      var after := Reconciled(w, e).record;
      if Landing(w, e).Some? then after == AfterCapture(w.record, Capturing(w, e).result, after.conflicted)
      else after == w.record.(conflicted := after.conflicted)
  {
    hide Captured, Sent, RouteOf, Drift;
    NothingToCapture(w, e);
  }

  /** The capture commit a path is compared with after a check, if any: a
      landed commit takes over every path captured so far. */
  function CapturedAfter(w: World, e: Conditions, p: Path): Option<nat>
    requires Seeded(w)
  {
    if Landing(w, e).Some? && (p in Carried(w, e) || p in w.record.capturedPaths) then Landing(w, e)
    else CapturedBase(w.record, p)
  }

  /** The base a path has after a cycle: a capture commit unless the plan for
      the path was applied, else the applied tip, else what it was. */
  lemma BaseAfter(w: World, e: Conditions, applies: bool, p: Path)
    requires BasesExist(w)
    ensures BasesExist(Reconciled(w, e)) && BasesExist(Cycled(w, e, applies))
    ensures Reconciled(w, e).plan.Some?
    ensures Base(Cycled(w, e, applies), p) ==
            if CapturedAfter(w, e, p).Some? && !(applies && p in Pending(Reconciled(w, e))) then CapturedAfter(w, e, p)
            else if applies then Some(Tip(w))
            else Base(w, p)
  {
    hide Reconciled, Landing, AfterApply, AfterCapture, Base, Carried;
    var checked := Reconciled(w, e);
    var v := Cycled(w, e, applies);
    BasesExistAfter(w, e, applies);
    BaseIsLatest(w, p);
    BaseIsLatest(checked, p);
    BaseIsLatest(v, p);
    CheckedBase(w, e, p);
    if applies {
      LatestAfterApply(checked.record, Tip(w), Pending(checked), checked.plan.value.changes.Keys, p);
    }
    assert CapturedBase(checked.record, p).Some? ==>
        CapturedBase(checked.record, p) == checked.record.captured == Latest(checked.record, p) by {
    }
  }

  lemma CheckedBase(w: World, e: Conditions, p: Path)
    requires Seeded(w)
    ensures
      var r := Reconciled(w, e).record;
      && CapturedBase(r, p) == CapturedAfter(w, e, p)
      && Latest(r, p) == if CapturedAfter(w, e, p).Some? then CapturedAfter(w, e, p) else Latest(w.record, p)
  {
    hide Reconciled, AfterCapture;
    RecordAfterCheck(w, e);
    var r := Reconciled(w, e).record;
    if Landing(w, e).Some? {
      LatestAfterCapture(w.record, Capturing(w, e).result, r.conflicted, p);
    }
  }

  lemma BasesExistAfterApply(w: World, written: set<Path>)
    requires BasesExist(w) && w.plan.Some? && w.plan.value.tip < |w.history|
    ensures BasesExist(Applied(w, written, true))
  {
    hide WithTree;
  }

  lemma BasesExistAfter(w: World, e: Conditions, applies: bool)
    requires BasesExist(w)
    ensures BasesExist(Reconciled(w, e)) && BasesExist(Cycled(w, e, applies))
    ensures var checked := Reconciled(w, e);
            checked.plan == Some(Plan(Tip(w), checked.plan.value.changes))
    ensures var imported := Reconciled(w, e).record.imported;
            imported.Some? ==> imported.value <= Tip(w)
  {
    hide Drifting, Sent, Applied;
    var checked := Reconciled(w, e);
    RecordAfterCheck(w, e);
    assert w.history <= checked.history;
    if Landing(w, e).Some? {
      LandedCommit(w, e, []);
      assert Landing(w, e) == Capturing(w, e).result.commit;
    }
    BasesExistAfterApply(checked, checked.plan.value.changes.Keys);
  }

  /** A tracked path with no drift has the tip's content live. */
  lemma StillIsLive(w: World, p: Path)
    requires Seeded(w) && AllReadable(w.live) && p in w.history[Tip(w)] && p !in Drifting(w)
    ensures (p, w.history[Tip(w)][p]) in Seen(w.live)
  {
    assert KindAt(w.history[Tip(w)], w.live, w.record.manifest, p) == None;
  }

  /** What the fetched tip says about a path no plan leaves over has been live:
      it is live, it is about to be, or it is the base of a capture. */
  lemma TipIsGrounded(w: World, e: Conditions, applies: bool, ever: set<(Path, Blob)>, p: Path)
    requires Grounded(w, ever) && TidyCycle(w, e, applies)
    requires applies || Landing(w, e).Some?
    requires p in w.history[Tip(w)]
    ensures
      || (p, w.history[Tip(w)][p]) in ever
      || (applies && p in Pending(Reconciled(w, e)))
  {
    hide Captured, RouteOf, Drift, BasesExist, Base;
    assert GroundedAt(w, ever, p);
    if p !in Drifting(w) {
      StillIsLive(w, p);
    } else if e.capturing {
      if p in Asked(w, e) {
        AskedIsUnmoved(w, e, p);
      } else {
        assert p !in Sent(w, e.trouble, Conflict) && p !in Sent(w, e.trouble, Defer);
        assert p in Sent(w, e.trouble, Apply);
      }
    }
  }

  lemma HistoryGrows(w: World, e: Conditions, applies: bool)
    requires Seeded(w)
    ensures Cycled(w, e, applies).history == Reconciled(w, e).history
    ensures w.history <= Reconciled(w, e).history
    ensures Reconciled(w, e).plan.Some?
  {
    hide Captured;
  }

  lemma PendingIsLive(w: World, e: Conditions, p: Path)
    requires Seeded(w) && p in Pending(Reconciled(w, e)) && p in w.history[Tip(w)]
    ensures (p, w.history[Tip(w)][p]) in Seen(Cycled(w, e, true).live)
  {
    hide Captured, Sent, Drift, AfterApply;
    var v := Cycled(w, e, true);
    assert w.history <= Reconciled(w, e).history;
    assert v.live[p] == Readable(w.history[Tip(w)][p]);
  }

  lemma CycleGrounds(w: World, e: Conditions, applies: bool, ever: set<(Path, Blob)>, p: Path)
    requires Grounded(w, ever) && TidyCycle(w, e, applies)
    ensures
      var v := Cycled(w, e, applies);
      GroundedAt(v, ever + Seen(v.live), p)
  {
    hide Cycled, Reconciled, Sent, Base, Landing, Carried, Replaced;
    var v := Cycled(w, e, applies);
    BaseAfter(w, e, applies, p);
    HistoryGrows(w, e, applies);
    BaseIsLatest(w, p);
    assert GroundedAt(w, ever, p);
    var tip := w.history[Tip(w)];
    if Base(v, p) != Base(w, p) {
      if p in tip {
        TipIsGrounded(w, e, applies, ever, p);
        if applies && p in Pending(Reconciled(w, e)) {
          PendingIsLive(w, e, p);
        }
      }
      if Landing(w, e).Some? && Base(v, p) == Landing(w, e) {
        LandedCommit(w, e, p);
        if p in Carried(w, e) {
          assert LiveBlob(w.live, p).Some? ==> (p, LiveBlob(w.live, p).value) in Seen(w.live);
        } else {
          assert p in w.record.capturedPaths ==> Replaced(w, e, p) == BlobAt(tip, p);
        }
      }
    }
  }

  // ---------- over runs ----------

  datatype Step =
    | Edit(path: Path, file: Option<LiveFile>)
    | Push(tree: Tree)
    | ImportLive(withheld: set<Path>)
    | Cycle(conditions: Conditions, applies: bool)

  function After(w: World, s: Step): (v: World)
    requires Seeded(w)
    ensures w.history <= v.history
  {
    match s
    case Edit(p, file) => w.(live := if file.Some? then w.live[p := file.value] else w.live - {p})
    case Push(tree) => w.(history := w.history + [tree])
    case ImportLive(withheld) => Imported(w, withheld)
    case Cycle(e, applies) => Cycled(w, e, applies)
  }

  function Steps(w: World, ss: seq<Step>): (v: World)
    requires Seeded(w)
    ensures w.history <= v.history
  {
    if ss == [] then w else After(Steps(w, ss[..|ss| - 1]), ss[|ss| - 1])
  }

  /** An import that leaves the branch saying nothing live does not say. */
  predicate TidyImport(w: World, withheld: set<Path>)
    requires Seeded(w)
  {
    var tip := w.history[Tip(w)];
    forall p <- tip :: LiveBlob(w.live, p).Some? && (p in withheld ==> LiveBlob(w.live, p) == Some(tip[p]))
  }

  predicate TidyStep(w: World, s: Step)
    requires Seeded(w)
  {
    match s
    case Cycle(e, applies) => TidyCycle(w, e, applies)
    case ImportLive(withheld) => TidyImport(w, withheld)
    case _ => true
  }

  predicate TidyRun(w: World, ss: seq<Step>)
    requires Seeded(w)
  {
    forall i | 0 <= i < |ss| :: TidyStep(Steps(w, ss[..i]), ss[i])
  }

  lemma SameRecordGrounds(w: World, v: World, ever: set<(Path, Blob)>)
    requires Grounded(w, ever) && w.history <= v.history && v.record == w.record
    ensures Grounded(v, ever + Seen(v.live))
  {
    hide Latest, Seen;
    forall p ensures GroundedAt(v, ever + Seen(v.live), p) {
      BaseIsLatest(w, p);
      BaseIsLatest(v, p);
      assert GroundedAt(w, ever, p);
    }
  }

  lemma ImportedIsLive(w: World, withheld: set<Path>, p: Path)
    requires Seeded(w) && TidyImport(w, withheld)
    ensures
      var v := Imported(w, withheld);
      && v.live == w.live && w.history <= v.history
      && (v.record == w.record || v.record == w.record.(imported := Some(Tip(v))))
      && (v.record != w.record && p in v.history[Tip(v)] ==> (p, v.history[Tip(v)][p]) in Seen(w.live))
  {
    var v := Imported(w, withheld);
    if v.record != w.record {
      var files := set q <- w.live | w.live[q].Readable? && q !in withheld;
      assert BlobAt(v.history[Tip(v)], p) == if p in files then LiveBlob(w.live, p) else BlobAt(w.history[Tip(w)], p);
    }
  }

  lemma ImportGrounds(w: World, withheld: set<Path>, ever: set<(Path, Blob)>)
    requires Grounded(w, ever) && TidyImport(w, withheld)
    ensures Grounded(Imported(w, withheld), ever + Seen(w.live))
  {
    hide Imported, TidyImport, Seen;
    var v := Imported(w, withheld);
    ImportedIsLive(w, withheld, []);
    forall p ensures GroundedAt(v, ever + Seen(v.live), p) {
      ImportedIsLive(w, withheld, p);
      BaseIsLatest(w, p);
      BaseIsLatest(v, p);
      assert GroundedAt(w, ever, p);
      assert v.record != w.record ==> Latest(v.record, p) == Some(Tip(v)) || Latest(v.record, p) == Latest(w.record, p) by {
      }
    }
  }

  lemma CycleGroundsAll(w: World, e: Conditions, applies: bool, ever: set<(Path, Blob)>)
    requires Grounded(w, ever) && TidyCycle(w, e, applies)
    ensures var v := Cycled(w, e, applies); Grounded(v, ever + Seen(v.live))
  {
    hide Cycled, TidyCycle, GroundedAt, Seen;
    BasesExistAfter(w, e, applies);
    forall p ensures GroundedAt(Cycled(w, e, applies), ever + Seen(Cycled(w, e, applies).live), p) {
      CycleGrounds(w, e, applies, ever, p);
    }
  }

  lemma StepGrounds(w: World, s: Step, ever: set<(Path, Blob)>)
    requires Grounded(w, ever) && TidyStep(w, s)
    ensures Grounded(After(w, s), ever + Seen(After(w, s).live))
  {
    hide Seen, Cycled, TidyCycle, TidyImport;
    assert Seeded(w);
    match s {
      case Cycle(e, applies) => CycleGroundsAll(w, e, applies, ever);
      case ImportLive(withheld) =>
        ImportGrounds(w, withheld, ever);
        assert Imported(w, withheld).live == w.live;
      case _ => SameRecordGrounds(w, After(w, s), ever);
    }
  }

  /** Everything that was live at some point of the run. */
  function Ever(w: World, ss: seq<Step>): set<(Path, Blob)>
    requires Seeded(w)
  {
    (if ss == [] then {} else Ever(w, ss[..|ss| - 1])) + Seen(Steps(w, ss).live)
  }

  predicate WasLive(w: World, ss: seq<Step>, i: nat, p: Path, b: Blob)
    requires Seeded(w)
  {
    i <= |ss| && LiveBlob(Steps(w, ss[..i]).live, p) == Some(b)
  }

  lemma {:induction false} EverWasLive(w: World, ss: seq<Step>, p: Path, b: Blob)
    requires Seeded(w) && (p, b) in Ever(w, ss)
    ensures exists i: nat :: WasLive(w, ss, i, p, b)
  {
    if (p, b) in Seen(Steps(w, ss).live) {
      assert ss[..|ss|] == ss;
      assert WasLive(w, ss, |ss|, p, b);
    } else {
      EverWasLive(w, ss[..|ss| - 1], p, b);
      var i: nat :| WasLive(w, ss[..|ss| - 1], i, p, b);
      assert ss[..|ss| - 1][..i] == ss[..i];
      assert WasLive(w, ss, i, p, b);
    }
  }

  lemma TidyBefore(w: World, ss: seq<Step>)
    requires Seeded(w) && ss != [] && TidyRun(w, ss)
    ensures TidyRun(w, ss[..|ss| - 1]) && TidyStep(Steps(w, ss[..|ss| - 1]), ss[|ss| - 1])
  {
    hide Steps, TidyStep;
    assert forall i | 0 <= i < |ss| - 1 :: ss[..|ss| - 1][..i] == ss[..i];
  }

  /** An agent that has never applied, imported or captured. */
  predicate Fresh(w: World) {
    Seeded(w) && w.record.good == w.record.imported == w.record.captured == None
  }

  lemma {:induction false} TidyRunGrounds(w: World, ss: seq<Step>)
    requires Fresh(w) && TidyRun(w, ss)
    ensures Grounded(Steps(w, ss), Ever(w, ss))
  {
    hide TidyRun, TidyStep, After, Seen;
    if ss == [] {
      assert Grounded(w, {} + Seen(w.live));
    } else {
      TidyBefore(w, ss);
      TidyRunGrounds(w, ss[..|ss| - 1]);
      StepGrounds(Steps(w, ss[..|ss| - 1]), ss[|ss| - 1], Ever(w, ss[..|ss| - 1]));
    }
  }

  lemma CarriedIsGrounded(w: World, e: Conditions, p: Path, ever: set<(Path, Blob)>)
    requires Grounded(w, ever) && p in Carried(w, e)
    ensures Replaced(w, e, p).Some? && (p, Replaced(w, e, p).value) in ever
  {
    hide Reconciled, BaseBlob, Replaced, Carried, Seen;
    assert Seeded(w);
    CaptureReplacesOnlyTheBase(w, e, p);
    assert GroundedAt(w, ever, p);
  }

  /** Over every tidy run, whatever a capture replaces on the branch is content
      that was live at that path at some point before: a push the live config
      never took over is never reverted. */
  lemma CapturesReplaceWhatWasLive(w: World, ss: seq<Step>, e: Conditions, p: Path)
    requires Fresh(w) && TidyRun(w, ss) && p in Carried(Steps(w, ss), e)
    ensures Replaced(Steps(w, ss), e, p).Some?
    ensures exists i: nat :: WasLive(w, ss, i, p, Replaced(Steps(w, ss), e, p).value)
  {
    hide Steps, WasLive, Carried, Replaced, Grounded, Ever, TidyRun;
    TidyRunGrounds(w, ss);
    CarriedIsGrounded(Steps(w, ss), e, p, Ever(w, ss));
    EverWasLive(w, ss, p, Replaced(Steps(w, ss), e, p).value);
  }
}
