/** One cycle of two-way sync: diff the fetched tip against the live config,
    capture what only changed live, and apply the rest. */
module SyncCycle {
  import opened Wrappers
  import opened ConfigTree
  import opened Differ
  import opened Classifier
  import opened CaptureProtocol

  /** The changes still to be applied, and the commit they were planned from. */
  datatype Plan = Plan(tip: nat, changes: map<Path, Kind>)

  datatype World = World(history: History, live: Live, record: Record, plan: Option<Plan>)

  /** What one cycle finds: whether capturing is on, what fails while it looks,
      which live files may not travel to git, and what others push. */
  datatype Conditions = Conditions(capturing: bool, trouble: Trouble, withheld: set<Path>, race: Race)

  predicate Seeded(w: World) {
    w.history != []
  }

  function Tip(w: World): nat
    requires Seeded(w)
  {
    |w.history| - 1
  }

  /** What drifts when a cycle starts. */
  function Drifting(w: World): map<Path, Kind>
    requires Seeded(w)
  {
    Drift(w.history[Tip(w)], w.live, w.record.manifest)
  }

  function RouteAt(w: World, t: Trouble, p: Path): Verdict
    requires Seeded(w) && p in Drifting(w)
  {
    RouteOf(w.history, Tip(w), w.live, w.record, t, Change(p, Drifting(w)[p]))
  }

  function Sent(w: World, t: Trouble, v: Verdict): set<Path>
    requires Seeded(w)
  {
    set p <- Drifting(w) | RouteAt(w, t, p) == v
  }

  /** The capture of a cycle: the history it leaves and what it reports. */
  function Capturing(w: World, e: Conditions): Outcome
    requires Seeded(w)
  {
    Captured(
      w.history, Tip(w), Sent(w, e.trouble, Capture) + Sent(w, e.trouble, CaptureDelete), w.live, e.withheld, e.race)
  }

  /** A landed commit becomes the base of every path captured so far; the
      conflicts are those of this cycle. */
  function AfterCapture(r: Record, result: Result, conflicts: set<Path>): Record {
    if result.commit.Some? then
      r.(captured := result.commit, capturedPaths := r.capturedPaths + result.paths, conflicted := conflicts)
    else r.(conflicted := conflicts)
  }

  function Restricted(drift: map<Path, Kind>, ps: set<Path>): map<Path, Kind> {
    map p | p in drift && p in ps :: drift[p]
  }

  function Reconciled(w: World, e: Conditions): World
    requires Seeded(w)
  {
    if !e.capturing || Drifting(w) == map[] then
      w.(record := w.record.(conflicted := {}), plan := Some(Plan(Tip(w), Drifting(w))))
    else
      var out := Capturing(w, e);
      World(
        out.history, w.live,
        AfterCapture(w.record, out.result, Sent(w, e.trouble, Conflict)),
        Some(Plan(Tip(w), Restricted(Drifting(w), Sent(w, e.trouble, Apply)))))
  }

  // ---------- applying ----------

  /** What an apply acts on: the plan, less what is in conflict by now. */
  function Pending(w: World): map<Path, Kind>
    requires w.plan.Some?
  {
    w.plan.value.changes - w.record.conflicted
  }

  /** The live config with some paths as a commit has them. */
  function WithTree(live: Live, tree: Tree, paths: set<Path>): (result: Live)
    ensures forall p :: p in paths ==> (p in result <==> p in tree) && (p in tree ==> result[p] == Readable(tree[p]))
    ensures forall p :: p !in paths ==> (p in result <==> p in live) && (p in live ==> result[p] == live[p])
  {
    map p | p in live.Keys + tree.Keys && (if p in paths then p in tree else p in live) ::
      if p in paths then Readable(tree[p]) else live[p]
  }

  function DropCaptured(r: Record, applied: set<Path>): Record {
    if r.captured.None? || r.capturedPaths == {} then r
    else
      var kept := r.capturedPaths - applied;
      r.(capturedPaths := kept, captured := if kept == {} then None else r.captured)
  }

  /** The paths of a plan that are written, and those that are removed. */
  function Put(pending: map<Path, Kind>, written: set<Path>): set<Path> {
    set p <- pending | p in written && pending[p] != Delete
  }

  function Removed(pending: map<Path, Kind>, written: set<Path>): set<Path> {
    set p <- pending | p in written && pending[p] == Delete
  }

  function AfterApply(r: Record, tip: nat, pending: map<Path, Kind>, written: set<Path>): Record {
    DropCaptured(
      r.(good := Some(tip), manifest := r.manifest + Put(pending, written) - Removed(pending, written)),
      pending.Keys)
  }

  /** An apply that touched the paths of `written`; `ok` tells whether it
      succeeded, and one that did not leaves the record and the plan alone. */
  function Applied(w: World, written: set<Path>, ok: bool): World
    requires w.plan.Some?
  {
    var tip := w.plan.value.tip;
    var pending := Pending(w);
    var live := WithTree(w.live, TreeAt(w.history, tip), written * pending.Keys);
    if !ok then w.(live := live)
    else w.(live := live, record := AfterApply(w.record, tip, pending, written), plan := Some(Plan(tip, map[])))
  }

  /** The live config copied over the branch: every readable file that may
      travel, nothing removed. */
  function Imported(w: World, withheld: set<Path>): World
    requires Seeded(w)
  {
    var files := set p <- w.live | w.live[p].Readable? && p !in withheld;
    var commit := WithLive(w.history[Tip(w)], w.live, files);
    if commit == w.history[Tip(w)] then w
    else w.(history := w.history + [commit], record := w.record.(imported := Some(Tip(w) + 1)))
  }

  // ---------- lists of changes ----------

  lemma {:induction false} OnePerPathStays(changes: seq<Change>, keep: Change -> bool)
    requires OnePerPath(changes)
    ensures OnePerPath(Sublist(changes, keep))
  {
    if changes != [] {
      var last := |changes| - 1;
      OnePerPathStays(changes[..last], keep);
      SublistHolds(changes[..last], keep);
      var sub := Sublist(changes[..last], keep);
      forall i | 0 <= i < |sub| ensures sub[i].path != changes[last].path {
        assert sub[i] in sub;
      }
    }
  }

  lemma ListedChanges(changes: seq<Change>, drift: map<Path, Kind>, c: Change)
    requires Lists(changes, drift)
    ensures c in changes <==> c.path in drift && drift[c.path] == c.kind
  {
    if c.path in drift && drift[c.path] == c.kind {
      assert Change(c.path, drift[c.path]) in changes;
    }
  }

  lemma KeptChanges(
      kept: seq<Change>, changes: seq<Change>, drift: map<Path, Kind>, ps: set<Path>)
    requires Lists(changes, drift) && OnePerPath(kept)
    requires forall c :: c in kept <==> c in changes && c.path in ps
    ensures Lists(kept, Restricted(drift, ps))
    ensures ps <= drift.Keys ==> Paths(kept) == ps
  {
    var some := Restricted(drift, ps);
    forall i | 0 <= i < |kept| ensures kept[i].path in some && some[kept[i].path] == kept[i].kind {
      assert kept[i] in kept;
      ListedChanges(changes, drift, kept[i]);
    }
    forall p <- some ensures Change(p, some[p]) in kept {
      ListedChanges(changes, drift, Change(p, drift[p]));
    }
    assert forall p <- some :: p in Paths(kept);
  }

  lemma ToOrNot(w: World, t: Trouble, changes: seq<Change>, c: Change)
    requires Seeded(w) && Lists(changes, Drifting(w)) && c in changes
    ensures c.path in Drifting(w)
    ensures Router(w.history, Tip(w), w.live, w.record, t)(c) == RouteAt(w, t, c.path)
  {
    ListedChanges(changes, Drifting(w), c);
  }

  /** The routed lists, as the sets of paths the cycle speaks of. */
  lemma RoutingSends(w: World, t: Trouble, changes: seq<Change>, routing: Routing)
    requires Seeded(w) && Lists(changes, Drifting(w))
    requires SharedOut(routing, changes, Router(w.history, Tip(w), w.live, w.record, t))
    ensures Lists(routing.apply, Restricted(Drifting(w), Sent(w, t, Apply)))
    ensures Paths(routing.capture) == Sent(w, t, Capture) + Sent(w, t, CaptureDelete)
    ensures Paths(routing.conflicts) == Sent(w, t, Conflict)
  {
    hide RouteOf, Drifting, Paths;
    var to := Router(w.history, Tip(w), w.live, w.record, t);
    RoutedPaths(routing, changes, to);
    assert OnePerPath(changes);
    assert OnePerPath(routing.apply) && OnePerPath(routing.capture) && OnePerPath(routing.conflicts) by {
      OnePerPathStays(changes, c => to(c) == Apply);
      OnePerPathStays(changes, c => IsCapture(to(c)));
      OnePerPathStays(changes, c => to(c) == Conflict);
    }
    forall c | c in changes ensures c.path in Drifting(w) && to(c) == RouteAt(w, t, c.path) {
      ToOrNot(w, t, changes, c);
    }
    KeptChanges(routing.apply, changes, Drifting(w), Sent(w, t, Apply));
    KeptChanges(routing.capture, changes, Drifting(w), Sent(w, t, Capture) + Sent(w, t, CaptureDelete));
    KeptChanges(routing.conflicts, changes, Drifting(w), Sent(w, t, Conflict));
  }

  ghost function AsMap(changes: seq<Change>): map<Path, Kind> {
    map p | p in Paths(changes) :: KindIn(changes, p)
  }

  ghost function KindIn(changes: seq<Change>, p: Path): Kind
    requires p in Paths(changes)
  {
    var c :| c in changes && c.path == p;
    c.kind
  }

  lemma ListsAsMap(changes: seq<Change>, drift: map<Path, Kind>)
    requires Lists(changes, drift)
    ensures AsMap(changes) == drift
  {
    forall p <- drift ensures p in AsMap(changes) && AsMap(changes)[p] == drift[p] {
      assert Change(p, drift[p]) in changes;
    }
  }

  lemma ListsNothing(changes: seq<Change>, drift: map<Path, Kind>)
    requires Lists(changes, drift)
    ensures changes == [] <==> drift == map[]
  {
    if changes == [] {
      assert forall p :: p !in drift;
      assert drift == map[];
    } else {
      assert changes[0].path in drift;
    }
  }

  lemma NothingAsMap()
    ensures AsMap([]) == map[]
  {
  }

  lemma CaptureOfNothing(h: History, classified: nat, files: set<Path>, live: Live, withheld: set<Path>, race: Race)
    requires classified < |h| && files == {}
    ensures Captured(h, classified, files, live, withheld, race) == Outcome(h, FAILED)
  {
  }

  lemma ListsItself(changes: seq<Change>)
    requires OnePerPath(changes)
    ensures Lists(changes, AsMap(changes))
  {
    forall i | 0 <= i < |changes| ensures
        changes[i].path in AsMap(changes) && AsMap(changes)[changes[i].path] == changes[i].kind {
      assert changes[i] in changes;
    }
  }

  function NotAmong(refused: set<Path>): Change -> bool {
    (c: Change) => c.path !in refused
  }

  lemma KeptLists(changes: seq<Change>, refused: set<Path>)
    requires OnePerPath(changes)
    ensures Lists(Sublist(changes, NotAmong(refused)), AsMap(changes) - refused)
  {
    hide AsMap;
    var kept := Sublist(changes, NotAmong(refused));
    OnePerPathStays(changes, NotAmong(refused));
    SublistHolds(changes, NotAmong(refused));
    ListsItself(changes);
    var drift := AsMap(changes) - refused;
    forall i | 0 <= i < |kept| ensures kept[i].path in drift && drift[kept[i].path] == kept[i].kind {
      assert kept[i] in kept;
    }
  }

  function PutIn(changes: seq<Change>, written: set<Path>): set<Path> {
    set c <- changes | c.path in written && c.kind != Delete :: c.path
  }

  function RemovedIn(changes: seq<Change>, written: set<Path>): set<Path> {
    set c <- changes | c.path in written && c.kind == Delete :: c.path
  }

  lemma ListsPut(changes: seq<Change>, drift: map<Path, Kind>, written: set<Path>)
    requires Lists(changes, drift)
    ensures PutIn(changes, written) == Put(drift, written) && RemovedIn(changes, written) == Removed(drift, written)
    ensures Paths(changes) == drift.Keys
  {
    assert forall c | c in changes :: c.path in drift && drift[c.path] == c.kind;
    assert forall p <- drift :: Change(p, drift[p]) in changes;
  }

  lemma OneMorePut(changes: seq<Change>, i: nat, written: set<Path>, owned: set<Path>)
    requires i < |changes| && OnePerPath(changes)
    ensures
      var before := owned + PutIn(changes[..i], written) - RemovedIn(changes[..i], written);
      var after := owned + PutIn(changes[..i + 1], written) - RemovedIn(changes[..i + 1], written);
      after == if changes[i].path !in written then before
               else if changes[i].kind == Delete then before - {changes[i].path}
               else before + {changes[i].path}
  {
    var c := changes[i];
    assert changes[..i + 1] == changes[..i] + [c];
    assert PutIn(changes[..i + 1], written) ==
           PutIn(changes[..i], written) + if c.path in written && c.kind != Delete then {c.path} else {};
    assert RemovedIn(changes[..i + 1], written) ==
           RemovedIn(changes[..i], written) + if c.path in written && c.kind == Delete then {c.path} else {};
    assert forall d | d in changes[..i] :: d.path != c.path;
  }

  function PathList(changes: seq<Change>): (paths: seq<Path>)
    ensures AsSet(paths) == Paths(changes)
  {
    var paths := seq(|changes|, i requires 0 <= i < |changes| => changes[i].path);
    assert forall i | 0 <= i < |changes| :: paths[i] in paths && changes[i] in changes;
    assert forall p <- AsSet(paths) :: p in Paths(changes);
    paths
  }

  // ---------- the agent ----------

  class Agent {
    const remote: Remote
    var live: Live
    var record: Record
    var pending: seq<Change>
    var sha: Option<nat>

    constructor (remote: Remote, live: Live, record: Record)
      requires remote.history != []
      ensures this.remote == remote && Valid()
      ensures State() == World(remote.history, live, record, None)
    {
      this.remote, this.live, this.record, this.pending, this.sha := remote, live, record, [], None;
    }

    ghost predicate Valid()
      reads this, remote
    {
      remote.history != [] && OnePerPath(pending)
    }

    ghost function State(): World
      reads this, remote
    {
      World(remote.history, live, record, if sha.None? then None else Some(Plan(sha.value, AsMap(pending))))
    }

    /** The capture phase: what it returns is all an apply may act on. */
    method CaptureLiveChanges(tip: nat, changes: seq<Change>, e: Conditions) returns (apply: seq<Change>)
      requires Valid() && tip == Tip(State()) && Lists(changes, Drifting(State()))
      modifies this`record, remote
      ensures
        var after := Reconciled(old(State()), e);
        remote.history == after.history && record == after.record && Lists(apply, after.plan.value.changes)
    {
      hide Drift, SharedOut, Captured, Lists;
      ListsNothing(changes, Drifting(State()));
      if !e.capturing || changes == [] {
        record := record.(conflicted := {});
        return changes;
      }
      var routing := ClassifyChanges(remote.history, tip, live, record, e.trouble, changes);
      RoutingSends(State(), e.trouble, changes, routing);
      ghost var files := Sent(State(), e.trouble, Capture) + Sent(State(), e.trouble, CaptureDelete);
      assert routing.capture == [] <==> files == {} by {
        assert routing.capture != [] ==> routing.capture[0].path in Paths(routing.capture);
      }
      if files == {} {
        CaptureOfNothing(remote.history, tip, files, live, e.withheld, e.race);
      }
      var next := record;
      if routing.capture != [] {
        var result := CaptureFiles(remote, PathList(routing.capture), live, e.withheld, tip, e.race);
        if result.commit.Some? {
          next := next.(captured := result.commit, capturedPaths := next.capturedPaths + result.paths);
        }
      }
      next := next.(conflicted := Paths(routing.conflicts));
      record := next;
      apply := routing.apply;
    }

    /** A check: fetch, diff, capture, and publish the plan. `tracked` and
        `owned` list the tip's paths and the manifest. */
    method Reconcile(tracked: seq<Path>, owned: seq<Path>, e: Conditions)
      requires Valid()
      requires Distinct(tracked) && Among(tracked, |tracked|) == State().history[Tip(State())].Keys
      requires Distinct(owned) && Among(owned, |owned|) == record.manifest
      modifies this`record, this`pending, this`sha, remote
      ensures Valid() && State() == Reconciled(old(State()), e)
    {
      hide Drift, Captured, Among, Distinct, DeletesLast, AsMap;
      var tip := |remote.history| - 1;
      var changes := Compute(remote.history[tip], live, tracked, owned);
      var apply := CaptureLiveChanges(tip, changes, e);
      pending, sha := apply, Some(tip);
      ListsAsMap(apply, Reconciled(old(State()), e).plan.value.changes);
      assert old(remote.history) <= remote.history;
      assert OnePerPath(pending);
    }

    /** Takes out of the plan what is in conflict. */
    method DropConflicted(changes: seq<Change>, conflicted: set<Path>) returns (kept: seq<Change>)
      requires OnePerPath(changes)
      ensures Lists(kept, AsMap(changes) - conflicted)
    {
      kept := [];
      for i := 0 to |changes|
        invariant kept == Sublist(changes[..i], NotAmong(conflicted))
      {
        assert changes[..i + 1][..i] == changes[..i];
        if changes[i].path !in conflicted {
          kept := kept + [changes[i]];
        }
      }
      assert changes[..|changes|] == changes;
      KeptLists(changes, conflicted);
    }

    /** Executes the plan. The applier touched the paths of `written`, and says
        whether all went well. */
    method ApplyNow(written: set<Path>, ok: bool)
      requires Valid() && sha.Some?
      modifies this`live, this`record, this`pending
      ensures Valid() && State() == Applied(old(State()), written, ok)
    {
      hide DropCaptured, AsMap, Put, Removed;
      var tip := sha.value;
      var plan := DropConflicted(pending, record.conflicted);
      ghost var drift := Pending(State());
      ListsPut(plan, drift, written);
      live := WithTree(live, TreeAt(remote.history, tip), written * Paths(plan));
      if !ok {
        return;
      }
      var manifest := record.manifest;
      assert PutIn(plan[..0], written) == RemovedIn(plan[..0], written) == {};
      for i := 0 to |plan|
        modifies {}
        invariant manifest == record.manifest + PutIn(plan[..i], written) - RemovedIn(plan[..i], written)
      {
        OneMorePut(plan, i, written, record.manifest);
        if plan[i].path in written {
          if plan[i].kind == Delete {
            manifest := manifest - {plan[i].path};
          } else {
            manifest := manifest + {plan[i].path};
          }
        }
      }
      assert plan[..|plan|] == plan;
      record := DropCaptured(record.(good := Some(tip), manifest := manifest), Paths(plan));
      pending := [];
      NothingAsMap();
    }
  }
}
