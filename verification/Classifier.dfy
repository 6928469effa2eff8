/** Which side moved: the three-way decision about each drifting path when live
    changes are captured. The tracked branch is the sequence of its successive
    tips, so commit i descends from commit j exactly when j <= i. */
module Classifier {
  import opened Wrappers
  import opened ConfigTree
  import opened Differ

  type History = seq<Tree>

  // ---------- the decision table ----------

  datatype Verdict = Apply | Capture | CaptureDelete | Conflict | Defer

  datatype Facts = Facts(
    kind: Kind,
    baseKnown: bool,
    baseTracks: bool,
    repoMoved: bool,
    liveIsBase: bool,
    liveGone: bool,
    agentWroteIt: bool)

  function Classify(f: Facts): Verdict {
    if !f.baseKnown then Apply
    else match f.kind {
      case Delete => if f.liveIsBase then Apply else Conflict
      case Add =>
        if !f.liveGone then Defer
        else if !f.baseTracks then Apply
        else if !f.agentWroteIt then Apply
        else if f.repoMoved then Conflict
        else CaptureDelete
      case _ =>
        if !f.baseTracks then Conflict
        else if f.repoMoved && f.liveIsBase then Apply
        else if !f.repoMoved && !f.liveIsBase then Capture
        else if f.repoMoved && !f.liveIsBase then Conflict
        else Defer
    }
  }

  /** The facts as they are read off one commit, the tip and the live config. */
  function FactsAt(base: Option<Blob>, tip: Option<Blob>, live: Live, owned: bool, c: Change): Facts {
    Facts(
      c.kind,
      true,
      base.Some?,
      base != tip,
      base.Some? && LiveBlob(live, c.path) == base,
      IsGone(live, c.path),
      owned)
  }

  /** A merge as anyone would describe it: the side that left the base wins,
      and nobody wins when both did. Two outcomes are not the plain merge: a
      file the branch never put live is not one the user deleted, and a live
      file the branch dropped is never pushed back. */
  function Merge(base: Option<Blob>, tip: Option<Blob>, live: Option<Blob>, owned: bool): Verdict {
    if live == base then Apply
    else if live == None && !owned then Apply
    else if base != tip || tip == None then Conflict
    else if live == None then CaptureDelete
    else Capture
  }

  /** The decision table is that merge, for everything the differ reports, and
      it waits exactly when the live file cannot be read. */
  lemma ClassifyIsMerge(
      base: Option<Blob>, tip: Tree, live: Live, manifest: set<Path>, p: Path)
    requires KindAt(tip, live, manifest, p).Some?
    ensures
      var c := Change(p, KindAt(tip, live, manifest, p).value);
      Classify(FactsAt(base, BlobAt(tip, p), live, p in manifest, c)) ==
      if p in live && live[p].Unstatable? then Defer
      else Merge(base, BlobAt(tip, p), LiveBlob(live, p), p in manifest)
  {
  }

  // ---------- the bases ----------

  /** What the agent remembers between cycles: the commits at which the branch
      and the live config were known to agree, and the paths it owns. */
  datatype Record = Record(
    good: Option<nat>,
    imported: Option<nat>,
    captured: Option<nat>,
    capturedPaths: set<Path>,
    conflicted: set<Path>,
    manifest: set<Path>)

  datatype Bases = Bases(capture: Option<nat>, captured: set<Path>, fallback: Option<nat>) {
    function ForPath(p: Path): Option<nat> {
      if capture.Some? && p in captured then capture else fallback
    }
  }

  predicate Usable(commit: Option<nat>, tip: nat) {
    commit.Some? && commit.value <= tip
  }

  /** The fallback is the latest commit the two sides agreed at, of those the
      tip descends from. */
  function ResolveBases(r: Record, tip: nat): (bases: Bases)
    ensures bases.fallback.Some? <==> Usable(r.good, tip) || Usable(r.imported, tip)
    ensures bases.fallback.Some? ==> bases.fallback in {r.good, r.imported} && bases.fallback.value <= tip
    ensures forall b | b in {r.good, r.imported} && Usable(b, tip) :: b.value <= bases.fallback.value
    ensures bases.capture.Some? <==> r.capturedPaths != {} && Usable(r.captured, tip)
    ensures bases.capture.Some? ==> bases.capture == r.captured
    ensures bases.captured == if bases.capture.Some? then r.capturedPaths else {}
  {
    var capturing := r.capturedPaths != {} && Usable(r.captured, tip);
    Bases(
      if capturing then r.captured else None,
      if capturing then r.capturedPaths else {},
      if Usable(r.good, tip) && Usable(r.imported, tip) then
        if r.good.value <= r.imported.value then r.imported else r.good
      else if Usable(r.good, tip) then r.good
      else if Usable(r.imported, tip) then r.imported
      else None)
  }

  // ---------- routing ----------

  /** What can go wrong while a cycle looks at its changes: comparisons of a
      base with the tip that fail, live files too large to compare, and paths
      whose base cannot be read. */
  datatype Trouble = Trouble(failing: set<nat>, tooLarge: set<Path>, unreadable: set<Path>)

  function ChangedPaths(a: Tree, b: Tree): (moved: set<Path>)
    ensures forall p :: p in moved <==> BlobAt(a, p) != BlobAt(b, p)
  {
    set p | p in a.Keys + b.Keys && BlobAt(a, p) != BlobAt(b, p)
  }

  predicate CannotCompare(base: Option<nat>, tip: nat, t: Trouble) {
    base.Some? && base.value != tip && base.value in t.failing
  }

  predicate Incomparable(bases: Bases, tip: nat, t: Trouble) {
    CannotCompare(bases.capture, tip, t) || CannotCompare(bases.fallback, tip, t)
  }

  /** A commit's tree; one the clone does not hold tracks nothing. */
  function TreeAt(h: History, commit: nat): Tree {
    if commit < |h| then h[commit] else map[]
  }

  /** The verdict on one change against its own base. */
  function VerdictAt(h: History, base: Option<nat>, tip: nat, live: Live, manifest: set<Path>, t: Trouble, c: Change): Verdict {
    if base.None? then Apply
    else if LiveBlob(live, c.path).Some? && c.path in t.tooLarge then Defer
    else if c.path in t.unreadable then Conflict
    else
      var blob := BlobAt(TreeAt(h, base.value), c.path);
      if blob.Some? && blob.value.sops then Apply
      else Classify(FactsAt(blob, BlobAt(TreeAt(h, tip), c.path), live, c.path in manifest, c))
  }

  /** Where one change of a cycle goes. A standing conflict stays one. */
  function RouteOf(h: History, tip: nat, live: Live, r: Record, t: Trouble, c: Change): Verdict {
    var bases := ResolveBases(r, tip);
    if c.path in r.conflicted then Conflict
    else if Incomparable(bases, tip, t) then Apply
    else VerdictAt(h, bases.ForPath(c.path), tip, live, r.manifest, t, c)
  }

  predicate IsCapture(v: Verdict) {
    v == Capture || v == CaptureDelete
  }

  datatype Routing = Routing(apply: seq<Change>, capture: seq<Change>, conflicts: seq<Change>, deferred: seq<Change>)

  function Sublist(changes: seq<Change>, keep: Change -> bool): seq<Change> {
    if changes == [] then []
    else
      var last := |changes| - 1;
      Sublist(changes[..last], keep) + if keep(changes[last]) then [changes[last]] else []
  }

  /** The four lists share the changes out, each in the order of the plan. */
  predicate SharedOut(routing: Routing, changes: seq<Change>, to: Change -> Verdict) {
    && routing.apply == Sublist(changes, c => to(c) == Apply)
    && routing.capture == Sublist(changes, c => IsCapture(to(c)))
    && routing.conflicts == Sublist(changes, c => to(c) == Conflict)
    && routing.deferred == Sublist(changes, c => to(c) == Defer)
  }

  function WithOne(routing: Routing, c: Change, v: Verdict): Routing {
    match v
    case Apply => routing.(apply := routing.apply + [c])
    case Capture => routing.(capture := routing.capture + [c])
    case CaptureDelete => routing.(capture := routing.capture + [c])
    case Conflict => routing.(conflicts := routing.conflicts + [c])
    case Defer => routing.(deferred := routing.deferred + [c])
  }

  lemma SharedOutOneMore(routing: Routing, changes: seq<Change>, i: nat, to: Change -> Verdict)
    requires i < |changes| && SharedOut(routing, changes[..i], to)
    ensures SharedOut(WithOne(routing, changes[i], to(changes[i])), changes[..i + 1], to)
  {
    assert changes[..i + 1][..i] == changes[..i];
  }

  function UnlessStanding(conflicted: set<Path>): Change -> Verdict {
    (c: Change) => if c.path in conflicted then Conflict else Apply
  }

  function Router(h: History, tip: nat, live: Live, r: Record, t: Trouble): Change -> Verdict {
    (c: Change) => RouteOf(h, tip, live, r, t, c)
  }

  /** Apply-only, except for what is already in conflict. */
  method ApplyOnly(changes: seq<Change>, conflicted: set<Path>) returns (routing: Routing)
    ensures SharedOut(routing, changes, UnlessStanding(conflicted))
  {
    routing := Routing([], [], [], []);
    assert SharedOut(routing, [], UnlessStanding(conflicted));
    for i := 0 to |changes|
      invariant SharedOut(routing, changes[..i], UnlessStanding(conflicted))
    {
      SharedOutOneMore(routing, changes, i, UnlessStanding(conflicted));
      if changes[i].path in conflicted {
        routing := routing.(conflicts := routing.conflicts + [changes[i]]);
      } else {
        routing := routing.(apply := routing.apply + [changes[i]]);
      }
    }
    assert changes[..|changes|] == changes;
  }

  lemma SameRoutes(routing: Routing, changes: seq<Change>, to: Change -> Verdict, also: Change -> Verdict)
    requires SharedOut(routing, changes, to) && forall c | c in changes :: to(c) == also(c)
    ensures SharedOut(routing, changes, also)
  {
    SameSublist(changes, c => to(c) == Apply, c => also(c) == Apply);
    SameSublist(changes, c => IsCapture(to(c)), c => IsCapture(also(c)));
    SameSublist(changes, c => to(c) == Conflict, c => also(c) == Conflict);
    SameSublist(changes, c => to(c) == Defer, c => also(c) == Defer);
  }

  lemma {:induction false} SameSublist(changes: seq<Change>, keep: Change -> bool, also: Change -> bool)
    requires forall c | c in changes :: keep(c) == also(c)
    ensures Sublist(changes, keep) == Sublist(changes, also)
  {
    if changes != [] {
      SameSublist(changes[..|changes| - 1], keep, also);
    }
  }

  /** The paths a base has to answer for, gathered once per base rather than
      once per path; the first comparison that fails ends it. */
  method MovedByBase(h: History, tip: nat, bases: Bases, t: Trouble) returns (ok: bool, moved: map<nat, set<Path>>)
    requires bases.capture.Some? ==> bases.capture.value <= tip
    requires bases.fallback.Some? ==> bases.fallback.value <= tip
    ensures ok <==> !Incomparable(bases, tip, t)
    ensures ok ==>
              forall base | base in {bases.capture, bases.fallback} && base.Some? ::
                base.value in moved && moved[base.value] == ChangedPaths(TreeAt(h, base.value), TreeAt(h, tip))
  {
    moved := map[];
    var candidates := [bases.capture, bases.fallback];
    for i := 0 to |candidates|
      invariant forall k | 0 <= k < i && candidates[k].Some? :: candidates[k].value in moved
      invariant forall k | 0 <= k < i :: !CannotCompare(candidates[k], tip, t)
      invariant forall b <- moved :: b == tip || b !in t.failing
      invariant forall b <- moved :: moved[b] == ChangedPaths(TreeAt(h, b), TreeAt(h, tip))
    {
      if candidates[i].Some? && candidates[i].value !in moved {
        var base := candidates[i].value;
        if base == tip {
          moved := moved[base := {}];
        } else if base in t.failing {
          assert CannotCompare(candidates[i], tip, t);
          return false, moved;
        } else {
          moved := moved[base := ChangedPaths(TreeAt(h, base), TreeAt(h, tip))];
        }
      }
    }
    assert !CannotCompare(candidates[0], tip, t) && !CannotCompare(candidates[1], tip, t);
    ok := true;
  }

  /** One drifting path: a standing conflict, a live file that is too large, a
      base that cannot be read, or the decision on the facts. */
  method RouteOne(
      h: History, tip: nat, live: Live, r: Record, t: Trouble, bases: Bases, moved: map<nat, set<Path>>, c: Change)
    returns (v: Verdict)
    requires bases == ResolveBases(r, tip) && !Incomparable(bases, tip, t)
    requires forall base | base in {bases.capture, bases.fallback} && base.Some? ::
               base.value in moved && moved[base.value] == ChangedPaths(TreeAt(h, base.value), TreeAt(h, tip))
    ensures v == RouteOf(h, tip, live, r, t, c)
  {
    hide ResolveBases;
    if c.path in r.conflicted {
      return Conflict;
    }
    var base := bases.ForPath(c.path);
    if base.None? {
      var none := Facts(c.kind, false, false, false, false, false, c.path in r.manifest);
      assert Classify(none) == Apply;
      return Classify(none);
    }
    if LiveBlob(live, c.path).Some? && c.path in t.tooLarge {
      return Defer;
    }
    if c.path in t.unreadable {
      return Conflict;
    }
    var blob := BlobAt(TreeAt(h, base.value), c.path);
    var f := Facts(
      c.kind, true, blob.Some?, c.path in moved[base.value],
      blob.Some? && LiveBlob(live, c.path) == blob, IsGone(live, c.path), c.path in r.manifest);
    if blob.Some? && blob.value.sops {
      f := f.(baseKnown := false);
      assert Classify(f) == Apply;
    }
    v := Classify(f);
  }

  /** Routes every drifting path, one after the other. */
  method ClassifyChanges(h: History, tip: nat, live: Live, r: Record, t: Trouble, changes: seq<Change>)
    returns (routing: Routing)
    ensures SharedOut(routing, changes, Router(h, tip, live, r, t))
  {
    hide ResolveBases, Classify;
    var bases := ResolveBases(r, tip);
    var ok, moved := MovedByBase(h, tip, bases, t);
    if !ok {
      routing := ApplyOnly(changes, r.conflicted);
      SameRoutes(routing, changes, UnlessStanding(r.conflicted), Router(h, tip, live, r, t));
      return;
    }
    hide RouteOf, Incomparable;
    routing := Routing([], [], [], []);
    assert SharedOut(routing, [], Router(h, tip, live, r, t));
    for i := 0 to |changes|
      invariant SharedOut(routing, changes[..i], Router(h, tip, live, r, t))
    {
      SharedOutOneMore(routing, changes, i, Router(h, tip, live, r, t));
      var v := RouteOne(h, tip, live, r, t, bases, moved, changes[i]);
      match v {
        case Capture | CaptureDelete => routing := routing.(capture := routing.capture + [changes[i]]);
        case Conflict => routing := routing.(conflicts := routing.conflicts + [changes[i]]);
        case Defer => routing := routing.(deferred := routing.deferred + [changes[i]]);
        case _ => routing := routing.(apply := routing.apply + [changes[i]]);
      }
    }
    assert changes[..|changes|] == changes;
  }

  /** What the four lists hold, path by path. */
  lemma RoutedPaths(routing: Routing, changes: seq<Change>, to: Change -> Verdict)
    requires SharedOut(routing, changes, to)
    ensures forall c :: c in routing.apply <==> c in changes && to(c) == Apply
    ensures forall c :: c in routing.capture <==> c in changes && IsCapture(to(c))
    ensures forall c :: c in routing.conflicts <==> c in changes && to(c) == Conflict
    ensures forall c :: c in routing.deferred <==> c in changes && to(c) == Defer
  {
    SublistHolds(changes, c => to(c) == Apply);
    SublistHolds(changes, c => IsCapture(to(c)));
    SublistHolds(changes, c => to(c) == Conflict);
    SublistHolds(changes, c => to(c) == Defer);
  }

  lemma {:induction false} SublistHolds(changes: seq<Change>, keep: Change -> bool)
    ensures forall c :: c in Sublist(changes, keep) <==> c in changes && keep(c)
  {
    if changes != [] {
      var last := |changes| - 1;
      SublistHolds(changes[..last], keep);
      assert changes == changes[..last] + [changes[last]];
    }
  }
}
