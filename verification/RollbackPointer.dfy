/** The stash directories applies leave behind, the one Roll Back would use, and
    what is pruned. */
module RollbackPointer {
  import opened Wrappers

  /** Stash directories are named by time, so a later one is a larger number. */
  type Name = nat

  const PRUNE_KEEP: nat := 5

  /** What is on disk, the directory Roll Back uses, and the one state.json says
      it uses, which lags behind when a save fails. */
  datatype Stashes = Stashes(dirs: set<Name>, pointer: Option<Name>, saved: Option<Name>)

  function Newer(dirs: set<Name>, n: Name): set<Name> {
    set m <- dirs | m > n
  }

  predicate Kept(dirs: set<Name>, keep: nat, exclude: set<Name>, n: Name) {
    n in exclude || |Newer(dirs, n)| < keep
  }

  function Pruned(dirs: set<Name>, keep: nat, exclude: set<Name>): set<Name> {
    set n <- dirs | Kept(dirs, keep, exclude, n)
  }

  predicate Descending(names: seq<Name>) {
    forall i, j | 0 <= i < j < |names| :: names[i] > names[j]
  }

  lemma {:induction false} NewerAreBefore(names: seq<Name>, i: nat)
    requires Descending(names) && i < |names|
    ensures Newer(AsSet(names), names[i]) == AsSet(names[..i]) && |AsSet(names[..i])| == i
  {
    forall n ensures n in Newer(AsSet(names), names[i]) <==> n in AsSet(names[..i]) {
      if n in AsSet(names) {
        var k :| 0 <= k < |names| && names[k] == n;
        assert k < i ==> names[..i][k] == n;
      }
    }
    CountPrefix(names, i);
  }

  lemma NotListedBefore(names: seq<Name>, i: nat)
    requires Descending(names) && i < |names|
    ensures names[i] !in AsSet(names[..i]) && AsSet(names[..i + 1]) == AsSet(names[..i]) + {names[i]}
  {
    assert names[..i + 1] == names[..i] + [names[i]];
  }

  lemma {:induction false} CountPrefix(names: seq<Name>, i: nat)
    requires Descending(names) && i <= |names|
    ensures |AsSet(names[..i])| == i
  {
    hide Descending;
    if i > 0 {
      CountPrefix(names, i - 1);
      NotListedBefore(names, i - 1);
    }
  }

  /** Removes all but the newest `keep` directories and the excluded ones.
      `names` lists what is on disk, newest first. */
  method Prune(names: seq<Name>, keep: nat, exclude: set<Name>) returns (left: set<Name>)
    requires Descending(names)
    ensures left == Pruned(AsSet(names), keep, exclude)
  {
    var keepNames: set<Name> := {};
    for i := 0 to |names|
      invariant keepNames == set k | 0 <= k < i && k < keep :: names[k]
    {
      if i < keep {
        keepNames := keepNames + {names[i]};
      }
    }
    keepNames := keepNames + exclude;
    left := AsSet(names);
    for i := 0 to |names|
      invariant forall n :: n in left <==> n in AsSet(names) && (n in keepNames || n !in AsSet(names[..i]))
    {
      assert names[..i + 1] == names[..i] + [names[i]];
      if names[i] !in keepNames {
        left := left - {names[i]};
      }
    }
    forall i | 0 <= i < |names| ensures names[i] in left <==> Kept(AsSet(names), keep, exclude, names[i]) {
      assert names[i] in AsSet(names[..|names|]);
      NewerAreBefore(names, i);
    }
  }

  lemma {:induction false} SubsetCount(a: set<Name>, b: set<Name>)
    requires a <= b
    ensures |a| <= |b|
  {
    assert b == a + (b - a);
    assert a !! (b - a);
  }

  lemma {:induction false} Oldest(dirs: set<Name>) returns (n: Name)
    requires dirs != {}
    ensures n in dirs && forall m <- dirs :: n <= m
  {
    n :| n in dirs;
    if dirs != {n} {
      var rest := Oldest(dirs - {n});
      assert forall m <- dirs :: m == n || m in dirs - {n};
      n := if rest < n then rest else n;
    }
  }

  lemma NewestFew(dirs: set<Name>, newest: set<Name>, keep: nat)
    requires newest <= dirs && forall n <- newest :: |Newer(dirs, n)| < keep
    ensures |newest| <= keep
  {
    if newest != {} {
      var n := Oldest(newest);
      SubsetCount(newest - {n}, Newer(dirs, n));
    }
  }

  // ---------- applies, rollbacks and restarts ----------

  /** How the file layer of an apply ends. */
  datatype Ending = Succeeded | Undone | NotUndone

  /** A stash made by this apply has a name of its own, if it made one at all;
      `saves` tells whether state.json could be written. */
  datatype Event =
    | Apply(stash: Option<Name>, ending: Ending, saves: bool)
    | RollBack(ok: bool, saves: bool)
    | Restart

  predicate Fits(s: Stashes, e: Event) {
    e.Apply? && e.stash.Some? ==> e.stash.value !in s.dirs
  }

  function Members(a: Option<Name>): set<Name> {
    if a.Some? then {a.value} else {}
  }

  function Next(s: Stashes, e: Event): Stashes {
    match e
    case Apply(stash, ending, saves) =>
      var moved := stash.Some? && !ending.Undone?;
      var pointer := if moved then stash else s.pointer;
      var saved := if moved && saves then stash else s.saved;
      Stashes(Pruned(s.dirs + Members(stash), PRUNE_KEEP, Members(stash) + Members(pointer)), pointer, saved)
    case RollBack(ok, saves) =>
      if s.pointer.None? || !ok then s
      else s.(pointer := None, saved := if saves then None else s.saved)
    case Restart =>
      s.(pointer := if s.saved.Some? && s.saved.value in s.dirs then s.saved else None)
  }

  function Run(s: Stashes, es: seq<Event>): Stashes {
    if es == [] then s else Next(Run(s, es[..|es| - 1]), es[|es| - 1])
  }

  predicate Sound(s: Stashes) {
    s.pointer.Some? ==> s.pointer.value in s.dirs
  }

  /** Roll Back always has a directory to restore from: over any applies that
      succeed, undo themselves or fail halfway, prunes, rollbacks and restarts,
      whether or not the state could be saved. */
  lemma {:induction false} PointerNeverDangles(s: Stashes, es: seq<Event>)
    requires Sound(s)
    ensures Sound(Run(s, es))
  {
    if es != [] {
      PointerNeverDangles(s, es[..|es| - 1]);
    }
  }

  /** An apply that undid itself leaves Roll Back and its directory alone, however
      many fail in a row. */
  lemma {:induction false} UndoneAppliesKeepThePointer(s: Stashes, es: seq<Event>)
    requires Sound(s) && s.pointer.Some?
    requires forall i | 0 <= i < |es| :: es[i].Apply? && (es[i].ending.Undone? || es[i].stash.None?)
    ensures Run(s, es).pointer == s.pointer && s.pointer.value in Run(s, es).dirs
    ensures Run(s, es).saved == s.saved
  {
    if es != [] {
      UndoneAppliesKeepThePointer(s, es[..|es| - 1]);
    }
  }

  /** A failure the applier could not take back is recorded as well: its stash is
      what a second try needs. */
  predicate Records(e: Event) {
    e.Apply? && e.stash.Some? && e.ending in {Succeeded, NotUndone}
  }

  predicate UsesUp(e: Event) {
    e.RollBack? && e.ok
  }

  lemma LastStep(s: Stashes, es: seq<Event>)
    requires es != []
    ensures Run(s, es) == Next(Run(s, es[..|es| - 1]), es[|es| - 1])
  {
  }

  /** What neither records nor uses up leaves the pointer where it is, a restart
      included where the state on disk agrees. */
  lemma LeavesThePointer(s: Stashes, e: Event)
    requires Sound(s) && !Records(e) && !UsesUp(e) && (e.Restart? ==> s.saved == s.pointer)
    ensures Next(s, e).pointer == s.pointer && Next(s, e).saved == s.saved
  {
  }

  /** Roll Back takes back the last apply that left something to take back: its
      stash is the pointer until another is recorded or it has been used, and
      over restarts where the state was saved. */
  lemma {:induction false} PointerIsTheLastRecorded(s: Stashes, es: seq<Event>, i: nat)
    requires Sound(s) && i < |es| && Records(es[i])
    requires forall j | i < j < |es| :: !Records(es[j]) && !UsesUp(es[j]) && (es[j].Restart? ==> es[i].saves)
    ensures Run(s, es).pointer == es[i].stash && es[i].stash.value in Run(s, es).dirs
    ensures es[i].saves ==> Run(s, es).saved == es[i].stash
    decreases |es|
  {
    hide Run, Pruned;
    var last := |es| - 1;
    var before := es[..last];
    LastStep(s, es);
    PointerNeverDangles(s, es);
    if i < last {
      PointerNeverDangles(s, before);
      assert before[i] == es[i] && forall j | i < j < |before| :: before[j] == es[j];
      PointerIsTheLastRecorded(s, before, i);
      hide Next;
      LeavesThePointer(Run(s, before), es[last]);
    }
  }

  /** Once used, it offers nothing until an apply records a stash again. */
  lemma {:induction false} NothingLeftOnceUsed(s: Stashes, es: seq<Event>, i: nat)
    requires i < |es| && UsesUp(es[i]) && Run(s, es[..i]).pointer.Some?
    requires forall j | i < j < |es| :: !Records(es[j]) && (es[j].Restart? ==> es[i].saves)
    ensures Run(s, es).pointer == None
    ensures es[i].saves ==> Run(s, es).saved == None
    decreases |es|
  {
    hide Run, Pruned;
    var last := |es| - 1;
    var before := es[..last];
    LastStep(s, es);
    if i < last {
      assert before[i] == es[i] && forall j | i < j < |before| :: before[j] == es[j];
      assert before[..i] == es[..i];
      NothingLeftOnceUsed(s, before, i);
    }
  }

  /** A roll back that fails can be tried again. */
  lemma FailedRollBackCanBeRetried(s: Stashes, saves: bool)
    requires Sound(s)
    ensures Next(s, RollBack(false, saves)).pointer == s.pointer
    ensures s.pointer.Some? ==> s.pointer.value in Next(s, RollBack(false, saves)).dirs
  {
  }

  /** After any apply at most seven directories are left: the newest five, its
      own and the one Roll Back uses; one that goes has five newer ones. */
  lemma FewDirectoriesStay(s: Stashes, e: Event)
    requires e.Apply?
    ensures |Next(s, e).dirs| <= PRUNE_KEEP + 2
    ensures Next(s, e).dirs <= s.dirs + Members(e.stash)
    ensures forall n <- s.dirs + Members(e.stash) ::
              n !in Next(s, e).dirs ==> |Newer(s.dirs + Members(e.stash), n)| >= PRUNE_KEEP
  {
    var dirs := s.dirs + Members(e.stash);
    var next := Next(s, e);
    var exclude := Members(e.stash) + Members(next.pointer);
    NewestFew(dirs, next.dirs - exclude, PRUNE_KEEP);
    SubsetCount(next.dirs, (next.dirs - exclude) + exclude);
  }

  // ---------- the reconciler's bookkeeping ----------

  class Bookkeeper {
    var dirs: set<Name>
    var lastStashDir: Option<Name>
    var saved: Option<Name>

    constructor (dirs: set<Name>, saved: Option<Name>)
      ensures Sound(State())
      ensures State() == Next(Stashes(dirs, None, saved), Restart)
    {
      this.dirs, this.saved := dirs, saved;
      lastStashDir := if saved.Some? && saved.value in dirs then saved else None;
    }

    function State(): Stashes
      reads this
    {
      Stashes(dirs, lastStashDir, saved)
    }

    /** The stash side of an apply: the pointer moves with a success or a failure
        that could not be undone, and every exit prunes. `listed` is the
        directory listing the prune reads, newest first. */
    method Apply(stash: Option<Name>, ending: Ending, saves: bool, listed: seq<Name>)
      requires Sound(State()) && Fits(State(), Event.Apply(stash, ending, saves))
      requires Descending(listed) && AsSet(listed) == dirs + Members(stash)
      modifies this
      ensures State() == Next(old(State()), Event.Apply(stash, ending, saves)) && Sound(State())
    {
      dirs := dirs + Members(stash);
      if stash.Some? && (ending.Succeeded? || ending.NotUndone?) {
        lastStashDir := stash;
        if saves {
          saved := stash;
        }
      }
      dirs := Prune(listed, PRUNE_KEEP, Members(stash) + Members(lastStashDir));
    }

    method RollBack(ok: bool, saves: bool)
      requires Sound(State())
      modifies this
      ensures State() == Next(old(State()), Event.RollBack(ok, saves)) && Sound(State())
    {
      if lastStashDir.None? || !ok {
        return;
      }
      if saves {
        saved := None;
      }
      lastStashDir := None;
    }
  }
}
