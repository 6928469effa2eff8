/** Which signed webhook deliveries were accepted lately, so that one is not
    acted on twice. */
module ReplayMemory {
  import opened Wrappers

  /** One accepted body: its digest and when. */
  datatype Accepted<D> = Accepted(digest: D, at: int)

  /** Nothing is forgotten by a plain log, so this is the question in full: was
      the digest accepted among the last `max - 1`, and within the window? */
  ghost predicate Replayed<D(!new)>(log: seq<Accepted<D>>, digest: D, now: int, window: int, max: nat) {
    exists i | 0 <= i < |log| :: Recent(log, i, now, window, max) && log[i].digest == digest
  }

  predicate Recent<D>(log: seq<Accepted<D>>, i: nat, now: int, window: int, max: nat)
    requires i < |log|
  {
    |log| - i < max && now - log[i].at <= window
  }

  /** The same body is only accepted again after the window, or after `max`
      others. */
  ghost predicate NeverTwice<D(!new)>(log: seq<Accepted<D>>, window: int, max: nat) {
    forall i, j | 0 <= i < j < |log| && log[i].digest == log[j].digest ::
      log[j].at - log[i].at > window || j - i >= max
  }

  predicate Ascending<D>(log: seq<Accepted<D>>) {
    forall i, j | 0 <= i < j < |log| :: log[i].at <= log[j].at
  }

  lemma AcceptingKeepsNeverTwice<D(!new)>(log: seq<Accepted<D>>, digest: D, now: int, window: int, max: nat)
    requires NeverTwice(log, window, max) && !Replayed(log, digest, now, window, max)
    ensures NeverTwice(log + [Accepted(digest, now)], window, max)
  {
    forall i | 0 <= i < |log| && log[i].digest == digest ensures now - log[i].at > window || |log| - i >= max {
      assert !Recent(log, i, now, window, max);
    }
  }

  ghost predicate Tracks<D(!new)>(order: seq<D>, at: map<D, int>, log: seq<Accepted<D>>) {
    && |order| <= |log|
    && (forall i | 0 <= i < |order| ::
          order[i] in at && log[|log| - |order| + i] == Accepted(order[i], at[order[i]]))
    && forall d <- at :: d in order
  }

  /** The memory is the end of the log: distinct digests with their times,
      oldest first, and what it dropped no longer matters. */
  ghost predicate Remembers<D(!new)>(
      order: seq<D>, at: map<D, int>, log: seq<Accepted<D>>, clock: int, window: int, max: nat)
  {
    && |order| <= (if max == 0 then 1 else max)
    && Tracks(order, at, log) && Distinct(order)
    && Ascending(log) && (forall i | 0 <= i < |log| :: log[i].at <= clock)
    && forall i | 0 <= i < |log| - |order| :: !Recent(log, i, clock, window, max)
  }

  lemma TimePasses<D(!new)>(
      order: seq<D>, at: map<D, int>, log: seq<Accepted<D>>, clock: int, now: int, window: int, max: nat)
    requires Remembers(order, at, log, clock, window, max) && clock <= now
    ensures Remembers(order, at, log, now, window, max)
  {
    forall i | 0 <= i < |log| - |order| ensures !Recent(log, i, now, window, max) {
      assert !Recent(log, i, clock, window, max);
    }
  }

  lemma RestIsDistinct<D>(order: seq<D>)
    requires Distinct(order) && order != []
    ensures Distinct(order[1..]) && order[0] !in order[1..]
  {
  }

  lemma RestTracks<D(!new)>(order: seq<D>, at: map<D, int>, log: seq<Accepted<D>>)
    requires Tracks(order, at, log) && Distinct(order) && order != []
    ensures Tracks(order[1..], at - {order[0]}, log) && Distinct(order[1..])
  {
    RestIsDistinct(order);
    hide Distinct;
    var rest, left := order[1..], at - {order[0]};
    forall d <- left ensures d in rest {
      var i :| 0 <= i < |order| && order[i] == d;
      assert rest[i - 1] == d;
    }
    forall i | 0 <= i < |rest| ensures rest[i] in left && log[|log| - |rest| + i] == Accepted(rest[i], left[rest[i]]) {
      assert rest[i] == order[i + 1];
    }
  }

  /** The oldest entry can go once it is out of the window, or one of `max`. */
  lemma DropOldest<D(!new)>(
      order: seq<D>, at: map<D, int>, log: seq<Accepted<D>>, clock: int, window: int, max: nat)
    requires Remembers(order, at, log, clock, window, max) && |order| > 0
    requires order[0] in at && (clock - at[order[0]] > window || |order| >= max)
    ensures Remembers(order[1..], at - {order[0]}, log, clock, window, max)
  {
    hide Distinct, Ascending;
    RestTracks(order, at, log);
    var oldest := |log| - |order|;
    assert |order| <= |log| && log[oldest] == Accepted(order[0], at[order[0]]);
    assert !Recent(log, oldest, clock, window, max);
  }

  /** With the oldest entry recent, the memory answers what the log would. */
  lemma Answers<D(!new)>(
      order: seq<D>, at: map<D, int>, log: seq<Accepted<D>>, clock: int, window: int, max: nat, digest: D)
    requires Remembers(order, at, log, clock, window, max)
    requires order == [] || (order[0] in at && clock - at[order[0]] <= window && |order| < max)
    ensures Replayed(log, digest, clock, window, max) <==> digest in at
    ensures digest in at ==> clock - at[digest] <= window
  {
    var dropped := |log| - |order|;
    if digest in at {
      var i :| 0 <= i < |order| && order[i] == digest;
      assert log[dropped].at <= log[dropped + i].at;
      assert Recent(log, dropped + i, clock, window, max);
    }
    if i :| 0 <= i < |log| && Recent(log, i, clock, window, max) && log[i].digest == digest {
      assert order[i - dropped] == digest;
    }
  }

  lemma Accepting<D(!new)>(
      order: seq<D>, at: map<D, int>, log: seq<Accepted<D>>, clock: int, window: int, max: nat, digest: D)
    requires Remembers(order, at, log, clock, window, max) && digest !in at
    requires |order| < max || order == []
    ensures Remembers(
              order + [digest], at[digest := clock], log + [Accepted(digest, clock)], clock, window, max)
  {
    var more := log + [Accepted(digest, clock)];
    forall i | 0 <= i < |more| - |order| - 1 ensures !Recent(more, i, clock, window, max) {
      assert !Recent(log, i, clock, window, max);
    }
    forall i | 0 <= i < |order| ensures order[i] != digest {
      assert order[i] in at;
    }
  }

  class SeenBodies<D(==,!new)> {
    const window: int
    const max: nat
    var order: seq<D>
    var at: map<D, int>
    /** Every body accepted so far, and the time of the last call. */
    ghost var log: seq<Accepted<D>>
    ghost var clock: int

    constructor (window: int, max: nat, now: int)
      ensures Valid() && log == [] && clock == now && this.window == window && this.max == max
    {
      this.window, this.max, order, at, log, clock := window, max, [], map[], [], now;
    }

    ghost predicate Valid()
      reads this
    {
      Remembers(order, at, log, clock, window, max) && NeverTwice(log, window, max)
    }

    /** Records a body unless it is a replay, and says which. */
    method Add(digest: D, now: int) returns (isNew: bool)
      requires Valid() && clock <= now
      modifies this
      ensures Valid() && clock == now
      ensures isNew <==> !Replayed(old(log), digest, now, window, max)
      ensures log == if isNew then old(log) + [Accepted(digest, now)] else old(log)
      ensures forall d :: d in at <==> d in order
      ensures |order| <= max || max == 0
    {
      hide NeverTwice, Replayed;
      TimePasses(order, at, log, clock, now, window, max);
      clock := now;
      while |order| > 0
        invariant Remembers(order, at, log, now, window, max) && NeverTwice(log, window, max)
        invariant log == old(log) && clock == now
        decreases |order|
      {
        var oldest := order[0];
        assert oldest in at;
        if now - at[oldest] <= window && |order| < max {
          break;
        }
        DropOldest(order, at, log, now, window, max);
        at, order := at - {oldest}, order[1..];
      }
      Answers(order, at, log, now, window, max, digest);
      if digest in at && now - at[digest] <= window {
        MapIsOrder(order, at, log, now, window, max);
        return false;
      }
      AcceptingKeepsNeverTwice(log, digest, now, window, max);
      Accepting(order, at, log, now, window, max, digest);
      at, order := at[digest := now], order + [digest];
      log := log + [Accepted(digest, now)];
      MapIsOrder(order, at, log, now, window, max);
      isNew := true;
    }
  }

  lemma MapIsOrder<D(!new)>(
      order: seq<D>, at: map<D, int>, log: seq<Accepted<D>>, clock: int, window: int, max: nat)
    requires Remembers(order, at, log, clock, window, max)
    ensures forall d :: d in at <==> d in order
    ensures |order| <= max || max == 0
  {
  }
}
