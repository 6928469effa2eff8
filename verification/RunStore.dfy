/** The store that owns the run-history file. */
module RunStore {
  import opened Wrappers
  import opened RunHistory

  lemma SuffixOfSuffix<R>(xs: seq<R>, ys: seq<R>, zs: seq<R>)
    requires Suffix(xs, ys) && Suffix(ys, zs)
    ensures Suffix(xs, zs)
  {
  }

  /** `data` without an unclosed last line. */
  function Closed(data: seq<byte>): seq<byte> {
    data[..LastNewline(data) + 1]
  }

  lemma AlreadyClosed(data: seq<byte>)
    requires LineStart(data, |data|)
    ensures Closed(data) == data
  {
    assert data[..|data|] == data;
  }

  /** The last newline before the closing one ends the line before the last. */
  lemma LastLineStarts(data: seq<byte>, at: nat, line: seq<byte>)
    requires at + |line| + 1 == |data| && line <= data[at..] && NEWLINE !in line && LineStart(data, at)
    ensures LastNewline(data[..|data| - 1]) == at - 1
  {
    hide LastNewline;
    var head := data[..|data| - 1];
    LastNewlineMeans(head);
    assert forall i | 0 <= i < |line| :: head[at + i] == line[i];
    assert at > 0 ==> head[at - 1] == data[at - 1];
  }

  lemma RecordsStep<R>(codec: Codec<R>, data: seq<byte>)
    requires data != []
    ensures LineEnd(data) < MAX_LINE_BYTES ==>
              && Records(codec, data) == OneLine(codec, data[..LineEnd(data)]) + Records(codec, AfterLine(data))
              && LineCount(data) == (if LineEnd(data) == 0 then 0 else 1) + LineCount(AfterLine(data))
    ensures LineEnd(data) >= MAX_LINE_BYTES ==> Records(codec, data) == [] && LineCount(data) == 0
  {
  }

  /** A file whose records are a suffix of those completed, with the newest one
      on the line at `at`; `torn` when it may not end in a newline. */
  ghost predicate Sane<R(!new)>(codec: Codec<R>, disk: seq<byte>, torn: bool, done: seq<R>, at: nat) {
    && Sound(codec) && AllShort(disk)
    && Suffix(Records(codec, disk), done)
    && (torn || LineStart(disk, |disk|))
    && (done != [] ==> NewestIs(codec, disk, at, done[|done| - 1]))
  }

  lemma BufferEnds(disk: seq<byte>, torn: bool, line: seq<byte>)
    ensures Buffer(torn, line)[..|Buffer(torn, line)|] == Buffer(torn, line)
    ensures LineStart(disk + Buffer(torn, line), |disk + Buffer(torn, line)|)
  {
  }

  lemma AppendStep<R(!new)>(codec: Codec<R>, disk: seq<byte>, torn: bool, done: seq<R>, at: nat, r: R, n: nat)
    requires Sane(codec, disk, torn, done, at) && n <= |Buffer(torn, codec.encode(r))|
    ensures var after := disk + Buffer(torn, codec.encode(r))[..n];
            && Records(codec, after) == Records(codec, disk) + (if Landed(torn, codec.encode(r), n) then [r] else [])
            && (n == |Buffer(torn, codec.encode(r))| ==> LineStart(after, |after|))
            && if Landed(torn, codec.encode(r), n)
               then Sane(codec, after, true, done + [r], |disk| + if torn then 1 else 0)
               else Sane(codec, after, true, done, at)
  {
    hide Records, AllShort, NewestIs, LineEnd, AfterLine, Buffer;
    assert OnOneLine(codec, r) && Indivisible(codec, r);
    BufferEnds(disk, torn, codec.encode(r));
    AppendAddsWholeRecords(codec, disk, torn, r, n);
    if Landed(torn, codec.encode(r), n) {
      AppendedIsNewest(codec, disk, torn, r, n);
    } else if done != [] {
      assert OnOneLine(codec, done[|done| - 1]);
      AppendBehindNewest(codec, disk, torn, r, n, at, done[|done| - 1]);
    }
  }

  lemma LastIsWhole<R(!new)>(codec: Codec<R>, disk: seq<byte>, done: seq<R>, at: nat)
    requires Sane(codec, disk, false, done, at) && done != []
    ensures var line := codec.encode(done[|done| - 1]);
            && at + |line| <= |disk| && 0 < |line| < MAX_LINE_BYTES && NEWLINE !in line
            && LineStart(disk, at) && line <= disk[at..] && disk != [] && disk[|disk| - 1] == NEWLINE
  {
    assert OnOneLine(codec, done[|done| - 1]);
    assert |disk[at..]| == |disk| - at;
  }

  lemma ClosedIsSane<R(!new)>(codec: Codec<R>, disk: seq<byte>, torn: bool, done: seq<R>, at: nat)
    requires Sane(codec, disk, torn, done, at) && LineStart(disk, |disk|)
    ensures Sane(codec, disk, false, done, at)
    ensures done != [] ==> Suffix(Records(codec, disk), Records(codec, disk)) && Records(codec, disk) != []
  {
    if done != [] {
      assert OnOneLine(codec, done[|done| - 1]);
      CutBeforeNewest(codec, disk, at, done[|done| - 1], 0);
    }
  }

  lemma LastAfterDrop(disk: seq<byte>, from: nat)
    requires from <= |disk| && LineStart(disk, |disk|)
    ensures LineStart(disk[from..], |disk[from..]|)
  {
  }

  lemma CutStep<R(!new)>(codec: Codec<R>, disk: seq<byte>, done: seq<R>, at: nat, from: nat)
    requires Sane(codec, disk, false, done, at) && done != [] && from <= at && from <= |disk| && LineStart(disk, from)
    ensures Sane(codec, disk[from..], false, done, at - from)
    ensures Suffix(Records(codec, disk[from..]), Records(codec, disk)) && Records(codec, disk[from..]) != []
  {
    hide Records, AllShort, NewestIs, LineEnd, AfterLine;
    assert OnOneLine(codec, done[|done| - 1]);
    CutBeforeNewest(codec, disk, at, done[|done| - 1], from);
    LastAfterDrop(disk, from);
    SuffixOfSuffix(Records(codec, disk[from..]), Records(codec, disk), done);
  }

  /** Where a rewrite starts reading, and that the newest record's line is the
      last one it sees. */
  lemma LastLineInTail<R(!new)>(codec: Codec<R>, disk: seq<byte>, done: seq<R>, at: nat) returns (from: nat)
    requires Sane(codec, disk, false, done, at) && done != []
    requires at + |codec.encode(done[|done| - 1])| + 1 == |disk|
    ensures from <= at < |disk| && LineStart(disk, from)
    ensures var data := disk[from..];
            && Closed(Tail(disk)) == data && data != [] && LineStart(data, |data|)
            && LastNewline(data[..|data| - 1]) == at - from - 1
  {
    hide Records, AllShort, Sane, NewestIs, LastNewline, Tail, Closed;
    LastIsWhole(codec, disk, done, at);
    from := CutAgainst(disk, at);
    DropTwice(disk, from, at);
    LastAfterDrop(disk, from);
    AlreadyClosed(disk[from..]);
    LastLineStarts(disk[from..], at - from, codec.encode(done[|done| - 1]));
  }

  lemma RewriteStep<R(!new)>(codec: Codec<R>, disk: seq<byte>, done: seq<R>, at: nat, from: nat, start: nat)
    requires Sane(codec, disk, false, done, at) && done != [] && from + start <= at < |disk|
    requires LineStart(disk, from) && LineStart(disk[from..], start)
    ensures var left := disk[from..][start..];
            && Sane(codec, left, false, done, at - from - start)
            && Suffix(left, disk) && |left| == |disk| - from - start
            && Suffix(Records(codec, left), Records(codec, disk)) && Records(codec, left) != []
  {
    hide Sane, Records;
    DropTwice(disk, from, from + start);
    assert start > 0 ==> disk[from..][start - 1] == disk[from + start - 1];
    CutStep(codec, disk, done, at, from + start);
  }

  // ---------- the lines a rewrite keeps ----------

  function Newlines(data: seq<byte>): nat {
    if data == [] then 0
    else Newlines(data[..|data| - 1]) + if data[|data| - 1] == NEWLINE then 1 else 0
  }

  lemma {:induction false} NewlinesJoin(a: seq<byte>, b: seq<byte>)
    ensures Newlines(a + b) == Newlines(a) + Newlines(b)
    decreases |b|
  {
    if b == [] {
      assert a + b == a;
    } else {
      var last := |b| - 1;
      NewlinesJoin(a, b[..last]);
      assert (a + b)[..|a + b| - 1] == a + b[..last];
    }
  }

  lemma {:induction false} NoNewlines(data: seq<byte>)
    requires NEWLINE !in data
    ensures Newlines(data) == 0
  {
    if data != [] {
      NoNewlines(data[..|data| - 1]);
    }
  }

  /** One more line before those that start at `start`. */
  lemma OneLineBefore(data: seq<byte>, lineStart: nat, start: nat)
    requires lineStart < start <= |data| && LineStart(data, start)
    requires forall i | lineStart <= i < start - 1 :: data[i] != NEWLINE
    ensures Newlines(data[lineStart..]) == 1 + Newlines(data[start..])
  {
    hide Newlines;
    var line := data[lineStart..start - 1];
    assert data[lineStart..] == line + ([NEWLINE] + data[start..]);
    NoNewlines(line);
    NewlinesJoin(line, [NEWLINE] + data[start..]);
    NewlinesJoin([NEWLINE], data[start..]);
    assert Newlines([NEWLINE]) == 1 by {
      NewlineIsOne();
    }
  }

  lemma NewlineIsOne()
    ensures Newlines([NEWLINE]) == 1
  {
    assert [NEWLINE][..0] == [];
  }

  /** The last `kept` lines of `data`, at most `keep`: fewer only where one line
      more would go past the target size. */
  ghost predicate NewestOf(left: seq<byte>, data: seq<byte>, kept: nat, keep: int) {
    && Suffix(left, data) && 0 < kept <= keep && kept == Newlines(left)
    && (kept == keep || forall p | 0 <= p < |data| - |left| && LineStart(data, p) :: |data| - p > ROTATE_TARGET_BYTES)
  }

  class Store<R(!new)> {
    const codec: Codec<R>
    const keep: int
    /** The file. */
    var disk: seq<byte>
    var lines: nat
    var bytes: nat
    var needsNewline: bool
    /** Every record all of whose bytes reached the file, oldest first, and where
        the newest one's line starts. */
    ghost var done: seq<R>
    ghost var newestAt: nat

    ghost predicate Valid()
      reads this
    {
      Sane(codec, disk, needsNewline, done, newestAt)
    }

    /** Opens a file that does not exist yet. */
    constructor (codec: Codec<R>, keep: int)
      requires Sound(codec)
      ensures Valid() && disk == [] && done == [] && this.codec == codec && this.keep == keep
    {
      this.codec, this.keep, disk, lines, bytes, needsNewline := codec, keep, [], 0, 0, false;
      done, newestAt := [], 0;
    }

    /** What is known after a restart: the size and whether the last write was
        cut short. */
    method Reopen()
      requires Valid()
      modifies this`lines, this`bytes, this`needsNewline
      ensures Valid() && lines == 0 && bytes == |disk|
      ensures needsNewline <==> !LineStart(disk, |disk|)
    {
      hide Records, AllShort, NewestIs;
      lines, bytes := 0, |disk|;
      needsNewline := disk != [] && disk[|disk| - 1] != NEWLINE;
    }

    static method ParseRecords(codec: Codec<R>, data: seq<byte>) returns (recs: seq<R>, lines: nat)
      ensures recs == Records(codec, data) && lines == LineCount(data)
    {
      hide Records, LineCount, LineEnd, AfterLine;
      recs, lines := [], 0;
      var rest := data;
      assert Records(codec, []) == [] && LineCount([]) == 0 by {
        NoLines(codec);
      }
      while rest != [] && LineEnd(rest) < MAX_LINE_BYTES
        invariant Records(codec, data) == recs + Records(codec, rest)
        invariant LineCount(data) == lines + LineCount(rest)
        decreases |rest|
      {
        RecordsStep(codec, rest);
        var line := rest[..LineEnd(rest)];
        if line != [] {
          lines := lines + 1;
          match codec.decode(line) {
            case None =>
            case Some(r) => recs := recs + [r];
          }
        }
        rest := AfterLine(rest);
      }
      if rest != [] {
        RecordsStep(codec, rest);
      }
    }

    /** The retained records, oldest first: the last `keep` of those that are
        read, a suffix of those completed, which holds the newest one unless too
        much was written behind it. */
    method Load() returns (recs: seq<R>)
      requires Valid()
      modifies this`lines
      ensures Valid()
      ensures Suffix(recs, done)
      ensures keep > 0 ==> |recs| <= keep
      ensures lines == LineCount(Tail(disk))
      ensures
        var seen := Records(codec, Tail(disk));
        recs == if keep > 0 && |seen| > keep then seen[|seen| - keep..] else seen
      ensures done != [] ==>
                (recs != [] <==> |disk| <= MAX_BYTES || |disk| - MAX_BYTES < newestAt)
    {
      hide Records, AllShort, LineEnd, AfterLine, LineCount, LastNewline, Tail, NewestIs;
      var counted;
      recs, counted := ParseRecords(codec, Tail(disk));
      lines := counted;
      if done == [] {
        NoRecordsInTail();
      } else {
        TailSeesNewestIff(codec, disk, newestAt, done[|done| - 1]);
        SuffixOfSuffix(recs, Records(codec, disk), done);
      }
      if keep > 0 && |recs| > keep {
        recs := recs[|recs| - keep..];
      }
    }

    lemma NoRecordsInTail()
      requires Valid() && done == []
      ensures Records(codec, Tail(disk)) == []
    {
      var from := TailStart(disk);
      if LineStart(disk, from) {
        NoneFurtherOn(codec, disk, from);
      } else {
        assert disk[from..] == [];
      }
    }

    /** Writes one record at the end of the file. `canOpen` says whether the file
        could be opened at all; the write stops after `landed` bytes of its
        buffer; `closed` and `rewritten` say whether closing the file and a
        rewrite that is due succeed. */
    method Append(r: R, canOpen: bool, landed: nat, closed: bool, rewritten: bool) returns (failed: bool)
      requires Valid() && landed <= |Buffer(needsNewline, codec.encode(r))|
      modifies this
      ensures Valid()
      ensures failed <==> !canOpen || landed < |Buffer(old(needsNewline), codec.encode(r))| || !closed
      ensures !canOpen ==>
                && disk == old(disk) && done == old(done) && newestAt == old(newestAt)
                && needsNewline == old(needsNewline) && lines == old(lines) && bytes == old(bytes)
      ensures canOpen ==>
                done == old(done) + if Landed(old(needsNewline), codec.encode(r), landed) then [r] else []
      ensures canOpen && failed ==>
                && needsNewline && lines == old(lines) && bytes == old(bytes)
                && disk == old(disk) + Buffer(old(needsNewline), codec.encode(r))[..landed]
      ensures canOpen && failed ==>
                (Records(codec, disk) == Records(codec, old(disk)) +
                 if Landed(old(needsNewline), codec.encode(r), landed) then [r] else [])
      ensures !failed ==> !needsNewline && |disk| - newestAt == |codec.encode(r)| + 1
      ensures !failed ==> Suffix(Records(codec, disk), Records(codec, old(disk)) + [r]) && Records(codec, disk) != []
      ensures
        var whole := old(disk) + Buffer(old(needsNewline), codec.encode(r));
        var size := old(bytes) + |Buffer(old(needsNewline), codec.encode(r))|;
        var due := keep > 0 && (old(lines) + 1 > keep + ROTATE_SLACK || size > MAX_BYTES);
        && (!failed && !(due && rewritten) ==> disk == whole && lines == old(lines) + 1 && bytes == size)
        && (!failed && due && rewritten ==>
              Suffix(disk, whole) && NewestOf(disk, Closed(Tail(whole)), lines, keep) && bytes == |disk|)
    {
      hide Records, AllShort, Sane, NewestIs, Suffix;
      var line := codec.encode(r);
      var buffer := Buffer(needsNewline, line);
      if !canOpen {
        return true;
      }
      AppendStep(codec, disk, needsNewline, done, newestAt, r, landed);
      if Landed(needsNewline, line, landed) {
        newestAt := |disk| + if needsNewline then 1 else 0;
        done := done + [r];
      }
      disk := disk + buffer[..landed];
      if landed < |buffer| || !closed {
        needsNewline := true;
        return true;
      }
      assert disk == old(disk) + buffer;
      needsNewline := false;
      lines := lines + 1;
      bytes := bytes + |buffer|;
      ClosedIsSane(codec, disk, true, done, newestAt);
      if keep > 0 && (lines > keep + ROTATE_SLACK || bytes > MAX_BYTES) {
        Rotate(rewritten);
      }
      failed := false;
    }

    /** Rewrites the file to its newest lines, as many as fit: `keep` lines, and
        one line or at most ROTATE_TARGET_BYTES. */
    method Rotate(rewritten: bool)
      requires Valid() && keep > 0 && done != [] && !needsNewline
      requires newestAt + |codec.encode(done[|done| - 1])| + 1 == |disk|
      modifies this
      ensures Valid() && done == old(done) && !needsNewline
      ensures newestAt + |codec.encode(done[|done| - 1])| + 1 == |disk|
      ensures Suffix(Records(codec, disk), Records(codec, old(disk))) && Records(codec, disk) != []
      ensures rewritten ==> Suffix(disk, old(disk)) && bytes == |disk|
      ensures rewritten ==> NewestOf(disk, Closed(Tail(old(disk))), lines, keep)
      ensures rewritten ==> newestAt == 0 || |disk| <= ROTATE_TARGET_BYTES
      ensures !rewritten ==> disk == old(disk) && lines == old(lines) && bytes == old(bytes)
    {
      hide Records, AllShort, Sane, NewestIs, Suffix, NewestOf;
      var left, kept := NewestEnd();
      if rewritten {
        newestAt := newestAt - (|disk| - |left|);
        disk := left;
        lines, bytes, needsNewline := kept, |left|, false;
      } else {
        ClosedIsSane(codec, disk, needsNewline, done, newestAt);
      }
    }

    /** The newest lines of the file that fit both caps, and how many they are. */
    method NewestEnd() returns (left: seq<byte>, kept: nat)
      requires Valid() && keep > 0 && done != [] && !needsNewline
      requires newestAt + |codec.encode(done[|done| - 1])| + 1 == |disk|
      ensures Suffix(left, disk) && |disk| - |left| <= newestAt
      ensures NewestOf(left, Closed(Tail(disk)), kept, keep)
      ensures Sane(codec, left, false, done, newestAt - (|disk| - |left|))
      ensures Suffix(Records(codec, left), Records(codec, disk)) && Records(codec, left) != []
      ensures |disk| - |left| == newestAt || |left| <= ROTATE_TARGET_BYTES
      ensures LineStart(disk, |disk|)
    {
      hide Records, AllShort, Sane, NewestIs, LastNewline, Tail, Closed, Suffix, Newlines;
      ghost var from := LastLineInTail(codec, disk, done, newestAt);
      var data := Closed(Tail(disk));
      var start;
      start, kept := NewestLines(data, keep, newestAt - from);
      RewriteStep(codec, disk, done, newestAt, from, start);
      LastIsWhole(codec, disk, done, newestAt);
      left := data[start..];
      SuffixOf(data, start);
    }

    /** Where the newest lines start that fit both caps, walking back one line at
        a time; one is kept however long it is. */
    static method NewestLines(data: seq<byte>, keep: int, ghost lastLine: nat) returns (start: nat, kept: nat)
      requires keep > 0 && data != [] && LineStart(data, |data|)
      requires LastNewline(data[..|data| - 1]) == lastLine - 1
      ensures start <= lastLine < |data| && LineStart(data, start) && 0 < kept <= keep
      ensures start == lastLine || |data| - start <= ROTATE_TARGET_BYTES
      ensures kept == Newlines(data[start..])
      ensures kept == keep || forall p | 0 <= p < start && LineStart(data, p) :: |data| - p > ROTATE_TARGET_BYTES
    {
      hide LastNewline, Newlines;
      start, kept := |data|, 0;
      assert data[|data|..] == [];
      NoNewlines([]);
      while kept < keep && start > 0
        invariant start <= |data| && kept <= keep && LineStart(data, start)
        invariant kept == 0 ==> start == |data|
        invariant kept > 0 ==> start <= lastLine < |data|
        invariant kept == 1 ==> start == lastLine
        invariant kept > 1 ==> |data| - start <= ROTATE_TARGET_BYTES
        invariant kept == Newlines(data[start..])
        decreases start
      {
        LastNewlineMeans(data[..start - 1]);
        var lineStart := LastNewline(data[..start - 1]) + 1;
        assert lineStart > 0 ==> data[..start - 1][lineStart - 1] == data[lineStart - 1];
        assert forall i | lineStart <= i < start - 1 :: data[..start - 1][i] == data[i];
        if kept > 0 && |data| - lineStart > ROTATE_TARGET_BYTES {
          assert forall p | 0 <= p < start && LineStart(data, p) :: p <= lineStart;
          break;
        }
        OneLineBefore(data, lineStart, start);
        start, kept := lineStart, kept + 1;
      }
    }
  }

  lemma SuffixOf<R>(data: seq<R>, start: nat)
    requires start <= |data|
    ensures Suffix(data[start..], data)
  {
  }
}
