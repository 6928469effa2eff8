/** The run history: one record per line in an append-only file that is cut at
    any byte by a crash, and rewritten from its end when it grows too large. */
module RunHistory {
  import opened Wrappers

  newtype byte = x: int | 0 <= x < 256

  const NEWLINE: byte := 10
  const MAX_BYTES: nat := 1048576
  const ROTATE_TARGET_BYTES: nat := MAX_BYTES * 3 / 4
  const ROTATE_SLACK: nat := 50
  const MAX_LINE_BYTES: nat := 65536

  /** How records are written and read. */
  datatype Codec<!R> = Codec(encode: R -> seq<byte>, decode: seq<byte> -> Option<R>)

  /** A record takes one line under the limit and reads back as itself. */
  ghost predicate OnOneLine<R>(codec: Codec<R>, r: R) {
    var line := codec.encode(r);
    line != [] && |line| < MAX_LINE_BYTES && NEWLINE !in line && codec.decode(line) == Some(r)
  }

  /** No part of a record, cut off at its end, reads as one. */
  ghost predicate Indivisible<R>(codec: Codec<R>, r: R) {
    forall n | 0 < n < |codec.encode(r)| :: codec.decode(codec.encode(r)[..n]) == None
  }

  ghost predicate Sound<R(!new)>(codec: Codec<R>) {
    forall r :: OnOneLine(codec, r) && Indivisible(codec, r)
  }

  // ---------- lines ----------

  /** Where the first line of `data` ends. */
  function LineEnd(data: seq<byte>): (n: nat)
    ensures n <= |data|
  {
    if data == [] || data[0] == NEWLINE then 0 else 1 + LineEnd(data[1..])
  }

  lemma {:induction false} LineEndMeans(data: seq<byte>)
    ensures NEWLINE !in data[..LineEnd(data)]
    ensures LineEnd(data) < |data| ==> data[LineEnd(data)] == NEWLINE
  {
    if data != [] && data[0] != NEWLINE {
      LineEndMeans(data[1..]);
      assert data[..LineEnd(data)] == [data[0]] + data[1..][..LineEnd(data[1..])];
    }
  }

  function AfterLine(data: seq<byte>): (rest: seq<byte>)
    ensures data != [] ==> |rest| < |data|
  {
    if LineEnd(data) < |data| then data[LineEnd(data) + 1..] else []
  }

  function OneLine<R>(codec: Codec<R>, line: seq<byte>): seq<R> {
    if line == [] then []
    else
      match codec.decode(line)
      case None => []
      case Some(r) => [r]
  }

  /** The records in `data`, oldest first: empty lines and lines that do not
      parse are skipped, and the scan ends at one that is too long. */
  function Records<R>(codec: Codec<R>, data: seq<byte>): seq<R>
    decreases |data|
  {
    if data == [] || LineEnd(data) >= MAX_LINE_BYTES then []
    else OneLine(codec, data[..LineEnd(data)]) + Records(codec, AfterLine(data))
  }

  /** The lines counted for retention: those that are not empty. */
  function LineCount(data: seq<byte>): nat
    decreases |data|
  {
    if data == [] || LineEnd(data) >= MAX_LINE_BYTES then 0
    else (if LineEnd(data) == 0 then 0 else 1) + LineCount(AfterLine(data))
  }

  /** No line is too long to be scanned. */
  predicate AllShort(data: seq<byte>)
    decreases |data|
  {
    data != [] ==> LineEnd(data) < MAX_LINE_BYTES && AllShort(AfterLine(data))
  }

  predicate LineStart(data: seq<byte>, at: nat)
    requires at <= |data|
  {
    at == 0 || data[at - 1] == NEWLINE
  }

  lemma FirstLine(line: seq<byte>, rest: seq<byte>)
    requires NEWLINE !in line
    ensures LineEnd(line + [NEWLINE] + rest) == |line|
    ensures AfterLine(line + [NEWLINE] + rest) == rest
    ensures (line + [NEWLINE] + rest)[..|line|] == line
  {
    var data := line + [NEWLINE] + rest;
    if line != [] {
      assert data[1..] == line[1..] + [NEWLINE] + rest;
      FirstLine(line[1..], rest);
    }
  }

  lemma OnlyLine(line: seq<byte>)
    requires NEWLINE !in line
    ensures LineEnd(line) == |line| && AfterLine(line) == [] && line[..|line|] == line
  {
    if line != [] {
      OnlyLine(line[1..]);
    }
  }

  /** A file is its first line, closed or not, and the rest. */
  lemma Unfold(data: seq<byte>) returns (line: seq<byte>, rest: seq<byte>, closed: bool)
    ensures NEWLINE !in line
    ensures if closed then data == line + [NEWLINE] + rest else data == line && rest == []
    ensures LineEnd(data) == |line| && AfterLine(data) == rest && data[..|line|] == line
  {
    LineEndMeans(data);
    var e := LineEnd(data);
    line, rest, closed := data[..e], AfterLine(data), e < |data|;
  }

  lemma RecordsOfLines<R>(codec: Codec<R>, line: seq<byte>, rest: seq<byte>)
    requires NEWLINE !in line
    ensures AllShort(line + [NEWLINE] + rest) <==> |line| < MAX_LINE_BYTES && AllShort(rest)
    ensures |line| < MAX_LINE_BYTES ==>
              Records(codec, line + [NEWLINE] + rest) == OneLine(codec, line) + Records(codec, rest)
  {
    hide LineEnd, AfterLine;
    FirstLine(line, rest);
  }

  lemma RecordsOfOneLine<R>(codec: Codec<R>, line: seq<byte>)
    requires NEWLINE !in line
    ensures AllShort(line) <==> |line| < MAX_LINE_BYTES
    ensures |line| < MAX_LINE_BYTES ==> Records(codec, line) == OneLine(codec, line)
  {
    hide LineEnd;
    OnlyLine(line);
    assert Records(codec, []) == [];
  }

  lemma ThreeParts(line: seq<byte>, rest: seq<byte>, tail: seq<byte>)
    ensures line + [NEWLINE] + rest + [NEWLINE] + tail == line + [NEWLINE] + (rest + [NEWLINE] + tail)
  {
  }

  /** Two files with a newline between them. */
  lemma {:induction false} RecordsJoin<R>(codec: Codec<R>, head: seq<byte>, tail: seq<byte>)
    requires AllShort(head) && AllShort(tail)
    ensures Records(codec, head + [NEWLINE] + tail) == Records(codec, head) + Records(codec, tail)
    ensures AllShort(head + [NEWLINE] + tail)
    decreases |head|
  {
    hide Records, AllShort, LineEnd, AfterLine, OneLine;
    var line, rest, closed := Unfold(head);
    if closed {
      ThreeParts(line, rest, tail);
      RecordsOfLines(codec, line, rest);
      RecordsOfLines(codec, line, rest + [NEWLINE] + tail);
      RecordsJoin(codec, rest, tail);
    } else {
      RecordsOfOneLine(codec, line);
      RecordsOfLines(codec, line, tail);
    }
  }

  /** The first line of text that ends in a newline is closed. */
  lemma ClosedFirst(head: seq<byte>, tail: seq<byte>) returns (line: seq<byte>, rest: seq<byte>)
    requires head != [] && LineStart(head, |head|)
    ensures NEWLINE !in line && LineStart(rest, |rest|) && |rest| < |head|
    ensures head == line + [NEWLINE] + rest
    ensures head + tail == line + [NEWLINE] + (rest + tail)
  {
    hide LineEnd, AfterLine;
    var closed;
    line, rest, closed := Unfold(head);
    assert closed by {
      assert head[|head| - 1] == NEWLINE;
    }
    assert rest != [] ==> rest[|rest| - 1] == head[|head| - 1];
  }

  /** Cutting a file at a line start cuts its records in two. */
  lemma {:induction false} RecordsSplit<R>(codec: Codec<R>, head: seq<byte>, tail: seq<byte>)
    requires LineStart(head, |head|)
    ensures AllShort(head + tail) <==> AllShort(head) && AllShort(tail)
    ensures AllShort(head + tail) ==> Records(codec, head + tail) == Records(codec, head) + Records(codec, tail)
    decreases |head|
  {
    hide Records, AllShort, OneLine;
    if head == [] {
      assert head + tail == tail;
      NoLines(codec);
    } else {
      var line, rest := ClosedFirst(head, tail);
      RecordsOfLines(codec, line, rest);
      RecordsOfLines(codec, line, rest + tail);
      RecordsSplit(codec, rest, tail);
    }
  }

  lemma NoLines<R>(codec: Codec<R>)
    ensures Records(codec, []) == [] && LineCount([]) == 0 && AllShort([])
  {
  }

  /** Every line that is not empty counts once, wherever the file is cut in two. */
  lemma {:induction false} LinesAddUp(head: seq<byte>, tail: seq<byte>)
    requires LineStart(head, |head|) && AllShort(head)
    ensures LineCount(head + tail) == LineCount(head) + LineCount(tail)
    decreases |head|
  {
    hide LineCount, AllShort;
    if head == [] {
      assert head + tail == tail;
      assert LineCount([]) == 0 by {
        NothingToCount();
      }
    } else {
      var line, rest := ClosedFirst(head, tail);
      CountFirst(line, rest);
      CountFirst(line, rest + tail);
      LinesAddUp(rest, tail);
    }
  }

  lemma NothingToCount()
    ensures LineCount([]) == 0
  {
  }

  lemma CountFirst(line: seq<byte>, rest: seq<byte>)
    requires NEWLINE !in line
    ensures |line| < MAX_LINE_BYTES ==>
              LineCount(line + [NEWLINE] + rest) == (if line == [] then 0 else 1) + LineCount(rest)
    ensures AllShort(line + [NEWLINE] + rest) ==> |line| < MAX_LINE_BYTES && AllShort(rest)
  {
    hide LineEnd, AfterLine;
    FirstLine(line, rest);
  }

  lemma OneLineCounts(line: seq<byte>)
    requires NEWLINE !in line && |line| < MAX_LINE_BYTES
    ensures LineCount(line + [NEWLINE]) == LineCount(line) == if line == [] then 0 else 1
  {
    hide LineEnd, AfterLine;
    NothingToCount();
    OnlyLine(line);
    FirstLine(line, []);
    assert line + [NEWLINE] + [] == line + [NEWLINE];
  }

  lemma RecordsAt<R>(codec: Codec<R>, data: seq<byte>, at: nat)
    requires at <= |data| && LineStart(data, at) && AllShort(data)
    ensures Records(codec, data) == Records(codec, data[..at]) + Records(codec, data[at..])
    ensures AllShort(data[..at]) && AllShort(data[at..])
  {
    hide Records, AllShort;
    assert data == data[..at] + data[at..];
    assert LineStart(data[..at], at);
    RecordsSplit(codec, data[..at], data[at..]);
  }

  /** What a write cut after `n` bytes of a record leaves. */
  lemma PieceOfALine<R>(codec: Codec<R>, r: R, n: nat)
    requires OnOneLine(codec, r) && Indivisible(codec, r) && n <= |codec.encode(r)| + 1
    ensures var piece := (codec.encode(r) + [NEWLINE])[..n];
            && AllShort(piece)
            && Records(codec, piece) == if n < |codec.encode(r)| then [] else [r]
  {
    hide Records, AllShort;
    var line := codec.encode(r);
    var piece := (line + [NEWLINE])[..n];
    if n <= |line| {
      assert piece == line[..n];
      RecordsOfOneLine(codec, piece);
    } else {
      assert piece == line + [NEWLINE] + [];
      NoLines(codec);
      RecordsOfLines(codec, line, []);
    }
  }

  // ---------- the end of a file ----------

  /** The last newline, or -1. */
  function LastNewline(data: seq<byte>): (at: int)
    ensures -1 <= at < |data|
  {
    if data == [] then -1
    else if data[|data| - 1] == NEWLINE then |data| - 1
    else LastNewline(data[..|data| - 1])
  }

  lemma {:induction false} LastNewlineMeans(data: seq<byte>)
    ensures LastNewline(data) >= 0 ==> data[LastNewline(data)] == NEWLINE
    ensures forall i | LastNewline(data) < i < |data| :: data[i] != NEWLINE
    decreases |data|
  {
    if data != [] && data[|data| - 1] != NEWLINE {
      var head := data[..|data| - 1];
      LastNewlineMeans(head);
      assert forall i | 0 <= i < |head| :: data[i] == head[i];
    }
  }

  /** What is read back: the whole file, or the lines that start in its last
      MAX_BYTES after the first newline there. */
  function Tail(disk: seq<byte>): seq<byte> {
    if |disk| <= MAX_BYTES then disk else AfterLine(disk[|disk| - MAX_BYTES..])
  }

  ghost predicate Suffix<R>(xs: seq<R>, ys: seq<R>) {
    |xs| <= |ys| && ys[|ys| - |xs|..] == xs
  }

  /** The newest whole record of the file sits on the line that starts at `at`. */
  ghost predicate NewestIs<R(!new)>(codec: Codec<R>, disk: seq<byte>, at: nat, r: R) {
    && at <= |disk| && LineStart(disk, at)
    && codec.encode(r) <= disk[at..]
    && (|disk| > at + |codec.encode(r)| ==> disk[at + |codec.encode(r)|] == NEWLINE)
    && Records(codec, disk[at..]) == [r]
  }

  lemma AfterLineStart(data: seq<byte>) returns (n: nat)
    ensures 0 < n <= |data| || (n == |data| == 0)
    ensures AfterLine(data) == data[n..]
    ensures forall i | 0 <= i < n - 1 :: data[i] != NEWLINE
    ensures n > 0 ==> data[n - 1] == NEWLINE || n == |data|
  {
    hide LineEnd;
    LineEndMeans(data);
    var e := LineEnd(data);
    assert forall i | 0 <= i < e :: data[..e][i] == data[i];
    n := if e < |data| then e + 1 else |data|;
  }

  lemma TailStart(disk: seq<byte>) returns (from: nat)
    ensures from <= |disk| && Tail(disk) == disk[from..]
    ensures |disk| <= MAX_BYTES ==> from == 0
    ensures |disk| > MAX_BYTES ==>
              && |disk| - MAX_BYTES < from
              && NEWLINE !in disk[|disk| - MAX_BYTES..from - 1]
              && (LineStart(disk, from) || from == |disk|)
  {
    hide LineEnd, AfterLine;
    if |disk| <= MAX_BYTES {
      from := 0;
    } else {
      var cut := |disk| - MAX_BYTES;
      var n := AfterLineStart(disk[cut..]);
      from := cut + n;
      assert forall i | cut <= i < from - 1 :: disk[i] == disk[cut..][i - cut];
    }
  }

  lemma Rebuild(line: seq<byte>, data: seq<byte>)
    requires line <= data && |data| > |line| && data[|line|] == NEWLINE
    ensures data == line + [NEWLINE] + data[|line| + 1..]
  {
  }

  lemma RecordsFirst<R>(codec: Codec<R>, r: R, rest: seq<byte>)
    requires OnOneLine(codec, r)
    ensures Records(codec, codec.encode(r) + [NEWLINE] + rest) == [r] + Records(codec, rest)
    ensures AllShort(codec.encode(r) + [NEWLINE] + rest) <==> AllShort(rest)
  {
    FirstLine(codec.encode(r), rest);
  }

  /** Nothing that starts after the newest record is a record. */
  lemma NothingAfterNewest<R(!new)>(codec: Codec<R>, since: seq<byte>, r: R, from: nat)
    requires OnOneLine(codec, r) && AllShort(since) && codec.encode(r) <= since && Records(codec, since) == [r]
    requires |since| > |codec.encode(r)| ==> since[|codec.encode(r)|] == NEWLINE
    requires 0 < from <= |since| && since[from - 1] == NEWLINE
    ensures Records(codec, since[from..]) == []
  {
    var line := codec.encode(r);
    assert forall i | 0 <= i < |line| :: since[i] == line[i];
    Rebuild(line, since);
    var rest := since[|line| + 1..];
    RecordsFirst(codec, r, rest);
    LinesAfter(codec, since, |line| + 1, from);
  }

  lemma DropTwice(data: seq<byte>, n: nat, from: nat)
    requires n <= from <= |data|
    ensures data[n..][from - n..] == data[from..]
    ensures from > n ==> data[n..][from - n - 1] == data[from - 1]
  {
  }

  lemma NoneFurtherOn<R>(codec: Codec<R>, data: seq<byte>, n: nat)
    requires n <= |data| && LineStart(data, n) && AllShort(data) && Records(codec, data) == []
    ensures Records(codec, data[n..]) == []
  {
    RecordsAt(codec, data, n);
  }

  lemma LinesAfter<R>(codec: Codec<R>, data: seq<byte>, n: nat, from: nat)
    requires 0 < n <= from <= |data| && data[from - 1] == NEWLINE
    requires AllShort(data[n..]) && Records(codec, data[n..]) == []
    ensures Records(codec, data[from..]) == []
  {
    DropTwice(data, n, from);
    NoneFurtherOn(codec, data[n..], from - n);
  }

  /** Cutting at a line start up to the newest record keeps it; the rest of the
      file gives a suffix of the records. */
  lemma CutBeforeNewest<R(!new)>(codec: Codec<R>, disk: seq<byte>, at: nat, r: R, from: nat)
    requires OnOneLine(codec, r) && AllShort(disk) && NewestIs(codec, disk, at, r)
    requires from <= at && LineStart(disk, from)
    ensures AllShort(disk[from..]) && Suffix(Records(codec, disk[from..]), Records(codec, disk))
    ensures NewestIs(codec, disk[from..], at - from, r)
    ensures Records(codec, disk[from..]) != []
  {
    hide Records, AllShort;
    RecordsAt(codec, disk, from);
    var kept := disk[from..];
    assert kept[at - from..] == disk[at..];
    RecordsAt(codec, kept, at - from);
  }

  lemma CutAgainst(disk: seq<byte>, at: nat) returns (from: nat)
    requires at < |disk| && LineStart(disk, at)
    ensures from <= |disk| && Tail(disk) == disk[from..]
    ensures (from <= at) == (|disk| <= MAX_BYTES || |disk| - MAX_BYTES < at)
    ensures LineStart(disk, from) || (at < from == |disk|)
  {
    from := TailStart(disk);
    var cut := |disk| - MAX_BYTES;
    assert cut > 0 ==> forall i | cut <= i < from - 1 :: disk[i] == disk[cut..from - 1][i - cut];
  }

  lemma PrefixAt(line: seq<byte>, disk: seq<byte>, at: nat)
    requires at <= |disk| && line <= disk[at..] && (|disk| > at + |line| ==> disk[at + |line|] == NEWLINE)
    ensures |disk[at..]| > |line| ==> disk[at..][|line|] == NEWLINE
  {
  }

  lemma NothingPastNewest<R(!new)>(codec: Codec<R>, disk: seq<byte>, at: nat, r: R, from: nat)
    requires OnOneLine(codec, r) && AllShort(disk) && NewestIs(codec, disk, at, r)
    requires at < from <= |disk| && disk[from - 1] == NEWLINE
    ensures Records(codec, disk[from..]) == []
  {
    hide Records, AllShort, LineEnd, AfterLine;
    CutBeforeNewest(codec, disk, at, r, at);
    PrefixAt(codec.encode(r), disk, at);
    DropTwice(disk, at, from);
    NothingAfterNewest(codec, disk[at..], r, from - at);
  }

  /** Reading only the end of the file loses the newest record exactly when its
      line does not start after the cut, as when writes that failed piled up
      MAX_BYTES of fragments behind it. */
  lemma TailSeesNewestIff<R(!new)>(codec: Codec<R>, disk: seq<byte>, at: nat, r: R)
    requires OnOneLine(codec, r) && AllShort(disk) && NewestIs(codec, disk, at, r)
    ensures Records(codec, Tail(disk)) != [] <==> |disk| <= MAX_BYTES || |disk| - MAX_BYTES < at
    ensures Suffix(Records(codec, Tail(disk)), Records(codec, disk))
  {
    var from := CutAgainst(disk, at);
    if from <= at {
      CutBeforeNewest(codec, disk, at, r, from);
    } else if from == |disk| {
      assert disk[from..] == [];
    } else {
      NothingPastNewest(codec, disk, at, r, from);
    }
  }

  // ---------- one append, cut anywhere ----------

  /** The one buffer an append writes: a newline first when the file may not end
      in one. */
  function Buffer(torn: bool, line: seq<byte>): seq<byte> {
    (if torn then [NEWLINE] else []) + line + [NEWLINE]
  }

  /** Whether the first `n` bytes of the buffer hold the whole record. */
  predicate Landed(torn: bool, line: seq<byte>, n: nat) {
    n + 1 >= |Buffer(torn, line)|
  }

  lemma PieceOfBuffer(torn: bool, line: seq<byte>, n: nat)
    requires n <= |Buffer(torn, line)|
    ensures !torn ==> Buffer(torn, line)[..n] == (line + [NEWLINE])[..n]
    ensures torn && n > 0 ==> Buffer(torn, line)[..n] == [NEWLINE] + (line + [NEWLINE])[..n - 1]
  {
    if torn {
      assert Buffer(torn, line) == [NEWLINE] + (line + [NEWLINE]);
    } else {
      assert Buffer(torn, line) == line + [NEWLINE];
    }
  }

  /** A cut write adds its record or nothing, and never joins what was there. */
  lemma AppendAddsWholeRecords<R>(codec: Codec<R>, disk: seq<byte>, torn: bool, r: R, n: nat)
    requires OnOneLine(codec, r) && Indivisible(codec, r) && AllShort(disk)
    requires torn || LineStart(disk, |disk|)
    requires n <= |Buffer(torn, codec.encode(r))|
    ensures var after := disk + Buffer(torn, codec.encode(r))[..n];
            && AllShort(after)
            && Records(codec, after) == Records(codec, disk) + if Landed(torn, codec.encode(r), n) then [r] else []
  {
    hide Records, AllShort;
    var line := codec.encode(r);
    assert Records(codec, disk) + [] == Records(codec, disk);
    WrittenPiece(disk, torn, line, n);
    if !torn {
      PieceOfALine(codec, r, n);
      RecordsSplit(codec, disk, (line + [NEWLINE])[..n]);
    } else if n > 0 {
      PieceOfALine(codec, r, n - 1);
      RecordsJoin(codec, disk, (line + [NEWLINE])[..n - 1]);
    }
  }

  lemma WrittenPiece(disk: seq<byte>, torn: bool, line: seq<byte>, n: nat)
    requires n <= |Buffer(torn, line)|
    ensures !torn ==> disk + Buffer(torn, line)[..n] == disk + (line + [NEWLINE])[..n]
    ensures torn && n > 0 ==> disk + Buffer(torn, line)[..n] == disk + [NEWLINE] + (line + [NEWLINE])[..n - 1]
    ensures torn && n == 0 ==> disk + Buffer(torn, line)[..n] == disk
  {
    PieceOfBuffer(torn, line, n);
  }

  lemma AppendBehindNewest<R(!new)>(codec: Codec<R>, disk: seq<byte>, torn: bool, r: R, n: nat, at: nat, newest: R)
    requires OnOneLine(codec, r) && Indivisible(codec, r) && OnOneLine(codec, newest) && AllShort(disk)
    requires torn || LineStart(disk, |disk|)
    requires n <= |Buffer(torn, codec.encode(r))| && !Landed(torn, codec.encode(r), n)
    requires NewestIs(codec, disk, at, newest)
    ensures NewestIs(codec, disk + Buffer(torn, codec.encode(r))[..n], at, newest)
  {
    hide Records, AllShort;
    var piece := Buffer(torn, codec.encode(r))[..n];
    var line := codec.encode(newest);
    CutBeforeNewest(codec, disk, at, newest, at);
    DropOfSum(disk, piece, at);
    LastOfDrop(disk, at);
    AppendAddsWholeRecords(codec, disk[at..], torn, r, n);
    if |disk| == at + |line| && n > 0 {
      assert disk[at..] == line;
      assert line[|line| - 1] == disk[|disk| - 1];
      PieceOfBuffer(torn, codec.encode(r), n);
    }
  }

  lemma DropOfSum(a: seq<byte>, b: seq<byte>, at: nat)
    requires at <= |a|
    ensures (a + b)[at..] == a[at..] + b
  {
  }

  lemma LastOfDrop(disk: seq<byte>, at: nat)
    requires at < |disk|
    ensures LineStart(disk, |disk|) ==> LineStart(disk[at..], |disk[at..]|)
  {
  }

  lemma AppendedIsNewest<R(!new)>(codec: Codec<R>, disk: seq<byte>, torn: bool, r: R, n: nat)
    requires OnOneLine(codec, r) && Indivisible(codec, r)
    requires torn || LineStart(disk, |disk|)
    requires n <= |Buffer(torn, codec.encode(r))| && Landed(torn, codec.encode(r), n)
    ensures NewestIs(codec, disk + Buffer(torn, codec.encode(r))[..n], |disk| + if torn then 1 else 0, r)
  {
    hide Records, AllShort;
    var line := codec.encode(r);
    var own := if torn then n - 1 else n;
    var at := |disk| + if torn then 1 else 0;
    var piece := (line + [NEWLINE])[..own];
    PieceOfBuffer(torn, line, n);
    PieceOfALine(codec, r, own);
    assert (disk + Buffer(torn, line)[..n])[at..] == piece;
    assert line <= piece;
  }

  // ---------- a record that is there and not seen ----------

  datatype Mark = Mark

  /** One record of two bytes. */
  const MARKS: Codec<Mark> := Codec(m => [65, 66], line => if line == [65, 66] then Some(Mark) else None)

  lemma MarksAreSound()
    ensures Sound(MARKS)
  {
    forall r: Mark ensures OnOneLine(MARKS, r) && Indivisible(MARKS, r) {
      var line := MARKS.encode(r);
      assert r.Mark? && line == [65, 66];
      forall n | 0 < n < |line| ensures MARKS.decode(line[..n]) == None {
        assert |line[..n]| != |line|;
      }
    }
  }

  /** The file after one append that went through and `n` that stopped after the
      first byte of their record. */
  function Fragments(n: nat): seq<byte> {
    if n == 0 then Buffer(false, MARKS.encode(Mark))
    else Fragments(n - 1) + Buffer(n > 1, MARKS.encode(Mark))[..if n > 1 then 2 else 1]
  }

  lemma {:induction false} FragmentsPileUp(n: nat)
    ensures AllShort(Fragments(n)) && NewestIs(MARKS, Fragments(n), 0, Mark)
    ensures |Fragments(n)| == if n == 0 then 3 else 2 * n + 2
  {
    hide Records, NewestIs, AllShort, LineEnd, AfterLine;
    MarksAreSound();
    var line := MARKS.encode(Mark);
    if n == 0 {
      BufferWhole(line);
      NoLines(MARKS);
      AppendAddsWholeRecords(MARKS, [], false, Mark, 3);
      AppendedIsNewest(MARKS, [], false, Mark, 3);
    } else {
      FragmentsPileUp(n - 1);
      var landed := if n > 1 then 2 else 1;
      assert n == 1 ==> LineStart(Fragments(0), 3);
      AppendAddsWholeRecords(MARKS, Fragments(n - 1), n > 1, Mark, landed);
      AppendBehindNewest(MARKS, Fragments(n - 1), n > 1, Mark, landed, 0, Mark);
    }
  }

  lemma BufferWhole(line: seq<byte>)
    ensures [] + Buffer(false, line)[..|Buffer(false, line)|] == Buffer(false, line)
  {
  }

  /** With enough of them behind it the only record of the file is lost to a
      reader, though every byte of it is there. */
  lemma FailedAppendsHideTheNewest(n: nat)
    requires 2 * n + 2 > MAX_BYTES
    ensures NewestIs(MARKS, Fragments(n), 0, Mark) && Records(MARKS, Tail(Fragments(n))) == []
  {
    hide Records, NewestIs, AllShort, Tail;
    MarksAreSound();
    FragmentsPileUp(n);
    TailSeesNewestIff(MARKS, Fragments(n), 0, Mark);
  }
}
