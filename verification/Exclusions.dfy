/** The exclusion list: entries sorted by kind once, and a path matched by
    scanning its bytes, against the rule the entries stand for. */
module Exclusions {
  import opened Wrappers

  /** Whether a pattern globs a name, within one segment per segment. */
  type Glob = (string, string) -> bool

  predicate HasMeta(pattern: string) {
    '*' in pattern || '?' in pattern || '[' in pattern
  }

  /** A pattern without special characters matches itself only. */
  ghost predicate Literal(glob: Glob) {
    forall pattern: string, name: string ::
      !HasMeta(pattern) && '\\' !in pattern ==> (glob(pattern, name) <==> pattern == name)
  }

  // ---------- paths and segments ----------

  /** The first slash. */
  function SlashIn(s: string): (i: Option<nat>)
    ensures i.None? <==> '/' !in s
    ensures i.Some? ==> i.value < |s| && s[i.value] == '/' && '/' !in s[..i.value]
  {
    if s == "" then None
    else if s[0] == '/' then Some(0)
    else
      var rest := SlashIn(s[1..]);
      if rest.None? then None
      else
        assert s[..rest.value + 1] == [s[0]] + s[1..][..rest.value];
        Some(rest.value + 1)
  }

  function LastSlashIn(s: string): (i: Option<nat>)
    ensures i.None? <==> '/' !in s
    ensures i.Some? ==> i.value < |s| && s[i.value] == '/' && '/' !in s[i.value + 1..]
  {
    if s == "" then None
    else if s[|s| - 1] == '/' then Some(|s| - 1)
    else
      var rest := LastSlashIn(s[..|s| - 1]);
      if rest.None? then None
      else
        assert s[rest.value + 1..] == s[..|s| - 1][rest.value + 1..] + [s[|s| - 1]];
        rest
  }

  function Split(s: string): (segments: seq<string>)
    ensures segments != []
    ensures forall k | 0 <= k < |segments| :: '/' !in segments[k]
    decreases |s|
  {
    var i := SlashIn(s);
    if i.None? then [s] else [s[..i.value]] + Split(s[i.value + 1..])
  }

  function Join(segments: seq<string>): string
    requires segments != []
  {
    if |segments| == 1 then segments[0] else Join(segments[..|segments| - 1]) + "/" + segments[|segments| - 1]
  }

  lemma {:induction false} JoinSplits(a: seq<string>, b: seq<string>)
    requires a != [] && b != []
    ensures Join(a + b) == Join(a) + "/" + Join(b)
  {
    if |b| == 1 {
      assert (a + b)[..|a + b| - 1] == a;
    } else {
      JoinSplits(a, b[..|b| - 1]);
      assert (a + b)[..|a + b| - 1] == a + b[..|b| - 1];
    }
  }

  /** Splitting and joining again gives the path back. */
  lemma {:induction false} JoinOfSplit(s: string)
    ensures Join(Split(s)) == s
    decreases |s|
  {
    var i := SlashIn(s);
    if i.Some? {
      JoinOfSplit(s[i.value + 1..]);
      JoinSplits([s[..i.value]], Split(s[i.value + 1..]));
      assert s == s[..i.value] + "/" + s[i.value + 1..];
    }
  }

  function CountSlashes(s: string): nat {
    if s == "" then 0 else (if s[0] == '/' then 1 else 0) + CountSlashes(s[1..])
  }

  lemma {:induction false} NoSlashes(s: string)
    requires '/' !in s
    ensures CountSlashes(s) == 0
  {
    if s != "" {
      NoSlashes(s[1..]);
    }
  }

  lemma {:induction false} CountSlashesJoin(a: string, b: string)
    ensures CountSlashes(a + b) == CountSlashes(a) + CountSlashes(b)
  {
    if a == "" {
      assert a + b == b;
    } else {
      CountSlashesJoin(a[1..], b);
      assert (a + b)[1..] == a[1..] + b;
    }
  }

  /** One more segment than slashes. */
  lemma {:induction false} SegmentCount(s: string)
    ensures |Split(s)| == CountSlashes(s) + 1
    decreases |s|
  {
    var i := SlashIn(s);
    if i.None? {
      NoSlashes(s);
    } else {
      SegmentCount(s[i.value + 1..]);
      CountSlashesJoin(s[..i.value], s[i.value..]);
      NoSlashes(s[..i.value]);
      assert s == s[..i.value] + s[i.value..];
      assert s[i.value..][1..] == s[i.value + 1..];
    }
  }

  lemma FirstSegment(s: string)
    ensures Split(s)[0] == if SlashIn(s).Some? then s[..SlashIn(s).value] else s
  {
  }

  lemma SplitStep(s: string)
    ensures
      var j := SlashIn(s);
      Split(s) == if j.None? then [s] else [s[..j.value]] + Split(s[j.value + 1..])
  {
  }

  lemma {:induction false} SplitAt(a: string, b: string)
    ensures Split(a + "/" + b) == Split(a) + Split(b)
    decreases |a|
  {
    hide Split, SlashIn;
    var s := a + "/" + b;
    var i := SlashIn(a);
    var at := if i.None? then |a| else i.value;
    assert s[..at] == a[..at];
    FirstSlashIs(s, at);
    SplitStep(s);
    SplitStep(a);
    if i.None? {
      assert s[at + 1..] == b && a[..at] == a;
    } else {
      assert s[at + 1..] == a[at + 1..] + "/" + b;
      SplitAt(a[at + 1..], b);
      assert [a[..at]] + (Split(a[at + 1..]) + Split(b)) == [a[..at]] + Split(a[at + 1..]) + Split(b);
    }
  }

  lemma {:induction false} FirstSlashIs(s: string, i: nat)
    requires i < |s| && s[i] == '/' && '/' !in s[..i]
    ensures SlashIn(s) == Some(i)
  {
    if i > 0 {
      assert s[..i][0] == s[0];
      assert s[1..][..i - 1] == s[..i][1..];
      FirstSlashIs(s[1..], i - 1);
    }
  }

  lemma OneSegment(s: string)
    requires '/' !in s
    ensures Split(s) == [s]
  {
  }

  lemma LastOfTwo(a: string, last: string)
    requires '/' !in last
    ensures var segments := Split(a + "/" + last); segments[|segments| - 1] == last
  {
    hide Split;
    SplitAt(a, last);
    OneSegment(last);
  }

  lemma LastSegment(s: string)
    ensures
      var i := LastSlashIn(s);
      Split(s)[|Split(s)| - 1] == if i.Some? then s[i.value + 1..] else s
  {
    hide Split, LastSlashIn;
    var i := LastSlashIn(s);
    if i.None? {
      OneSegment(s);
    } else {
      assert s == s[..i.value] + "/" + s[i.value + 1..];
      LastOfTwo(s[..i.value], s[i.value + 1..]);
    }
  }

  /** The first `n` segments of a path, if there are `n`: found by stepping from
      slash to slash. */
  method LeadingSegments(p: string, n: nat) returns (lead: Option<string>)
    requires n > 0
    ensures lead == if n <= |Split(p)| then Some(Join(Split(p)[..n])) else None
  {
    hide Split, Join, SlashIn;
    ghost var segments := Split(p);
    var end: nat := 0;
    for k := 0 to n
      invariant k == 0 ==> end == 0
      invariant k > 0 ==>
          && end < |p| && p[end] == '/' && k < |segments|
          && p[..end] == Join(segments[..k])
          && segments[k..] == Split(p[end + 1..])
    {
      if k > 0 {
        end := end + 1;
      }
      var rest := p[end..];
      assert segments[k..] == Split(rest);
      var j := SlashIn(rest);
      StepOneSegment(p, k, end, rest);
      if j.None? {
        if k == n - 1 {
          JoinOfSplit(p);
          assert segments[..n] == segments;
          return Some(p);
        }
        return None;
      }
      end := end + j.value;
    }
    lead := Some(p[..end]);
  }

  lemma StepOneSegment(p: string, k: nat, end: nat, rest: string)
    requires end <= |p| && rest == p[end..] && k < |Split(p)|
    requires Split(p)[k..] == Split(rest)
    requires if k == 0 then end == 0 else end > 0 && p[..end] == Join(Split(p)[..k]) + "/"
    ensures SlashIn(rest).None? ==> |Split(p)| == k + 1
    ensures
      var j := SlashIn(rest);
      j.Some? ==>
        && k + 1 < |Split(p)|
        && p[..end + j.value] == Join(Split(p)[..k + 1])
        && p[end + j.value] == '/'
        && Split(p)[k + 1..] == Split(p[end + j.value + 1..])
  {
    hide Split, SlashIn, Join;
    var segments := Split(p);
    var j := SlashIn(rest);
    SplitStep(rest);
    assert |segments[k..]| == |Split(rest)|;
    if j.Some? {
      assert segments[k] == segments[k..][0] == rest[..j.value];
      SliceOfSlice(p, end, j.value);
      assert segments[k + 1..] == segments[k..][1..];
      JoinOneMore(segments, k);
    }
  }

  lemma SliceOfSlice(p: string, end: nat, at: nat)
    requires end + at < |p|
    ensures p[end..][at + 1..] == p[end + at + 1..]
    ensures p[..end + at] == p[..end] + p[end..][..at]
    ensures end == 0 ==> p[..end + at] == p[end..][..at]
  {
  }

  lemma JoinOneMore(segments: seq<string>, k: nat)
    requires k < |segments|
    ensures Join(segments[..k + 1]) == if k == 0 then segments[0] else Join(segments[..k]) + "/" + segments[k]
  {
    assert segments[..k + 1][..k] == segments[..k];
  }

  // ---------- the rule ----------

  function TrimLeft(s: string): string {
    if s != "" && s[0] == '/' then TrimLeft(s[1..]) else s
  }

  function TrimRight(s: string): string {
    if s != "" && s[|s| - 1] == '/' then TrimRight(s[..|s| - 1]) else s
  }

  /** An entry without its slashes at the ends. */
  function Body(entry: string): string {
    TrimRight(TrimLeft(entry))
  }

  predicate IsDirectory(entry: string) {
    entry != "" && entry[|entry| - 1] == '/'
  }

  predicate IsAnchored(entry: string) {
    entry != "" && entry[0] == '/'
  }

  /** An entry with a slash in front or inside is meant from the root. */
  predicate FromTheRoot(entry: string) {
    IsAnchored(entry) || '/' in Body(entry)
  }

  /** What an entry excludes: a directory entry covers everything under a
      matching directory, at that path from the root or at any depth; the others
      match the whole path or the file's own name. */
  predicate Excludes(entry: string, segments: seq<string>, glob: Glob)
    requires segments != []
  {
    var body := Body(entry);
    if IsDirectory(entry) then
      if FromTheRoot(entry) then
        var n := |Split(body)|;
        n <= |segments| && glob(body, Join(segments[..n]))
      else exists k | 0 <= k < |segments| :: glob(body, segments[k])
    else if FromTheRoot(entry) then glob(body, Join(segments))
    else glob(body, segments[|segments| - 1])
  }

  predicate ValidEntry(entry: string) {
    Body(entry) != "" && '\\' !in entry
  }

  predicate CleanPath(p: string) {
    forall k | 0 <= k < |Split(p)| :: Split(p)[k] != ""
  }

  // ---------- the compiled list ----------

  datatype PathDir = PathDir(pattern: string, segments: nat)

  datatype Compiled = Compiled(
    dirs: set<string>,
    dirGlobs: seq<string>,
    rootDirs: set<string>,
    pathDirs: seq<PathDir>,
    exact: set<string>,
    globs: seq<string>,
    pathGlobs: seq<string>)

  datatype Kind = Dir | DirGlob | RootDir | AtPath | Exact | NameGlob | PathGlob

  function KindOf(entry: string): Kind {
    var dir, anchored := IsDirectory(entry), IsAnchored(entry);
    var nested, meta := '/' in Body(entry), HasMeta(Body(entry));
    if dir && !nested && !anchored && !meta then Dir
    else if dir && !nested && !anchored then DirGlob
    else if dir && !nested && !meta then RootDir
    else if dir then AtPath
    else if !anchored && !nested && !meta then Exact
    else if !anchored && !nested then NameGlob
    else PathGlob
  }

  /** The compiled list holds the body of every entry under its kind, and
      nothing else. */
  ghost predicate Compiles(m: Compiled, entries: seq<string>) {
    && (forall b :: b in m.dirs <==> exists e :: e in entries && KindOf(e) == Dir && Body(e) == b)
    && (forall b :: b in m.dirGlobs <==> exists e :: e in entries && KindOf(e) == DirGlob && Body(e) == b)
    && (forall b :: b in m.rootDirs <==> exists e :: e in entries && KindOf(e) == RootDir && Body(e) == b)
    && (forall d :: d in m.pathDirs <==>
          exists e :: e in entries && KindOf(e) == AtPath && d == PathDir(Body(e), |Split(Body(e))|))
    && (forall b :: b in m.exact <==> exists e :: e in entries && KindOf(e) == Exact && Body(e) == b)
    && (forall b :: b in m.globs <==> exists e :: e in entries && KindOf(e) == NameGlob && Body(e) == b)
    && (forall b :: b in m.pathGlobs <==> exists e :: e in entries && KindOf(e) == PathGlob && Body(e) == b)
  }

  lemma NothingCompiled()
    ensures Compiles(Compiled({}, [], {}, [], {}, [], []), [])
  {
    hide Body, Split, KindOf;
  }

  /** Puts one entry on the list of its kind. */
  method CompileOne(m: Compiled, e: string) returns (after: Compiled)
    ensures after == With(m, e)
  {
    hide Body, Split, CountSlashes;
    var anchored, dir := IsAnchored(e), IsDirectory(e);
    var body := Body(e);
    var nested, meta := '/' in body, HasMeta(body);
    if dir && !nested && !anchored && !meta {
      return m.(dirs := m.dirs + {body});
    }
    if dir && !nested && !anchored {
      return m.(dirGlobs := m.dirGlobs + [body]);
    }
    if dir && !nested && !meta {
      return m.(rootDirs := m.rootDirs + {body});
    }
    if dir {
      SegmentCount(body);
      return m.(pathDirs := m.pathDirs + [PathDir(body, CountSlashes(body) + 1)]);
    }
    if !anchored && !nested && !meta {
      return m.(exact := m.exact + {body});
    }
    if !anchored && !nested {
      return m.(globs := m.globs + [body]);
    }
    after := m.(pathGlobs := m.pathGlobs + [body]);
  }

  method Compile(entries: seq<string>) returns (m: Compiled)
    ensures Compiles(m, entries)
  {
    hide *;
    m := Compiled({}, [], {}, [], {}, [], []);
    NothingCompiled();
    for i := 0 to |entries|
      invariant Compiles(m, entries[..i])
    {
      assert entries[..i + 1] == entries[..i] + [entries[i]];
      ghost var before := m;
      m := CompileOne(m, entries[i]);
      CompilesOneMore(before, m, entries[..i], entries[i]);
    }
    assert entries[..|entries|] == entries;
  }

  /** The entry's body goes to the list of its kind. */
  function With(m: Compiled, e: string): Compiled {
    var body := Body(e);
    match KindOf(e)
    case Dir => m.(dirs := m.dirs + {body})
    case DirGlob => m.(dirGlobs := m.dirGlobs + [body])
    case RootDir => m.(rootDirs := m.rootDirs + {body})
    case AtPath => m.(pathDirs := m.pathDirs + [PathDir(body, |Split(body)|)])
    case Exact => m.(exact := m.exact + {body})
    case NameGlob => m.(globs := m.globs + [body])
    case PathGlob => m.(pathGlobs := m.pathGlobs + [body])
  }

  lemma CompilesOneMore(m: Compiled, after: Compiled, entries: seq<string>, e: string)
    requires Compiles(m, entries) && after == With(m, e)
    ensures Compiles(after, entries + [e])
  {
    hide KindOf, Body, Split;
  }

  // ---------- matching ----------

  ghost predicate SomeGlob(patterns: seq<string>, name: string, glob: Glob) {
    exists i | 0 <= i < |patterns| :: glob(patterns[i], name)
  }

  ghost predicate HitsSegment(m: Compiled, segment: string, glob: Glob) {
    segment in m.dirs || SomeGlob(m.dirGlobs, segment, glob)
  }

  ghost predicate HitsLead(d: PathDir, segments: seq<string>, glob: Glob)
    requires segments != []
  {
    0 < d.segments <= |segments| && glob(d.pattern, Join(segments[..d.segments]))
  }

  /** The compiled list hits the path. */
  ghost predicate Hits(m: Compiled, segments: seq<string>, glob: Glob)
    requires segments != []
  {
    var last := segments[|segments| - 1];
    || segments[0] in m.rootDirs
    || (exists k | 0 <= k < |segments| :: HitsSegment(m, segments[k], glob))
    || (exists i | 0 <= i < |m.pathDirs| :: HitsLead(m.pathDirs[i], segments, glob))
    || last in m.exact
    || Join(segments) in m.exact
    || SomeGlob(m.globs, last, glob)
    || SomeGlob(m.pathGlobs, Join(segments), glob)
  }

  method AnyGlob(patterns: seq<string>, name: string, glob: Glob) returns (hit: bool)
    ensures hit <==> SomeGlob(patterns, name, glob)
  {
    for i := 0 to |patterns|
      invariant forall j | 0 <= j < i :: !glob(patterns[j], name)
    {
      if glob(patterns[i], name) {
        return true;
      }
    }
    hit := false;
  }

  /** Goes through the segments without splitting the path. */
  method AnySegment(m: Compiled, p: string, glob: Glob) returns (hit: bool)
    requires CleanPath(p)
    ensures hit <==> exists k | 0 <= k < |Split(p)| :: HitsSegment(m, Split(p)[k], glob)
  {
    hide Split;
    ghost var segments := Split(p);
    ghost var done := 0;
    var rest := p;
    SplitStep(p);
    assert rest != "" by { assert segments[0] != ""; }
    while rest != ""
      invariant done <= |segments|
      invariant rest == "" ==> done == |segments|
      invariant rest != "" ==> done < |segments| && Split(rest) == segments[done..]
      invariant forall k | 0 <= k < done :: !HitsSegment(m, segments[k], glob)
      decreases |rest|
    {
      var segment := rest;
      var i := SlashIn(rest);
      SplitStep(rest);
      ghost var before := rest;
      if i.Some? {
        segment, rest := rest[..i.value], rest[i.value + 1..];
      } else {
        rest := "";
      }
      assert segment == segments[done..][0] == segments[done];
      if segment in m.dirs {
        assert HitsSegment(m, segments[done], glob);
        return true;
      }
      var some := AnyGlob(m.dirGlobs, segment, glob);
      if some {
        assert HitsSegment(m, segments[done], glob);
        return true;
      }
      assert !HitsSegment(m, segments[done], glob);
      assert segments[done + 1..] == segments[done..][1..];
      done := done + 1;
      if i.Some? {
        assert Split(rest) == segments[done..];
        SplitStep(rest);
        assert segments[done] == Split(rest)[0];
      } else {
        assert |segments[done - 1..]| == 1;
      }
    }
    hit := false;
  }

  /** Matches a clean path against the compiled list. */
  method Match(m: Compiled, p: string, glob: Glob) returns (hit: bool)
    requires CleanPath(p) && forall d | d in m.pathDirs :: d.segments > 0
    ensures hit <==> Hits(m, Split(p), glob)
  {
    hide Split, HitsSegment, Join, SomeGlob, LastSlashIn, SlashIn, CleanPath;
    ghost var segments := Split(p);
    FirstSegment(p);
    LastSegment(p);
    JoinOfSplit(p);
    var first, name := p, p;
    var i := SlashIn(p);
    if i.Some? {
      first := p[..i.value];
      var j := LastSlashIn(p);
      name := p[j.value + 1..];
    }
    if first in m.rootDirs {
      return true;
    }
    var segment := AnySegment(m, p, glob);
    if segment {
      return true;
    }
    for k := 0 to |m.pathDirs|
      invariant forall j | 0 <= j < k :: !HitsLead(m.pathDirs[j], segments, glob)
    {
      assert m.pathDirs[k] in m.pathDirs;
      var lead := LeadingSegments(p, m.pathDirs[k].segments);
      if lead.Some? && glob(m.pathDirs[k].pattern, lead.value) {
        return true;
      }
    }
    if name in m.exact || p in m.exact {
      return true;
    }
    var some := AnyGlob(m.globs, name, glob);
    if some {
      return true;
    }
    hit := AnyGlob(m.pathGlobs, p, glob);
  }

  // ---------- the list against the rule ----------

  /** What an entry contributes once compiled. */
  ghost predicate HitsBy(e: string, segments: seq<string>, glob: Glob)
    requires segments != []
  {
    var body := Body(e);
    var last := segments[|segments| - 1];
    match KindOf(e)
    case Dir => exists k | 0 <= k < |segments| :: segments[k] == body
    case DirGlob => exists k | 0 <= k < |segments| :: glob(body, segments[k])
    case RootDir => segments[0] == body
    case AtPath => HitsLead(PathDir(body, |Split(body)|), segments, glob)
    case Exact => last == body || Join(segments) == body
    case NameGlob => glob(body, last)
    case PathGlob => glob(body, Join(segments))
  }

  lemma HitsIsSomeEntry(m: Compiled, entries: seq<string>, segments: seq<string>, glob: Glob)
    requires Compiles(m, entries) && segments != []
    ensures Hits(m, segments, glob) <==> exists e :: e in entries && HitsBy(e, segments, glob)
  {
    hide Body, Split, Join, KindOf;
    if Hits(m, segments, glob) {
      HitsFromAnEntry(m, entries, segments, glob);
    }
    if e :| e in entries && HitsBy(e, segments, glob) {
      EntryHits(m, entries, segments, glob, e);
    }
  }

  lemma SomeGlobIn(patterns: seq<string>, name: string, glob: Glob)
    ensures SomeGlob(patterns, name, glob) <==> exists b :: b in patterns && glob(b, name)
  {
    if b :| b in patterns && glob(b, name) {
      var i :| 0 <= i < |patterns| && patterns[i] == b;
      assert glob(patterns[i], name);
    }
  }

  lemma HitsFromAnEntry(m: Compiled, entries: seq<string>, segments: seq<string>, glob: Glob)
    requires Compiles(m, entries) && segments != [] && Hits(m, segments, glob)
    ensures exists e :: e in entries && HitsBy(e, segments, glob)
  {
    hide Body, Split, Join, KindOf, HitsLead, SomeGlob;
    var last := segments[|segments| - 1];
    SomeGlobIn(m.globs, last, glob);
    SomeGlobIn(m.pathGlobs, Join(segments), glob);
    if k :| 0 <= k < |segments| && HitsSegment(m, segments[k], glob) {
      SomeGlobIn(m.dirGlobs, segments[k], glob);
    } else if i :| 0 <= i < |m.pathDirs| && HitsLead(m.pathDirs[i], segments, glob) {
      assert m.pathDirs[i] in m.pathDirs;
    }
  }

  lemma EntryHits(m: Compiled, entries: seq<string>, segments: seq<string>, glob: Glob, e: string)
    requires Compiles(m, entries) && segments != [] && e in entries && HitsBy(e, segments, glob)
    ensures Hits(m, segments, glob)
  {
    hide Body, Split, Join, KindOf, HitsLead, SomeGlob;
    var last := segments[|segments| - 1];
    SomeGlobIn(m.globs, last, glob);
    SomeGlobIn(m.pathGlobs, Join(segments), glob);
    match KindOf(e) {
      case Dir =>
        var k :| 0 <= k < |segments| && segments[k] == Body(e);
        assert HitsSegment(m, segments[k], glob);
      case DirGlob =>
        var k :| 0 <= k < |segments| && glob(Body(e), segments[k]);
        SomeGlobIn(m.dirGlobs, segments[k], glob);
        assert HitsSegment(m, segments[k], glob);
      case AtPath =>
        var d := PathDir(Body(e), |Split(Body(e))|);
        assert d in m.pathDirs;
        var i :| 0 <= i < |m.pathDirs| && m.pathDirs[i] == d;
      case _ =>
    }
  }

  lemma {:induction false} JoinHasSlash(segments: seq<string>)
    requires |segments| > 1
    ensures '/' in Join(segments)
  {
    assert "/"[0] in "/";
  }

  lemma {:induction false} BodyChars(s: string, c: char)
    requires c !in s
    ensures c !in TrimLeft(s) && c !in TrimRight(s)
    decreases |s|
  {
    if s != "" && s[0] == '/' {
      BodyChars(s[1..], c);
    }
    if s != "" && s[|s| - 1] == '/' {
      BodyChars(s[..|s| - 1], c);
    }
  }

  /** Every kind of entry, compiled, does what the rule says of the entry. */
  lemma HitsByTheRule(e: string, segments: seq<string>, glob: Glob)
    requires segments != [] && Literal(glob) && ValidEntry(e)
    ensures HitsBy(e, segments, glob) <==> Excludes(e, segments, glob)
  {
    hide TrimLeft, TrimRight;
    var body := Body(e);
    BodyChars(e, '\\');
    BodyChars(TrimLeft(e), '\\');
    assert '\\' !in body;
    assert segments[..1] == [segments[0]];
    assert Join(segments[..1]) == segments[0];
    if '/' !in body {
      OneSegment(body);
      if |segments| > 1 {
        JoinHasSlash(segments);
      } else {
        assert Join(segments) == segments[0];
      }
    }
    if !HasMeta(body) {
      assert forall name: string :: glob(body, name) <==> body == name;
    }
  }

  /** A name of one segment that globs nothing but itself. */
  predicate PlainName(name: string) {
    name != "" && !HasMeta(name) && '\\' !in name && '/' !in name
  }

  lemma NothingToTrim(s: string)
    requires s != "" && s[0] != '/' && s[|s| - 1] != '/'
    ensures TrimLeft(s) == s && TrimRight(s) == s && TrimLeft("/" + s) == s && TrimRight(s + "/") == s
    ensures TrimLeft(s + "/") == s + "/"
  {
    assert ("/" + s)[1..] == s;
    assert (s + "/")[..|s|] == s;
  }

  /** A path joined from segments without slashes tells them apart. */
  lemma SamePath(a: string, p: string)
    ensures Join(Split(p)) == a <==> Split(p) == Split(a)
  {
    JoinOfSplit(p);
    JoinOfSplit(a);
  }

  /** What the forms of an entry say about a plain name: a file of that name
      anywhere, a directory of that name anywhere, this file at the root, this
      directory at the root. */
  lemma PlainEntryExcludes(name: string, p: string, glob: Glob)
    requires Literal(glob) && PlainName(name)
    ensures
      var segments := Split(p);
      && (Excludes(name, segments, glob) <==> segments[|segments| - 1] == name)
      && (Excludes(name + "/", segments, glob) <==> name in segments)
      && (Excludes("/" + name, segments, glob) <==> p == name)
      && (Excludes("/" + name + "/", segments, glob) <==> segments[0] == name)
  {
    hide Split, TrimLeft, TrimRight, Literal;
    NothingToTrim(name);
    assert name[0] in name && name[|name| - 1] in name;
    assert forall other: string :: glob(name, other) <==> name == other by {
      LiteralName(name, glob);
    }
    OneSegment(name);
    JoinOfSplit(p);
    assert Join(Split(p)[..1]) == Split(p)[0];
    assert Body(name) == Body(name + "/") == Body("/" + name) == name;
    assert "/" + name + "/" == "/" + (name + "/");
    TrimSlash(name + "/");
    assert Body("/" + name + "/") == name;
  }

  lemma LiteralName(name: string, glob: Glob)
    requires Literal(glob) && !HasMeta(name) && '\\' !in name
    ensures forall other: string :: glob(name, other) <==> name == other
  {
  }

  lemma TrimSlash(s: string)
    requires s != "" && s[0] != '/'
    ensures TrimLeft("/" + s) == s
  {
    assert ("/" + s)[1..] == s;
  }

  /** And about a plain name in a plain directory: this file, or everything under
      this directory, from the root. */
  lemma NestedEntryExcludes(dir: string, name: string, p: string, glob: Glob)
    requires Literal(glob) && PlainName(dir) && PlainName(name)
    ensures
      var segments := Split(p);
      && (Excludes(dir + "/" + name, segments, glob) <==> segments == [dir, name])
      && (Excludes(dir + "/" + name + "/", segments, glob) <==>
            |segments| >= 2 && segments[0] == dir && segments[1] == name)
  {
    hide Split, TrimLeft, TrimRight, Literal;
    var both := dir + "/" + name;
    assert both[0] == dir[0] && both[|both| - 1] == name[|name| - 1];
    assert dir[0] in dir && name[|name| - 1] in name;
    NothingToTrim(both);
    assert !HasMeta(both) && '\\' !in both && '/' in both by {
      assert both[|dir|] == '/';
    }
    LiteralName(both, glob);
    SplitAt(dir, name);
    OneSegment(dir);
    OneSegment(name);
    SamePath(both, p);
    assert Body(both) == both && Body(both + "/") == both;
    var segments := Split(p);
    if |segments| >= 2 {
      LeadIs(segments[..2], dir, name, p);
    }
  }

  lemma LeadIs(lead: seq<string>, dir: string, name: string, p: string)
    requires |Split(p)| >= 2 && lead == Split(p)[..2] && PlainName(dir) && PlainName(name)
    ensures Join(lead) == dir + "/" + name <==> lead[0] == dir && lead[1] == name
  {
    assert lead[..1] == [lead[0]];
    assert Join(lead) == lead[0] + "/" + lead[1];
    if Join(lead) == dir + "/" + name {
      SplitAt(lead[0], lead[1]);
      SplitAt(dir, name);
      OneSegment(lead[0]);
      OneSegment(lead[1]);
      OneSegment(dir);
      OneSegment(name);
      assert [lead[0]] + [lead[1]] == [dir] + [name];
      assert ([lead[0]] + [lead[1]])[0] == ([dir] + [name])[0] && ([lead[0]] + [lead[1]])[1] == ([dir] + [name])[1];
    }
  }

  /** Compiling the list and scanning the path decides exactly what the entries
      say: some entry excludes the path. */
  lemma CompiledListKeepsTheRule(m: Compiled, entries: seq<string>, p: string, glob: Glob)
    requires Compiles(m, entries) && Literal(glob) && forall e | e in entries :: ValidEntry(e)
    ensures Hits(m, Split(p), glob) <==> exists e :: e in entries && Excludes(e, Split(p), glob)
  {
    hide Compiles, Hits, HitsBy, Excludes, Split, Literal, ValidEntry;
    HitsIsSomeEntry(m, entries, Split(p), glob);
    forall e | e in entries ensures HitsBy(e, Split(p), glob) <==> Excludes(e, Split(p), glob) {
      HitsByTheRule(e, Split(p), glob);
    }
  }

  /** The two together, on the entries of one list. */
  method IsExcluded(entries: seq<string>, p: string, glob: Glob) returns (hit: bool)
    requires Literal(glob) && CleanPath(p) && forall e | e in entries :: ValidEntry(e)
    ensures hit <==> exists e :: e in entries && Excludes(e, Split(p), glob)
  {
    hide Hits, Excludes, Split, Literal, ValidEntry, CleanPath;
    var m := Compile(entries);
    forall d | d in m.pathDirs ensures d.segments > 0 {
      var e :| e in entries && KindOf(e) == AtPath && d == PathDir(Body(e), |Split(Body(e))|);
    }
    hit := Match(m, p, glob);
    CompiledListKeepsTheRule(m, entries, p, glob);
  }
}
