/** The live config directory: files and directories under one root, changed
    one system call at a time. */
module ConfigTree {
  import opened Wrappers

  /** The segments of a path below the root; the root itself is []. */
  type Path = seq<string>
  type Content = seq<int>

  function Parent(p: Path): Path
    requires p != []
  {
    p[..|p| - 1]
  }

  /** `a` names a directory somewhere above `p`. */
  predicate Above(a: Path, p: Path) {
    a < p
  }

  /** Every file and directory sits in a directory, and nothing is both. */
  ghost predicate WellFormed(files: map<Path, Content>, dirs: set<Path>) {
    && [] in dirs
    && files.Keys !! dirs
    && (forall p <- files :: p != [] && Parent(p) in dirs)
    && (forall d <- dirs :: d != [] ==> Parent(d) in dirs)
  }

  predicate HasChild(d: Path, files: map<Path, Content>, dirs: set<Path>) {
    || (exists p <- files :: p != [] && Parent(p) == d)
    || (exists p <- dirs :: p != [] && Parent(p) == d)
  }

  /** Every directory above an existing one exists. */
  lemma {:induction false} AboveIsThere(files: map<Path, Content>, dirs: set<Path>, d: Path, above: Path)
    requires WellFormed(files, dirs) && d in dirs && above <= d
    ensures above in dirs
    decreases |d|
  {
    if above != d {
      AboveIsThere(files, dirs, Parent(d), above);
    } else {
      assert above == d;
    }
  }

  class ConfigDir {
    var files: map<Path, Content>
    var dirs: set<Path>
    /** With `failing` set, the disk takes `left` more changes and then refuses
        every one. */
    var failing: bool
    var left: nat

    ghost predicate Valid()
      reads this
    {
      WellFormed(files, dirs)
    }

    constructor (files: map<Path, Content>, dirs: set<Path>)
      requires WellFormed(files, dirs)
      ensures Valid() && this.files == files && this.dirs == dirs && !failing
    {
      this.files, this.dirs, failing, left := files, dirs, false, 0;
    }

    /** Whether the disk takes one more change. */
    method Takes() returns (ok: bool)
      modifies this`left
      ensures ok <==> !failing || old(left) > 0
    {
      ok := !failing || left > 0;
      if failing && left > 0 {
        left := left - 1;
      }
    }

    /** Creates `d` and the directories it lacks above it, shallowest first. */
    method MakeDirs(d: Path) returns (ok: bool)
      requires Valid()
      modifies this`dirs, this`left
      ensures Valid() && old(dirs) <= dirs
      ensures forall e <- dirs :: e in old(dirs) || (e <= d && e != [])
      ensures ok ==> d in dirs
      ensures !failing ==> (ok <==> forall n | 0 < n <= |d| :: d[..n] !in files)
    {
      var n := 0;
      while n < |d|
        invariant 0 <= n <= |d| && Valid() && d[..n] in dirs
        invariant old(dirs) <= dirs && forall e <- dirs :: e in old(dirs) || (e <= d && e != [])
        invariant forall m | 0 < m <= n :: d[..m] !in files
      {
        var next := d[..n + 1];
        assert Parent(next) == d[..n] && next <= d;
        if next in files {
          return false;
        }
        if next !in dirs {
          var taken := Takes();
          if !taken {
            return false;
          }
          dirs := dirs + {next};
        }
        n := n + 1;
      }
      assert d[..n] == d;
      ok := true;
    }

    /** Replaces the file at `p` whole, or leaves it as it is. */
    method WriteFile(p: Path, content: Content) returns (ok: bool)
      requires Valid() && p != []
      modifies this`files, this`left
      ensures Valid()
      ensures ok ==> files == old(files)[p := content] && Parent(p) in dirs && p !in dirs
      ensures !ok ==> files == old(files)
      ensures !failing ==> (ok <==> Parent(p) in dirs && p !in dirs)
    {
      if p in dirs || Parent(p) !in dirs {
        return false;
      }
      ok := Takes();
      if ok {
        files := files[p := content];
      }
    }

    predicate Exists(p: Path)
      reads this
    {
      p in files || p in dirs
    }

    /** Removes a file, or a directory that is empty. */
    method Remove(p: Path) returns (ok: bool)
      requires Valid() && p != []
      modifies this`files, this`dirs, this`left
      ensures Valid()
      ensures ok ==> files == old(files) - {p} && dirs == old(dirs) - {p}
      ensures ok ==> !HasChild(p, old(files), old(dirs))
      ensures !ok ==> files == old(files) && dirs == old(dirs)
      ensures !failing ==> (ok <==> old(Exists(p)) && !HasChild(p, old(files), old(dirs)))
    {
      if !Exists(p) || HasChild(p, files, dirs) {
        return false;
      }
      ok := Takes();
      if ok {
        files, dirs := files - {p}, dirs - {p};
      }
    }
  }
}
