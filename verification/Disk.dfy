/** A workspace directory on disk: files, real directories, the local conflict area
    and the manifest pointer, with the system calls the engine uses and how each of
    them can fail. */
module Disks {
  import opened Manifests
  import opened Naming

  /** What survives a crash at one instant. `kept` is the local conflict area and
      `pointer` the manifest pointer. */
  datatype Snapshot = Snapshot(files: Files, kept: Files, pointer: Option<Files>)

  /** A directory tree: every file and directory lies in directories, and no name is
      both a file and a directory. */
  ghost predicate WellFormed(files: Files, dirs: set<Path>) {
    && [] !in files && [] !in dirs
    && (forall p :: p in files ==> Ancestors(p) <= dirs)
    && (forall d :: d in dirs ==> Ancestors(d) <= dirs)
    && (forall d :: d in dirs ==> d !in files)
  }

  ghost predicate HasFileBelow(files: Files, d: Path) {
    exists p :: p in files && d < p
  }

  /** No directory at `r` or below it is empty, all the way down. */
  ghost predicate TidyAt(files: Files, dirs: set<Path>, r: Path) {
    forall d :: d in dirs && r <= d ==> HasFileBelow(files, d)
  }

  /** The paths from which no empty directory can be reached. A directory that holds no file
      hinders nothing but a file of its own name, or of a directory above it. */
  ghost function Tidy(files: Files, dirs: set<Path>): iset<Path> {
    iset r | TidyAt(files, dirs, r)
  }

  lemma AncestorsAreProperPrefixes(p: Path, d: Path)
    ensures d in Ancestors(p) <==> d != [] && d < p
  {
    if d != [] && d < p {
      assert d == p[..|d|];
    }
  }

  lemma DirIsLastAncestor(p: Path)
    requires |p| > 1
    ensures Dir(p) in Ancestors(p) && Ancestors(p) == Ancestors(Dir(p)) + {Dir(p)}
  {
    forall d
      ensures d in Ancestors(p) <==> d in Ancestors(Dir(p)) || d == Dir(p)
    {
      AncestorsAreProperPrefixes(p, d);
      AncestorsAreProperPrefixes(Dir(p), d);
      if d != [] && d < p {
        assert d == p[..|d|];
        if |d| < |Dir(p)| {
          assert d == Dir(p)[..|d|];
        } else {
          assert d == Dir(p);
        }
      }
    }
  }

  class Disk {
    var files: Files
    var dirs: set<Path>
    var kept: Files
    var pointer: Option<Files>
    ghost var trace: seq<Snapshot>

    /** The last recorded state is the present one. */
    ghost predicate Valid()
      reads this
    {
      WellFormed(files, dirs) && trace != [] && trace[|trace| - 1] == Now()
    }

    ghost function Now(): Snapshot
      reads this
    {
      Snapshot(files, kept, pointer)
    }

    constructor (files: Files, dirs: set<Path>, pointer: Option<Files>)
      requires WellFormed(files, dirs)
      ensures Valid() && this.files == files && this.dirs == dirs && this.pointer == pointer
      ensures kept == map[] && trace == [Now()]
    {
      this.files, this.dirs, this.pointer := files, dirs, pointer;
      kept, trace := map[], [Snapshot(files, map[], pointer)];
    }

    /** Unlinks a file. A missing file or parent is not an error; a directory in the
        way, above or at the path, is. */
    method RemoveFile(p: Path) returns (ok: bool)
      requires Valid()
      modifies this`files, this`trace
      ensures Valid()
      ensures p in old(files) ==> ok && files == old(files) - {p} && trace == old(trace) + [Now()]
      ensures p !in old(files) ==> files == old(files) && trace == old(trace)
      ensures p !in old(files) ==> (ok <==> p !in dirs && forall a :: a in Ancestors(p) ==> a !in files)
    {
      if p in files {
        files := files - {p};
        trace := trace + [Now()];
        return true;
      }
      ok := p !in dirs && forall a | a in Ancestors(p) :: a !in files;
    }

    predicate IsEmptyDir(d: Path)
      reads this
    {
      && d in dirs
      && (forall p | p in files :: !(d < p))
      && (forall e | e in dirs :: !(d < e))
    }

    /** Removes a directory that has nothing below it. */
    method RemoveDir(d: Path) returns (ok: bool)
      requires Valid()
      modifies this`dirs
      ensures Valid()
      ensures ok <==> old(IsEmptyDir(d))
      ensures dirs == if ok then old(dirs) - {d} else old(dirs)
    {
      ok := IsEmptyDir(d);
      if ok {
        forall p | p in files
          ensures d !in Ancestors(p)
        {
          AncestorsAreProperPrefixes(p, d);
        }
        forall e | e in dirs
          ensures d !in Ancestors(e)
        {
          AncestorsAreProperPrefixes(e, d);
        }
        dirs := dirs - {d};
      }
    }

    /** Makes `d` and every directory above it; fails when one of them is a file. */
    method CreateDirAll(d: Path) returns (ok: bool)
      requires Valid()
      modifies this`dirs
      ensures Valid()
      ensures ok <==> d !in files && forall a :: a in Ancestors(d) ==> a !in files
      ensures dirs == if ok && d != [] then old(dirs) + Ancestors(d) + {d} else old(dirs)
    {
      ok := d !in files && forall a | a in Ancestors(d) :: a !in files;
      if ok && d != [] {
        forall a | a in Ancestors(d)
          ensures a != [] && Ancestors(a) <= Ancestors(d)
        {
          AncestorsAreProperPrefixes(d, a);
          forall b | b in Ancestors(a)
            ensures b in Ancestors(d)
          {
            AncestorsAreProperPrefixes(a, b);
            AncestorsAreProperPrefixes(d, b);
          }
        }
        dirs := dirs + Ancestors(d) + {d};
      }
    }

    /** Renames a finished staging file into place, replacing a file but never a
        directory; the parent must exist. */
    method RenameInto(p: Path, entry: FileEntry) returns (ok: bool)
      requires Valid()
      modifies this`files, this`trace
      ensures Valid()
      ensures ok <==> p != [] && p !in dirs && (Dir(p) == [] || Dir(p) in dirs)
      ensures ok ==> files == old(files)[p := entry] && trace == old(trace) + [Now()]
      ensures !ok ==> files == old(files) && trace == old(trace)
    {
      ok := p != [] && p !in dirs && (Dir(p) == [] || Dir(p) in dirs);
      if ok {
        if |p| > 1 {
          DirIsLastAncestor(p);
        }
        files := files[p := entry];
        trace := trace + [Now()];
      }
    }

    /** Restores the timestamp of a file. */
    method SetTime(p: Path, mtimeSecs: int, mtimeNanos: int)
      requires Valid() && p in files
      modifies this`files, this`trace
      ensures Valid()
      ensures files == old(files)[p := old(files)[p].(mtimeSecs := mtimeSecs, mtimeNanos := mtimeNanos)]
      ensures trace == old(trace) + [Now()]
    {
      files := files[p := files[p].(mtimeSecs := mtimeSecs, mtimeNanos := mtimeNanos)];
      trace := trace + [Now()];
    }

    /** Copies the bytes and mode of one file to another path, then restores a
        timestamp. A crash in the middle leaves arbitrary content at the copy. */
    method CopyFile(source: Path, p: Path, mtimeSecs: int, mtimeNanos: int) returns (ok: bool, ghost torn: FileEntry)
      requires Valid()
      modifies this`files, this`trace
      ensures Valid()
      ensures ok <==> source in old(files) && p != [] && p !in dirs && (Dir(p) == [] || Dir(p) in dirs)
      ensures !ok ==> files == old(files) && trace == old(trace)
      ensures ok ==>
        && files == old(files)[p := old(files)[source].(mtimeSecs := mtimeSecs, mtimeNanos := mtimeNanos)]
        && trace == old(trace) + [Snapshot(old(files)[p := torn], kept, pointer), Now()]
    {
      var partial: FileEntry := *;
      torn := partial;
      if source !in files {
        ok := false;
        return;
      }
      var content := files[source];
      ghost var files0 := files;
      ok := RenameInto(p, partial);
      if ok {
        if |p| > 1 {
          DirIsLastAncestor(p);
        }
        files := files[p := content.(mtimeSecs := mtimeSecs, mtimeNanos := mtimeNanos)];
        assert files == files0[p := content.(mtimeSecs := mtimeSecs, mtimeNanos := mtimeNanos)];
        trace := trace + [Now()];
      }
    }

    method Keep(name: Path, entry: FileEntry)
      requires Valid()
      modifies this`kept, this`trace
      ensures Valid()
      ensures kept == old(kept)[name := entry] && trace == old(trace) + [Now()]
    {
      kept := kept[name := entry];
      trace := trace + [Now()];
    }

    /** The atomic swap of the manifest pointer. */
    method WritePointer(m: Files)
      requires Valid()
      modifies this`pointer, this`trace
      ensures Valid()
      ensures pointer == Some(m) && trace == old(trace) + [Now()]
    {
      pointer := Some(m);
      trace := trace + [Now()];
    }

    /** Removes the directories that a deletion left empty, climbing from the parent
        until one still has something in it. */
    method PruneEmptyParents(p: Path)
      requires Valid()
      modifies this`dirs
      ensures Valid() && dirs <= old(dirs)
      ensures forall r :: OnlyEmptyAbove(files, old(dirs), p, r) ==> TidyAt(files, dirs, r)
    {
      hide HasFileBelow;
      var d := Dir(p);
      while d != []
        invariant Valid() && dirs <= old(dirs)
        invariant d < p || d == p == []
        invariant forall e :: e in old(dirs) && (|e| <= |d| || !(e < p)) ==> e in dirs
        invariant forall e :: e in dirs && e < p ==> |e| <= |d|
        decreases |d|
      {
        var removed := RemoveDir(d);
        if !removed {
          AncestorsAreProperPrefixes(p, d);
          forall r | d in dirs && OnlyEmptyAbove(files, old(dirs), p, r)
            ensures TidyAt(files, dirs, r)
          {
            StoppedAtNonEmpty(files, dirs, old(dirs), p, d, r);
          }
          return;
        }
        forall e | e in dirs && e < p
          ensures |e| <= |Dir(d)|
        {
          assert e == p[..|e|] && d == p[..|d|];
        }
        d := Dir(d);
      }
    }
  }

  /** `p` has just gone from a tree that was tidy at `r`: of the directories there only those
      above `p` may have become empty. */
  ghost predicate OnlyEmptyAbove(files: Files, dirs: set<Path>, p: Path, r: Path) {
    && Ancestors(p) <= dirs
    && forall d :: d in dirs && r <= d && !(d < p) ==> HasFileBelow(files, d)
  }

  lemma PrefixesOfOne(e: Path, d: Path, p: Path)
    requires d < p
    ensures e < p && |e| <= |d| ==> e <= d
  {
    if e < p {
      assert e == p[..|e|] && d == p[..|d|];
    }
  }

  lemma StoppedAtNonEmpty(files: Files, dirs: set<Path>, before: set<Path>, p: Path, d: Path, r: Path)
    requires dirs <= before && d in dirs && d < p
    requires OnlyEmptyAbove(files, before, p, r)
    requires forall e :: e in dirs && e < p ==> |e| <= |d|
    requires (exists q :: q in files && d < q) || (exists e :: e in dirs && d < e)
    ensures TidyAt(files, dirs, r)
  {
    if r <= d {
      if e :| e in dirs && d < e {
        assert HasFileBelow(files, e);
        var q :| q in files && e < q;
        assert d < q;
      }
      var q :| q in files && d < q;
      forall e | e in dirs && r <= e
        ensures HasFileBelow(files, e)
      {
        PrefixesOfOne(e, d, p);
        assert e < p ==> e < q;
      }
    } else {
      forall e | e in dirs && r <= e
        ensures HasFileBelow(files, e)
      {
        PrefixesOfOne(e, d, p);
      }
    }
  }
}
