/** The phased apply engine: worktree deletes, worktree writes, `.git` deletes,
    `.git` writes, then the pointer swap (crates/core/src/apply.rs). */
module Apply {
  import opened Manifests
  import opened Naming
  import opened Merging
  import opened Disks

  datatype ApplyError = InvalidManifest | CaseCollision | DeleteFailed | WriteFailed

  datatype ApplyReport = ApplyReport(written: set<Path>, deleted: set<Path>)

  // ---------- what lands on disk ----------

  function Clamp(nanos: int): int {
    if nanos < 0 then 0 else if nanos > 999_999_999 then 999_999_999 else nanos
  }

  /** Only the permission bits and an in-range timestamp are materialized. */
  function Landed(e: FileEntry): FileEntry {
    e.(mode := e.mode % 0x200, mtimeNanos := Clamp(e.mtimeNanos))
  }

  predicate Plain(e: FileEntry) {
    e.mode < 0x200 && 0 <= e.mtimeNanos <= 999_999_999
  }

  lemma PlainIffLandsUnchanged(e: FileEntry)
    ensures Landed(e) == e <==> Plain(e)
  {
  }

  /** What lands is the same file but for permission bits above the lowest nine, which are cut off,
      and nanoseconds out of range, which move to the nearest end of it. */
  lemma LandsAs(e: FileEntry) returns (high: nat)
    ensures Landed(e).chunks == e.chunks && Landed(e).size == e.size && Landed(e).mtimeSecs == e.mtimeSecs
    ensures e.mode == high * 512 + Landed(e).mode && Landed(e).mode < 512
    ensures if e.mtimeNanos < 0 then Landed(e).mtimeNanos == 0
            else if e.mtimeNanos < 1_000_000_000 then Landed(e).mtimeNanos == e.mtimeNanos
            else Landed(e).mtimeNanos == 999_999_999
  {
    high := e.mode / 512;
  }

  /** Timestamps as a file system reports them. A scanned mode may have any of the bits of
      0o7777, and the manifest of another device anything at all. */
  ghost predicate Timed(m: Files) {
    forall p :: p in m ==> 0 <= m[p].mtimeNanos <= 999_999_999
  }

  function LandedFor(after: Files, paths: set<Path>): Files {
    map p | p in paths && p in after :: Landed(after[p])
  }

  function Writes(before: Files, after: Files): set<Path> {
    DiffOf(before, after).added + DiffOf(before, after).changed
  }

  function GitPart(paths: set<Path>): set<Path> {
    set p | p in paths && IsGitPath(p)
  }

  function WorktreePart(paths: set<Path>): set<Path> {
    set p | p in paths && !IsGitPath(p)
  }

  /** The files after a complete apply of the step from `before` to `after`. */
  function Applied(files: Files, before: Files, after: Files): Files {
    (files - DiffOf(before, after).deleted) + LandedFor(after, Writes(before, after))
  }

  function ChunksOf(e: FileEntry): set<Hash> {
    set h | h in e.chunks
  }

  lemma ChunksOfAll(e: FileEntry, have: set<Hash>)
    ensures ChunksOf(e) <= have <==> forall k :: 0 <= k < |e.chunks| ==> e.chunks[k] in have
  {
    assert forall k :: 0 <= k < |e.chunks| ==> e.chunks[k] in ChunksOf(e);
  }

  // ---------- interruption ----------

  /** The same file but for its timestamp, which is restored after the rename. */
  predicate JustRenamed(e: FileEntry, entry: FileEntry) {
    e == entry.(mtimeSecs := e.mtimeSecs, mtimeNanos := e.mtimeNanos)
  }

  /** A path is as it was at the start or as it will be at the end, or has just got its new
      file, if it gets one. */
  predicate AtPath(start: Option<FileEntry>, t: Option<FileEntry>, end: Option<FileEntry>, writes: bool) {
    t == start || t == end || (writes && t.Some? && end.Some? && JustRenamed(t.value, end.value))
  }

  ghost predicate PathwiseBetween(start: Files, t: Files, end: Files, writes: set<Path>) {
    forall p :: AtPath(Get(start, p), Get(t, p), Get(end, p), p in writes)
  }

  /** The repository is touched only once the whole worktree is at its final state. */
  ghost predicate WorktreeBeforeGit(start: Files, t: Files, end: Files) {
    || (forall p :: IsGitPath(p) ==> Get(t, p) == Get(start, p))
    || (forall p :: !IsGitPath(p) ==> Get(t, p) == Get(end, p))
  }

  /** One state that an apply, or a phase of it, can leave behind if it stops there. */
  ghost predicate Midway(start: Snapshot, t: Snapshot, end: Files, writes: set<Path>) {
    t.kept == start.kept && t.pointer == start.pointer && PathwiseBetween(start.files, t.files, end, writes)
  }

  /** The states recorded since `before` are all midway. */
  ghost predicate AllMidway(start: Snapshot, before: seq<Snapshot>, trace: seq<Snapshot>, end: Files, writes: set<Path>) {
    before <= trace && forall i :: |before| <= i < |trace| ==> Midway(start, trace[i], end, writes)
  }

  // ---------- single files ----------

  method DeleteFile(disk: Disk, p: Path) returns (ok: bool)
    requires disk.Valid()
    modifies disk`files, disk`dirs, disk`trace
    ensures disk.Valid()
    ensures disk.files == old(disk.files) - {p}
    ensures disk.trace == old(disk.trace) + if p in old(disk.files) then [disk.Now()] else []
    ensures Tidy(old(disk.files), old(disk.dirs)) <= Tidy(disk.files, disk.dirs)
    ensures p in old(disk.files) ==> ok
  {
    ghost var files0, dirs0 := disk.files, disk.dirs;
    ok := disk.RemoveFile(p);
    if !ok {
      return;
    }
    disk.PruneEmptyParents(p);
    if p in files0 {
      forall r | TidyAt(files0, dirs0, r)
        ensures TidyAt(disk.files, disk.dirs, r)
      {
        GoneFromTidyTree(files0, dirs0, p, r);
      }
    }
  }

  lemma GoneFromTidyTree(files: Files, dirs: set<Path>, p: Path, r: Path)
    requires WellFormed(files, dirs) && TidyAt(files, dirs, r) && p in files
    ensures OnlyEmptyAbove(files - {p}, dirs, p, r)
  {
    forall d | d in dirs && r <= d && !(d < p)
      ensures HasFileBelow(files - {p}, d)
    {
      var q :| q in files && d < q;
      assert q in files - {p};
    }
  }

  /** Assembles the file from chunks in staging, makes its directory, renames it in
      and restores its timestamp. */
  method WriteFile(disk: Disk, p: Path, entry: FileEntry, have: set<Hash>) returns (ok: bool, ghost renamed: FileEntry)
    requires disk.Valid()
    modifies disk`files, disk`dirs, disk`trace
    ensures disk.Valid()
    ensures ok <==> HasRoom(old(disk.files), old(disk.dirs), p) && ChunksOf(entry) <= have
    ensures ok ==>
      && disk.files == old(disk.files)[p := Landed(entry)] && JustRenamed(renamed, Landed(entry))
      && disk.trace == old(disk.trace) + [Snapshot(old(disk.files)[p := renamed], disk.kept, disk.pointer), disk.Now()]
      && Tidy(old(disk.files), old(disk.dirs)) <= Tidy(disk.files, disk.dirs)
    ensures !ok ==> disk.files == old(disk.files) && disk.trace == old(disk.trace)
  {
    ghost var files0 := disk.files;
    renamed := Landed(entry);
    if !(ChunksOf(entry) <= have) {
      return false, renamed;
    }
    ParentIsLastAncestor(p);
    ok := disk.CreateDirAll(Dir(p));
    if !ok {
      return;
    }
    var nowSecs: int, nowNanos: int := *, *;
    var staged := Landed(entry).(mtimeSecs := nowSecs, mtimeNanos := nowNanos);
    renamed := staged;
    ok := disk.RenameInto(p, staged);
    if ok {
      disk.SetTime(p, Landed(entry).mtimeSecs, Landed(entry).mtimeNanos);
      assert disk.files == files0[p := Landed(entry)];
      forall r | TidyAt(files0, old(disk.dirs), r)
        ensures TidyAt(disk.files, disk.dirs, r)
      {
        RoomForFile(files0, old(disk.dirs), disk.dirs, p, Landed(entry), r);
      }
    }
  }

  /** No file is in the way above, and no directory at the path itself. */
  ghost predicate HasRoom(files: Files, dirs: set<Path>, p: Path) {
    p != [] && p !in dirs && forall a :: a in Ancestors(p) ==> a !in files
  }

  lemma ParentIsLastAncestor(p: Path)
    ensures |p| > 1 ==> Dir(p) in Ancestors(p) && Ancestors(p) == Ancestors(Dir(p)) + {Dir(p)}
    ensures |p| == 1 ==> Dir(p) == [] && Ancestors(p) == {} == Ancestors(Dir(p))
    ensures p !in Ancestors(p)
  {
    if |p| > 1 {
      DirIsLastAncestor(p);
    }
  }

  /** Where the tree is tidy, only files can be in the way. */
  lemma NothingInTheWay(files: Files, dirs: set<Path>, p: Path)
    requires p != [] && TidyAt(files, dirs, p)
    requires forall q :: q in files ==> !(p < q) && !(q < p)
    ensures HasRoom(files, dirs, p)
  {
    forall a | a in Ancestors(p)
      ensures a !in files
    {
      AncestorsAreProperPrefixes(p, a);
    }
  }

  lemma RoomForFile(files: Files, before: set<Path>, dirs: set<Path>, p: Path, entry: FileEntry, r: Path)
    requires p != [] && TidyAt(files, before, r)
    requires dirs == if Dir(p) == [] then before else before + Ancestors(Dir(p)) + {Dir(p)}
    ensures TidyAt(files[p := entry], dirs, r)
  {
    ParentIsLastAncestor(p);
    forall d | d in dirs && r <= d
      ensures HasFileBelow(files[p := entry], d)
    {
      AncestorsAreProperPrefixes(p, d);
      if d in before && !(d < p) {
        var q :| q in files && d < q;
        assert q in files[p := entry];
      } else {
        assert p in files[p := entry] && d < p;
      }
    }
  }

  // ---------- phases ----------

  method DeleteAll(disk: Disk, paths: set<Path>) returns (ok: bool)
    requires disk.Valid()
    modifies disk`files, disk`dirs, disk`trace
    ensures disk.Valid()
    ensures AllMidway(old(disk.Now()), old(disk.trace), disk.trace, old(disk.files) - paths, {})
    ensures ok ==> disk.files == old(disk.files) - paths
    ensures Tidy(old(disk.files), old(disk.dirs)) <= Tidy(disk.files, disk.dirs)
    ensures paths <= old(disk.files).Keys ==> ok
  {
    ghost var tidy := Tidy(disk.files, disk.dirs);
    ghost var start, trace0 := disk.Now(), disk.trace;
    var todo := paths;
    assert start.files - (paths - todo) == start.files;
    assert AllMidway(start, trace0, disk.trace, start.files - paths, {});
    hide Tidy, WellFormed, HasFileBelow, AllMidway, PathwiseBetween;
    while todo != {}
      invariant disk.Valid() && todo <= paths
      invariant disk.kept == start.kept && disk.pointer == start.pointer
      invariant disk.files == start.files - (paths - todo)
      invariant AllMidway(start, trace0, disk.trace, start.files - paths, {})
      invariant tidy <= Tidy(disk.files, disk.dirs)
      decreases todo
    {
      var p :| p in todo;
      ghost var trace := disk.trace;
      ok := DeleteFile(disk, p);
      DeletedOneMore(start, paths, todo, p);
      if trace != disk.trace {
        OneMoreState(start, trace0, trace, disk.Now(), start.files - paths, {});
      }
      if !ok {
        return;
      }
      todo := todo - {p};
    }
    ok := true;
  }

  lemma DeletedOneMore(start: Snapshot, paths: set<Path>, todo: set<Path>, p: Path)
    requires todo <= paths && p in todo
    ensures start.files - (paths - todo) - {p} == start.files - (paths - (todo - {p}))
    ensures PathwiseBetween(start.files, start.files - (paths - (todo - {p})), start.files - paths, {})
  {
    assert paths - (todo - {p}) == (paths - todo) + {p};
  }

  /** `files` with everything in `paths` written as `after` has it. */
  function Written(files: Files, after: Files, paths: set<Path>): Files {
    files + LandedFor(after, paths)
  }

  method WriteAll(disk: Disk, paths: set<Path>, after: Files, have: set<Hash>) returns (ok: bool)
    requires disk.Valid() && paths <= after.Keys
    modifies disk`files, disk`dirs, disk`trace
    ensures disk.Valid()
    ensures AllMidway(old(disk.Now()), old(disk.trace), disk.trace, Written(old(disk.files), after, paths), paths)
    ensures ok ==> disk.files == Written(old(disk.files), after, paths)
    ensures && (forall p :: p in paths ==> p in Tidy(old(disk.files), old(disk.dirs)))
            && [] !in paths
            && (forall p :: p in paths ==> ChunksOf(after[p]) <= have)
            && NoFileIsADirectory(Written(old(disk.files), after, paths))
            ==> ok
    ensures ok ==> Tidy(old(disk.files), old(disk.dirs)) <= Tidy(disk.files, disk.dirs)
  {
    ghost var files0, start, trace0 := disk.files, disk.Now(), disk.trace;
    ghost var tidy := Tidy(disk.files, disk.dirs);
    ghost var end := Written(files0, after, paths);
    ghost var fits := && (forall p :: p in paths ==> p in tidy) && [] !in paths && NoFileIsADirectory(end)
                      && (forall p :: p in paths ==> ChunksOf(after[p]) <= have);
    var todo := paths;
    WrittenNone(files0, after);
    assert paths - todo == {};
    hide TidyAt, NoFileIsADirectory, AllMidway, Written, WellFormed, HasRoom, PathwiseBetween, Landed, JustRenamed;
    while todo != {}
      invariant disk.Valid() && todo <= paths
      invariant disk.kept == start.kept && disk.pointer == start.pointer
      invariant disk.files == Written(files0, after, paths - todo)
      invariant AllMidway(start, trace0, disk.trace, end, paths)
      invariant tidy <= Tidy(disk.files, disk.dirs)
      decreases todo
    {
      var p :| p in todo;
      if fits {
        NoClash(files0, after, paths, todo, p);
        NothingInTheWay(disk.files, disk.dirs, p);
      }
      ghost var trace, renamed := disk.trace, after[p];
      ok, renamed := WriteFile(disk, p, after[p], have);
      if !ok {
        return;
      }
      OneFileMore(start, trace0, trace, after, paths, todo, p, renamed);
      todo := todo - {p};
    }
    assert paths - todo == paths;
    ok := true;
  }

  lemma WrittenNone(files: Files, after: Files)
    ensures Written(files, after, {}) == files
  {
  }

  lemma NoClash(files: Files, after: Files, paths: set<Path>, todo: set<Path>, p: Path)
    requires paths <= after.Keys && todo <= paths && p in todo
    requires NoFileIsADirectory(Written(files, after, paths))
    ensures forall q :: q in Written(files, after, paths - todo) ==> !(p < q) && !(q < p)
  {
    assert forall q :: q in Written(files, after, paths - todo) ==> q in Written(files, after, paths);
    assert p in Written(files, after, paths);
  }

  lemma OneMoreState(start: Snapshot, before: seq<Snapshot>, trace: seq<Snapshot>, t: Snapshot, end: Files, writes: set<Path>)
    requires AllMidway(start, before, trace, end, writes) && Midway(start, t, end, writes)
    ensures AllMidway(start, before, trace + [t], end, writes)
  {
  }

  /** The two states that one write adds: right after the rename, and with its time. */
  lemma OneFileMore(start: Snapshot, before: seq<Snapshot>, trace: seq<Snapshot>, after: Files, paths: set<Path>,
                    todo: set<Path>, p: Path, renamed: FileEntry)
    requires paths <= after.Keys && todo <= paths && p in todo && JustRenamed(renamed, Landed(after[p]))
    requires AllMidway(start, before, trace, Written(start.files, after, paths), paths)
    ensures var was := Written(start.files, after, paths - todo);
      && was[p := Landed(after[p])] == Written(start.files, after, paths - (todo - {p}))
      && AllMidway(start, before, trace + [start.(files := was[p := renamed]), start.(files := was[p := Landed(after[p])])],
                   Written(start.files, after, paths), paths)
  {
    var was, end := Written(start.files, after, paths - todo), Written(start.files, after, paths);
    WrittenNext(start.files, after, paths, todo, p);
    WrittenPart(start.files, after, paths, paths - todo);
    WrittenPart(start.files, after, paths, paths - (todo - {p}));
    hide Written, Landed, JustRenamed, PathwiseBetween, AllMidway;
    RenamedBetween(start.files, was, end, paths, p, Landed(after[p]), renamed);
    StillBetween(start.files, was[p := Landed(after[p])], end, paths);
    var s1, s2 := start.(files := was[p := renamed]), start.(files := was[p := Landed(after[p])]);
    OneMoreState(start, before, trace, s1, end, paths);
    OneMoreState(start, before, trace + [s1], s2, end, paths);
    assert trace + [s1] + [s2] == trace + [s1, s2];
  }

  lemma WrittenNext(files: Files, after: Files, paths: set<Path>, todo: set<Path>, p: Path)
    requires paths <= after.Keys && todo <= paths && p in todo
    ensures Written(files, after, paths - todo)[p := Landed(after[p])] == Written(files, after, paths - (todo - {p}))
    ensures Get(Written(files, after, paths), p) == Some(Landed(after[p]))
  {
    hide Landed;
  }

  lemma RenamedBetween(files: Files, t: Files, end: Files, writes: set<Path>, p: Path, e: FileEntry, renamed: FileEntry)
    requires PathwiseBetween(files, t, end, {}) && p in writes && Get(end, p) == Some(e) && JustRenamed(renamed, e)
    ensures PathwiseBetween(files, t[p := renamed], end, writes)
  {
    hide JustRenamed;
  }

  lemma StillBetween(files: Files, t: Files, end: Files, writes: set<Path>)
    requires PathwiseBetween(files, t, end, {})
    ensures PathwiseBetween(files, t, end, writes)
  {
    hide Get;
  }

  lemma WrittenPart(files: Files, after: Files, paths: set<Path>, some: set<Path>)
    requires some <= paths
    ensures PathwiseBetween(files, Written(files, after, some), Written(files, after, paths), {})
  {
    hide Landed;
  }

  // ---------- the whole apply ----------

  function AfterWorktreeDeletes(files: Files, before: Files, after: Files): Files {
    files - WorktreePart(DiffOf(before, after).deleted)
  }

  function AfterWorktree(files: Files, before: Files, after: Files): Files {
    Written(AfterWorktreeDeletes(files, before, after), after, WorktreePart(Writes(before, after)))
  }

  function AfterGitDeletes(files: Files, before: Files, after: Files): Files {
    AfterWorktree(files, before, after) - GitPart(DiffOf(before, after).deleted)
  }

  ghost predicate AgreeOnGit(a: Files, b: Files) {
    forall p :: IsGitPath(p) ==> Get(a, p) == Get(b, p)
  }

  ghost predicate AgreeOnWorktree(a: Files, b: Files) {
    forall p :: !IsGitPath(p) ==> Get(a, p) == Get(b, p)
  }

  /** The entry at `p` once the deletes and writes of the given parts are done. */
  function Progress(files: Files, before: Files, after: Files, deletes: bool, writes: bool, p: Path): Option<FileEntry> {
    if writes && p in Writes(before, after) then Some(Landed(after[p]))
    else if deletes && p in DiffOf(before, after).deleted then None
    else Get(files, p)
  }

  lemma PhaseLookups(files: Files, before: Files, after: Files, p: Path)
    ensures Get(AfterWorktreeDeletes(files, before, after), p) == Progress(files, before, after, !IsGitPath(p), false, p)
    ensures Get(AfterWorktree(files, before, after), p) == Progress(files, before, after, !IsGitPath(p), !IsGitPath(p), p)
    ensures Get(AfterGitDeletes(files, before, after), p) == Progress(files, before, after, true, !IsGitPath(p), p)
    ensures Get(Applied(files, before, after), p) == Progress(files, before, after, true, true, p)
    ensures Get(Written(AfterGitDeletes(files, before, after), after, GitPart(Writes(before, after))), p)
         == Progress(files, before, after, true, true, p)
  {
  }

  lemma PhaseEnds(files: Files, before: Files, after: Files)
    ensures var f1, f2, f3 := AfterWorktreeDeletes(files, before, after), AfterWorktree(files, before, after),
             AfterGitDeletes(files, before, after);
            var end := Applied(files, before, after);
            && PathwiseBetween(files, f1, end, {}) && PathwiseBetween(files, f2, end, {}) && PathwiseBetween(files, f3, end, {})
            && PathwiseBetween(files, files, end, {}) && PathwiseBetween(files, end, end, {})
            && AgreeOnGit(files, files) && AgreeOnGit(files, f1) && AgreeOnGit(files, f2)
            && AgreeOnWorktree(f2, end) && AgreeOnWorktree(f3, end) && AgreeOnWorktree(end, end)
            && Written(f3, after, GitPart(Writes(before, after))) == end
  {
    forall p {
      PhaseLookups(files, before, after, p);
    }
    assert forall p :: p in Writes(before, after) ==> p !in DiffOf(before, after).deleted;
    hide DiffOf, Writes, AfterWorktreeDeletes, AfterWorktree, AfterGitDeletes, Applied, Written, Landed, IsGitPath, Get;
    EqualByLookup(Written(AfterGitDeletes(files, before, after), after, GitPart(Writes(before, after))),
             Applied(files, before, after));
  }

  /** A state that stopping the whole apply can leave behind. */
  ghost predicate Interrupted(start: Snapshot, t: Snapshot, end: Files, writes: set<Path>, commit: Files) {
    && t.kept == start.kept
    && PathwiseBetween(start.files, t.files, end, writes)
    && WorktreeBeforeGit(start.files, t.files, end)
    && (t.pointer == start.pointer || (t.pointer == Some(commit) && t.files == end))
  }

  ghost predicate AllInterrupted(start: Snapshot, before: seq<Snapshot>, trace: seq<Snapshot>, end: Files, writes: set<Path>,
                                 commit: Files) {
    before <= trace && forall i :: |before| <= i < |trace| ==> Interrupted(start, trace[i], end, writes, commit)
  }

  lemma PhaseStates(start: Snapshot, from: Snapshot, to: Files, written: set<Path>, before: seq<Snapshot>, mid: seq<Snapshot>,
                    trace: seq<Snapshot>, end: Files, writes: set<Path>, commit: Files)
    requires AllInterrupted(start, before, mid, end, writes, commit) && AllMidway(from, mid, trace, to, written)
    requires from.kept == start.kept && from.pointer == start.pointer
    requires PathwiseBetween(start.files, from.files, end, {}) && PathwiseBetween(start.files, to, end, {})
    requires forall p :: p in written ==> p in writes && Get(to, p) == Get(end, p)
    requires (AgreeOnGit(start.files, from.files) && AgreeOnGit(start.files, to) && forall p :: p in written ==> !IsGitPath(p))
          || (AgreeOnWorktree(from.files, end) && AgreeOnWorktree(to, end) && forall p :: p in written ==> IsGitPath(p))
    ensures AllInterrupted(start, before, trace, end, writes, commit)
  {
    hide IsGitPath, Get, JustRenamed;
    forall i | |before| <= i < |trace|
      ensures Interrupted(start, trace[i], end, writes, commit)
    {
      if i < |mid| {
        assert trace[i] == mid[i];
      } else {
        assert Midway(from, trace[i], to, written);
      }
    }
  }

  /** What the two write phases write is final from then on. */
  lemma WrittenIsFinal(files: Files, before: Files, after: Files)
    ensures forall p :: p in WorktreePart(Writes(before, after)) ==>
              p in Writes(before, after) && Get(AfterWorktree(files, before, after), p) == Get(Applied(files, before, after), p)
    ensures forall p :: p in GitPart(Writes(before, after)) ==> p in Writes(before, after)
  {
    forall p {
      PhaseLookups(files, before, after, p);
    }
    hide AfterWorktree, Applied, Writes;
  }

  /** Two distinct keys that a case-insensitive file system would take for one. */
  ghost predicate FoldCollision(m: Files, fold: Path -> Path) {
    exists p, q :: p in m && q in m && p != q && fold(p) == fold(q)
  }

  method CheckFolds(m: Files, fold: Path -> Path) returns (ok: bool)
    ensures ok <==> !FoldCollision(m, fold)
  {
    var folded: map<Path, Path> := map[];
    var todo := m.Keys;
    while todo != {}
      invariant todo <= m.Keys
      invariant forall p :: p in m && p !in todo ==> fold(p) in folded && folded[fold(p)] == p
      invariant forall f :: f in folded ==> folded[f] in m && folded[f] !in todo && fold(folded[f]) == f
      decreases todo
    {
      var p :| p in todo;
      if fold(p) in folded {
        return false;
      }
      folded := folded[fold(p) := p];
      todo := todo - {p};
    }
    ok := true;
  }

  ghost predicate HasChunksFor(after: Files, paths: set<Path>, have: set<Hash>) {
    forall p :: p in paths && p in after ==> ChunksOf(after[p]) <= have
  }

  /** From a tree that holds exactly `before`, no step meets a clash. */
  lemma PhasesFit(before: Files, after: Files)
    requires Valid(before) && Valid(after)
    ensures var d := DiffOf(before, after);
      && WorktreePart(d.deleted) <= before.Keys
      && GitPart(d.deleted) <= AfterWorktree(before, before, after).Keys
      && NoFileIsADirectory(AfterWorktree(before, before, after))
      && NoFileIsADirectory(Applied(before, before, after))
      && [] !in Writes(before, after)
  {
    hide ValidPath, ValidEntry;
    var f2 := AfterWorktree(before, before, after);
    forall p, q | p in f2 && q in f2
      ensures !(p < q)
    {
      assert p in if IsGitPath(p) then before else after;
      assert q in if IsGitPath(q) then before else after;
      if p < q {
        PrefixSharesPart(before, after, p, q);
      }
    }
    assert Applied(before, before, after).Keys == after.Keys;
    assert forall p :: p in Writes(before, after) ==> p in after && ValidPath(p);
    EmptyPathInvalid();
  }

  lemma EmptyPathInvalid()
    ensures !ValidPath([])
  {
  }

  lemma PrefixSharesPart(before: Files, after: Files, p: Path, q: Path)
    requires Valid(before) && Valid(after) && p < q
    requires (p in before && ValidPath(p)) || (p in after && ValidPath(p))
    ensures IsGitPath(p) == IsGitPath(q)
  {
    assert p != [] && p[0] == q[0];
  }

  lemma NoNewStates(start: Snapshot, before: seq<Snapshot>, end: Files, writes: set<Path>, commit: Files)
    ensures AllInterrupted(start, before, before, end, writes, commit)
  {
  }

  lemma FinalState(start: Snapshot, before: seq<Snapshot>, trace: seq<Snapshot>, t: Snapshot, end: Files, writes: set<Path>,
                   commit: Files)
    requires AllInterrupted(start, before, trace, end, writes, commit)
    requires t == Snapshot(end, start.kept, Some(commit))
    ensures AllInterrupted(start, before, trace + [t], end, writes, commit)
  {
  }

  lemma WritesComeFromAfter(before: Files, after: Files)
    ensures WorktreePart(Writes(before, after)) <= after.Keys && GitPart(Writes(before, after)) <= after.Keys
  {
  }

  method ApplyCommit(disk: Disk, before: Files, after: Files, have: set<Hash>, commit: Files, fold: Path -> Path)
    returns (r: Result<ApplyReport, ApplyError>)
    requires disk.Valid()
    modifies disk
    ensures disk.Valid() && disk.kept == old(disk.kept)
    // Stopping anywhere leaves each path old or new or, right after its rename, new with
    // another time; the repository last; and the pointer unmoved until everything is in place.
    ensures AllInterrupted(old(disk.Now()), old(disk.trace), disk.trace, Applied(old(disk.files), before, after),
                           Writes(before, after), commit)
    ensures r.Ok? ==>
      && disk.files == Applied(old(disk.files), before, after)
      && disk.pointer == Some(commit)
      && r.value == ApplyReport(Writes(before, after), DiffOf(before, after).deleted)
    ensures r.Err? ==> disk.pointer == old(disk.pointer)
    ensures r == Err(InvalidManifest) <==> !(Valid(before) && Valid(after))
    ensures r == Err(CaseCollision) <==> Valid(before) && Valid(after) && FoldCollision(after, fold)
    // From a tree that holds exactly `before`, without an empty directory in the place of a
    // file, nothing can clash.
    ensures && Valid(before) && Valid(after) && !FoldCollision(after, fold)
            && old(disk.files) == before
            && (forall p :: p in Writes(before, after) ==> p in Tidy(old(disk.files), old(disk.dirs)))
            && HasChunksFor(after, Writes(before, after), have)
            ==> r.Ok?
    ensures r.Ok? ==> Tidy(old(disk.files), old(disk.dirs)) <= Tidy(disk.files, disk.dirs)
  {
    hide Valid, FoldCollision, TidyAt, WellFormed, NoFileIsADirectory, DiffOf;
    hide PathwiseBetween, Written, Applied, AllMidway, AllInterrupted;
    ghost var files0, start, trace0 := disk.files, disk.Now(), disk.trace;
    ghost var end := Applied(files0, before, after);
    ghost var all := Writes(before, after);
    NoNewStates(start, trace0, end, all, commit);
    var validBefore := Validate(before);
    var validAfter := Validate(after);
    if !validBefore || !validAfter {
      return Err(InvalidManifest);
    }
    var distinct := CheckFolds(after, fold);
    if !distinct {
      return Err(CaseCollision);
    }
    PhaseEnds(files0, before, after);
    PhasesFit(before, after);
    WritesComeFromAfter(before, after);
    WrittenIsFinal(files0, before, after);
    var d := Diff(before, after);
    var writes := d.added + d.changed;

    ghost var from, trace := disk.Now(), disk.trace;
    var ok := DeleteAll(disk, WorktreePart(d.deleted));
    PhaseStates(start, from, AfterWorktreeDeletes(files0, before, after), {}, trace0, trace, disk.trace, end, all, commit);
    if !ok {
      return Err(DeleteFailed);
    }
    from, trace := disk.Now(), disk.trace;
    ok := WriteAll(disk, WorktreePart(writes), after, have);
    PhaseStates(start, from, AfterWorktree(files0, before, after), WorktreePart(writes), trace0, trace, disk.trace,
             end, all, commit);
    if !ok {
      return Err(WriteFailed);
    }
    from, trace := disk.Now(), disk.trace;
    ok := DeleteAll(disk, GitPart(d.deleted));
    PhaseStates(start, from, AfterGitDeletes(files0, before, after), {}, trace0, trace, disk.trace, end, all, commit);
    if !ok {
      return Err(DeleteFailed);
    }
    from, trace := disk.Now(), disk.trace;
    ok := WriteAll(disk, GitPart(writes), after, have);
    PhaseStates(start, from, end, GitPart(writes), trace0, trace, disk.trace, end, all, commit);
    if !ok {
      return Err(WriteFailed);
    }
    trace := disk.trace;
    disk.WritePointer(commit);
    FinalState(start, trace0, trace, disk.Now(), end, all, commit);
    r := Ok(ApplyReport(writes, d.deleted));
  }

  /** A finished apply replaces the old tree by exactly the new one unless it had to
      write permission bits or a timestamp that it does not materialize. */
  lemma ReplacesExactlyIff(before: Files, after: Files)
    ensures Applied(before, before, after) == after <==> forall p :: p in Writes(before, after) ==> Plain(after[p])
  {
    var end := Applied(before, before, after);
    assert end.Keys == after.Keys;
    forall p | p in after
      ensures end[p] == if p in Writes(before, after) then Landed(after[p]) else after[p]
    {
    }
    if end == after {
      forall p | p in Writes(before, after)
        ensures Plain(after[p])
      {
        PlainIffLandsUnchanged(after[p]);
      }
    }
  }
}
