/** The three-way merge: the decision table, the declarative meaning of a merge
    outcome, and the loop that computes one (crates/core/src/merge.rs). */
module Merging {
  import opened Manifests
  import opened Naming

  datatype Side = Local | Remote

  datatype Decision =
    | Winner(entry: Option<FileEntry>)
    | Conflict(winner: FileEntry, loserSide: Side, loser: FileEntry)

  datatype ConflictCopy = ConflictCopy(side: Side, path: Path, copyPath: Path, localOnly: bool, entry: FileEntry)

  datatype MergeOutcome = MergeOutcome(merged: Manifest, applyFromRemote: ManifestDiff, conflicts: seq<ConflictCopy>)

  const LOCAL_CONFLICT_DIR: Path := [".pear", "conflicts"]

  predicate IsGitPath(path: Path) {
    path != [] && path[0] == ".git"
  }

  // ---------- the decision table ----------

  predicate AtLeastAsNew(a: FileEntry, b: FileEntry) {
    a.mtimeSecs > b.mtimeSecs || (a.mtimeSecs == b.mtimeSecs && a.mtimeNanos >= b.mtimeNanos)
  }

  function Decide(b: Option<FileEntry>, l: Option<FileEntry>, r: Option<FileEntry>): Decision {
    if l == r then Winner(l)
    else if l == b then Winner(r)
    else if r == b then Winner(l)
    else match (l, r)
      case (None, Some(_)) => Winner(r)
      case (Some(_), None) => Winner(l)
      case (Some(le), Some(re)) =>
        if SameContent(le, re) then
          Winner(Some(if AtLeastAsNew(re, le) then re else le))
        else if AtLeastAsNew(re, le) then
          Conflict(re, Local, le)
        else
          Conflict(le, Remote, re)
  }

  /** What ends up at the contested path itself. */
  function WinnerOf(d: Decision): Option<FileEntry> {
    match d
    case Winner(e) => e
    case Conflict(w, _, _) => Some(w)
  }

  function DecideAt(base: Files, local: Files, remote: Files, p: Path): Decision {
    Decide(Get(base, p), Get(local, p), Get(remote, p))
  }

  function WinnerAt(base: Files, local: Files, remote: Files, p: Path): Option<FileEntry> {
    WinnerOf(DecideAt(base, local, remote, p))
  }

  /** The side that did not change never beats the side that did, and what a
      change loses is either kept as a conflict copy or still there with a newer
      timestamp. */
  lemma DecideKeepsEdits(b: Option<FileEntry>, l: Option<FileEntry>, r: Option<FileEntry>)
    ensures var d := Decide(b, l, r);
      && WinnerOf(d) in {l, r}
      && (l == b ==> d == Winner(r))
      && (r == b ==> d == Winner(l))
      && (d.Conflict? ==> l != b && r != b && {Some(d.winner), Some(d.loser)} == {l, r} && !SameContent(d.winner, d.loser))
      && (forall e :: l == Some(e) && l != b ==>
            || (WinnerOf(d).Some? && SameContent(WinnerOf(d).value, e))
            || d == Conflict(d.winner, Local, e))
      && (forall e :: r == Some(e) && r != b ==>
            || (WinnerOf(d).Some? && SameContent(WinnerOf(d).value, e))
            || d == Conflict(d.winner, Remote, e))
  {
  }

  /** Last writer wins: of two edits no loser is newer than the winner, equal times go to
      the remote, and there is a conflict copy iff the contents differ. */
  lemma LastWriterWins(b: Option<FileEntry>, l: FileEntry, r: FileEntry)
    requires Some(l) != b && Some(r) != b
    ensures var d := Decide(b, Some(l), Some(r));
      && d.Conflict? == !SameContent(l, r)
      && (l.mtimeSecs > r.mtimeSecs || (l.mtimeSecs == r.mtimeSecs && l.mtimeNanos > r.mtimeNanos)
          <==> l != r && WinnerOf(d) == Some(l))
      && (WinnerOf(d) != Some(l) ==> WinnerOf(d) == Some(r))
  {
  }

  /** The two devices of one race each see the other as the remote side. They pick
      the same winner except on an equal timestamp with different entries: the
      tie rule alone does not make the decision symmetric. */
  lemma SwapAgreesUnlessTied(b: Option<FileEntry>, l: Option<FileEntry>, r: Option<FileEntry>)
    ensures WinnerOf(Decide(b, l, r)) == WinnerOf(Decide(b, r, l))
       <==> !(l != r && l != b && r != b && l.Some? && r.Some?
              && l.value.mtimeSecs == r.value.mtimeSecs && l.value.mtimeNanos == r.value.mtimeNanos)
  {
  }

  lemma TiedSwapExample() returns (b: Option<FileEntry>, l: Option<FileEntry>, r: Option<FileEntry>)
    ensures WinnerOf(Decide(b, l, r)) != WinnerOf(Decide(b, r, l))
  {
    b := None;
    l := Some(FileEntry(1, 0x1A4, 30, 0, []));
    r := Some(FileEntry(2, 0x1A4, 30, 0, []));
  }

  // ---------- what a merge outcome is ----------

  /** The name a copy claimed, whether or not it is then kept outside the tree. */
  function ClaimedName(c: ConflictCopy): Path {
    if c.localOnly && |c.copyPath| >= 2 then c.copyPath[2..] else c.copyPath
  }

  function CopyPathFor(path: Path, name: Path): Path {
    if IsGitPath(path) then LOCAL_CONFLICT_DIR + name else name
  }

  ghost function ClaimedNames(cs: seq<ConflictCopy>): set<Path> {
    set c | c in cs :: ClaimedName(c)
  }

  predicate Contested(base: Files, local: Files, remote: Files, p: Path) {
    DecideAt(base, local, remote, p).Conflict?
  }

  function ContestedPaths(base: Files, local: Files, remote: Files, paths: seq<Path>): seq<Path> {
    if paths == [] then []
    else
      var last := paths[|paths| - 1];
      ContestedPaths(base, local, remote, paths[..|paths| - 1])
      + (if Contested(base, local, remote, last) then [last] else [])
  }

  /** `c` preserves the losing side of a contested path, beside it or, for a path
      inside `.git`, under the local conflict directory. */
  ghost predicate PreservesLoser(c: ConflictCopy, base: Files, local: Files, remote: Files) {
    var d := DecideAt(base, local, remote, c.path);
    && d.Conflict?
    && c.side == d.loserSide
    && c.entry == d.loser
    && c.localOnly == IsGitPath(c.path)
    && c.copyPath == CopyPathFor(c.path, ClaimedName(c))
    && |ClaimedName(c)| == |c.path|
    && Dir(ClaimedName(c)) == Dir(c.path)
    && IsCopyName(FileName(ClaimedName(c)), FileName(c.path))
    && (!c.localOnly ==> !IsGitPath(c.copyPath))
    && ClaimedName(c) !in Reserved(local, remote)
  }

  ghost predicate IsCopyAt(copies: seq<ConflictCopy>, p: Path) {
    exists i :: 0 <= i < |copies| && !copies[i].localOnly && copies[i].copyPath == p
  }

  /** The meaning of one merge, without the exact numbering of copy names: at every
      path of either side stands the winner, beside them stand the copies of
      worktree losers, and every contested path has exactly one copy, under a name
      that is no key and no directory of either side. */
  ghost predicate Outcome(base: Files, local: Files, remote: Files, files: Files, copies: seq<ConflictCopy>) {
    && (forall p :: p in local || p in remote ==> Get(files, p) == WinnerAt(base, local, remote, p))
    && (forall p :: p in files ==> p in local || p in remote || IsCopyAt(copies, p))
    && (forall i :: 0 <= i < |copies| && !copies[i].localOnly ==> Get(files, copies[i].copyPath) == Some(copies[i].entry))
    && (forall i :: 0 <= i < |copies| ==> PreservesLoser(copies[i], base, local, remote))
    && (forall i, j :: 0 <= i < j < |copies| ==> copies[i].path != copies[j].path)
    && (forall i, j :: 0 <= i < j < |copies| ==> ClaimedName(copies[i]) != ClaimedName(copies[j]))
    && (forall p :: Contested(base, local, remote, p) ==> exists i :: 0 <= i < |copies| && copies[i].path == p)
  }

  function Label(side: Side, device: string): string {
    match side
    case Local => SanitizeDevice(device)
    case Remote => "remote"
  }

  /** The copies are made in path order, each under the first name still free. */
  ghost predicate NamedInOrder(local: Files, remote: Files, device: string, stamp: string,
                               contested: seq<Path>, copies: seq<ConflictCopy>) {
    && |copies| == |contested|
    && (forall i :: 0 <= i < |copies| ==> copies[i].path == contested[i])
    && (forall i :: 0 <= i < |copies| ==>
          IsClaim(Reserved(local, remote) + ClaimedNames(copies[..i]), copies[i].path,
                  Label(copies[i].side, device), stamp, ClaimedName(copies[i])))
  }

  /** What the tree must change to reach `merged`, less the copies made from files
      that are already on disk. */
  ghost function ApplyFromRemote(local: Files, files: Files, copies: seq<ConflictCopy>): ManifestDiff {
    var d := DiffOf(local, files);
    ManifestDiff(d.added - LocalCopies(copies), d.changed, d.deleted)
  }

  function LocalCopies(copies: seq<ConflictCopy>): set<Path> {
    set c | c in copies && c.side == Local && !c.localOnly :: c.copyPath
  }

  ghost predicate IsMerge(base: Manifest, local: Manifest, remote: Manifest, device: string, stamp: string,
                          paths: seq<Path>, out: MergeOutcome) {
    && Outcome(base.files, local.files, remote.files, out.merged.files, out.conflicts)
    && NamedInOrder(local.files, remote.files, device, stamp,
                    ContestedPaths(base.files, local.files, remote.files, paths), out.conflicts)
    && out.merged == Manifest(FORMAT_VERSION, local.workspaceId, local.scannedAtSecs, out.merged.files)
    && out.applyFromRemote == ApplyFromRemote(local.files, out.merged.files, out.conflicts)
  }

  /** `paths` lists every path some side knows, each once: the union in the order
      in which the source's sorted set yields it. */
  ghost predicate Enumerates(paths: seq<Path>, keys: set<Path>) {
    Lists(paths, keys) && [] !in paths
  }

  // ---------- the merge loop ----------

  /** The file map after the paths in `done` have been merged. */
  ghost predicate FilesSoFar(base: Files, local: Files, remote: Files, done: set<Path>,
                             files: Files, copies: seq<ConflictCopy>) {
    && (forall p :: p in local || p in remote ==>
          Get(files, p) == if p in done then WinnerAt(base, local, remote, p) else None)
    && (forall p :: p in files ==> p in local || p in remote || IsCopyAt(copies, p))
    && (forall i :: 0 <= i < |copies| && !copies[i].localOnly ==> Get(files, copies[i].copyPath) == Some(copies[i].entry))
  }

  /** The conflict list after the paths in `done` have been merged. */
  ghost predicate CopiesSoFar(base: Files, local: Files, remote: Files, done: set<Path>, copies: seq<ConflictCopy>) {
    && (forall i :: 0 <= i < |copies| ==> copies[i].path in done && PreservesLoser(copies[i], base, local, remote))
    && (forall i, j :: 0 <= i < j < |copies| ==> copies[i].path != copies[j].path)
    && (forall i, j :: 0 <= i < j < |copies| ==> ClaimedName(copies[i]) != ClaimedName(copies[j]))
    && (forall p :: p in done && Contested(base, local, remote, p) ==> exists i :: 0 <= i < |copies| && copies[i].path == p)
  }

  method Merge(base: Manifest, local: Manifest, remote: Manifest, device: string, stamp: string, paths: seq<Path>)
    returns (out: MergeOutcome)
    requires Enumerates(paths, base.files.Keys + local.files.Keys + remote.files.Keys)
    ensures IsMerge(base, local, remote, device, stamp, paths, out)
  {
    hide Outcome, NamedInOrder;
    var files, conflicts := MergeFiles(base.files, local.files, remote.files, device, stamp, paths);
    var merged := Manifest(FORMAT_VERSION, local.workspaceId, local.scannedAtSecs, files);
    var localCopies := LocalCopies(conflicts);
    var d := Diff(local.files, files);
    out := MergeOutcome(merged, d.(added := d.added - localCopies), conflicts);
  }

  /** The loop over the sorted union of paths, filling the file map and the
      conflict list. */
  method MergeFiles(base: Files, local: Files, remote: Files, device: string, stamp: string, paths: seq<Path>)
    returns (files: Files, conflicts: seq<ConflictCopy>)
    requires Enumerates(paths, base.Keys + local.Keys + remote.Keys)
    ensures Outcome(base, local, remote, files, conflicts)
    ensures NamedInOrder(local, remote, device, stamp, ContestedPaths(base, local, remote, paths), conflicts)
  {
    hide Decide, FilesSoFar, CopiesSoFar, NamedInOrder, IsClaim, PreservesLoser;
    hide Reserved, ClaimedNames, Outcome, SanitizeDevice, ClaimedName, Enumerates, SetOf, ContestedPaths, DecideAt;
    var ownLabel := SanitizeDevice(device);
    var names := new NameSpace(local, remote);
    files, conflicts := map[], [];
    ghost var done: set<Path> := {};
    NothingMerged(base, local, remote, device, stamp);
    WalkStarts(base, local, remote, paths);
    for i := 0 to |paths|
      invariant fresh(names)
      invariant names.taken == Reserved(local, remote) + ClaimedNames(conflicts)
      invariant done == SetOf(paths[..i])
      invariant FilesSoFar(base, local, remote, done, files, conflicts)
      invariant CopiesSoFar(base, local, remote, done, conflicts)
      invariant NamedInOrder(local, remote, device, stamp, ContestedPaths(base, local, remote, paths[..i]), conflicts)
    {
      var path := paths[i];
      NextPath(base, local, remote, paths, i);
      ContestedSnoc(base, local, remote, paths, i);
      match Decide(Get(base, path), Get(local, path), Get(remote, path)) {
        case Winner(entry) =>
          WinnerFiles(base, local, remote, done, path, files, conflicts);
          WinnerCopies(base, local, remote, done, path, conflicts);
          if entry.Some? {
            files := files[path := entry.value];
          }
        case Conflict(winner, loserSide, loser) =>
          var deviceLabel := match loserSide case Local => ownLabel case Remote => "remote";
          var name := names.Claim(path, deviceLabel, stamp);
          // A copy inside `.git` would be an invalid ref; it stays on this device.
          var localOnly := IsGitPath(path);
          var copy := ConflictCopy(loserSide, path, CopyPathFor(path, name), localOnly, loser);
          ConflictStep(base, local, remote, device, stamp, done, paths[..i], files, conflicts, copy, name);
          files := files[path := winner];
          if !localOnly {
            files := files[name := loser];
          }
          conflicts := conflicts + [copy];
      }
      done := done + {path};
    }
    assert paths[..|paths|] == paths;
    AllDone(base, local, remote, paths, files, conflicts);
  }

  lemma NothingMerged(base: Files, local: Files, remote: Files, device: string, stamp: string)
    ensures FilesSoFar(base, local, remote, {}, map[], [])
    ensures CopiesSoFar(base, local, remote, {}, [])
    ensures NamedInOrder(local, remote, device, stamp, [], [])
    ensures ClaimedNames([]) == {}
  {
  }

  lemma WalkStarts(base: Files, local: Files, remote: Files, paths: seq<Path>)
    ensures SetOf(paths[..0]) == {} && ContestedPaths(base, local, remote, paths[..0]) == []
  {
  }

  lemma NextPath(base: Files, local: Files, remote: Files, paths: seq<Path>, i: nat)
    requires i < |paths| && Enumerates(paths, base.Keys + local.Keys + remote.Keys)
    ensures paths[i] !in SetOf(paths[..i]) && paths[i] != [] && SetOf(paths[..i + 1]) == SetOf(paths[..i]) + {paths[i]}
    ensures Contested(base, local, remote, paths[i])
            <==> Decide(Get(base, paths[i]), Get(local, paths[i]), Get(remote, paths[i])).Conflict?
    ensures DecideAt(base, local, remote, paths[i]) == Decide(Get(base, paths[i]), Get(local, paths[i]), Get(remote, paths[i]))
  {
    hide Decide;
    Walk(paths, base.Keys + local.Keys + remote.Keys, i);
  }

  lemma AllDone(base: Files, local: Files, remote: Files, paths: seq<Path>, files: Files, copies: seq<ConflictCopy>)
    requires Enumerates(paths, base.Keys + local.Keys + remote.Keys)
    requires FilesSoFar(base, local, remote, SetOf(paths), files, copies)
    requires CopiesSoFar(base, local, remote, SetOf(paths), copies)
    ensures Outcome(base, local, remote, files, copies)
  {
    forall p | Contested(base, local, remote, p)
      ensures p in paths
    {
      assert p in base.Keys + local.Keys + remote.Keys;
    }
    forall p | p in local || p in remote
      ensures p in paths
    {
      assert p in base.Keys + local.Keys + remote.Keys;
    }
  }

  lemma WinnerCopies(base: Files, local: Files, remote: Files, done: set<Path>, path: Path, copies: seq<ConflictCopy>)
    requires CopiesSoFar(base, local, remote, done, copies)
    requires !Contested(base, local, remote, path)
    ensures CopiesSoFar(base, local, remote, done + {path}, copies)
  {
    hide Decide, PreservesLoser, ClaimedName;
  }

  lemma WinnerFiles(base: Files, local: Files, remote: Files, done: set<Path>, path: Path,
                   files: Files, copies: seq<ConflictCopy>)
    requires FilesSoFar(base, local, remote, done, files, copies)
    requires CopiesSoFar(base, local, remote, done, copies)
    requires path !in done
    ensures var w := WinnerAt(base, local, remote, path);
            FilesSoFar(base, local, remote, done + {path}, if w.Some? then files[path := w.value] else files, copies)
  {
    var w := WinnerAt(base, local, remote, path);
    assert w.Some? ==> path in local || path in remote;
    CopiesAvoidKeys(base, local, remote, done, copies);
    hide Decide, PreservesLoser, ClaimedName, CopiesSoFar, WinnerAt, IsCopyAt;
    if w.Some? {
      var files' := files[path := w.value];
      assert forall p :: p != path ==> Get(files', p) == Get(files, p);
      assert FilesSoFar(base, local, remote, done + {path}, files', copies);
    } else {
      assert FilesSoFar(base, local, remote, done + {path}, files, copies);
    }
  }

  lemma CopiesAvoidKeys(base: Files, local: Files, remote: Files, done: set<Path>, copies: seq<ConflictCopy>)
    requires CopiesSoFar(base, local, remote, done, copies)
    ensures forall i :: 0 <= i < |copies| && !copies[i].localOnly ==>
              copies[i].copyPath !in local && copies[i].copyPath !in remote && copies[i].copyPath == ClaimedName(copies[i])
  {
    forall i | 0 <= i < |copies| && !copies[i].localOnly
      ensures copies[i].copyPath !in local && copies[i].copyPath !in remote
    {
      assert PreservesLoser(copies[i], base, local, remote);
      assert ClaimedName(copies[i]) !in Reserved(local, remote);
    }
  }

  lemma NewCopyPreserves(base: Files, local: Files, remote: Files, copy: ConflictCopy, name: Path)
    requires copy.path != [] && Contested(base, local, remote, copy.path)
    requires var d := DecideAt(base, local, remote, copy.path);
             copy == ConflictCopy(d.loserSide, copy.path, CopyPathFor(copy.path, name), IsGitPath(copy.path), d.loser)
    requires name !in Reserved(local, remote)
    requires |name| == |copy.path| && Dir(name) == Dir(copy.path) && |FileName(name)| > 5
    requires IsCopyName(FileName(name), FileName(copy.path))
    ensures PreservesLoser(copy, base, local, remote) && ClaimedName(copy) == name
  {
    if !copy.localOnly && |copy.path| > 1 {
      assert name[0] == Dir(name)[0] == copy.path[0];
    }
  }

  lemma ConflictFiles(base: Files, local: Files, remote: Files, done: set<Path>, path: Path,
                      files: Files, copies: seq<ConflictCopy>, copy: ConflictCopy)
    requires FilesSoFar(base, local, remote, done, files, copies)
    requires CopiesSoFar(base, local, remote, done, copies)
    requires path !in done && copy.path == path && PreservesLoser(copy, base, local, remote)
    requires ClaimedName(copy) !in ClaimedNames(copies)
    ensures var w := DecideAt(base, local, remote, path).winner;
            FilesSoFar(base, local, remote, done + {path},
                       if copy.localOnly then files[path := w] else files[path := w][copy.copyPath := copy.entry],
                       copies + [copy])
  {
    CopyFacts(base, local, remote, copy);
    CopiesAvoidKeys(base, local, remote, done, copies);
    hide Decide, DecideAt, PreservesLoser, Reserved, CopiesSoFar, WinnerAt, ClaimedName, IsCopyAt, ClaimedNames;
    var w := DecideAt(base, local, remote, path).winner;
    var files' := if copy.localOnly then files[path := w] else files[path := w][copy.copyPath := copy.entry];
    CopyAtExtends(copies, copy);
    CopiesStayInPlace(copies, copy, files, w, local, remote);
    assert forall p :: p in local || p in remote ==> p != path ==> Get(files', p) == Get(files, p);
    assert forall p :: p in files' ==> p in files || p == path || (!copy.localOnly && p == copy.copyPath);
  }

  lemma CopyFacts(base: Files, local: Files, remote: Files, copy: ConflictCopy)
    requires PreservesLoser(copy, base, local, remote)
    ensures copy.path in local && copy.path in remote && DecideAt(base, local, remote, copy.path).Conflict?
    ensures WinnerAt(base, local, remote, copy.path) == Some(DecideAt(base, local, remote, copy.path).winner)
    ensures !copy.localOnly ==>
              ClaimedName(copy) == copy.copyPath && copy.copyPath !in local && copy.copyPath !in remote
  {
    assert ClaimedName(copy) !in local && ClaimedName(copy) !in remote;
  }

  lemma CopiesStayInPlace(copies: seq<ConflictCopy>, copy: ConflictCopy, files: Files, w: FileEntry, local: Files,
                          remote: Files)
    requires copy.path in local && ClaimedName(copy) !in ClaimedNames(copies)
    requires !copy.localOnly ==> ClaimedName(copy) == copy.copyPath && copy.copyPath !in local
    requires forall i :: 0 <= i < |copies| && !copies[i].localOnly ==>
               copies[i].copyPath !in local && copies[i].copyPath == ClaimedName(copies[i])
               && Get(files, copies[i].copyPath) == Some(copies[i].entry)
    ensures var copies' := copies + [copy];
            var files' := if copy.localOnly then files[copy.path := w] else files[copy.path := w][copy.copyPath := copy.entry];
            forall i :: 0 <= i < |copies'| && !copies'[i].localOnly ==>
                Get(files', copies'[i].copyPath) == Some(copies'[i].entry)
  {
    hide ClaimedName;
    forall i | 0 <= i < |copies|
      ensures ClaimedName(copies[i]) != ClaimedName(copy)
    {
      assert copies[i] in copies && ClaimedName(copies[i]) in ClaimedNames(copies);
    }
  }

  lemma CopyAtExtends(copies: seq<ConflictCopy>, copy: ConflictCopy)
    ensures forall p :: IsCopyAt(copies + [copy], p) <==> IsCopyAt(copies, p) || (!copy.localOnly && copy.copyPath == p)
  {
    var copies' := copies + [copy];
    forall p
      ensures IsCopyAt(copies', p) <==> IsCopyAt(copies, p) || (!copy.localOnly && copy.copyPath == p)
    {
      if i :| 0 <= i < |copies| && !copies[i].localOnly && copies[i].copyPath == p {
        assert copies'[i] == copies[i];
      }
      if !copy.localOnly && copy.copyPath == p {
        assert copies'[|copies|] == copy;
      }
    }
  }

  lemma ConflictCopies(base: Files, local: Files, remote: Files, done: set<Path>,
                       copies: seq<ConflictCopy>, copy: ConflictCopy)
    requires CopiesSoFar(base, local, remote, done, copies)
    requires copy.path !in done && PreservesLoser(copy, base, local, remote)
    requires ClaimedName(copy) !in ClaimedNames(copies)
    ensures CopiesSoFar(base, local, remote, done + {copy.path}, copies + [copy])
    ensures ClaimedNames(copies + [copy]) == ClaimedNames(copies) + {ClaimedName(copy)}
  {
    hide Decide, PreservesLoser, Contested;
    var copies' := copies + [copy];
    forall i | 0 <= i < |copies|
      ensures ClaimedName(copies[i]) != ClaimedName(copy)
    {
      assert copies[i] in copies && ClaimedName(copies[i]) in ClaimedNames(copies);
    }
    forall p | p in done + {copy.path} && Contested(base, local, remote, p)
      ensures exists i :: 0 <= i < |copies'| && copies'[i].path == p
    {
      if p in done {
        var i :| 0 <= i < |copies| && copies[i].path == p;
        assert copies'[i].path == p;
      } else {
        assert copies'[|copies|].path == p;
      }
    }
  }

  lemma ContestedSnoc(base: Files, local: Files, remote: Files, paths: seq<Path>, i: nat)
    requires i < |paths|
    ensures ContestedPaths(base, local, remote, paths[..i + 1])
         == var before := ContestedPaths(base, local, remote, paths[..i]);
            if Contested(base, local, remote, paths[i]) then before + [paths[i]] else before
    ensures forall p :: p in paths[..i + 1] <==> p in paths[..i] || p == paths[i]
  {
    assert paths[..i + 1] == paths[..i] + [paths[i]];
    assert paths[..i + 1][..i] == paths[..i];
  }

  lemma ConflictNames(local: Files, remote: Files, device: string, stamp: string,
                      contested: seq<Path>, copies: seq<ConflictCopy>, copy: ConflictCopy)
    requires NamedInOrder(local, remote, device, stamp, contested, copies)
    requires IsClaim(Reserved(local, remote) + ClaimedNames(copies), copy.path,
                     Label(copy.side, device), stamp, ClaimedName(copy))
    ensures NamedInOrder(local, remote, device, stamp, contested + [copy.path], copies + [copy])
  {
    hide IsClaim, Reserved, Label, ClaimedName;
    var copies' := copies + [copy];
    forall i | 0 <= i < |copies'|
      ensures IsClaim(Reserved(local, remote) + ClaimedNames(copies'[..i]), copies'[i].path,
                      Label(copies'[i].side, device), stamp, ClaimedName(copies'[i]))
    {
      if i < |copies| {
        assert copies'[..i] == copies[..i];
      } else {
        assert copies'[..i] == copies;
      }
    }
  }

  lemma ConflictStep(base: Files, local: Files, remote: Files, device: string, stamp: string, done: set<Path>,
                     before: seq<Path>, files: Files, copies: seq<ConflictCopy>, copy: ConflictCopy, name: Path)
    requires FilesSoFar(base, local, remote, done, files, copies)
    requires CopiesSoFar(base, local, remote, done, copies)
    requires NamedInOrder(local, remote, device, stamp, ContestedPaths(base, local, remote, before), copies)
    requires copy.path !in done && copy.path != [] && Contested(base, local, remote, copy.path)
    requires var d := DecideAt(base, local, remote, copy.path);
             copy == ConflictCopy(d.loserSide, copy.path, CopyPathFor(copy.path, name), IsGitPath(copy.path), d.loser)
    requires IsClaim(Reserved(local, remote) + ClaimedNames(copies), copy.path, Label(copy.side, device), stamp, name)
    ensures var w := DecideAt(base, local, remote, copy.path).winner;
            FilesSoFar(base, local, remote, done + {copy.path},
                       if copy.localOnly then files[copy.path := w] else files[copy.path := w][copy.copyPath := copy.entry],
                       copies + [copy])
    ensures CopiesSoFar(base, local, remote, done + {copy.path}, copies + [copy])
    ensures NamedInOrder(local, remote, device, stamp, ContestedPaths(base, local, remote, before) + [copy.path],
             copies + [copy])
    ensures ClaimedNames(copies + [copy]) == ClaimedNames(copies) + {name}
  {
    ClaimShape(Reserved(local, remote) + ClaimedNames(copies), copy.path, Label(copy.side, device), stamp, name);
    NewCopyPreserves(base, local, remote, copy, name);
    hide Decide, IsClaim, Reserved, PreservesLoser;
    ConflictFiles(base, local, remote, done, copy.path, files, copies, copy);
    ConflictCopies(base, local, remote, done, copies, copy);
    ConflictNames(local, remote, device, stamp, ContestedPaths(base, local, remote, before), copies, copy);
  }
}
