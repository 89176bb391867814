/** Crashes in the middle of putting a merge on disk: no edited byte is lost, and the
    next pass from the unchanged base ends where this one was going. */
module Interruption {
  import opened Manifests
  import opened Merging
  import opened MergeLaws
  import opened Disks
  import opened Apply
  import opened Materializing

  /** Equal but for permission bits that an apply does not materialize. */
  predicate SameBytes(a: FileEntry, b: FileEntry) {
    SameContent(Landed(a), Landed(b))
  }

  /** Nothing that has to be written asks for permission bits that do not land. */
  ghost predicate ModesLand(local: Files, copies: seq<ConflictCopy>, files: Files) {
    forall p :: p in Writes(WithLocalCopies(local, copies), files) ==> files[p].mode < 0x200
  }

  /** The same file, or files that differ in their timestamps alone. */
  predicate SameButTime(a: Option<FileEntry>, b: Option<FileEntry>) {
    a == b || (a.Some? && b.Some? && a.value == b.value.(mtimeSecs := a.value.mtimeSecs, mtimeNanos := a.value.mtimeNanos))
  }

  /** The content of `e`, scanned at `p`, can still be read after the crash: in place (up to
      bits that never land), from its conflict copy in the tree, or from the local conflict
      area. */
  ghost predicate StillOnDisk(exact: bool, copies: seq<ConflictCopy>, t: Snapshot, p: Path, e: FileEntry) {
    || (p in t.files && SameBytes(t.files[p], e) && (exact ==> SameContent(t.files[p], e)))
    || (exists i :: 0 <= i < |copies| && copies[i].path == p && copies[i].entry == e && CopySurvives(copies[i], t))
  }

  predicate CopySurvives(c: ConflictCopy, t: Snapshot) {
    c.side == Local && if c.localOnly then IsKept(t.kept, c) else Get(t.files, c.copyPath) == Some(c.entry)
  }

  /** Once the apply has begun, every local loser stands under its copy name. */
  lemma AppliedStatesHoldCopies(base: Files, local: Files, remote: Files, files: Files, copies: seq<ConflictCopy>,
                                t: Snapshot, n: nat)
    requires Outcome(base, local, remote, files, copies) && n < |copies|
    requires KeepsLocalOnly(t.kept, copies) && MidApply(local, copies, files, t.files)
    ensures copies[n].side == Local ==> CopySurvives(copies[n], t)
  {
    LandsAt(local, copies, files, copies[n].copyPath);
    OutcomeKeepsCopiesApart(base, local, remote, files, copies);
    WithLocalCopiesLookup(local, remote, copies, |copies|);
    assert copies[..|copies|] == copies;
    var onDisk := WithLocalCopies(local, copies);
    hide WithLocalCopies, PreservesLoser, Contested, WinnerAt, ClaimedName, CopiesApart, Applied;
    if IsLocalCopy(copies[n]) {
      var c := copies[n].copyPath;
      assert Get(onDisk, c) == Some(copies[n].entry) && Get(files, c) == Some(copies[n].entry);
      assert c !in Writes(onDisk, files);
      assert AtPath(Get(onDisk, c), Get(t.files, c), Get(Landing(local, copies, files), c), c in Writes(onDisk, files));
    }
  }

  /** What stands at one path once everything has landed. */
  lemma LandsAt(local: Files, copies: seq<ConflictCopy>, files: Files, p: Path)
    ensures var onDisk := WithLocalCopies(local, copies);
      Get(Landing(local, copies, files), p)
        == if Get(onDisk, p) == Get(files, p) || p !in files then Get(files, p) else Some(Landed(files[p]))
  {
    hide WithLocalCopies;
  }

  lemma MidwayAtKey(base: Files, local: Files, remote: Files, files: Files, copies: seq<ConflictCopy>, t: Snapshot, p: Path)
    requires Outcome(base, local, remote, files, copies) && (p in local || p in remote)
    requires MidApply(local, copies, files, t.files)
    ensures var w := WinnerAt(base, local, remote, p);
      || Get(t.files, p) == Get(local, p)
      || Get(t.files, p) == w
      || (&& w != Get(local, p) && w.Some? && p in t.files && SameBytes(t.files[p], w.value)
          && (ModesLand(local, copies, files) ==> SameContent(t.files[p], w.value)))
  {
    var onDisk := WithLocalCopies(local, copies);
    assert Get(files, p) == WinnerAt(base, local, remote, p);
    assert Get(onDisk, p) == Get(local, p) by {
      OnDiskShape(base, local, remote, files, copies);
    }
    hide Outcome, WinnerAt, WithLocalCopies;
    LandsAt(local, copies, files, p);
    hide Applied;
    assert p in Writes(onDisk, files) <==> p in files && Get(onDisk, p) != Get(files, p);
    MidwayValue(Get(onDisk, p), Get(t.files, p), Get(files, p), Get(Landing(local, copies, files), p),
                p in Writes(onDisk, files), ModesLand(local, copies, files));
  }

  /** One path, as values: `s` before the apply, `w` in the merge, `landing` once landed. */
  lemma MidwayValue(s: Option<FileEntry>, t: Option<FileEntry>, w: Option<FileEntry>, landing: Option<FileEntry>,
                    writes: bool, modesLand: bool)
    requires AtPath(s, t, landing, writes) && (writes <==> w.Some? && s != w)
    requires landing == if s == w || w.None? then w else Some(Landed(w.value))
    requires writes && modesLand ==> w.value.mode < 0x200
    ensures || t == s || t == w
            || (w != s && w.Some? && t.Some? && SameBytes(t.value, w.value) && (modesLand ==> SameContent(t.value, w.value)))
  {
  }

  /** A converge never loses a byte of local user data: wherever it stops, every
      scanned entry that differs from the base is still on disk with its content. */
  lemma NoLocalByteIsLost(base: Files, local: Files, remote: Files, files: Files, copies: seq<ConflictCopy>,
                          start: Snapshot, t: Snapshot, p: Path)
    requires Outcome(base, local, remote, files, copies) && start.files == local
    requires MidMaterialize(start, remote, files, copies, t)
    requires p in local && Get(base, p) != Get(local, p)
    ensures StillOnDisk(ModesLand(local, copies, files), copies, t, p, local[p])
  {
    hide Applied, WithLocalCopies;
    if CopyingState(start, copies, t) {
      assert Get(t.files, p) == Get(local, p);
    } else {
      hide Outcome, Decide, CopyingState;
      MidwayAtKey(base, local, remote, files, copies, t, p);
      if Get(t.files, p) != Get(local, p) {
        OverwrittenIsCopied(base, local, remote, files, copies, t, p);
      }
    }
  }

  /** Chunk by chunk: at every instant some file of the tree or of the conflict area has the
      chunks of a scanned file that differs from the base. */
  lemma ChunksStayOnDisk(base: Files, local: Files, remote: Files, files: Files, copies: seq<ConflictCopy>,
                         start: Snapshot, t: Snapshot, p: Path) returns (q: Path)
    requires Outcome(base, local, remote, files, copies) && start.files == local
    requires MidMaterialize(start, remote, files, copies, t)
    requires p in local && (p in base ==> base[p] != local[p])
    ensures (q in t.files && t.files[q].chunks == local[p].chunks) || (q in t.kept && t.kept[q].chunks == local[p].chunks)
  {
    NoLocalByteIsLost(base, local, remote, files, copies, start, t, p);
    q := p;
    hide Outcome, MidMaterialize, ModesLand;
    if !(p in t.files && SameBytes(t.files[p], local[p])) {
      var i :| 0 <= i < |copies| && copies[i].path == p && copies[i].entry == local[p] && CopySurvives(copies[i], t);
      q := if copies[i].localOnly then ClaimedName(copies[i]) else copies[i].copyPath;
    }
  }

  /** An edit that gave way to the merge has a copy, or the winner has its content. */
  lemma OverwrittenIsCopied(base: Files, local: Files, remote: Files, files: Files, copies: seq<ConflictCopy>,
                            t: Snapshot, p: Path)
    requires Outcome(base, local, remote, files, copies)
    requires KeepsLocalOnly(t.kept, copies) && MidApply(local, copies, files, t.files)
    requires p in local && Get(base, p) != Get(local, p)
    ensures var w := WinnerAt(base, local, remote, p);
      || (w.Some? && SameContent(w.value, local[p]))
      || (exists i :: 0 <= i < |copies| && copies[i].path == p && copies[i].entry == local[p] && CopySurvives(copies[i], t))
  {
    DecideKeepsEdits(Get(base, p), Get(local, p), Get(remote, p));
    hide Decide, WithLocalCopies, Applied, CopySurvives;
    if Contested(base, local, remote, p) {
      var i :| 0 <= i < |copies| && copies[i].path == p;
      assert PreservesLoser(copies[i], base, local, remote);
      hide PreservesLoser;
      if copies[i].side == Local {
        AppliedStatesHoldCopies(base, local, remote, files, copies, t, i);
      }
    }
  }

  // ---------- the pass after the crash ----------

  /** The decision does not depend on how far the interrupted apply got at a path. */
  lemma DecideIsStable(b: Option<FileEntry>, l: Option<FileEntry>, r: Option<FileEntry>)
    ensures WinnerOf(Decide(b, WinnerOf(Decide(b, l, r)), r)) == WinnerOf(Decide(b, l, r))
  {
  }

  /** Between rename and restored time a path has the winner with the time of the crash. The
      next decision may then prefer that time, but it picks the same content and copies
      nothing. */
  lemma RenamedIsStable(b: Option<FileEntry>, l: Option<FileEntry>, r: Option<FileEntry>, renamed: FileEntry)
    requires var w := WinnerOf(Decide(b, l, r)); w.Some? && w != l && SameContent(renamed, w.value)
    ensures var again := Decide(b, Some(renamed), r);
            !again.Conflict? && SameButTime(WinnerOf(again), WinnerOf(Decide(b, l, r)))
  {
  }

  /** The new time can win: the mirror then publishes the crash time as an edit. */
  lemma RenamedTimeExample() returns (b: Option<FileEntry>, l: Option<FileEntry>, r: FileEntry, renamed: FileEntry)
    ensures WinnerOf(Decide(b, l, Some(r))) == Some(r) && JustRenamed(renamed, r)
    ensures WinnerOf(Decide(b, Some(renamed), Some(r))) == Some(renamed) != Some(r)
  {
    b, l, r := None, None, FileEntry(1, 0x1A4, 10, 0, []);
    renamed := r.(mtimeSecs := 20);
  }

  lemma RemergeFromMidway(base: Files, local: Files, remote: Files, files: Files, copies: seq<ConflictCopy>,
                          start: Snapshot, t: Snapshot, p: Path)
    requires Outcome(base, local, remote, files, copies) && start.files == local
    requires MidMaterialize(start, remote, files, copies, t) && ModesLand(local, copies, files)
    requires p in local || p in remote
    ensures SameButTime(WinnerAt(base, t.files, remote, p), WinnerAt(base, local, remote, p))
    ensures Get(t.files, p) in {Get(local, p), Get(files, p)} ==>
              WinnerAt(base, t.files, remote, p) == WinnerAt(base, local, remote, p)
  {
    DecideIsStable(Get(base, p), Get(local, p), Get(remote, p));
    if CopyingState(start, copies, t) {
      CopyingAtKey(base, local, remote, files, copies, start, t, p);
    } else {
      MidwayAtKey(base, local, remote, files, copies, t, p);
      var w := WinnerAt(base, local, remote, p);
      if Get(t.files, p) != Get(local, p) && Get(t.files, p) != w {
        RenamedIsStable(Get(base, p), Get(local, p), Get(remote, p), t.files[p]);
      }
    }
    assert Get(files, p) == WinnerAt(base, local, remote, p);
    hide Outcome, Decide, MidMaterialize;
  }

  lemma CopyingAtKey(base: Files, local: Files, remote: Files, files: Files, copies: seq<ConflictCopy>,
                     start: Snapshot, t: Snapshot, p: Path)
    requires Outcome(base, local, remote, files, copies) && start.files == local
    requires CopyingState(start, copies, t) && (p in local || p in remote)
    ensures Get(t.files, p) == Get(local, p)
  {
    OnDiskShape(base, local, remote, files, copies);
    LocalCopiesByIndex(copies);
    hide Outcome, WithLocalCopies, LocalCopies;
    assert p in t.files ==> p in local || IsLocalCopyAt(copies, p);
  }

  /** A copy that survived the crash is an ordinary local addition for the next merge. */
  lemma CopySurvivesAgain(base: Files, local: Files, remote: Files, files: Files, copies: seq<ConflictCopy>,
                          t: Snapshot, again: Files, copies': seq<ConflictCopy>, n: nat)
    requires Outcome(base, local, remote, files, copies) && CopiesAreNew(copies, base)
    requires Outcome(base, t.files, remote, again, copies')
    requires n < |copies| && CopySurvives(copies[n], t)
    ensures CopySurvives(copies[n], Snapshot(again, t.kept, t.pointer))
  {
    if !copies[n].localOnly {
      var c := copies[n].copyPath;
      assert PreservesLoser(copies[n], base, local, remote);
      CopyIsNoKey(base, local, remote, copies[n]);
      assert Get(again, c) == WinnerAt(base, t.files, remote, c);
    }
  }

  lemma SameEntryAgain(base: Files, local: Files, remote: Files, files: Files, copies: seq<ConflictCopy>,
                       t: Snapshot, again: Files, copies': seq<ConflictCopy>, p: Path)
    requires Outcome(base, local, remote, files, copies) && Outcome(base, t.files, remote, again, copies')
    requires SameButTime(WinnerAt(base, t.files, remote, p), WinnerAt(base, local, remote, p))
    requires p in local || p in remote
    ensures SameButTime(Get(again, p), Get(files, p)) || (p !in t.files && p !in remote && IsCopyAt(copies', p))
  {
    hide PreservesLoser, Contested;
    assert Get(files, p) == WinnerAt(base, local, remote, p);
    if p in t.files || p in remote {
      assert Get(again, p) == WinnerAt(base, t.files, remote, p);
    } else {
      assert WinnerAt(base, t.files, remote, p) == None;
    }
  }

  /** Merging the partial tree again, from the unchanged base against the same head, picks
      the same content at every path and again keeps every edited entry, as long as the
      modes that are written land and the base does not already list a copy under its new
      name. (A path that was already deleted may then lend its name to a new copy.) */
  lemma NextPassRepairs(base: Files, local: Files, remote: Files, files: Files, copies: seq<ConflictCopy>,
                        start: Snapshot, t: Snapshot, again: Files, copies': seq<ConflictCopy>, p: Path)
    requires Outcome(base, local, remote, files, copies) && start.files == local && CopiesAreNew(copies, base)
    requires MidMaterialize(start, remote, files, copies, t) && ModesLand(local, copies, files)
    requires Outcome(base, t.files, remote, again, copies')
    ensures p in local || p in remote ==>
      && SameButTime(WinnerAt(base, t.files, remote, p), WinnerAt(base, local, remote, p))
      && (SameButTime(Get(again, p), Get(files, p)) || (p !in t.files && p !in remote && IsCopyAt(copies', p)))
    ensures p in local && Get(base, p) != Get(local, p) ==>
      || ContentKept(again, copies', p, local[p])
      || (exists i :: 0 <= i < |copies| && copies[i].path == p && copies[i].entry == local[p]
            && CopySurvives(copies[i], Snapshot(again, t.kept, t.pointer)))
  {
    if p in local || p in remote {
      RemergeFromMidway(base, local, remote, files, copies, start, t, p);
      SameEntryAgain(base, local, remote, files, copies, t, again, copies', p);
    }
    if p in local && Get(base, p) != Get(local, p) {
      NoLocalByteIsLost(base, local, remote, files, copies, start, t, p);
      hide MidMaterialize;
      if p in t.files && t.files[p] == local[p] {
        NoEditIsLost(base, t.files, remote, again, copies', p);
      } else if p in t.files && SameContent(t.files[p], local[p]) {
        SameContentAgain(base, local, remote, files, copies, start, t, again, copies', p);
      } else {
        var i :| 0 <= i < |copies| && copies[i].path == p && copies[i].entry == local[p] && CopySurvives(copies[i], t);
        CopySurvivesAgain(base, local, remote, files, copies, t, again, copies', i);
      }
    }
  }

  /** The path was overwritten by an entry with the same bytes and another timestamp. */
  lemma SameContentAgain(base: Files, local: Files, remote: Files, files: Files, copies: seq<ConflictCopy>,
                         start: Snapshot, t: Snapshot, again: Files, copies': seq<ConflictCopy>, p: Path)
    requires Outcome(base, local, remote, files, copies) && start.files == local
    requires MidMaterialize(start, remote, files, copies, t) && ModesLand(local, copies, files)
    requires Outcome(base, t.files, remote, again, copies')
    requires p in local && p in t.files && t.files[p] != local[p] && SameContent(t.files[p], local[p])
    ensures p in again && SameContent(again[p], local[p])
  {
    RemergeFromMidway(base, local, remote, files, copies, start, t, p);
    assert Get(again, p) == WinnerAt(base, t.files, remote, p);
    assert CopyingState(start, copies, t) ==> Get(t.files, p) == Get(start.files, p);
    if !CopyingState(start, copies, t) {
      MidwayAtKey(base, local, remote, files, copies, t, p);
    }
  }

  /** Without exact landing a repeated merge need not be quiet: after the pass of a clone, a
      file that the head lists with a set-uid bit has lost the bit, so that the next merge
      from the same base takes it for an edit and makes a conflict copy. */
  lemma UnlandedModeExample() returns (local: Files, remote: Files, p: Path)
    ensures Valid(local) && Valid(remote) && Outcome(map[], local, remote, remote, [])
    ensures !ModesLand(local, [], remote) && Contested(map[], Landing(local, [], remote), remote, p)
  {
    p := ["run"];
    var e := FileEntry(0, 0x9ED, 1, 0, []);
    local, remote := map[], map[p := e];
    assert Landed(e) == FileEntry(0, 0x1ED, 1, 0, []);
    LandsAt(local, [], remote, p);
    assert forall q :: Get(remote, q) == WinnerAt(map[], local, remote, q);
    assert Get(Landing(local, [], remote), p) == Some(Landed(e));
  }
}
