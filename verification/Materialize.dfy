/** Putting a merge on disk: copies of local losers first, then the staged apply
    (crates/core/src/converge.rs), and what a crash in the middle can leave. */
module Materializing {
  import opened Manifests
  import opened Naming
  import opened Merging
  import opened MergeLaws
  import opened Disks
  import opened Apply

  // ---------- the tree with the local losers copied ----------

  predicate IsLocalCopy(c: ConflictCopy) {
    c.side == Local && !c.localOnly
  }

  function WithLocalCopies(local: Files, copies: seq<ConflictCopy>): Files {
    if copies == [] then local
    else
      var last := copies[|copies| - 1];
      var rest := WithLocalCopies(local, copies[..|copies| - 1]);
      if IsLocalCopy(last) then rest[last.copyPath := last.entry] else rest
  }

  ghost predicate IsLocalCopyAt(copies: seq<ConflictCopy>, p: Path) {
    exists i :: 0 <= i < |copies| && IsLocalCopy(copies[i]) && copies[i].copyPath == p
  }

  /** The copies of one merge lie beside the keys of both sides, each under its own name. */
  ghost predicate CopiesApart(local: Files, remote: Files, copies: seq<ConflictCopy>) {
    && (forall i :: 0 <= i < |copies| && !copies[i].localOnly ==>
          && copies[i].copyPath !in local && copies[i].copyPath !in remote
          && ClaimedName(copies[i]) == copies[i].copyPath)
    && (forall i, j :: 0 <= i < j < |copies| ==> ClaimedName(copies[i]) != ClaimedName(copies[j]))
  }

  lemma OutcomeKeepsCopiesApart(base: Files, local: Files, remote: Files, files: Files, copies: seq<ConflictCopy>)
    requires Outcome(base, local, remote, files, copies)
    ensures CopiesApart(local, remote, copies)
  {
    forall i | 0 <= i < |copies| && !copies[i].localOnly
      ensures copies[i].copyPath !in local && copies[i].copyPath !in remote
    {
      assert PreservesLoser(copies[i], base, local, remote);
      CopyIsNoKey(base, local, remote, copies[i]);
    }
  }

  /** `m` is the local tree with the local copies among the first `n` beside it. */
  ghost predicate HoldsLocalCopies(local: Files, m: Files, copies: seq<ConflictCopy>, n: nat)
    requires n <= |copies|
  {
    && (forall p :: p in local ==> Get(m, p) == Some(local[p]))
    && (forall i :: 0 <= i < n && IsLocalCopy(copies[i]) ==> Get(m, copies[i].copyPath) == Some(copies[i].entry))
    && (forall p :: p in m ==> p in local || IsLocalCopyAt(copies[..n], p))
  }

  lemma WithLocalCopiesLookup(local: Files, remote: Files, copies: seq<ConflictCopy>, n: nat)
    requires CopiesApart(local, remote, copies) && n <= |copies|
    ensures var m := WithLocalCopies(local, copies[..n]);
      && (forall p :: p in local ==> Get(m, p) == Some(local[p]))
      && (forall i :: 0 <= i < n && IsLocalCopy(copies[i]) ==> Get(m, copies[i].copyPath) == Some(copies[i].entry))
      && (forall p :: p in m ==> p in local || IsLocalCopyAt(copies[..n], p))
  {
    LocalCopiesHeld(local, remote, copies, n);
    hide WithLocalCopies, IsLocalCopyAt, CopiesApart, IsLocalCopy;
  }

  lemma {:induction false} LocalCopiesHeld(local: Files, remote: Files, copies: seq<ConflictCopy>, n: nat)
    requires CopiesApart(local, remote, copies) && n <= |copies|
    ensures HoldsLocalCopies(local, WithLocalCopies(local, copies[..n]), copies, n)
  {
    hide WithLocalCopies, CopiesApart, HoldsLocalCopies;
    if n == 0 {
      HoldNone(local, copies);
    } else {
      LocalCopiesHeld(local, remote, copies, n - 1);
      WithLocalCopiesSnoc(local, copies, n - 1);
      HoldOneMore(local, remote, copies, n - 1, WithLocalCopies(local, copies[..n - 1]));
    }
  }

  lemma HoldNone(local: Files, copies: seq<ConflictCopy>)
    ensures HoldsLocalCopies(local, WithLocalCopies(local, copies[..0]), copies, 0)
  {
  }

  lemma HoldOneMore(local: Files, remote: Files, copies: seq<ConflictCopy>, n: nat, m: Files)
    requires CopiesApart(local, remote, copies) && n < |copies| && HoldsLocalCopies(local, m, copies, n)
    ensures HoldsLocalCopies(local, if IsLocalCopy(copies[n]) then m[copies[n].copyPath := copies[n].entry] else m,
             copies, n + 1)
  {
    LocalCopySnoc(copies, n);
    if IsLocalCopy(copies[n]) {
      OwnName(local, remote, copies, n);
    }
    hide IsLocalCopyAt, CopiesApart;
  }

  /** A local copy lies at no local key and at no earlier copy. */
  lemma OwnName(local: Files, remote: Files, copies: seq<ConflictCopy>, n: nat)
    requires CopiesApart(local, remote, copies) && n < |copies| && IsLocalCopy(copies[n])
    ensures copies[n].copyPath !in local
    ensures forall i :: 0 <= i < n && IsLocalCopy(copies[i]) ==> copies[i].copyPath != copies[n].copyPath
  {
    hide ClaimedName;
    forall i | 0 <= i < n && IsLocalCopy(copies[i])
      ensures copies[i].copyPath != copies[n].copyPath
    {
      assert ClaimedName(copies[i]) != ClaimedName(copies[n]);
    }
  }

  lemma LocalCopySnoc(copies: seq<ConflictCopy>, n: nat)
    requires n < |copies|
    ensures forall p :: IsLocalCopyAt(copies[..n + 1], p)
              <==> IsLocalCopyAt(copies[..n], p) || (IsLocalCopy(copies[n]) && copies[n].copyPath == p)
  {
    var more, some := copies[..n + 1], copies[..n];
    assert more[n] == copies[n] && forall i :: 0 <= i < n ==> more[i] == some[i];
    forall p
      ensures IsLocalCopyAt(more, p) <==> IsLocalCopyAt(some, p) || (IsLocalCopy(copies[n]) && copies[n].copyPath == p)
    {
      if i :| 0 <= i < |more| && IsLocalCopy(more[i]) && more[i].copyPath == p {
        if i < n {
          assert some[i] == more[i];
        }
      }
      if i :| 0 <= i < |some| && IsLocalCopy(some[i]) && some[i].copyPath == p {
        assert more[i] == some[i];
      }
    }
  }

  lemma LocalCopiesByIndex(copies: seq<ConflictCopy>)
    ensures forall p :: p in LocalCopies(copies) <==> IsLocalCopyAt(copies, p)
  {
    forall p
      ensures p in LocalCopies(copies) <==> IsLocalCopyAt(copies, p)
    {
      if i :| 0 <= i < |copies| && IsLocalCopy(copies[i]) && copies[i].copyPath == p {
        assert copies[i] in copies;
      }
    }
  }

  /** What stands on disk once the local losers are copied: the scanned files and,
      beside them, the copies exactly as the merged manifest lists them. */
  lemma OnDiskShape(base: Files, local: Files, remote: Files, files: Files, copies: seq<ConflictCopy>)
    requires Outcome(base, local, remote, files, copies)
    ensures var onDisk := WithLocalCopies(local, copies);
      && (forall p :: p in onDisk <==> p in local || p in LocalCopies(copies))
      && (forall p :: p in local ==> p in onDisk && onDisk[p] == local[p])
      && (forall p :: p in LocalCopies(copies) ==>
          p !in local && p !in remote && p in onDisk && p in files && onDisk[p] == files[p])
  {
    var onDisk := WithLocalCopies(local, copies);
    OutcomeKeepsCopiesApart(base, local, remote, files, copies);
    WithLocalCopiesLookup(local, remote, copies, |copies|);
    assert copies[..|copies|] == copies;
    hide WithLocalCopies, PreservesLoser, Contested, WinnerAt, ClaimedName;
    LocalCopiesByIndex(copies);
    hide LocalCopies;
    forall p | p in LocalCopies(copies)
      ensures p !in local && p !in remote && p in onDisk && p in files && onDisk[p] == files[p]
    {
      var i :| 0 <= i < |copies| && IsLocalCopy(copies[i]) && copies[i].copyPath == p;
      assert Get(onDisk, copies[i].copyPath) == Some(copies[i].entry);
      assert Get(files, copies[i].copyPath) == Some(copies[i].entry);
    }
    forall p | p in local
      ensures p in onDisk && onDisk[p] == local[p]
    {
      assert Get(onDisk, p) == Some(local[p]);
    }
  }

  /** The diff that the apply works off names the same additions and changes as the
      diff that the fetch was planned from, so no chunk is read that was not fetched. */
  lemma AppliesWhatWasFetched(base: Files, local: Files, remote: Files, files: Files, copies: seq<ConflictCopy>)
    requires Outcome(base, local, remote, files, copies)
    ensures var onDisk := WithLocalCopies(local, copies);
      && DiffOf(onDisk, files) == ApplyFromRemote(local, files, copies)
      && (onDisk == files <==> ApplyFromRemote(local, files, copies) == ManifestDiff({}, {}, {}))
  {
    hide Outcome, WithLocalCopies, LocalCopies, DiffOf;
    OnDiskShape(base, local, remote, files, copies);
    DiffNamesDisagreements(WithLocalCopies(local, copies), files);
    DiffBesideExtras(local, LocalCopies(copies), WithLocalCopies(local, copies), files);
  }

  lemma DiffBesideExtras(local: Files, extras: set<Path>, onDisk: Files, files: Files)
    requires onDisk.Keys == local.Keys + extras && local.Keys !! extras
    requires forall p :: p in local ==> p in onDisk && onDisk[p] == local[p]
    requires forall p :: p in extras ==> p in onDisk && p in files && onDisk[p] == files[p]
    ensures var d := DiffOf(local, files);
            DiffOf(onDisk, files) == ManifestDiff(d.added - extras, d.changed, d.deleted)
  {
    var d, d' := DiffOf(local, files), DiffOf(onDisk, files);
    assert d'.added == d.added - extras;
    assert d'.changed == d.changed;
    assert d'.deleted == d.deleted;
  }

  // ---------- copying the losers ----------

  /** A state while the losers are being copied: every file of the tree is still in
      place, and beside them is nothing but (possibly torn) copies. */
  ghost predicate CopyingState(start: Snapshot, copies: seq<ConflictCopy>, t: Snapshot) {
    && (forall p :: p in start.files ==> Get(t.files, p) == Get(start.files, p))
    && (forall p :: p in t.files ==> p in start.files || IsLocalCopyAt(copies, p))
    && t.pointer == start.pointer
  }

  ghost predicate AllCopying(start: Snapshot, before: seq<Snapshot>, trace: seq<Snapshot>, copies: seq<ConflictCopy>) {
    before <= trace && forall i :: |before| <= i < |trace| ==> CopyingState(start, copies, trace[i])
  }

  /** The local-only copies lie in the conflict area: the local ones verbatim, the
      remote ones with the bytes of the lost entry. */
  ghost predicate KeepsLocalOnly(kept: Files, copies: seq<ConflictCopy>) {
    forall i :: 0 <= i < |copies| && copies[i].localOnly ==> IsKept(kept, copies[i])
  }

  /** In particular each of them has its chunks there, under the name that its copy path ends with. */
  lemma LocalOnlyIsKept(kept: Files, copies: seq<ConflictCopy>, i: nat)
    requires KeepsLocalOnly(kept, copies) && i < |copies| && copies[i].localOnly && |copies[i].copyPath| >= 2
    ensures var name := copies[i].copyPath[2..];
      name in kept && kept[name].chunks == copies[i].entry.chunks && (copies[i].side == Local ==> kept[name] == copies[i].entry)
  {
    assert IsKept(kept, copies[i]);
  }

  predicate IsKept(kept: Files, c: ConflictCopy) {
    && ClaimedName(c) in kept
    && kept[ClaimedName(c)].chunks == c.entry.chunks
    && (c.side == Local ==> kept[ClaimedName(c)] == c.entry)
  }

  /** A loser's bytes are copied from the file still on disk. */
  method CopyLocalLoser(disk: Disk, c: ConflictCopy) returns (ok: bool, ghost torn: FileEntry)
    requires disk.Valid()
    modifies disk`files, disk`dirs, disk`trace
    ensures disk.Valid()
    ensures ok ==>
      && c.path in old(disk.files)
      && disk.files == old(disk.files)[c.copyPath :=
           old(disk.files)[c.path].(mtimeSecs := c.entry.mtimeSecs, mtimeNanos := Clamp(c.entry.mtimeNanos))]
      && disk.trace == old(disk.trace) + [Snapshot(old(disk.files)[c.copyPath := torn], disk.kept, disk.pointer), disk.Now()]
    ensures !ok ==> disk.files == old(disk.files) && disk.trace == old(disk.trace)
    ensures ok <==> c.path in old(disk.files) && HasRoom(old(disk.files), old(disk.dirs), c.copyPath)
    ensures ok ==> Tidy(old(disk.files), old(disk.dirs)) <= Tidy(disk.files, disk.dirs)
  {
    ghost var files0 := disk.files;
    torn := c.entry;
    ParentIsLastAncestor(c.copyPath);
    ok := disk.CreateDirAll(Dir(c.copyPath));
    if !ok {
      return;
    }
    ok, torn := disk.CopyFile(c.path, c.copyPath, c.entry.mtimeSecs, Clamp(c.entry.mtimeNanos));
    if ok {
      forall r | TidyAt(files0, old(disk.dirs), r)
        ensures TidyAt(disk.files, disk.dirs, r)
      {
        RoomForFile(files0, old(disk.dirs), disk.dirs, c.copyPath, disk.files[c.copyPath], r);
      }
    }
  }

  /** A remote `.git` loser is assembled from chunks straight into the conflict area. */
  method AssembleLocalCopy(disk: Disk, c: ConflictCopy, have: set<Hash>) returns (ok: bool)
    requires disk.Valid()
    modifies disk`kept, disk`trace
    ensures disk.Valid()
    ensures ok <==> ChunksOf(c.entry) <= have
    ensures ok ==>
      && ClaimedName(c) in disk.kept && disk.kept[ClaimedName(c)].chunks == c.entry.chunks
      && disk.kept == old(disk.kept)[ClaimedName(c) := disk.kept[ClaimedName(c)]]
      && disk.trace == old(disk.trace) + [disk.Now()]
    ensures !ok ==> disk.kept == old(disk.kept) && disk.trace == old(disk.trace)
  {
    ok := ChunksOf(c.entry) <= have;
    if ok {
      var now: int := *;
      disk.Keep(ClaimedName(c), c.entry.(mode := 0x180, mtimeSecs := now, mtimeNanos := 0));
    }
  }

  /** Where a copy lands there is room, whatever has been copied so far. */
  lemma CopyHasRoom(base: Files, local: Files, remote: Files, files: Files, copies: seq<ConflictCopy>, n: nat, q: Path)
    requires NoFileIsADirectory(local)
    requires Outcome(base, local, remote, files, copies)
    requires n < |copies| && IsLocalCopy(copies[n]) && q in WithLocalCopies(local, copies[..n])
    ensures !(copies[n].copyPath < q) && !(q < copies[n].copyPath)
  {
    hide WithLocalCopies, CopiesApart;
    OutcomeKeepsCopiesApart(base, local, remote, files, copies);
    WithLocalCopiesLookup(local, remote, copies, n);
    if q in local {
      RoomBesideKey(base, local, remote, files, copies, n, q);
    } else {
      var i := EarlierCopy(copies, n, q);
      RoomBesideCopy(base, local, remote, files, copies, n, i);
    }
  }

  lemma EarlierCopy(copies: seq<ConflictCopy>, n: nat, q: Path) returns (i: nat)
    requires n <= |copies| && IsLocalCopyAt(copies[..n], q)
    ensures i < n && IsLocalCopy(copies[i]) && copies[i].copyPath == q
  {
    i :| 0 <= i < |copies[..n]| && IsLocalCopy(copies[..n][i]) && copies[..n][i].copyPath == q;
  }

  /** A copy lies in its original's directory, under a name no key or directory has. */
  lemma CopyPlace(base: Files, local: Files, remote: Files, files: Files, copies: seq<ConflictCopy>, n: nat)
    requires Outcome(base, local, remote, files, copies) && n < |copies| && IsLocalCopy(copies[n])
    ensures var c, path := copies[n].copyPath, copies[n].path;
      path in local && c !in Reserved(local, remote) && |c| == |path| && Dir(c) == Dir(path) && c != []
  {
    assert PreservesLoser(copies[n], base, local, remote);
    hide Reserved;
    LoserFacts(base, local, remote, files, copies, n);
  }

  lemma RoomBesideKey(base: Files, local: Files, remote: Files, files: Files, copies: seq<ConflictCopy>, n: nat, q: Path)
    requires NoFileIsADirectory(local) && Outcome(base, local, remote, files, copies)
    requires n < |copies| && IsLocalCopy(copies[n]) && q in local
    ensures !(copies[n].copyPath < q) && !(q < copies[n].copyPath)
  {
    CopyPlace(base, local, remote, files, copies, n);
    hide Outcome, Reserved;
    RoomBeside(local, remote, copies[n].copyPath, copies[n].path, q, q);
  }

  lemma RoomBesideCopy(base: Files, local: Files, remote: Files, files: Files, copies: seq<ConflictCopy>, n: nat, i: nat)
    requires NoFileIsADirectory(local) && Outcome(base, local, remote, files, copies)
    requires i < n < |copies| && IsLocalCopy(copies[n]) && IsLocalCopy(copies[i])
    ensures !(copies[n].copyPath < copies[i].copyPath) && !(copies[i].copyPath < copies[n].copyPath)
  {
    CopyPlace(base, local, remote, files, copies, n);
    CopyPlace(base, local, remote, files, copies, i);
    hide Outcome, Reserved;
    RoomBeside(local, remote, copies[n].copyPath, copies[n].path, copies[i].copyPath, copies[i].path);
  }

  lemma RoomBeside(local: Files, remote: Files, c: Path, path: Path, q: Path, above: Path)
    requires NoFileIsADirectory(local)
    requires path in local && above in local && c !in Reserved(local, remote)
    requires |c| == |path| && Dir(c) == Dir(path) && c != []
    requires q == above || (|q| == |above| && Dir(q) == Dir(above) && q !in Reserved(local, remote))
    ensures !(c < q) && !(q < c)
  {
    if c < q {
      if q != above {
        PrefixInSameDir(c, q, above);
      }
      ReservedMembers(local, remote, c);
    }
    if q < c {
      PrefixInSameDir(q, c, path);
      ReservedMembers(local, remote, q);
    }
  }

  /** The chunks that local-only copies of remote losers are assembled from. */
  ghost predicate HasChunksForCopies(copies: seq<ConflictCopy>, have: set<Hash>) {
    forall i :: 0 <= i < |copies| && copies[i].localOnly && copies[i].side == Remote ==> ChunksOf(copies[i].entry) <= have
  }

  lemma WithLocalCopiesSnoc(local: Files, copies: seq<ConflictCopy>, n: nat)
    requires n < |copies|
    ensures var m := WithLocalCopies(local, copies[..n]);
            WithLocalCopies(local, copies[..n + 1]) == if IsLocalCopy(copies[n]) then m[copies[n].copyPath := copies[n].entry] else m
  {
    assert copies[..n + 1][..n] == copies[..n];
  }

  lemma LoserFacts(base: Files, local: Files, remote: Files, files: Files, copies: seq<ConflictCopy>, n: nat)
    requires Outcome(base, local, remote, files, copies) && n < |copies|
    ensures copies[n].side == Local ==> copies[n].path in local && local[copies[n].path] == copies[n].entry
    ensures IsLocalCopy(copies[n]) ==> copies[n].copyPath != []
  {
    assert PreservesLoser(copies[n], base, local, remote);
    assert copies[n].path in Reserved(local, remote);
  }

  /** One loser more: the state that the loop has reached, torn or whole. */
  lemma LocalCopyStep(base: Files, local: Files, remote: Files, files: Files, copies: seq<ConflictCopy>, n: nat,
                      start: Snapshot, kept: Files, e: FileEntry)
    requires Outcome(base, local, remote, files, copies) && n < |copies| && IsLocalCopy(copies[n]) && start.files == local
    ensures CopyingState(start, copies, Snapshot(WithLocalCopies(local, copies[..n])[copies[n].copyPath := e], kept,
             start.pointer))
  {
    StillCopying(base, local, remote, files, copies, n, start);
    OutcomeKeepsCopiesApart(base, local, remote, files, copies);
    OwnName(local, remote, copies, n);
    hide Outcome, WithLocalCopies, CopiesApart, CopyingState;
    OneMoreCopy(start, copies, n, Snapshot(WithLocalCopies(local, copies[..n]), kept, start.pointer), e);
  }

  lemma OneMoreCopy(start: Snapshot, copies: seq<ConflictCopy>, n: nat, t: Snapshot, e: FileEntry)
    requires CopyingState(start, copies, t) && n < |copies| && IsLocalCopy(copies[n]) && copies[n].copyPath !in start.files
    ensures CopyingState(start, copies, t.(files := t.files[copies[n].copyPath := e]))
  {
  }

  lemma CopyingMore(start: Snapshot, before: seq<Snapshot>, trace: seq<Snapshot>, copies: seq<ConflictCopy>, t: Snapshot)
    requires AllCopying(start, before, trace, copies) && CopyingState(start, copies, t)
    ensures AllCopying(start, before, trace + [t], copies)
  {
  }

  lemma LocalOnlyStep(base: Files, local: Files, remote: Files, files: Files, copies: seq<ConflictCopy>, n: nat,
                      kept: Files, e: FileEntry)
    requires Outcome(base, local, remote, files, copies) && n < |copies| && KeepsLocalOnly(kept, copies[..n])
    ensures copies[n].localOnly && e.chunks == copies[n].entry.chunks && (copies[n].side == Local ==> e == copies[n].entry)
         ==> KeepsLocalOnly(kept[ClaimedName(copies[n]) := e], copies[..n + 1])
    ensures !copies[n].localOnly ==> KeepsLocalOnly(kept, copies[..n + 1])
  {
    hide PreservesLoser, Contested, WinnerAt;
    forall i | 0 <= i < n && copies[i].localOnly
      ensures IsKept(kept, copies[i]) && ClaimedName(copies[i]) != ClaimedName(copies[n])
    {
      assert copies[..n][i] == copies[i];
    }
    hide Outcome, ClaimedName;
    forall i | 0 <= i < n + 1
      ensures copies[..n + 1][i] == copies[i]
    {
    }
  }

  method CopyLosers(disk: Disk, copies: seq<ConflictCopy>, have: set<Hash>,
                    ghost base: Files, ghost remote: Files, ghost files: Files) returns (ok: bool)
    requires disk.Valid() && Timed(disk.files)
    requires Outcome(base, disk.files, remote, files, copies)
    modifies disk`files, disk`dirs, disk`kept, disk`trace
    ensures disk.Valid()
    ensures AllCopying(old(disk.Now()), old(disk.trace), disk.trace, copies)
    ensures ok ==> disk.files == WithLocalCopies(old(disk.files), copies) && KeepsLocalOnly(disk.kept, copies)
    ensures && NoFileIsADirectory(old(disk.files)) && HasChunksForCopies(copies, have)
            && (forall p :: p in LocalCopies(copies) ==> p in Tidy(old(disk.files), old(disk.dirs)))
            ==> ok
    ensures ok ==> Tidy(old(disk.files), old(disk.dirs)) <= Tidy(disk.files, disk.dirs)
  {
    hide Outcome, TidyAt, WellFormed, NoFileIsADirectory, LocalCopies, CopyingState, HasRoom, AllCopying;
    hide HasChunksForCopies, WithLocalCopies;
    ghost var local, start, trace0 := disk.files, disk.Now(), disk.trace;
    ghost var tidy := Tidy(local, disk.dirs);
    ghost var fits := && NoFileIsADirectory(local) && HasChunksForCopies(copies, have)
                      && (forall p :: p in LocalCopies(copies) ==> p in tidy);
    NothingCopied(start, trace0, copies);
    for n := 0 to |copies|
      invariant disk.Valid() && disk.pointer == start.pointer
      invariant disk.files == WithLocalCopies(local, copies[..n])
      invariant KeepsLocalOnly(disk.kept, copies[..n])
      invariant AllCopying(start, trace0, disk.trace, copies)
      invariant tidy <= Tidy(disk.files, disk.dirs)
    {
      var c := copies[n];
      ghost var kept, trace := disk.kept, disk.trace;
      StillCopying(base, local, remote, files, copies, n, start);
      WithLocalCopiesSnoc(local, copies, n);
      LoserFacts(base, local, remote, files, copies, n);
      if c.localOnly && c.side == Local {
        LocalFileInPlace(base, local, remote, files, copies, n);
        var content := disk.files[c.path];
        disk.Keep(ClaimedName(c), content.(mtimeSecs := c.entry.mtimeSecs, mtimeNanos := Clamp(c.entry.mtimeNanos)));
        LocalOnlyStep(base, local, remote, files, copies, n, kept, c.entry);
        CopyingMore(start, trace0, trace, copies, disk.Now());
      } else if c.localOnly {
        if fits {
          ChunksForCopy(copies, have, n);
        }
        ok := AssembleLocalCopy(disk, c, have);
        if !ok {
          return;
        }
        LocalOnlyStep(base, local, remote, files, copies, n, kept, disk.kept[ClaimedName(c)]);
        CopyingMore(start, trace0, trace, copies, disk.Now());
      } else if c.side == Local {
        if fits {
          forall q | q in disk.files
            ensures !(c.copyPath < q) && !(q < c.copyPath)
          {
            CopyHasRoom(base, local, remote, files, copies, n, q);
          }
          ListedCopy(copies, n);
          NothingInTheWay(disk.files, disk.dirs, c.copyPath);
        }
        LocalFileInPlace(base, local, remote, files, copies, n);
        ghost var torn := c.entry;
        ok, torn := CopyLocalLoser(disk, c);
        if !ok {
          return;
        }
        ghost var tornState := Snapshot(WithLocalCopies(local, copies[..n])[c.copyPath := torn], disk.kept, disk.pointer);
        LocalCopyStep(base, local, remote, files, copies, n, start, disk.kept, torn);
        LocalCopyStep(base, local, remote, files, copies, n, start, disk.kept, c.entry);
        CopyingMore(start, trace0, trace, copies, tornState);
        CopyingMore(start, trace0, trace + [tornState], copies, disk.Now());
        assert disk.trace == trace + [tornState] + [disk.Now()];
        LocalOnlyStep(base, local, remote, files, copies, n, kept, c.entry);
      } else {
        // A remote loser outside `.git` is ordinary remote content for the apply.
        LocalOnlyStep(base, local, remote, files, copies, n, kept, c.entry);
      }
    }
    assert copies[..|copies|] == copies;
    ok := true;
  }

  lemma ListedCopy(copies: seq<ConflictCopy>, n: nat)
    requires n < |copies| && IsLocalCopy(copies[n])
    ensures copies[n].copyPath in LocalCopies(copies)
  {
    assert copies[n] in copies;
  }

  lemma NothingCopied(start: Snapshot, trace: seq<Snapshot>, copies: seq<ConflictCopy>)
    ensures AllCopying(start, trace, trace, copies)
    ensures WithLocalCopies(start.files, copies[..0]) == start.files
  {
  }

  lemma ChunksForCopy(copies: seq<ConflictCopy>, have: set<Hash>, n: nat)
    requires HasChunksForCopies(copies, have) && n < |copies| && copies[n].localOnly && copies[n].side == Remote
    ensures ChunksOf(copies[n].entry) <= have
  {
  }

  lemma LocalFileInPlace(base: Files, local: Files, remote: Files, files: Files, copies: seq<ConflictCopy>, n: nat)
    requires Outcome(base, local, remote, files, copies) && n < |copies| && copies[n].side == Local
    ensures Get(WithLocalCopies(local, copies[..n]), copies[n].path) == Some(copies[n].entry)
    ensures Timed(local) ==> Clamp(copies[n].entry.mtimeNanos) == copies[n].entry.mtimeNanos
  {
    assert PreservesLoser(copies[n], base, local, remote);
    assert Get(local, copies[n].path) == Some(copies[n].entry);
    hide Outcome, WithLocalCopies, CopiesApart, IsLocalCopyAt, PreservesLoser;
    OutcomeKeepsCopiesApart(base, local, remote, files, copies);
    WithLocalCopiesLookup(local, remote, copies, n);
  }

  lemma FewerLocalCopies(copies: seq<ConflictCopy>, n: nat)
    requires n <= |copies|
    ensures forall p :: IsLocalCopyAt(copies[..n], p) ==> IsLocalCopyAt(copies, p)
  {
    forall p | IsLocalCopyAt(copies[..n], p)
      ensures IsLocalCopyAt(copies, p)
    {
      var i :| 0 <= i < n && IsLocalCopy(copies[..n][i]) && copies[..n][i].copyPath == p;
      assert copies[i] == copies[..n][i];
    }
  }

  lemma StillCopying(base: Files, local: Files, remote: Files, files: Files, copies: seq<ConflictCopy>, n: nat, start: Snapshot)
    requires Outcome(base, local, remote, files, copies) && n <= |copies| && start.files == local
    ensures forall kept :: CopyingState(start, copies, Snapshot(WithLocalCopies(local, copies[..n]), kept, start.pointer))
  {
    OutcomeKeepsCopiesApart(base, local, remote, files, copies);
    WithLocalCopiesLookup(local, remote, copies, n);
    hide Outcome, WithLocalCopies, CopiesApart;
    var m := WithLocalCopies(local, copies[..n]);
    FewerLocalCopies(copies, n);
    hide IsLocalCopyAt;
    assert forall p :: p in m ==> p in local || IsLocalCopyAt(copies, p);
    assert forall p :: p in local ==> Get(m, p) == Get(local, p);
  }

  // ---------- materialize ----------

  /** The tree that a finished materialization leaves: the scanned files, the local copies
      and, where the merge differs from them, its entries as they land on disk. */
  function Landing(local: Files, copies: seq<ConflictCopy>, files: Files): Files {
    var onDisk := WithLocalCopies(local, copies);
    Applied(onDisk, onDisk, files)
  }

  /** The tree is exactly the merge unless it had to write permission bits or a timestamp
      that the apply does not materialize. */
  lemma LandsExactlyIff(base: Files, local: Files, remote: Files, files: Files, copies: seq<ConflictCopy>)
    requires Outcome(base, local, remote, files, copies)
    ensures var plan := ApplyFromRemote(local, files, copies);
            Landing(local, copies, files) == files <==> forall p :: p in plan.added + plan.changed ==> Plain(files[p])
  {
    AppliesWhatWasFetched(base, local, remote, files, copies);
    ReplacesExactlyIff(WithLocalCopies(local, copies), files);
    hide Outcome, WithLocalCopies, ApplyFromRemote;
  }

  lemma LandingIsTimed(base: Files, local: Files, remote: Files, files: Files, copies: seq<ConflictCopy>)
    requires Outcome(base, local, remote, files, copies) && Timed(local)
    ensures Timed(Landing(local, copies, files))
  {
    hide Outcome, WithLocalCopies, LocalCopies, Applied, Timed;
    OnDiskShape(base, local, remote, files, copies);
    CopiesAreTimed(base, local, remote, files, copies);
    BothTimed(local, LocalCopies(copies), WithLocalCopies(local, copies), files);
    AppliedIsTimed(WithLocalCopies(local, copies), files);
  }

  lemma BothTimed(local: Files, extras: set<Path>, onDisk: Files, files: Files)
    requires forall p :: p in onDisk <==> p in local || p in extras
    requires forall p :: p in local ==> p in onDisk && onDisk[p] == local[p]
    requires forall p :: p in extras ==> p in files && p in onDisk && onDisk[p] == files[p]
    requires Timed(local) && forall p :: p in extras ==> 0 <= files[p].mtimeNanos <= 999_999_999
    ensures Timed(onDisk)
  {
  }

  lemma AppliedIsTimed(before: Files, after: Files)
    requires Timed(before)
    ensures Timed(Applied(before, before, after))
  {
    hide DiffOf;
  }

  lemma CopiesAreTimed(base: Files, local: Files, remote: Files, files: Files, copies: seq<ConflictCopy>)
    requires Outcome(base, local, remote, files, copies) && Timed(local)
    ensures forall p :: p in LocalCopies(copies) ==> p in files && 0 <= files[p].mtimeNanos <= 999_999_999
  {
    LocalCopiesByIndex(copies);
    hide PreservesLoser, LocalCopies, Contested, WinnerAt;
    forall p | p in LocalCopies(copies)
      ensures p in files && 0 <= files[p].mtimeNanos <= 999_999_999
    {
      var i :| 0 <= i < |copies| && IsLocalCopy(copies[i]) && copies[i].copyPath == p;
      assert Get(files, copies[i].copyPath) == Some(copies[i].entry);
      LoserFacts(base, local, remote, files, copies, i);
    }
  }

  lemma NothingToLand(files: Files)
    ensures Applied(files, files, files) == files
  {
  }

  datatype Materialized = Materialized(written: set<Path>, deleted: set<Path>, conflictCopies: seq<Path>)

  function CopyPathsInOrder(copies: seq<ConflictCopy>): seq<Path> {
    seq(|copies|, i requires 0 <= i < |copies| => copies[i].copyPath)
  }

  /** Conflict copies are reported as such, not as remote content. */
  ghost function ReportOf(plan: ManifestDiff, copies: seq<ConflictCopy>): Materialized {
    var paths := CopyPathsInOrder(copies);
    Materialized(plan.added + plan.changed - SetOf(paths), plan.deleted, paths)
  }

  /** The report names each copy by the path it was made at, in the order in which they were made;
      what it calls written is the rest of what was added or changed. */
  lemma ReportNamesCopies(plan: ManifestDiff, copies: seq<ConflictCopy>)
    ensures var r := ReportOf(plan, copies);
      && |r.conflictCopies| == |copies| && (forall i :: 0 <= i < |copies| ==> r.conflictCopies[i] == copies[i].copyPath)
      && r.deleted == plan.deleted
      && forall p :: p in r.written <==>
           (p in plan.added || p in plan.changed) && forall i :: 0 <= i < |copies| ==> copies[i].copyPath != p
  {
    var paths := CopyPathsInOrder(copies);
    assert forall i :: 0 <= i < |copies| ==> paths[i] == copies[i].copyPath;
    assert forall p :: p in SetOf(paths) <==> exists i :: 0 <= i < |paths| && paths[i] == p;
  }

  datatype MaterializeError = CopyFailed | ApplyFailed(error: ApplyError)

  /** A state that stopping a materialization can leave behind. Either no file of the
      tree has been touched yet, or every loser is already copied and each path is as
      it was or as the merge has it; the pointer only ever moves to the head that was
      merged against, and only when the tree is complete. */
  ghost predicate MidMaterialize(start: Snapshot, remote: Files, files: Files, copies: seq<ConflictCopy>, t: Snapshot) {
    || CopyingState(start, copies, t)
    || (&& KeepsLocalOnly(t.kept, copies)
        && MidApply(start.files, copies, files, t.files)
        && (t.pointer == start.pointer || (t.pointer == Some(remote) && t.files == Landing(start.files, copies, files))))
  }

  /** Each path is as it was once the losers were copied, or as the merge lands, or has just
      got the file that lands. */
  ghost predicate MidApply(local: Files, copies: seq<ConflictCopy>, files: Files, t: Files) {
    var onDisk := WithLocalCopies(local, copies);
    PathwiseBetween(onDisk, t, Landing(local, copies, files), Writes(onDisk, files))
  }

  ghost predicate AllMidMaterialize(start: Snapshot, before: seq<Snapshot>, trace: seq<Snapshot>,
                                    remote: Files, files: Files, copies: seq<ConflictCopy>) {
    before <= trace && forall i :: |before| <= i < |trace| ==> MidMaterialize(start, remote, files, copies, trace[i])
  }

  lemma CopyingThenApplying(start: Snapshot, before: seq<Snapshot>, mid: seq<Snapshot>, trace: seq<Snapshot>,
                            from: Snapshot, remote: Files, files: Files, copies: seq<ConflictCopy>)
    requires AllCopying(start, before, mid, copies)
    requires AllInterrupted(from, mid, trace, Landing(start.files, copies, files),
                            Writes(WithLocalCopies(start.files, copies), files), remote)
    requires from.files == WithLocalCopies(start.files, copies) && KeepsLocalOnly(from.kept, copies)
             && from.pointer == start.pointer
    ensures AllMidMaterialize(start, before, trace, remote, files, copies)
  {
    hide CopyingState, KeepsLocalOnly, WithLocalCopies, PathwiseBetween, WorktreeBeforeGit, Landing, Writes;
    forall i | |before| <= i < |trace|
      ensures MidMaterialize(start, remote, files, copies, trace[i])
    {
      if i < |mid| {
        assert trace[i] == mid[i];
      } else {
        assert Interrupted(from, trace[i], Landing(start.files, copies, files), Writes(from.files, files), remote);
      }
    }
  }

  lemma OnlyCopied(start: Snapshot, before: seq<Snapshot>, trace: seq<Snapshot>, remote: Files, files: Files,
                   copies: seq<ConflictCopy>)
    requires AllCopying(start, before, trace, copies)
    ensures AllMidMaterialize(start, before, trace, remote, files, copies)
  {
    hide CopyingState, MidApply;
  }

  lemma CopyAboveFile(base: Files, local: Files, remote: Files, files: Files, copies: seq<ConflictCopy>, c: Path, q: Path)
    requires NoFileIsADirectory(local)
    requires Outcome(base, local, remote, files, copies)
    requires c in LocalCopies(copies) && (q in local || q in LocalCopies(copies))
    ensures !(c < q) && !(q < c)
  {
    LocalCopiesByIndex(copies);
    OutcomeKeepsCopiesApart(base, local, remote, files, copies);
    hide LocalCopies, Outcome;
    var i :| 0 <= i < |copies| && IsLocalCopy(copies[i]) && copies[i].copyPath == c;
    if q in local {
      WithLocalCopiesLookup(local, remote, copies, i);
      assert Get(WithLocalCopies(local, copies[..i]), q) == Some(local[q]);
      CopyHasRoom(base, local, remote, files, copies, i, q);
    } else {
      var j :| 0 <= j < |copies| && IsLocalCopy(copies[j]) && copies[j].copyPath == q;
      WithLocalCopiesLookup(local, remote, copies, if i < j then j else i);
      if i < j {
        assert Get(WithLocalCopies(local, copies[..j]), copies[i].copyPath) == Some(copies[i].entry);
        CopyHasRoom(base, local, remote, files, copies, j, c);
      } else if j < i {
        assert Get(WithLocalCopies(local, copies[..i]), copies[j].copyPath) == Some(copies[j].entry);
        CopyHasRoom(base, local, remote, files, copies, i, q);
      }
    }
  }

  lemma OnDiskIsValid(base: Files, local: Files, remote: Files, files: Files, copies: seq<ConflictCopy>)
    requires Valid(local) && Valid(files)
    requires Outcome(base, local, remote, files, copies)
    ensures Valid(WithLocalCopies(local, copies))
  {
    var extras := LocalCopies(copies);
    OnDiskShape(base, local, remote, files, copies);
    hide Outcome, WithLocalCopies, LocalCopies, ValidPath, ValidEntry;
    forall p, q | p in extras && (q in local || q in extras)
      ensures !(p < q) && !(q < p)
    {
      CopyAboveFile(base, local, remote, files, copies, p, q);
    }
    ValidBesideExtras(local, files, WithLocalCopies(local, copies), extras);
  }

  lemma ValidBesideExtras(local: Files, files: Files, onDisk: Files, extras: set<Path>)
    requires Valid(local) && Valid(files)
    requires forall p :: p in onDisk <==> p in local || p in extras
    requires forall p :: p in local ==> onDisk[p] == local[p]
    requires forall p :: p in extras ==> p in files && onDisk[p] == files[p]
    requires forall p, q :: p in extras && (q in local || q in extras) ==> !(p < q) && !(q < p)
    ensures Valid(onDisk)
  {
    hide ValidPath, ValidEntry;
  }

  /** The work of the apply has been fetched, counted in the fetch's own terms. */
  ghost predicate HasPlannedChunks(local: Files, files: Files, copies: seq<ConflictCopy>, have: set<Hash>) {
    var plan := ApplyFromRemote(local, files, copies);
    HasChunksFor(files, plan.added + plan.changed, have) && HasChunksForCopies(copies, have)
  }

  /** Every path that is written: by the apply, or as a local copy before it. */
  ghost function WrittenPaths(local: Files, files: Files, copies: seq<ConflictCopy>): set<Path> {
    var plan := ApplyFromRemote(local, files, copies);
    plan.added + plan.changed + LocalCopies(copies)
  }

  /** Nothing stands in the way of putting the merge on disk: tree and merge are valid, the
      planned chunks are there, and no empty directory is in the place of a file. */
  ghost predicate CanPlace(local: Files, tidy: iset<Path>, files: Files, copies: seq<ConflictCopy>, have: set<Hash>) {
    && Valid(local) && Valid(files) && HasPlannedChunks(local, files, copies, have)
    && forall p :: p in WrittenPaths(local, files, copies) ==> p in tidy
  }

  method Materialize(disk: Disk, local: Files, prePushBase: Files, files: Files, copies: seq<ConflictCopy>, have: set<Hash>,
                     fold: Path -> Path, ghost base: Files)
    returns (r: Result<Materialized, MaterializeError>)
    requires disk.Valid() && disk.files == local && Timed(local)
    requires Outcome(base, local, prePushBase, files, copies)
    modifies disk
    ensures disk.Valid()
    ensures AllMidMaterialize(old(disk.Now()), old(disk.trace), disk.trace, prePushBase, files, copies)
    ensures r.Ok? ==>
      && disk.files == Landing(local, copies, files) && Timed(disk.files)
      && KeepsLocalOnly(disk.kept, copies)
      && disk.pointer == (if WithLocalCopies(local, copies) == files then old(disk.pointer) else Some(prePushBase))
      && r.value == ReportOf(ApplyFromRemote(local, files, copies), copies)
      && Tidy(old(disk.files), old(disk.dirs)) <= Tidy(disk.files, disk.dirs)
    ensures r.Err? ==> disk.pointer == old(disk.pointer)
    // Once the merge can be placed nothing goes wrong, except that a merge that has to be
    // applied is refused exactly if two of its names fold together.
    ensures CanPlace(local, Tidy(old(disk.files), old(disk.dirs)), files, copies, have) ==>
      && (r.Ok? || r == Err(ApplyFailed(CaseCollision)))
      && (r.Err? <==> FoldCollision(files, fold) && WithLocalCopies(local, copies) != files)
    ensures r == Err(ApplyFailed(CaseCollision)) ==> FoldCollision(files, fold) && WithLocalCopies(local, copies) != files
  {
    hide Outcome, Valid, FoldCollision, TidyAt, WellFormed, NoFileIsADirectory, HasChunksFor, HasChunksForCopies;
    hide ApplyFromRemote;
    hide Timed, KeepsLocalOnly, WithLocalCopies, AllCopying, AllInterrupted, AllMidMaterialize, Applied, LocalCopies;
    ghost var start, trace0 := disk.Now(), disk.trace;
    ValidHasNoClash(local);
    LandingIsTimed(base, local, prePushBase, files, copies);
    var ok := CopyLosers(disk, copies, have, base, prePushBase, files);
    if !ok {
      OnlyCopied(start, trace0, disk.trace, prePushBase, files, copies);
      return Err(CopyFailed);
    }
    var onDisk := disk.files;
    AppliesWhatWasFetched(base, local, prePushBase, files, copies);
    var d := Diff(onDisk, files);
    var copyPaths := CopyPathsInOrder(copies);
    if d == ManifestDiff({}, {}, {}) {
      NothingToLand(files);
      OnlyCopied(start, trace0, disk.trace, prePushBase, files, copies);
      return Ok(Materialized({}, {}, copyPaths));
    }
    if Valid(local) && Valid(files) {
      OnDiskIsValid(base, local, prePushBase, files, copies);
    }
    ghost var from, trace := disk.Now(), disk.trace;
    var report := ApplyCommit(disk, onDisk, files, have, prePushBase, fold);
    CopyingThenApplying(start, trace0, trace, disk.trace, from, prePushBase, files, copies);
    match report {
      case Ok(applied) =>
        r := Ok(Materialized(applied.written - (set p | p in copyPaths), applied.deleted, copyPaths));
      case Err(e) =>
        r := Err(ApplyFailed(e));
    }
  }

  lemma ValidHasNoClash(m: Files)
    ensures Valid(m) ==> NoFileIsADirectory(m)
  {
  }
}
