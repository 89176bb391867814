/** What the merge promises, for all manifests: it is a function of its inputs, it
    loses no edit, its copies clash with nothing, and when its result is a manifest
    that can be published (crates/core/src/merge.rs). */
module MergeLaws {
  import opened Manifests
  import opened Naming
  import opened Merging

  // ---------- determinism ----------

  lemma SameCopy(base: Files, local: Files, remote: Files, device: string, stamp: string, taken: set<Path>,
                 a: ConflictCopy, b: ConflictCopy)
    requires PreservesLoser(a, base, local, remote) && PreservesLoser(b, base, local, remote) && a.path == b.path
    requires IsClaim(taken, a.path, Label(a.side, device), stamp, ClaimedName(a))
    requires IsClaim(taken, b.path, Label(b.side, device), stamp, ClaimedName(b))
    ensures a == b
  {
    hide IsClaim, Reserved, Label;
    ClaimIsUnique(taken, a.path, Label(a.side, device), stamp, ClaimedName(a), ClaimedName(b));
  }

  lemma SameCopyAt(base: Files, local: Files, remote: Files, device: string, stamp: string, contested: seq<Path>,
                   a: seq<ConflictCopy>, b: seq<ConflictCopy>, i: nat)
    requires NamedInOrder(local, remote, device, stamp, contested, a)
             && NamedInOrder(local, remote, device, stamp, contested, b)
    requires i < |a| && a[..i] == b[..i]
    requires PreservesLoser(a[i], base, local, remote) && PreservesLoser(b[i], base, local, remote)
    ensures a[i] == b[i]
  {
    hide IsClaim, Reserved, PreservesLoser, Label, ClaimedName, ClaimedNames;
    var taken := Reserved(local, remote) + ClaimedNames(a[..i]);
    assert IsClaim(taken, a[i].path, Label(a[i].side, device), stamp, ClaimedName(a[i]));
    assert IsClaim(taken, b[i].path, Label(b[i].side, device), stamp, ClaimedName(b[i]));
    SameCopy(base, local, remote, device, stamp, taken, a[i], b[i]);
  }

  lemma {:induction false} SameCopies(base: Files, local: Files, remote: Files, device: string, stamp: string,
                                      contested: seq<Path>, a: seq<ConflictCopy>, b: seq<ConflictCopy>, n: nat)
    requires NamedInOrder(local, remote, device, stamp, contested, a)
             && NamedInOrder(local, remote, device, stamp, contested, b)
    requires forall i :: 0 <= i < |a| ==> PreservesLoser(a[i], base, local, remote)
    requires forall i :: 0 <= i < |b| ==> PreservesLoser(b[i], base, local, remote)
    requires n <= |a|
    ensures |a| == |b| && a[..n] == b[..n]
  {
    hide NamedInOrder, PreservesLoser;
    OneForEach(local, remote, device, stamp, contested, a);
    OneForEach(local, remote, device, stamp, contested, b);
    if n > 0 {
      SameCopies(base, local, remote, device, stamp, contested, a, b, n - 1);
      SameCopyAt(base, local, remote, device, stamp, contested, a, b, n - 1);
      assert a[..n] == a[..n - 1] + [a[n - 1]] && b[..n] == b[..n - 1] + [b[n - 1]];
    }
  }

  lemma OneForEach(local: Files, remote: Files, device: string, stamp: string, contested: seq<Path>, a: seq<ConflictCopy>)
    requires NamedInOrder(local, remote, device, stamp, contested, a)
    ensures |a| == |contested|
  {
    hide IsClaim, Reserved, ClaimedNames, ClaimedName, Label;
  }

  lemma SameFiles(base: Files, local: Files, remote: Files, copies: seq<ConflictCopy>, a: Files, b: Files)
    requires Outcome(base, local, remote, a, copies) && Outcome(base, local, remote, b, copies)
    ensures a == b
  {
    hide PreservesLoser, Contested, WinnerAt;
    forall p | p in a
      ensures p in b && a[p] == b[p]
    {
      if p in local || p in remote {
        assert Get(a, p) == Get(b, p);
      } else {
        var i :| 0 <= i < |copies| && !copies[i].localOnly && copies[i].copyPath == p;
        assert Get(a, p) == Get(b, p);
      }
    }
    forall p | p in b
      ensures p in a
    {
      if p in local || p in remote {
        assert Get(a, p) == Get(b, p);
      } else {
        var i :| 0 <= i < |copies| && !copies[i].localOnly && copies[i].copyPath == p;
        assert Get(a, p) == Get(b, p);
      }
    }
  }

  /** The same three manifests, device label and stamp give the same outcome, down to the
      numbering of conflict copies. */
  lemma MergeIsDeterministic(base: Manifest, local: Manifest, remote: Manifest, device: string, stamp: string,
                             paths: seq<Path>, a: MergeOutcome, b: MergeOutcome)
    requires IsMerge(base, local, remote, device, stamp, paths, a)
    requires IsMerge(base, local, remote, device, stamp, paths, b)
    ensures a == b
  {
    SameCopies(base.files, local.files, remote.files, device, stamp,
               ContestedPaths(base.files, local.files, remote.files, paths), a.conflicts, b.conflicts, |a.conflicts|);
    assert a.conflicts[..|a.conflicts|] == a.conflicts && b.conflicts[..|b.conflicts|] == b.conflicts;
    SameFiles(base.files, local.files, remote.files, a.conflicts, a.merged.files, b.merged.files);
  }

  // ---------- nothing is lost ----------

  /** Some entry of the tree, or some copy kept outside it, holds the content of `e`. */
  ghost predicate ContentKept(files: Files, copies: seq<ConflictCopy>, p: Path, e: FileEntry) {
    || (p in files && SameContent(files[p], e))
    || (exists i :: 0 <= i < |copies| && copies[i].path == p && copies[i].entry == e
          && (copies[i].localOnly || Get(files, copies[i].copyPath) == Some(e)))
  }

  /** Every edit of either side is kept: in place, or as a copy of the contested
      path that really is in the merged tree (or, inside `.git`, beside it). */
  lemma NoEditIsLost(base: Files, local: Files, remote: Files, files: Files, copies: seq<ConflictCopy>, p: Path)
    requires Outcome(base, local, remote, files, copies)
    ensures p in local && Get(base, p) != Get(local, p) ==> ContentKept(files, copies, p, local[p])
    ensures p in remote && Get(base, p) != Get(remote, p) ==> ContentKept(files, copies, p, remote[p])
  {
    DecideKeepsEdits(Get(base, p), Get(local, p), Get(remote, p));
    if Contested(base, local, remote, p) {
      var i :| 0 <= i < |copies| && copies[i].path == p;
      assert PreservesLoser(copies[i], base, local, remote);
    }
  }

  /** Whatever either side changed is in the merge chunk by chunk: some merged file or some copy
      has its chunk list, permissions and size. */
  lemma NoBytesAreLost(base: Files, local: Files, remote: Files, files: Files, copies: seq<ConflictCopy>, p: Path, e: FileEntry)
    requires Outcome(base, local, remote, files, copies)
    requires (p in local && local[p] == e) || (p in remote && remote[p] == e)
    requires p in base ==> base[p] != e
    ensures || (p in files && files[p].chunks == e.chunks && files[p].mode == e.mode && files[p].size == e.size)
            || (exists i :: 0 <= i < |copies| && copies[i].path == p && copies[i].entry == e
                  && (copies[i].localOnly || (copies[i].copyPath in files && files[copies[i].copyPath] == e)))
  {
    NoEditIsLost(base, local, remote, files, copies, p);
    hide Outcome;
  }

  /** A path gets a conflict copy exactly if both sides changed it and the two disagree about its
      chunks, its permissions or its size. */
  lemma CopiedIff(base: Files, local: Files, remote: Files, files: Files, copies: seq<ConflictCopy>, p: Path)
    requires Outcome(base, local, remote, files, copies)
    ensures (exists i :: 0 <= i < |copies| && copies[i].path == p) <==>
      && p in local && p in remote && (p in base ==> base[p] != local[p] && base[p] != remote[p])
      && var l, r := local[p], remote[p];
         l.chunks != r.chunks || l.mode != r.mode || l.size != r.size
  {
    ContestedIff(base, local, remote, p);
    if i :| 0 <= i < |copies| && copies[i].path == p {
      assert PreservesLoser(copies[i], base, local, remote);
    }
  }

  lemma ContestedIff(base: Files, local: Files, remote: Files, p: Path)
    ensures Contested(base, local, remote, p) <==>
      && p in local && p in remote && (p in base ==> base[p] != local[p] && base[p] != remote[p])
      && var l, r := local[p], remote[p];
         l.chunks != r.chunks || l.mode != r.mode || l.size != r.size
  {
  }

  /** A copy of a file of the repository is kept in the conflict area and is no merged file; any
      other copy is a merged file beside the one that it is a copy of. */
  lemma CopyIsWhere(base: Files, local: Files, remote: Files, files: Files, copies: seq<ConflictCopy>, i: nat)
    requires Outcome(base, local, remote, files, copies) && i < |copies|
    ensures var c, n := copies[i], |copies[i].path| - 1;
      && n >= 0
      && if c.path[0] == ".git" then
           c.localOnly && |c.copyPath| == n + 3
           && c.copyPath[..2] == [".pear", "conflicts"] && c.copyPath[2..][..n] == c.path[..n]
         else
           !c.localOnly && |c.copyPath| == n + 1 && c.copyPath[..n] == c.path[..n]
           && c.copyPath in files && files[c.copyPath] == c.entry && c.copyPath !in local && c.copyPath !in remote
  {
    assert PreservesLoser(copies[i], base, local, remote);
    var c, name := copies[i], ClaimedName(copies[i]);
    CopyHasName(c.path, name);
    ReservedMembers(local, remote, name);
    assert c.localOnly ==> c.copyPath[2..] == name && c.copyPath[..2] == LOCAL_CONFLICT_DIR;
    hide Outcome, PreservesLoser, Reserved;
  }

  lemma CopyHasName(path: Path, name: Path)
    requires |name| == |path| && IsCopyName(FileName(name), FileName(path))
    ensures path != []
  {
  }

  ghost predicate OriginatesIn(local: Files, remote: Files, e: FileEntry) {
    exists q :: Get(local, q) == Some(e) || Get(remote, q) == Some(e)
  }

  /** Nothing is invented: every merged entry is, verbatim, an entry of one side. */
  lemma EveryEntryHasAnOrigin(base: Files, local: Files, remote: Files, files: Files, copies: seq<ConflictCopy>, p: Path)
    requires Outcome(base, local, remote, files, copies) && p in files
    ensures OriginatesIn(local, remote, files[p])
  {
    if p in local || p in remote {
      assert Get(files, p) == WinnerAt(base, local, remote, p);
      DecideKeepsEdits(Get(base, p), Get(local, p), Get(remote, p));
      hide Decide, Outcome;
      assert Get(local, p) == Some(files[p]) || Get(remote, p) == Some(files[p]);
    } else {
      var i :| 0 <= i < |copies| && !copies[i].localOnly && copies[i].copyPath == p;
      assert Get(files, copies[i].copyPath) == Some(copies[i].entry);
      CopyOriginates(base, local, remote, copies[i]);
    }
  }

  lemma CopyOriginates(base: Files, local: Files, remote: Files, c: ConflictCopy)
    requires PreservesLoser(c, base, local, remote)
    ensures OriginatesIn(local, remote, c.entry)
  {
    assert Get(local, c.path) == Some(c.entry) || Get(remote, c.path) == Some(c.entry);
  }

  /** An unedited side is followed exactly, without a conflict. */
  lemma UneditedSideFollows(base: Files, local: Files, remote: Files, files: Files, copies: seq<ConflictCopy>)
    requires Outcome(base, local, remote, files, copies)
    ensures local == base ==> files == remote && copies == []
    ensures remote == base ==> files == local && copies == []
    ensures local == remote ==> files == local && copies == []
  {
    if local == base || remote == base || local == remote {
      assert |copies| > 0 ==> PreservesLoser(copies[0], base, local, remote);
      hide PreservesLoser;
      forall p
        ensures Get(files, p) == if local == base then Get(remote, p) else Get(local, p)
      {
        assert p in local || p in remote ==> Get(files, p) == WinnerAt(base, local, remote, p);
      }
      hide Outcome;
      EqualByLookup(files, if local == base then remote else local);
    }
  }

  // ---------- clashes ----------

  /** A path that one side alone has and that the merge keeps. */
  predicate KeptFrom(base: Files, side: Files, other: Files, p: Path) {
    p in side && p !in other && Get(base, p) != Get(side, p)
  }

  ghost predicate CrossCollision(base: Files, local: Files, remote: Files) {
    exists p, q :: p < q && CrossPair(base, local, remote, p, q)
  }

  predicate CrossPair(base: Files, local: Files, remote: Files, p: Path, q: Path) {
    || (KeptFrom(base, local, remote, p) && KeptFrom(base, remote, local, q))
    || (KeptFrom(base, remote, local, p) && KeptFrom(base, local, remote, q))
  }

  lemma KeptFromOneSide(base: Files, local: Files, remote: Files, p: Path)
    requires (p in local) != (p in remote)
    ensures WinnerAt(base, local, remote, p).Some?
       <==> KeptFrom(base, local, remote, p) || KeptFrom(base, remote, local, p)
  {
  }

  /** A copy lies in the directory of a key of both sides, under a name that neither side uses. */
  lemma CopyPlaced(base: Files, local: Files, remote: Files, files: Files, copies: seq<ConflictCopy>,
                   c: Path) returns (path: Path)
    requires Outcome(base, local, remote, files, copies) && IsCopyAt(copies, c)
    ensures path in local && path in remote && |c| == |path| && Dir(c) == Dir(path) && c != []
    ensures c !in Reserved(local, remote)
  {
    var i :| 0 <= i < |copies| && !copies[i].localOnly && copies[i].copyPath == c;
    assert PreservesLoser(copies[i], base, local, remote);
    hide Reserved;
    path := copies[i].path;
    assert |FileName(c)| > |FileName(path)|;
  }

  lemma BesideEveryKey(local: Files, remote: Files, path: Path, c: Path, q: Path)
    requires NoFileIsADirectory(local) && NoFileIsADirectory(remote) && (q in local || q in remote)
    requires path in local && path in remote && |c| == |path| && Dir(c) == Dir(path) && c != []
    requires c !in Reserved(local, remote)
    ensures !(c < q) && !(q < c)
  {
    ReservedMembers(local, remote, c);
    hide Reserved;
    assert q == [] ==> q < path;
    if q < c && q != [] {
      PrefixInSameDir(q, c, path);
    }
  }

  /** A copy is no file's directory, and the directories it lies in hold no file of
      the merge. */
  lemma CopyClashesWithNothing(base: Files, local: Files, remote: Files, files: Files, copies: seq<ConflictCopy>,
                               c: Path, q: Path)
    requires NoFileIsADirectory(local) && NoFileIsADirectory(remote)
    requires Outcome(base, local, remote, files, copies)
    requires IsCopyAt(copies, c) && q in files
    ensures !(c < q) && !(q < c)
  {
    hide Reserved, PreservesLoser, Contested, WinnerAt, NoFileIsADirectory;
    var path := CopyPlaced(base, local, remote, files, copies, c);
    if q in local || q in remote {
      BesideEveryKey(local, remote, path, c, q);
    } else {
      var other := CopyPlaced(base, local, remote, files, copies, q);
      ReservedMembers(local, remote, c);
      ReservedMembers(local, remote, q);
      if q < c {
        PrefixInSameDir(q, c, path);
      }
      if c < q {
        PrefixInSameDir(c, q, other);
      }
    }
  }

  lemma PrefixInSameDir(q: Path, c: Path, path: Path)
    requires q < c && |c| == |path| && Dir(c) == Dir(path) && q != []
    ensures q < path
  {
    assert q == c[..|q|] == Dir(c)[..|q|] == Dir(path)[..|q|] == path[..|q|];
  }

  /** Every file/directory clash of a merge is between a path only one side has and
      a path only the other side has. */
  lemma ClashesAreCrossSide(base: Files, local: Files, remote: Files, files: Files, copies: seq<ConflictCopy>, p: Path, q: Path)
    requires NoFileIsADirectory(local) && NoFileIsADirectory(remote)
    requires Outcome(base, local, remote, files, copies)
    requires p in files && q in files && p < q
    ensures CrossPair(base, local, remote, p, q)
  {
    if IsCopyAt(copies, p) {
      CopyClashesWithNothing(base, local, remote, files, copies, p, q);
    }
    if IsCopyAt(copies, q) {
      CopyClashesWithNothing(base, local, remote, files, copies, q, p);
    }
    assert Get(files, p) == WinnerAt(base, local, remote, p);
    assert Get(files, q) == WinnerAt(base, local, remote, q);
    KeptFromOneSide(base, local, remote, p);
    KeptFromOneSide(base, local, remote, q);
  }

  lemma CopyIsValid(base: Files, local: Files, remote: Files, device: string, stamp: string, taken: set<Path>, c: ConflictCopy)
    requires Valid(local) && Valid(remote) && '/' !in stamp && !c.localOnly
    requires PreservesLoser(c, base, local, remote)
    requires IsClaim(taken, c.path, Label(c.side, device), stamp, ClaimedName(c))
    ensures ValidPath(c.copyPath) && ValidEntry(c.entry)
  {
    hide IsClaim, Reserved, ValidPath, ValidEntry;
    assert c.path in local && c.path in remote && ValidPath(c.path);
    assert c.path != [] by {
      NonEmpty(c.path);
    }
    ClaimShape(taken, c.path, Label(c.side, device), stamp, ClaimedName(c));
  }

  lemma NonEmpty(p: Path)
    requires ValidPath(p)
    ensures p != []
  {
  }

  lemma WinnerIsValid(base: Files, local: Files, remote: Files, p: Path)
    requires Valid(local) && Valid(remote) && WinnerAt(base, local, remote, p).Some?
    ensures ValidPath(p) && ValidEntry(WinnerAt(base, local, remote, p).value)
  {
    DecideKeepsEdits(Get(base, p), Get(local, p), Get(remote, p));
    hide ValidPath, ValidEntry, Decide;
    assert p in local || p in remote;
  }

  /** Every copy that enters the tree has a usable name. */
  ghost predicate SafeNames(copies: seq<ConflictCopy>) {
    forall i :: 0 <= i < |copies| && !copies[i].localOnly ==> ValidPath(copies[i].copyPath)
  }

  lemma ClaimedNamesAreSafe(base: Files, local: Files, remote: Files, device: string, stamp: string,
                            contested: seq<Path>, copies: seq<ConflictCopy>)
    requires Valid(local) && Valid(remote) && '/' !in stamp
    requires forall i :: 0 <= i < |copies| ==> PreservesLoser(copies[i], base, local, remote)
    requires NamedInOrder(local, remote, device, stamp, contested, copies)
    ensures SafeNames(copies)
  {
    hide IsClaim, Reserved, ValidPath, ValidEntry, PreservesLoser;
    forall i | 0 <= i < |copies| && !copies[i].localOnly
      ensures ValidPath(copies[i].copyPath)
    {
      CopyIsValid(base, local, remote, device, stamp, Reserved(local, remote) + ClaimedNames(copies[..i]), copies[i]);
    }
  }

  lemma CopiedEntryIsValid(base: Files, local: Files, remote: Files, c: ConflictCopy)
    requires Valid(local) && Valid(remote) && PreservesLoser(c, base, local, remote)
    ensures ValidEntry(c.entry)
  {
    hide ValidPath, ValidEntry, Reserved;
    assert c.path in local && c.path in remote;
  }

  lemma MergedPathsAreValid(base: Files, local: Files, remote: Files, files: Files, copies: seq<ConflictCopy>, p: Path)
    requires Valid(local) && Valid(remote) && SafeNames(copies)
    requires Outcome(base, local, remote, files, copies)
    requires p in files
    ensures ValidPath(p) && ValidEntry(files[p])
  {
    hide ValidPath, ValidEntry, PreservesLoser, Contested;
    if p in local || p in remote {
      assert Get(files, p) == WinnerAt(base, local, remote, p);
      WinnerIsValid(base, local, remote, p);
    } else {
      var i :| 0 <= i < |copies| && !copies[i].localOnly && copies[i].copyPath == p;
      CopiedEntryIsValid(base, local, remote, copies[i]);
      assert Get(files, copies[i].copyPath) == Some(copies[i].entry);
    }
  }

  /** A merge of valid file sets is valid exactly when no file kept from one side is a
      directory of a file kept from the other. */
  lemma OutcomeIsValidIff(base: Files, local: Files, remote: Files, files: Files, copies: seq<ConflictCopy>)
    requires Valid(local) && Valid(remote) && SafeNames(copies)
    requires Outcome(base, local, remote, files, copies)
    ensures Valid(files) <==> !CrossCollision(base, local, remote)
  {
    hide Outcome, ValidPath, ValidEntry, SafeNames;
    forall p | p in files
      ensures ValidPath(p) && ValidEntry(files[p])
    {
      MergedPathsAreValid(base, local, remote, files, copies, p);
    }
    ClashFreeIff(base, local, remote, files, copies);
  }

  /** The same of the merge that a device computes. */
  lemma MergedIsValidIff(base: Manifest, local: Manifest, remote: Manifest, device: string, stamp: string,
                         paths: seq<Path>, out: MergeOutcome)
    requires Valid(local.files) && Valid(remote.files) && '/' !in stamp
    requires IsMerge(base, local, remote, device, stamp, paths, out)
    ensures Valid(out.merged.files) <==> !CrossCollision(base.files, local.files, remote.files)
  {
    hide Valid, NamedInOrder, PreservesLoser, CrossCollision;
    ClaimedNamesAreSafe(base.files, local.files, remote.files, device, stamp,
                        ContestedPaths(base.files, local.files, remote.files, paths), out.conflicts);
    OutcomeIsValidIff(base.files, local.files, remote.files, out.merged.files, out.conflicts);
  }

  lemma ClashFreeIff(base: Files, local: Files, remote: Files, files: Files, copies: seq<ConflictCopy>)
    requires NoFileIsADirectory(local) && NoFileIsADirectory(remote)
    requires Outcome(base, local, remote, files, copies)
    ensures NoFileIsADirectory(files) <==> !CrossCollision(base, local, remote)
  {
    hide PreservesLoser, Contested, WinnerAt;
    if p, q :| p < q && CrossPair(base, local, remote, p, q) {
      KeptFromOneSide(base, local, remote, p);
      KeptFromOneSide(base, local, remote, q);
      assert Get(files, p) == WinnerAt(base, local, remote, p) && Get(files, q) == WinnerAt(base, local, remote, q);
      assert p in files && q in files;
    } else if !NoFileIsADirectory(files) {
      var p, q :| p in files && q in files && p < q;
      ClashesAreCrossSide(base, local, remote, files, copies, p, q);
    }
  }

  /** Such a clash does arise from valid manifests: one device adds a file, the other adds
      a directory of the same name, and every merge of the two is invalid. */
  lemma CrossCollisionExample() returns (base: Files, local: Files, remote: Files)
    ensures Valid(base) && Valid(local) && Valid(remote)
    ensures forall files, copies :: Outcome(base, local, remote, files, copies) ==> !Valid(files)
  {
    var e := FileEntry(0, 0x1A4, 1, 0, []);
    base, local, remote := map[], map[["a"] := e], map[["a", "b"] := e];
    assert CrossPair(base, local, remote, ["a"], ["a", "b"]);
    assert ["a"] < ["a", "b"];
    assert NoFileIsADirectory(local) && NoFileIsADirectory(remote);
    forall files, copies | Outcome(base, local, remote, files, copies)
      ensures !NoFileIsADirectory(files)
    {
      ClashFreeIff(base, local, remote, files, copies);
    }
  }

  // ---------- merging against a published head ----------

  /** No worktree copy repeats an entry that the base lists under the copy's name. */
  ghost predicate CopiesAreNew(copies: seq<ConflictCopy>, base: Files) {
    forall i :: 0 <= i < |copies| && !copies[i].localOnly ==> Get(base, copies[i].copyPath) != Some(copies[i].entry)
  }

  /** One path: `a` met `b` over the base `o` and published the winner; now `b`, over
      the same base, meets that winner. */
  lemma RemergeTable(o: Option<FileEntry>, a: Option<FileEntry>, b: Option<FileEntry>)
    ensures var first := Decide(o, a, b);
            var second := Decide(o, b, WinnerOf(first));
            && WinnerOf(second) == WinnerOf(first)
            && (second.Conflict? <==> first.Conflict? && first.loserSide == Remote)
  {
  }

  lemma RemergeDecision(base: Files, a: Files, b: Files, head: Files, copies: seq<ConflictCopy>, p: Path)
    requires Outcome(base, a, b, head, copies)
    ensures WinnerAt(base, b, head, p) == Get(head, p)
       <==> (p in a || p in b || p !in head || Get(base, p) != Get(head, p))
    ensures Contested(base, b, head, p) <==> Contested(base, a, b, p) && DecideAt(base, a, b, p).loserSide == Remote
  {
    hide PreservesLoser;
    RemergeTable(Get(base, p), Get(a, p), Get(b, p));
    if p in a || p in b {
      assert Get(head, p) == WinnerAt(base, a, b, p);
    }
  }

  /** The other device lands on exactly the published file set, unless its old base
      already lists a copy under its new name; and it makes no new conflict copy
      exactly when no entry of its own lost the first race. */
  lemma PublishedHeadIsStable(base: Files, a: Files, b: Files, head: Files, copies: seq<ConflictCopy>,
                              again: Files, copies': seq<ConflictCopy>)
    requires Outcome(base, a, b, head, copies)
    requires Outcome(base, b, head, again, copies')
    ensures (forall p :: p in b || p in head ==> Get(again, p) == Get(head, p)) <==> CopiesAreNew(copies, base)
    ensures copies' == [] <==> forall i :: 0 <= i < |copies| ==> copies[i].side == Local
    ensures CopiesAreNew(copies, base) && copies' == [] ==> again == head
  {
    StableFiles(base, a, b, head, copies, again, copies');
    StableCopies(base, a, b, head, copies, again, copies');
    if CopiesAreNew(copies, base) && copies' == [] {
      forall p
        ensures Get(again, p) == Get(head, p)
      {
        assert p in again ==> p in b || p in head;
      }
      EqualByLookup(again, head);
    }
  }

  lemma StableFiles(base: Files, a: Files, b: Files, head: Files, copies: seq<ConflictCopy>,
                    again: Files, copies': seq<ConflictCopy>)
    requires Outcome(base, a, b, head, copies)
    requires Outcome(base, b, head, again, copies')
    ensures (forall p :: p in b || p in head ==> Get(again, p) == Get(head, p)) <==> CopiesAreNew(copies, base)
  {
    hide PreservesLoser, Contested, WinnerAt;
    if CopiesAreNew(copies, base) {
      forall p | p in b || p in head
        ensures Get(again, p) == Get(head, p)
      {
        RemergeDecision(base, a, b, head, copies, p);
        if p in head && p !in a && p !in b {
          var i :| 0 <= i < |copies| && !copies[i].localOnly && copies[i].copyPath == p;
          assert Get(head, copies[i].copyPath) == Some(copies[i].entry);
        }
      }
    } else {
      var i :| 0 <= i < |copies| && !copies[i].localOnly && Get(base, copies[i].copyPath) == Some(copies[i].entry);
      var p := copies[i].copyPath;
      assert Get(head, p) == Some(copies[i].entry);
      CopyIsNoKey(base, a, b, copies[i]);
      RemergeDecision(base, a, b, head, copies, p);
      assert Get(again, p) == WinnerAt(base, b, head, p);
    }
  }

  lemma CopyIsNoKey(base: Files, local: Files, remote: Files, c: ConflictCopy)
    requires PreservesLoser(c, base, local, remote) && !c.localOnly
    ensures c.copyPath !in local && c.copyPath !in remote
  {
    assert c.copyPath !in Reserved(local, remote);
  }

  lemma StableCopies(base: Files, a: Files, b: Files, head: Files, copies: seq<ConflictCopy>,
                     again: Files, copies': seq<ConflictCopy>)
    requires Outcome(base, a, b, head, copies)
    requires Outcome(base, b, head, again, copies')
    ensures copies' == [] <==> forall i :: 0 <= i < |copies| ==> copies[i].side == Local
  {
    if copies' == [] {
      forall i | 0 <= i < |copies|
        ensures copies[i].side == Local
      {
        assert PreservesLoser(copies[i], base, a, b);
        RemergeDecision(base, a, b, head, copies, copies[i].path);
      }
    } else {
      var p := copies'[0].path;
      assert PreservesLoser(copies'[0], base, b, head);
      RemergeDecision(base, a, b, head, copies, p);
      var i :| 0 <= i < |copies| && copies[i].path == p;
      assert PreservesLoser(copies[i], base, a, b);
    }
  }
}
