/** Every three file sets have a merge: the loop of the source always gets through
    (crates/core/src/merge.rs). */
module MergeExistence {
  import opened Manifests
  import opened Naming
  import opened Merging
  import opened MergeLaws

  lemma {:induction false} ListKeys(keys: set<Path>) returns (paths: seq<Path>)
    requires [] !in keys
    ensures Enumerates(paths, keys)
    decreases keys
  {
    if keys == {} {
      paths := [];
    } else {
      var p :| p in keys;
      var rest := ListKeys(keys - {p});
      paths := rest + [p];
      assert forall q :: q in paths <==> q in rest || q == p;
    }
  }

  /** Some numbered name is free: the names tried are pairwise different and only finitely
      many are taken. */
  lemma FreeName(taken: set<Path>, path: Path, device: string, stamp: string) returns (name: Path)
    ensures IsClaim(taken, path, device, stamp, name)
  {
    name := FreeFrom(taken, path, device, stamp, {}, 1);
  }

  lemma {:induction false} FreeFrom(taken: set<Path>, path: Path, device: string, stamp: string, tried: set<Path>, n: nat)
    returns (name: Path)
    requires n >= 1 && tried <= taken
    requires forall k: nat :: 1 <= k < n ==> Candidate(path, device, stamp, k) in tried
    requires forall q :: q in tried ==> exists k: nat :: 1 <= k < n && q == Candidate(path, device, stamp, k)
    ensures IsClaim(taken, path, device, stamp, name)
    decreases taken - tried
  {
    hide Candidate;
    name := Candidate(path, device, stamp, n);
    if name !in taken {
      assert IsFirstFree(taken, path, device, stamp, name, n);
    } else {
      assert name !in tried by {
        NotTried(path, device, stamp, tried, n);
      }
      name := FreeFrom(taken, path, device, stamp, tried + {name}, n + 1);
    }
  }

  lemma NotTried(path: Path, device: string, stamp: string, tried: set<Path>, n: nat)
    requires n >= 1
    requires forall q :: q in tried ==> exists k: nat :: 1 <= k < n && q == Candidate(path, device, stamp, k)
    ensures Candidate(path, device, stamp, n) !in tried
  {
    hide Candidate;
    forall k: nat | 1 <= k < n
      ensures Candidate(path, device, stamp, k) != Candidate(path, device, stamp, n)
    {
      if Candidate(path, device, stamp, k) == Candidate(path, device, stamp, n) {
        CandidateInjective(path, device, stamp, k, n);
      }
    }
  }

  lemma {:induction false} MergeUpTo(base: Files, local: Files, remote: Files, device: string, stamp: string,
                                     paths: seq<Path>, n: nat) returns (files: Files, copies: seq<ConflictCopy>)
    requires Enumerates(paths, base.Keys + local.Keys + remote.Keys) && n <= |paths|
    ensures FilesSoFar(base, local, remote, SetOf(paths[..n]), files, copies)
    ensures CopiesSoFar(base, local, remote, SetOf(paths[..n]), copies)
    ensures NamedInOrder(local, remote, device, stamp, ContestedPaths(base, local, remote, paths[..n]), copies)
  {
    hide Decide, FilesSoFar, CopiesSoFar, NamedInOrder, IsClaim, PreservesLoser, Reserved, ClaimedNames, ClaimedName, SetOf;
    hide Enumerates, ContestedPaths, DecideAt, WinnerAt;
    if n == 0 {
      NothingMerged(base, local, remote, device, stamp);
      WalkStarts(base, local, remote, paths);
      files, copies := map[], [];
    } else {
      var done := SetOf(paths[..n - 1]);
      files, copies := MergeUpTo(base, local, remote, device, stamp, paths, n - 1);
      var path := paths[n - 1];
      NextPath(base, local, remote, paths, n - 1);
      ContestedSnoc(base, local, remote, paths, n - 1);
      if Contested(base, local, remote, path) {
        files, copies := OneConflict(base, local, remote, device, stamp, done, paths[..n - 1], path, files, copies);
      } else {
        WinnerFiles(base, local, remote, done, path, files, copies);
        WinnerCopies(base, local, remote, done, path, copies);
        var w := WinnerAt(base, local, remote, path);
        files := if w.Some? then files[path := w.value] else files;
      }
    }
  }

  lemma OneConflict(base: Files, local: Files, remote: Files, device: string, stamp: string, done: set<Path>,
                    before: seq<Path>, path: Path, files: Files, copies: seq<ConflictCopy>)
    returns (files': Files, copies': seq<ConflictCopy>)
    requires FilesSoFar(base, local, remote, done, files, copies) && CopiesSoFar(base, local, remote, done, copies)
    requires NamedInOrder(local, remote, device, stamp, ContestedPaths(base, local, remote, before), copies)
    requires path !in done && path != [] && Contested(base, local, remote, path)
    ensures FilesSoFar(base, local, remote, done + {path}, files', copies')
    ensures CopiesSoFar(base, local, remote, done + {path}, copies')
    ensures NamedInOrder(local, remote, device, stamp, ContestedPaths(base, local, remote, before) + [path], copies')
  {
    var d := DecideAt(base, local, remote, path);
    hide Decide, FilesSoFar, CopiesSoFar, NamedInOrder, IsClaim, PreservesLoser, Reserved, ClaimedNames, ClaimedName;
    hide ContestedPaths;
    var name := FreeName(Reserved(local, remote) + ClaimedNames(copies), path, Label(d.loserSide, device), stamp);
    var copy := ConflictCopy(d.loserSide, path, CopyPathFor(path, name), IsGitPath(path), d.loser);
    ConflictStep(base, local, remote, device, stamp, done, before, files, copies, copy, name);
    files' := if copy.localOnly then files[path := d.winner] else files[path := d.winner][copy.copyPath := copy.entry];
    copies' := copies + [copy];
  }

  /** In whatever order the paths are walked, the loop gets to its end. */
  lemma MergeOfPaths(base: Files, local: Files, remote: Files, device: string, stamp: string, paths: seq<Path>)
    returns (files: Files, copies: seq<ConflictCopy>)
    requires Enumerates(paths, base.Keys + local.Keys + remote.Keys)
    ensures Outcome(base, local, remote, files, copies)
    ensures NamedInOrder(local, remote, device, stamp, ContestedPaths(base, local, remote, paths), copies)
  {
    files, copies := MergeUpTo(base, local, remote, device, stamp, paths, |paths|);
    assert paths[..|paths|] == paths;
    AllDone(base, local, remote, paths, files, copies);
  }

  /** Any three file sets whose keys are paths have a merge, with usable copy names when
      the stamp has no separator. */
  lemma MergeExists(base: Files, local: Files, remote: Files, device: string, stamp: string)
    returns (files: Files, copies: seq<ConflictCopy>)
    requires [] !in base && [] !in local && [] !in remote
    ensures Outcome(base, local, remote, files, copies)
    ensures Valid(local) && Valid(remote) && '/' !in stamp ==> SafeNames(copies)
  {
    var paths := ListKeys(base.Keys + local.Keys + remote.Keys);
    files, copies := MergeOfPaths(base, local, remote, device, stamp, paths);
    if Valid(local) && Valid(remote) && '/' !in stamp {
      hide Valid, NamedInOrder, PreservesLoser, FilesSoFar, CopiesSoFar, Enumerates;
      ClaimedNamesAreSafe(base, local, remote, device, stamp, ContestedPaths(base, local, remote, paths), copies);
    }
  }

  /** The only path of three one-file sets is contested, so there is exactly one copy. */
  lemma OneCopy(base: Files, local: Files, remote: Files, files: Files, copies: seq<ConflictCopy>, p: Path)
    requires Outcome(base, local, remote, files, copies) && Contested(base, local, remote, p) && !IsGitPath(p)
    requires forall q :: Contested(base, local, remote, q) ==> q == p
    ensures |copies| == 1 && copies[0].path == p && copies[0].entry == DecideAt(base, local, remote, p).loser
    ensures Get(files, copies[0].copyPath) == Some(copies[0].entry)
    ensures copies[0].copyPath !in local && copies[0].copyPath !in remote
  {
    hide PreservesLoser, Contested, WinnerAt, DecideAt, IsCopyAt;
    assert |copies| > 1 ==> copies[0].path != copies[1].path;
    forall i | 0 <= i < |copies|
      ensures copies[i].path == p
    {
      LoserOf(base, local, remote, copies[i]);
    }
    LoserOf(base, local, remote, copies[0]);
    CopyIsNoKey(base, local, remote, copies[0]);
  }

  lemma LoserOf(base: Files, local: Files, remote: Files, c: ConflictCopy)
    requires PreservesLoser(c, base, local, remote)
    ensures Contested(base, local, remote, c.path) && c.entry == DecideAt(base, local, remote, c.path).loser
    ensures c.localOnly == IsGitPath(c.path)
  {
  }

  /** The losing device makes a second copy of the very entry that the head holds as a copy. */
  lemma SecondCopy(base: Files, a: Files, b: Files, head: Files, copies: seq<ConflictCopy>,
                   again: Files, copies': seq<ConflictCopy>, p: Path)
    requires Outcome(base, a, b, head, copies) && Outcome(base, b, head, again, copies')
    requires Contested(base, a, b, p) && DecideAt(base, a, b, p).loserSide == Remote && !IsGitPath(p)
    requires forall q :: Contested(base, a, b, q) ==> q == p
    ensures |copies| == |copies'| == 1 && copies[0].copyPath != copies'[0].copyPath
    ensures copies[0].copyPath !in base ==>
              Get(again, copies[0].copyPath) == Get(again, copies'[0].copyPath) == Some(copies[0].entry)
  {
    ContestedAgain(base, a, b, head, copies, p);
    hide Contested, PreservesLoser, DecideAt;
    OneCopy(base, a, b, head, copies, p);
    OneCopy(base, b, head, again, copies', p);
    var c := copies[0].copyPath;
    if c !in base {
      OnlyRemoteHas(base, b, head, again, copies', c);
    }
  }

  lemma ContestedAgain(base: Files, a: Files, b: Files, head: Files, copies: seq<ConflictCopy>, p: Path)
    requires Outcome(base, a, b, head, copies)
    requires Contested(base, a, b, p) && DecideAt(base, a, b, p).loserSide == Remote
    requires forall q :: Contested(base, a, b, q) ==> q == p
    ensures Contested(base, b, head, p) && DecideAt(base, b, head, p).loser == DecideAt(base, a, b, p).loser
    ensures forall q :: Contested(base, b, head, q) ==> q == p
  {
    forall q
      ensures Contested(base, b, head, q) <==> Contested(base, a, b, q) && DecideAt(base, a, b, q).loserSide == Remote
    {
      RemergeDecision(base, a, b, head, copies, q);
    }
    assert Get(head, p) == WinnerAt(base, a, b, p);
    hide Outcome;
  }

  lemma OnlyRemoteHas(base: Files, local: Files, remote: Files, files: Files, copies: seq<ConflictCopy>, c: Path)
    requires Outcome(base, local, remote, files, copies) && c !in base && c !in local && c in remote
    ensures Get(files, c) == Get(remote, c)
  {
    assert Get(files, c) == WinnerAt(base, local, remote, c);
  }

  /** A published head need not be quiet: where the author's entry won the race, the losing
      device, merging against the head over its old base, copies its entry once more. */
  lemma SecondCopyExample()
    returns (base: Files, a: Files, b: Files, head: Files, copies: seq<ConflictCopy>, again: Files, copies': seq<ConflictCopy>)
    ensures Outcome(base, a, b, head, copies) && Outcome(base, b, head, again, copies')
    ensures |copies| == |copies'| == 1 && copies[0].copyPath != copies'[0].copyPath
    ensures Get(again, copies[0].copyPath) == Get(again, copies'[0].copyPath) == Some(copies[0].entry)
  {
    var p := ["a"];
    base, a, b := map[], map[p := FileEntry(1, 0x1A4, 30, 0, [])], map[p := FileEntry(2, 0x1A4, 20, 0, [])];
    assert Contested(base, a, b, p) && DecideAt(base, a, b, p).loserSide == Remote;
    assert forall q :: Contested(base, a, b, q) ==> q == p;
    hide Outcome, Contested, DecideAt;
    head, copies := MergeExists(base, a, b, "device", "stamp");
    NoRootCopy(base, a, b, head, copies);
    again, copies' := MergeExists(base, b, head, "other", "stamp");
    SecondCopy(base, a, b, head, copies, again, copies', p);
  }

  lemma NoRootCopy(base: Files, local: Files, remote: Files, files: Files, copies: seq<ConflictCopy>)
    requires Outcome(base, local, remote, files, copies) && [] !in local && [] !in remote
    ensures [] !in files
  {
    hide Reserved, Contested, WinnerAt;
    if IsCopyAt(copies, []) {
      var path := CopyPlaced(base, local, remote, files, copies, []);
    }
  }
}
