/** Where content goes: what a tree still owes to the base it descends from, step by
    step, and why a merge never lets content slip away between its two sides. */
module Tracking {
  import opened Manifests
  import opened Naming
  import opened Merging

  /** An entry that left its path. */
  datatype Lost = Lost(path: Path, entry: FileEntry)

  /** What happened to a tree over some time: the paths its user edited and the conflict
      copies made there, the entries that the user's edits took off their paths, and the
      losers that were copied. */
  datatype Ledger = Ledger(edited: set<Path>, made: set<Path>, taken: set<Lost>, copied: set<Lost>)

  const NOTHING := Ledger({}, {}, {}, {})

  function ChangedPaths(a: Files, b: Files): set<Path> {
    set p | p in a.Keys + b.Keys && Get(a, p) != Get(b, p)
  }

  predicate HasContent(m: Files, p: Path, e: FileEntry) {
    p in m && SameContent(m[p], e)
  }

  /** The entries whose content an edit takes off their paths. */
  function TakenOff(before: Files, after: Files): set<Lost> {
    set p | p in before && !HasContent(after, p, before[p]) :: Lost(p, before[p])
  }

  function CopyPaths(copies: seq<ConflictCopy>): set<Path> {
    set c | c in copies && !c.localOnly :: c.copyPath
  }

  function Losers(copies: seq<ConflictCopy>): set<Lost> {
    set c | c in copies :: Lost(c.path, c.entry)
  }

  function AfterEdit(l: Ledger, before: Files, after: Files): Ledger {
    l.(edited := l.edited + ChangedPaths(before, after), taken := l.taken + TakenOff(before, after))
  }

  function AfterCopies(l: Ledger, copies: seq<ConflictCopy>): Ledger {
    l.(made := l.made + CopyPaths(copies), copied := l.copied + Losers(copies))
  }

  // ---------- what a tree owes to its base ----------

  /** Where tree and base differ, the user edited or a copy was made. */
  ghost predicate Explained(tree: Files, base: Files, l: Ledger) {
    forall p :: Get(tree, p) != Get(base, p) ==> p in l.edited || p in l.made
  }

  ghost predicate Among(lost: set<Lost>, p: Path, e: FileEntry) {
    exists x :: x in lost && x.path == p && SameContent(x.entry, e)
  }

  /** Content that left the path where the base has it was taken off it by an edit, or
      copied by a merge. */
  ghost predicate Accounted(tree: Files, base: Files, l: Ledger) {
    forall p :: p in base ==> HasContent(tree, p, base[p]) || Among(l.taken, p, base[p]) || Among(l.copied, p, base[p])
  }

  /** Some worktree path `q` holds the content of `e`. */
  predicate HoldsAt(files: Files, q: Path, e: FileEntry) {
    HasContent(files, q, e) && !IsGitPath(q)
  }

  ghost predicate Holds(files: Files, e: FileEntry) {
    exists q :: HoldsAt(files, q, e)
  }

  ghost predicate HoldsLonger(files: Files, q: Path, e: FileEntry) {
    exists z :: HoldsAt(files, z, e) && |FileName(z)| > |FileName(q)|
  }

  /** Wherever `a` holds the content, `b` holds it too, there or under a longer name. */
  ghost predicate Covers(a: Files, b: Files, e: FileEntry) {
    forall q :: HoldsAt(a, q, e) ==> HoldsAt(b, q, e) || HoldsLonger(b, q, e)
  }

  /** Some edit took this content off a worktree path. */
  ghost predicate Gone(lost: set<Lost>, e: FileEntry) {
    exists x :: x in lost && SameContent(x.entry, e) && !IsGitPath(x.path)
  }

  /** No content of `a` is missing in `b` unless an edit among `lost` took it away. */
  ghost predicate Keeps(lost: set<Lost>, a: Files, b: Files) {
    forall e :: Gone(lost, e) || Covers(a, b, e)
  }

  /** What a tree owes to a base, given what happened to it and which entries were taken
      away elsewhere. */
  ghost predicate Tracks(elsewhere: set<Lost>, tree: Files, base: Files, l: Ledger) {
    Explained(tree, base, l) && Accounted(tree, base, l) && Keeps(elsewhere + l.taken, base, tree)
  }

  // ---------- plain facts ----------

  lemma CoversItself(a: Files, e: FileEntry)
    ensures Covers(a, a, e)
  {
  }

  lemma CoversOnward(a: Files, b: Files, c: Files, e: FileEntry)
    requires Covers(a, b, e) && Covers(b, c, e)
    ensures Covers(a, c, e)
  {
    forall q | HoldsAt(a, q, e)
      ensures HoldsAt(c, q, e) || HoldsLonger(c, q, e)
    {
      if !HoldsAt(b, q, e) {
        var z :| HoldsAt(b, z, e) && |FileName(z)| > |FileName(q)|;
        if !HoldsAt(c, z, e) {
          var y :| HoldsAt(c, y, e) && |FileName(y)| > |FileName(z)|;
          assert HoldsAt(c, y, e) && |FileName(y)| > |FileName(q)|;
        }
      }
    }
  }

  lemma CoveredIsHeld(a: Files, b: Files, e: FileEntry)
    requires Covers(a, b, e) && Holds(a, e)
    ensures Holds(b, e)
  {
    var q :| HoldsAt(a, q, e);
    if !HoldsAt(b, q, e) {
      var z :| HoldsAt(b, z, e) && |FileName(z)| > |FileName(q)|;
    }
  }

  lemma KeepsMore(lost: set<Lost>, more: set<Lost>, a: Files, b: Files)
    requires Keeps(lost, a, b) && lost <= more
    ensures Keeps(more, a, b)
  {
    forall e
      ensures Gone(more, e) || Covers(a, b, e)
    {
      if Gone(lost, e) {
        var x :| x in lost && SameContent(x.entry, e) && !IsGitPath(x.path);
        assert x in more;
      }
    }
  }

  lemma KeepsOnward(lost: set<Lost>, a: Files, b: Files, c: Files)
    requires Keeps(lost, a, b) && Keeps(lost, b, c)
    ensures Keeps(lost, a, c)
  {
    hide Covers, Gone;
    forall e
      ensures Gone(lost, e) || Covers(a, c, e)
    {
      if !Gone(lost, e) {
        CoversOnward(a, b, c, e);
      }
    }
  }

  lemma TracksItself(elsewhere: set<Lost>, tree: Files, l: Ledger)
    ensures Tracks(elsewhere, tree, tree, l)
  {
    forall e
      ensures Covers(tree, tree, e)
    {
      CoversItself(tree, e);
    }
  }

  lemma TracksMore(elsewhere: set<Lost>, more: set<Lost>, tree: Files, base: Files, l: Ledger, l': Ledger)
    requires Tracks(elsewhere, tree, base, l) && elsewhere <= more
    requires l.edited <= l'.edited && l.made <= l'.made && l.taken <= l'.taken && l.copied <= l'.copied
    ensures Tracks(more, tree, base, l')
  {
    KeepsMore(elsewhere + l.taken, more + l'.taken, base, tree);
    hide Keeps, HasContent;
    forall p | p in base
      ensures HasContent(tree, p, base[p]) || Among(l'.taken, p, base[p]) || Among(l'.copied, p, base[p])
    {
      if Among(l.taken, p, base[p]) {
        var x :| x in l.taken && x.path == p && SameContent(x.entry, base[p]);
        assert x in l'.taken;
      } else if Among(l.copied, p, base[p]) {
        var x :| x in l.copied && x.path == p && SameContent(x.entry, base[p]);
        assert x in l'.copied;
      }
    }
  }

  // ---------- an edit ----------

  lemma EditAccounts(before: Files, after: Files, base: Files, l: Ledger)
    requires Accounted(before, base, l)
    ensures Accounted(after, base, AfterEdit(l, before, after))
  {
    var l' := AfterEdit(l, before, after);
    forall p | p in base
      ensures HasContent(after, p, base[p]) || Among(l'.taken, p, base[p]) || Among(l'.copied, p, base[p])
    {
      if HasContent(before, p, base[p]) {
        if !HasContent(after, p, base[p]) {
          assert Lost(p, before[p]) in l'.taken;
        }
      } else if Among(l.taken, p, base[p]) {
        var x :| x in l.taken && x.path == p && SameContent(x.entry, base[p]);
        assert x in l'.taken;
      }
    }
  }

  lemma EditKeepsContent(before: Files, after: Files, lost: set<Lost>)
    requires TakenOff(before, after) <= lost
    ensures Keeps(lost, before, after)
  {
    forall e
      ensures Gone(lost, e) || Covers(before, after, e)
    {
      if q :| HoldsAt(before, q, e) && !HoldsAt(after, q, e) {
        assert Lost(q, before[q]) in TakenOff(before, after);
      }
    }
  }

  lemma EditTracks(elsewhere: set<Lost>, before: Files, after: Files, base: Files, l: Ledger)
    requires Tracks(elsewhere, before, base, l)
    ensures Tracks(elsewhere, after, base, AfterEdit(l, before, after))
  {
    var l' := AfterEdit(l, before, after);
    EditAccounts(before, after, base, l);
    KeepsMore(elsewhere + l.taken, elsewhere + l'.taken, base, before);
    EditKeepsContent(before, after, elsewhere + l'.taken);
    KeepsOnward(elsewhere + l'.taken, base, before, after);
    assert forall p :: Get(before, p) != Get(after, p) ==> p in ChangedPaths(before, after);
    hide Accounted, Keeps;
  }

  // ---------- a merge ----------

  /** The copy of a worktree loser holds its content under a longer name. */
  lemma CopyHoldsLonger(base: Files, local: Files, remote: Files, files: Files, copies: seq<ConflictCopy>, i: nat, e: FileEntry)
    requires Outcome(base, local, remote, files, copies) && i < |copies|
    requires !IsGitPath(copies[i].path) && SameContent(copies[i].entry, e)
    ensures HoldsLonger(files, copies[i].path, e)
  {
    var c := copies[i];
    assert PreservesLoser(c, base, local, remote);
    assert !c.localOnly && c.copyPath == ClaimedName(c);
    assert Get(files, c.copyPath) == Some(c.entry);
    assert HoldsAt(files, c.copyPath, e) && |FileName(c.copyPath)| > |FileName(c.path)|;
  }

  /** How a merge can let one side's content go at a path: the other side, which had not
      changed that path, gives way to this side's change there, or the other way round. */
  lemma LostAtPath(base: Files, local: Files, remote: Files, files: Files, copies: seq<ConflictCopy>, q: Path, e: FileEntry)
    requires Outcome(base, local, remote, files, copies)
    ensures HoldsAt(remote, q, e) ==>
              HoldsAt(files, q, e) || HoldsLonger(files, q, e) || (HoldsAt(base, q, e) && !HoldsAt(local, q, e))
    ensures HoldsAt(local, q, e) ==>
              HoldsAt(files, q, e) || HoldsLonger(files, q, e) || (HoldsAt(base, q, e) && !HoldsAt(remote, q, e))
  {
    if HoldsAt(remote, q, e) || HoldsAt(local, q, e) {
      assert Get(files, q) == WinnerAt(base, local, remote, q);
      DecideKeepsEdits(Get(base, q), Get(local, q), Get(remote, q));
      if Contested(base, local, remote, q) {
        var i :| 0 <= i < |copies| && copies[i].path == q;
        assert PreservesLoser(copies[i], base, local, remote);
        if SameContent(copies[i].entry, e) {
          CopyHoldsLonger(base, local, remote, files, copies, i, e);
        }
      }
    }
  }

  /** A bound on the length of file names. */
  lemma {:induction false} NameBound(keys: set<Path>) returns (n: nat)
    ensures forall p :: p in keys ==> |FileName(p)| <= n
    decreases keys
  {
    if keys == {} {
      n := 0;
    } else {
      var p :| p in keys;
      n := NameBound(keys - {p});
      if |FileName(p)| > n {
        n := |FileName(p)|;
      }
    }
  }

  /** Content that neither side has lost since the base is in the merge: if it goes at one
      path, the other side holds it under a longer name, and so on until it stays. */
  lemma {:induction false} Climb(base: Files, local: Files, remote: Files, files: Files, copies: seq<ConflictCopy>,
                                 e: FileEntry, q: Path, n: nat)
    requires Outcome(base, local, remote, files, copies) && Covers(base, local, e) && Covers(base, remote, e)
    requires HoldsAt(local, q, e) || HoldsAt(remote, q, e)
    requires forall p :: p in local.Keys + remote.Keys ==> |FileName(p)| <= n
    ensures HoldsAt(files, q, e) || HoldsLonger(files, q, e)
    decreases n - |FileName(q)|
  {
    LostAtPath(base, local, remote, files, copies, q, e);
    hide Outcome;
    if HoldsAt(base, q, e) && HoldsAt(remote, q, e) != HoldsAt(local, q, e) {
      var other := if HoldsAt(remote, q, e) then local else remote;
      var z :| HoldsAt(other, z, e) && |FileName(z)| > |FileName(q)|;
      Climb(base, local, remote, files, copies, e, z, n);
      LongerStill(files, q, z, e);
    }
  }

  lemma LongerStill(files: Files, q: Path, z: Path, e: FileEntry)
    requires |FileName(z)| > |FileName(q)| && (HoldsAt(files, z, e) || HoldsLonger(files, z, e))
    ensures HoldsLonger(files, q, e)
  {
    if !HoldsAt(files, z, e) {
      var y :| HoldsAt(files, y, e) && |FileName(y)| > |FileName(z)|;
      assert HoldsAt(files, y, e) && |FileName(y)| > |FileName(q)|;
    }
  }

  lemma MergeCovers(base: Files, local: Files, remote: Files, files: Files, copies: seq<ConflictCopy>, e: FileEntry)
    requires Outcome(base, local, remote, files, copies) && Covers(base, local, e) && Covers(base, remote, e)
    ensures Covers(local, files, e) && Covers(remote, files, e)
  {
    hide Outcome;
    var n := NameBound(local.Keys + remote.Keys);
    forall q | HoldsAt(local, q, e) || HoldsAt(remote, q, e)
      ensures HoldsAt(files, q, e) || HoldsLonger(files, q, e)
    {
      Climb(base, local, remote, files, copies, e, q, n);
    }
  }

  /** Neither side's content is missing in the merge unless an edit took it away. */
  lemma MergeKeeps(lost: set<Lost>, base: Files, local: Files, remote: Files, files: Files, copies: seq<ConflictCopy>)
    requires Outcome(base, local, remote, files, copies) && Keeps(lost, base, local) && Keeps(lost, base, remote)
    ensures Keeps(lost, local, files) && Keeps(lost, remote, files)
  {
    hide Outcome, Covers, Gone;
    forall e
      ensures Gone(lost, e) || (Covers(local, files, e) && Covers(remote, files, e))
    {
      if !Gone(lost, e) {
        MergeCovers(base, local, remote, files, copies, e);
      }
    }
  }

  /** At each path of the head merged against: the content stays, or this merge copied it,
      or the tree had already let go of it since the base. */
  lemma MergeAccounts(base: Files, local: Files, remote: Files, files: Files, copies: seq<ConflictCopy>, l: Ledger)
    requires Outcome(base, local, remote, files, copies) && Accounted(local, base, l)
    ensures Accounted(files, remote, AfterCopies(l, copies))
  {
    var l' := AfterCopies(l, copies);
    forall p | p in remote
      ensures HasContent(files, p, remote[p]) || Among(l'.taken, p, remote[p]) || Among(l'.copied, p, remote[p])
    {
      AccountsAt(base, local, remote, files, copies, p);
      hide Outcome;
      if !HasContent(files, p, remote[p]) {
        if i :| 0 <= i < |copies| && copies[i].path == p && copies[i].entry == remote[p] {
          assert Lost(p, remote[p]) in l'.copied;
        } else {
          LetGoAlready(local, base, l, l', p, remote[p]);
        }
      }
    }
  }

  lemma LetGoAlready(local: Files, base: Files, l: Ledger, l': Ledger, p: Path, e: FileEntry)
    requires Accounted(local, base, l) && Get(base, p) == Some(e) && !HasContent(local, p, e)
    requires l.taken <= l'.taken && l.copied <= l'.copied
    ensures Among(l'.taken, p, e) || Among(l'.copied, p, e)
  {
    if Among(l.taken, p, e) {
      var x :| x in l.taken && x.path == p && SameContent(x.entry, e);
      assert x in l'.taken;
    } else {
      var x :| x in l.copied && x.path == p && SameContent(x.entry, e);
      assert x in l'.copied;
    }
  }

  lemma AccountsAt(base: Files, local: Files, remote: Files, files: Files, copies: seq<ConflictCopy>, p: Path)
    requires Outcome(base, local, remote, files, copies) && p in remote
    ensures || HasContent(files, p, remote[p])
            || (exists i :: 0 <= i < |copies| && copies[i].path == p && copies[i].entry == remote[p])
            || (Get(base, p) == Some(remote[p]) && !HasContent(local, p, remote[p]))
  {
    assert Get(files, p) == WinnerAt(base, local, remote, p);
    DecideKeepsEdits(Get(base, p), Get(local, p), Get(remote, p));
    if Contested(base, local, remote, p) {
      var i :| 0 <= i < |copies| && copies[i].path == p;
      assert PreservesLoser(copies[i], base, local, remote);
    }
  }

  lemma MergeExplains(base: Files, local: Files, remote: Files, files: Files, copies: seq<ConflictCopy>, l: Ledger)
    requires Outcome(base, local, remote, files, copies) && Explained(local, base, l)
    ensures Explained(files, remote, AfterCopies(l, copies))
  {
    hide PreservesLoser, Contested;
    forall p | Get(files, p) != Get(remote, p)
      ensures p in l.edited || p in l.made + CopyPaths(copies)
    {
      if p in local || p in remote {
        assert Get(files, p) == WinnerAt(base, local, remote, p);
        DecideKeepsEdits(Get(base, p), Get(local, p), Get(remote, p));
      } else {
        var i :| 0 <= i < |copies| && !copies[i].localOnly && copies[i].copyPath == p;
        assert copies[i] in copies;
      }
    }
  }

  /** The merge on disk owes to the head it was made against what the tree owed to its
      base. */
  lemma MergeTracks(elsewhere: set<Lost>, base: Files, local: Files, remote: Files, files: Files,
                    copies: seq<ConflictCopy>, l: Ledger)
    requires Outcome(base, local, remote, files, copies)
    requires Tracks(elsewhere, local, base, l) && Keeps(elsewhere + l.taken, base, remote)
    ensures Tracks(elsewhere, files, remote, AfterCopies(l, copies))
  {
    MergeExplains(base, local, remote, files, copies, l);
    MergeAccounts(base, local, remote, files, copies, l);
    MergeKeeps(elsewhere + l.taken, base, local, remote, files, copies);
  }

  /** When nothing had to be applied, the tree only gained local copies, and it owes to its
      old base what it did before. */
  lemma GainTracks(elsewhere: set<Lost>, base: Files, local: Files, files: Files, l: Ledger, made: set<Path>)
    requires Tracks(elsewhere, local, base, l)
    requires forall p :: p in local ==> Get(files, p) == Some(local[p])
    requires forall p :: p in files && p !in local ==> p in made
    ensures Tracks(elsewhere, files, base, l.(made := l.made + made))
  {
    forall p | Get(files, p) != Get(base, p)
      ensures p in l.edited || p in l.made + made
    {
      if p !in local && p !in files {
        assert Get(local, p) == Get(files, p);
      }
    }
    forall e
      ensures Covers(local, files, e)
    {
      forall q | HoldsAt(local, q, e)
        ensures HoldsAt(files, q, e)
      {
        assert Get(files, q) == Some(local[q]);
      }
    }
    KeepsOnward(elsewhere + l.taken, base, local, files);
    hide Keeps;
    forall p | p in base
      ensures HasContent(files, p, base[p]) || Among(l.taken, p, base[p]) || Among(l.copied, p, base[p])
    {
      assert p in local ==> Get(files, p) == Some(local[p]);
    }
  }
}
