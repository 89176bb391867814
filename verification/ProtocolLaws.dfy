/** What the protocol promises over whole runs. */
module ProtocolLaws {
  import opened Manifests
  import opened Merging
  import opened Tracking
  import opened Protocol

  // ---------- the base never runs ahead ----------

  /** In every reachable state the recorded base is empty or the file set of a
      published head. The tree differs from it only where the user edited or a conflict
      copy was made, and what the base has and the tree lacks was taken off its path by
      an edit or copied by a merge. */
  lemma BaseNeverRunsAhead(w: World, d: Id)
    requires Reachable(w) && d in w.devices
    ensures IsPublished(w.log, w.devices[d].diskBase)
    ensures Explained(w.devices[d].tree, w.devices[d].diskBase, w.devices[d].since)
    ensures Accounted(w.devices[d].tree, w.devices[d].diskBase, w.devices[d].since)
  {
    ReachableInv(w);
    var dev := w.devices[d];
    assert DeviceInv(w.log, d, dev);
    var k: nat :| dev.synced <= k <= |w.log| && HeadAt(w.log, k) == dev.diskBase;
  }

  lemma {:induction false} LogIsAppendOnly(w: World, steps: seq<Step>)
    requires Runs(w, steps)
    ensures w.log <= Exec(w, steps).log
    decreases |steps|
  {
    if steps != [] {
      LogIsAppendOnly(After(w, steps[0]), steps[1..]);
      assert w.log <= After(w, steps[0]).log;
    }
  }

  // ---------- no lost update ----------

  /** The entry lost a race and is kept as a conflict copy: in the head, or for `.git`
      on the author's device. */
  ghost predicate CopiedByAuthor(h: Head, p: Path, e: FileEntry) {
    exists i :: 0 <= i < |h.copies| && h.copies[i].path == p && h.copies[i].entry == e
      && (if h.copies[i].localOnly then IsGitPath(p)
          else Get(h.files, h.copies[i].copyPath) == Some(e) && !IsGitPath(h.copies[i].copyPath))
  }

  /** The author's base listed this entry at this path, but its tree no longer had the content
      there: since its last commit its user had taken it off the path, or an earlier attempt
      had copied it. */
  ghost predicate LetGoBefore(h: Head, p: Path, e: FileEntry) {
    && Get(h.base, p) == Some(e) && !HasContent(h.local, p, e)
    && (Among(h.ledger.taken, p, e) || Among(h.ledger.copied, p, e))
  }

  lemma HeadKeepsOrExplains(log: seq<Head>, n: nat, p: Path)
    requires n < |log| && HeadInv(log, n) && p in HeadAt(log, n)
    ensures var h, e := log[n], HeadAt(log, n)[p];
      HasContent(h.files, p, e) || CopiedByAuthor(h, p, e) || LetGoBefore(h, p, e)
  {
    var h, e := log[n], HeadAt(log, n)[p];
    AccountsAt(h.base, h.local, h.remote, h.files, h.copies, p);
    if i :| 0 <= i < |h.copies| && h.copies[i].path == p && h.copies[i].entry == e {
      assert PreservesLoser(h.copies[i], h.base, h.local, h.remote);
    } else if !HasContent(h.files, p, e) {
      LetGoAlready(h.local, h.base, h.ledger, h.ledger, p, e);
    }
  }

  /** Each head is a merge against exactly its predecessor. An entry leaves its path only
      as a conflict copy of this merge, or because the author held it there as base and had
      let go of it: its user took the content off that path, or an earlier attempt copied it.
      Either way worktree content is still in the head, unless one of its excuses took it. */
  lemma NoLostUpdate(w: World, n: nat, p: Path)
    requires Reachable(w) && n < |w.log|
    ensures w.log[n].remote == HeadAt(w.log, n)
    ensures Outcome(w.log[n].base, w.log[n].local, w.log[n].remote, w.log[n].files, w.log[n].copies)
    ensures p in HeadAt(w.log, n) ==>
      var h, e := w.log[n], HeadAt(w.log, n)[p];
      && (HasContent(h.files, p, e) || CopiedByAuthor(h, p, e) || LetGoBefore(h, p, e))
      && (!IsGitPath(p) ==> Holds(h.files, e) || Gone(Excuses(w.log, n), e))
  {
    ReachableInv(w);
    assert HeadInv(w.log, n);
    if p in HeadAt(w.log, n) {
      HeadKeepsOrExplains(w.log, n, p);
      if !IsGitPath(p) {
        HeadKeeps(w.log, n);
        KeptAcross(Excuses(w.log, n), HeadAt(w.log, n), HeadAt(w.log, n + 1), p);
      }
    }
  }

  lemma KeptAcross(lost: set<Lost>, a: Files, b: Files, p: Path)
    requires Keeps(lost, a, b) && p in a && !IsGitPath(p)
    ensures Holds(b, a[p]) || Gone(lost, a[p])
  {
    var e := a[p];
    assert HoldsAt(a, p, e);
    if !Gone(lost, e) {
      CoveredIsHeld(a, b, e);
    }
  }

  lemma ContentSurvivesInLog(log: seq<Head>, i: nat, j: nat, p: Path)
    requires LogInv(log) && i <= j <= |log| && p in HeadAt(log, i) && !IsGitPath(p)
    ensures var e := HeadAt(log, i)[p];
            Holds(HeadAt(log, j), e) || Gone(ExcusesIn(log, i, j), e)
  {
    LogKeeps(log, i, j);
    KeptAcross(ExcusesIn(log, i, j), HeadAt(log, i), HeadAt(log, j), p);
  }

  /** Over the whole head log no worktree content disappears from one head to a later one
      unless an excuse of the heads in between took it off a path that held it. */
  lemma ContentSurvives(w: World, i: nat, j: nat, p: Path)
    requires Reachable(w) && i <= j <= |w.log|
    requires p in HeadAt(w.log, i) && !IsGitPath(p)
    ensures var e := HeadAt(w.log, i)[p];
            Holds(HeadAt(w.log, j), e) || Gone(ExcusesIn(w.log, i, j), e)
  {
    ReachableInv(w);
    ContentSurvivesInLog(w.log, i, j, p);
  }

  /** How far the excuses reach back: as long as every author had committed the head that it
      then replaced, they are what the authors' users took off since, and nothing older. */
  lemma {:induction false} InSyncExcuses(log: seq<Head>, i: nat, j: nat, x: Lost)
    requires i <= j <= |log| && forall n :: i <= n < j ==> log[n].synced == n
    ensures x in ExcusesIn(log, i, j) <==> exists n :: i <= n < j && x in log[n].ledger.taken
    decreases j
  {
    if i < j {
      InSyncExcuses(log, i, j - 1, x);
      assert ExcusesIn(log, log[j - 1].synced, j - 1) == {};
    }
  }

  // ---------- what the ledgers record ----------

  /** Step `i` of the run is an edit that took this content off this path. */
  ghost predicate EditTook(w0: World, steps: seq<Step>, i: nat, x: Lost)
    requires Runs(w0, steps)
  {
    && i < |steps| && steps[i].Edit? && Runs(w0, steps[..i])
    && var before := Exec(w0, steps[..i]);
       && steps[i].d in before.devices
       && Get(before.devices[steps[i].d].tree, x.path) == Some(x.entry)
       && !HasContent(steps[i].tree, x.path, x.entry)
  }

  ghost predicate SomeEditTook(w0: World, steps: seq<Step>, x: Lost)
    requires Runs(w0, steps)
  {
    exists i: nat :: EditTook(w0, steps, i, x)
  }

  ghost predicate AllRecorded(w0: World, steps: seq<Step>, lost: set<Lost>)
    requires Runs(w0, steps)
  {
    forall x :: x in lost ==> SomeEditTook(w0, steps, x)
  }

  ghost predicate PhaseRecorded(w0: World, steps: seq<Step>, phase: Phase)
    requires Runs(w0, steps)
  {
    match phase
    case Scanned(_, m) => AllRecorded(w0, steps, m.ledger.taken)
    case Placed(_, m) => AllRecorded(w0, steps, m.ledger.taken)
    case _ => true
  }

  ghost predicate WorldRecorded(w0: World, steps: seq<Step>, w: World)
    requires Runs(w0, steps)
  {
    && (forall d :: d in w.devices ==>
          && AllRecorded(w0, steps, w.devices[d].since.taken)
          && AllRecorded(w0, steps, w.devices[d].recent.taken)
          && PhaseRecorded(w0, steps, w.devices[d].phase))
    && (forall n :: 0 <= n < |w.log| ==> AllRecorded(w0, steps, w.log[n].ledger.taken))
  }

  lemma {:induction false} RunSnoc(w: World, steps: seq<Step>, s: Step)
    ensures Runs(w, steps + [s]) <==> Runs(w, steps) && Enabled(Exec(w, steps), s)
    ensures Runs(w, steps + [s]) ==> Exec(w, steps + [s]) == After(Exec(w, steps), s)
    decreases |steps|
  {
    hide Enabled, After;
    if steps == [] {
      assert steps + [s] == [s] && [s][1..] == [];
    } else {
      assert (steps + [s])[1..] == steps[1..] + [s];
      if Enabled(w, steps[0]) {
        RunSnoc(After(w, steps[0]), steps[1..], s);
      }
    }
  }

  lemma StillRecorded(w0: World, steps: seq<Step>, s: Step, lost: set<Lost>)
    requires Runs(w0, steps) && Runs(w0, steps + [s]) && AllRecorded(w0, steps, lost)
    ensures AllRecorded(w0, steps + [s], lost)
  {
    hide Runs, Exec;
    forall x | x in lost
      ensures SomeEditTook(w0, steps + [s], x)
    {
      var i: nat :| EditTook(w0, steps, i, x);
      assert (steps + [s])[..i] == steps[..i];
      assert EditTook(w0, steps + [s], i, x);
    }
  }

  lemma EditIsRecorded(w0: World, steps: seq<Step>, d: Id, tree: Files)
    requires Runs(w0, steps) && d in Exec(w0, steps).devices && Runs(w0, steps + [Edit(d, tree)])
    ensures AllRecorded(w0, steps + [Edit(d, tree)], TakenOff(Exec(w0, steps).devices[d].tree, tree))
  {
    var more := steps + [Edit(d, tree)];
    assert more[..|steps|] == steps;
    hide Runs, Exec;
    forall x | x in TakenOff(Exec(w0, steps).devices[d].tree, tree)
      ensures SomeEditTook(w0, more, x)
    {
      assert EditTook(w0, more, |steps|, x);
    }
  }

  lemma StillRecordedWorld(w0: World, steps: seq<Step>, s: Step, w: World)
    requires Runs(w0, steps) && Runs(w0, steps + [s]) && WorldRecorded(w0, steps, w)
    ensures WorldRecorded(w0, steps + [s], w)
  {
    hide Runs, Exec;
    forall lost | AllRecorded(w0, steps, lost)
      ensures AllRecorded(w0, steps + [s], lost)
    {
      StillRecorded(w0, steps, s, lost);
    }
    hide AllRecorded;
  }

  /** No step but an edit puts anything new into a ledger's taken entries. */
  lemma AfterIsRecorded(w0: World, steps: seq<Step>, w: World, s: Step)
    requires Runs(w0, steps) && WorldRecorded(w0, steps, w) && Enabled(w, s)
    requires s.Edit? ==> AllRecorded(w0, steps, TakenOff(w.devices[s.d].tree, s.tree))
    ensures WorldRecorded(w0, steps, After(w, s))
  {
    hide Runs, Outcome, Valid, TakenOff, ChangedPaths, CopyPaths, Losers, AllRecorded;
    NothingRecorded(w0, steps);
    if s.Edit? {
      var took := TakenOff(w.devices[s.d].tree, s.tree);
      BothRecorded(w0, steps, w.devices[s.d].since.taken, took);
      BothRecorded(w0, steps, w.devices[s.d].recent.taken, took);
    }
  }

  lemma StepIsRecorded(w0: World, steps: seq<Step>, s: Step)
    requires Runs(w0, steps) && Runs(w0, steps + [s]) && WorldRecorded(w0, steps, Exec(w0, steps))
    ensures WorldRecorded(w0, steps + [s], Exec(w0, steps + [s]))
  {
    RunSnoc(w0, steps, s);
    hide Runs, Exec, Enabled, After, WorldRecorded;
    StillRecordedWorld(w0, steps, s, Exec(w0, steps));
    assert s.Edit? ==> s.d in Exec(w0, steps).devices by {
      ActsInWorld(Exec(w0, steps), s);
    }
    if s.Edit? {
      EditIsRecorded(w0, steps, s.d, s.tree);
    }
    AfterIsRecorded(w0, steps + [s], Exec(w0, steps), s);
  }

  lemma ActsInWorld(w: World, s: Step)
    requires Enabled(w, s)
    ensures s.d in w.devices
  {
  }

  lemma NothingRecorded(w0: World, steps: seq<Step>)
    requires Runs(w0, steps)
    ensures AllRecorded(w0, steps, {})
  {
  }

  lemma BothRecorded(w0: World, steps: seq<Step>, a: set<Lost>, b: set<Lost>)
    requires Runs(w0, steps) && AllRecorded(w0, steps, a) && AllRecorded(w0, steps, b)
    ensures AllRecorded(w0, steps, a + b)
  {
  }

  /** Whatever a ledger says was taken was taken by an edit step of the run. */
  lemma {:induction false} LedgersRecordEdits(w0: World, steps: seq<Step>)
    requires Init(w0) && Runs(w0, steps)
    ensures WorldRecorded(w0, steps, Exec(w0, steps))
    decreases |steps|
  {
    if steps != [] {
      var n := |steps| - 1;
      assert steps == steps[..n] + [steps[n]];
      RunSnoc(w0, steps[..n], steps[n]);
      LedgersRecordEdits(w0, steps[..n]);
      StepIsRecorded(w0, steps[..n], steps[n]);
    }
  }

  lemma {:induction false} ExcusesAreRecorded(w0: World, steps: seq<Step>, log: seq<Head>, from: nat, n: nat)
    requires Runs(w0, steps) && n <= |log|
    requires forall k :: 0 <= k < |log| ==> AllRecorded(w0, steps, log[k].ledger.taken)
    ensures AllRecorded(w0, steps, ExcusesIn(log, from, n))
    decreases n
  {
    hide AllRecorded, Runs;
    if n <= from {
      NothingRecorded(w0, steps);
    } else {
      ExcusesAreRecorded(w0, steps, log, from, n - 1);
      ExcusesAreRecorded(w0, steps, log, log[n - 1].synced, n - 1);
      BothRecorded(w0, steps, log[n - 1].ledger.taken, ExcusesIn(log, log[n - 1].synced, n - 1));
      BothRecorded(w0, steps, ExcusesIn(log, from, n - 1), Excuses(log, n - 1));
    }
  }

  /** In terms of the run: worktree content of a head is in a later head, unless an excuse of
      the heads in between took it, and that was an edit step of the run which found the
      content on a worktree path and left it without. */
  lemma ContentSurvivesUnlessEdited(w0: World, steps: seq<Step>, i: nat, j: nat, p: Path) returns (x: Lost)
    requires Init(w0) && Runs(w0, steps)
    requires i <= j <= |Exec(w0, steps).log| && p in HeadAt(Exec(w0, steps).log, i) && !IsGitPath(p)
    ensures var log := Exec(w0, steps).log;
            var e := HeadAt(log, i)[p];
            || Holds(HeadAt(log, j), e)
            || (x in ExcusesIn(log, i, j) && SameContent(x.entry, e) && !IsGitPath(x.path) && SomeEditTook(w0, steps, x))
  {
    var w := Exec(w0, steps);
    var e := HeadAt(w.log, i)[p];
    LedgersRecordEdits(w0, steps);
    ExcusesAreRecorded(w0, steps, w.log, i, j);
    assert Reachable(w);
    hide Runs, Exec, WorldRecorded, ExcusesIn;
    ContentSurvives(w, i, j, p);
    x := Lost(p, e);
    if Gone(ExcusesIn(w.log, i, j), e) {
      x :| x in ExcusesIn(w.log, i, j) && SameContent(x.entry, e) && !IsGitPath(x.path);
    }
  }

  /** Not in the repository's own directory. */
  predicate InWorktree(p: Path) {
    p == [] || p[0] != ".git"
  }

  /** Step `k` of the run edits a tree in which the worktree file `q` has these chunks and
      permissions, and leaves `q` without them. */
  ghost predicate EditRemoved(w0: World, steps: seq<Step>, k: nat, q: Path, chunks: seq<Hash>, mode: nat)
    requires Runs(w0, steps)
  {
    && k < |steps| && steps[k].Edit? && Runs(w0, steps[..k]) && InWorktree(q)
    && var devices := Exec(w0, steps[..k]).devices;
       && steps[k].d in devices
       && var before, after := devices[steps[k].d].tree, steps[k].tree;
          && q in before && before[q].chunks == chunks && before[q].mode == mode
          && (q in after ==> after[q].chunks != chunks || after[q].mode != mode || after[q].size != before[q].size)
  }

  /** Chunk by chunk: a worktree file of a head has its chunk list and permissions in some worktree
      file of every later head, unless some edit step of the run removed such a file. */
  lemma ChunksSurvive(w0: World, steps: seq<Step>, i: nat, j: nat, p: Path) returns (k: nat, q: Path)
    requires Init(w0) && Runs(w0, steps)
    requires i <= j <= |Exec(w0, steps).log| && p in HeadAt(Exec(w0, steps).log, i) && InWorktree(p)
    ensures var log := Exec(w0, steps).log;
            var e, later := HeadAt(log, i)[p], HeadAt(log, j);
            || (q in later && InWorktree(q) && later[q].chunks == e.chunks && later[q].mode == e.mode)
            || EditRemoved(w0, steps, k, q, e.chunks, e.mode)
  {
    var log := Exec(w0, steps).log;
    var e := HeadAt(log, i)[p];
    var x := ContentSurvivesUnlessEdited(w0, steps, i, j, p);
    k, q := 0, [];
    hide Runs, Exec, ExcusesIn;
    if Holds(HeadAt(log, j), e) {
      q :| HoldsAt(HeadAt(log, j), q, e);
    } else {
      var n: nat :| EditTook(w0, steps, n, x);
      k, q := n, x.path;
    }
  }

  // ---------- the retry bound ----------

  /** A pass gives up only after at least as many heads as it has attempts were
      published while it ran, all of them by other devices. */
  lemma GivingUpMeansContention(w: World, d: Id)
    requires Reachable(w) && Enabled(w, PutHead(d))
    requires w.devices[d].phase.m.seq_ != |w.log|
    ensures After(w, PutHead(d)).devices[d].phase.Idle? <==> w.devices[d].phase.pass.attempt >= 32
    ensures var pass := w.devices[d].phase.pass;
      |w.log| >= pass.startedAt + pass.attempt && OthersOnly(w.log, d, pass.startedAt)
  {
    ReachableInv(w);
    assert DeviceInv(w.log, d, w.devices[d]);
  }
}
