/** What the retry loop promises of every pass, whatever other writers do meanwhile and
    whatever fails: when it succeeds, what it has published, and that it is a part of a run of
    the protocol (crates/core/src/converge.rs). */
module ConvergeLaws {
  import opened Manifests
  import opened Naming
  import opened Merging
  import opened MergeLaws
  import opened Disks
  import opened Apply
  import opened Materializing
  import opened Tracking
  import opened Protocol
  import opened Attempts
  import opened Converging

  // ---------- when a pass succeeds ----------

  /** Nothing about this state makes an attempt fail: tree and head are valid and not blocked,
      the head's chunks can be had, and the merge that the device computes can be placed. */
  ghost predicate Healthy(w: World, d: Id, m: Means)
    requires d in w.devices && w.devices[d].phase.Started?
  {
    var base, tree, head := w.devices[d].phase.pass.base, w.devices[d].tree, Current(w.log);
    && Valid(tree) && Valid(head) && !CrossCollision(base, tree, head)
    && ChunksIn(head) <= m.have && '/' !in m.setup.stamp && Placeable(base, tree, head, m)
  }

  /** No two names of the computed merge fold together, unless nothing has to be applied, and no
      empty directory is in the place of a file that it writes. */
  ghost predicate Placeable(base: Files, tree: Files, head: Files, m: Means) {
    forall files, copies :: Computes(base, tree, head, m.setup, files, copies) ==>
      && (FoldCollision(files, m.setup.fold) ==> WithLocalCopies(tree, copies) == files)
      && HasPlaces(tree, files, copies, m.tidy)
  }

  lemma HealthyRefusesNothing(e: ConvergeError, base: Files, tree: Files, head: Files, m: Means, fault: Fault)
    requires Valid(tree) && Valid(head) && !CrossCollision(base, tree, head) && ChunksIn(head) <= m.have
             && '/' !in m.setup.stamp
    requires Refuses(e, base, tree, head, m, fault)
    ensures e == Broken(fault) && fault in {HeadUnreachable, ScanFailed, FetchFailed}
  {
    hide Valid, CrossCollision, ChunksIn, PlannedChunks, ApplyFromRemote;
    forall files, copies | Computes(base, tree, head, m.setup, files, copies)
      ensures Valid(files) && PlannedChunks(ApplyFromRemote(tree, files, copies), files, copies) <= m.have
    {
      ComputedIsValidIff(base, tree, head, m.setup, files, copies);
      ComputedIsOutcome(base, tree, head, m.setup, files, copies);
      PlanReadsTheHead(base, tree, head, files, copies);
    }
    hide Computes;
  }

  lemma ComputedIsOutcome(base: Files, tree: Files, head: Files, setup: Setup, files: Files, copies: seq<ConflictCopy>)
    requires Computes(base, tree, head, setup, files, copies)
    ensures Outcome(base, tree, head, files, copies)
  {
    hide Outcome, NamedInOrder;
  }

  /** The faults that do not stop an attempt: none; or one at the compare-and-swap, if the
      attempt has nothing to publish. */
  predicate Harmless(fault: Fault, quiet: bool) {
    fault == NoFault || (quiet && fault in {PutFailed, AnswerLost})
  }

  /** The last attempt of a pass that begins in a healthy state, while no other writer publishes,
      succeeds exactly if no fault strikes it, and otherwise fails with that fault. `files` is
      the merge that the device computes. A failure to fetch may strike or not: it depends on
      what the local store lacks. */
  lemma CalmAttemptSucceeds(r: Result<ConvergeReport, ConvergeError>, start: World, d: Id, ts: seq<Trial>, dev: Device,
                            turns: seq<Turn>, log: seq<Head>, now: Snapshot, m: Means, files: Files, copies: seq<ConflictCopy>)
    requires PassDone(r, start, d, ts, dev, turns, log, now, m)
    requires TurnAt(turns, |ts| - 1).race == []
    requires Healthy(BeforeLast(start, d, ts).value, d, m)
    requires ComputesNext(BeforeLast(start, d, ts).value, d, m.setup, files, copies)
    ensures var fault := TurnAt(turns, |ts| - 1).fault;
      && (r.Err? ==> r.error == Broken(fault) && fault != NoFault)
      && (fault != FetchFailed ==> (r.Ok? <==> Harmless(fault, NothingToPublish(BeforeLast(start, d, ts).value, files))))
  {
    var w, t, fault := BeforeLast(start, d, ts).value, ts[|ts| - 1], TurnAt(turns, |ts| - 1).fault;
    LastComputed(r, start, d, ts, dev, turns, log, now, m);
    hide PassDone, BeforeLast, AfterTrials, Fits, Healthy, ComputesNext, TurnAt, Returns, IsComputed, Harmless;
    CalmReturns(r, w, d, t, |ts|, m, fault);
    CalmEnds(r, w, d, t, |ts|, m, fault, files, copies);
  }

  lemma LastComputed(r: Result<ConvergeReport, ConvergeError>, start: World, d: Id, ts: seq<Trial>, dev: Device,
                     turns: seq<Turn>, log: seq<Head>, now: Snapshot, m: Means)
    requires PassDone(r, start, d, ts, dev, turns, log, now, m)
    ensures ts != [] && BeforeLast(start, d, ts).Some?
    ensures var w, t, turn := BeforeLast(start, d, ts).value, ts[|ts| - 1], TurnAt(turns, |ts| - 1);
      Fits(w, d, t) && t.race == turn.race && IsComputed(w, d, t, m.setup) && Returns(r, w, d, t, |ts|, m, turn.fault)
  {
    assert MetTurns(ts, turns) && PassReturns(r, start, d, ts, turns, m) && AllComputed(start, d, ts, m.setup);
    hide BeforeLast, AfterTrials, Fits, Matches, KeepsLocalOnly, TurnAt, Returns, IsComputed;
  }

  ghost predicate ComputesNext(w: World, d: Id, setup: Setup, files: Files, copies: seq<ConflictCopy>)
    requires d in w.devices && w.devices[d].phase.Started?
  {
    Computes(w.devices[d].phase.pass.base, w.devices[d].tree, Current(w.log), setup, files, copies)
  }

  lemma CalmReturns(r: Result<ConvergeReport, ConvergeError>, w: World, d: Id, t: Trial, attempt: nat, m: Means, fault: Fault)
    requires Fits(w, d, t) && t.race == [] && IsComputed(w, d, t, m.setup) && Returns(r, w, d, t, attempt, m, fault)
    requires Healthy(w, d, m)
    ensures r.Err? ==> r.error == Broken(fault) && fault != NoFault
  {
    hide Merges, Landing, Halfway, Valid, CrossCollision, ChunksIn, Computes, Refuses, FoldCollision;
    hide WithLocalCopies, HasPlaces;
    hide ReportOf, ApplyFromRemote;
    if t.Stopped? && r.Err? {
      HealthyRefusesNothing(r.error, w.devices[d].phase.pass.base, w.devices[d].tree, Current(w.log), m, fault);
    }
  }

  lemma CalmEnds(r: Result<ConvergeReport, ConvergeError>, w: World, d: Id, t: Trial, attempt: nat, m: Means, fault: Fault,
                 files: Files, copies: seq<ConflictCopy>)
    requires Fits(w, d, t) && t.race == [] && IsComputed(w, d, t, m.setup) && Returns(r, w, d, t, attempt, m, fault)
    requires ComputesNext(w, d, m.setup, files, copies) && (r.Err? ==> r.error == Broken(fault) && fault != NoFault)
    ensures fault != FetchFailed ==> (r.Ok? <==> Harmless(fault, NothingToPublish(w, files)))
  {
    hide Merges, Landing, Halfway, Valid, Computes, PlaceFails, MergeIsInvalid, ChunksAreMissing, ReportOf, ApplyFromRemote;
    if !t.Stopped? {
      OneMerge(w.devices[d].phase.pass.base, w.devices[d].tree, Current(w.log), m.setup, files, copies, t.files, t.copies);
    }
  }

  lemma {:induction false} FirstFits(start: World, d: Id, ts: seq<Trial>)
    requires AfterTrials(start, d, ts).Some? && ts != []
    ensures Fits(start, d, ts[0])
    decreases |ts|
  {
    hide Fits, AfterTrial;
    if |ts| > 1 {
      FirstFits(start, d, ts[..|ts| - 1]);
    }
  }

  /** A pass that begins in a healthy state succeeds at once if nothing fails and nobody else
      publishes while it runs, however many conflicts it meets. */
  lemma CalmPassSucceeds(r: Result<ConvergeReport, ConvergeError>, start: World, d: Id, ts: seq<Trial>, dev: Device,
                         turns: seq<Turn>, log: seq<Head>, now: Snapshot, m: Means)
    requires PassDone(r, start, d, ts, dev, turns, log, now, m)
    requires TurnAt(turns, 0) == Turn([], NoFault)
    requires d in start.devices && start.devices[d].phase.Started? && Healthy(start, d, m)
    ensures r.Ok? && r.value.attempts == 1
  {
    FirstFits(start, d, ts);
    assert |ts| > 1 ==> !IsBeaten(ts[0]);
    assert |ts| == 1;
    BeforeFirst(start, d, ts);
    LastComputed(r, start, d, ts, dev, turns, log, now, m);
    hide PassDone, Healthy, AfterTrials, BeforeLast, Fits, IsComputed;
    CalmReturns(r, start, d, ts[0], 1, m, NoFault);
  }

  lemma BeforeFirst(start: World, d: Id, ts: seq<Trial>)
    requires |ts| == 1
    ensures BeforeLast(start, d, ts) == Some(start)
  {
  }

  /** A path as a case-insensitive file system compares it. */
  function LowerCase(p: Path): Path {
    seq(|p|, i requires 0 <= i < |p| => LowerName(p[i]))
  }

  function LowerName(name: string): string {
    seq(|name|, i requires 0 <= i < |name| => LowerAscii(name[i]))
  }

  const TWO_FILES: set<Path> := {["a"], ["b"]}

  /** Conflicts are no obstacle: two files of one directory, changed on both sides, on a
      case-insensitive file system, whatever they hold. */
  lemma TwoConflictsExample(w: World, d: Id, m: Means)
    requires d in w.devices && w.devices[d].phase.Started?
    requires var tree, head := w.devices[d].tree, Current(w.log);
      && w.devices[d].phase.pass.base == map[] && tree.Keys == head.Keys == TWO_FILES
      && (forall p :: p in TWO_FILES ==> ValidEntry(tree[p]) && ValidEntry(head[p]) && !SameContent(tree[p], head[p]))
      && ChunksIn(head) <= m.have
    requires '/' !in m.setup.stamp && m.setup.fold == LowerCase && forall p :: p in m.tidy
    ensures forall p :: p in TWO_FILES ==> Contested(map[], w.devices[d].tree, Current(w.log), p)
    ensures Healthy(w, d, m)
  {
    var tree, head := w.devices[d].tree, Current(w.log);
    TwoFilesAreValid(tree);
    TwoFilesAreValid(head);
    assert !CrossCollision(map[], tree, head);
    hide Valid, CrossCollision, ChunksIn, Contested;
    forall files, copies | Computes(map[], tree, head, m.setup, files, copies)
      ensures !FoldCollision(files, m.setup.fold) && HasPlaces(tree, files, copies, m.tidy)
    {
      TwoConflictsFit(tree, head, m.setup, files, copies);
    }
  }

  lemma TwoFilesAreValid(side: Files)
    requires side.Keys == TWO_FILES && forall p :: p in TWO_FILES ==> ValidEntry(side[p])
    ensures Valid(side)
  {
  }

  lemma TwoConflictsFit(tree: Files, head: Files, setup: Setup, files: Files, copies: seq<ConflictCopy>)
    requires tree.Keys == head.Keys == TWO_FILES && setup.fold == LowerCase
    requires Computes(map[], tree, head, setup, files, copies)
    ensures !FoldCollision(files, setup.fold)
  {
    hide NamedInOrder, Reserved, WinnerAt, PreservesLoser, LowerCase;
    forall p, q | p in files && q in files && LowerCase(p) == LowerCase(q)
      ensures p == q
    {
      SameFoldSameStart(p, q);
      if p !in TWO_FILES {
        var i := CopyStart(tree, head, setup, files, copies, p);
        if q !in TWO_FILES {
          var j := CopyStart(tree, head, setup, files, copies, q);
          assert i == j;
        }
      } else if q !in TWO_FILES {
        var j := CopyStart(tree, head, setup, files, copies, q);
      }
    }
  }

  lemma SameFoldSameStart(p: Path, q: Path)
    requires LowerCase(p) == LowerCase(q)
    ensures |p| == |q|
    ensures p != [] ==> |p[0]| == |q[0]|
    ensures p != [] && p[0] != "" ==> LowerAscii(p[0][0]) == LowerAscii(q[0][0])
  {
    assert |LowerCase(p)| == |LowerCase(q)|;
    if p != [] {
      assert LowerCase(p)[0] == LowerCase(q)[0];
      if p[0] != "" {
        assert LowerName(p[0])[0] == LowerName(q[0])[0];
      }
    }
  }

  /** A copy keeps the first letter of the file that it is made of. */
  lemma CopyStart(tree: Files, head: Files, setup: Setup, files: Files, copies: seq<ConflictCopy>, p: Path) returns (i: nat)
    requires tree.Keys == head.Keys == TWO_FILES && p in files && p !in TWO_FILES
    requires Computes(map[], tree, head, setup, files, copies)
    ensures i < |copies| && copies[i].copyPath == p && copies[i].path in TWO_FILES
    ensures |p| == 1 && |p[0]| > 5 && p[0][0] == copies[i].path[0][0]
  {
    hide Reserved, WinnerAt, IsCopyName, IsFirstFree;
    i :| 0 <= i < |copies| && !copies[i].localOnly && copies[i].copyPath == p;
    assert PreservesLoser(copies[i], map[], tree, head);
    var name := copies[i].path;
    CopyNameStarts(Reserved(tree, head) + ClaimedNames(copies[..i]), name, Label(copies[i].side, setup.device), setup.stamp, p);
  }

  lemma CopyNameStarts(taken: set<Path>, path: Path, device: string, stamp: string, name: Path)
    requires path in TWO_FILES && IsClaim(taken, path, device, stamp, name)
    ensures |name| == 1 && |name[0]| > 5 && name[0][0] == path[0][0]
  {
    ClaimShape(taken, path, device, stamp, name);
    var n: nat :| n >= 1 && IsFirstFree(taken, path, device, stamp, name, n);
    assert Stem(path[0]) == path[0];
  }

  // ---------- what a pass publishes ----------

  function RacesUpTo(turns: seq<Turn>, n: nat): seq<Head> {
    if n == 0 then [] else RacesUpTo(turns, n - 1) + TurnAt(turns, n - 1).race
  }

  lemma {:induction false} MetRaces(ts: seq<Trial>, turns: seq<Turn>)
    requires forall i :: 0 <= i < |ts| ==> ts[i].race == TurnAt(turns, i).race
    ensures RacesOf(ts) == RacesUpTo(turns, |ts|)
    decreases |ts|
  {
    if ts != [] {
      MetRaces(ts[..|ts| - 1], turns);
    }
  }

  /** The merge that the last attempt put on disk, published by this device. */
  predicate IsOwn(h: Head, d: Id, t: Trial) {
    t.Through? && h.author == d && h.files == t.files
  }

  /** A pass adds to the log what the others publish meanwhile and at most one head of its own,
      its last merge. It has added that one exactly if the merge was put on disk, differs from
      the head, met no rival in its attempt, and neither the upload nor the request failed. A
      pass that succeeds says whether it has, and reports the head that it stands on. One that
      fails has, exactly if all that failed is the answer of the relay or the commit. */
  lemma PassPublishes(r: Result<ConvergeReport, ConvergeError>, start: World, d: Id, ts: seq<Trial>, dev: Device,
                      turns: seq<Turn>, log: seq<Head>, now: Snapshot, m: Means) returns (own: seq<Head>)
    requires PassDone(r, start, d, ts, dev, turns, log, now, m)
    ensures log == start.log + RacesUpTo(turns, |ts|) + own
    ensures |own| <= 1 && (own != [] ==> IsOwn(own[0], d, ts[|ts| - 1]))
    ensures own != [] <==> HasNews(BeforeLast(start, d, ts).value, ts[|ts| - 1])
                           && TurnAt(turns, |ts| - 1).race == [] && TurnAt(turns, |ts| - 1).fault !in {UploadFailed, PutFailed}
    ensures r.Ok? ==>
      && (own != [] <==> r.value.pushed) && (r.value.pushed ==> r.value.headSeq == |log|)
      && 1 <= r.value.headSeq <= |log| && Some(log[r.value.headSeq - 1].files) == now.pointer
    ensures r.Err? ==>
      (own != [] <==> r.error in {Broken(AnswerLost), Broken(CommitFailed)}
                      && HasNews(BeforeLast(start, d, ts).value, ts[|ts| - 1]) && TurnAt(turns, |ts| - 1).race == [])
  {
    PassPublishesOnce(start, d, ts);
    MetRaces(ts, turns);
    LastComputed(r, start, d, ts, dev, turns, log, now, m);
    var w, t := BeforeLast(start, d, ts).value, ts[|ts| - 1];
    own := OwnHead(w, d, t);
    RacesBefore(start.log, ts, w.log);
    hide AfterTrials, BeforeLast, RacesOf, RacesUpTo, Merges, Landing, Halfway, ReportOf, ApplyFromRemote, KeepsLocalOnly;
    hide Returns, HasNews, IsComputed, AllComputed;
    LastReports(r, w, d, t, |ts|, m, TurnAt(turns, |ts| - 1).fault);
    assert log == w.log + t.race + own;
  }

  /** The attempt put a merge on disk that differs from the head. */
  predicate HasNews(w: World, t: Trial) {
    t.Through? && !NothingToPublish(w, t.files)
  }

  lemma RacesBefore(log: seq<Head>, ts: seq<Trial>, before: seq<Head>)
    requires ts != [] && before == log + RacesOf(ts[..|ts| - 1])
    ensures log + RacesOf(ts) == before + ts[|ts| - 1].race
  {
    RacesSnoc(log, ts);
  }

  lemma LastReports(r: Result<ConvergeReport, ConvergeError>, w: World, d: Id, t: Trial, attempt: nat,
                    m: Means, fault: Fault)
    requires Fits(w, d, t) && Returns(r, w, d, t, attempt, m, fault)
    ensures r.Ok? ==>
      && t.Through? && (Publishes(t) <==> r.value.pushed)
      && (if r.value.pushed then t.race == [] && r.value.headSeq == |w.log| + 1
          else r.value.headSeq == |w.log| > 0 && t.files == Current(w.log))
    ensures Publishes(t) <==> HasNews(w, t) && t.race == [] && fault !in {UploadFailed, PutFailed}
    ensures r.Err? ==>
      (Publishes(t) <==> r.error in {Broken(AnswerLost), Broken(CommitFailed)} && HasNews(w, t) && t.race == [])
  {
    hide Merges, Landing, Halfway, ReportOf, ApplyFromRemote, PlaceFails, MergeIsInvalid, ChunksAreMissing;
  }

  /** A pass that fails and has published: the first pass of any workspace, if the answer of the
      relay is lost. */
  lemma LostAnswerExample(tree: Files, now: Snapshot, d: Id, m: Means)
    returns (start: World, ts: seq<Trial>, dev: Device, turns: seq<Turn>, log: seq<Head>)
    requires Valid(tree) && now.files == tree && now.pointer == None
    ensures start == Begun([], d, Device(tree, map[], 0, Idle, NOTHING, NOTHING))
    ensures PassDone(Err(Broken(AnswerLost)), start, d, ts, dev, turns, log, now, m)
    ensures |log| == 1 && log[0].author == d && log[0].files == tree
  {
    start := Begun([], d, Device(tree, map[], 0, Idle, NOTHING, NOTHING));
    var t := Through([], tree, [], tree, Unconfirmed);
    ts, turns, dev := [t], [Turn([], AnswerLost)], DeviceAfter(start, d, t);
    log := AfterTrial(start, d, t).log;
    FirstAttempt(start, tree, d, t, m.setup);
    hide Computes, Outcome, Valid, Fits, IsComputed, AfterTrial, DeviceAfter, PassDone;
    OneTrialPass(Err(Broken(AnswerLost)), start, d, t, turns[0], log, dev, now, m);
  }

  lemma OneTrialPass(r: Result<ConvergeReport, ConvergeError>, start: World, d: Id, t: Trial, turn: Turn, log: seq<Head>,
                     dev: Device, now: Snapshot, m: Means)
    requires Fits(start, d, t) && IsComputed(start, d, t, m.setup) && t.race == turn.race
    requires AfterTrial(start, d, t) == World(log, map[d := dev]) && dev.phase.Idle? && Matches(dev, now.files, now.pointer)
    requires r.Err? && Returns(r, start, d, t, 1, m, turn.fault)
    ensures PassDone(r, start, d, [t], dev, [turn], log, now, m)
  {
    hide AllComputed, AfterTrials, BeforeLast, KeepsLocalOnly, Fits, IsComputed, AfterTrial, Matches, Returns;
    OneTrial(start, d, t, m.setup);
    assert TurnAt([turn], 0) == turn;
  }

  lemma FirstAttempt(start: World, tree: Files, d: Id, t: Trial, setup: Setup)
    requires Valid(tree) && start == Begun([], d, Device(tree, map[], 0, Idle, NOTHING, NOTHING))
    requires t == Through([], tree, [], tree, Unconfirmed)
    ensures Fits(start, d, t) && IsComputed(start, d, t, setup)
    ensures var dev, log := DeviceAfter(start, d, t), AfterTrial(start, d, t).log;
      && dev.tree == tree && dev.diskBase == map[] && dev.phase.Idle?
      && |log| == 1 && log[0].author == d && log[0].files == tree
      && AfterTrial(start, d, t) == World(log, map[d := dev])
  {
    FirstMerge(tree, setup);
    FirstLanding(tree);
    hide Landing, Computes, Outcome, Valid;
  }

  lemma OneTrial(w: World, d: Id, t: Trial, setup: Setup)
    requires Fits(w, d, t) && IsComputed(w, d, t, setup)
    ensures AfterTrials(w, d, [t]) == Some(AfterTrial(w, d, t)) && BeforeLast(w, d, [t]) == Some(w)
    ensures AllComputed(w, d, [t], setup)
  {
    assert [t][..0] == [];
    hide Fits, IsComputed, AfterTrial;
  }

  lemma FirstMerge(tree: Files, setup: Setup)
    ensures Computes(map[], tree, map[], setup, tree, []) && Outcome(map[], tree, map[], tree, [])
  {
    NoneContested(tree, AllPaths(map[], tree, map[], setup));
  }

  lemma {:induction false} NoneContested(tree: Files, paths: seq<Path>)
    ensures ContestedPaths(map[], tree, map[], paths) == []
    decreases |paths|
  {
    if paths != [] {
      NoneContested(tree, paths[..|paths| - 1]);
    }
  }

  lemma FirstLanding(tree: Files)
    ensures WithLocalCopies(tree, []) == tree && Landing(tree, [], tree) == tree
  {
  }

  /** A pass gives up only if in each of its attempts another writer published. */
  lemma GivingUpMeansRivals(start: World, d: Id, ts: seq<Trial>, dev: Device, turns: seq<Turn>, log: seq<Head>, now: Snapshot,
                            m: Means, i: nat)
    requires PassDone(Err(LostEveryRace), start, d, ts, dev, turns, log, now, m)
    ensures |ts| == 32
    ensures i < 32 ==> TurnAt(turns, i).race != []
  {
    var w, n := BeforeLast(start, d, ts).value, |ts| - 1;
    assert Returns(Err(LostEveryRace), w, d, ts[n], |ts|, m, TurnAt(turns, n).fault);
    hide AfterTrials, BeforeLast, Merges, Landing, Halfway, ReportOf, ApplyFromRemote;
    assert IsBeaten(ts[n]);
    if i < MAX_ATTEMPTS {
      BeatenMeetRivals(start, d, ts, i);
    }
  }

  lemma {:induction false} BeatenMeetRivals(start: World, d: Id, ts: seq<Trial>, i: nat)
    requires AfterTrials(start, d, ts).Some? && i < |ts| && IsBeaten(ts[i])
    ensures ts[i].race != []
    decreases |ts|
  {
    TrialsBefore(start, d, ts);
    hide AfterTrials, AfterTrial, Merges, Landing, Halfway;
    if i < |ts| - 1 {
      BeforeLastIs(start, d, ts);
      BeatenMeetRivals(start, d, ts[..|ts| - 1], i);
    }
  }

  // ---------- a pass is a part of a run ----------

  /** In any world of the protocol: a pass of the loop by an idle device, together with the
      steps by which other devices publish the heads that it meets, is a run. It leaves log
      and device as the pass does; what holds in all reachable worlds holds after it. */
  lemma PassStaysInProtocol(r: Result<ConvergeReport, ConvergeError>, w: World, d: Id, ts: seq<Trial>, dev: Device,
                            turns: seq<Turn>, log: seq<Head>, now: Snapshot, m: Means,
                            others: seq<seq<Step>>)
    returns (steps: seq<Step>)
    requires d in w.devices && w.devices[d].phase.Idle?
    requires PassDone(r, Begun(w.log, d, w.devices[d]), d, ts, dev, turns, log, now, m)
    requires Backed(w, d, [Own(Begin(d))] + AllMoves(d, ts), others)
    ensures Runs(w, steps) && d in Exec(w, steps).devices
    ensures Exec(w, steps).log == log && Exec(w, steps).devices[d] == dev
    ensures dev.tree == now.files && dev.diskBase == BaseOf(now.pointer)
    ensures Reachable(w) ==> Reachable(Exec(w, steps))
  {
    hide PassDone, Matches, AfterTrials, Backed, AllMoves, Runs, Exec, Reachable, Begun, View, After;
    BeginsAs(w, d);
    PassFacts(r, Begun(w.log, d, w.devices[d]), d, ts, dev, turns, log, now, m);
    steps := PassIsARun(w, d, ts, others);
    ViewFacts(Exec(w, steps), d, log, dev);
    if Reachable(w) {
      StillReachable(w, d, steps);
    }
  }

  lemma BeginsAs(w: World, d: Id)
    requires d in w.devices && w.devices[d].phase.Idle?
    ensures Enabled(View(w, d), Begin(d)) && Begun(w.log, d, w.devices[d]) == After(View(w, d), Begin(d))
  {
  }

  lemma PassFacts(r: Result<ConvergeReport, ConvergeError>, start: World, d: Id, ts: seq<Trial>, dev: Device,
                  turns: seq<Turn>, log: seq<Head>, now: Snapshot, m: Means)
    requires PassDone(r, start, d, ts, dev, turns, log, now, m)
    ensures AfterTrials(start, d, ts) == Some(World(log, map[d := dev]))
    ensures dev.tree == now.files && dev.diskBase == BaseOf(now.pointer)
  {
    hide AfterTrials, PassReturns, Fits, AllComputed;
  }

  lemma ViewFacts(w: World, d: Id, log: seq<Head>, dev: Device)
    requires d in w.devices && View(w, d) == World(log, map[d := dev])
    ensures w.log == log && w.devices[d] == dev
  {
    assert map[d := w.devices[d]][d] == map[d := dev][d];
  }

  lemma StillReachable(w: World, d: Id, steps: seq<Step>)
    requires Reachable(w) && Runs(w, steps)
    ensures Reachable(Exec(w, steps))
  {
    hide Runs, Exec;
    var w0, earlier :| Init(w0) && Runs(w0, earlier) && Exec(w0, earlier) == w;
    RunsConcat(w0, d, earlier, steps);
  }
}
