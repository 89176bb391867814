/** Eventual convergence: once edits stop, two rounds of uncontended passes bring every
    device to the head, and further passes publish nothing. */
module Convergence {
  import opened Manifests
  import opened Naming
  import opened Merging
  import opened MergeLaws
  import opened MergeExistence
  import opened Materializing
  import opened Tracking
  import opened Protocol

  /** A pass that nothing interrupts, with the merge that it computed. A device that
      was in the middle of something starts over. */
  datatype QuietPass = QuietPass(d: Id, files: Files, copies: seq<ConflictCopy>, publishes: bool)

  function StepsOf(p: QuietPass): seq<Step> {
    [Crash(p.d)] + ([Begin(p.d)] + ([GetHead(p.d)] + ([ScanAndMerge(p.d, p.files, p.copies)] + ([Place(p.d)] + FinishOf(p)))))
  }

  function FinishOf(p: QuietPass): seq<Step> {
    if p.publishes then [PutHead(p.d)] + ([Commit(p.d)] + []) else [Adopt(p.d)] + []
  }

  lemma Unfold(w: World, s: Step, rest: seq<Step>)
    ensures Runs(w, [s] + rest) <==> Enabled(w, s) && Runs(After(w, s), rest)
    ensures Runs(w, [s] + rest) ==> Exec(w, [s] + rest) == Exec(After(w, s), rest)
  {
    assert ([s] + rest)[1..] == rest;
  }

  /** The state of the device after the five steps that do not depend on the race. */
  function PlacedDevice(w: World, p: QuietPass): Device
    requires p.d in w.devices
  {
    var dev := w.devices[p.d];
    var pass := Pass(dev.diskBase, 1, |w.log|, dev.synced);
    var m := Merged(|w.log|, dev.tree, Current(w.log), p.files, p.copies, dev.since);
    PlacedOnDisk(dev.(recent := NOTHING), pass, m)
  }

  lemma PassToPlaced(w: World, p: QuietPass)
    ensures Runs(w, StepsOf(p)) <==>
      && p.d in w.devices
      && Valid(p.files) && Outcome(w.devices[p.d].diskBase, w.devices[p.d].tree, Current(w.log), p.files, p.copies)
      && Runs(w.(devices := w.devices[p.d := PlacedDevice(w, p)]), FinishOf(p))
    ensures Runs(w, StepsOf(p)) ==>
      Exec(w, StepsOf(p)) == Exec(w.(devices := w.devices[p.d := PlacedDevice(w, p)]), FinishOf(p))
  {
    hide Outcome, Valid, WithLocalCopies, CopyPaths, Losers, FinishOf;
    if p.d in w.devices {
      var d, dev := p.d, w.devices[p.d];
      var s5 := [Place(d)] + FinishOf(p);
      var s4 := [ScanAndMerge(d, p.files, p.copies)] + s5;
      var s3 := [GetHead(d)] + s4;
      var s2 := [Begin(d)] + s3;
      Unfold(w, Crash(d), s2);
      var w1 := After(w, Crash(d));
      Unfold(w1, Begin(d), s3);
      var w2 := After(w1, Begin(d));
      Unfold(w2, GetHead(d), s4);
      var w3 := After(w2, GetHead(d));
      Unfold(w3, ScanAndMerge(d, p.files, p.copies), s5);
      if Enabled(w3, ScanAndMerge(d, p.files, p.copies)) {
        var w4 := After(w3, ScanAndMerge(d, p.files, p.copies));
        Unfold(w4, Place(d), FinishOf(p));
        assert After(w4, Place(d)) == w.(devices := w.devices[d := PlacedDevice(w, p)]);
      }
    } else {
      Unfold(w, Crash(p.d), StepsOf(p)[1..]);
    }
  }

  /** Tree, base and head agree. */
  predicate AtHead(w: World, d: Id) {
    d in w.devices && |w.log| > 0 && w.devices[d].tree == w.devices[d].diskBase == Current(w.log)
  }

  /** What one quiet pass does: it leaves the device at the head, which is the old one
      or, if the merge differs from it, one more; the other devices are untouched. */
  lemma PassEffect(w: World, p: QuietPass)
    requires Runs(w, StepsOf(p))
    ensures var w' := Exec(w, StepsOf(p));
      && AtHead(w', p.d) && Current(w'.log) == p.files
      && w'.devices.Keys == w.devices.Keys
      && (forall e :: e in w.devices && e != p.d ==> w'.devices[e] == w.devices[e])
      && (p.publishes <==> w'.log != w.log)
      && (p.publishes ==> |w'.log| == |w.log| + 1 && w'.log[..|w.log|] == w.log)
      && (p.publishes <==> !(p.files == Current(w.log) && |w.log| > 0))
  {
    PassToPlaced(w, p);
    hide Outcome, Valid;
    var d := p.d;
    var w5 := w.(devices := w.devices[d := PlacedDevice(w, p)]);
    if p.publishes {
      Unfold(w5, PutHead(d), [Commit(d)] + []);
      Unfold(After(w5, PutHead(d)), Commit(d), []);
    } else {
      Unfold(w5, Adopt(d), []);
    }
  }

  // ---------- when a pass can run ----------

  /** The merge that a device computed, and whether it has to publish it. */
  ghost predicate IsMergeOf(w: World, p: QuietPass) {
    && p.d in w.devices
    && Outcome(w.devices[p.d].diskBase, w.devices[p.d].tree, Current(w.log), p.files, p.copies)
    && SafeNames(p.copies)
    && (p.publishes <==> !(p.files == Current(w.log) && |w.log| > 0))
  }

  /** A file that the device kept and a directory that the head kept have one name, or the
      other way round. */
  ghost predicate Blocked(w: World, d: Id)
    requires d in w.devices
  {
    CrossCollision(w.devices[d].diskBase, w.devices[d].tree, Current(w.log))
  }

  lemma RunsIfValid(w: World, p: QuietPass)
    requires p.d in w.devices
    requires Outcome(w.devices[p.d].diskBase, w.devices[p.d].tree, Current(w.log), p.files, p.copies)
    requires p.publishes <==> !(p.files == Current(w.log) && |w.log| > 0)
    ensures Runs(w, StepsOf(p)) <==> Valid(p.files)
  {
    PassToPlaced(w, p);
    hide Outcome, Valid, WithLocalCopies, CopyPaths, Losers, StepsOf;
    var d := p.d;
    var w5 := w.(devices := w.devices[d := PlacedDevice(w, p)]);
    if p.publishes {
      Unfold(w5, PutHead(d), [Commit(d)] + []);
      Unfold(After(w5, PutHead(d)), Commit(d), []);
    } else {
      Unfold(w5, Adopt(d), []);
    }
  }

  lemma HeadIsValid(w: World)
    requires Inv(w)
    ensures Valid(Current(w.log)) && [] !in Current(w.log)
    ensures forall d :: d in w.devices ==> [] !in w.devices[d].diskBase
  {
    forall n: nat | n <= |w.log|
      ensures Valid(HeadAt(w.log, n)) && [] !in HeadAt(w.log, n)
    {
      if n > 0 {
        assert HeadInv(w.log, n - 1);
      }
    }
    forall d | d in w.devices
      ensures [] !in w.devices[d].diskBase
    {
      assert DeviceInv(w.log, d, w.devices[d]);
      var k: nat :| w.devices[d].synced <= k <= |w.log| && HeadAt(w.log, k) == w.devices[d].diskBase;
      assert [] !in HeadAt(w.log, k);
    }
  }

  /** Whatever merge a device with a valid tree computes, its uncontended pass runs to the
      end exactly if the device is not blocked. */
  lemma PassRunsIff(w: World, p: QuietPass)
    requires Inv(w) && IsMergeOf(w, p) && Valid(w.devices[p.d].tree)
    ensures Runs(w, StepsOf(p)) <==> !Blocked(w, p.d)
  {
    HeadIsValid(w);
    hide Valid, Outcome, SafeNames, CrossCollision, Inv;
    RunsIfValid(w, p);
    OutcomeIsValidIff(w.devices[p.d].diskBase, w.devices[p.d].tree, Current(w.log), p.files, p.copies);
  }

  /** And there always is a merge to compute. */
  lemma PassExists(w: World, d: Id) returns (p: QuietPass)
    requires Inv(w) && d in w.devices && Valid(w.devices[d].tree)
    ensures p.d == d && IsMergeOf(w, p)
  {
    HeadIsValid(w);
    assert [] !in w.devices[d].tree;
    hide Inv;
    var files, copies := MergeExists(w.devices[d].diskBase, w.devices[d].tree, Current(w.log), "device", "stamp");
    p := QuietPass(d, files, copies, !(files == Current(w.log) && |w.log| > 0));
  }

  /** No pass of any kind gets past a blocked state: the merge of a file and a directory of
      one name is refused. */
  lemma CrossCollisionBlocks(w: World, p: QuietPass)
    requires p.d in w.devices
    requires NoFileIsADirectory(w.devices[p.d].tree) && NoFileIsADirectory(Current(w.log))
    requires Blocked(w, p.d)
    ensures !Runs(w, StepsOf(p))
  {
    PassToPlaced(w, p);
    if Runs(w, StepsOf(p)) {
      ClashFreeIff(w.devices[p.d].diskBase, w.devices[p.d].tree, Current(w.log), p.files, p.copies);
    }
  }

  /** A blocked device that is merging, if at all, against the current head. */
  ghost predicate Stuck(w: World, d: Id) {
    && d in w.devices && Blocked(w, d)
    && NoFileIsADirectory(w.devices[d].tree) && NoFileIsADirectory(Current(w.log))
    && match w.devices[d].phase
       case Idle => true
       case Started(pass) => pass.base == w.devices[d].diskBase
       case Fetched(pass, _, remote) => pass.base == w.devices[d].diskBase && remote == Current(w.log)
       case _ => false
  }

  /** However often a stuck device tries again, it stays where it is until its user edits:
      it publishes nothing and its tree and base do not move. */
  lemma {:induction false} StuckUntilEdit(w: World, d: Id, steps: seq<Step>)
    requires Stuck(w, d) && Runs(w, steps)
    requires forall i :: 0 <= i < |steps| ==> steps[i].d == d && !steps[i].Edit?
    ensures var w' := Exec(w, steps);
      && Stuck(w', d) && w'.log == w.log
      && w'.devices[d].tree == w.devices[d].tree && w'.devices[d].diskBase == w.devices[d].diskBase
    decreases |steps|
  {
    if steps != [] {
      StuckStep(w, d, steps[0]);
      hide Stuck, Enabled, After;
      StuckUntilEdit(After(w, steps[0]), d, steps[1..]);
    }
  }

  lemma StuckStep(w: World, d: Id, s: Step)
    requires Stuck(w, d) && Enabled(w, s) && s.d == d && !s.Edit?
    ensures var w' := After(w, s);
      && Stuck(w', d) && w'.log == w.log
      && w'.devices[d].tree == w.devices[d].tree && w'.devices[d].diskBase == w.devices[d].diskBase
  {
    if s.ScanAndMerge? {
      ClashFreeIff(w.devices[d].diskBase, w.devices[d].tree, Current(w.log), s.files, s.copies);
    }
    hide CrossCollision, NoFileIsADirectory, Outcome;
  }

  // ---------- rounds ----------

  ghost predicate PassesRun(w: World, ps: seq<QuietPass>)
    decreases |ps|
  {
    ps == [] || (Runs(w, StepsOf(ps[0])) && PassesRun(Exec(w, StepsOf(ps[0])), ps[1..]))
  }

  ghost function AfterPasses(w: World, ps: seq<QuietPass>): World
    requires PassesRun(w, ps)
    decreases |ps|
  {
    if ps == [] then w else AfterPasses(Exec(w, StepsOf(ps[0])), ps[1..])
  }

  ghost predicate TakesPart(ps: seq<QuietPass>, d: Id) {
    exists i :: 0 <= i < |ps| && ps[i].d == d
  }

  lemma TakesPartLater(ps: seq<QuietPass>, d: Id)
    requires TakesPart(ps, d)
    ensures ps != [] && (ps[0].d == d || TakesPart(ps[1..], d))
  {
    var i :| 0 <= i < |ps| && ps[i].d == d;
    if i > 0 {
      assert ps[1..][i - 1].d == d;
    }
  }

  /** Every device makes at least one pass. */
  ghost predicate Round(w: World, ps: seq<QuietPass>) {
    PassesRun(w, ps) && forall d :: d in w.devices ==> TakesPart(ps, d)
  }

  /** The device has nothing of its own to publish. */
  predicate Settled(w: World, d: Id) {
    d in w.devices && |w.log| > 0 && w.devices[d].tree == w.devices[d].diskBase
  }

  /** A pass settles its device and unsettles no other. */
  lemma {:induction false} FirstRound(w: World, ps: seq<QuietPass>, d: Id)
    requires PassesRun(w, ps) && d in w.devices
    requires Settled(w, d) || TakesPart(ps, d)
    ensures Settled(AfterPasses(w, ps), d) && AfterPasses(w, ps).devices.Keys == w.devices.Keys
    decreases |ps|
  {
    if ps != [] {
      PassEffect(w, ps[0]);
      var w' := Exec(w, StepsOf(ps[0]));
      if !Settled(w, d) {
        TakesPartLater(ps, d);
      }
      FirstRound(w', ps[1..], d);
    }
  }

  /** A settled device only follows: its pass publishes nothing. */
  lemma SettledPassFollows(w: World, p: QuietPass)
    requires Runs(w, StepsOf(p)) && Settled(w, p.d)
    ensures !p.publishes && Exec(w, StepsOf(p)).log == w.log
    ensures AtHead(Exec(w, StepsOf(p)), p.d)
  {
    PassToPlaced(w, p);
    PassEffect(w, p);
    UneditedSideFollows(w.devices[p.d].diskBase, w.devices[p.d].tree, Current(w.log), p.files, p.copies);
  }

  lemma {:induction false} SettledRound(w: World, ps: seq<QuietPass>)
    requires PassesRun(w, ps)
    requires forall d :: d in w.devices ==> Settled(w, d)
    ensures AfterPasses(w, ps).log == w.log && AfterPasses(w, ps).devices.Keys == w.devices.Keys
    ensures forall i :: 0 <= i < |ps| ==> !ps[i].publishes
    ensures forall d :: d in w.devices && (AtHead(w, d) || TakesPart(ps, d))
              ==> AtHead(AfterPasses(w, ps), d)
    decreases |ps|
  {
    if ps != [] {
      PassToPlaced(w, ps[0]);
      SettledPassFollows(w, ps[0]);
      PassEffect(w, ps[0]);
      hide Outcome, Valid, PlacedDevice, StepsOf, Exec, Runs, Enabled;
      var w' := Exec(w, StepsOf(ps[0]));
      SettledRound(w', ps[1..]);
      forall d | d in w.devices && (AtHead(w, d) || TakesPart(ps, d))
        ensures AtHead(AfterPasses(w, ps), d)
      {
        if !AtHead(w, d) {
          TakesPartLater(ps, d);
        }
      }
    }
  }

  // ---------- rounds that run ----------

  ghost predicate TreesValid(w: World) {
    forall d :: d in w.devices ==> Valid(w.devices[d].tree)
  }

  /** The passes of these devices, in this order. */
  predicate PassesOf(ps: seq<QuietPass>, ds: seq<Id>) {
    |ps| == |ds| && forall i :: 0 <= i < |ps| ==> ps[i].d == ds[i]
  }

  ghost predicate Everyone(ds: seq<Id>, w: World) {
    forall d :: d in w.devices <==> d in ds
  }

  lemma PassKeeps(w: World, p: QuietPass)
    requires Inv(w) && TreesValid(w) && Runs(w, StepsOf(p))
    ensures Inv(Exec(w, StepsOf(p))) && TreesValid(Exec(w, StepsOf(p)))
  {
    hide Inv;
    RunKeepsInv(w, StepsOf(p));
    PassToPlaced(w, p);
    PassEffect(w, p);
    hide Runs, Exec, StepsOf, Outcome, Valid;
  }

  /** A round goes through, in any order of the devices, unless it comes to a device that is
      blocked at that moment. */
  lemma {:induction false} RoundOrCollision(w: World, ds: seq<Id>) returns (ps: seq<QuietPass>)
    requires Inv(w) && TreesValid(w) && forall i :: 0 <= i < |ds| ==> ds[i] in w.devices
    ensures |ps| <= |ds| && PassesRun(w, ps) && PassesOf(ps, ds[..|ps|])
    ensures AfterPasses(w, ps).devices.Keys == w.devices.Keys
    ensures |ps| < |ds| ==> Blocked(AfterPasses(w, ps), ds[|ps|])
    decreases |ds|
  {
    ps := [];
    if ds != [] {
      hide Inv, TreesValid, Runs, Exec, StepsOf, Blocked, Compatible;
      if !Blocked(w, ds[0]) {
        var p := PassGoes(w, ds[0]);
        var rest := RoundOrCollision(Exec(w, StepsOf(p)), ds[1..]);
        ps := [p] + rest;
        OnePassMore(w, p, rest, ds);
      }
    }
  }

  ghost predicate AllSettled(w: World) {
    forall d :: d in w.devices ==> Settled(w, d)
  }

  /** A device that is not blocked makes a pass, and everything a round relies on stays. */
  lemma PassGoes(w: World, d: Id) returns (p: QuietPass)
    requires Inv(w) && TreesValid(w) && d in w.devices && !Blocked(w, d)
    ensures p.d == d && Runs(w, StepsOf(p))
    ensures var w' := Exec(w, StepsOf(p));
      && Inv(w') && TreesValid(w') && w'.devices.Keys == w.devices.Keys
      && (Compatible(w) ==> Compatible(w')) && (AllSettled(w) ==> AllSettled(w'))
  {
    hide Inv, IsMergeOf, Runs, Exec, StepsOf, Blocked, Compatible;
    p := PassExists(w, d);
    PassRunsIff(w, p);
    PassKeeps(w, p);
    PassEffect(w, p);
    if Compatible(w) {
      PassStaysCompatible(w, p);
    }
  }

  lemma TreeOf(w: World, d: Id)
    requires TreesValid(w) && d in w.devices
    ensures Valid(w.devices[d].tree)
  {
  }

  lemma OnePassMore(w: World, p: QuietPass, rest: seq<QuietPass>, ds: seq<Id>)
    requires Runs(w, StepsOf(p)) && PassesRun(Exec(w, StepsOf(p)), rest)
    requires ds != [] && p.d == ds[0] && |rest| <= |ds| - 1 && PassesOf(rest, ds[1..][..|rest|])
    ensures PassesRun(w, [p] + rest) && AfterPasses(w, [p] + rest) == AfterPasses(Exec(w, StepsOf(p)), rest)
    ensures PassesOf([p] + rest, ds[..|rest| + 1])
  {
    hide Runs, StepsOf;
    assert ([p] + rest)[1..] == rest;
    assert ds[..|rest| + 1][1..] == ds[1..][..|rest|];
  }

  lemma OnePassMoreOfAll(w: World, p: QuietPass, rest: seq<QuietPass>, ds: seq<Id>)
    requires Runs(w, StepsOf(p)) && PassesRun(Exec(w, StepsOf(p)), rest)
    requires ds != [] && p.d == ds[0] && PassesOf(rest, ds[1..])
    ensures PassesRun(w, [p] + rest) && PassesOf([p] + rest, ds)
  {
    assert ds[1..][..|rest|] == ds[1..] && ds[..|rest| + 1] == ds;
    OnePassMore(w, p, rest, ds);
  }

  /** A settled device is never blocked. */
  lemma SettledIsNotBlocked(w: World, d: Id)
    requires Inv(w) && Settled(w, d) && Valid(w.devices[d].tree)
    ensures !Blocked(w, d)
  {
    HeadIsValid(w);
    var p := PassExists(w, d);
    UneditedSideFollows(w.devices[d].diskBase, w.devices[d].tree, Current(w.log), p.files, p.copies);
    ClashFreeIff(w.devices[d].diskBase, w.devices[d].tree, Current(w.log), p.files, p.copies);
  }

  lemma SettledPassGoes(w: World, d: Id) returns (p: QuietPass)
    requires Inv(w) && TreesValid(w) && AllSettled(w) && d in w.devices
    ensures p.d == d && Runs(w, StepsOf(p))
    ensures var w' := Exec(w, StepsOf(p));
            Inv(w') && TreesValid(w') && AllSettled(w') && w'.devices.Keys == w.devices.Keys
  {
    hide Inv, TreesValid, Runs, Exec, StepsOf, Blocked, Compatible;
    TreeOf(w, d);
    SettledIsNotBlocked(w, d);
    p := PassGoes(w, d);
  }

  lemma {:induction false} SettledRoundRuns(w: World, ds: seq<Id>) returns (ps: seq<QuietPass>)
    requires Inv(w) && TreesValid(w) && (forall i :: 0 <= i < |ds| ==> ds[i] in w.devices)
    requires AllSettled(w)
    ensures PassesRun(w, ps) && PassesOf(ps, ds)
    decreases |ds|
  {
    ps := [];
    assert ds == [] ==> PassesRun(w, []) && PassesOf([], ds);
    if ds != [] {
      hide Inv, TreesValid, Runs, Exec, StepsOf, Blocked, Compatible, PassesRun, PassesOf, AllSettled;
      var p := SettledPassGoes(w, ds[0]);
      var rest := SettledRoundRuns(Exec(w, StepsOf(p)), ds[1..]);
      ps := [p] + rest;
      OnePassMoreOfAll(w, p, rest, ds);
    }
  }

  lemma {:induction false} PassesKeep(w: World, ps: seq<QuietPass>)
    requires Inv(w) && TreesValid(w) && PassesRun(w, ps)
    ensures Inv(AfterPasses(w, ps)) && TreesValid(AfterPasses(w, ps))
    decreases |ps|
  {
    hide Inv, TreesValid, Runs, StepsOf;
    if ps != [] {
      PassKeeps(w, ps[0]);
      PassesKeep(Exec(w, StepsOf(ps[0])), ps[1..]);
    }
  }

  /** Two rounds of uncontended passes leave the tree and the base of every device equal to
      the head. Once a first round has run, a second can always run, in any order and with
      whatever merges the devices compute, and publishes nothing. */
  lemma TwoRoundsConverge(w: World, first: seq<QuietPass>, ds: seq<Id>) returns (second: seq<QuietPass>)
    requires Inv(w) && TreesValid(w) && Round(w, first) && Everyone(ds, w)
    ensures PassesRun(AfterPasses(w, first), second) && PassesOf(second, ds)
    ensures forall any :: PassesRun(AfterPasses(w, first), any) && (forall d :: d in w.devices ==> TakesPart(any, d)) ==>
              HasConverged(AfterPasses(w, first), any)
    ensures HasConverged(AfterPasses(w, first), second)
  {
    var mid := AfterPasses(w, first);
    SameDevices(w, first);
    PassesKeep(w, first);
    forall d | d in mid.devices
      ensures Settled(mid, d)
    {
      FirstRound(w, first, d);
    }
    hide Inv, TreesValid, Runs, Exec, StepsOf, AfterPasses, PassesRun, HasConverged, Settled;
    second := SettledRoundRuns(mid, ds);
    EveryoneTakesPart(mid, ds, second);
    forall any | PassesRun(mid, any) && (forall d :: d in w.devices ==> TakesPart(any, d))
      ensures HasConverged(mid, any)
    {
      SettledRoundConverges(mid, any);
    }
  }

  lemma EveryoneTakesPart(w: World, ds: seq<Id>, ps: seq<QuietPass>)
    requires Everyone(ds, w) && PassesOf(ps, ds)
    ensures forall d :: d in w.devices ==> TakesPart(ps, d)
  {
    forall d | d in w.devices
      ensures TakesPart(ps, d)
    {
      var i :| 0 <= i < |ds| && ds[i] == d;
      assert ps[i].d == d;
    }
  }

  lemma SettledRoundConverges(w: World, ps: seq<QuietPass>)
    requires PassesRun(w, ps) && AllSettled(w) && forall d :: d in w.devices ==> TakesPart(ps, d)
    ensures HasConverged(w, ps)
  {
    hide PassesRun, AfterPasses, AtHead;
    SettledRound(w, ps);
  }

  /** The passes published nothing and left every device at the head. */
  ghost predicate HasConverged(w: World, ps: seq<QuietPass>)
    requires PassesRun(w, ps)
  {
    var end := AfterPasses(w, ps);
    && end.log == w.log
    && (forall i :: 0 <= i < |ps| ==> !ps[i].publishes)
    && (forall d :: d in end.devices ==> AtHead(end, d))
  }

  // ---------- a condition on the start ----------

  /** Every key of a tree or of the head. */
  function AllKeys(w: World): set<Path> {
    (set d, p | d in w.devices && p in w.devices[d].tree :: p) + Current(w.log).Keys
  }

  ghost predicate PrefixFree(keys: set<Path>) {
    forall p, q :: p in keys && q in keys ==> !(p < q)
  }

  ghost predicate NoMarkedDirs(keys: set<Path>) {
    forall p, i :: p in keys && 0 <= i < |p| - 1 ==> !HasCopyMark(p[i])
  }

  /** No name is a file on one device and a directory on another, and no directory is
      called like a conflict copy. */
  ghost predicate Compatible(w: World) {
    PrefixFree(AllKeys(w)) && NoMarkedDirs(AllKeys(w))
  }

  lemma CompatibleIsNotBlocked(w: World, d: Id)
    requires Compatible(w) && d in w.devices
    ensures !Blocked(w, d)
  {
    hide HasCopyMark;
    var base, tree, head := w.devices[d].diskBase, w.devices[d].tree, Current(w.log);
    assert forall p :: p in tree || p in head ==> p in AllKeys(w);
  }

  lemma CopiesStayCompatible(keys: set<Path>, more: set<Path>)
    requires PrefixFree(keys) && NoMarkedDirs(keys)
    requires forall c :: c in more ==> c in keys || IsMarkedSibling(c, keys)
    ensures PrefixFree(more) && NoMarkedDirs(more)
  {
    hide HasCopyMark;
    forall c, i | c in more && 0 <= i < |c| - 1
      ensures !HasCopyMark(c[i])
    {
      if c !in keys {
        var p :| p in keys && |c| == |p| && Dir(c) == Dir(p) && HasCopyMark(FileName(c));
        assert c[i] == Dir(c)[i] == p[i];
      }
    }
    forall c, q | c in more && q in more
      ensures !(c < q)
    {
      if c in keys {
        KeyAboveCopy(c, q, if q in keys then q else Sibling(q, keys));
      } else {
        MarkedAbove(c, q);
      }
    }
  }

  lemma KeyAboveCopy(c: Path, q: Path, p: Path)
    requires |q| == |p| && Dir(q) == Dir(p)
    ensures c < q ==> c < p
  {
    if c < q {
      assert c == Dir(q)[..|c|] && Dir(p)[..|c|] == p[..|c|];
    }
  }

  lemma MarkedAbove(c: Path, q: Path)
    requires c != []
    ensures c < q ==> FileName(c) == q[|c| - 1]
  {
  }

  /** A conflict copy beside a key. */
  ghost predicate IsMarkedSibling(c: Path, keys: set<Path>) {
    c != [] && HasCopyMark(FileName(c)) && exists p :: p in keys && |c| == |p| && Dir(c) == Dir(p)
  }

  ghost function Sibling(c: Path, keys: set<Path>): (p: Path)
    requires IsMarkedSibling(c, keys)
    ensures p in keys && |c| == |p| && Dir(c) == Dir(p)
  {
    var p :| p in keys && |c| == |p| && Dir(c) == Dir(p);
    p
  }

  lemma PassStaysCompatible(w: World, p: QuietPass)
    requires Compatible(w) && Runs(w, StepsOf(p))
    ensures Compatible(Exec(w, StepsOf(p)))
  {
    PassToPlaced(w, p);
    PassEffect(w, p);
    hide Runs, StepsOf, Exec, Valid, HasCopyMark;
    var w' := Exec(w, StepsOf(p));
    forall c | c in p.files
      ensures c in AllKeys(w) || IsMarkedSibling(c, AllKeys(w))
    {
      MergedKey(w, p, c);
    }
    CopiesStayCompatible(AllKeys(w), AllKeys(w'));
  }

  lemma MergedKey(w: World, p: QuietPass, c: Path)
    requires p.d in w.devices && c in p.files
    requires Outcome(w.devices[p.d].diskBase, w.devices[p.d].tree, Current(w.log), p.files, p.copies)
    ensures c in AllKeys(w) || IsMarkedSibling(c, AllKeys(w))
  {
    hide HasCopyMark, WinnerAt, Reserved, Contested, IsGitPath;
    var tree := w.devices[p.d].tree;
    if c !in tree && c !in Current(w.log) {
      var i :| 0 <= i < |p.copies| && !p.copies[i].localOnly && p.copies[i].copyPath == c;
      assert PreservesLoser(p.copies[i], w.devices[p.d].diskBase, tree, Current(w.log));
      assert p.copies[i].path in tree;
      assert c != [] by {
        assert |FileName(c)| > |FileName(p.copies[i].path)|;
      }
    }
  }

  lemma {:induction false} CompatibleRoundRuns(w: World, ds: seq<Id>) returns (ps: seq<QuietPass>)
    requires Inv(w) && TreesValid(w) && Compatible(w) && (forall i :: 0 <= i < |ds| ==> ds[i] in w.devices)
    ensures PassesRun(w, ps) && PassesOf(ps, ds)
    decreases |ds|
  {
    ps := [];
    assert ds == [] ==> PassesRun(w, []) && PassesOf([], ds);
    if ds != [] {
      hide Inv, TreesValid, Runs, Exec, StepsOf, Blocked, Compatible, PassesRun, PassesOf;
      CompatibleIsNotBlocked(w, ds[0]);
      var p := PassGoes(w, ds[0]);
      var rest := CompatibleRoundRuns(Exec(w, StepsOf(p)), ds[1..]);
      ps := [p] + rest;
      OnePassMoreOfAll(w, p, rest, ds);
    }
  }

  /** From any reachable state with valid, compatible trees: two rounds run, in any two
      orders of the devices, and converge. */
  lemma CompatibleDevicesConverge(w: World, ds: seq<Id>, es: seq<Id>) returns (first: seq<QuietPass>, second: seq<QuietPass>)
    requires Reachable(w) && TreesValid(w) && Compatible(w) && Everyone(ds, w) && Everyone(es, w)
    ensures PassesRun(w, first) && PassesOf(first, ds)
    ensures PassesRun(AfterPasses(w, first), second) && PassesOf(second, es)
    ensures HasConverged(AfterPasses(w, first), second)
  {
    ReachableInv(w);
    first := CompatibleRoundRuns(w, ds);
    hide Inv, TreesValid, Compatible, Reachable, PassesRun;
    EveryoneTakesPart(w, ds, first);
    second := TwoRoundsConverge(w, first, es);
  }

  lemma {:induction false} SameDevices(w: World, ps: seq<QuietPass>)
    requires PassesRun(w, ps)
    ensures AfterPasses(w, ps).devices.Keys == w.devices.Keys
    decreases |ps|
  {
    if ps != [] {
      PassEffect(w, ps[0]);
      SameDevices(Exec(w, StepsOf(ps[0])), ps[1..]);
    }
  }

  /** Once every device is at the head, whatever passes follow change no tree, no base
      and no head. */
  lemma ConvergedIsStable(w: World, ps: seq<QuietPass>)
    requires PassesRun(w, ps) && forall d :: d in w.devices ==> AtHead(w, d)
    ensures AfterPasses(w, ps).log == w.log
    ensures forall d :: d in w.devices ==> AtHead(AfterPasses(w, ps), d)
    ensures forall i :: 0 <= i < |ps| ==> !ps[i].publishes
  {
    SettledRound(w, ps);
  }

  /** In the second round no merge can be invalid, so no pass can be refused: a settled
      device merges to the head itself. */
  lemma SettledPassRuns(w: World, p: QuietPass)
    requires Inv(w) && Settled(w, p.d) && Valid(w.devices[p.d].tree) && IsMergeOf(w, p)
    ensures Runs(w, StepsOf(p)) && !p.publishes
  {
    SettledIsNotBlocked(w, p.d);
    PassRunsIff(w, p);
    SettledPassFollows(w, p);
  }
}
