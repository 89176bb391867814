/** The attempts of one converge pass as moves of the protocol: what a device does itself,
    and what it sees other devices publish meanwhile (crates/core/src/converge.rs). */
module Attempts {
  import opened Manifests
  import opened Merging
  import opened Disks
  import opened Materializing
  import opened Tracking
  import opened Protocol

  // ---------- one device's view of a run ----------

  datatype Move = Own(step: Step) | Foreign(head: Head)

  /** All that a device can see: the head log and itself. */
  function View(w: World, d: Id): World
    requires d in w.devices
  {
    World(w.log, map[d := w.devices[d]])
  }

  ghost predicate CanMove(w: World, d: Id, m: Move) {
    match m
    case Own(s) => s.d == d && Enabled(w, s)
    case Foreign(h) => h.author != d
  }

  function Moved(w: World, m: Move): World
    requires m.Own? ==> Enabled(w, m.step)
  {
    match m
    case Own(s) => After(w, s)
    case Foreign(h) => w.(log := w.log + [h])
  }

  ghost predicate Plays(w: World, d: Id, moves: seq<Move>)
    decreases |moves|
  {
    moves == [] || (CanMove(w, d, moves[0]) && Plays(Moved(w, moves[0]), d, moves[1..]))
  }

  function Play(w: World, d: Id, moves: seq<Move>): World
    requires Plays(w, d, moves)
    decreases |moves|
  {
    if moves == [] then w else Play(Moved(w, moves[0]), d, moves[1..])
  }

  /** What a step of another device shows of itself: the head that it published, if any. */
  function News(before: seq<Head>, after: seq<Head>): seq<Move> {
    if |after| > |before| then [Foreign(after[|after| - 1])] else []
  }

  function SeenOf(w: World, d: Id, s: Step): seq<Move>
    requires Enabled(w, s)
  {
    if s.d == d then [Own(s)] else News(w.log, After(w, s).log)
  }

  /** A run of the protocol as device `d` sees it. */
  function Seen(w: World, d: Id, steps: seq<Step>): seq<Move>
    requires Runs(w, steps)
    decreases |steps|
  {
    if steps == [] then [] else SeenOf(w, d, steps[0]) + Seen(After(w, steps[0]), d, steps[1..])
  }

  /** A device's own step needs and changes nothing that the device cannot see. */
  lemma OwnStep(w: World, d: Id, s: Step)
    requires d in w.devices && s.d == d
    ensures Enabled(w, s) <==> Enabled(View(w, d), s)
    ensures Enabled(w, s) ==> View(After(w, s), d) == After(View(w, d), s)
    ensures Enabled(w, s) ==> forall e :: e in w.devices && e != d ==> After(w, s).devices[e] == w.devices[e]
  {
    hide Outcome, Valid, WithLocalCopies, AfterEdit, AfterCopies;
  }

  /** A step of another device at most adds a head of that device. */
  lemma OtherStep(w: World, d: Id, s: Step)
    requires d in w.devices && s.d != d && Enabled(w, s)
    ensures d in After(w, s).devices
    ensures Plays(View(w, d), d, SeenOf(w, d, s)) && Play(View(w, d), d, SeenOf(w, d, s)) == View(After(w, s), d)
  {
    hide Outcome, Valid, WithLocalCopies, AfterEdit, AfterCopies;
    var news := News(w.log, After(w, s).log);
    if news != [] {
      assert After(w, s).log == w.log + [news[0].head];
      assert news[1..] == [];
    }
  }

  lemma {:induction false} PlaysConcat(w: World, d: Id, a: seq<Move>, b: seq<Move>)
    ensures Plays(w, d, a + b) <==> Plays(w, d, a) && Plays(Play(w, d, a), d, b)
    ensures Plays(w, d, a + b) ==> Play(w, d, a + b) == Play(Play(w, d, a), d, b)
    decreases |a|
  {
    hide CanMove, Moved;
    if a == [] {
      assert a + b == b;
    } else {
      assert (a + b)[0] == a[0] && (a + b)[1..] == a[1..] + b;
      if CanMove(w, d, a[0]) {
        OwnMoveIsEnabled(w, d, a[0]);
        PlaysConcat(Moved(w, a[0]), d, a[1..], b);
      }
    }
  }

  lemma OwnMoveIsEnabled(w: World, d: Id, m: Move)
    requires CanMove(w, d, m)
    ensures m.Own? ==> Enabled(w, m.step)
  {
  }

  /** Every run, seen from one device, is a play of that device: nothing of it depends on
      what the device cannot see. */
  lemma {:induction false} SeenPlays(w: World, d: Id, steps: seq<Step>)
    requires Runs(w, steps) && d in w.devices
    ensures d in Exec(w, steps).devices
    ensures Plays(View(w, d), d, Seen(w, d, steps)) && Play(View(w, d), d, Seen(w, d, steps)) == View(Exec(w, steps), d)
    decreases |steps|
  {
    if steps != [] {
      StepSeen(w, d, steps[0]);
      hide Enabled, After, SeenOf, View;
      SeenPlays(After(w, steps[0]), d, steps[1..]);
      PlaysConcat(View(w, d), d, SeenOf(w, d, steps[0]), Seen(After(w, steps[0]), d, steps[1..]));
    }
  }

  lemma StepSeen(w: World, d: Id, s: Step)
    requires d in w.devices && Enabled(w, s)
    ensures d in After(w, s).devices
    ensures Plays(View(w, d), d, SeenOf(w, d, s)) && Play(View(w, d), d, SeenOf(w, d, s)) == View(After(w, s), d)
  {
    if s.d == d {
      OwnStep(w, d, s);
      hide Enabled, View, After;
      assert [Own(s)][1..] == [];
      assert CanMove(View(w, d), d, Own(s));
      InWorld(w, d, s);
    } else {
      OtherStep(w, d, s);
    }
  }

  lemma InWorld(w: World, d: Id, s: Step)
    requires d in w.devices && Enabled(w, s)
    ensures d in After(w, s).devices
  {
    hide Outcome, Valid, WithLocalCopies, AfterEdit, AfterCopies;
  }

  /** In the world `w` the foreign heads of a play are really published, each by a run of
      steps of other devices, as long as the device can do its own steps in between. */
  ghost predicate Backed(w: World, d: Id, moves: seq<Move>, others: seq<seq<Step>>)
    decreases |moves|
  {
    && |others| == |moves|
    && (moves == [] ||
        match moves[0]
        case Own(s) => others[0] == [] && (Enabled(w, s) ==> Backed(After(w, s), d, moves[1..], others[1..]))
        case Foreign(h) =>
          && Runs(w, others[0])
          && (forall i :: 0 <= i < |others[0]| ==> others[0][i].d != d)
          && Seen(w, d, others[0]) == [Foreign(h)]
          && Backed(Exec(w, others[0]), d, moves[1..], others[1..]))
  }

  lemma {:induction false} RunsConcat(w: World, d: Id, a: seq<Step>, b: seq<Step>)
    ensures Runs(w, a + b) <==> Runs(w, a) && Runs(Exec(w, a), b)
    ensures Runs(w, a + b) ==>
              Exec(w, a + b) == Exec(Exec(w, a), b) && Seen(w, d, a + b) == Seen(w, d, a) + Seen(Exec(w, a), d, b)
    decreases |a|
  {
    hide Enabled, After, SeenOf;
    if a == [] {
      assert a + b == b;
    } else {
      assert (a + b)[0] == a[0] && (a + b)[1..] == a[1..] + b;
      if Enabled(w, a[0]) {
        RunsConcat(After(w, a[0]), d, a[1..], b);
      }
    }
  }

  /** The other way round: a play whose foreign heads other devices publish is woven with
      their steps into one run of the protocol, in which the device does the same moves and
      ends in the same state. */
  lemma {:induction false} Weave(w: World, d: Id, moves: seq<Move>, others: seq<seq<Step>>) returns (steps: seq<Step>)
    requires d in w.devices && Plays(View(w, d), d, moves) && Backed(w, d, moves, others)
    ensures Runs(w, steps) && Seen(w, d, steps) == moves
    ensures d in Exec(w, steps).devices
    ensures Play(View(w, d), d, moves) == View(Exec(w, steps), d)
    decreases |moves|
  {
    steps := [];
    if moves != [] {
      var now := if moves[0].Own? then [moves[0].step] else others[0];
      OneMove(w, d, moves, others, now);
      hide Enabled, After, Backed, SeenOf, View;
      var rest := Weave(Exec(w, now), d, moves[1..], others[1..]);
      RunsConcat(w, d, now, rest);
      assert moves == [moves[0]] + moves[1..];
      steps := now + rest;
    }
    SeenPlays(w, d, steps);
  }

  lemma OneMove(w: World, d: Id, moves: seq<Move>, others: seq<seq<Step>>, now: seq<Step>)
    requires d in w.devices && Plays(View(w, d), d, moves) && Backed(w, d, moves, others) && moves != []
    requires now == if moves[0].Own? then [moves[0].step] else others[0]
    ensures Runs(w, now) && Seen(w, d, now) == [moves[0]] && d in Exec(w, now).devices
    ensures Plays(View(Exec(w, now), d), d, moves[1..]) && Backed(Exec(w, now), d, moves[1..], others[1..])
  {
    hide Enabled, After, SeenOf;
    if moves[0].Own? {
      OwnStep(w, d, moves[0].step);
      OneStep(w, d, moves[0].step);
    } else {
      hide Runs, Exec, Seen;
      SeenPlays(w, d, now);
      assert [moves[0]][1..] == [];
    }
  }

  lemma OneStep(w: World, d: Id, s: Step)
    requires d in w.devices && s.d == d && Enabled(w, s)
    ensures Runs(w, [s]) && Exec(w, [s]) == After(w, s) && Seen(w, d, [s]) == [Own(s)] && d in After(w, s).devices
  {
    InWorld(w, d, s);
    hide Enabled, After;
    assert [s][1..] == [];
  }

  // ---------- attempts ----------

  /** How an attempt that put its merge on disk went on. `Followed`: it had nothing to publish
      and committed the head. `Won`: it published and committed. `Beaten`: another writer was
      faster. `Unsent`: it stopped without having sent a head. `Unconfirmed`: it sent its
      head and stopped before it had committed it. */
  datatype Ending = Followed | Won | Beaten | Unsent | Unconfirmed

  /** One attempt. `race` is what other writers published while it ran, `tree` what it left
      on disk. It may stop before it touches the disk, or midway through the materialize. */
  datatype Trial =
    | Stopped(race: seq<Head>)
    | Torn(race: seq<Head>, files: Files, copies: seq<ConflictCopy>, tree: Files)
    | Through(race: seq<Head>, files: Files, copies: seq<ConflictCopy>, tree: Files, ending: Ending)

  /** The next merge of the device. */
  ghost predicate Merges(w: World, d: Id, files: Files, copies: seq<ConflictCopy>)
    requires d in w.devices && w.devices[d].phase.Started?
  {
    Valid(files) && Outcome(w.devices[d].phase.pass.base, w.devices[d].tree, Current(w.log), files, copies)
  }

  /** `tree` is a state in which putting this merge on disk can stop. */
  ghost predicate Halfway(local: Files, remote: Files, files: Files, copies: seq<ConflictCopy>, tree: Files) {
    exists start, stop :: HalfwayFrom(start, local, remote, files, copies, stop) && stop.files == tree
  }

  ghost predicate HalfwayFrom(start: Snapshot, local: Files, remote: Files, files: Files, copies: seq<ConflictCopy>,
                              stop: Snapshot) {
    start.files == local && MidMaterialize(start, remote, files, copies, stop)
  }

  predicate NothingToPublish(w: World, files: Files) {
    files == Current(w.log) && |w.log| > 0
  }

  predicate EndsWell(w: World, race: seq<Head>, files: Files, ending: Ending) {
    match ending
    case Followed => NothingToPublish(w, files)
    case Won => !NothingToPublish(w, files) && race == []
    case Beaten => !NothingToPublish(w, files) && race != []
    case Unsent => true
    case Unconfirmed => !NothingToPublish(w, files)
  }

  /** `t` is an attempt that the device can make now. */
  ghost predicate Fits(w: World, d: Id, t: Trial) {
    && d in w.devices && w.devices[d].phase.Started?
    && (forall i :: 0 <= i < |t.race| ==> t.race[i].author != d)
    && match t
       case Stopped(_) => true
       case Torn(_, files, copies, tree) =>
         Merges(w, d, files, copies) && Halfway(w.devices[d].tree, Current(w.log), files, copies, tree)
       case Through(race, files, copies, tree, ending) =>
         && Merges(w, d, files, copies)
         && tree == Landing(w.devices[d].tree, copies, files)
         && EndsWell(w, race, files, ending)
  }

  function NextPass(pass: Pass): Pass {
    pass.(attempt := pass.attempt + 1)
  }

  function MergeOf(w: World, d: Id, files: Files, copies: seq<ConflictCopy>): Merged
    requires d in w.devices
  {
    Merged(|w.log|, w.devices[d].tree, Current(w.log), files, copies, w.devices[d].since)
  }

  /** The device once its merge is on disk. Where an entry does not land exactly, the tree
      differs from the merge as if it had been edited. */
  function PlacedAs(w: World, d: Id, t: Trial): Device
    requires d in w.devices && w.devices[d].phase.Started? && t.Through?
  {
    var dev := w.devices[d];
    Edited(PlacedOnDisk(dev.(recent := NOTHING), NextPass(dev.phase.pass), MergeOf(w, d, t.files, t.copies)), t.tree)
  }

  function Publishes(t: Trial): bool {
    t.Through? && t.race == [] && (t.ending.Won? || t.ending.Unconfirmed?)
  }

  function DeviceAfter(w: World, d: Id, t: Trial): Device
    requires d in w.devices && w.devices[d].phase.Started?
  {
    var dev := w.devices[d];
    match t
    case Stopped(_) => dev.(phase := Idle)
    case Torn(_, _, _, tree) => Edited(dev.(recent := NOTHING, phase := Idle), tree)
    case Through(_, files, copies, _, ending) =>
      var placed := PlacedAs(w, d, t);
      match ending
      case Followed => Committed(placed, files, |w.log|)
      case Won => Committed(placed, files, |w.log| + 1)
      case Beaten => placed.(phase := LostRace(NextPass(dev.phase.pass), MergeOf(w, d, files, copies)))
      case _ => placed.(phase := Idle)
  }

  function OwnHead(w: World, d: Id, t: Trial): seq<Head>
    requires d in w.devices && w.devices[d].phase.Started?
  {
    if Publishes(t) then [Published(d, NextPass(w.devices[d].phase.pass), MergeOf(w, d, t.files, t.copies))] else []
  }

  function AfterTrial(w: World, d: Id, t: Trial): World
    requires d in w.devices && w.devices[d].phase.Started?
  {
    World(w.log + t.race + OwnHead(w, d, t), w.devices[d := DeviceAfter(w, d, t)])
  }

  /** The world after these attempts, if each of them could be made. */
  ghost function AfterTrials(w: World, d: Id, ts: seq<Trial>): Option<World>
    decreases |ts|
  {
    if ts == [] then Some(w)
    else
      var n := |ts| - 1;
      match AfterTrials(w, d, ts[..n])
      case None => None
      case Some(w') => if Fits(w', d, ts[n]) then Some(AfterTrial(w', d, ts[n])) else None
  }

  lemma OneMoreTrial(w: World, d: Id, ts: seq<Trial>, t: Trial)
    ensures AfterTrials(w, d, ts + [t])
         == match AfterTrials(w, d, ts)
            case None => None
            case Some(w') => if Fits(w', d, t) then Some(AfterTrial(w', d, t)) else None
  {
    assert (ts + [t])[..|ts|] == ts;
  }

  // ---------- attempts are moves ----------

  function RaceMoves(race: seq<Head>): seq<Move> {
    if race == [] then [] else RaceMoves(race[..|race| - 1]) + [Foreign(race[|race| - 1])]
  }

  function EndingMoves(d: Id, ending: Ending): seq<Move> {
    match ending
    case Followed => [Own(Adopt(d))]
    case Won => [Own(PutHead(d)), Own(Commit(d))]
    case Beaten => [Own(PutHead(d))]
    case Unsent => [Own(Crash(d))]
    case Unconfirmed => [Own(PutHead(d)), Own(Crash(d))]
  }

  function OwnMoves(d: Id, t: Trial): seq<Move> {
    match t
    case Stopped(_) => [Own(Crash(d))]
    case Torn(_, files, copies, tree) => [Own(ScanAndMerge(d, files, copies)), Own(Crash(d)), Own(Edit(d, tree))]
    case Through(_, files, copies, tree, ending) =>
      [Own(ScanAndMerge(d, files, copies)), Own(Place(d)), Own(Edit(d, tree))] + EndingMoves(d, ending)
  }

  function MovesOf(d: Id, t: Trial): seq<Move> {
    [Own(GetHead(d))] + RaceMoves(t.race) + OwnMoves(d, t)
  }

  function AllMoves(d: Id, ts: seq<Trial>): seq<Move> {
    if ts == [] then [] else AllMoves(d, ts[..|ts| - 1]) + MovesOf(d, ts[|ts| - 1])
  }

  lemma OwnPlay(w: World, d: Id, s: Step)
    requires s.d == d
    ensures Plays(w, d, [Own(s)]) <==> Enabled(w, s)
    ensures Enabled(w, s) ==> Play(w, d, [Own(s)]) == After(w, s)
  {
    hide Enabled, After;
    assert [Own(s)][1..] == [];
  }

  lemma {:induction false} RacePlays(w: World, d: Id, race: seq<Head>)
    requires forall i :: 0 <= i < |race| ==> race[i].author != d
    ensures Plays(w, d, RaceMoves(race)) && Play(w, d, RaceMoves(race)) == w.(log := w.log + race)
    decreases |race|
  {
    if race == [] {
      assert w.log + race == w.log;
    } else {
      var n := |race| - 1;
      var before := w.(log := w.log + race[..n]);
      RacePlays(w, d, race[..n]);
      PlaysConcat(w, d, RaceMoves(race[..n]), [Foreign(race[n])]);
      assert [Foreign(race[n])][1..] == [];
      assert before.log + [race[n]] == w.log + race;
    }
  }

  /** The device with the head in hand. */
  function FetchedBy(w: World, d: Id, race: seq<Head>): World
    requires d in w.devices && w.devices[d].phase.Started?
  {
    var dev := w.devices[d];
    World(w.log + race, w.devices[d := dev.(phase := Fetched(NextPass(dev.phase.pass), |w.log|, Current(w.log)))])
  }

  lemma FetchPlays(w: World, d: Id, t: Trial)
    requires Fits(w, d, t)
    ensures Plays(w, d, [Own(GetHead(d))] + RaceMoves(t.race))
    ensures Play(w, d, [Own(GetHead(d))] + RaceMoves(t.race)) == FetchedBy(w, d, t.race)
  {
    hide Outcome, Valid, Halfway, Landing;
    OwnPlay(w, d, GetHead(d));
    RacePlays(After(w, GetHead(d)), d, t.race);
    PlaysConcat(w, d, [Own(GetHead(d))], RaceMoves(t.race));
  }

  lemma TornPlays(w: World, d: Id, t: Trial)
    requires Fits(w, d, t) && t.Torn?
    ensures Plays(FetchedBy(w, d, t.race), d, OwnMoves(d, t))
    ensures Play(FetchedBy(w, d, t.race), d, OwnMoves(d, t)) == AfterTrial(w, d, t)
  {
    hide Outcome, Valid, Halfway, AfterEdit;
    var w0 := FetchedBy(w, d, t.race);
    var merge, crash, edit := ScanAndMerge(d, t.files, t.copies), Crash(d), Edit(d, t.tree);
    OwnPlay(w0, d, merge);
    var w1 := After(w0, merge);
    OwnPlay(w1, d, crash);
    var w2 := After(w1, crash);
    OwnPlay(w2, d, edit);
    PlaysConcat(w1, d, [Own(crash)], [Own(edit)]);
    PlaysConcat(w0, d, [Own(merge)], [Own(crash)] + [Own(edit)]);
    assert OwnMoves(d, t) == [Own(merge)] + ([Own(crash)] + [Own(edit)]);
    assert After(w2, edit) == AfterTrial(w, d, t);
  }

  /** The world when the merge is on disk. */
  function PlacedBy(w: World, d: Id, t: Trial): World
    requires d in w.devices && w.devices[d].phase.Started? && t.Through?
  {
    World(w.log + t.race, w.devices[d := PlacedAs(w, d, t)])
  }

  lemma PlacePlays(w: World, d: Id, t: Trial)
    requires Fits(w, d, t) && t.Through?
    ensures var moves := [Own(ScanAndMerge(d, t.files, t.copies)), Own(Place(d)), Own(Edit(d, t.tree))];
            Plays(FetchedBy(w, d, t.race), d, moves) && Play(FetchedBy(w, d, t.race), d, moves) == PlacedBy(w, d, t)
  {
    hide Outcome, Valid, AfterEdit, AfterCopies, WithLocalCopies, Landing;
    var w0 := FetchedBy(w, d, t.race);
    var merge, place, edit := ScanAndMerge(d, t.files, t.copies), Place(d), Edit(d, t.tree);
    OwnPlay(w0, d, merge);
    var w1 := After(w0, merge);
    OwnPlay(w1, d, place);
    var w2 := After(w1, place);
    OwnPlay(w2, d, edit);
    PlaysConcat(w1, d, [Own(place)], [Own(edit)]);
    PlaysConcat(w0, d, [Own(merge)], [Own(place)] + [Own(edit)]);
    assert [Own(merge), Own(place), Own(edit)] == [Own(merge)] + ([Own(place)] + [Own(edit)]);
    assert After(w2, edit) == PlacedBy(w, d, t);
  }

  lemma EndingPlays(w: World, d: Id, t: Trial)
    requires Fits(w, d, t) && t.Through?
    ensures Plays(PlacedBy(w, d, t), d, EndingMoves(d, t.ending))
    ensures Play(PlacedBy(w, d, t), d, EndingMoves(d, t.ending)) == AfterTrial(w, d, t)
  {
    hide Outcome, Valid, AfterEdit, AfterCopies, WithLocalCopies, Landing;
    var w0 := PlacedBy(w, d, t);
    assert UpToDate(MergeOf(w, d, t.files, t.copies)) == NothingToPublish(w, t.files);
    assert |w.log + t.race| == |w.log| <==> t.race == [];
    match t.ending {
      case Followed => OwnPlay(w0, d, Adopt(d));
      case Won =>
        OwnPlay(w0, d, PutHead(d));
        OwnPlay(After(w0, PutHead(d)), d, Commit(d));
        PlaysConcat(w0, d, [Own(PutHead(d))], [Own(Commit(d))]);
      case Beaten => OwnPlay(w0, d, PutHead(d));
      case Unsent => OwnPlay(w0, d, Crash(d));
      case Unconfirmed =>
        OwnPlay(w0, d, PutHead(d));
        OwnPlay(After(w0, PutHead(d)), d, Crash(d));
        PlaysConcat(w0, d, [Own(PutHead(d))], [Own(Crash(d))]);
    }
  }

  lemma OwnMovesPlay(w: World, d: Id, t: Trial)
    requires Fits(w, d, t)
    ensures Plays(FetchedBy(w, d, t.race), d, OwnMoves(d, t))
    ensures Play(FetchedBy(w, d, t.race), d, OwnMoves(d, t)) == AfterTrial(w, d, t)
  {
    match t {
      case Stopped(race) =>
        OwnPlay(FetchedBy(w, d, race), d, Crash(d));
        assert w.log + race + [] == w.log + race;
      case Torn(_, _, _, _) => TornPlays(w, d, t);
      case Through(race, files, copies, tree, ending) =>
        PlacePlays(w, d, t);
        EndingPlays(w, d, t);
        hide Fits, FetchedBy, PlacedBy, AfterTrial;
        PlaysConcat(FetchedBy(w, d, race), d, [Own(ScanAndMerge(d, files, copies)), Own(Place(d)), Own(Edit(d, tree))],
                    EndingMoves(d, ending));
    }
  }

  /** An attempt is the step sequence of the protocol: get the head, merge, place, then adopt
      or publish and commit, broken off at any point, with the heads of others in between. */
  lemma TrialPlays(w: World, d: Id, t: Trial)
    requires Fits(w, d, t)
    ensures Plays(w, d, MovesOf(d, t)) && Play(w, d, MovesOf(d, t)) == AfterTrial(w, d, t)
  {
    FetchPlays(w, d, t);
    OwnMovesPlay(w, d, t);
    PlaysConcat(w, d, [Own(GetHead(d))] + RaceMoves(t.race), OwnMoves(d, t));
  }

  lemma {:induction false} TrialsPlay(w: World, d: Id, ts: seq<Trial>)
    requires AfterTrials(w, d, ts).Some?
    ensures Plays(w, d, AllMoves(d, ts)) && Play(w, d, AllMoves(d, ts)) == AfterTrials(w, d, ts).value
    decreases |ts|
  {
    hide Fits, MovesOf, AfterTrial;
    if ts != [] {
      var n := |ts| - 1;
      TrialsPlay(w, d, ts[..n]);
      TrialPlays(AfterTrials(w, d, ts[..n]).value, d, ts[n]);
      PlaysConcat(w, d, AllMoves(d, ts[..n]), MovesOf(d, ts[n]));
    }
  }

  // ---------- what a pass publishes ----------

  function RacesOf(ts: seq<Trial>): seq<Head> {
    if ts == [] then [] else RacesOf(ts[..|ts| - 1]) + ts[|ts| - 1].race
  }

  predicate IsBeaten(t: Trial) {
    t.Through? && t.ending == Beaten
  }

  /** The state in which the last attempt begins. */
  ghost function BeforeLast(w: World, d: Id, ts: seq<Trial>): Option<World> {
    if ts == [] then None else AfterTrials(w, d, ts[..|ts| - 1])
  }

  lemma TrialsBefore(w: World, d: Id, ts: seq<Trial>)
    requires AfterTrials(w, d, ts).Some? && ts != []
    ensures BeforeLast(w, d, ts).Some? && Fits(BeforeLast(w, d, ts).value, d, ts[|ts| - 1])
    ensures AfterTrials(w, d, ts).value == AfterTrial(BeforeLast(w, d, ts).value, d, ts[|ts| - 1])
  {
    hide Fits, AfterTrial;
  }

  lemma OnlyBeatenGoOn(w: World, d: Id, t: Trial, next: Trial)
    requires Fits(w, d, t) && Fits(AfterTrial(w, d, t), d, next)
    ensures IsBeaten(t)
  {
    hide Outcome, Valid, Halfway, Landing, WithLocalCopies, AfterEdit, AfterCopies;
  }

  lemma {:induction false} EarlierWereBeaten(w: World, d: Id, ts: seq<Trial>)
    requires AfterTrials(w, d, ts).Some? && ts != []
    ensures forall i :: 0 <= i < |ts| - 1 ==> IsBeaten(ts[i])
    decreases |ts|
  {
    hide Fits, AfterTrial, IsBeaten, AfterTrials, BeforeLast;
    var n := |ts| - 1;
    if n > 0 {
      AttemptAndBefore(w, d, ts);
      EarlierWereBeaten(w, d, ts[..n]);
      assert forall i :: 0 <= i < n - 1 ==> ts[..n][i] == ts[i];
    }
  }

  lemma AttemptAndBefore(w: World, d: Id, ts: seq<Trial>)
    requires AfterTrials(w, d, ts).Some? && |ts| > 1
    ensures AfterTrials(w, d, ts[..|ts| - 1]).Some? && IsBeaten(ts[|ts| - 2])
  {
    hide Fits, AfterTrial, IsBeaten;
    var n := |ts| - 1;
    TrialsBefore(w, d, ts);
    TrialsBefore(w, d, ts[..n]);
    OnlyBeatenGoOn(BeforeLast(w, d, ts[..n]).value, d, ts[n - 1], ts[n]);
  }

  lemma {:induction false} BeatenPublishNothing(w: World, d: Id, ts: seq<Trial>)
    requires AfterTrials(w, d, ts).Some? && forall i :: 0 <= i < |ts| ==> IsBeaten(ts[i])
    ensures AfterTrials(w, d, ts).value.log == w.log + RacesOf(ts)
    decreases |ts|
  {
    if ts == [] {
      assert w.log + [] == w.log;
    } else {
      var n := |ts| - 1;
      TrialsBefore(w, d, ts);
      hide Fits, AfterTrials, AfterTrial, BeforeLast;
      assert BeforeLast(w, d, ts) == AfterTrials(w, d, ts[..n]) by {
        BeforeLastIs(w, d, ts);
      }
      BeatenPublishNothing(w, d, ts[..n]);
      var before := AfterTrials(w, d, ts[..n]).value;
      BeatenLog(before, d, ts[n]);
      RacesSnoc(w.log, ts);
    }
  }

  lemma BeforeLastIs(w: World, d: Id, ts: seq<Trial>)
    requires ts != []
    ensures BeforeLast(w, d, ts) == AfterTrials(w, d, ts[..|ts| - 1])
  {
    hide AfterTrials;
  }

  lemma BeatenLog(w: World, d: Id, t: Trial)
    requires Fits(w, d, t) && IsBeaten(t)
    ensures AfterTrial(w, d, t).log == w.log + t.race
  {
    hide DeviceAfter, Merges, Landing;
    assert w.log + t.race + [] == w.log + t.race;
  }

  lemma RacesSnoc(log: seq<Head>, ts: seq<Trial>)
    requires ts != []
    ensures log + RacesOf(ts[..|ts| - 1]) + ts[|ts| - 1].race == log + RacesOf(ts)
  {
  }

  /** A pass adds at most one head of its own, as its last act: every attempt before the last
      lost its race and left nothing on the relay. */
  lemma PassPublishesOnce(w: World, d: Id, ts: seq<Trial>)
    requires AfterTrials(w, d, ts).Some? && ts != []
    ensures BeforeLast(w, d, ts).Some? && Fits(BeforeLast(w, d, ts).value, d, ts[|ts| - 1])
    ensures forall i :: 0 <= i < |ts| - 1 ==> IsBeaten(ts[i])
    ensures BeforeLast(w, d, ts).value.log == w.log + RacesOf(ts[..|ts| - 1])
    ensures AfterTrials(w, d, ts).value.log == w.log + RacesOf(ts) + OwnHead(BeforeLast(w, d, ts).value, d, ts[|ts| - 1])
  {
    var n := |ts| - 1;
    TrialsBefore(w, d, ts);
    EarlierWereBeaten(w, d, ts);
    hide Fits, AfterTrials, AfterTrial, IsBeaten, OwnHead, BeforeLast;
    BeforeLastIs(w, d, ts);
    BeatenPublishNothing(w, d, ts[..n]);
    var before := BeforeLast(w, d, ts).value;
    FitsStarted(before, d, ts[n]);
    assert AfterTrial(before, d, ts[n]).log == before.log + ts[n].race + OwnHead(before, d, ts[n]) by {
      LogAfter(before, d, ts[n]);
    }
    RacesSnoc(w.log, ts);
  }

  lemma FitsStarted(w: World, d: Id, t: Trial)
    requires Fits(w, d, t)
    ensures d in w.devices && w.devices[d].phase.Started?
  {
  }

  lemma LogAfter(w: World, d: Id, t: Trial)
    requires d in w.devices && w.devices[d].phase.Started?
    ensures AfterTrial(w, d, t).log == w.log + t.race + OwnHead(w, d, t)
  {
    hide DeviceAfter, OwnHead;
  }

  /** A pass that starts in the world `w`, with the attempts `ts` that its device makes: if
      other devices do publish the heads that it meets, it is part of a run of the protocol,
      and the run leaves log and device as the pass does. */
  lemma PassIsARun(w: World, d: Id, ts: seq<Trial>, others: seq<seq<Step>>) returns (steps: seq<Step>)
    requires d in w.devices && w.devices[d].phase.Idle?
    requires AfterTrials(After(View(w, d), Begin(d)), d, ts).Some?
    requires Backed(w, d, [Own(Begin(d))] + AllMoves(d, ts), others)
    ensures Runs(w, steps) && d in Exec(w, steps).devices
    ensures View(Exec(w, steps), d) == AfterTrials(After(View(w, d), Begin(d)), d, ts).value
  {
    var moves := [Own(Begin(d))] + AllMoves(d, ts);
    OwnPlay(View(w, d), d, Begin(d));
    hide AfterTrials, Backed, Runs, Exec, AllMoves;
    TrialsPlay(After(View(w, d), Begin(d)), d, ts);
    PlaysConcat(View(w, d), d, [Own(Begin(d))], AllMoves(d, ts));
    steps := Weave(w, d, moves, others);
  }
}
