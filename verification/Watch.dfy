/** The watch loop: triggers, debouncing, retries, and why no change is missed
    (crates/core/src/watch.rs). Time is a script of what happens, in order. */
module Watching {
  import opened Manifests

  /** A notification of the file system watcher: an error, or the paths it names. */
  datatype FsEvent = WatcherError | Changed(paths: seq<Path>)

  datatype Trigger = Fs(event: FsEvent) | External

  /** What the loop can observe. A cycle ends with `CycleEnds`; `Silence` is a wait that
      runs out of its timeout. */
  datatype Observation = Arrives(trigger: Trigger) | Silence | Hangup | CycleEnds(outcome: Outcome)

  datatype Outcome = Succeeded | Failed | StopWatching

  /** Where the loop is when the script runs out, or why it has ended. */
  datatype Ending = Blocked | AwaitingRetry | Coalescing | InCycle | Stopped | SourceGone | Disconnected

  datatype Received = Got(trigger: Trigger) | TimedOut | Closed | Exhausted

  /** An event without paths is a rescan notice and must never be ignored. */
  predicate IsPearOnly(event: FsEvent, pearDir: Path) {
    event.Changed? && event.paths != [] && forall i :: 0 <= i < |event.paths| ==> pearDir <= event.paths[i]
  }

  /** A trigger that asks for a cycle. */
  predicate Relevant(t: Trigger, pearDir: Path) {
    t.External? || !IsPearOnly(t.event, pearDir)
  }

  function Arrivals(script: seq<Observation>): seq<Trigger> {
    if script == [] then []
    else
      var last := script[|script| - 1];
      Arrivals(script[..|script| - 1]) + if last.Arrives? then [last.trigger] else []
  }

  /** Every relevant trigger that came in since `start` is still on the queue. */
  ghost predicate StillQueued(script: seq<Observation>, start: nat, pos: nat, queue: seq<Trigger>, pearDir: Path)
    requires start <= pos <= |script|
  {
    forall i :: start <= i < pos && script[i].Arrives? && Relevant(script[i].trigger, pearDir) ==>
      script[i].trigger in queue
  }

  /** No relevant trigger has come in since `start`. */
  ghost predicate NoneSince(script: seq<Observation>, start: nat, pearDir: Path)
    requires start <= |script|
  {
    forall i :: start <= i < |script| && script[i].Arrives? ==> !Relevant(script[i].trigger, pearDir)
  }

  /** What a wait passes over: it is not told of, or without a timeout waits out. */
  ghost predicate Skips(script: seq<Observation>, from: nat, end: nat, timed: bool)
    requires from <= end <= |script|
  {
    forall i :: from <= i < end ==> script[i].CycleEnds? || (script[i] == Silence && !timed)
  }

  /** The cycle that starts at `start` ends at `e`, like that. */
  ghost predicate EndsAt(script: seq<Observation>, start: nat, e: nat, outcome: Outcome) {
    start <= e < |script| && script[e] == CycleEnds(outcome) && forall i :: start <= i < e ==> !script[i].CycleEnds?
  }

  ghost predicate EndsAs(script: seq<Observation>, start: nat, outcome: Outcome) {
    exists e :: EndsAt(script, start, e, outcome)
  }

  // ---------- what is due ----------

  ghost predicate RelevantIn(script: seq<Observation>, start: nat, end: nat, pearDir: Path) {
    exists i :: start <= i < end <= |script| && script[i].Arrives? && Relevant(script[i].trigger, pearDir)
  }

  /** What ends a window: silence, or one more trigger after it has been open for too long. */
  ghost predicate Closes(script: seq<Observation>, pos: nat, expired: nat -> bool) {
    pos < |script| && (script[pos] == Silence || (script[pos].Arrives? && expired(pos + 1)))
  }

  /** A file event is waiting for its burst to end: it came in since the cycle from `start` to
      `e` began, and no window has been closed since. */
  ghost predicate WindowOpen(script: seq<Observation>, start: nat, e: nat, pos: nat, expired: nat -> bool) {
    exists i :: Opens(script, start, e, pos, i, expired)
  }

  ghost predicate Opens(script: seq<Observation>, start: nat, e: nat, pos: nat, i: nat, expired: nat -> bool) {
    && start <= i < |script| && (i < pos || i < e) && pos <= |script|
    && script[i].Arrives? && script[i].trigger.Fs?
    && forall s :: i < s < pos && e < s ==> !Closes(script, s, expired)
  }

  /** At `pos` the next cycle is due: a window closes on something relevant, a failed cycle is
      followed by silence, or a kick comes in while no window is open. */
  ghost predicate Due(script: seq<Observation>, start: nat, e: nat, pos: nat, expired: nat -> bool, pearDir: Path) {
    && e < |script| && start <= pos < |script|
    && (|| (e < pos && Closes(script, pos, expired) && RelevantIn(script, start, pos, pearDir))
        || (e < pos && script[pos] == Silence && script[e] == CycleEnds(Failed) && !WindowOpen(script, start, e, pos, expired))
        || (script[pos] == Arrives(External) && !WindowOpen(script, start, e, pos, expired)))
  }

  ghost predicate NoHangup(script: seq<Observation>, e: nat, end: nat) {
    forall h :: e < h < end && h < |script| ==> script[h] != Hangup
  }

  /** Up to `end` the next cycle has not been due, and the channel is open. */
  ghost predicate NothingDue(script: seq<Observation>, start: nat, e: nat, end: nat, expired: nat -> bool, pearDir: Path) {
    NoHangup(script, e, end) && forall pos :: start <= pos < end ==> !Due(script, start, e, pos, expired, pearDir)
  }

  /** Once the next cycle was due, and the one before it over, nothing but triggers came
      until `end`. */
  ghost predicate Attended(script: seq<Observation>, start: nat, e: nat, end: nat, expired: nat -> bool, pearDir: Path) {
    && end <= |script| && NoHangup(script, e, end)
    && forall pos, k :: start <= pos < end && Due(script, start, e, pos, expired, pearDir) && pos < k < end && e < k ==>
         script[k].Arrives?
  }

  /** Without a kick and without a failure, the next cycle has waited for a window to close. */
  ghost predicate Debounced(script: seq<Observation>, start: nat, e: nat, end: nat, expired: nat -> bool) {
    || (exists i :: start <= i < end <= |script| && script[i] == Arrives(External))
    || (e < |script| && script[e] == CycleEnds(Failed))
    || (exists pos :: WaitedUntil(script, e, pos, end, expired))
  }

  ghost predicate WaitedUntil(script: seq<Observation>, e: nat, pos: nat, end: nat, expired: nat -> bool) {
    && e < pos <= end <= |script| && (script[pos - 1] == Silence || expired(pos))
    && forall k :: pos <= k < end ==> script[k].Arrives?
  }

  /** The cycle from `start` to `e` was not the last: the loop goes on. */
  ghost predicate GoesOn(script: seq<Observation>, start: nat, e: nat) {
    EndsAt(script, start, e, Succeeded) || EndsAt(script, start, e, Failed)
  }

  /** Why the loop is where it is, in terms of the last cycle, which started at `start`. */
  ghost predicate EndedFor(ending: Ending, script: seq<Observation>, start: nat, there: nat -> bool,
                           expired: nat -> bool, pearDir: Path)
    requires start <= |script|
  {
    match ending
    case InCycle => forall i :: start <= i < |script| ==> !script[i].CycleEnds?
    case Stopped => EndsAs(script, start, StopWatching)
    case _ => exists e :: GoesOn(script, start, e) && EndedAfter(ending, script, start, e, there, expired, pearDir)
  }

  /** The same once that cycle has ended, at `e`. In each case nothing was passed over before. */
  ghost predicate EndedAfter(ending: Ending, script: seq<Observation>, start: nat, e: nat, there: nat -> bool,
                             expired: nat -> bool, pearDir: Path)
    requires start <= |script| && e < |script|
  {
    match ending
    case Blocked =>
      script[e] == CycleEnds(Succeeded) && NoneSince(script, start, pearDir)
      && NothingDue(script, start, e, |script|, expired, pearDir)
    case AwaitingRetry =>
      script[e] == CycleEnds(Failed) && NoneSince(script, start, pearDir)
      && NothingDue(script, start, e, |script|, expired, pearDir)
    case Coalescing =>
      WindowOpen(script, start, e, |script|, expired) && NothingDue(script, start, e, |script|, expired, pearDir)
    case Disconnected =>
      exists h :: e < h < |script| && script[h] == Hangup && NothingDue(script, start, e, h, expired, pearDir)
    case SourceGone =>
      exists pos: nat :: e < pos <= |script| && !there(pos) && Attended(script, start, e, pos, expired, pearDir)
    case _ => false
  }

  /** Nothing but the workspace's own metadata is written and every cycle succeeds: each trigger
      is an event with paths, and each of its paths lies in the metadata directory. */
  ghost predicate Calm(script: seq<Observation>, pearDir: Path) {
    && (forall i :: 0 <= i < |script| && script[i].Arrives? ==> InMetadata(script[i].trigger, pearDir))
    && forall i :: 0 <= i < |script| && script[i].CycleEnds? ==> script[i].outcome == Succeeded
  }

  ghost predicate InMetadata(t: Trigger, pearDir: Path) {
    t.Fs? && t.event.Changed? && t.event.paths != [] && forall k :: 0 <= k < |t.event.paths| ==> pearDir <= t.event.paths[k]
  }

  /** A kick, a watcher error, a rescan notice, or an event that names some path outside the
      metadata directory, whatever else it names. */
  ghost predicate TellsOfChange(t: Trigger, pearDir: Path) {
    || t.External?
    || t.event.WatcherError?
    || t.event.paths == []
    || exists k :: 0 <= k < |t.event.paths| && !(pearDir <= t.event.paths[k])
  }

  lemma RelevantIff(t: Trigger, pearDir: Path)
    ensures Relevant(t, pearDir) <==> TellsOfChange(t, pearDir)
    ensures TellsOfChange(t, pearDir) <==> !InMetadata(t, pearDir)
  {
  }

  /** Everything on the queue came in since `start`. */
  ghost predicate QueuedSince(script: seq<Observation>, start: nat, pos: nat, queue: seq<Trigger>)
    requires start <= pos <= |script|
  {
    forall t :: t in queue ==> ArrivesIn(script, start, pos, t)
  }

  ghost predicate ArrivesIn(script: seq<Observation>, start: nat, pos: nat, t: Trigger)
    requires start <= pos <= |script|
  {
    exists i :: start <= i < pos && script[i] == Arrives(t)
  }

  /** What asks for a cycle after the one that started at `start`: a relevant trigger that
      came in since, or its failure. */
  ghost predicate Called(script: seq<Observation>, start: nat, pos: nat, pearDir: Path)
    requires start <= pos <= |script|
  {
    exists i :: start <= i < pos
                && ((script[i].Arrives? && Relevant(script[i].trigger, pearDir)) || script[i] == CycleEnds(Failed))
  }

  /** The cycle that starts at `end` follows the one that started at `start`: it was called for
      by what happened since, it was not started before a window closed, and it was started
      at once when it was due. */
  ghost predicate Follows(script: seq<Observation>, start: nat, end: nat, expired: nat -> bool, pearDir: Path)
    requires start <= end <= |script|
  {
    && Called(script, start, end, pearDir)
    && exists e: nat :: GoesOn(script, start, e) && e < end
                   && Attended(script, start, e, end, expired, pearDir) && Debounced(script, start, e, end, expired)
  }

  /** The cycles of a run. */
  ghost predicate EachFollows(script: seq<Observation>, starts: seq<nat>, expired: nat -> bool, pearDir: Path) {
    && starts != [] && starts[0] == 0 && starts[|starts| - 1] <= |script|
    && forall i :: 0 < i < |starts| ==>
         starts[i - 1] <= starts[i] <= |script| && Follows(script, starts[i - 1], starts[i], expired, pearDir)
  }

  function Measure(script: seq<Observation>, pos: nat, queue: seq<Trigger>): nat
    requires pos <= |script|
  {
    |queue| + 2 * (|script| - pos)
  }

  /** What a wait on an empty queue returns, and at which observation. */
  ghost predicate Receives(got: Received, script: seq<Observation>, pos: nat, pos': nat, timed: bool)
    requires pos <= pos' <= |script|
  {
    if got.Exhausted? then pos' == |script| && Skips(script, pos, pos', timed)
    else pos < pos' && Skips(script, pos, pos' - 1, timed)
         && match got
            case Got(t) => script[pos' - 1] == Arrives(t)
            case TimedOut => timed && script[pos' - 1] == Silence
            case _ => script[pos' - 1] == Hangup
  }

  /** What a receive does, at the queue or at the script. */
  ghost predicate Moves(script: seq<Observation>, pos: nat, queue: seq<Trigger>, timed: bool,
                        got: Received, pos': nat, queue': seq<Trigger>) {
    && pos <= pos' <= |script|
    && (if queue != [] then got == Got(queue[0]) && queue' == queue[1..] && pos' == pos
        else queue' == [] && Receives(got, script, pos, pos', timed))
  }

  /** Wait for the next trigger; without a timeout, silence is waited out. */
  method Receive(script: seq<Observation>, pos: nat, queue: seq<Trigger>, timed: bool)
    returns (got: Received, pos': nat, queue': seq<Trigger>)
    requires pos <= |script|
    ensures Moves(script, pos, queue, timed, got, pos', queue')
    ensures got.Got? ==> Measure(script, pos', queue') < Measure(script, pos, queue)
  {
    pos', queue' := pos, queue;
    if queue != [] {
      got, queue' := Got(queue[0]), queue[1..];
      return;
    }
    while pos' < |script|
      invariant pos <= pos' <= |script| && Skips(script, pos, pos', timed)
    {
      var next := script[pos'];
      pos' := pos' + 1;
      match next {
        case Arrives(t) =>
          got := Got(t);
          return;
        case Hangup =>
          got := Closed;
          return;
        case Silence =>
          if timed {
            got := TimedOut;
            return;
          }
        case CycleEnds(_) =>
      }
    }
    got := Exhausted;
  }

  /** One cycle: triggers that arrive while it runs stay on the queue, in order. */
  method RunCycle(script: seq<Observation>, pos: nat) returns (outcome: Option<Outcome>, pos': nat, queue: seq<Trigger>)
    requires pos <= |script|
    ensures pos <= pos' <= |script|
    ensures queue == Arrivals(script[pos..pos'])
    ensures outcome.None? ==> pos' == |script| && forall i :: pos <= i < |script| ==> !script[i].CycleEnds?
    ensures outcome.Some? ==> pos < pos' && script[pos' - 1] == CycleEnds(outcome.value)
                              && forall i :: pos <= i < pos' - 1 ==> !script[i].CycleEnds?
    ensures outcome.Some? ==> Measure(script, pos', queue) < 2 * (|script| - pos)
  {
    hide Arrivals;
    pos', queue := pos, [];
    ArrivalsNone(script, pos);
    while pos' < |script|
      invariant pos <= pos' <= |script| && queue == Arrivals(script[pos..pos'])
      invariant forall i :: pos <= i < pos' ==> !script[i].CycleEnds?
      invariant Measure(script, pos', queue) <= 2 * (|script| - pos)
    {
      ArrivalsNext(script, pos, pos');
      var next := script[pos'];
      pos' := pos' + 1;
      match next {
        case Arrives(t) =>
          queue := queue + [t];
        case CycleEnds(o) =>
          outcome := Some(o);
          return;
        case Silence =>
        case Hangup =>
      }
    }
    outcome := None;
  }

  lemma ArrivalsNone(script: seq<Observation>, pos: nat)
    requires pos <= |script|
    ensures Arrivals(script[pos..pos]) == []
  {
  }

  lemma ArrivalsNext(script: seq<Observation>, from: nat, to: nat)
    requires from <= to < |script|
    ensures Arrivals(script[from..to + 1])
            == if script[to].Arrives? then Arrivals(script[from..to]) + [script[to].trigger] else Arrivals(script[from..to])
  {
    assert script[from..to + 1][..to - from] == script[from..to];
  }

  /** The arrivals of a stretch are the triggers that arrive in it. */
  lemma {:induction false} ArrivalsAre(script: seq<Observation>, from: nat, end: nat)
    requires from <= end <= |script|
    ensures forall i :: from <= i < end && script[i].Arrives? ==> script[i].trigger in Arrivals(script[from..end])
    ensures forall t :: t in Arrivals(script[from..end]) ==> (exists i :: from <= i < end && script[i] == Arrives(t))
    decreases end
  {
    hide Arrivals;
    if from == end {
      ArrivalsNone(script, from);
    } else {
      ArrivalsAre(script, from, end - 1);
      ArrivalsNext(script, from, end - 1);
      var some, all, last := Arrivals(script[from..end - 1]), Arrivals(script[from..end]), script[end - 1];
      assert forall t :: t in all <==> t in some || last == Arrives(t);
      forall t | t in all
        ensures exists i :: from <= i < end && script[i] == Arrives(t)
      {
        if t !in some {
          assert script[end - 1] == Arrives(t);
        }
      }
    }
  }

  /** Triggers that slip in after the window and before the queue is found empty: `early`
      of them at most. They are collapsed with the rest of the queue. */
  method DrainFrom(script: seq<Observation>, pos: nat, early: nat) returns (pos': nat)
    requires pos <= |script|
    ensures pos <= pos' <= |script|
    ensures forall i :: pos <= i < pos' ==> script[i].Arrives?
  {
    pos' := pos;
    while pos' < |script| && script[pos'].Arrives? && pos' - pos < early
      invariant pos <= pos' <= |script|
      invariant forall i :: pos <= i < pos' ==> script[i].Arrives?
    {
      pos' := pos' + 1;
    }
  }

  /** Where the loop stands between two cycles, after the one from `start` to `e`: everything
      relevant that has come in since is still on the queue, and unless the queue has yet to
      be looked at, the next cycle is not due. */
  ghost predicate Between(script: seq<Observation>, start: nat, e: nat, pos: nat, queue: seq<Trigger>,
                          expired: nat -> bool, pearDir: Path) {
    && start <= e < pos <= |script| && GoesOn(script, start, e)
    && QueuedSince(script, start, pos, queue) && StillQueued(script, start, pos, queue, pearDir)
    && (if queue != [] then pos == e + 1 else NothingDue(script, start, e, pos, expired, pearDir))
  }

  /** The same while a window is open. */
  ghost predicate InWindow(script: seq<Observation>, start: nat, e: nat, pos: nat, queue: seq<Trigger>, wanted: bool,
                           expired: nat -> bool, pearDir: Path) {
    && start <= e < pos <= |script| && GoesOn(script, start, e)
    && QueuedSince(script, start, pos, queue) && (queue != [] ==> pos == e + 1)
    && (if wanted then Called(script, start, pos, pearDir) else StillQueued(script, start, pos, queue, pearDir))
    && WindowOpen(script, start, e, pos, expired) && NothingDue(script, start, e, pos, expired, pearDir)
  }

  /** The loop may start the next cycle: nothing was passed over. */
  ghost predicate MayStart(script: seq<Observation>, start: nat, e: nat, pos: nat, expired: nat -> bool, pearDir: Path) {
    && start <= e < pos <= |script| && GoesOn(script, start, e) && Called(script, start, pos, pearDir)
    && (pos == e + 1 || (script[pos - 1] != Hangup && NothingDue(script, start, e, pos - 1, expired, pearDir)))
    && Debounced(script, start, e, pos, expired)
  }

  /** Coalesce until quiet, or until the window has been open for too long. */
  method Coalesce(script: seq<Observation>, pos: nat, queue: seq<Trigger>, first: FsEvent, pearDir: Path,
                  expired: nat -> bool, ghost start: nat, ghost e: nat, ghost there: nat -> bool)
    returns (ending: Option<Ending>, wanted: bool, pos': nat, queue': seq<Trigger>)
    requires InWindow(script, start, e, pos, queue, !IsPearOnly(first, pearDir), expired, pearDir)
    ensures pos <= pos' <= |script| && Measure(script, pos', queue') <= Measure(script, pos, queue)
    ensures ending.Some? ==> EndedAfter(ending.value, script, start, e, there, expired, pearDir)
    ensures ending.None? && wanted ==> MayStart(script, start, e, pos', expired, pearDir)
    ensures ending.None? && !wanted ==> Between(script, start, e, pos', queue', expired, pearDir)
  {
    pos', queue', wanted := pos, queue, !IsPearOnly(first, pearDir);
    hide IsPearOnly, InWindow, Between, MayStart, EndedAfter, Receives;
    InWindowBounds(script, start, e, pos, queue, wanted, expired, pearDir);
    while true
      invariant start <= e < pos' <= |script| && pos <= pos' && Measure(script, pos', queue') <= Measure(script, pos, queue)
      invariant InWindow(script, start, e, pos', queue', wanted, expired, pearDir)
      decreases Measure(script, pos', queue')
    {
      var got, p, q := Receive(script, pos', queue', true);
      InWindowReceives(script, start, e, pos', queue', wanted, got, p, q, expired, there, pearDir);
      pos', queue' := p, q;
      match got {
        case Got(t) =>
          wanted := wanted || Relevant(t, pearDir);
          if expired(pos') {
            return None, wanted, pos', queue';
          }
        case TimedOut =>
          return None, wanted, pos', queue';
        case Closed =>
          return Some(Disconnected), wanted, pos', queue';
        case Exhausted =>
          return Some(Coalescing), wanted, pos', queue';
      }
    }
  }

  lemma InWindowBounds(script: seq<Observation>, start: nat, e: nat, pos: nat, queue: seq<Trigger>, wanted: bool,
                       expired: nat -> bool, pearDir: Path)
    requires InWindow(script, start, e, pos, queue, wanted, expired, pearDir)
    ensures start <= e < pos <= |script|
  {
    hide StillQueued, QueuedSince, Called, WindowOpen, NothingDue, GoesOn;
  }

  // ---------- one receive ----------

  /** What was queued still is, except the trigger that was handed out. */
  lemma QueueMoves(script: seq<Observation>, start: nat, pos: nat, queue: seq<Trigger>, timed: bool,
                   got: Received, pos': nat, queue': seq<Trigger>, pearDir: Path)
    requires start <= pos && Moves(script, pos, queue, timed, got, pos', queue')
    requires QueuedSince(script, start, pos, queue)
    ensures QueuedSince(script, start, pos', queue')
    ensures StillQueued(script, start, pos, queue, pearDir) && (got.Got? ==> !Relevant(got.trigger, pearDir)) ==>
              StillQueued(script, start, pos', queue', pearDir)
    ensures got.Got? ==> ArrivesIn(script, start, pos', got.trigger)
  {
    hide Relevant;
    if got.Got? && queue != [] {
      assert queue[0] in queue && forall t :: t in queue <==> t == queue[0] || t in queue';
    } else if got.Got? {
      assert script[pos' - 1] == Arrives(got.trigger);
    }
  }

  lemma NoneBeforeNext(script: seq<Observation>, start: nat, pos: nat, pos': nat, last: nat, got: Received,
                       timed: bool, pearDir: Path)
    requires start <= pos <= last <= pos' <= |script| && StillQueued(script, start, pos, [], pearDir)
             && Skips(script, pos, last, timed)
    ensures forall end: nat :: end <= last ==> !RelevantIn(script, start, end, pearDir)
  {
    hide Relevant;
  }

  lemma EmptyMeansNone(script: seq<Observation>, start: nat, pos: nat, pearDir: Path)
    requires start <= pos <= |script| && StillQueued(script, start, pos, [], pearDir)
    ensures forall end: nat :: end <= pos ==> !RelevantIn(script, start, end, pearDir)
  {
    hide Relevant;
  }

  /** What a wait passes over makes nothing due. */
  lemma NothingDueSkips(script: seq<Observation>, start: nat, e: nat, pos: nat, pos': nat, timed: bool,
                        expired: nat -> bool, pearDir: Path)
    requires start <= e < pos <= pos' <= |script| && Skips(script, pos, pos', timed)
    requires NothingDue(script, start, e, pos, expired, pearDir)
    requires timed || (script[e] == CycleEnds(Succeeded) && forall end: nat :: end <= pos' ==>
               !RelevantIn(script, start, end, pearDir))
    ensures NothingDue(script, start, e, pos', expired, pearDir)
  {
    hide RelevantIn, WindowOpen;
  }

  lemma WindowSkips(script: seq<Observation>, start: nat, e: nat, pos: nat, pos': nat, expired: nat -> bool)
    requires e < pos <= pos' <= |script| && WindowOpen(script, start, e, pos, expired)
    requires forall i :: pos <= i < pos' ==> !Closes(script, i, expired)
    ensures WindowOpen(script, start, e, pos', expired)
  {
    var i :| Opens(script, start, e, pos, i, expired);
    assert Opens(script, start, e, pos', i, expired);
  }

  /** A receive while a window is open. */
  lemma InWindowReceives(script: seq<Observation>, start: nat, e: nat, pos: nat, queue: seq<Trigger>, wanted: bool,
                         got: Received, pos': nat, queue': seq<Trigger>, expired: nat -> bool, there: nat -> bool,
                         pearDir: Path)
    requires InWindow(script, start, e, pos, queue, wanted, expired, pearDir)
    requires Moves(script, pos, queue, true, got, pos', queue')
    ensures got.Got? ==>
      var wanted' := wanted || Relevant(got.trigger, pearDir);
      if !expired(pos') then InWindow(script, start, e, pos', queue', wanted', expired, pearDir)
      else if wanted' then MayStart(script, start, e, pos', expired, pearDir)
      else Between(script, start, e, pos', queue', expired, pearDir)
    ensures got.TimedOut? ==>
      if wanted then MayStart(script, start, e, pos', expired, pearDir)
      else Between(script, start, e, pos', queue', expired, pearDir)
    ensures got.Closed? ==> EndedAfter(Disconnected, script, start, e, there, expired, pearDir)
    ensures got.Exhausted? ==> EndedAfter(Coalescing, script, start, e, there, expired, pearDir)
  {
    QueueMoves(script, start, pos, queue, true, got, pos', queue', pearDir);
    CallsLater(script, start, pos, pos', got, pearDir);
    hide Relevant, QueuedSince, Called, ArrivesIn, GoesOn;
    if queue == [] {
      var last := if got.Exhausted? then pos' else pos' - 1;
      NothingDueSkips(script, start, e, pos, last, true, expired, pearDir);
      WindowSkips(script, start, e, pos, last, expired);
      if got.Got? || got.TimedOut? {
        OneMoreInWindow(script, start, e, last, expired, pearDir);
        hide Skips, WindowOpen, NothingDue, Due;
        if StillQueued(script, start, pos', queue', pearDir) {
          EmptyMeansNone(script, start, pos', pearDir);
        }
      }
    }
    hide StillQueued, WindowOpen, NothingDue;
    if got.TimedOut? || (got.Got? && expired(pos')) {
      assert WaitedUntil(script, e, pos', pos', expired);
    }
  }

  lemma CallsLater(script: seq<Observation>, start: nat, pos: nat, pos': nat, got: Received, pearDir: Path)
    requires start <= pos <= pos' <= |script|
    ensures Called(script, start, pos, pearDir) ==> Called(script, start, pos', pearDir)
    ensures got.Got? && ArrivesIn(script, start, pos', got.trigger) && Relevant(got.trigger, pearDir) ==>
              Called(script, start, pos', pearDir)
  {
    hide Relevant;
  }

  /** A trigger in a window, or the silence that ends it, makes nothing due, unless something
      relevant has come in and the window closes. */
  lemma OneMoreInWindow(script: seq<Observation>, start: nat, e: nat, pos: nat, expired: nat -> bool, pearDir: Path)
    requires start <= e < pos < |script| && script[pos] != Hangup
    requires WindowOpen(script, start, e, pos, expired) && NothingDue(script, start, e, pos, expired, pearDir)
    ensures !Closes(script, pos, expired) || !RelevantIn(script, start, pos, pearDir) ==>
              NothingDue(script, start, e, pos + 1, expired, pearDir)
    ensures !Closes(script, pos, expired) ==> WindowOpen(script, start, e, pos + 1, expired)
  {
    if !Closes(script, pos, expired) {
      WindowSkips(script, start, e, pos, pos + 1, expired);
    }
    hide RelevantIn, WindowOpen;
  }

  /** A receive between two cycles; after a failed one it has a timeout. */
  lemma BetweenReceives(script: seq<Observation>, start: nat, e: nat, pos: nat, queue: seq<Trigger>, retry: bool,
                        got: Received, pos': nat, queue': seq<Trigger>, expired: nat -> bool, there: nat -> bool, pearDir: Path)
    requires Between(script, start, e, pos, queue, expired, pearDir) && retry == (script[e] == CycleEnds(Failed))
    requires Moves(script, pos, queue, retry, got, pos', queue')
    ensures got.TimedOut? || (got.Got? && got.trigger.External?) ==> MayStart(script, start, e, pos', expired, pearDir)
    ensures got.Got? && got.trigger.Fs? ==>
              InWindow(script, start, e, pos', queue', !IsPearOnly(got.trigger.event, pearDir), expired, pearDir)
    ensures got.Closed? ==> EndedAfter(Disconnected, script, start, e, there, expired, pearDir)
    ensures got.Exhausted? ==>
              EndedAfter(if retry then AwaitingRetry else Blocked, script, start, e, there, expired, pearDir)
  {
    QueueMoves(script, start, pos, queue, retry, got, pos', queue', pearDir);
    CallsLater(script, start, pos, pos', got, pearDir);
    if queue == [] {
      var last := if got.Exhausted? then pos' else pos' - 1;
      NoneBeforeNext(script, start, pos, pos', last, got, retry, pearDir);
      NothingDueSkips(script, start, e, pos, last, retry, expired, pearDir);
    }
    if got.Got? {
      var i: nat :| start <= i < pos' && script[i] == Arrives(got.trigger) && (queue == [] ==> i == pos' - 1);
      if got.trigger.Fs? {
        WindowOpens(script, start, e, pos', i, expired, pearDir);
      } else {
        assert script[i] == Arrives(External);
      }
    }
    hide Due, WindowOpen, StillQueued, QueuedSince, NothingDue;
    assert got.TimedOut? ==> script[e] == CycleEnds(Failed);
  }

  /** The first file event makes nothing due by itself. */
  lemma WindowOpens(script: seq<Observation>, start: nat, e: nat, pos: nat, i: nat, expired: nat -> bool, pearDir: Path)
    requires start <= e < pos <= |script| && script[e].CycleEnds? && start <= i < pos
    requires script[i].Arrives? && script[i].trigger.Fs?
    requires pos == e + 1 || (i == pos - 1 && !RelevantIn(script, start, i, pearDir)
             && NothingDue(script, start, e, i, expired, pearDir))
    ensures WindowOpen(script, start, e, pos, expired) && NothingDue(script, start, e, pos, expired, pearDir)
  {
    assert Opens(script, start, e, pos, i, expired);
    if pos == e + 1 {
      forall j | start <= j < e
        ensures WindowOpen(script, start, e, j, expired)
      {
        assert Opens(script, start, e, j, i, expired);
      }
    }
    hide RelevantIn, WindowOpen;
  }

  lemma CycleQueue(script: seq<Observation>, start: nat, pos: nat, queue: seq<Trigger>, pearDir: Path)
    requires start <= pos <= |script| && queue == Arrivals(script[start..pos])
    ensures StillQueued(script, start, pos, queue, pearDir)
    ensures QueuedSince(script, start, pos, queue)
  {
    hide Relevant;
    ArrivalsAre(script, start, pos);
  }

  /** Wait for something to happen between two cycles. */
  method Listen(script: seq<Observation>, pos: nat, queue: seq<Trigger>, retry: bool, pearDir: Path, expired: nat -> bool,
                ghost start: nat, ghost e: nat, ghost there: nat -> bool)
    returns (ending: Option<Ending>, wanted: bool, pos': nat, queue': seq<Trigger>)
    requires Between(script, start, e, pos, queue, expired, pearDir) && retry == (script[e] == CycleEnds(Failed))
    ensures pos <= pos' <= |script|
    ensures ending.Some? ==> EndedAfter(ending.value, script, start, e, there, expired, pearDir)
    ensures ending.None? && wanted ==> MayStart(script, start, e, pos', expired, pearDir)
    ensures ending.None? && !wanted ==> Between(script, start, e, pos', queue', expired, pearDir)
    ensures ending.None? ==> Measure(script, pos', queue') < Measure(script, pos, queue)
  {
    wanted := true;
    var got, p, q := Receive(script, pos, queue, retry);
    pos', queue' := p, q;
    BetweenReceives(script, start, e, pos, queue, retry, got, p, q, expired, there, pearDir);
    hide Receives, InWindow, MayStart, EndedAfter, IsPearOnly, StillQueued, QueuedSince, NothingDue, GoesOn;
    match got {
      case Closed =>
        return Some(Disconnected), wanted, p, q;
      case Exhausted =>
        return Some(if retry then AwaitingRetry else Blocked), wanted, p, q;
      case TimedOut =>
        ending := None;
      case Got(trigger) =>
        ending := None;
        if trigger.Fs? {
          ending, wanted, pos', queue' := Coalesce(script, p, q, trigger.event, pearDir, expired, start, e, there);
        }
    }
  }

  /** The loop. `expired`, `early` and `there` say when a window is over, how many
      triggers slip into a drain, and whether the source still exists; they are arbitrary.
      `starts` are the positions at which cycles were started. */
  method WatchLoop(script: seq<Observation>, pearDir: Path, expired: nat -> bool, early: nat -> nat, there: nat -> bool)
    returns (ending: Ending, starts: seq<nat>)
    ensures EachFollows(script, starts, expired, pearDir)
    ensures EndedFor(ending, script, starts[|starts| - 1], there, expired, pearDir)
  {
    starts := [0];
    var latest := 0;
    var outcome, pos, queue := RunCycle(script, 0);
    CycleIsOver(script, 0, pos, outcome, queue, there, expired, pearDir);
    if outcome.None? {
      return InCycle, starts;
    }
    if outcome.value == StopWatching {
      return Stopped, starts;
    }
    var retry := outcome.value == Failed;
    ghost var e: nat := pos - 1;
    hide Arrivals, EachFollows, Between, MayStart, EndedFor, EndedAfter, GoesOn;
    while true
      invariant latest <= e < pos <= |script| && starts != [] && starts[|starts| - 1] == latest
      invariant EachFollows(script, starts, expired, pearDir) && Between(script, latest, e, pos, queue, expired, pearDir)
      invariant retry == (script[e] == CycleEnds(Failed))
      decreases Measure(script, pos, queue)
    {
      if !there(pos) {
        SeenGone(script, latest, e, pos, queue, there, expired, pearDir);
        return SourceGone, starts;
      }
      var over, wanted;
      over, wanted, pos, queue := Listen(script, pos, queue, retry, pearDir, expired, latest, e, there);
      if over.Some? {
        EndsSo(over.value, script, latest, e, there, expired, pearDir);
        return over.value, starts;
      }
      if !wanted {
        continue;
      }
      var drained := DrainFrom(script, pos, early(pos));
      OneMoreStart(script, starts, e, pos, drained, expired, pearDir);
      latest, starts := drained, starts + [drained];
      outcome, pos, queue := RunCycle(script, drained);
      CycleIsOver(script, latest, pos, outcome, queue, there, expired, pearDir);
      if outcome.None? {
        return InCycle, starts;
      }
      if outcome.value == StopWatching {
        return Stopped, starts;
      }
      retry, e := outcome.value == Failed, pos - 1;
    }
  }

  /** What the end of a cycle says about it. */
  lemma CycleIsOver(script: seq<Observation>, start: nat, pos: nat, outcome: Option<Outcome>, queue: seq<Trigger>,
                    there: nat -> bool, expired: nat -> bool, pearDir: Path)
    requires start <= pos <= |script| && queue == Arrivals(script[start..pos])
    requires outcome.None? ==> pos == |script| && forall i :: start <= i < |script| ==> !script[i].CycleEnds?
    requires outcome.Some? ==> start < pos && script[pos - 1] == CycleEnds(outcome.value)
                               && forall i :: start <= i < pos - 1 ==> !script[i].CycleEnds?
    ensures outcome.None? ==> EndedFor(InCycle, script, start, there, expired, pearDir)
    ensures outcome == Some(StopWatching) ==> EndedFor(Stopped, script, start, there, expired, pearDir)
    ensures outcome in {Some(Succeeded), Some(Failed)} ==> Between(script, start, pos - 1, pos, queue, expired, pearDir)
  {
    hide Arrivals, Relevant;
    CycleQueue(script, start, pos, queue, pearDir);
    hide QueuedSince;
    if outcome.Some? {
      assert EndsAt(script, start, pos - 1, outcome.value);
      if queue == [] {
        EmptyMeansNone(script, start, pos, pearDir);
        NothingDueYet(script, start, pos - 1, expired, pearDir);
      }
    }
  }

  /** When a cycle ends, only a kick can have made the next one due. */
  lemma NothingDueYet(script: seq<Observation>, start: nat, e: nat, expired: nat -> bool, pearDir: Path)
    requires start <= e < |script| && script[e].CycleEnds? && !RelevantIn(script, start, e + 1, pearDir)
    ensures NothingDue(script, start, e, e + 1, expired, pearDir)
  {
    hide WindowOpen;
  }

  lemma SeenGone(script: seq<Observation>, start: nat, e: nat, pos: nat, queue: seq<Trigger>, there: nat -> bool,
                 expired: nat -> bool, pearDir: Path)
    requires Between(script, start, e, pos, queue, expired, pearDir) && !there(pos)
    ensures EndedFor(SourceGone, script, start, there, expired, pearDir)
  {
    hide QueuedSince, StillQueued, Due;
    assert Attended(script, start, e, pos, expired, pearDir);
  }

  lemma EndsSo(ending: Ending, script: seq<Observation>, start: nat, e: nat, there: nat -> bool,
               expired: nat -> bool, pearDir: Path)
    requires start <= e < |script| && EndedAfter(ending, script, start, e, there, expired, pearDir) && GoesOn(script, start, e)
    ensures EndedFor(ending, script, start, there, expired, pearDir)
  {
    hide EndsAs;
  }

  lemma OneMoreStart(script: seq<Observation>, starts: seq<nat>, e: nat, pos: nat, next: nat, expired: nat -> bool,
                     pearDir: Path)
    requires EachFollows(script, starts, expired, pearDir) && pos <= next <= |script|
    requires MayStart(script, starts[|starts| - 1], e, pos, expired, pearDir)
    requires forall k :: pos <= k < next ==> script[k].Arrives?
    ensures EachFollows(script, starts + [next], expired, pearDir)
  {
    var start, more := starts[|starts| - 1], starts + [next];
    StartsAtOnce(script, start, e, pos, next, expired, pearDir);
    hide Follows;
    forall i | 0 < i < |more|
      ensures more[i - 1] <= more[i] <= |script| && Follows(script, more[i - 1], more[i], expired, pearDir)
    {
      if i < |starts| {
        assert starts[i - 1] <= starts[i];
      }
    }
  }

  lemma StartsAtOnce(script: seq<Observation>, start: nat, e: nat, pos: nat, next: nat, expired: nat -> bool, pearDir: Path)
    requires MayStart(script, start, e, pos, expired, pearDir) && pos <= next <= |script|
    requires forall k :: pos <= k < next ==> script[k].Arrives?
    ensures Follows(script, start, next, expired, pearDir)
  {
    assert Called(script, start, next, pearDir);
    assert Attended(script, start, e, next, expired, pearDir) by {
      hide Due;
    }
    assert Debounced(script, start, e, next, expired) by {
      if w :| WaitedUntil(script, e, w, pos, expired) {
        assert WaitedUntil(script, e, w, next, expired);
      }
    }
  }

  /** No change is missed: unless the loop has ended or is running a cycle, every trigger that
      tells of a change and was followed by silence after the last cycle came in before some
      cycle started. */
  lemma NoChangeIsMissed(script: seq<Observation>, starts: seq<nat>, ending: Ending, there: nat -> bool, expired: nat -> bool,
                         pearDir: Path, i: nat, pos: nat)
    requires EachFollows(script, starts, expired, pearDir)
    requires EndedFor(ending, script, starts[|starts| - 1], there, expired, pearDir)
             && ending in {Blocked, AwaitingRetry, Coalescing}
    requires i < pos < |script| && script[i].Arrives? && TellsOfChange(script[i].trigger, pearDir)
    requires script[pos] == Silence && forall k :: pos <= k < |script| ==> !script[k].CycleEnds?
    ensures i < starts[|starts| - 1]
  {
    RelevantIff(script[i].trigger, pearDir);
    hide Relevant, TellsOfChange, Follows, WindowOpen, NoneSince;
    var start := starts[|starts| - 1];
    var e: nat :| GoesOn(script, start, e) && EndedAfter(ending, script, start, e, there, expired, pearDir);
    assert script[e].CycleEnds? && Closes(script, pos, expired);
    assert i >= start ==> Due(script, start, e, pos, expired, pearDir);
  }

  /** From `pos` to the next start nothing but triggers is seen: they are drained into the cycle. */
  ghost predicate OnlyTriggers(script: seq<Observation>, pos: nat, next: nat) {
    forall k :: pos < k < next && k < |script| ==> script[k].Arrives?
  }

  lemma AttendedAfter(script: seq<Observation>, starts: seq<nat>, expired: nat -> bool, pearDir: Path, n: nat, e: nat)
    requires EachFollows(script, starts, expired, pearDir) && n + 1 < |starts|
    requires exists o :: EndsAt(script, starts[n], e, o)
    ensures e < starts[n + 1] <= |script| && Attended(script, starts[n], e, starts[n + 1], expired, pearDir)
  {
    hide Attended, Called, Debounced;
    assert Follows(script, starts[n], starts[n + 1], expired, pearDir);
  }

  /** A change is answered as soon as its burst is over: once a wait has been silent, or one more
      trigger has come after the cap, the next cycle starts. */
  lemma ChangeIsAnswered(script: seq<Observation>, starts: seq<nat>, expired: nat -> bool, pearDir: Path,
                         n: nat, e: nat, i: nat, pos: nat)
    requires EachFollows(script, starts, expired, pearDir) && n + 1 < |starts|
    requires exists o :: EndsAt(script, starts[n], e, o)
    requires starts[n] <= i < pos < starts[n + 1] && e < pos < |script|
    requires script[i].Arrives? && TellsOfChange(script[i].trigger, pearDir)
    requires script[pos] == Silence || (script[pos].Arrives? && expired(pos + 1))
    ensures OnlyTriggers(script, pos, starts[n + 1])
  {
    AttendedAfter(script, starts, expired, pearDir, n, e);
    RelevantIff(script[i].trigger, pearDir);
    hide Relevant, TellsOfChange, EachFollows, WindowOpen;
    assert Due(script, starts[n], e, pos, expired, pearDir);
  }

  /** A failed cycle is retried after one silent wait, if no file event has opened a window. */
  lemma FailureIsRetried(script: seq<Observation>, starts: seq<nat>, expired: nat -> bool, pearDir: Path,
                         n: nat, e: nat, pos: nat)
    requires EachFollows(script, starts, expired, pearDir) && n + 1 < |starts|
    requires EndsAt(script, starts[n], e, Failed) && e < pos < starts[n + 1] && pos < |script| && script[pos] == Silence
    requires forall k :: starts[n] <= k < pos && script[k].Arrives? ==> script[k].trigger.External?
    ensures OnlyTriggers(script, pos, starts[n + 1])
  {
    AttendedAfter(script, starts, expired, pearDir, n, e);
    hide EachFollows, RelevantIn;
    assert !WindowOpen(script, starts[n], e, pos, expired);
    assert Due(script, starts[n], e, pos, expired, pearDir);
  }

  /** A kick is answered at once, or when the cycle ends in which it came, if no file event has
      opened a window. */
  lemma KickIsAnswered(script: seq<Observation>, starts: seq<nat>, expired: nat -> bool, pearDir: Path,
                       n: nat, e: nat, pos: nat)
    requires EachFollows(script, starts, expired, pearDir) && n + 1 < |starts|
    requires exists o :: EndsAt(script, starts[n], e, o)
    requires starts[n] <= pos < starts[n + 1] && pos < |script| && script[pos] == Arrives(External)
    requires forall k :: starts[n] <= k < |script| && (k < pos || k < e) && script[k].Arrives? ==> script[k].trigger.External?
    ensures OnlyTriggers(script, if pos < e then e else pos, starts[n + 1])
  {
    AttendedAfter(script, starts, expired, pearDir, n, e);
    hide EachFollows, RelevantIn;
    assert !WindowOpen(script, starts[n], e, pos, expired);
    assert Due(script, starts[n], e, pos, expired, pearDir);
  }

  /** The workspace's own writes never start a cycle: if nothing else is written and every
      cycle succeeds, the first cycle is the only one. */
  lemma CalmRunsOnce(script: seq<Observation>, starts: seq<nat>, expired: nat -> bool, pearDir: Path)
    requires EachFollows(script, starts, expired, pearDir)
    ensures Calm(script, pearDir) ==> starts == [0]
  {
    forall i | 0 <= i < |script| && script[i].Arrives?
      ensures InMetadata(script[i].trigger, pearDir) ==> !Relevant(script[i].trigger, pearDir)
    {
      RelevantIff(script[i].trigger, pearDir);
    }
    hide Relevant, InMetadata;
    assert |starts| > 1 ==> Follows(script, starts[0], starts[1], expired, pearDir);
    assert |starts| == 1 ==> starts == [0];
  }
}
