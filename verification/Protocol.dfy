/** The multi-writer protocol: any number of devices and one relay, stepping in any
    order, with user edits and crashes (crates/core/src/converge.rs and the head
    compare-and-swap of crates/relay/src/routes.rs). */
module Protocol {
  import opened Manifests
  import opened Merging
  import opened Materializing
  import opened Tracking

  type Id = nat

  const MAX_ATTEMPTS := 32

  // ---------- state ----------

  /** A published head, with what its author merged to get it. `ledger` is what happened
      to the author's tree from its last commit up to the scan that was merged; `synced` is
      the number of the head that it had committed then. */
  datatype Head = Head(author: Id, files: Files, base: Files, local: Files, remote: Files,
                       copies: seq<ConflictCopy>, ledger: Ledger, synced: nat)

  /** One converge pass: the in-memory base, the attempts begun, the length of the head log
      when the pass started, and the head last committed before. */
  datatype Pass = Pass(base: Files, attempt: nat, startedAt: nat, synced: nat)

  /** A merge, and the ledger of the tree that was scanned for it. */
  datatype Merged = Merged(seq_: nat, local: Files, remote: Files, files: Files, copies: seq<ConflictCopy>, ledger: Ledger)

  datatype Phase =
    | Idle
    | Started(pass: Pass)
    | Fetched(pass: Pass, seq_: nat, remote: Files)
    | Scanned(pass: Pass, m: Merged)
    | Placed(pass: Pass, m: Merged)
    | Accepted(files: Files, seq_: nat)

  /** `synced` is the number of the head last committed, `since` what happened to the tree
      since then, `recent` what happened since the last scan. */
  datatype Device = Device(tree: Files, diskBase: Files, synced: nat, phase: Phase, since: Ledger, recent: Ledger)

  datatype World = World(log: seq<Head>, devices: map<Id, Device>)

  datatype Step =
    | Edit(d: Id, tree: Files)
    | Begin(d: Id)
    | GetHead(d: Id)
    | ScanAndMerge(d: Id, files: Files, copies: seq<ConflictCopy>)
    | Place(d: Id)
    | Adopt(d: Id)
    | PutHead(d: Id)
    | Commit(d: Id)
    | Crash(d: Id)

  /** The file set of the first `n` heads' newest; no head is an empty manifest. */
  function HeadAt(log: seq<Head>, n: nat): Files
    requires n <= |log|
  {
    if n == 0 then map[] else log[n - 1].files
  }

  function Current(log: seq<Head>): Files {
    HeadAt(log, |log|)
  }

  /** The merge already agrees with the head: nothing to publish. */
  predicate UpToDate(m: Merged) {
    m.files == m.remote && m.seq_ > 0
  }

  // ---------- steps ----------

  ghost predicate Enabled(w: World, s: Step) {
    s.d in w.devices &&
    var dev := w.devices[s.d];
    match s
    // The scan reads the tree as it is when the merge is put on disk.
    case Edit(_, _) => !dev.phase.Scanned?
    case Begin(_) => dev.phase.Idle?
    case GetHead(_) => dev.phase.Started?
    case ScanAndMerge(_, files, copies) =>
      dev.phase.Fetched? && Valid(files) && Outcome(dev.phase.pass.base, dev.tree, dev.phase.remote, files, copies)
    case Place(_) => dev.phase.Scanned?
    case Adopt(_) => dev.phase.Placed? && UpToDate(dev.phase.m)
    case PutHead(_) => dev.phase.Placed? && !UpToDate(dev.phase.m)
    case Commit(_) => dev.phase.Accepted?
    case Crash(_) => true
  }

  function Edited(dev: Device, tree: Files): Device {
    dev.(tree := tree, since := AfterEdit(dev.since, dev.tree, tree), recent := AfterEdit(dev.recent, dev.tree, tree))
  }

  /** The pointer moves to the head merged against, unless there was nothing to apply. */
  function PlacedOnDisk(dev: Device, pass: Pass, m: Merged): Device {
    dev.(tree := m.files,
         diskBase := if WithLocalCopies(m.local, m.copies) == m.files then dev.diskBase else m.remote,
         phase := Placed(pass, m),
         since := AfterCopies(dev.since, m.copies))
  }

  function Committed(dev: Device, files: Files, seq_: nat): Device {
    dev.(diskBase := files, synced := seq_, phase := Idle, since := dev.recent)
  }

  /** After a lost race the common ancestor is the head just merged against. */
  function LostRace(pass: Pass, m: Merged): Phase {
    if pass.attempt < MAX_ATTEMPTS then Started(pass.(base := m.remote)) else Idle
  }

  function Published(d: Id, pass: Pass, m: Merged): Head {
    Head(d, m.files, pass.base, m.local, m.remote, m.copies, m.ledger, pass.synced)
  }

  function After(w: World, s: Step): World
    requires Enabled(w, s)
  {
    var dev := w.devices[s.d];
    match s
    case Edit(d, tree) => w.(devices := w.devices[d := Edited(dev, tree)])
    case Begin(d) => w.(devices := w.devices[d := dev.(phase := Started(Pass(dev.diskBase, 0, |w.log|, dev.synced)))])
    case GetHead(d) =>
      var pass := dev.phase.pass;
      w.(devices := w.devices[d := dev.(phase := Fetched(pass.(attempt := pass.attempt + 1), |w.log|, Current(w.log)))])
    case ScanAndMerge(d, files, copies) =>
      var m := Merged(dev.phase.seq_, dev.tree, dev.phase.remote, files, copies, dev.since);
      w.(devices := w.devices[d := dev.(phase := Scanned(dev.phase.pass, m), recent := NOTHING)])
    case Place(d) => w.(devices := w.devices[d := PlacedOnDisk(dev, dev.phase.pass, dev.phase.m)])
    case Adopt(d) => w.(devices := w.devices[d := Committed(dev, dev.phase.m.files, dev.phase.m.seq_)])
    case PutHead(d) =>
      var pass, m := dev.phase.pass, dev.phase.m;
      if m.seq_ == |w.log| then
        World(w.log + [Published(d, pass, m)], w.devices[d := dev.(phase := Accepted(m.files, |w.log| + 1))])
      else
        w.(devices := w.devices[d := dev.(phase := LostRace(pass, m))])
    case Commit(d) => w.(devices := w.devices[d := Committed(dev, dev.phase.files, dev.phase.seq_)])
    case Crash(d) => w.(devices := w.devices[d := dev.(phase := Idle)])
  }

  // ---------- runs ----------

  ghost predicate Runs(w: World, steps: seq<Step>)
    decreases |steps|
  {
    steps == [] || (Enabled(w, steps[0]) && Runs(After(w, steps[0]), steps[1..]))
  }

  function Exec(w: World, steps: seq<Step>): World
    requires Runs(w, steps)
    decreases |steps|
  {
    if steps == [] then w else Exec(After(w, steps[0]), steps[1..])
  }

  /** No head yet; every device is idle with whatever its user has put there. */
  ghost predicate Init(w: World) {
    && w.log == []
    && forall d :: d in w.devices ==>
      var tree := w.devices[d].tree;
      w.devices[d] == Device(tree, map[], 0, Idle, NOTHING.(edited := tree.Keys), NOTHING)
  }

  ghost predicate Reachable(w: World) {
    exists w0, steps :: Init(w0) && Runs(w0, steps) && Exec(w0, steps) == w
  }

  // ---------- the invariant ----------

  /** The file set of head `from`, of head `n`, or of one in between. */
  ghost predicate PublishedIn(log: seq<Head>, from: nat, n: nat, files: Files)
    requires n <= |log|
  {
    exists k: nat :: from <= k <= n && HeadAt(log, k) == files
  }

  ghost predicate IsPublished(log: seq<Head>, files: Files) {
    PublishedIn(log, 0, |log|, files)
  }

  /** The takings that excuse head `n` for content it does not have: what its author's user
      took off the tree since the last commit, and what excuses the heads that were published
      since that commit and merged into this one. */
  function Excuses(log: seq<Head>, n: nat): set<Lost>
    requires n < |log|
    decreases n, 1
  {
    log[n].ledger.taken + ExcusesIn(log, log[n].synced, n)
  }

  /** The same of all heads after head `from` up to head `n`. */
  function ExcusesIn(log: seq<Head>, from: nat, n: nat): set<Lost>
    requires n <= |log|
    decreases n, 0
  {
    if n <= from then {} else ExcusesIn(log, from, n - 1) + Excuses(log, n - 1)
  }

  ghost predicate HeadInv(log: seq<Head>, n: nat)
    requires n < |log|
  {
    var h := log[n];
    && h.remote == HeadAt(log, n)
    && Outcome(h.base, h.local, h.remote, h.files, h.copies)
    && Valid(h.files)
    && PublishedIn(log, h.synced, n, h.base)
    && Tracks(ExcusesIn(log, h.synced, n), h.local, h.base, h.ledger)
    && Tracks(ExcusesIn(log, h.synced, n), h.files, h.remote, AfterCopies(h.ledger, h.copies))
  }

  ghost predicate LogInv(log: seq<Head>) {
    forall n :: 0 <= n < |log| ==> HeadInv(log, n)
  }

  /** Since the pass began, only other devices have published. */
  ghost predicate OthersOnly(log: seq<Head>, d: Id, from: nat) {
    forall n :: from <= n < |log| ==> log[n].author != d
  }

  /** What a device's tree owes to a base. */
  ghost predicate Owes(log: seq<Head>, synced: nat, tree: Files, base: Files, l: Ledger) {
    Tracks(ExcusesIn(log, synced, |log|), tree, base, l)
  }

  ghost predicate PassInv(log: seq<Head>, d: Id, synced: nat, pass: Pass) {
    && PublishedIn(log, synced, |log|, pass.base)
    && pass.synced == synced
    && pass.startedAt <= |log|
    && OthersOnly(log, d, pass.startedAt)
  }

  ghost predicate MergedInv(log: seq<Head>, pass: Pass, m: Merged) {
    && pass.synced <= m.seq_ <= |log|
    && pass.attempt >= 1
    && m.seq_ + 1 >= pass.startedAt + pass.attempt
    && m.remote == HeadAt(log, m.seq_)
    && PublishedIn(log, pass.synced, m.seq_, pass.base)
    && Outcome(pass.base, m.local, m.remote, m.files, m.copies)
    && Valid(m.files)
    && Owes(log, pass.synced, m.local, pass.base, m.ledger)
    && Owes(log, pass.synced, m.files, m.remote, AfterCopies(m.ledger, m.copies))
  }

  ghost predicate PhaseInv(log: seq<Head>, d: Id, dev: Device) {
    match dev.phase
    case Idle => true
    case Started(pass) =>
      && PassInv(log, d, dev.synced, pass)
      && Owes(log, dev.synced, dev.tree, pass.base, dev.since)
      && |log| >= pass.startedAt + pass.attempt
    case Fetched(pass, seq_, remote) =>
      && PassInv(log, d, dev.synced, pass)
      && Owes(log, dev.synced, dev.tree, pass.base, dev.since)
      && pass.attempt >= 1 && dev.synced <= seq_ <= |log| && seq_ + 1 >= pass.startedAt + pass.attempt
      && PublishedIn(log, dev.synced, seq_, pass.base)
      && remote == HeadAt(log, seq_)
    case Scanned(pass, m) =>
      && PassInv(log, d, dev.synced, pass)
      && MergedInv(log, pass, m)
      && m.local == dev.tree && m.ledger == dev.since
      && dev.recent == NOTHING
    case Placed(pass, m) =>
      && PassInv(log, d, dev.synced, pass)
      && MergedInv(log, pass, m)
      && Tracks({}, dev.tree, m.files, dev.recent)
      && Owes(log, dev.synced, dev.tree, m.remote, dev.since)
    case Accepted(files, seq_) =>
      && seq_ <= |log| && HeadAt(log, seq_) == files
      && Tracks({}, dev.tree, files, dev.recent)
  }

  ghost predicate Within(a: Ledger, b: Ledger) {
    a.edited <= b.edited && a.made <= b.made && a.taken <= b.taken && a.copied <= b.copied
  }

  ghost predicate DeviceInv(log: seq<Head>, d: Id, dev: Device) {
    && PublishedIn(log, dev.synced, |log|, dev.diskBase)
    && Owes(log, dev.synced, dev.tree, dev.diskBase, dev.since)
    && Within(dev.recent, dev.since)
    && PhaseInv(log, d, dev)
  }

  ghost predicate Inv(w: World) {
    && LogInv(w.log)
    && (forall d :: d in w.devices ==> DeviceInv(w.log, d, w.devices[d]))
  }

  lemma InitInv(w: World)
    requires Init(w)
    ensures Inv(w)
  {
    forall d | d in w.devices
      ensures DeviceInv(w.log, d, w.devices[d])
    {
      assert HeadAt(w.log, 0) == map[];
      assert forall e :: Covers(map[], w.devices[d].tree, e);
    }
  }

  // ---------- content over the log ----------

  /** A longer stretch of the log has more excuses. */
  lemma {:induction false} ExcusesGrow(log: seq<Head>, from: nat, i: nat, n: nat, m: nat)
    requires from <= i && n <= m <= |log|
    ensures ExcusesIn(log, i, n) <= ExcusesIn(log, from, m)
    decreases m
  {
    if n == m {
      if n > i {
        ExcusesGrow(log, from, i, n - 1, m - 1);
      }
    } else {
      ExcusesGrow(log, from, i, n, m - 1);
      assert m > from || ExcusesIn(log, i, n) == {};
    }
  }

  lemma {:induction false} ExcusesOfPrefix(log: seq<Head>, h: Head, from: nat, n: nat)
    requires n <= |log|
    ensures ExcusesIn(log + [h], from, n) == ExcusesIn(log, from, n)
    decreases n
  {
    if n > from {
      ExcusesOfPrefix(log, h, from, n - 1);
      ExcusesOfPrefix(log, h, log[n - 1].synced, n - 1);
    }
  }

  /** Between two heads no content goes missing without an excuse of the heads in between. */
  lemma {:induction false} LogKeeps(log: seq<Head>, i: nat, j: nat)
    requires LogInv(log) && i <= j <= |log|
    ensures Keeps(ExcusesIn(log, i, j), HeadAt(log, i), HeadAt(log, j))
    decreases j - i
  {
    if i == j {
      TracksItself({}, HeadAt(log, j), NOTHING);
      assert {} + NOTHING.taken == ExcusesIn(log, i, j);
    } else {
      hide Keeps, HeadInv, HeadAt, Excuses;
      LogKeeps(log, i, j - 1);
      assert ExcusesIn(log, i, j) == ExcusesIn(log, i, j - 1) + Excuses(log, j - 1);
      hide ExcusesIn, LogInv;
      KeepsMore(ExcusesIn(log, i, j - 1), ExcusesIn(log, i, j), HeadAt(log, i), HeadAt(log, j - 1));
      assert HeadInv(log, j - 1) by {
        HeadOf(log, j - 1);
      }
      HeadKeeps(log, j - 1);
      KeepsMore(Excuses(log, j - 1), ExcusesIn(log, i, j), HeadAt(log, j - 1), HeadAt(log, j));
      KeepsOnward(ExcusesIn(log, i, j), HeadAt(log, i), HeadAt(log, j - 1), HeadAt(log, j));
    }
  }

  lemma HeadOf(log: seq<Head>, n: nat)
    requires LogInv(log) && n < |log|
    ensures HeadInv(log, n)
  {
    hide HeadInv;
  }

  /** One head against its predecessor. */
  lemma HeadKeeps(log: seq<Head>, n: nat)
    requires n < |log| && HeadInv(log, n)
    ensures Keeps(Excuses(log, n), HeadAt(log, n), HeadAt(log, n + 1))
  {
    hide Keeps, Outcome, Valid, ExcusesIn;
    var h := log[n];
    assert ExcusesIn(log, h.synced, n) + h.ledger.taken == Excuses(log, n);
  }

  // ---------- one step keeps it ----------

  lemma LogGrows(log: seq<Head>, h: Head)
    ensures forall n: nat :: n <= |log| ==> HeadAt(log + [h], n) == HeadAt(log, n)
    ensures forall i: nat, n: nat, files :: n <= |log| && PublishedIn(log, i, n, files) ==> PublishedIn(log + [h], i, n, files)
    ensures forall i: nat, files :: PublishedIn(log, i, |log|, files) ==> PublishedIn(log + [h], i, |log + [h]|, files)
    ensures HeadAt(log + [h], |log| + 1) == h.files
  {
    forall i: nat, n: nat, files | n <= |log| && PublishedIn(log, i, n, files)
      ensures PublishedIn(log + [h], i, n, files) && PublishedIn(log + [h], i, |log| + 1, files)
    {
      var k: nat :| i <= k <= n && HeadAt(log, k) == files;
      assert HeadAt(log + [h], k) == files;
    }
  }

  lemma LaterOwes(log: seq<Head>, h: Head, synced: nat, tree: Files, base: Files, l: Ledger)
    requires Owes(log, synced, tree, base, l)
    ensures Owes(log + [h], synced, tree, base, l)
  {
    ExcusesOfPrefix(log, h, synced, |log|);
    ExcusesGrow(log + [h], synced, synced, |log|, |log| + 1);
    TracksMore(ExcusesIn(log, synced, |log|), ExcusesIn(log + [h], synced, |log| + 1), tree, base, l, l);
  }

  lemma LaterMerged(log: seq<Head>, h: Head, pass: Pass, m: Merged)
    requires MergedInv(log, pass, m)
    ensures MergedInv(log + [h], pass, m)
  {
    LogGrows(log, h);
    hide Outcome, Valid, Owes, HeadAt, PublishedIn, AfterCopies;
    LaterOwes(log, h, pass.synced, m.local, pass.base, m.ledger);
    LaterOwes(log, h, pass.synced, m.files, m.remote, AfterCopies(m.ledger, m.copies));
  }

  /** The other devices only see the log grow by a head that is not theirs. */
  lemma OtherDeviceKeeps(log: seq<Head>, h: Head, d: Id, dev: Device)
    requires DeviceInv(log, d, dev) && h.author != d
    ensures DeviceInv(log + [h], d, dev)
  {
    hide Outcome, Valid, Tracks, Owes, HeadAt, PublishedIn, MergedInv, AfterCopies;
    LogGrows(log, h);
    LaterOwes(log, h, dev.synced, dev.tree, dev.diskBase, dev.since);
    match dev.phase {
      case Idle =>
      case Started(pass) => LaterOwes(log, h, dev.synced, dev.tree, pass.base, dev.since);
      case Fetched(pass, seq_, remote) => LaterOwes(log, h, dev.synced, dev.tree, pass.base, dev.since);
      case Scanned(pass, m) => LaterMerged(log, h, pass, m);
      case Placed(pass, m) =>
        LaterMerged(log, h, pass, m);
        LaterOwes(log, h, dev.synced, dev.tree, m.remote, dev.since);
      case Accepted(files, seq_) =>
    }
  }

  lemma HeadsKeep(log: seq<Head>, h: Head)
    requires LogInv(log) && HeadInv(log + [h], |log|)
    ensures LogInv(log + [h])
  {
    LogGrows(log, h);
    hide Outcome, Valid, Tracks, HeadAt, PublishedIn, ExcusesIn;
    forall n | 0 <= n < |log|
      ensures HeadInv(log + [h], n)
    {
      assert HeadInv(log, n);
      ExcusesOfPrefix(log, h, log[n].synced, n);
      assert HeadAt(log + [h], n) == HeadAt(log, n);
    }
  }

  lemma EditOwes(log: seq<Head>, synced: nat, before: Files, after: Files, base: Files, l: Ledger)
    requires Owes(log, synced, before, base, l)
    ensures Owes(log, synced, after, base, AfterEdit(l, before, after))
  {
    EditTracks(ExcusesIn(log, synced, |log|), before, after, base, l);
  }

  lemma EditKeeps(log: seq<Head>, d: Id, dev: Device, tree: Files)
    requires DeviceInv(log, d, dev) && !dev.phase.Scanned?
    ensures DeviceInv(log, d, Edited(dev, tree))
  {
    hide Outcome, Valid, Tracks, Owes, HeadAt, MergedInv, PublishedIn, ChangedPaths, TakenOff;
    EditOwes(log, dev.synced, dev.tree, tree, dev.diskBase, dev.since);
    match dev.phase {
      case Idle =>
      case Started(pass) => EditOwes(log, dev.synced, dev.tree, tree, pass.base, dev.since);
      case Fetched(pass, seq_, remote) => EditOwes(log, dev.synced, dev.tree, tree, pass.base, dev.since);
      case Placed(pass, m) =>
        EditTracks({}, dev.tree, tree, m.files, dev.recent);
        EditOwes(log, dev.synced, dev.tree, tree, m.remote, dev.since);
      case Accepted(files, seq_) => EditTracks({}, dev.tree, tree, files, dev.recent);
    }
  }

  lemma BeginKeeps(log: seq<Head>, d: Id, dev: Device)
    requires DeviceInv(log, d, dev)
    ensures DeviceInv(log, d, dev.(phase := Started(Pass(dev.diskBase, 0, |log|, dev.synced))))
  {
    hide Owes, PublishedIn;
  }

  lemma GetHeadKeeps(log: seq<Head>, d: Id, dev: Device)
    requires DeviceInv(log, d, dev) && dev.phase.Started?
    ensures var pass := dev.phase.pass;
            DeviceInv(log, d, dev.(phase := Fetched(pass.(attempt := pass.attempt + 1), |log|, Current(log))))
  {
    SyncedIsPast(log, dev.synced, |log|, dev.diskBase);
    hide Outcome, Valid, Owes, PublishedIn, HeadAt;
  }

  lemma SyncedIsPast(log: seq<Head>, from: nat, n: nat, files: Files)
    requires n <= |log| && PublishedIn(log, from, n, files)
    ensures from <= n
  {
  }

  lemma ScanKeeps(log: seq<Head>, d: Id, dev: Device, files: Files, copies: seq<ConflictCopy>)
    requires LogInv(log) && DeviceInv(log, d, dev) && dev.phase.Fetched?
    requires Valid(files) && Outcome(dev.phase.pass.base, dev.tree, dev.phase.remote, files, copies)
    ensures var m := Merged(dev.phase.seq_, dev.tree, dev.phase.remote, files, copies, dev.since);
            DeviceInv(log, d, dev.(phase := Scanned(dev.phase.pass, m), recent := NOTHING))
  {
    var pass, seq_, remote := dev.phase.pass, dev.phase.seq_, dev.phase.remote;
    BaseIsKept(log, dev.synced, seq_, pass.base, dev.since.taken);
    hide LogInv;
    MergeTracks(ExcusesIn(log, dev.synced, |log|), pass.base, dev.tree, remote, files, copies, dev.since);
    hide Outcome, Valid, Tracks, PublishedIn, HeadAt, ExcusesIn, AfterCopies;
  }

  /** A base is never behind what was published later by more than is excused. */
  lemma BaseIsKept(log: seq<Head>, synced: nat, n: nat, base: Files, taken: set<Lost>)
    requires LogInv(log) && n <= |log| && PublishedIn(log, synced, n, base)
    ensures Keeps(ExcusesIn(log, synced, |log|) + taken, base, HeadAt(log, n))
  {
    var k: nat :| synced <= k <= n && HeadAt(log, k) == base;
    LogKeeps(log, k, n);
    ExcusesGrow(log, synced, k, n, |log|);
    KeepsMore(ExcusesIn(log, k, n), ExcusesIn(log, synced, |log|) + taken, base, HeadAt(log, n));
  }

  lemma PlaceKeeps(log: seq<Head>, d: Id, dev: Device)
    requires DeviceInv(log, d, dev) && dev.phase.Scanned?
    ensures DeviceInv(log, d, PlacedOnDisk(dev, dev.phase.pass, dev.phase.m))
  {
    hide Outcome, Valid, WithLocalCopies, HeadAt, PublishedIn, OthersOnly, Tracks, Owes, CopyPaths, Losers, MergedInv;
    var pass, m := dev.phase.pass, dev.phase.m;
    MergedFacts(log, pass, m);
    HeadIsPublished(log, pass.synced, m.seq_);
    TracksItself({}, m.files, NOTHING);
    if WithLocalCopies(m.local, m.copies) == m.files {
      NothingToApplyOwes(log, dev.synced, pass.base, m, dev.diskBase);
    }
  }

  lemma MergedFacts(log: seq<Head>, pass: Pass, m: Merged)
    requires MergedInv(log, pass, m)
    ensures pass.synced <= m.seq_ <= |log| && m.remote == HeadAt(log, m.seq_)
    ensures Outcome(pass.base, m.local, m.remote, m.files, m.copies)
    ensures Owes(log, pass.synced, m.files, m.remote, AfterCopies(m.ledger, m.copies))
  {
  }

  lemma HeadIsPublished(log: seq<Head>, from: nat, n: nat)
    requires from <= n <= |log|
    ensures PublishedIn(log, from, |log|, HeadAt(log, n)) && PublishedIn(log, from, n, HeadAt(log, n))
  {
  }

  /** When nothing had to be applied, the tree only gained local copies, if any. */
  lemma NothingToApplyOwes(log: seq<Head>, synced: nat, base: Files, m: Merged, diskBase: Files)
    requires Outcome(base, m.local, m.remote, m.files, m.copies)
    requires WithLocalCopies(m.local, m.copies) == m.files
    requires Owes(log, synced, m.local, diskBase, m.ledger)
    ensures Owes(log, synced, m.files, diskBase, AfterCopies(m.ledger, m.copies))
  {
    OnDiskShape(base, m.local, m.remote, m.files, m.copies);
    hide Outcome, WithLocalCopies, Tracks, ExcusesIn;
    var elsewhere := ExcusesIn(log, synced, |log|);
    forall p | p in m.files && p !in m.local
      ensures p in CopyPaths(m.copies)
    {
      assert p in LocalCopies(m.copies);
    }
    GainTracks(elsewhere, diskBase, m.local, m.files, m.ledger, CopyPaths(m.copies));
    var l := AfterCopies(m.ledger, m.copies);
    TracksMore(elsewhere, elsewhere, m.files, diskBase, m.ledger.(made := m.ledger.made + CopyPaths(m.copies)), l);
  }

  lemma LostRaceKeeps(log: seq<Head>, d: Id, dev: Device)
    requires DeviceInv(log, d, dev) && dev.phase.Placed? && dev.phase.m.seq_ != |log|
    ensures DeviceInv(log, d, dev.(phase := LostRace(dev.phase.pass, dev.phase.m)))
  {
    HeadIsPublished(log, dev.synced, dev.phase.m.seq_);
    hide Outcome, Valid, Tracks, Owes, PublishedIn, HeadAt;
  }

  lemma CommitKeeps(log: seq<Head>, d: Id, dev: Device, files: Files, seq_: nat)
    requires DeviceInv(log, d, dev) && seq_ <= |log| && HeadAt(log, seq_) == files
    requires Tracks({}, dev.tree, files, dev.recent)
    ensures DeviceInv(log, d, Committed(dev, files, seq_))
  {
    TracksMore({}, ExcusesIn(log, seq_, |log|), dev.tree, files, dev.recent, dev.recent);
    HeadIsPublished(log, seq_, seq_);
    hide Tracks, PublishedIn, PhaseInv, ExcusesIn;
    IdleKeeps(log, d, Committed(dev, files, seq_));
  }

  lemma AdoptKeeps(log: seq<Head>, d: Id, dev: Device)
    requires DeviceInv(log, d, dev) && dev.phase.Placed? && UpToDate(dev.phase.m)
    ensures DeviceInv(log, d, Committed(dev, dev.phase.m.files, dev.phase.m.seq_))
  {
    hide Outcome, Valid, Tracks, Owes, PublishedIn, HeadAt;
    CommitKeeps(log, d, dev, dev.phase.m.files, dev.phase.m.seq_);
  }

  lemma AcceptedKeeps(log: seq<Head>, d: Id, dev: Device)
    requires DeviceInv(log, d, dev) && dev.phase.Accepted?
    ensures DeviceInv(log, d, Committed(dev, dev.phase.files, dev.phase.seq_))
  {
    hide Tracks, Owes, PublishedIn, HeadAt;
    CommitKeeps(log, d, dev, dev.phase.files, dev.phase.seq_);
  }

  lemma CrashKeeps(log: seq<Head>, d: Id, dev: Device)
    requires DeviceInv(log, d, dev)
    ensures DeviceInv(log, d, dev.(phase := Idle))
  {
    hide Owes, PublishedIn;
  }

  lemma IdleKeeps(log: seq<Head>, d: Id, dev: Device)
    requires dev.phase.Idle?
    ensures PhaseInv(log, d, dev)
  {
  }

  /** The compare-and-swap succeeded: the new head is a merge against the newest one. */
  lemma AcceptKeeps(log: seq<Head>, d: Id, dev: Device)
    requires DeviceInv(log, d, dev) && dev.phase.Placed? && dev.phase.m.seq_ == |log|
    ensures var log' := log + [Published(d, dev.phase.pass, dev.phase.m)];
      && HeadInv(log', |log|)
      && DeviceInv(log', d, dev.(phase := Accepted(dev.phase.m.files, |log| + 1)))
  {
    var pass, m := dev.phase.pass, dev.phase.m;
    var h := Published(d, pass, m);
    LogGrows(log, h);
    ExcusesOfPrefix(log, h, pass.synced, |log|);
    assert HeadAt(log + [h], |log|) == HeadAt(log, |log|);
    LaterOwes(log, h, dev.synced, dev.tree, dev.diskBase, dev.since);
    hide Outcome, Valid, HeadAt, PublishedIn, Tracks, AfterCopies, ExcusesIn;
  }

  /** Whether this step publishes a head. */
  predicate AddsHead(w: World, s: Step) {
    s.PutHead? && s.d in w.devices && w.devices[s.d].phase.Placed? && w.devices[s.d].phase.m.seq_ == |w.log|
  }

  lemma StepKeepsInv(w: World, s: Step)
    requires Inv(w) && Enabled(w, s)
    ensures Inv(After(w, s))
  {
    if AddsHead(w, s) {
      HeadStepKeeps(w, s);
    } else {
      DeviceStepKeeps(w, s);
      OnlyItsDevice(w, s);
      hide Enabled, After, AddsHead, DeviceInv, LogInv;
    }
  }

  lemma OnlyItsDevice(w: World, s: Step)
    requires Enabled(w, s) && !AddsHead(w, s)
    ensures After(w, s).log == w.log && s.d in After(w, s).devices
    ensures After(w, s).devices == w.devices[s.d := After(w, s).devices[s.d]]
  {
    hide Outcome, Valid, Edited, PlacedOnDisk, Committed, LostRace, Published;
  }

  lemma DeviceStepKeeps(w: World, s: Step)
    requires Inv(w) && Enabled(w, s) && !AddsHead(w, s)
    ensures s.d in After(w, s).devices && DeviceInv(w.log, s.d, After(w, s).devices[s.d])
  {
    var dev := w.devices[s.d];
    assert DeviceInv(w.log, s.d, dev);
    hide LogInv, DeviceInv, Outcome, Valid, Edited, PlacedOnDisk, Committed, LostRace, Published, Inv;
    match s {
      case Edit(d, tree) => EditKeeps(w.log, d, dev, tree);
      case Begin(d) => BeginKeeps(w.log, d, dev);
      case GetHead(d) => GetHeadKeeps(w.log, d, dev);
      case ScanAndMerge(d, files, copies) => ScanKeeps(w.log, d, dev, files, copies);
      case Place(d) => PlaceKeeps(w.log, d, dev);
      case Adopt(d) => AdoptKeeps(w.log, d, dev);
      case PutHead(d) => LostRaceKeeps(w.log, d, dev);
      case Commit(d) => AcceptedKeeps(w.log, d, dev);
      case Crash(d) => CrashKeeps(w.log, d, dev);
    }
  }

  lemma HeadStepKeeps(w: World, s: Step)
    requires Inv(w) && Enabled(w, s) && AddsHead(w, s)
    ensures Inv(After(w, s))
  {
    var dev := w.devices[s.d];
    assert DeviceInv(w.log, s.d, dev);
    AcceptKeeps(w.log, s.d, dev);
    PublishKeepsOthers(w, s.d);
    hide LogInv, DeviceInv, Outcome, Valid, Published;
  }

  lemma PublishKeepsOthers(w: World, d: Id)
    requires Inv(w) && d in w.devices && w.devices[d].phase.Placed? && w.devices[d].phase.m.seq_ == |w.log|
    ensures var h := Published(d, w.devices[d].phase.pass, w.devices[d].phase.m);
      && LogInv(w.log + [h])
      && (forall e :: e in w.devices && e != d ==> DeviceInv(w.log + [h], e, w.devices[e]))
  {
    var h := Published(d, w.devices[d].phase.pass, w.devices[d].phase.m);
    AcceptKeeps(w.log, d, w.devices[d]);
    HeadsKeep(w.log, h);
    hide HeadInv, DeviceInv;
    forall e | e in w.devices && e != d
      ensures DeviceInv(w.log + [h], e, w.devices[e])
    {
      OtherDeviceKeeps(w.log, h, e, w.devices[e]);
    }
  }

  lemma {:induction false} RunKeepsInv(w: World, steps: seq<Step>)
    requires Inv(w) && Runs(w, steps)
    ensures Inv(Exec(w, steps))
    decreases |steps|
  {
    hide Inv, Enabled, After;
    if steps != [] {
      StepKeepsInv(w, steps[0]);
      RunKeepsInv(After(w, steps[0]), steps[1..]);
    }
  }

  lemma ReachableInv(w: World)
    requires Reachable(w)
    ensures Inv(w)
  {
    var w0, steps :| Init(w0) && Runs(w0, steps) && Exec(w0, steps) == w;
    InitInv(w0);
    RunKeepsInv(w0, steps);
  }
}
