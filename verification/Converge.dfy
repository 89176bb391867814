/** One converge pass as the loop that the source runs: fetch the head, merge, fetch
    chunks, materialize, publish by compare-and-swap, and retry against the winner of
    a lost race (crates/core/src/converge.rs). Other writers publish in between, and
    requests and commits can fail. */
module Converging {
  import opened Manifests
  import opened Merging
  import opened MergeLaws
  import opened MergeExistence
  import opened Disks
  import opened Apply
  import opened Materializing
  import FetchPlanning
  import opened Tracking
  import opened Protocol
  import opened Attempts

  /** What goes wrong on the way, other than by what is merged. `AnswerLost`: the relay got
      the new head, the device not its answer. `CommitFailed`: the store could not be flushed
      or the pointer not be written. */
  datatype Fault = NoFault | HeadUnreachable | ScanFailed | FetchFailed | UploadFailed | PutFailed | AnswerLost | CommitFailed

  datatype ConvergeError =
    | UnreadableBase
    | InvalidHead
    | InvalidMerge
    | MissingChunks
    | NotMaterialized(error: MaterializeError)
    | Broken(fault: Fault)
    | LostEveryRace

  datatype ConvergeReport = ConvergeReport(pushed: bool, headSeq: nat, attempts: nat, placed: Materialized)

  // ---------- the surroundings of a pass ----------

  /** What a device brings to a pass: the label and the stamp of its conflict copies, the order
      in which it lists keys, the folding of names, and what it puts into a manifest. */
  datatype Setup = Setup(device: string, stamp: string, list: set<Path> -> seq<Path>, fold: Path -> Path,
                         workspaceId: string, now: int)

  /** What a pass has at its disposal: the chunks that the local store and the relay hold, the
      places in its tree where no directory is empty, and its setup. */
  datatype Means = Means(have: set<Hash>, tidy: iset<Path>, setup: Setup)

  ghost predicate ListsKeys(setup: Setup) {
    forall keys :: Lists(setup.list(keys), keys)
  }

  /** What other writers publish while one attempt runs, and what fails in it. */
  datatype Turn = Turn(race: seq<Head>, fault: Fault)

  function TurnAt(turns: seq<Turn>, n: nat): Turn {
    if n < |turns| then turns[n] else Turn([], NoFault)
  }

  ghost predicate OthersWrote(race: seq<Head>, d: Id) {
    forall i :: 0 <= i < |race| ==> race[i].author != d
  }

  function FilesOf(log: seq<Head>): seq<Files> {
    seq(|log|, i requires 0 <= i < |log| => log[i].files)
  }

  lemma FilesOfConcat(a: seq<Head>, b: seq<Head>)
    ensures FilesOf(a + b) == FilesOf(a) + FilesOf(b)
  {
  }

  /** The relay as a device sees it: the file sets of the published heads. `log` says who
      published them, and from what. */
  class HeadLog {
    var heads: seq<Files>
    ghost var log: seq<Head>

    ghost predicate Valid()
      reads this
    {
      heads == FilesOf(log)
    }

    /** The empty file set stands for a workspace without a head. */
    function Head(): Files
      reads this
    {
      if heads == [] then map[] else heads[|heads| - 1]
    }

    method OthersPublish(race: seq<Head>)
      requires Valid()
      modifies this
      ensures Valid() && log == old(log) + race
    {
      heads := heads + FilesOf(race);
      log := log + race;
    }

    /** Compare-and-swap on the sequence number of the head. */
    method PutHead(baseSeq: nat, files: Files, ghost head: Head) returns (ok: bool)
      requires Valid() && head.files == files
      modifies this
      ensures Valid()
      ensures ok <==> baseSeq == |old(log)|
      ensures log == old(log) + if ok then [head] else []
    {
      ok := baseSeq == |heads|;
      if ok {
        heads := heads + [files];
        log := log + [head];
      }
    }
  }

  // ---------- listing and fetching ----------

  /** Every chunk that the apply and the local-only copies will read. */
  function PlannedChunks(plan: ManifestDiff, files: Files, copies: seq<ConflictCopy>): set<Hash> {
    (set p, h | p in plan.added + plan.changed && p in files && h in ChunksOf(files[p]) :: h)
    + (set c, h | c in copies && IsAssembled(c) && h in ChunksOf(c.entry) :: h)
  }

  /** A local-only copy of a remote loser is assembled from chunks, but in no diff. */
  predicate IsAssembled(c: ConflictCopy) {
    c.localOnly && c.side == Remote
  }

  lemma PlanSuffices(local: Files, files: Files, copies: seq<ConflictCopy>, have: set<Hash>)
    requires PlannedChunks(ApplyFromRemote(local, files, copies), files, copies) <= have
    ensures HasPlannedChunks(local, files, copies, have)
  {
    var plan := ApplyFromRemote(local, files, copies);
    forall p, h | p in plan.added + plan.changed && p in files && h in ChunksOf(files[p])
      ensures h in have
    {
      assert h in PlannedChunks(plan, files, copies);
    }
    forall i, h | 0 <= i < |copies| && copies[i].localOnly && copies[i].side == Remote && h in ChunksOf(copies[i].entry)
      ensures h in have
    {
      assert copies[i] in copies && IsAssembled(copies[i]);
      assert h in PlannedChunks(plan, files, copies);
    }
  }

  /** The chunks of a whole manifest. */
  function ChunksIn(m: Files): set<Hash> {
    set p, h | p in m && h in ChunksOf(m[p]) :: h
  }

  /** A pass reads no chunk that the head does not list: what it takes from its own side is
      on disk already. */
  lemma PlanReadsTheHead(base: Files, local: Files, remote: Files, files: Files, copies: seq<ConflictCopy>)
    requires Outcome(base, local, remote, files, copies)
    ensures PlannedChunks(ApplyFromRemote(local, files, copies), files, copies) <= ChunksIn(remote)
  {
    hide ApplyFromRemote, PreservesLoser;
    var plan := ApplyFromRemote(local, files, copies);
    forall p, h | p in plan.added + plan.changed && p in files && h in ChunksOf(files[p])
      ensures h in ChunksIn(remote)
    {
      PlannedEntry(base, local, remote, files, copies, p);
    }
    forall c, h | c in copies && IsAssembled(c) && h in ChunksOf(c.entry)
      ensures h in ChunksIn(remote)
    {
      RemoteLoser(base, local, remote, c);
    }
  }

  lemma RemoteLoser(base: Files, local: Files, remote: Files, c: ConflictCopy)
    requires PreservesLoser(c, base, local, remote) && c.side == Remote
    ensures Get(remote, c.path) == Some(c.entry)
  {
  }

  /** What has to be written is a remote entry, or the copy of one. */
  lemma PlannedEntry(base: Files, local: Files, remote: Files, files: Files, copies: seq<ConflictCopy>, p: Path)
    requires Outcome(base, local, remote, files, copies) && p in files
    requires var plan := ApplyFromRemote(local, files, copies); p in plan.added + plan.changed
    ensures exists q :: Get(remote, q) == Some(files[p])
  {
    hide PreservesLoser, Contested, WinnerAt;
    if p in local || p in remote {
      assert Get(files, p) == WinnerAt(base, local, remote, p);
      DecideKeepsEdits(Get(base, p), Get(local, p), Get(remote, p));
      WinnerIsASide(base, local, remote, p);
      assert Get(remote, p) == Some(files[p]);
    } else {
      var i :| 0 <= i < |copies| && !copies[i].localOnly && copies[i].copyPath == p;
      assert Get(files, copies[i].copyPath) == Some(copies[i].entry);
      assert copies[i] in copies;
      if copies[i].side == Remote {
        RemoteLoser(base, local, remote, copies[i]);
        assert Get(remote, copies[i].path) == Some(files[p]);
      }
    }
  }

  lemma WinnerIsASide(base: Files, local: Files, remote: Files, p: Path)
    ensures WinnerAt(base, local, remote, p) in {Get(local, p), Get(remote, p)}
  {
  }

  method EntriesOf(paths: set<Path>, files: Files) returns (entries: seq<FileEntry>)
    requires paths <= files.Keys
    ensures SetOf(FetchPlanning.AllChunks(entries)) == set p, h | p in paths && h in ChunksOf(files[p]) :: h
  {
    entries := [];
    var todo := paths;
    while todo != {}
      invariant todo <= paths
      invariant SetOf(FetchPlanning.AllChunks(entries)) == set p, h | p in paths - todo && h in ChunksOf(files[p]) :: h
      decreases todo
    {
      var p :| p in todo;
      ChunksSnoc(entries, files[p]);
      entries := entries + [files[p]];
      assert paths - (todo - {p}) == (paths - todo) + {p};
      todo := todo - {p};
    }
    assert paths - todo == paths;
  }

  lemma ChunksSnoc(entries: seq<FileEntry>, e: FileEntry)
    ensures SetOf(FetchPlanning.AllChunks(entries + [e])) == SetOf(FetchPlanning.AllChunks(entries)) + ChunksOf(e)
  {
    assert (entries + [e])[..|entries|] == entries;
  }

  lemma {:induction false} ChunksConcat(a: seq<FileEntry>, b: seq<FileEntry>)
    ensures SetOf(FetchPlanning.AllChunks(a + b)) == SetOf(FetchPlanning.AllChunks(a)) + SetOf(FetchPlanning.AllChunks(b))
    decreases |b|
  {
    if b == [] {
      assert a + b == a;
    } else {
      var n := |b| - 1;
      assert a + b == (a + b[..n]) + [b[n]] && b == b[..n] + [b[n]];
      ChunksConcat(a, b[..n]);
      ChunksSnoc(a + b[..n], b[n]);
      ChunksSnoc(b[..n], b[n]);
    }
  }

  method AssembledEntries(copies: seq<ConflictCopy>) returns (entries: seq<FileEntry>)
    ensures SetOf(FetchPlanning.AllChunks(entries)) == set c, h | c in copies && IsAssembled(c) && h in ChunksOf(c.entry) :: h
  {
    entries := [];
    for i := 0 to |copies|
      invariant SetOf(FetchPlanning.AllChunks(entries)) == set c, h | c in copies[..i] && IsAssembled(c)
                && h in ChunksOf(c.entry) :: h
    {
      assert forall c :: c in copies[..i + 1] <==> c in copies[..i] || c == copies[i];
      if IsAssembled(copies[i]) {
        ChunksSnoc(entries, copies[i].entry);
        entries := entries + [copies[i].entry];
      }
    }
    assert copies[..|copies|] == copies;
  }

  /** Downloads what the local store lacks, batch by batch; a chunk that the relay cannot
      serve stops the pass before anything is applied. The batches hold exactly the planned
      chunks. */
  method FetchForApply(plan: ManifestDiff, files: Files, copies: seq<ConflictCopy>, store: set<Hash>, pool: set<Hash>)
    returns (r: Option<set<Hash>>, batches: seq<seq<Hash>>)
    requires plan.added <= files.Keys && plan.changed <= files.Keys
    ensures Lists(FetchPlanning.Concat(batches), PlannedChunks(plan, files, copies))
    ensures r.Some? <==> PlannedChunks(plan, files, copies) <= store + pool
    ensures r.Some? ==> r.value == store + PlannedChunks(plan, files, copies)
  {
    var added := EntriesOf(plan.added, files);
    var changed := EntriesOf(plan.changed, files);
    var assembled := AssembledEntries(copies);
    ChunksConcat(added, changed);
    ChunksConcat(added + changed, assembled);
    var needed := added + changed + assembled;
    assert SetOf(FetchPlanning.AllChunks(needed)) == PlannedChunks(plan, files, copies);
    ghost var cuts;
    batches, cuts := FetchPlanning.PlanFetchBatches(needed);
    FetchPlanning.FetchedOnce(FetchPlanning.AllChunks(needed));
    hide FetchPlanning.AllChunks, FetchPlanning.IsPlan, FetchPlanning.FirstOccurrences, FetchPlanning.Join, PlannedChunks;
    var need := FetchPlanning.Concat(batches);
    var toFetch := set h | h in need && h !in store;
    if !(toFetch <= pool) {
      assert !(PlannedChunks(plan, files, copies) <= store + pool);
      return None, batches;
    }
    var fetched := FetchBatches(batches, toFetch, store);
    r := Some(fetched);
  }

  method FetchBatches(batches: seq<seq<Hash>>, toFetch: set<Hash>, store: set<Hash>) returns (fetched: set<Hash>)
    requires toFetch == set h | h in FetchPlanning.Concat(batches) && h !in store
    ensures fetched == store + SetOf(FetchPlanning.Concat(batches))
  {
    fetched := store;
    assert FetchPlanning.Concat(batches[..0]) == [];
    for i := 0 to |batches|
      invariant fetched == store + SetOf(FetchPlanning.Concat(batches[..i]))
    {
      fetched := fetched + set h | h in batches[i] && h in toFetch;
      OneBatchMore(batches, i, toFetch, store);
    }
    assert batches[..|batches|] == batches;
  }

  lemma OneBatchMore(batches: seq<seq<Hash>>, i: nat, toFetch: set<Hash>, store: set<Hash>)
    requires i < |batches| && toFetch == set h | h in FetchPlanning.Concat(batches) && h !in store
    ensures store + SetOf(FetchPlanning.Concat(batches[..i])) + (set h | h in batches[i] && h in toFetch)
         == store + SetOf(FetchPlanning.Concat(batches[..i + 1]))
  {
    assert batches[..i + 1][..i] == batches[..i];
    forall h | h in batches[i]
      ensures h in FetchPlanning.Concat(batches)
    {
      InSomeBatch(batches, i, h);
    }
  }

  lemma {:induction false} InSomeBatch(batches: seq<seq<Hash>>, i: nat, h: Hash)
    requires i < |batches| && h in batches[i]
    ensures h in FetchPlanning.Concat(batches)
    decreases |batches|
  {
    if i < |batches| - 1 {
      InSomeBatch(batches[..|batches| - 1], i, h);
    }
  }

  // ---------- the pointer at every instant ----------

  /** The base that a pointer stands for; none is the empty file set. */
  function BaseOf(pointer: Option<Files>): Files {
    if pointer.Some? then pointer.value else map[]
  }

  /** A manifest pointer names nothing that was not published. */
  predicate PointerIsPublished(heads: seq<Files>, pointer: Option<Files>) {
    BaseOf(pointer) == map[] || BaseOf(pointer) in heads
  }

  /** From the last state of `before` on, the pointer is the first one or published. */
  ghost predicate PointersPublished(heads: seq<Files>, first: Option<Files>, before: seq<Snapshot>, trace: seq<Snapshot>) {
    && before != [] && before <= trace
    && forall i :: |before| - 1 <= i < |trace| ==> trace[i].pointer == first || PointerIsPublished(heads, trace[i].pointer)
  }

  lemma MorePublished(heads: seq<Files>, more: seq<Files>, first: Option<Files>, before: seq<Snapshot>, trace: seq<Snapshot>)
    requires PointersPublished(heads, first, before, trace) && heads <= more
    ensures PointersPublished(more, first, before, trace)
  {
    hide PointerIsPublished;
    forall i | |before| - 1 <= i < |trace|
      ensures trace[i].pointer == first || PointerIsPublished(more, trace[i].pointer)
    {
      StillPublished(heads, more, trace[i].pointer);
    }
  }

  lemma StillPublished(heads: seq<Files>, more: seq<Files>, pointer: Option<Files>)
    requires heads <= more
    ensures PointerIsPublished(heads, pointer) ==> PointerIsPublished(more, pointer)
  {
    assert forall m :: m in heads ==> m in more;
  }

  /** Since `before`, the pointer has either stayed or moved to the head merged against. */
  ghost predicate PointerStaysOr(before: seq<Snapshot>, trace: seq<Snapshot>, start: Option<Files>, remote: Files) {
    before <= trace && forall i :: |before| <= i < |trace| ==> trace[i].pointer == start || trace[i].pointer == Some(remote)
  }

  lemma PlacingMovesPointer(before: seq<Snapshot>, trace: seq<Snapshot>, start: Snapshot,
                            remote: Files, files: Files, copies: seq<ConflictCopy>)
    requires AllMidMaterialize(start, before, trace, remote, files, copies)
    ensures PointerStaysOr(before, trace, start.pointer, remote)
  {
    forall i | |before| <= i < |trace|
      ensures trace[i].pointer == start.pointer || trace[i].pointer == Some(remote)
    {
      assert MidMaterialize(start, remote, files, copies, trace[i]);
    }
  }

  lemma MovesArePublished(heads: seq<Files>, more: seq<Files>, first: Option<Files>, before: seq<Snapshot>, mid: seq<Snapshot>,
                          trace: seq<Snapshot>, start: Option<Files>, remote: Files)
    requires PointersPublished(heads, first, before, mid) && PointerStaysOr(mid, trace, start, remote)
    requires mid[|mid| - 1].pointer == start && heads <= more && PointerIsPublished(heads, Some(remote))
    ensures PointersPublished(more, first, before, trace)
  {
    hide PointerIsPublished;
    forall i | |before| - 1 <= i < |trace|
      ensures trace[i].pointer == first || PointerIsPublished(heads, trace[i].pointer)
    {
      if i < |mid| {
        assert trace[i] == mid[i];
      }
    }
    MorePublished(heads, more, first, before, trace);
  }

  lemma CommitMovesPointer(heads: seq<Files>, first: Option<Files>, before: seq<Snapshot>, trace: seq<Snapshot>, t: Snapshot)
    requires PointersPublished(heads, first, before, trace) && PointerIsPublished(heads, t.pointer)
    ensures PointersPublished(heads, first, before, trace + [t])
  {
    hide PointerIsPublished;
  }

  // ---------- one attempt ----------

  /** What becomes of the merge: nothing was touched, the materialize stopped midway, or
      everything is in place. */
  datatype Placing =
    | Refused(error: ConvergeError)
    | HalfDone(files: Files, copies: seq<ConflictCopy>, failure: MaterializeError)
    | InPlace(files: Files, copies: seq<ConflictCopy>, placed: Materialized)

  datatype Attempt =
    | Done(pushed: bool, headSeq: nat, placed: Materialized)
    | LostTo(remote: Files)
    | Failed(error: ConvergeError)

  /** The merge that a device computes, conflict-copy names included. There is exactly one:
      `TheMerge` and `OneMerge`. */
  ghost predicate Computes(base: Files, tree: Files, head: Files, setup: Setup, files: Files, copies: seq<ConflictCopy>) {
    && Outcome(base, tree, head, files, copies)
    && NamedInOrder(tree, head, setup.device, setup.stamp,
             ContestedPaths(base, tree, head, AllPaths(base, tree, head, setup)), copies)
  }

  function AllPaths(base: Files, tree: Files, head: Files, setup: Setup): seq<Path> {
    setup.list(base.Keys + tree.Keys + head.Keys)
  }

  lemma OneMerge(base: Files, tree: Files, head: Files, setup: Setup,
                 a: Files, copiesA: seq<ConflictCopy>, b: Files, copiesB: seq<ConflictCopy>)
    requires Computes(base, tree, head, setup, a, copiesA) && Computes(base, tree, head, setup, b, copiesB)
    ensures a == b && copiesA == copiesB
  {
    SameCopies(base, tree, head, setup.device, setup.stamp, ContestedPaths(base, tree, head, AllPaths(base, tree, head, setup)),
               copiesA, copiesB, |copiesA|);
    assert copiesA[..|copiesA|] == copiesA && copiesB[..|copiesB|] == copiesB;
    SameFiles(base, tree, head, copiesA, a, b);
  }

  lemma TheMerge(base: Files, tree: Files, head: Files, setup: Setup) returns (files: Files, copies: seq<ConflictCopy>)
    requires ListsKeys(setup) && [] !in base && [] !in tree && [] !in head
    ensures Computes(base, tree, head, setup, files, copies)
  {
    var paths := AllPaths(base, tree, head, setup);
    ListsNoRoot(paths, base.Keys + tree.Keys + head.Keys);
    hide ListsKeys, Outcome, NamedInOrder;
    files, copies := MergeOfPaths(base, tree, head, setup.device, setup.stamp, paths);
  }

  /** The merge is valid exactly if nothing blocks it. */
  lemma ComputedIsValidIff(base: Files, tree: Files, head: Files, setup: Setup, files: Files, copies: seq<ConflictCopy>)
    requires Valid(tree) && Valid(head) && '/' !in setup.stamp && Computes(base, tree, head, setup, files, copies)
    ensures Valid(files) <==> !CrossCollision(base, tree, head)
  {
    hide Valid, PreservesLoser, CrossCollision, NamedInOrder;
    ClaimedNamesAreSafe(base, tree, head, setup.device, setup.stamp,
                        ContestedPaths(base, tree, head, AllPaths(base, tree, head, setup)), copies);
    OutcomeIsValidIff(base, tree, head, files, copies);
  }

  ghost predicate MergeIsInvalid(base: Files, tree: Files, head: Files, setup: Setup) {
    exists files, copies :: Computes(base, tree, head, setup, files, copies) && !Valid(files)
  }

  ghost predicate ChunksAreMissing(base: Files, tree: Files, head: Files, m: Means) {
    exists files, copies :: Computes(base, tree, head, m.setup, files, copies)
      && !(PlannedChunks(ApplyFromRemote(tree, files, copies), files, copies) <= m.have)
  }

  /** Why an attempt stops before it touches the disk. Only three faults stop it there. */
  ghost predicate Refuses(e: ConvergeError, base: Files, tree: Files, head: Files, m: Means, fault: Fault) {
    match e
    case InvalidHead => !Valid(head) && fault != HeadUnreachable
    case InvalidMerge => Valid(head) && MergeIsInvalid(base, tree, head, m.setup) && fault !in {HeadUnreachable, ScanFailed}
    case MissingChunks =>
      Valid(head) && ChunksAreMissing(base, tree, head, m) && fault !in {HeadUnreachable, ScanFailed, FetchFailed}
    case Broken(f) => f == fault && f in {HeadUnreachable, ScanFailed, FetchFailed}
    case _ => false
  }

  /** Why the merge cannot be put on disk: its names fold together; or the tree is invalid, or an
      empty directory is in the place of a file. */
  ghost predicate PlaceFails(e: MaterializeError, tree: Files, files: Files, copies: seq<ConflictCopy>, m: Means) {
    if e == ApplyFailed(CaseCollision) then FoldCollision(files, m.setup.fold) && WithLocalCopies(tree, copies) != files
    else !(Valid(tree) && HasPlaces(tree, files, copies, m.tidy))
  }

  ghost predicate HasPlaces(tree: Files, files: Files, copies: seq<ConflictCopy>, tidy: iset<Path>) {
    forall p :: p in WrittenPaths(tree, files, copies) ==> p in tidy
  }

  lemma RootIsNoFile(disk: Disk)
    requires disk.Valid()
    ensures [] !in disk.files
  {
  }

  lemma ValidExcludesRoot(m: Files)
    requires Valid(m)
    ensures [] !in m
  {
  }

  /** The state now is one of those recorded since `before`, or nothing has happened. */
  lemma StopsHalfway(start: Snapshot, before: seq<Snapshot>, trace: seq<Snapshot>, now: Snapshot,
                     local: Files, remote: Files, files: Files, copies: seq<ConflictCopy>)
    requires before != [] && before[|before| - 1] == start && trace != [] && trace[|trace| - 1] == now
    requires start.files == local
    requires AllMidMaterialize(start, before, trace, remote, files, copies)
    ensures HalfwayFrom(start, local, remote, files, copies, now)
  {
    hide Landing, WithLocalCopies, MidApply;
    if |trace| > |before| {
      assert MidMaterialize(start, remote, files, copies, trace[|trace| - 1]);
    } else {
      assert trace == before;
    }
  }

  lemma ListsNoRoot(paths: seq<Path>, keys: set<Path>)
    requires Lists(paths, keys) && [] !in keys
    ensures Enumerates(paths, keys)
  {
  }

  lemma MergeFacts(base: Manifest, local: Manifest, remote: Manifest, setup: Setup, out: MergeOutcome)
    requires IsMerge(base, local, remote, setup.device, setup.stamp,
             AllPaths(base.files, local.files, remote.files, setup), out)
    ensures Computes(base.files, local.files, remote.files, setup, out.merged.files, out.conflicts)
    ensures out.applyFromRemote == ApplyFromRemote(local.files, out.merged.files, out.conflicts)
  {
    hide Outcome, NamedInOrder, ApplyFromRemote, ContestedPaths;
  }

  /** The merge of the three, as this device names its copies. */
  method MergeTrees(tree: Files, base: Files, remote: Files, setup: Setup) returns (out: MergeOutcome)
    requires ListsKeys(setup) && [] !in base && [] !in tree && Valid(remote)
    ensures Computes(base, tree, remote, setup, out.merged.files, out.conflicts)
    ensures out.applyFromRemote == ApplyFromRemote(tree, out.merged.files, out.conflicts)
  {
    ValidExcludesRoot(remote);
    var local := Manifest(FORMAT_VERSION, setup.workspaceId, setup.now, tree);
    var head := Manifest(FORMAT_VERSION, setup.workspaceId, 0, remote);
    var ancestor := Manifest(FORMAT_VERSION, setup.workspaceId, 0, base);
    var paths := setup.list(base.Keys + tree.Keys + remote.Keys);
    ListsNoRoot(paths, base.Keys + tree.Keys + remote.Keys);
    hide Outcome, Valid, IsMerge, ApplyFromRemote, Lists, Enumerates, ListsKeys, Computes;
    out := Merge(ancestor, local, head, setup.device, setup.stamp, paths);
    MergeFacts(ancestor, local, head, setup, out);
  }

  /** The valid merge that this device computes against a valid head. */
  ghost predicate IsValidMerge(base: Files, tree: Files, remote: Files, setup: Setup, out: MergeOutcome) {
    && Valid(remote) && Valid(out.merged.files)
    && Computes(base, tree, remote, setup, out.merged.files, out.conflicts)
    && out.applyFromRemote == ApplyFromRemote(tree, out.merged.files, out.conflicts)
  }

  /** Reads the head, scans and merges; refuses a merge that is no valid manifest. */
  method MergeWithHead(tree: Files, base: Files, remote: Files, fault: Fault, setup: Setup, ghost m: Means)
    returns (r: Result<MergeOutcome, ConvergeError>)
    requires ListsKeys(setup) && [] !in base && [] !in tree && m.setup == setup
    ensures r.Ok? ==> IsValidMerge(base, tree, remote, setup, r.value) && fault !in {HeadUnreachable, ScanFailed}
    ensures r.Err? ==> Refuses(r.error, base, tree, remote, m, fault)
  {
    if fault == HeadUnreachable {
      return Err(Broken(fault));
    }
    var valid := Validate(remote);
    if !valid {
      return Err(InvalidHead);
    }
    if fault == ScanFailed {
      return Err(Broken(fault));
    }
    hide Computes, Valid, ApplyFromRemote, ListsKeys, ChunksAreMissing;
    var out := MergeTrees(tree, base, remote, setup);
    valid := Validate(out.merged.files);
    if !valid {
      return Err(InvalidMerge);
    }
    r := Ok(out);
  }

  /** Merges the tree with the head and fetches what is missing; the disk is not touched. */
  method MergeAndFetch(tree: Files, base: Files, remote: Files, fault: Fault, store: set<Hash>, pool: set<Hash>,
                       setup: Setup, ghost m: Means)
    returns (r: Result<MergeOutcome, ConvergeError>, store': set<Hash>)
    requires ListsKeys(setup) && [] !in base && [] !in tree && m.setup == setup && m.have == store + pool
    ensures store <= store' <= store + pool
    ensures r.Ok? ==>
      && IsValidMerge(base, tree, remote, setup, r.value) && fault !in {HeadUnreachable, ScanFailed}
      && HasPlannedChunks(tree, r.value.merged.files, r.value.conflicts, store')
    ensures r.Err? ==> Refuses(r.error, base, tree, remote, m, fault)
  {
    hide Computes, Valid, PlannedChunks, HasPlannedChunks, ApplyFromRemote, Lists, ListsKeys, MergeIsInvalid;
    store' := store;
    r := MergeWithHead(tree, base, remote, fault, setup, m);
    if r.Err? {
      return;
    }
    var files, copies := r.value.merged.files, r.value.conflicts;
    PlanIsInFiles(tree, files, copies);
    var fetched, batches := FetchForApply(r.value.applyFromRemote, files, copies, store, pool);
    if fault == FetchFailed && fetched != Some(store) {
      return Err(Broken(fault)), store';
    }
    if fetched == None {
      return Err(MissingChunks), store';
    }
    store' := fetched.value;
    PlanSuffices(tree, files, copies, store');
  }

  /** Merges the tree with the head and puts the result on disk. */
  method MergeAndPlace(disk: Disk, base: Files, remote: Files, fault: Fault, store: set<Hash>, pool: set<Hash>, setup: Setup)
    returns (r: Placing, store': set<Hash>)
    requires disk.Valid() && Timed(disk.files) && [] !in base && ListsKeys(setup)
    modifies disk
    ensures disk.Valid() && store <= store' <= store + pool
    ensures r.Refused? ==>
      && disk.files == old(disk.files) && disk.pointer == old(disk.pointer)
      && Refuses(r.error, base, old(disk.files), remote,
               Means(store + pool, Tidy(old(disk.files), old(disk.dirs)), setup), fault)
    ensures !r.Refused? ==>
      && Valid(remote) && Valid(r.files) && Computes(base, old(disk.files), remote, setup, r.files, r.copies)
      && fault !in {HeadUnreachable, ScanFailed}
    ensures r.HalfDone? ==>
      && disk.pointer == old(disk.pointer)
      && HalfwayFrom(old(disk.Now()), old(disk.files), remote, r.files, r.copies, disk.Now())
      && PlaceFails(r.failure, old(disk.files), r.files, r.copies,
               Means(store + pool, Tidy(old(disk.files), old(disk.dirs)), setup))
    ensures r.InPlace? ==>
      && disk.files == Landing(old(disk.files), r.copies, r.files) && Timed(disk.files)
      && disk.pointer == (if WithLocalCopies(old(disk.files), r.copies) == r.files then old(disk.pointer) else Some(remote))
      && KeepsLocalOnly(disk.kept, r.copies)
      && r.placed == ReportOf(ApplyFromRemote(old(disk.files), r.files, r.copies), r.copies)
      && Tidy(old(disk.files), old(disk.dirs)) <= Tidy(disk.files, disk.dirs)
    ensures PointerStaysOr(old(disk.trace), disk.trace, old(disk.pointer), remote)
  {
    hide Outcome, NamedInOrder, Timed, WellFormed, Valid, AllMidMaterialize, Landing, WithLocalCopies, KeepsLocalOnly;
    hide FoldCollision, TidyAt, HalfwayFrom, HasPlannedChunks, ApplyFromRemote, ReportOf, ListsKeys, Refuses, WrittenPaths;
    RootIsNoFile(disk);
    ghost var start, before := disk.Now(), disk.trace;
    ghost var m := Means(store + pool, Tidy(disk.files, disk.dirs), setup);
    var local := disk.files;
    var out;
    out, store' := MergeAndFetch(local, base, remote, fault, store, pool, setup, m);
    if out.Err? {
      return Refused(out.error), store';
    }
    var files, copies := out.value.merged.files, out.value.conflicts;
    var placed := Materialize(disk, local, remote, files, copies, store', setup.fold, base);
    PlacingMovesPointer(before, disk.trace, start, remote, files, copies);
    match placed {
      case Err(e) =>
        StopsHalfway(start, before, disk.trace, disk.Now(), local, remote, files, copies);
        return HalfDone(files, copies, e), store';
      case Ok(report) =>
        r := InPlace(files, copies, report);
    }
  }

  lemma PlanIsInFiles(local: Files, files: Files, copies: seq<ConflictCopy>)
    ensures var plan := ApplyFromRemote(local, files, copies); plan.added <= files.Keys && plan.changed <= files.Keys
  {
  }

  /** The second half of an attempt: nothing to publish, or the compare-and-swap, and then the
      commit. */
  method Finish(disk: Disk, relay: HeadLog, files: Files, remote: Files, remoteSeq: nat, fault: Fault, placed: Materialized,
                ghost head: Head, ghost first: Option<Files>, ghost before: seq<Snapshot>)
    returns (r: Attempt, ghost ending: Ending)
    requires disk.Valid() && relay.Valid() && head.files == files
    requires PointersPublished(relay.heads, first, before, disk.trace)
    requires files == remote && remoteSeq > 0 ==> files in relay.heads
    modifies relay, disk`pointer, disk`trace
    ensures disk.Valid() && relay.Valid()
    ensures match ending
            case Followed => r == Done(false, remoteSeq, placed)
            case Won => r == Done(true, remoteSeq + 1, placed)
            case Beaten => r == LostTo(remote)
            case _ => r == Failed(Broken(fault))
    ensures FaultEnds(ending, files == remote && remoteSeq > 0, remoteSeq != |old(relay.log)|, fault)
    ensures ending == Followed ==> files == remote && remoteSeq > 0
    ensures ending == Won || ending == Beaten || ending == Unconfirmed ==> !(files == remote && remoteSeq > 0)
    ensures ending == Won ==> remoteSeq == |old(relay.log)|
    ensures ending == Beaten ==> remoteSeq != |old(relay.log)|
    ensures relay.log == old(relay.log)
              + if (ending == Won || ending == Unconfirmed) && remoteSeq == |old(relay.log)| then [head] else []
    ensures disk.pointer == if r.Done? then Some(files) else old(disk.pointer)
    ensures PointersPublished(relay.heads, first, before, disk.trace)
  {
    hide PointersPublished;
    if fault == UploadFailed {
      return Failed(Broken(fault)), Unsent;
    }
    if files == remote && remoteSeq > 0 {
      if fault == CommitFailed {
        return Failed(Broken(fault)), Unsent;
      }
      CommitMovesPointer(relay.heads, first, before, disk.trace, disk.Now().(pointer := Some(files)));
      disk.WritePointer(files);
      return Done(false, remoteSeq, placed), Followed;
    }
    if fault == PutFailed {
      return Failed(Broken(fault)), Unsent;
    }
    ghost var heads, log := relay.heads, relay.log;
    var ok := relay.PutHead(remoteSeq, files, head);
    FilesOfConcat(log, if ok then [head] else []);
    MorePublished(heads, relay.heads, first, before, disk.trace);
    if fault == AnswerLost {
      return Failed(Broken(fault)), Unconfirmed;
    }
    if !ok {
      return LostTo(remote), Beaten;
    }
    if fault == CommitFailed {
      return Failed(Broken(fault)), Unconfirmed;
    }
    assert relay.heads[|relay.heads| - 1] == files;
    CommitMovesPointer(relay.heads, first, before, disk.trace, disk.Now().(pointer := Some(files)));
    disk.WritePointer(files);
    r, ending := Done(true, remoteSeq + 1, placed), Won;
  }

  /** Which faults let an attempt that put its merge on disk end like that: each strikes at its
      own stage and nowhere else. `quiet`: there is nothing to publish. `raced`: another writer
      has published. */
  predicate FaultEnds(ending: Ending, quiet: bool, raced: bool, fault: Fault) {
    match ending
    case Followed => fault !in {UploadFailed, CommitFailed}
    case Won => fault !in {UploadFailed, PutFailed, AnswerLost, CommitFailed}
    case Beaten => fault !in {UploadFailed, PutFailed, AnswerLost}
    case Unsent => fault == UploadFailed || fault == if quiet then CommitFailed else PutFailed
    case Unconfirmed => fault == AnswerLost || (fault == CommitFailed && !raced)
  }

  /** The device's tree and base are what stands on disk. */
  ghost predicate Matches(dev: Device, files: Files, pointer: Option<Files>) {
    dev.tree == files && dev.diskBase == BaseOf(pointer)
  }

  /** What the answer of an attempt says about the attempt: how it ended, and if it failed,
      for which reason that was there when it began. */
  ghost predicate Reported(r: Attempt, w: World, d: Id, t: Trial, m: Means, fault: Fault)
    requires d in w.devices && w.devices[d].phase.Started?
  {
    var base, tree, head := w.devices[d].phase.pass.base, w.devices[d].tree, Current(w.log);
    match t
    case Stopped(_) => r.Failed? && Refuses(r.error, base, tree, head, m, fault)
    case Torn(_, files, copies, _) =>
      && r.Failed? && r.error.NotMaterialized? && PlaceFails(r.error.error, tree, files, copies, m)
      && fault !in {HeadUnreachable, ScanFailed}
    case Through(race, files, copies, _, ending) =>
      var placed := ReportOf(ApplyFromRemote(tree, files, copies), copies);
      && fault !in {HeadUnreachable, ScanFailed}
      && FaultEnds(ending, NothingToPublish(w, files), race != [], fault)
      && match ending
         case Followed => r == Done(false, |w.log|, placed)
         case Won => r == Done(true, |w.log| + 1, placed)
         case Beaten => r == LostTo(head)
         case _ => r == Failed(Broken(fault))
  }

  /** An attempt that merged has the merge that its device computes. */
  ghost predicate IsComputed(w: World, d: Id, t: Trial, setup: Setup)
    requires d in w.devices && w.devices[d].phase.Started?
  {
    !t.Stopped? ==> Computes(w.devices[d].phase.pass.base, w.devices[d].tree, Current(w.log), setup, t.files, t.copies)
  }

  /** The attempt `t` can be made in `w` and leaves this log, these files and this pointer. */
  ghost predicate EndsAt(w: World, d: Id, t: Trial, log: seq<Head>, files: Files, pointer: Option<Files>) {
    Fits(w, d, t) && log == AfterTrial(w, d, t).log && Matches(DeviceAfter(w, d, t), files, pointer)
  }

  /** What an attempt has done when it answers: it was `t`, on exactly the head that it
      fetched, left log, tree and base as the protocol has them after `t`, and says so. */
  ghost predicate AttemptDone(r: Attempt, w: World, d: Id, t: Trial, turn: Turn, log: seq<Head>, now: Snapshot,
                              m: Means) {
    && EndsAt(w, d, t, log, now.files, now.pointer) && t.race == turn.race
    && Reported(r, w, d, t, m, turn.fault) && IsComputed(w, d, t, m.setup)
    && (t.Through? ==> KeepsLocalOnly(now.kept, t.copies))
    && (r.Done? ==> now.pointer == Some(t.files))
  }

  lemma HeadIsCurrent(relay: HeadLog)
    requires relay.Valid()
    ensures relay.Head() == Current(relay.log) && |relay.heads| == |relay.log|
    ensures relay.log != [] ==> relay.Head() in relay.heads
    ensures PointerIsPublished(relay.heads, Some(relay.Head()))
  {
  }

  /** The second half of an attempt, once the merge is on disk. */
  method FinishAttempt(disk: Disk, relay: HeadLog, remote: Files, remoteSeq: nat, turn: Turn, files: Files,
                       copies: seq<ConflictCopy>,
                       placed: Materialized, ghost w: World, ghost d: Id, ghost start: Option<Files>, ghost m: Means,
                       ghost first: Option<Files>, ghost before: seq<Snapshot>)
    returns (r: Attempt, ghost t: Trial)
    requires disk.Valid() && relay.Valid() && OthersWrote(turn.race, d)
    requires relay.log == w.log + turn.race && remoteSeq == |w.log| && remote == Current(w.log)
    requires d in w.devices && w.devices[d].phase.Started? && Merges(w, d, files, copies)
    requires IsComputed(w, d, Through(turn.race, files, copies, disk.files, Won), m.setup)
             && turn.fault !in {HeadUnreachable, ScanFailed}
    requires disk.files == Landing(w.devices[d].tree, copies, files) && KeepsLocalOnly(disk.kept, copies)
    requires w.devices[d].diskBase == BaseOf(start)
    requires disk.pointer == if WithLocalCopies(w.devices[d].tree, copies) == files then start else Some(remote)
    requires placed == ReportOf(ApplyFromRemote(w.devices[d].tree, files, copies), copies)
    requires PointersPublished(relay.heads, first, before, disk.trace)
    modifies relay, disk`pointer, disk`trace
    ensures disk.Valid() && relay.Valid()
    ensures AttemptDone(r, w, d, t, turn, relay.log, disk.Now(), m)
    ensures r.LostTo? ==> r.remote == remote
    ensures PointersPublished(relay.heads, first, before, disk.trace)
  {
    hide Outcome, Valid, Merges, WellFormed, PointersPublished, KeepsLocalOnly, Landing, WithLocalCopies, ReportOf;
    hide ApplyFromRemote;
    hide FilesOf, EndsAt, AttemptDone, Computes;
    ghost var ending, pointer := Won, disk.pointer;
    ghost var head := Published(d, NextPass(w.devices[d].phase.pass), MergeOf(w, d, files, copies));
    HeadIsListed(relay, w.log, turn.race);
    r, ending := Finish(disk, relay, files, remote, remoteSeq, turn.fault, placed, head, first, before);
    t := Through(turn.race, files, copies, disk.files, ending);
    ThroughEnds(w, d, t, relay.log, start, pointer, disk.pointer);
    ThroughDone(r, w, d, t, turn, relay.log, disk.Now(), m);
  }

  lemma HeadIsListed(relay: HeadLog, log: seq<Head>, race: seq<Head>)
    requires relay.Valid() && relay.log == log + race
    ensures log != [] ==> Current(log) in relay.heads
  {
    if log != [] {
      assert relay.heads[|log| - 1] == Current(log);
    }
  }

  /** One attempt: everything from fetching the head to the answer of the relay. It is one
      of the protocol's attempts on exactly the head that it fetched, and ends with log and
      disk as the protocol has them. */
  method TryOnce(disk: Disk, relay: HeadLog, base: Files, turn: Turn, store: set<Hash>, pool: set<Hash>, setup: Setup,
                 ghost d: Id, ghost dev: Device, ghost first: Option<Files>, ghost before: seq<Snapshot>)
    returns (r: Attempt, store': set<Hash>, ghost t: Trial)
    requires disk.Valid() && Timed(disk.files) && relay.Valid() && [] !in base && OthersWrote(turn.race, d)
    requires ListsKeys(setup)
    requires Matches(dev, disk.files, disk.pointer) && dev.phase.Started? && dev.phase.pass.base == base
    requires PointersPublished(relay.heads, first, before, disk.trace)
    modifies disk, relay
    ensures disk.Valid() && relay.Valid() && store <= store' <= store + pool
    ensures AttemptDone(r, World(old(relay.log), map[d := dev]), d, t, turn, relay.log, disk.Now(),
                        Means(store + pool, Tidy(old(disk.files), old(disk.dirs)), setup))
    ensures r.LostTo? ==> [] !in r.remote
    ensures r.LostTo? || r.Done? ==> Timed(disk.files) && Tidy(old(disk.files), old(disk.dirs)) <= Tidy(disk.files, disk.dirs)
    ensures PointersPublished(relay.heads, first, before, disk.trace)
  {
    hide Outcome, Timed, WellFormed, Valid, PointerIsPublished, PointersPublished, PointerStaysOr, TidyAt, KeepsLocalOnly;
    hide Landing, WithLocalCopies, Computes, Refuses, PlaceFails, ListsKeys, ReportOf, ApplyFromRemote, FilesOf;
    hide EndsAt, HalfwayFrom, AttemptDone;
    ghost var w := World(relay.log, map[d := dev]);
    ghost var heads, trace, start, state := relay.heads, disk.trace, disk.pointer, disk.Now();
    ghost var m := Means(store + pool, Tidy(disk.files, disk.dirs), setup);
    HeadIsCurrent(relay);
    var remote, remoteSeq := relay.Head(), |relay.heads|;
    relay.OthersPublish(turn.race);
    FilesOfConcat(w.log, turn.race);
    var placing;
    placing, store' := MergeAndPlace(disk, base, remote, turn.fault, store, pool, setup);
    HeadExcludesRoot(remote);
    MovesArePublished(heads, relay.heads, first, before, trace, disk.trace, start, remote);
    match placing {
      case Refused(e) =>
        t := Stopped(turn.race);
        StoppedDone(e, w, d, turn, disk.Now(), m);
        return Failed(e), store', t;
      case HalfDone(files, copies, e) =>
        t := Torn(turn.race, files, copies, disk.files);
        ComputedMerges(w, d, setup, files, copies);
        TornDone(e, w, d, t, turn, state, disk.Now(), m);
        return Failed(NotMaterialized(e)), store', t;
      case InPlace(files, copies, placed) =>
        ComputedMerges(w, d, setup, files, copies);
        r, t := FinishAttempt(disk, relay, remote, remoteSeq, turn, files, copies, placed,
                              w, d, start, m, first, before);
    }
  }

  lemma ComputedMerges(w: World, d: Id, setup: Setup, files: Files, copies: seq<ConflictCopy>)
    requires d in w.devices && w.devices[d].phase.Started? && Valid(files)
    requires Computes(w.devices[d].phase.pass.base, w.devices[d].tree, Current(w.log), setup, files, copies)
    ensures Merges(w, d, files, copies)
  {
    hide Outcome, Valid, NamedInOrder;
  }

  lemma HeadExcludesRoot(m: Files)
    ensures Valid(m) ==> [] !in m
  {
  }

  lemma FinishedLog(w: World, d: Id, t: Trial, log: seq<Head>)
    requires d in w.devices && w.devices[d].phase.Started? && t.Through?
    requires var head := Published(d, NextPass(w.devices[d].phase.pass), MergeOf(w, d, t.files, t.copies));
             log == w.log + t.race
                    + if (t.ending == Won || t.ending == Unconfirmed) && |w.log| == |w.log + t.race| then [head] else []
    ensures log == AfterTrial(w, d, t).log
  {
    hide DeviceAfter;
  }

  lemma FinishedDevice(w: World, d: Id, t: Trial, start: Option<Files>, placed: Option<Files>, end: Option<Files>)
    requires d in w.devices && w.devices[d].phase.Started? && t.Through? && w.devices[d].diskBase == BaseOf(start)
    requires placed == if WithLocalCopies(w.devices[d].tree, t.copies) == t.files then start else Some(Current(w.log))
    requires end == if t.ending == Followed || t.ending == Won then Some(t.files) else placed
    ensures Matches(DeviceAfter(w, d, t), t.tree, end)
  {
    hide WithLocalCopies, AfterEdit, AfterCopies;
  }

  lemma StoppedDone(e: ConvergeError, w: World, d: Id, turn: Turn, now: Snapshot, m: Means)
    requires d in w.devices && w.devices[d].phase.Started? && OthersWrote(turn.race, d)
    requires Matches(w.devices[d], now.files, now.pointer)
    requires Refuses(e, w.devices[d].phase.pass.base, w.devices[d].tree, Current(w.log), m, turn.fault)
    ensures AttemptDone(Failed(e), w, d, Stopped(turn.race), turn, w.log + turn.race, now, m)
  {
    hide Refuses;
    assert w.log + turn.race + [] == w.log + turn.race;
  }

  lemma TornDone(e: MaterializeError, w: World, d: Id, t: Trial, turn: Turn, start: Snapshot, now: Snapshot, m: Means)
    requires d in w.devices && w.devices[d].phase.Started? && OthersWrote(turn.race, d)
             && w.devices[d].diskBase == BaseOf(now.pointer)
    requires t.Torn? && t.race == turn.race && t.tree == now.files && Merges(w, d, t.files, t.copies)
    requires HalfwayFrom(start, w.devices[d].tree, Current(w.log), t.files, t.copies, now)
    requires PlaceFails(e, w.devices[d].tree, t.files, t.copies, m) && IsComputed(w, d, t, m.setup)
    requires turn.fault !in {HeadUnreachable, ScanFailed}
    ensures AttemptDone(Failed(NotMaterialized(e)), w, d, t, turn, w.log + turn.race, now, m)
  {
    hide Outcome, Valid, HalfwayFrom, AfterEdit, PlaceFails, IsComputed;
    assert w.log + t.race + [] == w.log + t.race;
  }

  lemma ThroughEnds(w: World, d: Id, t: Trial, log: seq<Head>, start: Option<Files>, placed: Option<Files>, end: Option<Files>)
    requires d in w.devices && w.devices[d].phase.Started? && OthersWrote(t.race, d) && w.devices[d].diskBase == BaseOf(start)
    requires t.Through? && Merges(w, d, t.files, t.copies) && t.tree == Landing(w.devices[d].tree, t.copies, t.files)
    requires EndsWell(w, t.race, t.files, t.ending)
    requires var head := Published(d, NextPass(w.devices[d].phase.pass), MergeOf(w, d, t.files, t.copies));
             log == w.log + t.race
                    + if (t.ending == Won || t.ending == Unconfirmed) && |w.log| == |w.log + t.race| then [head] else []
    requires placed == if WithLocalCopies(w.devices[d].tree, t.copies) == t.files then start else Some(Current(w.log))
    requires end == if t.ending == Followed || t.ending == Won then Some(t.files) else placed
    ensures EndsAt(w, d, t, log, t.tree, end)
  {
    hide Merges, EndsWell, AfterTrial, DeviceAfter, Landing, WithLocalCopies, OwnHead;
    FinishedLog(w, d, t, log);
    FinishedDevice(w, d, t, start, placed, end);
  }

  lemma ThroughDone(r: Attempt, w: World, d: Id, t: Trial, turn: Turn, log: seq<Head>, now: Snapshot,
                    m: Means)
    requires EndsAt(w, d, t, log, now.files, now.pointer) && t.race == turn.race && t.Through?
    requires d in w.devices && w.devices[d].phase.Started? && Reported(r, w, d, t, m, turn.fault)
             && IsComputed(w, d, t, m.setup)
    requires KeepsLocalOnly(now.kept, t.copies) && (r.Done? ==> now.pointer == Some(t.files))
    ensures AttemptDone(r, w, d, t, turn, log, now, m)
  {
    hide EndsAt, KeepsLocalOnly, ReportOf, ApplyFromRemote, IsComputed;
  }

  // ---------- the pass ----------

  /** The world of one device that has just begun a pass. */
  function Begun(log: seq<Head>, d: Id, dev: Device): World {
    World(log, map[d := dev.(phase := Started(Pass(dev.diskBase, 0, |log|, dev.synced)))])
  }

  /** The attempts met the races of these turns, and each but the last lost its race. */
  ghost predicate MetTurns(ts: seq<Trial>, turns: seq<Turn>) {
    && (forall i :: 0 <= i < |ts| ==> ts[i].race == TurnAt(turns, i).race)
    && (forall i :: 0 <= i < |ts| - 1 ==> IsBeaten(ts[i]))
  }

  ghost predicate AllBeaten(ts: seq<Trial>, turns: seq<Turn>) {
    forall i :: 0 <= i < |ts| ==> ts[i].race == TurnAt(turns, i).race && IsBeaten(ts[i])
  }

  /** A whole pass: a sequence of attempts from the moment it began, which ends with the
      device idle and with log and disk as the protocol has them. */
  ghost predicate IsPass(w: World, d: Id, ts: seq<Trial>, turns: seq<Turn>, log: seq<Head>, dev: Device) {
    && 1 <= |ts| <= MAX_ATTEMPTS && MetTurns(ts, turns)
    && AfterTrials(w, d, ts) == Some(World(log, map[d := dev])) && dev.phase.Idle?
    && BeforeLast(w, d, ts).Some? && Fits(BeforeLast(w, d, ts).value, d, ts[|ts| - 1])
  }

  /** What a pass returns says what its last attempt did: it succeeds if that one followed the
      head or published its own, gives up if it was the last allowed and lost its race, and
      otherwise fails for a reason that was there when it began. */
  ghost predicate Returns(r: Result<ConvergeReport, ConvergeError>, w: World, d: Id, t: Trial, attempt: nat,
                          m: Means, fault: Fault)
    requires Fits(w, d, t)
  {
    var answer := match r
      case Ok(report) => Done(report.pushed, report.headSeq, report.placed)
      case Err(e) => if e == LostEveryRace then LostTo(Current(w.log)) else Failed(e);
    && Reported(answer, w, d, t, m, fault)
    && (r.Ok? ==> r.value.attempts == attempt)
    && (r == Err(LostEveryRace) ==> attempt == MAX_ATTEMPTS)
  }

  /** Each of these attempts had the merge that its device computes. */
  ghost predicate AllComputed(start: World, d: Id, ts: seq<Trial>, setup: Setup)
    decreases |ts|
  {
    ts == [] ||
    (&& AllComputed(start, d, ts[..|ts| - 1], setup)
     && BeforeLast(start, d, ts).Some? && Fits(BeforeLast(start, d, ts).value, d, ts[|ts| - 1])
     && IsComputed(BeforeLast(start, d, ts).value, d, ts[|ts| - 1], setup))
  }

  /** What a pass returns about the last of these attempts. */
  ghost predicate PassReturns(r: Result<ConvergeReport, ConvergeError>, start: World, d: Id, ts: seq<Trial>, turns: seq<Turn>,
                              m: Means) {
    && ts != [] && BeforeLast(start, d, ts).Some? && Fits(BeforeLast(start, d, ts).value, d, ts[|ts| - 1])
    && Returns(r, BeforeLast(start, d, ts).value, d, ts[|ts| - 1], |ts|, m, TurnAt(turns, |ts| - 1).fault)
  }

  /** What a pass has done when it returns: it was a sequence of the protocol's attempts, ended
      with log, tree and base as the protocol has them, and says so. If it succeeded, the
      pointer names the merge that the last attempt put on disk, and that merge's `.git` losers
      lie in the conflict area. */
  ghost predicate PassDone(r: Result<ConvergeReport, ConvergeError>, start: World, d: Id, ts: seq<Trial>, dev: Device,
                           turns: seq<Turn>, log: seq<Head>, now: Snapshot, m: Means) {
    && IsPass(start, d, ts, turns, log, dev) && Matches(dev, now.files, now.pointer)
    && PassReturns(r, start, d, ts, turns, m) && AllComputed(start, d, ts, m.setup)
    && (r.Ok? ==> var last := ts[|ts| - 1];
          last.Through? && now.pointer == Some(last.files) && KeepsLocalOnly(now.kept, last.copies))
  }

  method ConvergeOnce(disk: Disk, relay: HeadLog, turns: seq<Turn>, store: set<Hash>, pool: set<Hash>, setup: Setup,
                      ghost d: Id, ghost dev: Device)
    returns (r: Result<ConvergeReport, ConvergeError>, ghost ts: seq<Trial>, ghost dev': Device)
    requires disk.Valid() && Timed(disk.files) && relay.Valid()
    requires Matches(dev, disk.files, disk.pointer) && ListsKeys(setup)
    requires forall n: nat :: OthersWrote(TurnAt(turns, n).race, d)
    modifies disk, relay
    ensures disk.Valid() && relay.Valid()
    ensures r == Err(UnreadableBase) <==> !Valid(BaseOf(old(disk.pointer)))
    ensures r == Err(UnreadableBase) ==>
      && ts == [] && relay.log == old(relay.log) && disk.files == old(disk.files) && disk.pointer == old(disk.pointer)
    // Everything else is a sequence of the protocol's attempts, in success and in failure.
    ensures r != Err(UnreadableBase) ==>
              PassDone(r, Begun(old(relay.log), d, dev), d, ts, dev', turns, relay.log, disk.Now(),
                       Means(store + pool, Tidy(old(disk.files), old(disk.dirs)), setup))
    ensures r.Ok? ==> Tidy(old(disk.files), old(disk.dirs)) <= Tidy(disk.files, disk.dirs)
    // At no instant does the pointer name an unpublished state.
    ensures PointersPublished(relay.heads, old(disk.pointer), old(disk.trace), disk.trace)
  {
    ghost var first, before := disk.pointer, disk.trace;
    ghost var m := Means(store + pool, Tidy(disk.files, disk.dirs), setup);
    hide Outcome, Timed, WellFormed, Valid, PointerIsPublished, FilesOf, TidyAt, KeepsLocalOnly, OthersWrote, ListsKeys;
    hide Fits, AfterTrial, DeviceAfter, AfterTrials, AttemptDone;
    ts, dev' := [], dev;
    var base := BaseOf(disk.pointer);
    var valid := Validate(base);
    if !valid {
      return Err(UnreadableBase), ts, dev';
    }
    ValidExcludesRoot(base);
    hide PointersPublished, Matches, InPass, PassDone, TurnAt;
    dev' := dev.(phase := Started(Pass(base, 0, |relay.log|, dev.synced)));
    ghost var start := World(relay.log, map[d := dev']);
    PassBegins(start, d, turns, relay.log, dev, dev', base, disk.files, disk.pointer, setup);
    NothingMoved(relay.heads, first, before);
    var chunks, attempt := store, 1;
    while attempt <= MAX_ATTEMPTS
      invariant 1 <= attempt <= MAX_ATTEMPTS + 1
      invariant disk.Valid() && relay.Valid() && store <= chunks <= store + pool
      invariant PointersPublished(relay.heads, first, before, disk.trace)
      invariant attempt <= MAX_ATTEMPTS ==>
        && InPass(start, d, ts, turns, attempt, relay.log, dev', base, setup)
        && Matches(dev', disk.files, disk.pointer) && [] !in base && Timed(disk.files)
        && m.tidy <= Tidy(disk.files, disk.dirs)
      invariant attempt > MAX_ATTEMPTS ==>
        PassDone(Err(LostEveryRace), start, d, ts, dev', turns, relay.log, disk.Now(), m)
    {
      var turn := TurnAt(turns, attempt - 1);
      ghost var log, tidyNow := relay.log, Tidy(disk.files, disk.dirs);
      assert chunks + pool == store + pool;
      InPassStarted(start, d, ts, turns, attempt, relay.log, dev', base, setup);
      var tried; ghost var t;
      tried, chunks, t := TryOnce(disk, relay, base, turn, chunks, pool, setup, d, dev', first, before);
      ghost var w := World(log, map[d := dev']);
      AttemptEnds(tried, start, d, ts, turns, attempt, log, dev', base, t, relay.log, disk.Now(), tidyNow, m);
      ts, dev' := ts + [t], DeviceAfter(w, d, t);
      match tried {
        case Done(pushed, headSeq, placed) =>
          return Ok(ConvergeReport(pushed, headSeq, attempt, placed)), ts, dev';
        case Failed(error) =>
          return Err(error), ts, dev';
        case LostTo(remote) =>
          // The tree now descends from the head just merged against.
          base := remote;
      }
      attempt := attempt + 1;
    }
    r := Err(LostEveryRace);
  }

  lemma NothingMoved(heads: seq<Files>, first: Option<Files>, before: seq<Snapshot>)
    requires before != [] && before[|before| - 1].pointer == first
    ensures PointersPublished(heads, first, before, before)
  {
  }

  /** Every attempt so far lost its race, and the device is about to make the next. */
  ghost predicate InPass(start: World, d: Id, ts: seq<Trial>, turns: seq<Turn>, attempt: nat, log: seq<Head>, dev: Device,
                         base: Files, setup: Setup) {
    && AllComputed(start, d, ts, setup)
    && |ts| + 1 == attempt && AfterTrials(start, d, ts) == Some(World(log, map[d := dev]))
    && AllBeaten(ts, turns)
    && dev.phase.Started? && dev.phase.pass.base == base && dev.phase.pass.attempt + 1 == attempt
  }

  lemma PassBegins(start: World, d: Id, turns: seq<Turn>, log: seq<Head>, dev: Device, dev': Device, base: Files,
                   files: Files, pointer: Option<Files>, setup: Setup)
    requires Matches(dev, files, pointer) && base == BaseOf(pointer)
    requires dev' == dev.(phase := Started(Pass(base, 0, |log|, dev.synced))) && start == World(log, map[d := dev'])
    ensures start == Begun(log, d, dev)
    ensures InPass(start, d, [], turns, 1, log, dev', base, setup) && Matches(dev', files, pointer)
  {
  }

  lemma InPassStarted(start: World, d: Id, ts: seq<Trial>, turns: seq<Turn>, attempt: nat, log: seq<Head>, dev: Device,
                      base: Files, setup: Setup)
    requires InPass(start, d, ts, turns, attempt, log, dev, base, setup)
    ensures dev.phase.Started? && dev.phase.pass.base == base
  {
    hide AfterTrials, AllComputed;
  }

  /** What the answer of an attempt means for the pass, if the pass ends with it. */
  function ResultOf(tried: Attempt, attempt: nat): Result<ConvergeReport, ConvergeError> {
    match tried
    case Done(pushed, headSeq, placed) => Ok(ConvergeReport(pushed, headSeq, attempt, placed))
    case LostTo(_) => Err(LostEveryRace)
    case Failed(error) => Err(error)
  }

  lemma AttemptReturns(tried: Attempt, start: World, w: World, d: Id, ts: seq<Trial>, t: Trial, turns: seq<Turn>,
                       now_: iset<Path>, m: Means)
    requires AfterTrials(start, d, ts) == Some(w) && Fits(w, d, t) && m.tidy <= now_ && |ts| < MAX_ATTEMPTS
    requires var fault := TurnAt(turns, |ts|).fault;
      d in w.devices && w.devices[d].phase.Started? && Reported(tried, w, d, t, m.(tidy := now_), fault)
    ensures tried.LostTo? <==> IsBeaten(t)
    ensures tried.LostTo? ==> tried.remote == Current(w.log)
    ensures tried.Done? ==> t.Through?
    ensures tried.Failed? ==> tried.error != UnreadableBase
    ensures !(tried.LostTo? && |ts| + 1 < MAX_ATTEMPTS) ==>
              PassReturns(ResultOf(tried, |ts| + 1), start, d, ts + [t], turns, m)
  {
    hide AfterTrials, BeforeLast, Fits, Returns, Reported, TurnAt, PassReturns, IsBeaten;
    TrialAdds(start, d, ts, w, t);
    ReturnsAs(tried, w, d, t, |ts| + 1, now_, m, TurnAt(turns, |ts|).fault);
    if !(tried.LostTo? && |ts| + 1 < MAX_ATTEMPTS) {
      LastReturns(ResultOf(tried, |ts| + 1), start, w, d, ts, t, turns, m);
    }
  }

  lemma LastReturns(r: Result<ConvergeReport, ConvergeError>, start: World, w: World, d: Id, ts: seq<Trial>, t: Trial,
                    turns: seq<Turn>, m: Means)
    requires BeforeLast(start, d, ts + [t]) == Some(w) && Fits(w, d, t)
    requires Returns(r, w, d, t, |ts| + 1, m, TurnAt(turns, |ts|).fault)
    ensures PassReturns(r, start, d, ts + [t], turns, m)
  {
    hide BeforeLast, Fits, Returns, TurnAt;
    assert (ts + [t])[|ts + [t]| - 1] == t;
  }

  lemma AttemptEnds(tried: Attempt, start: World, d: Id, ts: seq<Trial>, turns: seq<Turn>, attempt: nat, log: seq<Head>,
                    dev: Device, base: Files, t: Trial, log': seq<Head>, now: Snapshot,
                    now_: iset<Path>, m: Means)
    requires InPass(start, d, ts, turns, attempt, log, dev, base, m.setup) && attempt <= MAX_ATTEMPTS && m.tidy <= now_
    requires AttemptDone(tried, World(log, map[d := dev]), d, t, TurnAt(turns, attempt - 1), log', now, m.(tidy := now_))
    ensures dev.phase.Started?
    ensures tried.Failed? ==> tried.error != UnreadableBase
    ensures var next := DeviceAfter(World(log, map[d := dev]), d, t);
      if tried.LostTo? && attempt < MAX_ATTEMPTS then
        InPass(start, d, ts + [t], turns, attempt + 1, log', next, tried.remote, m.setup)
        && Matches(next, now.files, now.pointer)
      else
        PassDone(ResultOf(tried, attempt), start, d, ts + [t], next, turns, log', now, m)
  {
    var w := World(log, map[d := dev]);
    InPassStarted(start, d, ts, turns, attempt, log, dev, base, m.setup);
    hide Fits, AfterTrials, BeforeLast, InPass, IsPass, Matches, PassReturns, Reported, IsComputed, AllComputed;
    hide EndsAt, DeviceAfter, KeepsLocalOnly;
    PassGoesOn(start, d, ts, turns, attempt, log, dev, base, t, log', now.files, now.pointer, m.setup);
    AttemptReturns(tried, start, w, d, ts, t, turns, now_, m);
  }

  lemma ReturnsAs(tried: Attempt, w: World, d: Id, t: Trial, attempt: nat, now_: iset<Path>, m: Means, fault: Fault)
    requires Fits(w, d, t) && Reported(tried, w, d, t, m.(tidy := now_), fault) && m.tidy <= now_
    ensures tried.LostTo? <==> IsBeaten(t)
    ensures tried.LostTo? ==> tried.remote == Current(w.log)
    ensures tried.Done? ==> t.Through?
    ensures tried.Failed? ==> tried.error != UnreadableBase
    ensures attempt <= MAX_ATTEMPTS && !(tried.LostTo? && attempt < MAX_ATTEMPTS) ==>
              Returns(ResultOf(tried, attempt), w, d, t, attempt, m, fault)
  {
    hide Merges, Landing, Halfway, ReportOf, ApplyFromRemote, PlaceFails, MergeIsInvalid, ChunksAreMissing, Valid;
    ReportedAs(tried, w, d, t, now_, m, fault);
  }

  /** A reason to fail in the tree as it is now was one when the pass began. */
  lemma ReportedAs(tried: Attempt, w: World, d: Id, t: Trial, now_: iset<Path>, m: Means, fault: Fault)
    requires d in w.devices && w.devices[d].phase.Started?
    requires Reported(tried, w, d, t, m.(tidy := now_), fault) && m.tidy <= now_
    ensures Reported(tried, w, d, t, m, fault)
  {
    var base, tree, head := w.devices[d].phase.pass.base, w.devices[d].tree, Current(w.log);
    match t {
      case Stopped(_) =>
        RefusesAs(tried.error, base, tree, head, now_, m, fault);
      case Torn(_, files, copies, _) =>
        PlaceFailsAs(tried.error.error, tree, files, copies, now_, m);
      case _ =>
    }
  }

  lemma RefusesAs(e: ConvergeError, base: Files, tree: Files, head: Files, now_: iset<Path>, m: Means, fault: Fault)
    requires Refuses(e, base, tree, head, m.(tidy := now_), fault)
    ensures Refuses(e, base, tree, head, m, fault)
  {
    hide Valid, Computes, PlannedChunks, ApplyFromRemote;
  }

  lemma PlaceFailsAs(e: MaterializeError, tree: Files, files: Files, copies: seq<ConflictCopy>, now_: iset<Path>, m: Means)
    requires PlaceFails(e, tree, files, copies, m.(tidy := now_)) && m.tidy <= now_
    ensures PlaceFails(e, tree, files, copies, m)
  {
    hide Valid, FoldCollision, WithLocalCopies, WrittenPaths;
  }

  lemma PassGoesOn(start: World, d: Id, ts: seq<Trial>, turns: seq<Turn>, attempt: nat, log: seq<Head>, dev: Device,
                   base: Files, t: Trial, log': seq<Head>, files: Files, pointer: Option<Files>, setup: Setup)
    requires InPass(start, d, ts, turns, attempt, log, dev, base, setup) && attempt <= MAX_ATTEMPTS
    requires EndsAt(World(log, map[d := dev]), d, t, log', files, pointer) && t.race == TurnAt(turns, attempt - 1).race
    requires dev.phase.Started? && IsComputed(World(log, map[d := dev]), d, t, setup)
    ensures var w := World(log, map[d := dev]);
      var next := DeviceAfter(w, d, t);
      && AfterTrials(start, d, ts) == Some(w) && Fits(w, d, t) && |ts| + 1 == attempt && Matches(next, files, pointer)
      && (IsBeaten(t) && attempt < MAX_ATTEMPTS ==>
          InPass(start, d, ts + [t], turns, attempt + 1, log', next, Current(log), setup))
      && (!IsBeaten(t) || attempt == MAX_ATTEMPTS ==> IsPass(start, d, ts + [t], turns, log', next))
      && AllComputed(start, d, ts + [t], setup)
  {
    hide Fits, AfterTrials, BeforeLast, AfterTrial, DeviceAfter, IsBeaten, IsComputed, TurnAt, Matches, AllBeaten;
    hide MetTurns, AllComputed;
    var w := World(log, map[d := dev]);
    TrialAdds(start, d, ts, w, t);
    OnlyDevice(log, d, dev, t, log');
    PhaseAfter(w, d, t);
    MoreRaces(ts, t, turns);
    OneMoreComputed(start, d, ts, w, t, setup);
  }

  lemma OneMoreComputed(start: World, d: Id, ts: seq<Trial>, w: World, t: Trial, setup: Setup)
    requires AllComputed(start, d, ts, setup) && BeforeLast(start, d, ts + [t]) == Some(w)
    requires Fits(w, d, t) && IsComputed(w, d, t, setup)
    ensures AllComputed(start, d, ts + [t], setup)
  {
    hide Fits, BeforeLast, IsComputed;
    assert (ts + [t])[..|ts|] == ts;
  }

  lemma TrialAdds(start: World, d: Id, ts: seq<Trial>, w: World, t: Trial)
    requires AfterTrials(start, d, ts) == Some(w) && Fits(w, d, t)
    ensures AfterTrials(start, d, ts + [t]) == Some(AfterTrial(w, d, t)) && BeforeLast(start, d, ts + [t]) == Some(w)
    ensures (ts + [t])[|ts + [t]| - 1] == t
  {
    OneMoreTrial(start, d, ts, t);
    assert (ts + [t])[..|ts|] == ts;
    hide Fits, AfterTrials, AfterTrial;
  }

  lemma OnlyDevice(log: seq<Head>, d: Id, dev: Device, t: Trial, log': seq<Head>)
    requires var w := World(log, map[d := dev]); Fits(w, d, t) && log' == AfterTrial(w, d, t).log
    ensures var w := World(log, map[d := dev]); AfterTrial(w, d, t) == World(log', map[d := DeviceAfter(w, d, t)])
  {
    hide DeviceAfter, OwnHead;
  }

  lemma MoreRaces(ts: seq<Trial>, t: Trial, turns: seq<Turn>)
    requires AllBeaten(ts, turns) && t.race == TurnAt(turns, |ts|).race
    ensures MetTurns(ts + [t], turns)
    ensures IsBeaten(t) ==> AllBeaten(ts + [t], turns)
  {
    hide IsBeaten, TurnAt;
  }

  lemma PhaseAfter(w: World, d: Id, t: Trial)
    requires Fits(w, d, t)
    ensures var pass, next := w.devices[d].phase.pass, DeviceAfter(w, d, t).phase;
      if IsBeaten(t) && pass.attempt + 1 < MAX_ATTEMPTS then
        next == Started(pass.(base := Current(w.log), attempt := pass.attempt + 1))
      else next == Idle
  {
    hide Merges, Landing, Halfway, WithLocalCopies, AfterEdit, AfterCopies;
  }
}
