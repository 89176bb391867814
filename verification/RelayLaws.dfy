/** The relay over whole runs: uploads in two steps, commits, snapshots, retention and
    sweeps in any interleaving (crates/relay/src/routes.rs, db.rs, gc.rs). */
module RelayLaws {
  import opened Manifests
  import opened Relays
  import Base64

  // ---------- the step system ----------

  /** One section under the database lock, or one write to the pool outside it. A sweep
      that fails half way removes only `gone`, a part of the garbage. */
  datatype Step =
    | Create(id: Id, e2e: bool)
    | Store(hash: Hash, size: nat, now: int)
    | Earn(id: Id, hashes: set<Hash>)
    | Commit(id: Id, principal: Principal, baseSeq: nat, row: Row)
    | Snapshot(id: Id, principal: Principal, checkpoint: bool, createdAt: int, row: Row)
    | Collect(cutoff: Option<int>, gone: set<string>)

  predicate Fits(w: Workspace, row: Row) {
    if w.e2e then row.Envelope? else row.Plain?
  }

  ghost predicate Enabled(s: State, step: Step) {
    match step
    case Create(id, _) => id !in s.workspaces
    case Store(hash, _, _) => IsChunkHash(hash)
    case Earn(id, _) => id in s.workspaces
    case Commit(id, principal, baseSeq, row) =>
      && id in s.workspaces && Fits(s.workspaces[id], row) && Admits(s, principal, Pins(row))
      && baseSeq == CurrentSeq(s.workspaces[id].heads)
    case Snapshot(id, principal, _, _, row) =>
      id in s.workspaces && Fits(s.workspaces[id], row) && Admits(s, principal, Pins(row))
    case Collect(cutoff, gone) => gone <= Garbage(Rebuilt(s.workspaces), s.pool, cutoff, s.pool.Keys)
  }

  ghost function After(s: State, step: Step): State
    requires Enabled(s, step)
  {
    match step
    case Create(id, e2e) => s.(workspaces := s.workspaces[id := Workspace(e2e, [], [], {})])
    case Store(hash, size, now) => WithBlob(s, hash, size, now)
    case Earn(id, hashes) => WithRefs(s, id, hashes)
    case Commit(id, _, _, row) => WithHead(s, id, row)
    case Snapshot(id, _, checkpoint, createdAt, row) => WithSnapshot(s, id, checkpoint, createdAt, row)
    case Collect(_, gone) => State(Rebuilt(s.workspaces), s.pool - gone)
  }

  ghost predicate Runs(states: seq<State>, steps: seq<Step>) {
    && |states| == |steps| + 1
    && forall i :: 0 <= i < |steps| ==> Enabled(states[i], steps[i]) && states[i + 1] == After(states[i], steps[i])
  }

  /** An accepted head or snapshot request is a step of the system. */
  lemma AcceptedRequestIsAStep(s: State, id: Id, principal: Principal, submission: Submission, forbidsEnv: bool,
                               baseSeq: nat, checkpoint: bool, createdAt: int)
    requires Acceptable(s, id, principal, submission, forbidsEnv)
    ensures baseSeq == CurrentSeq(s.workspaces[id].heads) <==> Enabled(s, Commit(id, principal, baseSeq, RowOf(submission)))
    ensures Enabled(s, Snapshot(id, principal, checkpoint, createdAt, RowOf(submission)))
  {
    hide Admits, Valid;
  }

  /** So is a sweep, complete or not. */
  lemma SweepIsAStep(s: State, cutoff: Option<int>, pool: map<string, Blob>) returns (gone: set<string>)
    requires PartlySwept(Rebuilt(s.workspaces), s.pool, cutoff, pool)
    ensures Enabled(s, Collect(cutoff, gone)) && After(s, Collect(cutoff, gone)) == State(Rebuilt(s.workspaces), pool)
  {
    hide Rebuilt, Garbage;
    gone :| gone <= Garbage(Rebuilt(s.workspaces), s.pool, cutoff, s.pool.Keys) && pool == s.pool - gone;
  }

  // ---------- committed rows stay servable ----------

  ghost predicate WorkspaceServable(w: Workspace, pool: map<string, Blob>) {
    PinnedBy(Rows(w)) <= w.refs && PinnedBy(Rows(w)) <= pool.Keys
  }

  /** Everything a retained row references is in the pool and visible to the workspace. */
  ghost predicate Servable(s: State) {
    forall id :: id in s.workspaces ==> WorkspaceServable(s.workspaces[id], s.pool)
  }

  lemma Kept(some: seq<HeadRow>, heads: seq<HeadRow>)
    ensures forall r :: r in Newest(some, heads) ==> r in some
  {
  }

  lemma Undropped(snaps: seq<SnapRow>, ids: set<int>)
    ensures forall r :: r in DropIds(snaps, ids) <==> r in snaps && r.id !in ids
  {
  }

  lemma RowsHold(w: Workspace, row: Row)
    ensures row in Rows(w) <==> (exists h :: h in w.heads && h.row == row) || (exists r :: r in w.snaps && r.row == row)
  {
    var rows := Rows(w);
    if row in rows {
      var i :| 0 <= i < |rows| && rows[i] == row;
      if i < |w.heads| {
        assert w.heads[i] in w.heads;
      } else {
        assert w.snaps[i - |w.heads|] in w.snaps;
      }
    }
    if h :| h in w.heads && h.row == row {
      var i :| 0 <= i < |w.heads| && w.heads[i] == h;
      assert rows[i] == row;
    }
    if r :| r in w.snaps && r.row == row {
      var i :| 0 <= i < |w.snaps| && w.snaps[i] == r;
      assert rows[|w.heads| + i] == row;
    }
  }

  /** A workspace whose rows are old rows or `row` pins no more than before and `row`. */
  lemma PinsGrowBy(w: Workspace, w': Workspace, row: Row)
    requires forall r :: r in Rows(w') ==> r in Rows(w) || r == row
    ensures PinnedBy(Rows(w')) <= PinnedBy(Rows(w)) + Pins(row)
  {
    hide Rows, Pins;
  }

  lemma CommitRows(w: Workspace, row: Row)
    ensures var heads := w.heads + [HeadRow(CurrentSeq(w.heads) + 1, row)];
            forall r :: r in Rows(w.(heads := Newest(heads, heads), refs := w.refs + Pins(row))) ==> r in Rows(w) || r == row
  {
    var heads := w.heads + [HeadRow(CurrentSeq(w.heads) + 1, row)];
    var w' := w.(heads := Newest(heads, heads), refs := w.refs + Pins(row));
    Kept(heads, heads);
    hide Rows, Newest, CurrentSeq;
    forall r | r in Rows(w')
      ensures r in Rows(w) || r == row
    {
      RowsHold(w', r);
      RowsHold(w, r);
      if h :| h in w'.heads && h.row == r {
        assert h in heads;
      }
    }
  }

  lemma SnapshotRows(s: State, id: Id, checkpoint: bool, createdAt: int, row: Row)
    requires id in s.workspaces
    ensures var w' := WithSnapshot(s, id, checkpoint, createdAt, row).workspaces[id];
            forall r :: r in Rows(w') ==> r in Rows(s.workspaces[id]) || r == row
  {
    hide Rows, MaxId, DropIds, Retention.PrunedIds, Checkpoints;
    var w, w' := s.workspaces[id], WithSnapshot(s, id, checkpoint, createdAt, row).workspaces[id];
    var snaps := w.snaps + [SnapRow(MaxId(w.snaps) + 1, checkpoint, createdAt, row)];
    Undropped(snaps, Retention.PrunedIds(createdAt, Checkpoints(snaps)));
    assert w'.heads == w.heads && forall r :: r in w'.snaps ==> r in snaps;
    hide WithSnapshot;
    forall r | r in Rows(w')
      ensures r in Rows(w) || r == row
    {
      RowsHold(w', r);
      RowsHold(w, r);
    }
  }

  lemma SweepKeepsServable(s: State, cutoff: Option<int>, gone: set<string>)
    requires Servable(s) && gone <= Garbage(Rebuilt(s.workspaces), s.pool, cutoff, s.pool.Keys)
    ensures Servable(State(Rebuilt(s.workspaces), s.pool - gone))
  {
    var rebuilt := Rebuilt(s.workspaces);
    forall id | id in rebuilt
      ensures WorkspaceServable(rebuilt[id], s.pool - gone)
    {
      var w, w' := s.workspaces[id], rebuilt[id];
      assert Rows(w') == Rows(w);
      assert PinnedBy(Rows(w)) <= w'.refs;
      hide Rows, PinnedBy, Parseable, Live;
      forall h | h in PinnedBy(Rows(w))
        ensures h in s.pool - gone
      {
        assert HasRefs(rebuilt, h);
      }
    }
  }

  lemma StepKeepsServable(s: State, step: Step)
    requires Servable(s) && Enabled(s, step)
    ensures Servable(After(s, step))
  {
    match step
    case Create(id, e2e) =>
    case Store(_, _, _) =>
    case Earn(id, hashes) =>
      assert Rows(After(s, step).workspaces[id]) == Rows(s.workspaces[id]);
    case Commit(id, principal, _, row) =>
      CommitRows(s.workspaces[id], row);
      PinsGrowBy(s.workspaces[id], After(s, step).workspaces[id], row);
      hide Rows, PinnedBy, Newest;
      assert WorkspaceServable(s.workspaces[id], s.pool);
    case Snapshot(id, principal, checkpoint, createdAt, row) =>
      SnapshotRows(s, id, checkpoint, createdAt, row);
      PinsGrowBy(s.workspaces[id], After(s, step).workspaces[id], row);
      hide Rows, PinnedBy;
      assert WorkspaceServable(s.workspaces[id], s.pool);
    case Collect(cutoff, gone) =>
      SweepKeepsServable(s, cutoff, gone);
  }

  /** In every interleaving, every retained head and snapshot stays servable. */
  lemma {:induction false} ServableForever(states: seq<State>, steps: seq<Step>, n: nat)
    requires Runs(states, steps) && Servable(states[0]) && n < |states|
    ensures Servable(states[n])
  {
    hide Servable, Enabled, After;
    if n > 0 {
      ServableForever(states, steps, n - 1);
      StepKeepsServable(states[n - 1], steps[n - 1]);
    }
  }

  /** What servable is for: a reader of the workspace is missing none of its chunks. */
  lemma ReadersCanFetch(s: State, id: Id, row: Row, h: Hash, principal: Principal)
    requires Servable(s) && id in s.workspaces && row in Rows(s.workspaces[id]) && h in Pins(row)
    requires principal.User? ==> id in principal.readable
    ensures Present(s, principal, h)
  {
    assert WorkspaceServable(s.workspaces[id], s.pool);
    assert h in PinnedBy(Rows(s.workspaces[id]));
  }

  // ---------- the same, chunk by chunk ----------

  /** The caller can commit this chunk: it is in the pool, and unless the caller is the admin
      some workspace that the caller can read has a ref to it. */
  predicate Usable(s: State, principal: Principal, h: Hash) {
    && h in s.pool
    && (principal.User? ==> exists id :: id in principal.readable && id in s.workspaces && h in s.workspaces[id].refs)
  }

  /** A plaintext commit is accepted exactly if its workspace is one, the manifest is valid and
      of this workspace, no key is a dotenv file where these are forbidden, and each chunk of
      each file can be used. */
  lemma PlainIsAcceptableIff(s: State, id: Id, principal: Principal, submission: Submission, forbidsEnv: bool)
    requires submission.manifestEnc.None?
    ensures Acceptable(s, id, principal, submission, forbidsEnv) <==>
      && id in s.workspaces && !s.workspaces[id].e2e && submission.body.Parsed?
      && var m := submission.body.manifest;
         && Valid(m.files) && m.workspaceId == id
         && (forbidsEnv ==> forall p :: p in m.files ==> p != [] && !(".env" <= p[|p| - 1]))
         && (forall p, k :: p in m.files && 0 <= k < |m.files[p].chunks| ==> Usable(s, principal, m.files[p].chunks[k]))
  {
    hide Valid;
    if submission.body.Parsed? {
      var m := submission.body.manifest;
      forall p | p in m.files && p != []
        ensures IsDotenv(p) <==> ".env" <= p[|p| - 1]
      {
        DotenvByPrefix(p);
      }
      ValidHasNoRoot(m.files);
      AdmitsEachChunk(s, principal, m);
      hide Admits, IsDotenv, ManifestChunks, Usable;
    }
  }

  lemma ValidHasNoRoot(m: Files)
    ensures Valid(m) ==> [] !in m
  {
  }

  lemma DotenvByPrefix(p: Path)
    requires p != []
    ensures IsDotenv(p) <==> ".env" <= p[|p| - 1]
  {
  }

  lemma AdmitsEachChunk(s: State, principal: Principal, m: Manifest)
    ensures Admits(s, principal, ManifestChunks(m)) <==>
      forall p, k :: p in m.files && 0 <= k < |m.files[p].chunks| ==> Usable(s, principal, m.files[p].chunks[k])
  {
    forall h
      ensures Present(s, principal, h) <==> Usable(s, principal, h)
    {
    }
    hide Present, Usable;
    forall h
      ensures h in ManifestChunks(m) <==>
                exists p, k :: p in m.files && 0 <= k < |m.files[p].chunks| && m.files[p].chunks[k] == h
    {
      if p :| p in m.files && h in m.files[p].chunks {
        var k :| 0 <= k < |m.files[p].chunks| && m.files[p].chunks[k] == h;
      }
    }
    hide ManifestChunks;
  }

  /** An encrypted one: exactly if the blob is base64 of a nonce and a tag at least, and each
      listed chunk is well named and can be used. */
  lemma EnvelopeIsAcceptableIff(s: State, id: Id, principal: Principal, submission: Submission, forbidsEnv: bool)
    requires submission.manifestEnc.Some?
    ensures Acceptable(s, id, principal, submission, forbidsEnv) <==>
      && id in s.workspaces && s.workspaces[id].e2e && submission.chunkHashes.Some?
      && Base64.Decoded(submission.manifestEnc.value).Ok? && |Base64.Decoded(submission.manifestEnc.value).value| >= 28
      && (forall h :: h in submission.chunkHashes.value ==> IsChunkHash(h) && Usable(s, principal, h))
  {
    forall h
      ensures Present(s, principal, h) <==> Usable(s, principal, h)
    {
    }
    hide Base64.Decoded, IsChunkHash, Present, Usable;
  }

  /** The row lists this chunk, at some place of some file or in its envelope. */
  ghost predicate RowLists(row: Row, h: Hash) {
    match row
    case Plain(m) => exists p, k :: p in m.files && 0 <= k < |m.files[p].chunks| && m.files[p].chunks[k] == h
    case Envelope(_, hashes) => h in hashes
    case Legacy(pinned) => h in pinned
  }

  ghost predicate SomeRowLists(w: Workspace, h: Hash) {
    || (exists i :: 0 <= i < |w.heads| && RowLists(w.heads[i].row, h))
    || (exists i :: 0 <= i < |w.snaps| && RowLists(w.snaps[i].row, h))
  }

  lemma PinsIff(row: Row, h: Hash)
    ensures h in Pins(row) <==> RowLists(row, h)
  {
    if row.Plain? {
      var m := row.manifest;
      if p :| p in m.files && h in m.files[p].chunks {
        var k :| 0 <= k < |m.files[p].chunks| && m.files[p].chunks[k] == h;
      }
    }
  }

  lemma PinnedIff(w: Workspace, h: Hash)
    ensures h in PinnedBy(Rows(w)) <==> SomeRowLists(w, h)
  {
    var rows, n := Rows(w), |w.heads|;
    forall i | 0 <= i < |rows|
      ensures h in Pins(rows[i]) <==> RowLists(rows[i], h)
    {
      PinsIff(rows[i], h);
    }
    assert forall i :: 0 <= i < n ==> rows[i] == w.heads[i].row;
    assert forall i :: 0 <= i < |w.snaps| ==> rows[n + i] == w.snaps[i].row;
    assert |rows| == n + |w.snaps|;
    hide Rows, Pins, RowLists;
    if r :| r in rows && h in Pins(r) {
      var i :| 0 <= i < |rows| && rows[i] == r;
      if i >= n {
        assert rows[n + (i - n)] == w.snaps[i - n].row;
      }
    }
    if SomeRowLists(w, h) {
      var i :| 0 <= i < |rows| && RowLists(rows[i], h);
      assert rows[i] in rows;
    }
  }

  /** In every state that a relay can reach from an empty one, every chunk at every place of
      every file of every retained head and snapshot is in the pool, and its workspace has a ref
      to it; likewise every chunk of a retained envelope. */
  lemma RetainedChunksStay(states: seq<State>, steps: seq<Step>, n: nat, id: Id, h: Hash)
    requires Runs(states, steps) && states[0].workspaces == map[] && n < |states|
    requires id in states[n].workspaces && SomeRowLists(states[n].workspaces[id], h)
    ensures h in states[n].pool && h in states[n].workspaces[id].refs
  {
    ServableForever(states, steps, n);
    PinnedIff(states[n].workspaces[id], h);
    assert WorkspaceServable(states[n].workspaces[id], states[n].pool);
  }

  /** A sweep deletes a file exactly if it is named by a chunk hash, is older than the cutoff, and
      no workspace needs it: none of its rows lists it, or if one of them cannot be read, it has
      no ref to it. */
  lemma ChunkGoesIff(s: State, cutoff: Option<int>, name: string)
    requires name in s.pool
    ensures name !in Collected(s, cutoff).pool <==>
      && IsChunkHash(name) && cutoff.Some? && s.pool[name].mtime < cutoff.value
      && forall id :: id in s.workspaces ==> !Needs(s.workspaces[id], name)
  {
    DeletedIff(s, cutoff, name);
    forall id | id in s.workspaces
      ensures name in Live(s.workspaces[id]) <==> Needs(s.workspaces[id], name)
    {
      NeedsIff(s.workspaces[id], name);
    }
    hide Live, Needs, Collected, IsChunkHash;
  }

  predicate CanRead(w: Workspace, row: Row) {
    if w.e2e then row.Envelope? else row.Plain?
  }

  ghost predicate Needs(w: Workspace, h: Hash) {
    if (forall i :: 0 <= i < |w.heads| ==> CanRead(w, w.heads[i].row))
       && (forall i :: 0 <= i < |w.snaps| ==> CanRead(w, w.snaps[i].row))
    then SomeRowLists(w, h)
    else h in w.refs
  }

  lemma NeedsIff(w: Workspace, h: Hash)
    ensures h in Live(w) <==> Needs(w, h)
  {
    PinnedIff(w, h);
    var rows, n := Rows(w), |w.heads|;
    assert forall i :: 0 <= i < n ==> rows[i] == w.heads[i].row;
    assert forall i :: 0 <= i < |w.snaps| ==> rows[n + i] == w.snaps[i].row;
    assert |rows| == n + |w.snaps|;
    forall row
      ensures StoredRowChunks(w.e2e, row).Ok? <==> CanRead(w, row)
    {
    }
    hide Rows, PinnedBy, SomeRowLists, StoredRowChunks, CanRead;
    if Parseable(w) {
      assert forall i :: 0 <= i < |rows| ==> rows[i] in rows;
    } else {
      var r :| r in rows && !StoredRowChunks(w.e2e, r).Ok?;
      var i :| 0 <= i < |rows| && rows[i] == r;
      if i >= n {
        assert rows[n + (i - n)] == w.snaps[i - n].row;
      }
    }
  }

  // ---------- the head log ----------

  /** The rows a run commits to a workspace, oldest first. */
  function Commits(steps: seq<Step>, id: Id): seq<Row> {
    if steps == [] then []
    else
      Commits(steps[..|steps| - 1], id) + CommittedBy(steps[|steps| - 1], id)
  }

  function CommittedBy(step: Step, id: Id): seq<Row> {
    if step.Commit? && step.id == id then [step.row] else []
  }

  lemma CommitsNext(steps: seq<Step>, n: nat, id: Id)
    requires 0 < n <= |steps|
    ensures Commits(steps[..n], id) == Commits(steps[..n - 1], id) + CommittedBy(steps[n - 1], id)
  {
    assert steps[..n][..n - 1] == steps[..n - 1];
  }

  lemma StepAt(states: seq<State>, steps: seq<Step>, i: nat)
    requires Runs(states, steps) && i < |steps|
    ensures |states| == |steps| + 1
    ensures Enabled(states[i], steps[i]) && states[i + 1] == After(states[i], steps[i])
  {
  }

  /** The table holds the newest rows of the log under their sequence numbers. */
  ghost predicate HoldsNewest(heads: seq<HeadRow>, log: seq<Row>) {
    && |heads| == (if |log| < 50 then |log| else 50)
    && forall i :: 0 <= i < |heads| ==>
         heads[i] == HeadRow(|log| - |heads| + i + 1, log[|log| - |heads| + i])
  }

  lemma {:induction false} CountNewer(heads: seq<HeadRow>, k: nat)
    requires Ascending(heads) && k < |heads|
    ensures NewerThan(heads, heads[k].seq_) == |heads| - k - 1
  {
    var newer := set h | h in heads && h.seq_ > heads[k].seq_ :: h.seq_;
    var tail := heads[k + 1..];
    assert newer == set h | h in tail :: h.seq_ by {
      forall h | h in heads && h.seq_ > heads[k].seq_
        ensures h in tail
      {
        var i :| 0 <= i < |heads| && heads[i] == h;
        assert tail[i - k - 1] == h;
      }
    }
    DistinctCount(tail);
  }

  lemma {:induction false} DistinctCount(heads: seq<HeadRow>)
    requires Ascending(heads)
    ensures |set h | h in heads :: h.seq_| == |heads|
  {
    if heads != [] {
      var rest := heads[1..];
      DistinctCount(rest);
      assert (set h | h in heads :: h.seq_) == (set h | h in rest :: h.seq_) + {heads[0].seq_} by {
        assert forall h :: h in heads <==> h == heads[0] || h in rest;
      }
    }
  }

  /** Deleting all but the newest fifty leaves the end of the table. */
  lemma {:induction false} NewestIsSuffix(heads: seq<HeadRow>, k: nat)
    requires Ascending(heads) && k <= |heads|
    ensures var cut := if |heads| - 50 > k then |heads| - 50 else k;
            Newest(heads[k..], heads) == heads[cut..]
    decreases |heads| - k
  {
    if k == |heads| {
      assert heads[k..] == [];
    } else {
      NewestNext(heads, k);
      CountNewer(heads, k);
      NewestIsSuffix(heads, k + 1);
      hide Newest, NewerThan, Ascending;
      if |heads| - 50 <= k {
        FrontAndRest(heads, k);
      }
    }
  }

  lemma FrontAndRest(heads: seq<HeadRow>, k: nat)
    requires k < |heads|
    ensures heads[k..] == [heads[k]] + heads[k + 1..]
  {
  }

  lemma NewestNext(heads: seq<HeadRow>, k: nat)
    requires k < |heads|
    ensures Newest(heads[k..], heads)
         == var rest := Newest(heads[k + 1..], heads);
            if NewerThan(heads, heads[k].seq_) < 50 then [heads[k]] + rest else rest
  {
    hide NewerThan;
    assert heads[k..][1..] == heads[k + 1..];
    assert [] + Newest(heads[k + 1..], heads) == Newest(heads[k + 1..], heads);
  }

  lemma CommitExtendsLog(heads: seq<HeadRow>, log: seq<Row>, row: Row)
    requires HoldsNewest(heads, log)
    ensures CurrentSeq(heads) == |log|
    ensures var more := heads + [HeadRow(CurrentSeq(heads) + 1, row)];
            HoldsNewest(Newest(more, more), log + [row])
  {
    hide Newest;
    var more := heads + [HeadRow(CurrentSeq(heads) + 1, row)];
    assert Ascending(more);
    NewestIsSuffix(more, 0);
    assert more[0..] == more;
  }

  /** What an accepted commit leaves as the newest head is what was sent, word for word, under the
      next number. */
  lemma CommitIsServed(s: State, id: Id, principal: Principal, submission: Submission, forbidsEnv: bool)
    requires Acceptable(s, id, principal, submission, forbidsEnv) && Ascending(s.workspaces[id].heads)
    ensures var heads := WithHead(s, id, RowOf(submission)).workspaces[id].heads;
      && heads != []
      && var newest := heads[|heads| - 1];
         && newest.seq_ == CurrentSeq(s.workspaces[id].heads) + 1
         && if submission.manifestEnc.Some? then
              newest.row.Envelope? && newest.row.enc == submission.manifestEnc.value
              && forall h :: h in newest.row.hashes <==> h in submission.chunkHashes.value
            else newest.row.Plain? && newest.row.manifest == submission.body.manifest
  {
    var before := s.workspaces[id].heads;
    var more := before + [HeadRow(CurrentSeq(before) + 1, RowOf(submission))];
    assert Ascending(more);
    NewestIsSuffix(more, 0);
    assert more[0..] == more;
    hide Newest, Valid, Admits, Base64.Decoded;
  }

  /** The table of heads always holds the newest fifty of everything ever committed, and
      the sequence number a commit must name is the number of commits before it: two
      commits never build on the same head. */
  lemma {:induction false} HeadsFollowTheLog(states: seq<State>, steps: seq<Step>, id: Id, log: seq<Row>, n: nat)
    requires Runs(states, steps) && n < |states|
    requires id in states[0].workspaces && HoldsNewest(states[0].workspaces[id].heads, log)
    ensures id in states[n].workspaces
    ensures HoldsNewest(states[n].workspaces[id].heads, log + Commits(steps[..n], id))
    ensures n < |steps| && steps[n].Commit? && steps[n].id == id ==> steps[n].baseSeq == |log| + |Commits(steps[..n], id)|
  {
    if n < |steps| {
      StepAt(states, steps, n);
    }
    if n > 0 {
      StepAt(states, steps, n - 1);
      CommitsNext(steps, n, id);
    }
    hide Runs, Enabled, After, HoldsNewest, Commits, CommittedBy;
    if n == 0 {
      CommitsNone(steps, id, log);
    } else {
      HeadsFollowTheLog(states, steps, id, log, n - 1);
      var so := log + Commits(steps[..n - 1], id);
      StepExtendsLog(states[n - 1], steps[n - 1], id, so);
      Associate(log, Commits(steps[..n - 1], id), CommittedBy(steps[n - 1], id));
    }
    if n < |steps| {
      StepExtendsLog(states[n], steps[n], id, log + Commits(steps[..n], id));
    }
  }

  lemma CommitsNone(steps: seq<Step>, id: Id, log: seq<Row>)
    ensures Commits(steps[..0], id) == [] && log + [] == log
  {
  }

  lemma Associate(a: seq<Row>, b: seq<Row>, c: seq<Row>)
    ensures (a + b) + c == a + (b + c)
  {
  }

  lemma StepExtendsLog(s: State, step: Step, id: Id, log: seq<Row>)
    requires Enabled(s, step) && id in s.workspaces && HoldsNewest(s.workspaces[id].heads, log)
    ensures id in After(s, step).workspaces
    ensures HoldsNewest(After(s, step).workspaces[id].heads, log + CommittedBy(step, id))
    ensures step.Commit? && step.id == id ==> step.baseSeq == |log|
  {
    if step.Commit? && step.id == id {
      CommitExtendsLog(s.workspaces[id].heads, log, step.row);
      hide HoldsNewest, Newest, CurrentSeq;
    } else {
      OtherStepsKeepHeads(s, step, id);
      assert log + [] == log;
      hide HoldsNewest, After;
    }
  }

  lemma OtherStepsKeepHeads(s: State, step: Step, id: Id)
    requires Enabled(s, step) && id in s.workspaces && !(step.Commit? && step.id == id)
    ensures id in After(s, step).workspaces
    ensures After(s, step).workspaces[id].heads == s.workspaces[id].heads
  {
    hide Live, Newest;
  }

  lemma FlavorIsFixed(s: State, step: Step, id: Id)
    requires Enabled(s, step) && id in s.workspaces
    ensures id in After(s, step).workspaces && After(s, step).workspaces[id].e2e == s.workspaces[id].e2e
  {
    hide Live, Newest;
  }

  // ---------- snapshot rows ----------

  function SnapshotsTaken(steps: seq<Step>, id: Id): nat {
    if steps == [] then 0
    else
      var last := steps[|steps| - 1];
      SnapshotsTaken(steps[..|steps| - 1], id) + if last.Snapshot? && last.id == id then 1 else 0
  }

  lemma MaxIdIs(snaps: seq<SnapRow>, m: int)
    requires m > 0 && (forall r :: r in snaps ==> r.id <= m) && exists r :: r in snaps && r.id == m
    ensures MaxId(snaps) == m
  {
  }

  /** The row just inserted survives the prune that its insert triggers, so the next
      number is always fresh. */
  lemma SnapshotTakesNextId(s: State, id: Id, checkpoint: bool, createdAt: int, row: Row)
    requires id in s.workspaces && UniqueIds(s.workspaces[id].snaps)
    ensures var snaps := WithSnapshot(s, id, checkpoint, createdAt, row).workspaces[id].snaps;
            && MaxId(snaps) == MaxId(s.workspaces[id].snaps) + 1
            && SnapRow(MaxId(snaps), checkpoint, createdAt, row) in snaps
            && UniqueIds(snaps)
            && forall r :: r in s.workspaces[id].snaps && !r.checkpoint ==> r in snaps
  {
    var w := s.workspaces[id];
    var new_ := SnapRow(MaxId(w.snaps) + 1, checkpoint, createdAt, row);
    var all := w.snaps + [new_];
    hide MaxId, DropIds, UniqueIds, Retention.PrunedIds, Checkpoints;
    FreshRow(w.snaps, new_);
    var kept := if checkpoint then DropIds(all, Retention.PrunedIds(createdAt, Checkpoints(all))) else all;
    InsertedRowStays(all, createdAt, new_);
    assert WithSnapshot(s, id, checkpoint, createdAt, row).workspaces[id].snaps == kept;
    hide WithSnapshot;
    MaxIdIs(kept, new_.id);
  }

  lemma FreshRow(snaps: seq<SnapRow>, new_: SnapRow)
    requires UniqueIds(snaps) && new_.id == MaxId(snaps) + 1
    ensures var all := snaps + [new_];
            && new_ in all && UniqueIds(all) && (forall r :: r in snaps ==> r in all)
            && forall r :: r in all ==> r.id <= new_.id
  {
    hide MaxId;
    var all := snaps + [new_];
    assert all[|snaps|] == new_;
    forall i, j | 0 <= i < j < |all|
      ensures all[i].id != all[j].id
    {
      assert all[i] in snaps;
    }
  }

  lemma InsertedRowStays(all: seq<SnapRow>, now: int, new_: SnapRow)
    requires UniqueIds(all) && new_ in all && new_.createdAt == now
    ensures var kept := DropIds(all, Retention.PrunedIds(now, Checkpoints(all)));
            && new_ in kept && UniqueIds(kept)
            && (forall r :: r in all && !r.checkpoint ==> r in kept)
            && forall r :: r in kept ==> r in all
  {
    var doomed := Retention.PrunedIds(now, Checkpoints(all));
    Undropped(all, doomed);
    DropKeepsUnique(all, doomed);
    hide DropIds, UniqueIds, Retention.PrunedIds;
    forall r | r in all && (r == new_ || !r.checkpoint)
      ensures r.id !in doomed
    {
      if r.id in doomed {
        DoomedIsOldCheckpoint(all, now, r);
      }
    }
  }

  lemma DoomedIsOldCheckpoint(all: seq<SnapRow>, now: int, r: SnapRow)
    requires UniqueIds(all) && r in all && r.id in Retention.PrunedIds(now, Checkpoints(all))
    ensures r.checkpoint && r.createdAt != now
  {
    var c :| c in Checkpoints(all) && !Retention.Survives(now, Checkpoints(all), c) && c.id == r.id;
    var x :| x in all && x.checkpoint && c == Retention.Checkpoint(x.id, x.createdAt);
    assert x == r;
  }

  lemma {:induction false} DropKeepsUnique(snaps: seq<SnapRow>, ids: set<int>)
    requires UniqueIds(snaps)
    ensures UniqueIds(DropIds(snaps, ids))
  {
    if snaps != [] {
      DropKeepsUnique(snaps[1..], ids);
      Undropped(snaps[1..], ids);
      var rest := DropIds(snaps[1..], ids);
      forall r | r in rest
        ensures r.id != snaps[0].id
      {
        assert r in snaps[1..];
      }
    }
  }

  lemma StepKeepsSnapshots(s: State, step: Step, id: Id)
    requires Enabled(s, step) && id in s.workspaces && UniqueIds(s.workspaces[id].snaps)
    ensures id in After(s, step).workspaces
    ensures var before, after := s.workspaces[id].snaps, After(s, step).workspaces[id].snaps;
            && UniqueIds(after)
            && MaxId(after) == MaxId(before) + (if step.Snapshot? && step.id == id then 1 else 0)
            && forall r :: r in before && !r.checkpoint ==> r in after
  {
    if step.Snapshot? && step.id == id {
      SnapshotTakesNextId(s, id, step.checkpoint, step.createdAt, step.row);
    } else {
      hide Live, Newest, MaxId, UniqueIds;
      assert After(s, step).workspaces[id].snaps == s.workspaces[id].snaps;
    }
  }

  /** Snapshot ids are never reused, whatever is pruned in between, and a named snapshot
      is never pruned. */
  lemma {:induction false} SnapshotIdsAreFresh(states: seq<State>, steps: seq<Step>, id: Id, n: nat)
    requires Runs(states, steps) && n < |states|
    requires id in states[0].workspaces && UniqueIds(states[0].workspaces[id].snaps)
    ensures id in states[n].workspaces
    ensures var before, after := states[0].workspaces[id].snaps, states[n].workspaces[id].snaps;
            && UniqueIds(after)
            && MaxId(after) == MaxId(before) + SnapshotsTaken(steps[..n], id)
            && forall r :: r in before && !r.checkpoint ==> r in after
  {
    hide Enabled, After, MaxId, UniqueIds;
    if n > 0 {
      SnapshotIdsAreFresh(states, steps, id, n - 1);
      StepKeepsSnapshots(states[n - 1], steps[n - 1], id);
      assert steps[..n][..n - 1] == steps[..n - 1];
    }
  }

  // ---------- garbage collection ----------

  /** A second sweep at the same cutoff drops no ref and deletes no blob. */
  lemma SweepIsIdempotent(s: State, cutoff: Option<int>)
    ensures var once := Collected(s, cutoff);
            && Collected(once, cutoff) == once
            && DroppedRefs(once.workspaces) == {}
            && Garbage(once.workspaces, once.pool, cutoff, once.pool.Keys) == {}
  {
    var once := Collected(s, cutoff);
    forall id | id in s.workspaces
      ensures Live(once.workspaces[id]) == once.workspaces[id].refs
    {
      assert Rows(once.workspaces[id]) == Rows(s.workspaces[id]);
      hide Rows, PinnedBy;
    }
    hide Live;
    assert Rebuilt(once.workspaces) == once.workspaces;
    hide Rebuilt, HasRefs, IsChunkHash;
    assert Garbage(once.workspaces, once.pool, cutoff, once.pool.Keys) == {};
    assert Swept(once.workspaces, once.pool, cutoff) == once.pool;
  }

  /** What a sweep leaves visible: a user sees a chunk afterwards exactly if a workspace it
      can read pins it, or could not be parsed and already had it. */
  lemma VisibleAfterSweep(s: State, cutoff: Option<int>, readable: set<Id>, h: Hash)
    ensures Visible(Collected(s, cutoff), User(readable), h)
            <==> exists id :: id in readable && id in s.workspaces && h in Live(s.workspaces[id])
  {
    hide Live;
    var after := Collected(s, cutoff);
    assert forall id :: id in s.workspaces ==> after.workspaces[id].refs == Live(s.workspaces[id]);
  }

  /** A file of the pool is deleted exactly if it is named by a chunk hash, is older than
      the cutoff, and no workspace still references it after the rebuild. */
  lemma DeletedIff(s: State, cutoff: Option<int>, name: string)
    requires name in s.pool
    ensures name !in Collected(s, cutoff).pool
            <==> && IsChunkHash(name) && cutoff.Some? && s.pool[name].mtime < cutoff.value
                 && forall id :: id in s.workspaces ==> name !in Live(s.workspaces[id])
  {
    hide Live, IsChunkHash;
    var rebuilt := Rebuilt(s.workspaces);
    assert HasRefs(rebuilt, name) <==> exists id :: id in s.workspaces && name in Live(s.workspaces[id]) by {
      if id :| id in s.workspaces && name in Live(s.workspaces[id]) {
        assert name in rebuilt[id].refs;
      }
      if id :| id in rebuilt && name in rebuilt[id].refs {
        assert name in Live(s.workspaces[id]);
      }
    }
  }

  /** Bytes that no sweep of the run is allowed to touch by age are still there. */
  lemma {:induction false} BytesOutliveGrace(states: seq<State>, steps: seq<Step>, h: Hash, n: nat)
    requires Runs(states, steps) && n < |states| && h in states[0].pool
    requires forall i :: 0 <= i < n && steps[i].Collect? && steps[i].cutoff.Some? ==>
               steps[i].cutoff.value <= states[0].pool[h].mtime
    ensures h in states[n].pool && states[n].pool[h] == states[0].pool[h]
  {
    if n > 0 {
      BytesOutliveGrace(states, steps, h, n - 1);
      hide Rebuilt, WithSnapshot, WithHead;
      var before, step := states[n - 1], steps[n - 1];
      assert Enabled(before, step) && states[n] == After(before, step);
      if step.Collect? {
        assert h !in step.gone;
      } else {
        PoolGrows(before, step);
      }
    }
  }

  lemma PoolGrows(s: State, step: Step)
    requires Enabled(s, step) && !step.Collect?
    ensures forall h :: h in s.pool ==> h in After(s, step).pool && After(s, step).pool[h] == s.pool[h]
  {
  }

  // ---------- what an acknowledged upload is worth ----------

  /** Both halves of an upload with no sweep between them: the chunk can be committed by
      any reader of the workspace. */
  lemma UploadIsPresent(s: State, id: Id, h: Hash, size: nat, now: int, principal: Principal)
    requires id in s.workspaces && (principal.User? ==> id in principal.readable)
    ensures Present(WithRefs(WithBlob(s, h, size, now), id, {h}), principal, h)
  {
  }

  function SomeHash(): (h: Hash)
    ensures IsChunkHash(h)
  {
    seq(64, _ => '0')
  }

  /** A sweep between the two halves: the bytes were already in the pool, old and
      unreferenced, so storing them again did not refresh their age. The upload is
      acknowledged and its chunk is gone; a commit that names it is refused. */
  lemma DanglingUploadExample(h: Hash)
    requires h == SomeHash()
    ensures var s0 := State(map["w" := Workspace(false, [], [], {})], map[h := Blob(0, 1)]);
            var s1 := WithBlob(s0, h, 1, 100);
            var s2 := Collected(s1, Some(50));
            var s3 := WithRefs(s2, "w", {h});
            && Servable(s0) && s1 == s0 && h in s3.workspaces["w"].refs && h !in s3.pool
            && !Admits(s3, Admin, {h})
  {
    var s0 := State(map["w" := Workspace(false, [], [], {})], map[h := Blob(0, 1)]);
    EmptyWorkspace(s0, "w");
    DeletedIff(s0, Some(50), h);
    hide SomeHash, Collected, IsChunkHash, Live;
    var s2 := Collected(s0, Some(50));
    assert "w" in s2.workspaces by {
      SweepKeepsIds(s0, Some(50));
    }
  }

  lemma SweepKeepsIds(s: State, cutoff: Option<int>)
    ensures Collected(s, cutoff).workspaces.Keys == s.workspaces.Keys
  {
  }

  lemma EmptyWorkspace(s: State, id: Id)
    requires id in s.workspaces && s.workspaces[id].heads == [] && s.workspaces[id].snaps == []
    ensures Live(s.workspaces[id]) == {} && WorkspaceServable(s.workspaces[id], s.pool)
  {
    assert Rows(s.workspaces[id]) == [];
  }

  /** A sweep between an upload and its commit: the grace window keeps the bytes, but the
      refs earned by the upload are dropped, so a user can no longer commit the chunk. */
  lemma GraceKeepsBytesOnlyExample(h: Hash)
    requires h == SomeHash()
    ensures var s0 := State(map["w" := Workspace(false, [], [], {})], map[]);
            var s1 := WithRefs(WithBlob(s0, h, 1, 100), "w", {h});
            var s2 := Collected(s1, Some(50));
            && Admits(s1, User({"w"}), {h}) && h in s2.pool && !Admits(s2, User({"w"}), {h})
  {
    var s0 := State(map["w" := Workspace(false, [], [], {})], map[]);
    var s1 := WithRefs(WithBlob(s0, h, 1, 100), "w", {h});
    UploadIsPresent(s0, "w", h, 1, 100, User({"w"}));
    EmptyWorkspace(s1, "w");
    DeletedIff(s1, Some(50), h);
    VisibleAfterSweep(s1, Some(50), {"w"}, h);
    hide SomeHash, Collected, IsChunkHash, Live, Visible;
    assert !Present(Collected(s1, Some(50)), User({"w"}), h);
  }

  // ---------- skipped workspaces ----------

  /** A workspace that a sweep skips, because of head rows from before the envelope, is
      collected again once fifty commits have pushed them out. */
  lemma SkippedWorkspaceHeals(states: seq<State>, steps: seq<Step>, id: Id, log: seq<Row>, n: nat)
    requires Runs(states, steps) && n < |states|
    requires id in states[0].workspaces && HoldsNewest(states[0].workspaces[id].heads, log)
    requires |Commits(steps[..n], id)| >= 50
    requires id in states[n].workspaces && forall r :: r in states[n].workspaces[id].snaps ==>
               Fits(states[n].workspaces[id], r.row)
    ensures Parseable(states[n].workspaces[id])
  {
    HeadsFollowTheLog(states, steps, id, log, n);
    CommitsFit(states, steps, id, n);
    var w, commits := states[n].workspaces[id], Commits(steps[..n], id);
    RetainedAreRecent(w.heads, log, commits);
    hide Runs, Commits, Rows, HoldsNewest;
    forall r | r in Rows(w)
      ensures Fits(w, r)
    {
      RowsHold(w, r);
    }
  }

  lemma RetainedAreRecent(heads: seq<HeadRow>, log: seq<Row>, recent: seq<Row>)
    requires HoldsNewest(heads, log + recent) && |recent| >= 50
    ensures forall h :: h in heads ==> h.row in recent
  {
    forall h | h in heads
      ensures h.row in recent
    {
      var i :| 0 <= i < |heads| && heads[i] == h;
      assert h.row == recent[|recent| - |heads| + i];
    }
  }

  lemma {:induction false} CommitsFit(states: seq<State>, steps: seq<Step>, id: Id, n: nat)
    requires Runs(states, steps) && n < |states| && id in states[0].workspaces
    ensures id in states[n].workspaces && states[n].workspaces[id].e2e == states[0].workspaces[id].e2e
    ensures forall r :: r in Commits(steps[..n], id) ==> Fits(states[n].workspaces[id], r)
  {
    if n > 0 {
      CommitsFit(states, steps, id, n - 1);
      assert steps[..n][..n - 1] == steps[..n - 1];
      assert Enabled(states[n - 1], steps[n - 1]);
      FlavorIsFixed(states[n - 1], steps[n - 1], id);
      hide After, Admits;
    }
  }
}
