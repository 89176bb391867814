/** The relay's tables, its shared chunk pool and the pool's garbage collection
    (crates/relay/src/routes.rs, db.rs, gc.rs). Every section that holds the database
    lock is one method. */
module Relays {
  import opened Manifests
  import opened Retention
  import Base64

  type Id = string

  const HEAD_KEEP := 50
  const MAX_CHUNK_SIZE := 4 * 1024 * 1024
  const PUT_MANY_MAX_ENTRIES := 256
  const PUT_MANY_MAX_BYTES := 32 * 1024 * 1024

  /** The stored text of a head or snapshot row. A `Legacy` text cannot be parsed;
      `pinned` is what it references all the same, and no code path reads it. */
  datatype Row = Plain(manifest: Manifest) | Envelope(enc: string, hashes: set<Hash>) | Legacy(pinned: set<Hash>)

  datatype HeadRow = HeadRow(seq_: nat, row: Row)
  datatype SnapRow = SnapRow(id: int, checkpoint: bool, createdAt: int, row: Row)
  datatype Workspace = Workspace(e2e: bool, heads: seq<HeadRow>, snaps: seq<SnapRow>, refs: set<Hash>)
  datatype Blob = Blob(mtime: int, size: nat)

  /** `pool` is keyed by file name; a file that is not named by a chunk hash is foreign. */
  datatype State = State(workspaces: map<Id, Workspace>, pool: map<string, Blob>)

  /** The caller: the admin credential, or a user with the workspaces it can read. */
  datatype Principal = Admin | User(readable: set<Id>)

  // ---------- what a row references ----------

  function ManifestChunks(m: Manifest): set<Hash> {
    set p, h | p in m.files && h in m.files[p].chunks :: h
  }

  function Pins(row: Row): set<Hash> {
    match row
    case Plain(m) => ManifestChunks(m)
    case Envelope(_, hashes) => hashes
    case Legacy(pinned) => pinned
  }

  /** The chunk list as read back from the stored text alone. */
  function StoredRowChunks(e2e: bool, row: Row): Result<set<Hash>, string> {
    if e2e then
      if row.Envelope? then Ok(row.hashes) else Err("chunk list unknowable")
    else
      if row.Plain? then Ok(ManifestChunks(row.manifest)) else Err("stored manifest does not parse")
  }

  /** Head rows first, then snapshots of any kind. */
  function Rows(w: Workspace): seq<Row> {
    seq(|w.heads|, i requires 0 <= i < |w.heads| => w.heads[i].row)
    + seq(|w.snaps|, i requires 0 <= i < |w.snaps| => w.snaps[i].row)
  }

  function PinnedBy(rows: seq<Row>): set<Hash> {
    set r, h | r in rows && h in Pins(r) :: h
  }

  predicate Parseable(w: Workspace) {
    forall r :: r in Rows(w) ==> StoredRowChunks(w.e2e, r).Ok?
  }

  predicate HasRefs(workspaces: map<Id, Workspace>, h: Hash) {
    exists id :: id in workspaces && h in workspaces[id].refs
  }

  predicate Visible(s: State, principal: Principal, h: Hash) {
    match principal
    case Admin => true
    case User(readable) => exists id :: id in readable && id in s.workspaces && h in s.workspaces[id].refs
  }

  predicate Present(s: State, principal: Principal, h: Hash) {
    h in s.pool && Visible(s, principal, h)
  }

  predicate Admits(s: State, principal: Principal, hashes: set<Hash>) {
    forall h :: h in hashes ==> Present(s, principal, h)
  }

  // ---------- transitions of the state ----------

  /** Content addressing: a name that is already there keeps its file and its age. */
  function WithBlob(s: State, hash: Hash, size: nat, now: int): State {
    if hash in s.pool then s else s.(pool := s.pool[hash := Blob(now, size)])
  }

  function WithRefs(s: State, id: Id, hashes: set<Hash>): State
    requires id in s.workspaces
  {
    var w := s.workspaces[id];
    s.(workspaces := s.workspaces[id := w.(refs := w.refs + hashes)])
  }

  function CurrentSeq(heads: seq<HeadRow>): nat {
    if heads == [] then 0 else heads[|heads| - 1].seq_
  }

  /** How many sequence numbers of the table are greater. */
  function NewerThan(heads: seq<HeadRow>, n: nat): nat {
    |set h | h in heads && h.seq_ > n :: h.seq_|
  }

  /** The rows of `some` that are among the newest HEAD_KEEP of `heads`. */
  function Newest(some: seq<HeadRow>, heads: seq<HeadRow>): seq<HeadRow> {
    if some == [] then []
    else (if NewerThan(heads, some[0].seq_) < HEAD_KEEP then [some[0]] else []) + Newest(some[1..], heads)
  }

  function WithHead(s: State, id: Id, row: Row): State
    requires id in s.workspaces
  {
    var w := s.workspaces[id];
    var heads := w.heads + [HeadRow(CurrentSeq(w.heads) + 1, row)];
    s.(workspaces := s.workspaces[id := w.(heads := Newest(heads, heads), refs := w.refs + Pins(row))])
  }

  function MaxId(snaps: seq<SnapRow>): (m: int)
    ensures m >= 0 && forall r :: r in snaps ==> r.id <= m
    ensures m > 0 ==> exists r :: r in snaps && r.id == m
  {
    if snaps == [] then 0
    else
      var m := MaxId(snaps[1..]);
      assert forall r :: r in snaps ==> r == snaps[0] || r in snaps[1..];
      if snaps[0].id > m then snaps[0].id else m
  }

  function Checkpoints(snaps: seq<SnapRow>): set<Checkpoint> {
    set r | r in snaps && r.checkpoint :: Checkpoint(r.id, r.createdAt)
  }

  function DropIds(snaps: seq<SnapRow>, ids: set<int>): seq<SnapRow> {
    if snaps == [] then []
    else (if snaps[0].id in ids then [] else [snaps[0]]) + DropIds(snaps[1..], ids)
  }

  ghost function WithSnapshot(s: State, id: Id, checkpoint: bool, createdAt: int, row: Row): State
    requires id in s.workspaces
  {
    var w := s.workspaces[id];
    var snaps := w.snaps + [SnapRow(MaxId(w.snaps) + 1, checkpoint, createdAt, row)];
    var kept := if checkpoint then DropIds(snaps, PrunedIds(createdAt, Checkpoints(snaps))) else snaps;
    s.(workspaces := s.workspaces[id := w.(snaps := kept, refs := w.refs + Pins(row))])
  }

  /** The refs a sweep leaves: exactly what the rows pin, or everything it had when a
      row cannot be parsed. */
  function Live(w: Workspace): set<Hash> {
    if Parseable(w) then PinnedBy(Rows(w)) else w.refs
  }

  function Rebuilt(workspaces: map<Id, Workspace>): map<Id, Workspace> {
    map id | id in workspaces :: workspaces[id].(refs := Live(workspaces[id]))
  }

  /** Named by a chunk hash, referenced nowhere, and older than the cutoff. */
  predicate Collectable(workspaces: map<Id, Workspace>, pool: map<string, Blob>, cutoff: Option<int>, name: string) {
    && name in pool && IsChunkHash(name) && !HasRefs(workspaces, name)
    && cutoff.Some? && pool[name].mtime < cutoff.value
  }

  function Swept(workspaces: map<Id, Workspace>, pool: map<string, Blob>, cutoff: Option<int>): map<string, Blob> {
    map name | name in pool && !Collectable(workspaces, pool, cutoff, name) :: pool[name]
  }

  function Collected(s: State, cutoff: Option<int>): State {
    var rebuilt := Rebuilt(s.workspaces);
    State(rebuilt, Swept(rebuilt, s.pool, cutoff))
  }

  function LiveMap(workspaces: map<Id, Workspace>): map<Id, set<Hash>> {
    map id | id in workspaces && Parseable(workspaces[id]) :: PinnedBy(Rows(workspaces[id]))
  }

  /** The workspaces a sweep skips. */
  function Unread(workspaces: map<Id, Workspace>, ids: set<Id>): set<Id> {
    set id | id in ids && id in workspaces && !Parseable(workspaces[id])
  }

  function Hashes(names: set<string>): set<string> {
    set name | name in names && IsChunkHash(name)
  }

  function Garbage(workspaces: map<Id, Workspace>, pool: map<string, Blob>, cutoff: Option<int>,
                   names: set<string>): set<string> {
    set name | name in names && Collectable(workspaces, pool, cutoff, name)
  }

  /** Some garbage is gone and nothing else has changed. */
  ghost predicate PartlySwept(workspaces: map<Id, Workspace>, pool: map<string, Blob>, cutoff: Option<int>,
                              after: map<string, Blob>) {
    exists gone :: gone <= Garbage(workspaces, pool, cutoff, pool.Keys) && after == pool - gone
  }

  ghost function DroppedRefs(workspaces: map<Id, Workspace>): set<(Id, Hash)> {
    set id, h | id in workspaces && h in workspaces[id].refs - Live(workspaces[id]) :: (id, h)
  }

  // ---------- well-formed tables ----------

  ghost predicate Ascending(heads: seq<HeadRow>) {
    forall i, j :: 0 <= i < j < |heads| ==> heads[i].seq_ < heads[j].seq_
  }

  ghost predicate UniqueIds(snaps: seq<SnapRow>) {
    forall i, j :: 0 <= i < j < |snaps| ==> snaps[i].id != snaps[j].id
  }

  ghost predicate Tidy(s: State) {
    forall id :: id in s.workspaces ==> Ascending(s.workspaces[id].heads) && UniqueIds(s.workspaces[id].snaps)
  }

  // ---------- requests ----------

  datatype Upload = Upload(hash: Hash, size: nat, digest: Hash)
  datatype Status = Stored | AlreadyPresent | Refused(reason: string)

  /** Validation of one uploaded chunk; `digest` is the hash of the bytes sent. */
  function UploadError(u: Upload): Option<string> {
    if !IsChunkHash(u.hash) then Some("not a chunk hash")
    else if u.size > MAX_CHUNK_SIZE then Some("over the maximum size")
    else if u.digest != u.hash then Some("body does not hash to its name")
    else None
  }

  function TotalSize(uploads: seq<Upload>): nat {
    if uploads == [] then 0 else uploads[0].size + TotalSize(uploads[1..])
  }

  datatype Body = NoManifest | Unparseable | Parsed(manifest: Manifest)
  datatype Submission = Submission(body: Body, manifestEnc: Option<string>, chunkHashes: Option<seq<Hash>>)

  datatype Rejection =
    | NoWorkspace | FlavorMismatch | Incomplete | BadEncoding | BadHash | InvalidManifest | EnvForbidden
    | MissingChunks(count: nat, first: Hash) | Conflict(currentSeq: nat) | FlushFailed

  predicate IsDotenv(p: Path) {
    p != [] && |p[|p| - 1]| >= 4 && p[|p| - 1][..4] == ".env"
  }

  /** The row a submission is stored as, once it is accepted. */
  function RowOf(submission: Submission): Row
    requires submission.manifestEnc.Some? ==> submission.chunkHashes.Some?
    requires submission.manifestEnc.None? ==> submission.body.Parsed?
  {
    match submission.manifestEnc
    case Some(enc) => Envelope(enc, SetOf(submission.chunkHashes.value))
    case None => Plain(submission.body.manifest)
  }

  ghost predicate ValidPlain(id: Id, body: Body, forbidsEnv: bool) {
    && body.Parsed? && Valid(body.manifest.files) && body.manifest.workspaceId == id
    && (forbidsEnv ==> forall p :: p in body.manifest.files ==> !IsDotenv(p))
  }

  predicate ValidEnvelope(enc: string, chunkHashes: Option<seq<Hash>>) {
    && chunkHashes.Some? && (forall h :: h in chunkHashes.value ==> IsChunkHash(h))
    && Base64.Decoded(enc).Ok? && |Base64.Decoded(enc).value| >= 12 + 16
  }

  ghost predicate WellFormed(w: Workspace, id: Id, submission: Submission, forbidsEnv: bool) {
    && w.e2e == submission.manifestEnc.Some?
    && match submission.manifestEnc
       case Some(enc) => ValidEnvelope(enc, submission.chunkHashes)
       case None => ValidPlain(id, submission.body, forbidsEnv)
  }

  /** A submission of the right flavour that is well formed and whose chunks the pool
      holds where the caller can see them. */
  ghost predicate Acceptable(s: State, id: Id, principal: Principal, submission: Submission, forbidsEnv: bool) {
    && id in s.workspaces
    && WellFormed(s.workspaces[id], id, submission, forbidsEnv)
    && Admits(s, principal, Pins(RowOf(submission)))
  }

  /** The first chunk of a listing that the pool lacks or the caller cannot see. */
  ghost predicate IsFirstMissing(s: State, principal: Principal, listed: seq<Hash>, first: Hash) {
    exists i :: 0 <= i < |listed| && listed[i] == first && !Present(s, principal, first)
                && forall k :: 0 <= k < i ==> Present(s, principal, listed[k])
  }

  ghost function MissingOf(s: State, principal: Principal, hashes: set<Hash>): set<Hash> {
    set h | h in hashes && !Present(s, principal, h)
  }

  /** `listed` names every chunk of every file, and nothing else. */
  ghost predicate WalksChunks(listed: seq<Hash>, files: Files) {
    && (forall p, k :: p in files && 0 <= k < |files[p].chunks| ==> files[p].chunks[k] in listed)
    && (forall h :: h in listed ==> exists p, k :: p in files && 0 <= k < |files[p].chunks| && files[p].chunks[k] == h)
  }

  lemma WalkIsComplete(listed: seq<Hash>, m: Manifest)
    requires WalksChunks(listed, m.files)
    ensures SetOf(listed) == ManifestChunks(m)
  {
    forall h
      ensures h in SetOf(listed) <==> h in ManifestChunks(m)
    {
      if p :| p in m.files && h in m.files[p].chunks {
        var k :| 0 <= k < |m.files[p].chunks| && m.files[p].chunks[k] == h;
      }
    }
  }

  datatype Report = Report(scanned: nat, refsDeleted: nat, blobsDeleted: nat, skipped: nat)

  // ---------- the relay ----------

  class Relay {
    var workspaces: map<Id, Workspace>
    var pool: map<string, Blob>

    function Value(): State
      reads this
    {
      State(workspaces, pool)
    }

    constructor (s: State)
      ensures Value() == s
    {
      workspaces, pool := s.workspaces, s.pool;
    }

    /** First half of an upload: the bytes reach the pool. */
    method StoreBlob(u: Upload, now: int) returns (r: Result<bool, string>)
      modifies this`pool
      ensures r.Ok? <==> IsChunkHash(u.hash) && u.size <= 4_194_304 && u.digest == u.hash
      ensures r.Err? <==> UploadError(u).Some?
      ensures r.Err? ==> r.error == UploadError(u).value
      ensures r == Ok(true) ==> u.hash !in old(pool)
      ensures r == Ok(false) ==> u.hash in old(pool)
      ensures Value() == if r.Ok? then WithBlob(old(Value()), u.hash, u.size, now) else old(Value())
    {
      if UploadError(u).Some? {
        return Err(UploadError(u).value);
      }
      if u.hash in pool {
        return Ok(false);
      }
      pool := pool[u.hash := Blob(now, u.size)];
      r := Ok(true);
    }

    /** Second half: the workspace earns visibility of what it uploaded. */
    method EarnRefs(id: Id, hashes: set<Hash>)
      requires id in workspaces
      modifies this`workspaces
      ensures Value() == WithRefs(old(Value()), id, hashes)
    {
      var w := workspaces[id];
      workspaces := workspaces[id := w.(refs := w.refs + hashes)];
    }

    /** The store half of a batched upload: every entry gets its own verdict, in order,
        and one bad entry does not touch the others. */
    method StoreMany(uploads: seq<Upload>, now: int) returns (statuses: seq<Status>, confirmed: set<Hash>)
      modifies this`pool
      ensures |statuses| == |uploads|
      ensures forall i :: 0 <= i < |uploads| ==> Graded(statuses[i], uploads, i, old(pool))
      ensures confirmed == Accepted(uploads)
      ensures Grown(old(pool), pool, confirmed, now)
    {
      hide UploadError, Accepted;
      statuses, confirmed := [], {};
      AcceptedNone();
      for i := 0 to |uploads|
        invariant |statuses| == i
        invariant forall k :: 0 <= k < i ==> Graded(statuses[k], uploads, k, old(pool))
        invariant confirmed == Accepted(uploads[..i])
        invariant Grown(old(pool), pool, confirmed, now)
      {
        AcceptedNext(uploads, i);
        var r := StoreBlob(uploads[i], now);
        match r {
          case Err(reason) =>
            statuses := statuses + [Refused(reason)];
          case Ok(stored) =>
            statuses := statuses + [if stored then Stored else AlreadyPresent];
            confirmed := confirmed + {uploads[i].hash};
        }
      }
      assert uploads[..|uploads|] == uploads;
    }

    /** A batched upload with no sweep between its halves: over either cap the whole request is
        refused before anything is stored. Otherwise every reader of the workspace can commit
        exactly what was confirmed besides what it could commit before. */
    method PutMany(id: Id, uploads: seq<Upload>, now: int) returns (r: Result<seq<Status>, string>)
      modifies this
      ensures r.Err? <==> |uploads| > 256 || TotalSize(uploads) > 33_554_432 || id !in old(workspaces)
      ensures r.Err? ==> Value() == old(Value())
      ensures r.Ok? ==>
                && |r.value| == |uploads|
                && (forall i :: 0 <= i < |uploads| ==> Graded(r.value[i], uploads, i, old(pool)))
                && Grown(old(pool), pool, Accepted(uploads), now) && AllVerified(old(pool), pool, uploads)
                && workspaces == WithRefs(old(Value()), id, Accepted(uploads)).workspaces
                && Earned(old(Value()), Value(), id, Accepted(uploads))
    {
      if |uploads| > PUT_MANY_MAX_ENTRIES {
        return Err("too many entries");
      }
      if TotalSize(uploads) > PUT_MANY_MAX_BYTES {
        return Err("too many bytes");
      }
      if id !in workspaces {
        return Err("no such workspace");
      }
      ghost var before := Value();
      var statuses, confirmed := StoreMany(uploads, now);
      ghost var stored := Value();
      EarnRefs(id, confirmed);
      AddedIsVerified(before.pool, pool, uploads, now);
      hide Graded, Accepted, AllVerified;
      UploadEarns(before, stored, id, confirmed, now);
      r := Ok(statuses);
    }

    // ---------- commits ----------

    method CountMissing(principal: Principal, listed: seq<Hash>) returns (missing: nat, first: Hash)
      ensures missing == |MissingOf(Value(), principal, SetOf(listed))|
      ensures missing > 0 ==> IsFirstMissing(Value(), principal, listed, first)
    {
      missing, first := 0, "";
      var seen: set<Hash> := {};
      assert MissingOf(Value(), principal, seen) == {};
      for i := 0 to |listed|
        invariant seen == SetOf(listed[..i])
        invariant missing == |MissingOf(Value(), principal, seen)|
        invariant missing == 0 ==> forall k :: 0 <= k < i ==> Present(Value(), principal, listed[k])
        invariant missing > 0 ==> IsFirstMissing(Value(), principal, listed, first)
      {
        hide Present, SetOf, MissingOf;
        var h := listed[i];
        Prefix(listed, i);
        if h !in seen {
          MissingNext(Value(), principal, seen, h);
          seen := seen + {h};
          if !Present(Value(), principal, h) {
            if missing == 0 {
              first := h;
            }
            missing := missing + 1;
          }
        } else {
          SeenBefore(Value(), principal, listed, i);
          assert seen + {h} == seen;
        }
      }
      assert listed[..|listed|] == listed;
    }

    /** The trust boundary of a plaintext commit. `listed` walks the chunks of the
        manifest in file order. */
    method ValidateManifest(id: Id, principal: Principal, body: Body, listed: seq<Hash>, forbidsEnv: bool)
      returns (error: Option<Rejection>)
      requires body.Parsed? ==> WalksChunks(listed, body.manifest.files)
      ensures error.None? <==> ValidPlain(id, body, forbidsEnv) && Admits(Value(), principal, ManifestChunks(body.manifest))
      ensures error.Some? && error.value.MissingChunks? ==>
                && ValidPlain(id, body, forbidsEnv)
                && error.value.count == |MissingOf(Value(), principal, ManifestChunks(body.manifest))|
                && IsFirstMissing(Value(), principal, listed, error.value.first)
      ensures error.Some? ==> error.value in {Incomplete, InvalidManifest, EnvForbidden} || error.value.MissingChunks?
      ensures error == Some(Incomplete) <==> body.NoManifest?
      ensures error == Some(EnvForbidden) <==>
                body.Parsed? && Valid(body.manifest.files) && body.manifest.workspaceId == id
                && !ValidPlain(id, body, forbidsEnv)
    {
      hide IsFirstMissing, Present;
      if body.NoManifest? {
        return Some(Incomplete);
      }
      if body.Unparseable? {
        return Some(InvalidManifest);
      }
      var m := body.manifest;
      WalkIsComplete(listed, m);
      var valid := Validate(m.files);
      if !valid || m.workspaceId != id {
        return Some(InvalidManifest);
      }
      if forbidsEnv && exists p :: p in m.files && IsDotenv(p) {
        return Some(EnvForbidden);
      }
      var missing, first := CountMissing(principal, listed);
      AdmitsIffNoneMissing(Value(), principal, ManifestChunks(m));
      error := if missing > 0 then Some(MissingChunks(missing, first)) else None;
    }

    /** The trust boundary of an encrypted commit. */
    method ValidateEnvelope(principal: Principal, enc: string, chunkHashes: seq<Hash>) returns (error: Option<Rejection>)
      ensures error.None? <==> ValidEnvelope(enc, Some(chunkHashes)) && Admits(Value(), principal, SetOf(chunkHashes))
      ensures error.Some? && error.value.MissingChunks? ==>
                && ValidEnvelope(enc, Some(chunkHashes))
                && error.value.count == |MissingOf(Value(), principal, SetOf(chunkHashes))|
                && IsFirstMissing(Value(), principal, chunkHashes, error.value.first)
      ensures error.Some? ==> error.value in {BadEncoding, BadHash} || error.value.MissingChunks?
      ensures error == Some(BadEncoding) <==> Base64.Decoded(enc).Err? || |Base64.Decoded(enc).value| < 12 + 16
    {
      hide IsFirstMissing, Present, Base64.Decoded;
      var decoded := Base64.Decode(enc);
      if decoded.Err? || |decoded.value| < 12 + 16 {
        return Some(BadEncoding);
      }
      if exists h :: h in chunkHashes && !IsChunkHash(h) {
        return Some(BadHash);
      }
      var missing, first := CountMissing(principal, chunkHashes);
      AdmitsIffNoneMissing(Value(), principal, SetOf(chunkHashes));
      error := if missing > 0 then Some(MissingChunks(missing, first)) else None;
    }

    method ValidateSubmission(id: Id, principal: Principal, submission: Submission, listed: seq<Hash>, forbidsEnv: bool)
      returns (r: Result<Row, Rejection>)
      requires submission.body.Parsed? ==> WalksChunks(listed, submission.body.manifest.files)
      ensures r.Ok? <==> Acceptable(Value(), id, principal, submission, forbidsEnv)
      ensures r.Ok? ==> r.value == RowOf(submission)
      ensures r.Err? && r.error.MissingChunks? ==>
                && id in workspaces && WellFormed(workspaces[id], id, submission, forbidsEnv)
                && r.error.count == |MissingOf(Value(), principal, Pins(RowOf(submission)))|
                && IsFirstMissing(Value(), principal,
                     if submission.manifestEnc.Some? then submission.chunkHashes.value else listed, r.error.first)
      ensures r.Err? ==> !r.error.Conflict? && !r.error.FlushFailed?
      ensures r == Err(NoWorkspace) <==> id !in workspaces
      ensures r == Err(FlavorMismatch) <==> id in workspaces && workspaces[id].e2e != submission.manifestEnc.Some?
    {
      if id !in workspaces {
        return Err(NoWorkspace);
      }
      if workspaces[id].e2e != submission.manifestEnc.Some? {
        return Err(FlavorMismatch);
      }
      var error: Option<Rejection>;
      if submission.manifestEnc.Some? {
        if submission.chunkHashes.None? {
          return Err(Incomplete);
        }
        error := ValidateEnvelope(principal, submission.manifestEnc.value, submission.chunkHashes.value);
      } else {
        error := ValidateManifest(id, principal, submission.body, listed, forbidsEnv);
      }
      if error.Some? {
        return Err(error.value);
      }
      r := Ok(RowOf(submission));
    }

    /** A head commit: validation, compare-and-swap on the sequence number, flush of the
        pool, and one transaction for the row, the pruning and the refs. */
    method PutHead(id: Id, principal: Principal, baseSeq: nat, submission: Submission, listed: seq<Hash>,
                   forbidsEnv: bool, flushed: bool) returns (r: Result<nat, Rejection>)
      requires submission.body.Parsed? ==> WalksChunks(listed, submission.body.manifest.files)
      modifies this`workspaces
      ensures r.Ok? <==> Acceptable(old(Value()), id, principal, submission, forbidsEnv)
                         && baseSeq == CurrentSeq(old(workspaces)[id].heads) && flushed
      ensures r.Ok? ==> r.value == baseSeq + 1 && Value() == WithHead(old(Value()), id, RowOf(submission))
      ensures r.Err? ==> Value() == old(Value())
      ensures r.Err? && r.error.Conflict? <==> Acceptable(old(Value()), id, principal, submission, forbidsEnv)
                                               && baseSeq != CurrentSeq(old(workspaces)[id].heads)
      ensures r.Err? && r.error.Conflict? ==> r.error.currentSeq == CurrentSeq(old(workspaces)[id].heads)
      ensures r == Err(NoWorkspace) <==> id !in old(workspaces)
      ensures r == Err(FlavorMismatch) <==> id in old(workspaces) && old(workspaces)[id].e2e != submission.manifestEnc.Some?
      ensures r == Err(FlushFailed) <==> Acceptable(old(Value()), id, principal, submission, forbidsEnv)
                                         && baseSeq == CurrentSeq(old(workspaces)[id].heads) && !flushed
    {
      var row := ValidateSubmission(id, principal, submission, listed, forbidsEnv);
      if row.Err? {
        return Err(row.error);
      }
      var w := workspaces[id];
      var current := CurrentSeq(w.heads);
      if baseSeq != current {
        return Err(Conflict(current));
      }
      if !flushed {
        return Err(FlushFailed);
      }
      var heads := w.heads + [HeadRow(current + 1, row.value)];
      workspaces := workspaces[id := w.(heads := Newest(heads, heads), refs := w.refs + Pins(row.value))];
      r := Ok(current + 1);
    }

    /** A snapshot: the same boundary, no compare-and-swap. */
    method CreateSnapshot(id: Id, principal: Principal, submission: Submission, listed: seq<Hash>,
                          forbidsEnv: bool, flushed: bool, createdAt: int) returns (r: Result<int, Rejection>)
      requires submission.body.Parsed? ==> WalksChunks(listed, submission.body.manifest.files)
      requires Tidy(Value())
      modifies this`workspaces
      ensures r.Ok? <==> Acceptable(old(Value()), id, principal, submission, forbidsEnv) && flushed
      ensures r.Ok? ==> r.value == MaxId(old(workspaces)[id].snaps) + 1
                        && Value() == WithSnapshot(old(Value()), id, false, createdAt, RowOf(submission))
      ensures r.Err? ==> Value() == old(Value())
    {
      var row := ValidateSubmission(id, principal, submission, listed, forbidsEnv);
      if row.Err? {
        return Err(row.error);
      }
      if !flushed {
        return Err(FlushFailed);
      }
      var sid := InsertSnapshot(id, false, createdAt, row.value);
      r := Ok(sid);
    }

    static method DropEach(all: seq<SnapRow>, doomed: seq<int>) returns (snaps: seq<SnapRow>)
      ensures snaps == DropIds(all, SetOf(doomed))
    {
      snaps := all;
      DropNone(all);
      assert SetOf(doomed[..0]) == {};
      for i := 0 to |doomed|
        invariant snaps == DropIds(all, SetOf(doomed[..i]))
      {
        Prefix(doomed, i);
        DropOneMore(all, SetOf(doomed[..i]), doomed[i]);
        snaps := DropIds(snaps, {doomed[i]});
      }
      assert doomed[..|doomed|] == doomed;
    }

    /** Append a snapshot row; a checkpoint also prunes the checkpoints of its workspace
        one row at a time. */
    method InsertSnapshot(id: Id, checkpoint: bool, createdAt: int, row: Row) returns (sid: int)
      requires id in workspaces && UniqueIds(workspaces[id].snaps)
      modifies this`workspaces
      ensures sid == MaxId(old(workspaces)[id].snaps) + 1
      ensures Value() == WithSnapshot(old(Value()), id, checkpoint, createdAt, row)
    {
      var w := workspaces[id];
      sid := MaxId(w.snaps) + 1;
      var snaps := w.snaps + [SnapRow(sid, checkpoint, createdAt, row)];
      assert UniqueIds(snaps);
      if checkpoint {
        var listed := ListCheckpoints(snaps);
        var prune := CheckpointsToPrune(createdAt, listed);
        assert (set c | c in listed) == Checkpoints(snaps);
        ghost var all := snaps;
        DropNone(snaps);
        snaps := DropEach(snaps, prune);
        ghost var doomed := PrunedIds(createdAt, Checkpoints(all));
        assert forall x :: x in SetOf(prune) <==> x in doomed;
        assert SetOf(prune) == doomed;
      }
      workspaces := workspaces[id := w.(snaps := snaps, refs := w.refs + Pins(row))];
    }

    // ---------- garbage collection ----------

    /** The chunks pinned by the rows of a workspace, given up at the first row that does
        not parse. */
    static method MarkRows(w: Workspace) returns (pinned: Option<set<Hash>>)
      ensures pinned.Some? <==> Parseable(w)
      ensures pinned.Some? ==> pinned.value == PinnedBy(Rows(w))
    {
      var rows := Rows(w);
      var acc: set<Hash> := {};
      for i := 0 to |rows|
        invariant forall k :: 0 <= k < i ==> StoredRowChunks(w.e2e, rows[k]).Ok?
        invariant acc == PinnedBy(rows[..i])
      {
        var chunks := StoredRowChunks(w.e2e, rows[i]);
        if chunks.Err? {
          return None;
        }
        PinnedNext(rows, i);
        acc := acc + chunks.value;
      }
      assert rows[..|rows|] == rows;
      pinned := Some(acc);
    }

    method Mark(order: seq<Id>) returns (live: map<Id, set<Hash>>, skipped: nat)
      requires Lists(order, workspaces.Keys)
      ensures live == LiveMap(workspaces)
      ensures skipped == |Unread(workspaces, workspaces.Keys)|
    {
      hide Parseable, PinnedBy, Rows, SetOf, Lists;
      live, skipped := map[], 0;
      ghost var done: set<Id> := {};
      WalkEnds(order, workspaces.Keys);
      assert Unread(workspaces, {}) == {};
      for i := 0 to |order|
        invariant done == SetOf(order[..i]) && done <= workspaces.Keys
        invariant live == map id | id in done && Parseable(workspaces[id]) :: PinnedBy(Rows(workspaces[id]))
        invariant skipped == |Unread(workspaces, done)|
      {
        hide Unread;
        var id := order[i];
        Walk(order, workspaces.Keys, i);
        UnreadNext(workspaces, done, id);
        var pinned := MarkRows(workspaces[id]);
        done := done + {id};
        if pinned.Some? {
          live := live[id := pinned.value];
        } else {
          skipped := skipped + 1;
        }
      }
    }

    /** One workspace's refs become exactly `keep`, row by row. */
    static method ReplaceRefs(refs: set<Hash>, keep: set<Hash>) returns (now: set<Hash>, deleted: nat)
      ensures now == keep && deleted == |refs - keep|
    {
      now, deleted := refs, 0;
      var gone := refs - keep;
      while gone != {}
        invariant gone <= refs - keep
        invariant now == gone + refs * keep
        invariant deleted + |gone| == |refs - keep|
        decreases gone
      {
        var h :| h in gone;
        now := now - {h};
        gone := gone - {h};
        deleted := deleted + 1;
      }
      now := now + keep;
    }

    method RebuildRefs(order: seq<Id>, live: map<Id, set<Hash>>) returns (deleted: nat)
      requires Lists(order, workspaces.Keys) && live == LiveMap(workspaces)
      modifies this`workspaces
      ensures workspaces == Rebuilt(old(workspaces))
      ensures deleted == |DroppedRefs(old(workspaces))|
    {
      hide SetOf, Lists;
      deleted := 0;
      ghost var done: set<Id> := {};
      ghost var before := workspaces;
      WalkEnds(order, before.Keys);
      DroppedEnds(before);
      for i := 0 to |order|
        invariant done == SetOf(order[..i]) && done <= before.Keys
        invariant workspaces == RebuiltIn(before, done)
        invariant deleted == |DroppedFrom(before, done)|
      {
        hide DroppedFrom, RebuiltIn, LiveMap, Live;
        var id := order[i];
        Walk(order, before.Keys, i);
        DropOneWorkspace(before, done, id);
        RebuildOneMore(before, done, id);
        LiveOf(before, id);
        if id in live {
          var refs, n := ReplaceRefs(workspaces[id].refs, live[id]);
          workspaces := workspaces[id := workspaces[id].(refs := refs)];
          deleted := deleted + n;
        }
        done := done + {id};
      }
    }

    /** The blob half. `stuck` are the files whose removal fails: the first one met ends
        the sweep with an error. */
    method SweepBlobs(listing: seq<string>, cutoff: Option<int>, stuck: set<string>)
      returns (failed: Option<string>, scanned: nat, deleted: nat)
      requires Lists(listing, pool.Keys)
      modifies this`pool
      ensures failed.None? ==>
                && pool == Swept(workspaces, old(pool), cutoff)
                && scanned == |Hashes(old(pool).Keys)|
                && deleted == |Garbage(workspaces, old(pool), cutoff, old(pool).Keys)|
      ensures failed.Some? ==> failed.value in stuck && Collectable(workspaces, old(pool), cutoff, failed.value)
      ensures PartlySwept(workspaces, old(pool), cutoff, pool)
    {
      hide SetOf, Lists, HasRefs, IsChunkHash;
      scanned, deleted := 0, 0;
      ghost var before := pool;
      ghost var seen: set<string> := {};
      WalkEnds(listing, before.Keys);
      assert Hashes(seen) == {} && Garbage(workspaces, before, cutoff, seen) == {};
      for i := 0 to |listing|
        invariant seen == SetOf(listing[..i]) && seen <= before.Keys
        invariant pool == before - Garbage(workspaces, before, cutoff, seen)
        invariant scanned == |Hashes(seen)| && deleted == |Garbage(workspaces, before, cutoff, seen)|
      {
        var name := listing[i];
        Walk(listing, before.Keys, i);
        assert Collectable(workspaces, before, cutoff, name)
               <==> IsChunkHash(name) && !HasRefs(workspaces, name) && cutoff.Some? && before[name].mtime < cutoff.value;
        hide Collectable, Hashes, Garbage;
        GarbageNext(workspaces, before, cutoff, seen, name);
        HashesNext(seen, name);
        seen := seen + {name};
        if !IsChunkHash(name) {
          continue;
        }
        scanned := scanned + 1;
        if HasRefs(workspaces, name) {
          continue;
        }
        if cutoff.None? || pool[name].mtime >= cutoff.value {
          continue;
        }
        if name in stuck {
          GarbageIn(workspaces, before, cutoff, seen);
          return Some(name), scanned, deleted;
        }
        pool := pool - {name};
        deleted := deleted + 1;
      }
      failed := None;
      GarbageIn(workspaces, before, cutoff, seen);
    }

    /** One mark-and-sweep under the database lock. */
    method RunPoolGc(order: seq<Id>, listing: seq<string>, cutoff: Option<int>, stuck: set<string>)
      returns (r: Result<Report, string>)
      requires Lists(order, workspaces.Keys) && Lists(listing, pool.Keys)
      modifies this
      ensures r.Ok? ==>
                && Value() == Collected(old(Value()), cutoff)
                && r.value.refsDeleted == |DroppedRefs(old(workspaces))|
                && r.value.skipped == |Unread(old(workspaces), old(workspaces).Keys)|
                && r.value.scanned == |Hashes(old(pool).Keys)|
                && r.value.blobsDeleted == |Garbage(workspaces, old(pool), cutoff, old(pool).Keys)|
      ensures r.Err? ==> r.error in stuck
      ensures workspaces == Rebuilt(old(workspaces))
      ensures PartlySwept(workspaces, old(pool), cutoff, pool)
    {
      var live, skipped := Mark(order);
      var refsDeleted := RebuildRefs(order, live);
      var failed, scanned, blobsDeleted := SweepBlobs(listing, cutoff, stuck);
      if failed.Some? {
        return Err(failed.value);
      }
      r := Ok(Report(scanned, refsDeleted, blobsDeleted, skipped));
    }
  }

  // ---------- supporting lemmas ----------

  ghost function Accepted(uploads: seq<Upload>): set<Hash> {
    set u | u in uploads && UploadError(u).None? :: u.hash
  }

  lemma AcceptedNext(uploads: seq<Upload>, i: nat)
    requires i < |uploads|
    ensures Accepted(uploads[..i + 1])
            == Accepted(uploads[..i]) + if UploadError(uploads[i]).None? then {uploads[i].hash} else {}
  {
    assert uploads[..i + 1] == uploads[..i] + [uploads[i]];
    assert forall u :: u in uploads[..i + 1] <==> u in uploads[..i] || u == uploads[i];
  }

  lemma AcceptedNone()
    ensures Accepted([]) == {}
  {
  }

  /** The verdict on entry `i`: refused on its own merits, stored if neither the pool nor
      an earlier entry had its bytes. */
  ghost predicate Graded(status: Status, uploads: seq<Upload>, i: nat, before: map<string, Blob>)
    requires i < |uploads|
  {
    && (status.Refused? <==> UploadError(uploads[i]).Some?)
    && (status.Refused? ==> status.reason == UploadError(uploads[i]).value)
    && (status == Stored <==> UploadError(uploads[i]).None? && uploads[i].hash !in before
                              && uploads[i].hash !in Accepted(uploads[..i]))
  }

  /** `added` is in the pool; what was there before keeps its age. */
  ghost predicate Grown(before: map<string, Blob>, after: map<string, Blob>, added: set<Hash>, now: int) {
    && after.Keys == before.Keys + added
    && (forall name :: name in before ==> after[name] == before[name])
    && (forall name :: name in after && name !in before ==> after[name].mtime == now)
  }

  /** Nothing comes into the pool but under the name that its bytes hash to. */
  ghost predicate AllVerified(before: map<string, Blob>, after: map<string, Blob>, uploads: seq<Upload>) {
    forall name :: name in after && name !in before ==>
      exists i :: 0 <= i < |uploads| && uploads[i].hash == uploads[i].digest == name && uploads[i].size <= 4_194_304
  }

  lemma AddedIsVerified(before: map<string, Blob>, after: map<string, Blob>, uploads: seq<Upload>, now: int)
    requires Grown(before, after, Accepted(uploads), now)
    ensures AllVerified(before, after, uploads)
  {
    forall name | name in after && name !in before
      ensures exists i :: 0 <= i < |uploads| && uploads[i].hash == uploads[i].digest == name && uploads[i].size <= 4_194_304
    {
      assert name in Accepted(uploads);
      var u :| u in uploads && UploadError(u).None? && u.hash == name;
      var i :| 0 <= i < |uploads| && uploads[i] == u;
    }
  }

  /** The size of a batch is the sum of its parts. */
  lemma {:induction false} SizesAddUp(a: seq<Upload>, b: seq<Upload>)
    ensures TotalSize([]) == 0 && TotalSize(a + b) == TotalSize(a) + TotalSize(b)
    ensures |a| == 1 ==> TotalSize(a) == a[0].size
  {
    if a == [] {
      assert a + b == b;
    } else {
      SizesAddUp(a[1..], b);
      assert (a + b)[1..] == a[1..] + b;
      assert |a| == 1 ==> a[1..] == [];
    }
  }

  /** What an upload changes for those who commit: a reader of the workspace has all of `added`
      besides what it had, and nobody else gets more than they can see elsewhere. */
  ghost predicate Earned(before: State, after: State, id: Id, added: set<Hash>) {
    forall principal, h ::
      Present(after, principal, h)
      <==> Present(before, principal, h) || (h in added && (MayRead(principal, id) || Visible(before, principal, h)))
  }

  predicate MayRead(principal: Principal, id: Id) {
    principal.User? ==> id in principal.readable
  }

  lemma UploadEarns(before: State, stored: State, id: Id, added: set<Hash>, now: int)
    requires id in before.workspaces && stored.workspaces == before.workspaces && Grown(before.pool, stored.pool, added, now)
    ensures Earned(before, WithRefs(stored, id, added), id, added)
  {
    var after := WithRefs(stored, id, added);
    forall principal, h
      ensures Present(after, principal, h)
         <==> Present(before, principal, h) || (h in added && (MayRead(principal, id) || Visible(before, principal, h)))
    {
    }
  }

  lemma AdmitsIffNoneMissing(s: State, principal: Principal, hashes: set<Hash>)
    ensures Admits(s, principal, hashes) <==> |MissingOf(s, principal, hashes)| == 0
  {
    hide Present;
    var missing := MissingOf(s, principal, hashes);
    forall h | h in hashes
      ensures Present(s, principal, h) <==> h !in missing
    {
    }
    if missing == {} {
      assert |missing| == 0;
    } else {
      var h :| h in missing;
    }
  }

  lemma MissingNext(s: State, principal: Principal, seen: set<Hash>, h: Hash)
    requires h !in seen
    ensures |MissingOf(s, principal, seen + {h})|
            == |MissingOf(s, principal, seen)| + if Present(s, principal, h) then 0 else 1
  {
    assert MissingOf(s, principal, seen + {h}) == MissingOf(s, principal, seen) + if Present(s, principal, h) then {} else {h};
    assert h !in MissingOf(s, principal, seen);
  }

  /** A hash met again counts as it did the first time. */
  lemma SeenBefore(s: State, principal: Principal, listed: seq<Hash>, i: nat)
    requires i < |listed| && listed[i] in SetOf(listed[..i])
    ensures (forall k :: 0 <= k < i ==> Present(s, principal, listed[k])) ==> Present(s, principal, listed[i])
  {
    var k :| 0 <= k < i && listed[..i][k] == listed[i];
    assert listed[k] == listed[i];
  }

  lemma PinnedNext(rows: seq<Row>, i: nat)
    requires i < |rows|
    ensures PinnedBy(rows[..i + 1]) == PinnedBy(rows[..i]) + Pins(rows[i])
  {
    hide Pins;
    assert rows[..i + 1] == rows[..i] + [rows[i]];
    forall h
      ensures h in PinnedBy(rows[..i + 1]) <==> h in PinnedBy(rows[..i]) || h in Pins(rows[i])
    {
      if h in Pins(rows[i]) {
        assert rows[i] in rows[..i + 1];
      }
    }
  }

  lemma UnreadNext(workspaces: map<Id, Workspace>, done: set<Id>, id: Id)
    requires id in workspaces && id !in done
    ensures |Unread(workspaces, done + {id})| == |Unread(workspaces, done)| + if Parseable(workspaces[id]) then 0 else 1
  {
    hide Parseable;
    assert Unread(workspaces, done + {id}) == Unread(workspaces, done) + if Parseable(workspaces[id]) then {} else {id};
    assert id !in Unread(workspaces, done);
  }

  ghost function RebuiltIn(workspaces: map<Id, Workspace>, done: set<Id>): map<Id, Workspace> {
    map id | id in workspaces ::
      if id in done then workspaces[id].(refs := Live(workspaces[id])) else workspaces[id]
  }

  lemma RebuildOneMore(workspaces: map<Id, Workspace>, done: set<Id>, id: Id)
    requires id in workspaces && id !in done
    ensures var now := RebuiltIn(workspaces, done);
            && now.Keys == workspaces.Keys && now[id] == workspaces[id]
            && RebuiltIn(workspaces, done + {id}) == now[id := workspaces[id].(refs := Live(workspaces[id]))]
  {
    hide Live;
  }

  lemma GarbageNext(workspaces: map<Id, Workspace>, pool: map<string, Blob>, cutoff: Option<int>, seen: set<string>,
                    name: string)
    requires name !in seen
    ensures var some, more := Garbage(workspaces, pool, cutoff, seen), Garbage(workspaces, pool, cutoff, seen + {name});
            && name !in some
            && if Collectable(workspaces, pool, cutoff, name) then more == some + {name} && |more| == |some| + 1
               else more == some
  {
    hide Collectable;
    var some, more := Garbage(workspaces, pool, cutoff, seen), Garbage(workspaces, pool, cutoff, seen + {name});
    if Collectable(workspaces, pool, cutoff, name) {
      assert more == some + {name};
    } else {
      assert more == some;
    }
  }

  lemma HashesNext(seen: set<string>, name: string)
    requires name !in seen
    ensures |Hashes(seen + {name})| == |Hashes(seen)| + if IsChunkHash(name) then 1 else 0
  {
    hide IsChunkHash;
    if IsChunkHash(name) {
      assert Hashes(seen + {name}) == Hashes(seen) + {name};
    } else {
      assert Hashes(seen + {name}) == Hashes(seen);
    }
  }

  lemma GarbageIn(workspaces: map<Id, Workspace>, pool: map<string, Blob>, cutoff: Option<int>, seen: set<string>)
    requires seen <= pool.Keys
    ensures PartlySwept(workspaces, pool, cutoff, pool - Garbage(workspaces, pool, cutoff, seen))
    ensures pool - Garbage(workspaces, pool, cutoff, pool.Keys) == Swept(workspaces, pool, cutoff)
  {
    hide Collectable;
    assert Garbage(workspaces, pool, cutoff, seen) <= Garbage(workspaces, pool, cutoff, pool.Keys);
  }

  lemma DroppedEnds(workspaces: map<Id, Workspace>)
    ensures DroppedFrom(workspaces, {}) == {} && DroppedFrom(workspaces, workspaces.Keys) == DroppedRefs(workspaces)
    ensures RebuiltIn(workspaces, {}) == workspaces && RebuiltIn(workspaces, workspaces.Keys) == Rebuilt(workspaces)
  {
    hide Live;
  }

  lemma LiveOf(workspaces: map<Id, Workspace>, id: Id)
    requires id in workspaces
    ensures id in LiveMap(workspaces) ==> LiveMap(workspaces)[id] == Live(workspaces[id])
    ensures id !in LiveMap(workspaces) ==> workspaces[id].refs == Live(workspaces[id])
    ensures id !in LiveMap(workspaces) ==> workspaces[id].refs - Live(workspaces[id]) == {}
  {
    hide Parseable, PinnedBy, Rows;
  }

  method ListCheckpoints(snaps: seq<SnapRow>) returns (listed: seq<Checkpoint>)
    requires UniqueIds(snaps)
    ensures (set c | c in listed) == Checkpoints(snaps) && DistinctIds(set c | c in listed)
    ensures forall i, j :: 0 <= i < j < |listed| ==> listed[i] != listed[j]
  {
    listed := [];
    for i := 0 to |snaps|
      invariant forall c :: c in listed <==>
                  (exists k :: 0 <= k < i && snaps[k].checkpoint && c == Checkpoint(snaps[k].id, snaps[k].createdAt))
      invariant forall a, b :: 0 <= a < b < |listed| ==> listed[a] != listed[b]
    {
      if snaps[i].checkpoint {
        assert Checkpoint(snaps[i].id, snaps[i].createdAt) !in listed;
        listed := listed + [Checkpoint(snaps[i].id, snaps[i].createdAt)];
      }
    }
  }

  lemma {:induction false} DropNone(snaps: seq<SnapRow>)
    ensures DropIds(snaps, {}) == snaps
  {
    if snaps != [] {
      DropNone(snaps[1..]);
    }
  }

  lemma {:induction false} DropOneMore(snaps: seq<SnapRow>, ids: set<int>, x: int)
    ensures DropIds(DropIds(snaps, ids), {x}) == DropIds(snaps, ids + {x})
  {
    if snaps != [] {
      DropOneMore(snaps[1..], ids, x);
      var rest := DropIds(snaps[1..], ids);
      if snaps[0].id !in ids {
        assert ([snaps[0]] + rest)[1..] == rest;
      } else {
        assert [] + rest == rest;
      }
    }
  }

  ghost function DroppedFrom(workspaces: map<Id, Workspace>, ids: set<Id>): set<(Id, Hash)> {
    set id, h | id in ids && id in workspaces && h in workspaces[id].refs - Live(workspaces[id]) :: (id, h)
  }

  lemma DropOneWorkspace(workspaces: map<Id, Workspace>, ids: set<Id>, id: Id)
    requires id in workspaces && id !in ids
    ensures |DroppedFrom(workspaces, ids + {id})|
            == |DroppedFrom(workspaces, ids)| + |workspaces[id].refs - Live(workspaces[id])|
  {
    hide Live;
    var gone := workspaces[id].refs - Live(workspaces[id]);
    var pairs := set h | h in gone :: (id, h);
    PairCount(id, gone);
    var few, more := DroppedFrom(workspaces, ids), DroppedFrom(workspaces, ids + {id});
    forall p
      ensures p in more <==> p in few || p in pairs
    {
      if p in pairs {
        assert p.0 == id && p.1 in gone;
      }
    }
    assert more == few + pairs && few !! pairs;
  }

  lemma {:induction false} PairCount(id: Id, hashes: set<Hash>)
    ensures |set h | h in hashes :: (id, h)| == |hashes|
    decreases hashes
  {
    if hashes != {} {
      var h :| h in hashes;
      PairCount(id, hashes - {h});
      assert (set x | x in hashes :: (id, x)) == (set x | x in hashes - {h} :: (id, x)) + {(id, h)};
    }
  }
}
