/** The batching uploader: what is buffered, what is confirmed, and what a failing sink
    leaves behind (crates/core/src/sync.rs). */
module Uploading {
  import opened Manifests
  import opened Bytes

  const UPLOAD_FLUSH_BYTES := 32 * 1024 * 1024

  datatype Chunk = Chunk(hash: Hash, data: seq<Byte>)

  /** What the sink answers to one flush: a presence flag per hash, then a verdict per
      uploaded chunk; `None` is a call that failed as a whole. */
  datatype Answer = Answer(present: Option<seq<bool>>, stored: Option<seq<Result<bool, string>>>)

  function HashesOf(chunks: seq<Chunk>): set<Hash> {
    set c | c in chunks :: c.hash
  }

  function Total(chunks: seq<Chunk>): nat {
    if chunks == [] then 0 else |chunks[0].data| + Total(chunks[1..])
  }

  predicate Distinct(chunks: seq<Chunk>) {
    forall i, j :: 0 <= i < j < |chunks| ==> chunks[i].hash != chunks[j].hash
  }

  /** The chunks whose flag is false, in order. The walk stops with the shorter list. */
  function Absent(chunks: seq<Chunk>, present: seq<bool>): (r: seq<Chunk>)
    ensures |r| <= |chunks|
  {
    if chunks == [] || present == [] then []
    else (if present[0] then [] else [chunks[0]]) + Absent(chunks[1..], present[1..])
  }

  /** The chunks whose own upload failed, in order. */
  function Failed(chunks: seq<Chunk>, stored: seq<Result<bool, string>>): seq<Chunk>
    requires |chunks| == |stored|
  {
    if chunks == [] then []
    else (if stored[0].Ok? then [] else [chunks[0]]) + Failed(chunks[1..], stored[1..])
  }

  predicate Aligned(chunks: seq<Chunk>, answer: Answer) {
    answer.present.Some? && answer.stored.Some?
    && |answer.stored.value| == |Absent(chunks, answer.present.value)|
  }

  /** What a flush leaves on the buffer. */
  function Kept(chunks: seq<Chunk>, answer: Answer): seq<Chunk> {
    if answer.present.None? then chunks
    else
      var absent := Absent(chunks, answer.present.value);
      if Aligned(chunks, answer) then Failed(absent, answer.stored.value) else absent
  }

  function Found(chunks: seq<Chunk>, present: seq<bool>): set<Hash> {
    set i | 0 <= i < |chunks| && i < |present| && present[i] :: chunks[i].hash
  }

  function Flags(stored: seq<Result<bool, string>>): (r: seq<bool>)
    ensures |r| == |stored|
    ensures forall i :: 0 <= i < |stored| ==> r[i] == stored[i].Ok?
  {
    seq(|stored|, i requires 0 <= i < |stored| => stored[i].Ok?)
  }

  /** How many chunks the sink wrote rather than found. */
  function Written(stored: seq<Result<bool, string>>): nat {
    if stored == [] then 0 else (if stored[0] == Ok(true) then 1 else 0) + Written(stored[1..])
  }

  /** How many bytes those chunks have. */
  function WrittenBytes(chunks: seq<Chunk>, stored: seq<Result<bool, string>>): nat
    requires |chunks| == |stored|
  {
    if stored == [] then 0
    else (if stored[0] == Ok(true) then |chunks[0].data| else 0) + WrittenBytes(chunks[1..], stored[1..])
  }

  /** The hashes the sink vouched for: present already, or accepted just now. */
  function Confirmed(chunks: seq<Chunk>, answer: Answer): set<Hash> {
    if answer.present.None? then {}
    else
      var absent := Absent(chunks, answer.present.value);
      Found(chunks, answer.present.value)
      + if Aligned(chunks, answer) then Found(absent, Flags(answer.stored.value)) else {}
  }

  /** The counters grow by what the sink wrote, not by what it already had. */
  predicate Counted(chunks: seq<Chunk>, answer: Answer, count: int, bytes: int) {
    if Aligned(chunks, answer)
    then count == Written(answer.stored.value)
         && bytes == WrittenBytes(Absent(chunks, answer.present.value), answer.stored.value)
    else count == 0 && bytes == 0
  }

  predicate AllAccepted(chunks: seq<Chunk>, answer: Answer) {
    Aligned(chunks, answer) && forall i :: 0 <= i < |answer.stored.value| ==> answer.stored.value[i].Ok?
  }

  /** One presence flag for every hash that was asked about. */
  predicate Complete(chunks: seq<Chunk>, answer: Answer) {
    answer.present.Some? ==> |answer.present.value| >= |chunks|
  }

  /** What falls out of a flush: neither kept nor confirmed. */
  function Dropped(chunks: seq<Chunk>, answer: Answer): set<Hash> {
    HashesOf(chunks) - HashesOf(Kept(chunks, answer)) - Confirmed(chunks, answer)
  }

  class BatchUploader {
    var seen: set<Hash>
    var pending: seq<Chunk>
    var pendingHashes: set<Hash>
    var pendingBytes: nat
    var uploaded: nat
    var bytes: nat
    /** Every hash that was ever handed in. */
    ghost var buffered: set<Hash>

    ghost predicate Valid()
      reads this
    {
      && HashesOf(pending) <= pendingHashes && pendingBytes == Total(pending) && Distinct(pending)
      && seen !! pendingHashes && buffered == seen + pendingHashes
    }

    /** The hashes that read as buffered although their chunk is gone. */
    ghost function Lost(): set<Hash>
      reads this
    {
      pendingHashes - HashesOf(pending)
    }

    constructor ()
      ensures Valid() && Lost() == {} && buffered == {} && uploaded == 0 && bytes == 0
    {
      seen, pending, pendingHashes, pendingBytes := {}, [], {}, 0;
      uploaded, bytes, buffered := 0, 0, {};
    }

    /** The presence half: chunks the sink has move from the buffer to `seen`. */
    method Sift(present: seq<bool>) returns (toUpload: seq<Chunk>)
      modifies this`seen, this`pendingHashes
      ensures toUpload == Absent(pending, present)
      ensures seen == old(seen) + Found(pending, present)
      ensures pendingHashes == old(pendingHashes) - Found(pending, present)
    {
      hide Found, Absent;
      toUpload := [];
      var i := 0;
      WalkStarts(pending, present);
      while i < |pending| && i < |present|
        invariant i <= |pending| && i <= |present|
        invariant toUpload + Absent(pending[i..], present[i..]) == Absent(pending, present)
        invariant seen == old(seen) + Found(pending, present[..i])
        invariant pendingHashes == old(pendingHashes) - Found(pending, present[..i])
      {
        AbsentNext(pending, present, i, toUpload);
        FoundNext(pending, present, i);
        if present[i] {
          seen := seen + {pending[i].hash};
          pendingHashes := pendingHashes - {pending[i].hash};
        } else {
          toUpload := toUpload + [pending[i]];
        }
        i := i + 1;
      }
      FoundAll(pending, present, i);
    }

    /** The upload half: one verdict per chunk, each chunk kept or confirmed on its own. */
    method Settle(toUpload: seq<Chunk>, stored: seq<Result<bool, string>>)
      returns (kept: seq<Chunk>, error: Option<string>)
      requires |toUpload| == |stored|
      modifies this`seen, this`pendingHashes, this`uploaded, this`bytes
      ensures kept == Failed(toUpload, stored)
      ensures error.None? <==> forall i :: 0 <= i < |stored| ==> stored[i].Ok?
      ensures seen == old(seen) + Found(toUpload, Flags(stored))
      ensures pendingHashes == old(pendingHashes) - Found(toUpload, Flags(stored))
      ensures uploaded == old(uploaded) + Written(stored) && bytes == old(bytes) + WrittenBytes(toUpload, stored)
    {
      hide Found, Absent, Failed, Flags;
      kept, error := [], None;
      WalkStarts(toUpload, Flags(stored));
      FailedIsAbsent(toUpload, stored, Flags(stored));
      assert stored[0..] == stored && toUpload[0..] == toUpload;
      for i := 0 to |stored|
        invariant kept + Absent(toUpload[i..], Flags(stored)[i..]) == Absent(toUpload, Flags(stored))
        invariant error.None? <==> forall k :: 0 <= k < i ==> stored[k].Ok?
        invariant seen == old(seen) + Found(toUpload, Flags(stored)[..i])
        invariant pendingHashes == old(pendingHashes) - Found(toUpload, Flags(stored)[..i])
        invariant uploaded + Written(stored[i..]) == old(uploaded) + Written(stored)
        invariant bytes + WrittenBytes(toUpload[i..], stored[i..]) == old(bytes) + WrittenBytes(toUpload, stored)
      {
        assert stored[i..][1..] == stored[i + 1..] && toUpload[i..][1..] == toUpload[i + 1..];
        AbsentNext(toUpload, Flags(stored), i, kept);
        FoundNext(toUpload, Flags(stored), i);
        match stored[i] {
          case Ok(written) =>
            if written {
              uploaded := uploaded + 1;
              bytes := bytes + |toUpload[i].data|;
            }
            seen := seen + {toUpload[i].hash};
            pendingHashes := pendingHashes - {toUpload[i].hash};
          case Err(reason) =>
            if error.None? {
              error := Some(reason);
            }
            kept := kept + [toUpload[i]];
        }
      }
      FoundAll(toUpload, Flags(stored), |stored|);
    }

    /** One presence call and one upload call for the whole buffer. The sink may answer in
        any way: exactly what it did not confirm stays, in its order, but for the chunks that
        it gave no presence flag; those are lost. */
    method Flush(answer: Answer) returns (r: Result<(), string>)
      requires Valid()
      modifies this
      ensures Valid() && buffered == old(buffered)
      ensures r.Ok? <==> old(pending) == [] || AllAccepted(old(pending), answer)
      ensures pending == if old(pending) == [] then [] else Kept(old(pending), answer)
      ensures seen == old(seen) + if old(pending) == [] then {} else Confirmed(old(pending), answer)
      ensures old(pending) != [] ==> Counted(old(pending), answer, uploaded - old(uploaded), bytes - old(bytes))
      ensures old(pending) == [] ==> uploaded == old(uploaded) && bytes == old(bytes)
      ensures Lost() == old(Lost()) + if old(pending) == [] then {} else Dropped(old(pending), answer)
      ensures r.Ok? ==> pending == [] && pendingBytes == 0
      ensures r.Ok? && Lost() == {} ==> seen == buffered
    {
      NothingLeft();
      if pending == [] {
        return Ok(());
      }
      Conserved(pending, answer);
      Bookkeeping(seen, pendingHashes, HashesOf(pending), HashesOf(Kept(pending, answer)), Confirmed(pending, answer));
      hide Found, HashesOf, Distinct, Absent, Failed, Complete;
      if answer.present.None? {
        return Err("presence check failed");
      }
      r := FlushAsked(answer);
    }

    /** The rest of a flush, once the presence flags are in. */
    method FlushAsked(answer: Answer) returns (r: Result<(), string>)
      requires answer.present.Some?
      modifies this`seen, this`pending, this`pendingHashes, this`pendingBytes, this`uploaded, this`bytes
      ensures r.Ok? <==> AllAccepted(old(pending), answer)
      ensures r.Ok? ==> pending == []
      ensures pending == Kept(old(pending), answer) && pendingBytes == Total(pending)
      ensures seen == old(seen) + Confirmed(old(pending), answer)
      ensures pendingHashes == old(pendingHashes) - Confirmed(old(pending), answer)
      ensures Counted(old(pending), answer, uploaded - old(uploaded), bytes - old(bytes))
    {
      hide Found, Absent, Failed, Total;
      var toUpload := Sift(answer.present.value);
      if answer.stored.None? || |answer.stored.value| != |toUpload| {
        pendingBytes := Sum(toUpload);
        pending := toUpload;
        return Err("upload failed");
      }
      var kept, error := Settle(toUpload, answer.stored.value);
      pendingBytes := Sum(kept);
      pending := kept;
      if error.None? {
        FailedNone(toUpload, answer.stored.value);
      }
      r := if error.Some? then Err(error.value) else Ok(());
    }

    /** A new chunk fills the buffer. */
    predicate Fills(chunk: Chunk)
      reads this
    {
      chunk.hash !in seen && chunk.hash !in pendingHashes && pendingBytes + |chunk.data| >= 33_554_432
    }

    /** Hand in one chunk; a hash that is buffered or confirmed is not taken twice, and a full
        buffer is flushed. `answer` is what the sink says then, whatever that is. */
    method BufferChunk(chunk: Chunk, answer: Answer) returns (r: Result<(), string>)
      requires Valid()
      modifies this
      ensures Valid() && buffered == old(buffered) + {chunk.hash}
      ensures !old(Fills(chunk)) ==>
        && r.Ok? && seen == old(seen) && Lost() == old(Lost())
        && pending == if chunk.hash in old(buffered) then old(pending) else old(pending) + [chunk]
      ensures old(Fills(chunk)) ==>
        var all := old(pending) + [chunk];
        && (r.Ok? <==> AllAccepted(all, answer))
        && pending == Kept(all, answer) && seen == old(seen) + Confirmed(all, answer)
        && Lost() == old(Lost()) + Dropped(all, answer)
    {
      if chunk.hash in seen || chunk.hash in pendingHashes {
        assert buffered + {chunk.hash} == buffered;
        return Ok(());
      }
      Appended(pending, chunk);
      pendingBytes := pendingBytes + |chunk.data|;
      pendingHashes := pendingHashes + {chunk.hash};
      pending := pending + [chunk];
      buffered := buffered + {chunk.hash};
      if pendingBytes >= UPLOAD_FLUSH_BYTES {
        r := Flush(answer);
        return;
      }
      r := Ok(());
    }

    /** All chunks of one file, up to the first flush that fails. `sinks` are the answers
        of the sink as a function of the hashes it is asked about. */
    method UploadFile(chunks: seq<Chunk>, sinks: (nat, seq<Hash>) -> Answer) returns (r: Result<seq<Hash>, string>)
      requires Valid()
      modifies this
      ensures Valid() && old(seen) <= seen && old(buffered) <= buffered
      ensures r.Ok? ==> |r.value| == |chunks| && forall i :: 0 <= i < |chunks| ==> r.value[i] == chunks[i].hash
      ensures r.Ok? ==> buffered == old(buffered) + HashesOf(chunks)
      // Nothing is lost to a sink that answers for every hash it is asked about.
      ensures old(Lost()) <= Lost()
      ensures AnswersAll(sinks) ==> Lost() == old(Lost())
    {
      var hashes: seq<Hash> := [];
      for i := 0 to |chunks|
        invariant Valid() && old(seen) <= seen && old(Lost()) <= Lost()
        invariant AnswersAll(sinks) ==> Lost() == old(Lost())
        invariant |hashes| == i && forall k :: 0 <= k < i ==> hashes[k] == chunks[k].hash
        invariant buffered == old(buffered) + HashesOf(chunks[..i])
      {
        Prefix(chunks, i);
        HashesPrefix(chunks, i);
        var answer := sinks(i, HashList(pending + [chunks[i]]));
        if AnswersAll(sinks) && Fills(chunks[i]) {
          NothingDropped(sinks, i, pending + [chunks[i]]);
        }
        var step := BufferChunk(chunks[i], answer);
        if step.Err? {
          return Err(step.error);
        }
        hashes := hashes + [chunks[i].hash];
      }
      assert chunks[..|chunks|] == chunks;
      r := Ok(hashes);
    }
  }

  /** Every presence answer has a flag for each hash that was asked about. */
  ghost predicate AnswersAll(sinks: (nat, seq<Hash>) -> Answer) {
    forall i: nat, asked :: sinks(i, asked).present.Some? ==> |sinks(i, asked).present.value| >= |asked|
  }

  lemma NothingDropped(sinks: (nat, seq<Hash>) -> Answer, i: nat, all: seq<Chunk>)
    requires AnswersAll(sinks) && Distinct(all)
    ensures Dropped(all, sinks(i, HashList(all))) == {}
  {
    assert Complete(all, sinks(i, HashList(all)));
    DroppedIff(all, sinks(i, HashList(all)));
  }

  function HashList(chunks: seq<Chunk>): (r: seq<Hash>)
    ensures |r| == |chunks|
  {
    seq(|chunks|, i requires 0 <= i < |chunks| => chunks[i].hash)
  }

  method Sum(chunks: seq<Chunk>) returns (total: nat)
    ensures total == Total(chunks)
  {
    total := 0;
    for i := 0 to |chunks|
      invariant total + Total(chunks[i..]) == Total(chunks)
    {
      assert chunks[i..][1..] == chunks[i + 1..];
      total := total + |chunks[i].data|;
    }
  }

  // ---------- conservation ----------

  lemma HashesPrefix(chunks: seq<Chunk>, i: nat)
    requires i < |chunks|
    ensures HashesOf(chunks[..i + 1]) == HashesOf(chunks[..i]) + {chunks[i].hash}
  {
    assert chunks[..i + 1] == chunks[..i] + [chunks[i]];
  }

  lemma {:induction false} Appended(chunks: seq<Chunk>, c: Chunk)
    ensures HashesOf(chunks + [c]) == HashesOf(chunks) + {c.hash}
    ensures Total(chunks + [c]) == Total(chunks) + |c.data|
  {
    if chunks != [] {
      Appended(chunks[1..], c);
      assert (chunks + [c])[1..] == chunks[1..] + [c];
    }
    var more := chunks + [c];
    assert more[..|chunks|] == chunks && more[..|chunks| + 1] == more;
    HashesPrefix(more, |chunks|);
  }

  lemma HashesCons(c: Chunk, rest: seq<Chunk>)
    ensures HashesOf([c] + rest) == {c.hash} + HashesOf(rest)
  {
    var all := [c] + rest;
    assert forall x :: x in all <==> x == c || x in rest;
  }

  lemma WalkStarts(chunks: seq<Chunk>, present: seq<bool>)
    ensures [] + Absent(chunks[0..], present[0..]) == Absent(chunks, present) && Found(chunks, present[..0]) == {}
  {
    assert chunks[0..] == chunks && present[0..] == present;
  }

  lemma AbsentNext(chunks: seq<Chunk>, present: seq<bool>, i: nat, done: seq<Chunk>)
    requires i < |chunks| && i < |present|
    ensures done + Absent(chunks[i..], present[i..])
            == (if present[i] then done else done + [chunks[i]]) + Absent(chunks[i + 1..], present[i + 1..])
  {
    assert chunks[i..][1..] == chunks[i + 1..] && present[i..][1..] == present[i + 1..];
  }

  lemma FoundNext(chunks: seq<Chunk>, present: seq<bool>, i: nat)
    requires i < |chunks| && i < |present|
    ensures Found(chunks, present[..i + 1])
            == if present[i] then Found(chunks, present[..i]) + {chunks[i].hash} else Found(chunks, present[..i])
  {
    var upTo := present[..i + 1];
    assert forall k :: 0 <= k < i ==> upTo[k] == present[..i][k];
    forall h
      ensures h in Found(chunks, upTo) <==> h in Found(chunks, present[..i]) || (present[i] && h == chunks[i].hash)
    {
      if h in Found(chunks, present[..i]) {
        var k :| 0 <= k < i && present[..i][k] && chunks[k].hash == h;
        assert upTo[k];
      }
      if present[i] {
        assert upTo[i];
      }
    }
  }

  lemma FoundAll(chunks: seq<Chunk>, present: seq<bool>, n: nat)
    requires n <= |present| && (n == |chunks| || n == |present|)
    ensures Found(chunks, present[..n]) == Found(chunks, present)
    ensures n <= |chunks| ==> Absent(chunks[n..], present[n..]) == []
  {
    if n == |present| {
      assert present[..n] == present;
    } else {
      assert forall k :: 0 <= k < n ==> present[..n][k] == present[k];
    }
  }

  lemma NothingLeft()
    ensures HashesOf([]) == {} && Total([]) == 0
  {
  }

  /** Plain set arithmetic: what was lost before stays lost, and what fell out now joins it. */
  lemma Bookkeeping(seen: set<Hash>, listed: set<Hash>, before: set<Hash>, kept: set<Hash>, confirmed: set<Hash>)
    requires seen !! listed && before <= listed && kept !! confirmed && kept + confirmed <= before
    ensures kept <= listed - confirmed && seen + confirmed !! listed - confirmed
    ensures seen + listed == (seen + confirmed) + (listed - confirmed)
    ensures listed - confirmed - kept == (listed - before) + (before - kept - confirmed)
  {
  }

  lemma FoundCons(chunks: seq<Chunk>, present: seq<bool>)
    requires chunks != [] && present != []
    ensures Found(chunks, present) == (if present[0] then {chunks[0].hash} else {}) + Found(chunks[1..], present[1..])
  {
    var rest := Found(chunks[1..], present[1..]);
    forall h
      ensures h in Found(chunks, present) <==> (present[0] && h == chunks[0].hash) || h in rest
    {
      if h in Found(chunks, present) {
        var i :| 0 <= i < |chunks| && i < |present| && present[i] && chunks[i].hash == h;
        if i > 0 {
          assert present[1..][i - 1] && chunks[1..][i - 1].hash == h;
        }
      }
      if h in rest {
        var i :| 0 <= i < |chunks| - 1 && i < |present| - 1 && present[1..][i] && chunks[1..][i].hash == h;
        assert present[i + 1] && chunks[i + 1].hash == h;
      }
    }
  }

  /** The walk over presence flags splits the chunks it reaches into found and absent. */
  lemma {:induction false} AbsentPartition(chunks: seq<Chunk>, present: seq<bool>)
    requires Distinct(chunks)
    ensures var reached := chunks[..if |present| < |chunks| then |present| else |chunks|];
            var absent := Absent(chunks, present);
            && Distinct(absent) && HashesOf(absent) !! Found(chunks, present)
            && HashesOf(absent) + Found(chunks, present) == HashesOf(reached)
  {
    if chunks != [] && present != [] {
      var rest, flags := chunks[1..], present[1..];
      var absent := Absent(rest, flags);
      var n := if |present| < |chunks| then |present| else |chunks|;
      assert Distinct(rest) && chunks[0].hash !in HashesOf(rest[..n - 1]);
      assert chunks[..n] == [chunks[0]] + rest[..n - 1];
      assert Absent(chunks, present) == if present[0] then absent else [chunks[0]] + absent;
      hide Found, HashesOf, Distinct, Absent;
      AbsentPartition(rest, flags);
      FoundCons(chunks, present);
      HashesCons(chunks[0], rest[..n - 1]);
      HashesCons(chunks[0], absent);
      SplitOneMore(chunks[0].hash, HashesOf(absent), Found(rest, flags), HashesOf(rest[..n - 1]));
      assert Found(chunks, present) == if present[0] then {chunks[0].hash} + Found(rest, flags) else {} + Found(rest, flags);
      if !present[0] {
        DistinctCons(chunks[0], absent);
      }
    } else {
      assert Absent(chunks, present) == [] && Found(chunks, present) == {};
    }
  }

  /** One more element joins either part of a partition. */
  lemma SplitOneMore(h: Hash, a: set<Hash>, b: set<Hash>, all: set<Hash>)
    requires a !! b && a + b == all && h !in all
    ensures {h} + a !! b && ({h} + a) + b == {h} + all
    ensures a !! {h} + b && a + ({h} + b) == {h} + all
    ensures {} + b == b
  {
  }

  lemma DistinctCons(c: Chunk, rest: seq<Chunk>)
    requires Distinct(rest) && c.hash !in HashesOf(rest)
    ensures Distinct([c] + rest)
  {
    var all := [c] + rest;
    forall i, j | 0 <= i < j < |all|
      ensures all[i].hash != all[j].hash
    {
      assert all[j] == rest[j - 1];
      assert rest[j - 1].hash in HashesOf(rest);
    }
  }

  /** The verdicts split the uploaded chunks into accepted and failed. */
  lemma {:induction false} FailedPartition(chunks: seq<Chunk>, stored: seq<Result<bool, string>>)
    requires Distinct(chunks) && |chunks| == |stored|
    ensures var failed := Failed(chunks, stored);
            && Distinct(failed) && HashesOf(failed) !! Found(chunks, Flags(stored))
            && HashesOf(failed) + Found(chunks, Flags(stored)) == HashesOf(chunks)
  {
    AbsentPartition(chunks, Flags(stored));
    FailedIsAbsent(chunks, stored, Flags(stored));
    assert chunks[..|chunks|] == chunks;
  }

  lemma {:induction false} FailedIsAbsent(chunks: seq<Chunk>, stored: seq<Result<bool, string>>, flags: seq<bool>)
    requires |chunks| == |stored| == |flags| && forall i :: 0 <= i < |stored| ==> flags[i] == stored[i].Ok?
    ensures Failed(chunks, stored) == Absent(chunks, flags)
  {
    if chunks != [] {
      FailedIsAbsent(chunks[1..], stored[1..], flags[1..]);
    }
  }

  lemma FailedNone(chunks: seq<Chunk>, stored: seq<Result<bool, string>>)
    requires |chunks| == |stored| && forall i :: 0 <= i < |stored| ==> stored[i].Ok?
    ensures Failed(chunks, stored) == []
  {
    if chunks != [] {
      FailedNone(chunks[1..], stored[1..]);
    }
  }

  /** Conservation: kept and confirmed split the buffer, and nothing falls out of it
      exactly if every hash got its presence flag. */
  lemma Conserved(before: seq<Chunk>, answer: Answer)
    requires Distinct(before)
    ensures var kept, confirmed := Kept(before, answer), Confirmed(before, answer);
            && Distinct(kept) && HashesOf(kept) !! confirmed
            && HashesOf(kept) + confirmed <= HashesOf(before)
            && (HashesOf(kept) + confirmed == HashesOf(before) <==> Complete(before, answer))
  {
    if answer.present.Some? {
      var present := answer.present.value;
      var absent := Absent(before, present);
      AbsentPartition(before, present);
      if Aligned(before, answer) {
        FailedPartition(absent, answer.stored.value);
      }
      Reached(before, if |present| < |before| then |present| else |before|);
      hide Found, HashesOf, Distinct, Failed, Absent;
    }
  }

  /** A flush loses chunks exactly if the sink did not answer for every hash. */
  lemma DroppedIff(before: seq<Chunk>, answer: Answer)
    requires Distinct(before)
    ensures Dropped(before, answer) == {} <==> Complete(before, answer)
  {
    Conserved(before, answer);
    hide HashesOf, Kept, Confirmed, Complete, Distinct;
    var all, kept, confirmed := HashesOf(before), HashesOf(Kept(before, answer)), Confirmed(before, answer);
    assert Dropped(before, answer) == all - (kept + confirmed);
  }

  lemma Reached(chunks: seq<Chunk>, n: nat)
    requires Distinct(chunks) && n <= |chunks|
    ensures HashesOf(chunks[..n]) <= HashesOf(chunks)
    ensures HashesOf(chunks[..n]) == HashesOf(chunks) <==> n == |chunks|
  {
    assert chunks[..|chunks|] == chunks;
    if n < |chunks| {
      assert chunks[n].hash in HashesOf(chunks);
      assert chunks[n].hash !in HashesOf(chunks[..n]);
    }
  }

  /** A sink that answers short loses a chunk for good: it is neither buffered nor
      confirmed, yet its hash still reads as buffered, so it is never taken again. */
  lemma ShortAnswerLosesAChunk(a: Chunk, b: Chunk)
    requires a.hash != b.hash
    ensures var answer := Answer(Some([true]), Some([]));
            && Kept([a, b], answer) == [] && Confirmed([a, b], answer) == {a.hash}
            && AllAccepted([a, b], answer) && !Complete([a, b], answer)
  {
    var answer := Answer(Some([true]), Some([]));
    assert [a, b][1..] == [b] && [true][1..] == [];
    assert Absent([b], []) == [];
    assert Absent([a, b], [true]) == [] + [];
    assert Aligned([a, b], answer);
  }
}
