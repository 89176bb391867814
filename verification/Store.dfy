/** The chunk store: which chunks a power loss may take, and what a flush settles
    (crates/core/src/store.rs). */
module Storing {
  import opened Manifests

  const DEFERRED_FLUSH_THRESHOLD := 64

  /** The two-letter shard directory of a chunk. */
  type Shard = string

  datatype PutError = WrongBytes | InvalidName | WriteFailed | FlushFailed

  predicate IsHexDigit(c: char) {
    '0' <= c <= '9' || 'a' <= c <= 'f' || 'A' <= c <= 'F'
  }

  predicate HasChunkPath(h: Hash) {
    |h| >= 2 && forall i :: 0 <= i < |h| ==> IsHexDigit(h[i])
  }

  /** A hexadecimal digit, in either case. */
  predicate IsHexLetter(c: char) {
    c in "0123456789" || c in "abcdef" || c in "ABCDEF"
  }

  lemma HexDigits(c: char)
    ensures IsHexDigit(c) <==> IsHexLetter(c)
  {
    var digits, lower, upper := "0123456789", "abcdef", "ABCDEF";
    assert '0' <= c <= '9' ==> digits[c as int - '0' as int] == c;
    assert 'a' <= c <= 'f' ==> lower[c as int - 'a' as int] == c;
    assert 'A' <= c <= 'F' ==> upper[c as int - 'A' as int] == c;
  }

  function ShardOf(h: Hash): Shard
    requires |h| >= 2
  {
    h[..2]
  }

  /** The directories a flush gets to before the first one whose fsync fails. */
  function Synced(batch: seq<Shard>, broken: set<Shard>): set<Shard> {
    if batch == [] || batch[0] in broken then {} else {batch[0]} + Synced(batch[1..], broken)
  }

  function Without(batch: seq<Shard>, done: set<Shard>): seq<Shard> {
    if batch == [] then []
    else (if batch[0] in done then [] else [batch[0]]) + Without(batch[1..], done)
  }

  /** What the queue holds after a flush. */
  function Remainder(batch: seq<Shard>, broken: set<Shard>): seq<Shard> {
    Without(batch, Synced(batch, broken))
  }

  /** The chunk files that a sweep removes; files of other names are left alone. */
  function Unkept(files: set<Hash>, keep: set<Hash>): set<Hash> {
    set h | h in files && IsChunkHash(h) && h !in keep
  }

  lemma UnkeptNext(seen: set<Hash>, keep: set<Hash>, h: Hash)
    requires h !in seen
    ensures var more := Unkept(seen + {h}, keep);
            && (IsChunkHash(h) && h !in keep ==> more == Unkept(seen, keep) + {h} && |more| == |Unkept(seen, keep)| + 1)
            && (!IsChunkHash(h) || h in keep ==> more == Unkept(seen, keep))
  {
    hide IsChunkHash;
    if IsChunkHash(h) && h !in keep {
      assert Unkept(seen + {h}, keep) == Unkept(seen, keep) + {h};
    } else {
      assert Unkept(seen + {h}, keep) == Unkept(seen, keep);
    }
  }

  lemma StillUnkept(files: set<Hash>, seen: set<Hash>, keep: set<Hash>, h: Hash)
    requires h in files && h !in seen && IsChunkHash(h) && h !in keep
    ensures h in Unkept(files - Unkept(seen, keep), keep)
  {
  }

  lemma UnkeptEnds(files: set<Hash>, keep: set<Hash>)
    ensures Unkept({}, keep) == {} && files - {} == files
  {
  }

  class LocalStore {
    const deferred: bool
    var files: set<Hash>
    var pending: seq<Shard>
    /** Chunks renamed into place whose directory has not been fsynced since. */
    ghost var unsynced: set<Hash>
    /** The chunk behind each entry of the queue. */
    ghost var queued: seq<Hash>

    /** In a deferred store every chunk at risk has an entry of its own on the queue. An eager
        store queues nothing: it syncs the bytes of a chunk, but no directory. */
    ghost predicate Valid()
      reads this
    {
      && |queued| == |pending|
      && (forall i :: 0 <= i < |queued| ==> |queued[i]| >= 2 && ShardOf(queued[i]) == pending[i])
      && (deferred ==> unsynced <= SetOf(queued))
      && (!deferred ==> pending == [])
    }

    /** A deferred store has at most as many chunks at risk as entries queued. */
    lemma LossWindow()
      requires Valid() && deferred
      ensures |unsynced| <= |pending|
    {
      SetNoLarger(queued);
      SubsetNoLarger(unsynced, SetOf(queued));
    }

    constructor (deferred: bool, files: set<Hash>)
      ensures Valid() && this.deferred == deferred && this.files == files && pending == [] && unsynced == {}
    {
      this.deferred, this.files := deferred, files;
      pending, unsynced, queued := [], {}, [];
    }

    /** Store one chunk. `digest` is the hash of the bytes; `written` is false when a step
        before the rename fails; `broken` are the directories whose fsync fails now. */
    method Put(hash: Hash, digest: Hash, written: bool, broken: set<Shard>) returns (r: Result<bool, PutError>)
      requires Valid()
      modifies this
      ensures Valid()
      ensures digest != hash <==> r == Err(WrongBytes)
      ensures digest == hash && !HasChunkPath(hash) <==> r == Err(InvalidName)
      ensures r == Err(InvalidName) <==> digest == hash && (|hash| < 2 || exists i :: 0 <= i < |hash| && !IsHexLetter(hash[i]))
      ensures r == Ok(false) <==> digest == hash && HasChunkPath(hash) && hash in old(files)
      ensures r in {Err(WrongBytes), Err(InvalidName), Err(WriteFailed), Ok(false)} ==>
                files == old(files) && pending == old(pending) && unsynced == old(unsynced)
      ensures r in {Ok(true), Err(FlushFailed)} ==> hash !in old(files) && files == old(files) + {hash} && HasChunkPath(hash)
      // The eager store never settles the directory entry of a chunk.
      ensures r == Ok(true) && !deferred ==> unsynced == old(unsynced) + {hash}
      ensures r == Err(FlushFailed) ==> deferred && |old(pending)| + 1 >= 64
      // The deferred store queues it, and flushes when the queue is full.
      ensures r == Ok(true) && deferred && |old(pending)| + 1 < 64 ==>
                unsynced == old(unsynced) + {hash} && pending == old(pending) + [hash[..2]]
      ensures r == Ok(true) && deferred && |old(pending)| + 1 >= 64 ==> unsynced == {} && pending == []
      ensures r == Err(FlushFailed) ==>
                pending == Remainder(old(pending) + [ShardOf(hash)], broken) && pending != [] && pending[0] in broken
    {
      if digest != hash {
        return Err(WrongBytes);
      }
      forall c: char
        ensures IsHexDigit(c) <==> IsHexLetter(c)
      {
        HexDigits(c);
      }
      hide IsHexDigit, IsHexLetter;
      if !HasChunkPath(hash) {
        return Err(InvalidName);
      }
      if hash in files {
        return Ok(false);
      }
      if !written {
        return Err(WriteFailed);
      }
      files := files + {hash};
      unsynced := unsynced + {hash};
      if deferred {
        assert SetOf(queued + [hash]) == SetOf(queued) + {hash};
        queued := queued + [hash];
        pending := pending + [ShardOf(hash)];
        if |pending| >= DEFERRED_FLUSH_THRESHOLD {
          var ok := Flush(broken);
          if !ok {
            return Err(FlushFailed);
          }
        }
      }
      r := Ok(true);
    }

    /** Drain the queue, fsync each directory once, requeue what was not reached. */
    method Flush(broken: set<Shard>) returns (ok: bool)
      requires Valid()
      modifies this`pending, this`unsynced, this`queued
      ensures Valid()
      ensures ok <==> SetOf(old(pending)) !! broken
      ensures pending == if ok then [] else Remainder(old(pending), broken)
      ensures ok && deferred ==> unsynced == {}
      ensures !ok ==> pending != [] && pending[0] in broken
      ensures unsynced == set h | h in old(unsynced) && !(|h| >= 2 && ShardOf(h) in Synced(old(pending), broken))
    {
      var batch := pending;
      pending := [];
      var synced;
      ghost var before := queued;
      batch, ok, synced := FlushBatch(batch, broken);
      unsynced := set h | h in unsynced && !(|h| >= 2 && ShardOf(h) in synced);
      queued := FilterQueue(queued, synced);
      FilterMatches(before, old(pending), synced);
      if ok {
        AllSynced(old(pending), broken);
        WithoutNothing(old(pending), synced);
        if deferred {
          QueueIsEmpty(before, old(pending), synced, old(unsynced));
        }
      }
      if batch != [] {
        pending := batch + pending;
        assert pending == batch;
      }
    }

    /** The sweep of a store after a successful apply: every chunk file that is not kept, in
        the order of the listing, up to the first whose unlink fails (those in `stuck`). */
    method SweepUnreferenced(keep: set<Hash>, listing: seq<Hash>, stuck: set<Hash>)
      returns (ok: bool, deleted: nat, ghost n: nat)
      requires Valid() && Lists(listing, files)
      modifies this`files, this`unsynced
      ensures Valid() && unsynced <= old(unsynced) && n <= |listing|
      ensures files == old(files) - Unkept(SetOf(listing[..n]), keep)
      ensures deleted == |Unkept(SetOf(listing[..n]), keep)|
      ensures Unkept(SetOf(listing[..n]), keep) !! stuck
      ensures ok ==> files == old(files) - Unkept(old(files), keep)
      ensures !ok ==> n < |listing| && listing[n] in stuck && listing[n] in Unkept(files, keep)
    {
      hide Lists, IsChunkHash, SetOf, Unkept, ShardOf;
      deleted, n := 0, 0;
      ghost var before := files;
      WalkEnds(listing, before);
      UnkeptEnds(before, keep);
      for i := 0 to |listing|
        invariant files == before - Unkept(SetOf(listing[..i]), keep)
        invariant deleted == |Unkept(SetOf(listing[..i]), keep)|
        invariant unsynced <= old(unsynced) && n == i
        invariant Unkept(SetOf(listing[..i]), keep) !! stuck
      {
        Walk(listing, before, i);
        var h := listing[i];
        UnkeptNext(SetOf(listing[..i]), keep, h);
        if !IsChunkHash(h) || h in keep {
          n := n + 1;
          continue;
        }
        if h in stuck {
          StillUnkept(before, SetOf(listing[..i]), keep, h);
          return false, deleted, n;
        }
        files := files - {h};
        unsynced := unsynced - {h};
        deleted, n := deleted + 1, n + 1;
      }
      ok := true;
    }
  }

  /** Fsync each queued directory once; on an error the ones already done leave the batch. */
  method FlushBatch(batch: seq<Shard>, broken: set<Shard>) returns (rest: seq<Shard>, ok: bool, synced: set<Shard>)
    ensures synced == Synced(batch, broken)
    ensures ok <==> SetOf(batch) !! broken
    ensures rest == if ok then [] else Remainder(batch, broken)
    ensures !ok ==> rest != [] && rest[0] in broken
  {
    synced := {};
    var i := 0;
    while i < |batch|
      invariant 0 <= i <= |batch|
      invariant synced == SetOf(batch[..i]) && synced !! broken
      invariant Synced(batch, broken) == synced + Synced(batch[i..], broken)
    {
      Prefix(batch, i);
      assert batch[i..][1..] == batch[i + 1..];
      if batch[i] in synced {
        AlreadySynced(batch, i, broken);
      } else {
        if batch[i] in broken {
          assert Synced(batch[i..], broken) == {};
          ok := false;
          rest := Retain(batch, synced);
          FirstLeft(batch, synced, i);
          return;
        }
        synced := synced + {batch[i]};
      }
      i := i + 1;
    }
    assert batch[..|batch|] == batch;
    rest, ok := [], true;
  }

  method Retain(batch: seq<Shard>, synced: set<Shard>) returns (rest: seq<Shard>)
    ensures rest == Without(batch, synced)
  {
    rest := [];
    for i := 0 to |batch|
      invariant rest + Without(batch[i..], synced) == Without(batch, synced)
    {
      assert batch[i..][1..] == batch[i + 1..];
      if batch[i] !in synced {
        rest := rest + [batch[i]];
      }
    }
  }

  lemma AlreadySynced(batch: seq<Shard>, i: nat, broken: set<Shard>)
    requires i < |batch| && batch[i] !in broken
    ensures Synced(batch[i..], broken) == {batch[i]} + Synced(batch[i + 1..], broken)
  {
    assert batch[i..][1..] == batch[i + 1..];
  }

  /** Everything before the failed directory is done, so it is the first to be retried. */
  lemma {:induction false} FirstLeft(batch: seq<Shard>, synced: set<Shard>, i: nat)
    requires i < |batch| && batch[i] !in synced && SetOf(batch[..i]) <= synced
    ensures Without(batch, synced) != [] && Without(batch, synced)[0] == batch[i]
  {
    if i > 0 {
      assert batch[0] in SetOf(batch[..i]);
      assert SetOf(batch[1..][..i - 1]) <= SetOf(batch[..i]) by {
        assert batch[1..][..i - 1] == batch[..i][1..];
      }
      FirstLeft(batch[1..], synced, i - 1);
      assert [] + Without(batch[1..], synced) == Without(batch[1..], synced);
    }
  }

  lemma {:induction false} AllSynced(batch: seq<Shard>, broken: set<Shard>)
    requires SetOf(batch) !! broken
    ensures Synced(batch, broken) == SetOf(batch)
  {
    if batch != [] {
      assert SetOf(batch) == {batch[0]} + SetOf(batch[1..]) by {
        assert forall x :: x in batch <==> x == batch[0] || x in batch[1..];
      }
      AllSynced(batch[1..], broken);
    }
  }

  lemma {:induction false} WithoutNothing(batch: seq<Shard>, done: set<Shard>)
    requires SetOf(batch) <= done
    ensures Without(batch, done) == []
  {
    if batch != [] {
      assert batch[0] in SetOf(batch);
      assert SetOf(batch[1..]) <= SetOf(batch);
      WithoutNothing(batch[1..], done);
    }
  }

  ghost function FilterQueue(queued: seq<Hash>, done: set<Shard>): seq<Hash> {
    if queued == [] then []
    else (if |queued[0]| >= 2 && ShardOf(queued[0]) in done then [] else [queued[0]]) + FilterQueue(queued[1..], done)
  }

  /** The chunks behind the queue are filtered exactly as their directories are. */
  lemma {:induction false} FilterMatches(queued: seq<Hash>, pending: seq<Shard>, done: set<Shard>)
    requires |queued| == |pending|
    requires forall i :: 0 <= i < |queued| ==> |queued[i]| >= 2 && ShardOf(queued[i]) == pending[i]
    ensures var q, p := FilterQueue(queued, done), Without(pending, done);
            && |q| == |p|
            && (forall i :: 0 <= i < |q| ==> |q[i]| >= 2 && ShardOf(q[i]) == p[i])
            && SetOf(q) == set h | h in SetOf(queued) && !(|h| >= 2 && ShardOf(h) in done)
  {
    hide ShardOf;
    FilterHolds(queued, done);
    if queued != [] {
      FilterMatches(queued[1..], pending[1..], done);
    }
  }

  lemma {:induction false} FilterHolds(queued: seq<Hash>, done: set<Shard>)
    ensures SetOf(FilterQueue(queued, done)) == set h | h in SetOf(queued) && !(|h| >= 2 && ShardOf(h) in done)
  {
    hide ShardOf;
    if queued != [] {
      FilterHolds(queued[1..], done);
      var q, rest := FilterQueue(queued, done), FilterQueue(queued[1..], done);
      forall x
        ensures x in q <==> x in queued && !(|x| >= 2 && ShardOf(x) in done)
      {
        assert x in queued <==> x == queued[0] || x in queued[1..];
        assert x in rest <==> x in SetOf(rest);
        assert x in queued[1..] <==> x in SetOf(queued[1..]);
      }
    }
  }

  lemma QueueIsEmpty(queued: seq<Hash>, pending: seq<Shard>, done: set<Shard>, unsynced: set<Hash>)
    requires |queued| == |pending| && SetOf(pending) <= done && unsynced <= SetOf(queued)
    requires forall i :: 0 <= i < |queued| ==> |queued[i]| >= 2 && ShardOf(queued[i]) == pending[i]
    ensures (set h | h in unsynced && !(|h| >= 2 && ShardOf(h) in done)) == {}
  {
    forall h | h in unsynced
      ensures |h| >= 2 && ShardOf(h) in done
    {
      assert h in queued;
      var i :| 0 <= i < |queued| && queued[i] == h;
      assert pending[i] in SetOf(pending);
    }
  }

  lemma {:induction false} SetNoLarger<T>(s: seq<T>)
    ensures |SetOf(s)| <= |s|
  {
    if s != [] {
      SetNoLarger(s[1..]);
      assert SetOf(s) == {s[0]} + SetOf(s[1..]) by {
        assert forall x :: x in s <==> x == s[0] || x in s[1..];
      }
    }
  }

  lemma SubsetNoLarger<T>(a: set<T>, b: set<T>)
    requires a <= b
    ensures |a| <= |b|
  {
    assert b == a + (b - a);
  }
}
