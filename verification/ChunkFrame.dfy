/** The binary frame of batched chunk transfers (crates/core/src/chunk_frame.rs). */
module ChunkFrame {
  import opened Manifests
  import opened Bytes

  const HASH_LEN := 64
  const ENTRY_HEADER := HASH_LEN + 8

  datatype Entry = Entry(hash: Hash, blob: seq<Byte>)

  datatype FrameError = NoCount | Truncated(entry: nat) | BadHash(entry: nat) | BlobTooLong(entry: nat) | Trailing(bytes: nat)

  function HashBytes(h: Hash): (s: seq<Byte>)
    requires IsChunkHash(h)
    ensures |s| == |h|
  {
    seq(|h|, i requires 0 <= i < |h| => h[i] as int)
  }

  function HashText(s: seq<Byte>): (h: Hash)
    ensures |h| == |s|
  {
    seq(|s|, i requires 0 <= i < |s| => s[i] as char)
  }

  lemma HashTextRoundTrip(h: Hash)
    requires IsChunkHash(h)
    ensures HashText(HashBytes(h)) == h
  {
  }

  lemma HashBytesRoundTrip(s: seq<Byte>)
    requires IsChunkHash(HashText(s))
    ensures HashBytes(HashText(s)) == s
  {
  }

  ghost predicate Named(entries: seq<Entry>) {
    forall e :: e in entries ==> IsChunkHash(e.hash)
  }

  // ---------- encoding ----------

  function EncodeEntry(e: Entry): (s: seq<Byte>)
    requires IsChunkHash(e.hash)
    ensures |s| == ENTRY_HEADER + |e.blob|
  {
    HashBytes(e.hash) + ToLittleEndian(|e.blob|, 8) + e.blob
  }

  ghost function Body(entries: seq<Entry>): seq<Byte>
    requires Named(entries)
  {
    if entries == [] then [] else EncodeEntry(entries[0]) + Body(entries[1..])
  }

  ghost function Encoded(entries: seq<Entry>): seq<Byte>
    requires Named(entries)
  {
    ToLittleEndian(|entries|, 4) + Body(entries)
  }

  method Encode(entries: seq<Entry>) returns (out: seq<Byte>)
    requires Named(entries)
    ensures out == Encoded(entries)
  {
    out := ToLittleEndian(|entries|, 4);
    for i := 0 to |entries|
      invariant out + Body(entries[i..]) == Encoded(entries)
    {
      assert entries[i..][1..] == entries[i + 1..];
      assert Body(entries[i..]) == EncodeEntry(entries[i]) + Body(entries[i + 1..]);
      out := out + EncodeEntry(entries[i]);
    }
  }

  /** Where entry `k` starts. */
  function Offset(entries: seq<Entry>, k: nat): nat
    requires k <= |entries|
  {
    if k == 0 then 4 else Offset(entries, k - 1) + 72 + |entries[k - 1].blob|
  }

  /** The bytes of one entry: the hash, letter by letter, the length of the blob, lowest byte
      first, and the blob. */
  ghost predicate LaidOutAt(bytes: seq<Byte>, o: nat, e: Entry) {
    && o + 72 + |e.blob| <= |bytes| && |e.hash| == 64
    && (forall i :: 0 <= i < 64 ==> bytes[o + i] == e.hash[i] as int)
    && (forall i :: 0 <= i < 8 ==> bytes[o + 64 + i] == |e.blob| / Pow256(i) % 256)
    && bytes[o + 72..o + 72 + |e.blob|] == e.blob
  }

  /** The count comes first, lowest byte first, then the entries one after the other. */
  lemma FrameIsLaidOut(entries: seq<Entry>, k: nat)
    requires Named(entries) && k < |entries|
    ensures |Encoded(entries)| == Offset(entries, |entries|)
    ensures forall i :: 0 <= i < 4 ==> Encoded(entries)[i] == |entries| / Pow256(i) % 256
    ensures LaidOutAt(Encoded(entries), Offset(entries, k), entries[k])
  {
    BodyAt(entries, |entries|);
    BodyAt(entries, k);
    forall i | 0 <= i < 4
      ensures Encoded(entries)[i] == |entries| / Pow256(i) % 256
    {
      LowestByteFirst(|entries|, 4, i);
    }
    var o := Offset(entries, k);
    assert entries[k..][1..] == entries[k + 1..];
    var e, rest := entries[k], Body(entries[k..]);
    assert rest == EncodeEntry(e) + Body(entries[k + 1..]);
    assert Encoded(entries)[o..] == rest;
    hide Encoded, Body, Offset;
    EntryIsLaidOut(e, Body(entries[k + 1..]));
    LaidOutFurther(Encoded(entries), o, e);
  }

  lemma LaidOutFurther(bytes: seq<Byte>, o: nat, e: Entry)
    requires o <= |bytes| && LaidOutAt(bytes[o..], 0, e)
    ensures LaidOutAt(bytes, o, e)
  {
    var rest := bytes[o..];
    assert forall i :: 0 <= i < |rest| ==> bytes[o + i] == rest[i];
    assert bytes[o + 72..o + 72 + |e.blob|] == rest[72..72 + |e.blob|];
  }

  lemma EntryIsLaidOut(e: Entry, tail: seq<Byte>)
    requires IsChunkHash(e.hash)
    ensures LaidOutAt(EncodeEntry(e) + tail, 0, e)
  {
    var bytes := EncodeEntry(e) + tail;
    var hash, len := HashBytes(e.hash), ToLittleEndian(|e.blob|, 8);
    assert bytes[..64] == hash && bytes[64..72] == len && bytes[72..72 + |e.blob|] == e.blob;
    forall i | 0 <= i < 64
      ensures bytes[i] == e.hash[i] as int
    {
      assert bytes[i] == bytes[..64][i];
    }
    forall i | 0 <= i < 8
      ensures bytes[64 + i] == |e.blob| / Pow256(i) % 256
    {
      LowestByteFirst(|e.blob|, 8, i);
      assert bytes[64 + i] == bytes[64..72][i];
    }
  }

  /** The entries from `k` on stand at the offset of entry `k`. */
  lemma {:induction false} BodyAt(entries: seq<Entry>, k: nat)
    requires Named(entries) && k <= |entries|
    ensures Offset(entries, k) <= |Encoded(entries)| && Encoded(entries)[Offset(entries, k)..] == Body(entries[k..])
    decreases k
  {
    if k == 0 {
      assert entries[0..] == entries;
    } else {
      BodyAt(entries, k - 1);
      var rest, e := Body(entries[k - 1..]), entries[k - 1];
      assert entries[k - 1..][1..] == entries[k..];
      assert rest == EncodeEntry(e) + Body(entries[k..]);
      assert |EncodeEntry(e)| == 72 + |e.blob|;
      assert rest[72 + |e.blob|..] == Body(entries[k..]);
      assert Encoded(entries)[Offset(entries, k)..] == rest[72 + |e.blob|..];
    }
  }

  // ---------- decoding ----------

  /** The entry at the front of `rest`, and what follows it. */
  function DecodeEntry(rest: seq<Byte>, i: nat): (r: Result<(Entry, seq<Byte>), FrameError>)
    ensures r.Ok? ==> |rest| == ENTRY_HEADER + |r.value.0.blob| + |r.value.1| && IsChunkHash(r.value.0.hash)
  {
    if |rest| < ENTRY_HEADER then Err(Truncated(i))
    else if !IsChunkHash(HashText(rest[..HASH_LEN])) then Err(BadHash(i))
    else
      var len := FromLittleEndian(rest[HASH_LEN..ENTRY_HEADER]);
      var tail := rest[ENTRY_HEADER..];
      if len > |tail| then Err(BlobTooLong(i))
      else Ok((Entry(HashText(rest[..HASH_LEN]), tail[..len]), tail[len..]))
  }

  /** Entries `i` up to `count`, which must use up `rest`. */
  function DecodeEntries(rest: seq<Byte>, i: nat, count: nat): Result<seq<Entry>, FrameError>
    requires i <= count
    decreases count - i
  {
    if i == count then if rest == [] then Ok([]) else Err(Trailing(|rest|))
    else
      match DecodeEntry(rest, i)
      case Err(e) => Err(e)
      case Ok((entry, tail)) =>
        match DecodeEntries(tail, i + 1, count)
        case Err(e) => Err(e)
        case Ok(entries) => Ok([entry] + entries)
  }

  function Decoded(bytes: seq<Byte>): Result<seq<Entry>, FrameError> {
    if |bytes| < 4 then Err(NoCount) else DecodeEntries(bytes[4..], 0, FromLittleEndian(bytes[..4]))
  }

  function Prepend(entries: seq<Entry>, r: Result<seq<Entry>, FrameError>): Result<seq<Entry>, FrameError> {
    if r.Err? then r else Ok(entries + r.value)
  }

  /** What `n` entries take up at least, on the wire. */
  function Cost(n: nat): nat {
    72 * n
  }

  function Capacity(count: nat, left: nat): nat {
    if count < left / 72 then count else left / 72
  }

  lemma CapacitySuffices(count: nat, left: nat)
    ensures Cost(Capacity(count, left)) <= left
    ensures Cost(count) <= left ==> count <= Capacity(count, left)
    ensures Cost(0) == 0
  {
  }

  lemma CostNext(i: nat)
    ensures Cost(i + 1) == Cost(i) + ENTRY_HEADER
  {
  }

  /** Total on any input. `capacity` is the allocation made from the untrusted count: it
      never exceeds what the bytes themselves could hold, and always suffices. */
  method Decode(bytes: seq<Byte>) returns (r: Result<seq<Entry>, FrameError>, capacity: nat)
    ensures r == Decoded(bytes)
    ensures Cost(capacity) <= |bytes|
    ensures r.Ok? ==> |r.value| <= capacity
  {
    if |bytes| < 4 {
      return Err(NoCount), 0;
    }
    var count := FromLittleEndian(bytes[..4]);
    var rest := bytes[4..];
    capacity := Capacity(count, |rest|);
    CapacitySuffices(count, |rest|);
    ghost var all := |rest|;
    var entries: seq<Entry> := [];
    PrependNothing(DecodeEntries(rest, 0, count));
    hide DecodeEntry, FromLittleEndian, HashText, IsChunkHash, Capacity, Cost;
    for i := 0 to count
      invariant Decoded(bytes) == Prepend(entries, DecodeEntries(rest, i, count))
      invariant |entries| == i && Cost(i) + |rest| <= all
    {
      hide Decoded, DecodeEntries;
      DecodeOneMore(entries, rest, i, count);
      CostNext(i);
      var next := DecodeEntry(rest, i);
      if next.Err? {
        return Err(next.error), capacity;
      }
      entries := entries + [next.value.0];
      rest := next.value.1;
    }
    if rest != [] {
      return Err(Trailing(|rest|)), capacity;
    }
    assert entries + [] == entries;
    r := Ok(entries);
  }

  lemma PrependNothing(r: Result<seq<Entry>, FrameError>)
    ensures Prepend([], r) == r
  {
    if r.Ok? {
      assert [] + r.value == r.value;
    }
  }

  lemma DecodeOneMore(entries: seq<Entry>, rest: seq<Byte>, i: nat, count: nat)
    requires i < count
    ensures var next := DecodeEntry(rest, i);
            Prepend(entries, DecodeEntries(rest, i, count))
            == if next.Err? then Err(next.error)
               else Prepend(entries + [next.value.0], DecodeEntries(next.value.1, i + 1, count))
  {
    hide DecodeEntry;
    var next := DecodeEntry(rest, i);
    if next.Ok? {
      var more := DecodeEntries(next.value.1, i + 1, count);
      if more.Ok? {
        assert entries + ([next.value.0] + more.value) == (entries + [next.value.0]) + more.value;
      }
    }
  }

  // ---------- round trips ----------

  lemma EntryRoundTrip(e: Entry, tail: seq<Byte>, i: nat)
    requires IsChunkHash(e.hash) && |e.blob| < Pow256(8)
    ensures DecodeEntry(EncodeEntry(e) + tail, i) == Ok((e, tail))
  {
    var hash, len := HashBytes(e.hash), ToLittleEndian(|e.blob|, 8);
    var rest := EncodeEntry(e) + tail;
    assert rest[..HASH_LEN] == hash && rest[HASH_LEN..ENTRY_HEADER] == len;
    assert rest[ENTRY_HEADER..] == e.blob + tail;
    assert (e.blob + tail)[..|e.blob|] == e.blob && (e.blob + tail)[|e.blob|..] == tail;
    HashTextRoundTrip(e.hash);
    LittleEndianRoundTrip(|e.blob|, 8);
    DivisionIsUnique(|e.blob|, Pow256(8), 0, |e.blob|);
  }

  lemma {:induction false} EntriesRoundTrip(entries: seq<Entry>, i: nat, count: nat)
    requires Named(entries) && i + |entries| == count
    requires forall e :: e in entries ==> |e.blob| < Pow256(8)
    ensures DecodeEntries(Body(entries), i, count) == Ok(entries)
    decreases entries
  {
    hide DecodeEntry, EncodeEntry, Pow256;
    if entries != [] {
      EntryRoundTrip(entries[0], Body(entries[1..]), i);
      EntriesRoundTrip(entries[1..], i + 1, count);
      assert [entries[0]] + entries[1..] == entries;
    }
  }

  /** Where decoding stops: behind the entries that can be read, at the first fault, and with the
      number of the entry that has it. */
  lemma {:induction false} FirstFault(entries: seq<Entry>, rest: seq<Byte>, count: nat)
    requires Named(entries) && Fits(entries) && |entries| <= count < Pow256(4)
    ensures var r, n := Decoded(ToLittleEndian(count, 4) + Body(entries) + rest), |entries|;
      && (n == count ==> r == if rest == [] then Ok(entries) else Err(Trailing(|rest|)))
      && (n < count && |rest| < 72 ==> r == Err(Truncated(n)))
      && (n < count && |rest| >= 72 ==>
            if !IsChunkHash(HashText(rest[..64])) then r == Err(BadHash(n))
            else FromLittleEndian(rest[64..72]) > |rest| - 72 ==> r == Err(BlobTooLong(n)))
  {
    var bytes := ToLittleEndian(count, 4) + Body(entries) + rest;
    assert bytes[..4] == ToLittleEndian(count, 4) && bytes[4..] == Body(entries) + rest;
    LittleEndianRoundTrip(count, 4);
    DivisionIsUnique(count, Pow256(4), 0, count);
    SkipEntries(entries, rest, 0, count);
    hide Body, FromLittleEndian, IsChunkHash, HashText, Pow256;
    assert entries + [] == entries;
  }

  lemma {:induction false} SkipEntries(entries: seq<Entry>, rest: seq<Byte>, i: nat, count: nat)
    requires Named(entries) && i + |entries| <= count
    requires forall e :: e in entries ==> |e.blob| < Pow256(8)
    ensures DecodeEntries(Body(entries) + rest, i, count) == Prepend(entries, DecodeEntries(rest, i + |entries|, count))
    decreases entries
  {
    hide DecodeEntry, EncodeEntry, Pow256;
    if entries == [] {
      assert [] + rest == rest;
      PrependNothing(DecodeEntries(rest, i, count));
    } else {
      var tail := Body(entries[1..]) + rest;
      EntryRoundTrip(entries[0], tail, i);
      assert Body(entries) + rest == EncodeEntry(entries[0]) + tail;
      SkipEntries(entries[1..], rest, i + 1, count);
      var more := DecodeEntries(rest, i + |entries|, count);
      if more.Ok? {
        assert [entries[0]] + (entries[1..] + more.value) == entries + more.value;
      }
    }
  }

  /** What the two length fields can carry. */
  ghost predicate Fits(entries: seq<Entry>) {
    |entries| < Pow256(4) && forall e :: e in entries ==> |e.blob| < Pow256(8)
  }

  lemma {:induction false} EntriesFit(rest: seq<Byte>, i: nat, count: nat)
    requires i <= count && DecodeEntries(rest, i, count).Ok?
    ensures |DecodeEntries(rest, i, count).value| == count - i
    ensures forall e :: e in DecodeEntries(rest, i, count).value ==> IsChunkHash(e.hash) && |e.blob| < Pow256(8)
    decreases count - i
  {
    hide Pow256;
    if i < count {
      var next := DecodeEntry(rest, i);
      FromLittleEndianRoundTrip(rest[HASH_LEN..ENTRY_HEADER]);
      assert |next.value.0.blob| < Pow256(8);
      hide DecodeEntry;
      EntriesFit(next.value.1, i + 1, count);
    }
  }

  lemma AcceptedFits(bytes: seq<Byte>)
    requires Decoded(bytes).Ok?
    ensures Named(Decoded(bytes).value) && Fits(Decoded(bytes).value)
  {
    EntriesFit(bytes[4..], 0, FromLittleEndian(bytes[..4]));
    FromLittleEndianRoundTrip(bytes[..4]);
  }

  /** Decoding inverts encoding exactly if the length fields can carry the entries: more
      than 2^32 - 1 entries would wrap the count. */
  lemma RoundTripIff(entries: seq<Entry>)
    requires Named(entries)
    ensures Decoded(Encoded(entries)) == Ok(entries) <==> Fits(entries)
  {
    var bytes := Encoded(entries);
    if Fits(entries) {
      assert bytes[..4] == ToLittleEndian(|entries|, 4) && bytes[4..] == Body(entries);
      LittleEndianRoundTrip(|entries|, 4);
      DivisionIsUnique(|entries|, Pow256(4), 0, |entries|);
      EntriesRoundTrip(entries, 0, |entries|);
    } else if Decoded(bytes).Ok? {
      AcceptedFits(bytes);
    }
  }

  lemma CutTwice(s: seq<Byte>, a: nat, b: nat)
    requires a <= b <= |s|
    ensures s == s[..a] + s[a..b] + s[b..] && s == s[..a] + s[a..]
  {
  }

  lemma EntryReencodes(rest: seq<Byte>, i: nat)
    requires DecodeEntry(rest, i).Ok?
    ensures EncodeEntry(DecodeEntry(rest, i).value.0) + DecodeEntry(rest, i).value.1 == rest
  {
    var hash, field, tail := rest[..HASH_LEN], rest[HASH_LEN..ENTRY_HEADER], rest[ENTRY_HEADER..];
    HashBytesRoundTrip(hash);
    FromLittleEndianRoundTrip(field);
    var len := FromLittleEndian(field);
    CutTwice(rest, HASH_LEN, ENTRY_HEADER);
    CutTwice(tail, len, |tail|);
    hide HashText, HashBytes, IsChunkHash, FromLittleEndian, ToLittleEndian;
    var e := DecodeEntry(rest, i).value.0;
    assert EncodeEntry(e) == hash + field + tail[..len];
    assert hash + field + tail[..len] + tail[len..] == hash + field + (tail[..len] + tail[len..]);
  }

  lemma {:induction false} EntriesReencode(rest: seq<Byte>, i: nat, count: nat)
    requires i <= count && DecodeEntries(rest, i, count).Ok?
    ensures Named(DecodeEntries(rest, i, count).value) && Body(DecodeEntries(rest, i, count).value) == rest
    decreases count - i
  {
    if i < count {
      var next := DecodeEntry(rest, i);
      EntryReencodes(rest, i);
      hide DecodeEntry, EncodeEntry;
      EntriesReencode(next.value.1, i + 1, count);
      var more := DecodeEntries(next.value.1, i + 1, count).value;
      assert ([next.value.0] + more)[1..] == more;
    }
  }

  /** An accepted frame is the one encoding of its entries, byte for byte, so no two
      frames mean the same. */
  lemma AcceptedIsCanonical(bytes: seq<Byte>)
    requires Decoded(bytes).Ok?
    ensures Named(Decoded(bytes).value) && Encoded(Decoded(bytes).value) == bytes
  {
    var count := FromLittleEndian(bytes[..4]);
    EntriesReencode(bytes[4..], 0, count);
    EntriesFit(bytes[4..], 0, count);
    FromLittleEndianRoundTrip(bytes[..4]);
    assert bytes == bytes[..4] + bytes[4..];
  }
}
