/** Splitting the chunks a pull must download into batches (crates/core/src/sync.rs). */
module FetchPlanning {
  import opened Manifests

  const GET_MANY_MAX_HASHES := 128
  const GET_MANY_TARGET_BYTES := 32 * 1024 * 1024

  // ---------- what is to be fetched ----------

  /** Every chunk of the files, in file order, repeats included. */
  function AllChunks(needed: seq<FileEntry>): seq<Hash> {
    if needed == [] then [] else AllChunks(needed[..|needed| - 1]) + needed[|needed| - 1].chunks
  }

  /** Each element where it first occurs. */
  function FirstOccurrences(s: seq<Hash>): seq<Hash> {
    if s == [] then []
    else
      var before := s[..|s| - 1];
      FirstOccurrences(before) + if s[|s| - 1] in before then [] else [s[|s| - 1]]
  }

  /** The chunks of one file that no earlier file and no earlier place in it brought in. */
  function Fresh(chunks: seq<Hash>, planned: set<Hash>): (r: seq<Hash>)
    ensures forall h :: h in r <==> h in chunks && h !in planned
  {
    if chunks == [] then []
    else
      var before, last := chunks[..|chunks| - 1], chunks[|chunks| - 1];
      assert forall h :: h in chunks <==> h in before || h == last;
      Fresh(before, planned) + if last in planned || last in before then [] else [last]
  }

  /** What file `k` contributes. */
  function New(needed: seq<FileEntry>, k: nat): seq<Hash>
    requires k < |needed|
  {
    Fresh(needed[k].chunks, SetOf(AllChunks(needed[..k])))
  }

  /** What the files from `a` up to `b` contribute, in order. */
  function Join(needed: seq<FileEntry>, a: nat, b: nat): seq<Hash>
    requires a <= b <= |needed|
  {
    if a == b then [] else Join(needed, a, b - 1) + New(needed, b - 1)
  }

  function Bytes(needed: seq<FileEntry>, a: nat, b: nat): nat
    requires a <= b <= |needed|
  {
    if a == b then 0 else Bytes(needed, a, b - 1) + needed[b - 1].size
  }

  function Concat(batches: seq<seq<Hash>>): seq<Hash> {
    if batches == [] then [] else Concat(batches[..|batches| - 1]) + batches[|batches| - 1]
  }

  // ---------- what a plan must be ----------

  ghost predicate SingleFile(needed: seq<FileEntry>, a: nat, b: nat)
    requires a <= b <= |needed|
  {
    exists k :: a <= k < b && OnlyFile(needed, a, b, k)
  }

  ghost predicate OnlyFile(needed: seq<FileEntry>, a: nat, b: nat, k: nat)
    requires a <= b <= |needed|
  {
    forall j :: a <= j < b && j != k ==> New(needed, j) == []
  }

  /** Within both caps, counting the size of every file walked, or the chunks of one file. */
  ghost predicate Bounded(needed: seq<FileEntry>, a: nat, b: nat)
    requires a <= b <= |needed|
  {
    || (|Join(needed, a, b)| <= 128 && Bytes(needed, a, b) <= 33_554_432)
    || SingleFile(needed, a, b)
  }

  /** Adding so many hashes and bytes to a batch of that size breaks a cap. */
  predicate TooMuch(hashes: nat, bytes: nat, moreHashes: nat, moreBytes: nat) {
    hashes + moreHashes > GET_MANY_MAX_HASHES || bytes + moreBytes > GET_MANY_TARGET_BYTES
  }

  /** File `b` would have pushed the batch of the files from `a` on past a cap. */
  ghost predicate Overflows(needed: seq<FileEntry>, a: nat, b: nat)
    requires a <= b < |needed|
  {
    |Join(needed, a, b)| + |New(needed, b)| > 128 || Bytes(needed, a, b) + needed[b].size > 33_554_432
  }

  /** `cuts` says where each batch starts: batch `i` holds exactly what the files from
      `cuts[i]` up to `cuts[i + 1]` contribute, and no batch closes while its next file
      still fits. */
  ghost predicate IsPlan(needed: seq<FileEntry>, batches: seq<seq<Hash>>, cuts: seq<nat>, n: nat)
    requires n <= |needed|
  {
    && |cuts| == |batches| + 1 && cuts[0] == 0 && cuts[|batches|] <= n
    && forall i :: 0 <= i < |batches| ==> IsBatch(needed, batches[i], cuts[i], cuts[i + 1], n)
  }

  ghost predicate IsBatch(needed: seq<FileEntry>, batch: seq<Hash>, a: nat, b: nat, n: nat)
    requires n <= |needed|
  {
    && a <= b <= n && batch == Join(needed, a, b) && batch != [] && Bounded(needed, a, b)
    && (b < n ==> Overflows(needed, a, b))
  }

  /** The first `k` files are walked: closed batches, and a current one that may be empty. */
  ghost predicate Planning(needed: seq<FileEntry>, k: nat, batches: seq<seq<Hash>>, cuts: seq<nat>,
                           current: seq<Hash>, currentBytes: nat)
    requires k <= |needed|
  {
    && IsPlan(needed, batches, cuts, k)
    && current == Join(needed, cuts[|batches|], k) && currentBytes == Bytes(needed, cuts[|batches|], k)
    && (current == [] || Bounded(needed, cuts[|batches|], k))
    && (batches != [] && cuts[|batches|] == k < |needed| ==> Overflows(needed, cuts[|batches| - 1], k))
    && Concat(batches) + current == Join(needed, 0, k)
  }

  method PlanFetchBatches(needed: seq<FileEntry>) returns (batches: seq<seq<Hash>>, ghost cuts: seq<nat>)
    ensures Concat(batches) == FirstOccurrences(AllChunks(needed))
    ensures IsPlan(needed, batches, cuts, |needed|) && Join(needed, cuts[|batches|], |needed|) == []
  {
    batches, cuts := [], [0];
    var current: seq<Hash> := [];
    var currentBytes: nat := 0;
    var planned: set<Hash> := {};
    Starts(needed);
    hide Planning, AllChunks, SetOf, New, IsPlan, Concat, Join, Bytes, FirstOccurrences, Fresh, TooMuch;
    for k := 0 to |needed|
      invariant planned == SetOf(AllChunks(needed[..k]))
      invariant Planning(needed, k, batches, cuts, current, currentBytes)
    {
      var entry := needed[k];
      var novel: seq<Hash>;
      NewIs(needed, k);
      NextFile(needed, k);
      novel, planned := TakeNew(entry.chunks, planned);
      if current != [] && TooMuch(|current|, currentBytes, |novel|, entry.size) {
        CloseBatch(needed, batches, cuts, k, current, currentBytes);
        batches, cuts := batches + [current], cuts + [k];
        current, currentBytes := [], 0;
      }
      AddFile(needed, batches, cuts, k, current, currentBytes);
      current := current + novel;
      currentBytes := currentBytes + entry.size;
    }
    Ends(needed);
    if current != [] {
      CloseBatch(needed, batches, cuts, |needed|, current, currentBytes);
      batches, cuts := batches + [current], cuts + [|needed|];
    }
    PlanMade(needed, batches, cuts, if current != [] then 0 else currentBytes);
  }

  /** The filter that also records what it lets through. */
  method TakeNew(chunks: seq<Hash>, planned: set<Hash>) returns (novel: seq<Hash>, planned': set<Hash>)
    ensures novel == Fresh(chunks, planned)
    ensures planned' == planned + SetOf(chunks)
  {
    novel, planned' := [], planned;
    for i := 0 to |chunks|
      invariant novel == Fresh(chunks[..i], planned)
      invariant planned' == planned + SetOf(chunks[..i])
    {
      Prefix(chunks, i);
      assert chunks[..i + 1][..i] == chunks[..i];
      if chunks[i] !in planned' {
        planned' := planned' + {chunks[i]};
        novel := novel + [chunks[i]];
      }
    }
    assert chunks[..|chunks|] == chunks;
  }

  // ---------- supporting lemmas ----------

  lemma Starts(needed: seq<FileEntry>)
    ensures SetOf(AllChunks(needed[..0])) == {} && Planning(needed, 0, [], [0], [], 0)
  {
  }

  lemma CloseBatch(needed: seq<FileEntry>, batches: seq<seq<Hash>>, cuts: seq<nat>, k: nat,
                   current: seq<Hash>, currentBytes: nat)
    requires k <= |needed| && Planning(needed, k, batches, cuts, current, currentBytes) && current != []
    requires k < |needed| ==> TooMuch(|current|, currentBytes, |New(needed, k)|, needed[k].size)
    ensures Planning(needed, k, batches + [current], cuts + [k], [], 0)
    ensures Bytes(needed, k, k) == 0
  {
    assert k < |needed| ==> Overflows(needed, cuts[|batches|], k);
    hide Join, Bounded, Bytes, Concat, New, Overflows;
    EmptyStretch(needed, k);
    ConcatSnoc(batches, current);
    PlanSnoc(needed, batches, cuts, k, current);
    var more, ends := batches + [current], cuts + [k];
    assert |ends| == |more| + 1 && ends[|more| - 1] == cuts[|batches|] && ends[|more|] == k;
    hide IsPlan;
    assert Concat(batches + [current]) + [] == Concat(batches + [current]);
  }

  lemma EmptyStretch(needed: seq<FileEntry>, k: nat)
    requires k <= |needed|
    ensures Join(needed, k, k) == [] && Bytes(needed, k, k) == 0
  {
  }

  lemma ConcatSnoc(batches: seq<seq<Hash>>, current: seq<Hash>)
    ensures Concat(batches + [current]) == Concat(batches) + current
  {
    assert (batches + [current])[..|batches|] == batches;
  }

  lemma PlanSnoc(needed: seq<FileEntry>, batches: seq<seq<Hash>>, cuts: seq<nat>, k: nat, current: seq<Hash>)
    requires k <= |needed| && IsPlan(needed, batches, cuts, k) && IsBatch(needed, current, cuts[|batches|], k, k)
    ensures IsPlan(needed, batches + [current], cuts + [k], k)
  {
    hide IsBatch;
    var more, ends := batches + [current], cuts + [k];
    forall i | 0 <= i < |more|
      ensures IsBatch(needed, more[i], ends[i], ends[i + 1], k)
    {
      if i < |batches| {
        assert IsBatch(needed, batches[i], cuts[i], cuts[i + 1], k);
      }
    }
  }

  lemma AddFile(needed: seq<FileEntry>, batches: seq<seq<Hash>>, cuts: seq<nat>, k: nat,
                current: seq<Hash>, currentBytes: nat)
    requires k < |needed| && Planning(needed, k, batches, cuts, current, currentBytes)
    requires current == [] || !TooMuch(|current|, currentBytes, |New(needed, k)|, needed[k].size)
    ensures Planning(needed, k + 1, batches, cuts, current + New(needed, k), currentBytes + needed[k].size)
  {
    hide Join, Bounded, Bytes, Concat, New, AllChunks, SetOf;
    var start := cuts[|batches|];
    PlanGrows(needed, batches, cuts, k);
    hide IsPlan, Overflows;
    Extend(needed, start, k, current, currentBytes);
    NextFile(needed, k);
    Associate(Concat(batches), current, New(needed, k));
  }

  lemma Associate(a: seq<Hash>, b: seq<Hash>, c: seq<Hash>)
    ensures a + (b + c) == (a + b) + c
  {
  }

  lemma PlanGrows(needed: seq<FileEntry>, batches: seq<seq<Hash>>, cuts: seq<nat>, k: nat)
    requires k < |needed| && IsPlan(needed, batches, cuts, k)
    requires batches != [] && cuts[|batches|] == k ==>
               cuts[|batches| - 1] <= k && Overflows(needed, cuts[|batches| - 1], k)
    ensures IsPlan(needed, batches, cuts, k + 1)
  {
    hide Join, Bounded, Overflows;
    forall i | 0 <= i < |batches|
      ensures IsBatch(needed, batches[i], cuts[i], cuts[i + 1], k + 1)
    {
      assert IsBatch(needed, batches[i], cuts[i], cuts[i + 1], k);
      if i < |batches| - 1 {
        CutIncreases(needed, batches, cuts, k, i + 1);
      }
    }
  }

  /** No batch is empty, so only the last can end where the walk stands. */
  lemma CutIncreases(needed: seq<FileEntry>, batches: seq<seq<Hash>>, cuts: seq<nat>, n: nat, i: nat)
    requires n <= |needed| && IsPlan(needed, batches, cuts, n) && i < |batches|
    ensures cuts[i] < cuts[i + 1] <= n
  {
    hide Bounded, Overflows;
    assert IsBatch(needed, batches[i], cuts[i], cuts[i + 1], n);
    assert Join(needed, cuts[i], cuts[i]) == [];
  }

  lemma PlanMade(needed: seq<FileEntry>, batches: seq<seq<Hash>>, cuts: seq<nat>, bytes: nat)
    requires Planning(needed, |needed|, batches, cuts, [], bytes)
    ensures IsPlan(needed, batches, cuts, |needed|) && Join(needed, cuts[|batches|], |needed|) == []
    ensures Concat(batches) == Join(needed, 0, |needed|)
  {
    assert Concat(batches) + [] == Concat(batches);
  }

  ghost predicate JoinIsEmpty(needed: seq<FileEntry>, a: nat, b: nat)
    requires a <= b <= |needed|
  {
    forall j :: a <= j < b ==> New(needed, j) == []
  }

  lemma NextFile(needed: seq<FileEntry>, k: nat)
    requires k < |needed|
    ensures AllChunks(needed[..k + 1]) == AllChunks(needed[..k]) + needed[k].chunks
    ensures SetOf(AllChunks(needed[..k + 1])) == SetOf(AllChunks(needed[..k])) + SetOf(needed[k].chunks)
    ensures Join(needed, 0, k + 1) == Join(needed, 0, k) + New(needed, k)
  {
    assert needed[..k + 1][..k] == needed[..k];
  }

  lemma NewIs(needed: seq<FileEntry>, k: nat)
    requires k < |needed|
    ensures New(needed, k) == Fresh(needed[k].chunks, SetOf(AllChunks(needed[..k])))
  {
  }

  lemma {:induction false} EmptyJoin(needed: seq<FileEntry>, a: nat, b: nat)
    requires a <= b <= |needed|
    ensures Join(needed, a, b) == [] <==> JoinIsEmpty(needed, a, b)
  {
    hide New;
    if a < b {
      EmptyJoin(needed, a, b - 1);
    }
  }

  /** One more file keeps the stretch bounded, given the test that closes a batch. */
  lemma Extend(needed: seq<FileEntry>, a: nat, k: nat, current: seq<Hash>, currentBytes: nat)
    requires a <= k < |needed| && current == Join(needed, a, k) && currentBytes == Bytes(needed, a, k)
    requires current == [] || (|current| + |New(needed, k)| <= GET_MANY_MAX_HASHES
                               && currentBytes + needed[k].size <= GET_MANY_TARGET_BYTES)
    ensures Join(needed, a, k + 1) == current + New(needed, k)
    ensures Bytes(needed, a, k + 1) == currentBytes + needed[k].size
    ensures Bounded(needed, a, k + 1)
  {
    hide New;
    EmptyJoin(needed, a, k);
    if current == [] {
      assert OnlyFile(needed, a, k + 1, k);
    }
  }

  lemma Ends(needed: seq<FileEntry>)
    ensures Join(needed, 0, |needed|) == FirstOccurrences(AllChunks(needed))
  {
    JoinIsFirstOccurrences(needed, |needed|);
    assert needed[..|needed|] == needed;
  }

  lemma FirstSnoc(s: seq<Hash>, h: Hash)
    ensures FirstOccurrences(s + [h]) == FirstOccurrences(s) + if h in s then [] else [h]
  {
    assert (s + [h])[..|s|] == s;
  }

  lemma FreshSnoc(s: seq<Hash>, h: Hash, planned: set<Hash>)
    ensures Fresh(s + [h], planned) == Fresh(s, planned) + if h in planned || h in s then [] else [h]
  {
    assert (s + [h])[..|s|] == s;
  }

  lemma {:induction false} FirstThenFresh(a: seq<Hash>, b: seq<Hash>)
    ensures FirstOccurrences(a + b) == FirstOccurrences(a) + Fresh(b, SetOf(a))
  {
    if b == [] {
      assert a + b == a;
      assert FirstOccurrences(a) + [] == FirstOccurrences(a);
    } else {
      var before, last := b[..|b| - 1], b[|b| - 1];
      assert b == before + [last] && a + b == (a + before) + [last];
      assert last in a + before <==> last in SetOf(a) || last in before;
      hide SetOf, FirstOccurrences, Fresh;
      FirstThenFresh(a, before);
      FirstSnoc(a + before, last);
      FreshSnoc(before, last, SetOf(a));
      var end := if last in a + before then [] else [last];
      assert (FirstOccurrences(a) + Fresh(before, SetOf(a))) + end == FirstOccurrences(a) + (Fresh(before, SetOf(a)) + end);
    }
  }

  lemma {:induction false} JoinIsFirstOccurrences(needed: seq<FileEntry>, n: nat)
    requires n <= |needed|
    ensures Join(needed, 0, n) == FirstOccurrences(AllChunks(needed[..n]))
  {
    hide Fresh, FirstOccurrences;
    if n == 0 {
      assert FirstOccurrences([]) == [] by {
        NoOccurrences();
      }
    } else {
      JoinIsFirstOccurrences(needed, n - 1);
      NextFile(needed, n - 1);
      FirstThenFresh(AllChunks(needed[..n - 1]), needed[n - 1].chunks);
    }
  }

  lemma NoOccurrences()
    ensures FirstOccurrences([]) == []
  {
  }

  // ---------- every needed chunk once ----------

  /** The fetch order lists every needed chunk and none twice. */
  lemma {:induction false} FetchedOnce(s: seq<Hash>)
    ensures Lists(FirstOccurrences(s), SetOf(s))
  {
    if s != [] {
      var before, last := s[..|s| - 1], s[|s| - 1];
      FetchedOnce(before);
      assert forall h :: h in s <==> h in before || h == last;
      var some := FirstOccurrences(before);
      assert last in before <==> last in some by {
        assert last in SetOf(before) <==> last in before;
      }
      if last !in before {
        var all := some + [last];
        assert forall h :: h in all <==> h in some || h == last;
      } else {
        assert some + [] == some;
      }
    }
  }

  /** A batch over a cap is one file's chunks: what exceeds the caps is no more than a
      single file. */
  lemma OversizedIsOneFile(needed: seq<FileEntry>, batches: seq<seq<Hash>>, cuts: seq<nat>, i: nat) returns (k: nat)
    requires IsPlan(needed, batches, cuts, |needed|) && i < |batches|
    requires |batches[i]| > GET_MANY_MAX_HASHES
    ensures cuts[i] <= k < cuts[i + 1] && batches[i] == New(needed, k)
  {
    var a, b := cuts[i], cuts[i + 1];
    assert IsBatch(needed, batches[i], a, b, |needed|);
    assert SingleFile(needed, a, b);
    k :| a <= k < b && OnlyFile(needed, a, b, k);
    OnlyOne(needed, a, b, k);
  }

  lemma {:induction false} OnlyOne(needed: seq<FileEntry>, a: nat, b: nat, k: nat)
    requires a <= k < b <= |needed| && OnlyFile(needed, a, b, k)
    ensures Join(needed, a, b) == New(needed, k)
  {
    hide New;
    if k == b - 1 {
      EmptyJoin(needed, a, k);
    } else {
      OnlyOne(needed, a, b - 1, k);
    }
  }
}
