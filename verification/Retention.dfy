/** Checkpoint retention: which snapshots survive, and why the answer is canonical
    (crates/relay/src/db.rs). */
module Retention {
  import opened Manifests

  const HOUR_SECS := 3600
  const DAY_SECS := 24 * HOUR_SECS
  const KEEP_SECS := 7 * DAY_SECS

  datatype Checkpoint = Checkpoint(id: int, createdAt: int)

  function Age(now: int, c: Checkpoint): int {
    now - c.createdAt
  }

  /** Neither in the last hour nor past seven days: one per bucket is kept. */
  predicate Bucketed(now: int, c: Checkpoint) {
    HOUR_SECS <= Age(now, c) < KEEP_SECS
  }

  /** The tier and the trailing hour or day within it. */
  function Bucket(now: int, c: Checkpoint): (int, int) {
    if Age(now, c) < DAY_SECS then (1, Age(now, c) / HOUR_SECS) else (2, Age(now, c) / DAY_SECS)
  }

  /** `a` is the later checkpoint; on equal times the later insert. */
  predicate Beats(a: Checkpoint, b: Checkpoint) {
    a.createdAt > b.createdAt || (a.createdAt == b.createdAt && a.id > b.id)
  }

  predicate SameBucket(now: int, a: Checkpoint, b: Checkpoint) {
    Bucketed(now, a) && Bucketed(now, b) && Bucket(now, a) == Bucket(now, b)
  }

  ghost predicate Survives(now: int, rows: set<Checkpoint>, c: Checkpoint) {
    || Age(now, c) < HOUR_SECS
    || (Bucketed(now, c) && forall x :: x in rows && SameBucket(now, x, c) ==> !Beats(x, c))
  }

  ghost predicate DistinctIds(rows: set<Checkpoint>) {
    forall a, b :: a in rows && b in rows && a.id == b.id ==> a == b
  }

  ghost function PrunedIds(now: int, rows: set<Checkpoint>): set<int> {
    set c | c in rows && !Survives(now, rows, c) :: c.id
  }

  ghost function Survivors(now: int, rows: set<Checkpoint>): set<Checkpoint> {
    set c | c in rows && Survives(now, rows, c)
  }

  // ---------- the decision loop ----------

  ghost predicate NewestSoFar(now: int, rows: set<Checkpoint>, newest: map<(int, int), Checkpoint>) {
    && (forall c :: c in rows && Bucketed(now, c) ==> Bucket(now, c) in newest && !Beats(c, newest[Bucket(now, c)]))
    && (forall b :: b in newest ==> newest[b] in rows && Bucketed(now, newest[b]) && Bucket(now, newest[b]) == b)
  }

  /** The checkpoints that win their bucket are exactly the recorded newest ones. */
  lemma NewestSurvive(now: int, rows: set<Checkpoint>, newest: map<(int, int), Checkpoint>, c: Checkpoint)
    requires NewestSoFar(now, rows, newest) && DistinctIds(rows) && c in rows && Bucketed(now, c)
    ensures Survives(now, rows, c) <==> newest[Bucket(now, c)] == c
  {
    var best := newest[Bucket(now, c)];
    assert SameBucket(now, best, c);
  }

  method CheckpointsToPrune(now: int, checkpoints: seq<Checkpoint>) returns (prune: seq<int>)
    requires DistinctIds(set c | c in checkpoints)
    requires forall i, j :: 0 <= i < j < |checkpoints| ==> checkpoints[i] != checkpoints[j]
    ensures IsPruneList(now, (set c | c in checkpoints), prune)
  {
    var newest: map<(int, int), Checkpoint> := map[];
    prune := [];
    ghost var rows: set<Checkpoint> := {};
    for i := 0 to |checkpoints|
      invariant rows == set c | c in checkpoints[..i]
      invariant NewestSoFar(now, rows, newest)
      invariant Lists(prune, PrunedIds(now, rows))
    {
      var c := checkpoints[i];
      ghost var rows' := rows + {c};
      assert forall x :: x in checkpoints[..i + 1] <==> x in checkpoints[..i] || x == c;
      assert DistinctIds(rows');
      assert c !in rows;
      var bucket := Bucket(now, c);
      if Age(now, c) < HOUR_SECS {
        KeepsPruning(now, rows, c);
      } else if Age(now, c) >= KEEP_SECS {
        PrunesMore(now, rows, c, c, newest, prune);
        prune := prune + [c.id];
      } else if bucket !in newest {
        BucketOpens(now, rows, c, newest);
        newest := newest[bucket := c];
      } else if !Beats(c, newest[bucket]) {
        PrunesMore(now, rows, c, c, newest, prune);
        prune := prune + [c.id];
      } else {
        PrunesMore(now, rows, c, newest[bucket], newest, prune);
        prune := prune + [newest[bucket].id];
        newest := newest[bucket := c];
      }
      rows := rows';
    }
    assert checkpoints[..|checkpoints|] == checkpoints;
    prune := Sort(prune);
  }

  lemma KeepsPruning(now: int, rows: set<Checkpoint>, c: Checkpoint)
    requires Age(now, c) < HOUR_SECS
    ensures PrunedIds(now, rows + {c}) == PrunedIds(now, rows)
  {
    forall x | x in rows
      ensures Survives(now, rows + {c}, x) <==> Survives(now, rows, x)
    {
      assert !SameBucket(now, c, x);
    }
  }

  lemma BucketOpens(now: int, rows: set<Checkpoint>, c: Checkpoint, newest: map<(int, int), Checkpoint>)
    requires NewestSoFar(now, rows, newest) && Bucketed(now, c) && Bucket(now, c) !in newest
    ensures PrunedIds(now, rows + {c}) == PrunedIds(now, rows)
  {
    forall x | x in rows
      ensures !SameBucket(now, c, x) && (Survives(now, rows + {c}, x) <==> Survives(now, rows, x))
    {
    }
    assert Survives(now, rows + {c}, c);
  }

  /** Adding `c` dooms exactly one more: `c` itself, or the one it beats. */
  lemma PrunesMore(now: int, rows: set<Checkpoint>, c: Checkpoint, doomed: Checkpoint,
                   newest: map<(int, int), Checkpoint>, prune: seq<int>)
    requires DistinctIds(rows + {c}) && c !in rows
    requires NewestSoFar(now, rows, newest) && Lists(prune, PrunedIds(now, rows))
    requires Age(now, c) >= HOUR_SECS
    requires if Age(now, c) >= KEEP_SECS then doomed == c
             else Bucket(now, c) in newest
                  && doomed == if Beats(c, newest[Bucket(now, c)]) then newest[Bucket(now, c)] else c
    ensures Lists(prune + [doomed.id], PrunedIds(now, rows + {c}))
  {
    var rows' := rows + {c};
    assert Bucketed(now, c) ==> SameBucket(now, newest[Bucket(now, c)], c);
    forall x | x in rows'
      ensures Survives(now, rows', x) <==> x != doomed && (x == c || Survives(now, rows, x))
    {
      SurvivesAfter(now, rows, c, doomed, newest, x);
    }
    assert doomed == c || Survives(now, rows, doomed) by {
      if doomed != c {
        NewestSurvive(now, rows, newest, doomed);
      }
    }
    OneMoreDoomed(now, rows, c, doomed, prune);
  }

  lemma SurvivesAfter(now: int, rows: set<Checkpoint>, c: Checkpoint, doomed: Checkpoint,
                      newest: map<(int, int), Checkpoint>, x: Checkpoint)
    requires DistinctIds(rows + {c}) && c !in rows && NewestSoFar(now, rows, newest)
    requires Age(now, c) >= HOUR_SECS
    requires if Age(now, c) >= KEEP_SECS then doomed == c
             else Bucket(now, c) in newest
                  && doomed == if Beats(c, newest[Bucket(now, c)]) then newest[Bucket(now, c)] else c
    requires x in rows + {c}
    ensures Survives(now, rows + {c}, x) <==> x != doomed && (x == c || Survives(now, rows, x))
  {
    if x != c && Bucketed(now, x) {
      NewestSurvive(now, rows, newest, x);
    }
    if Bucketed(now, c) {
      assert SameBucket(now, newest[Bucket(now, c)], c);
    }
  }

  lemma OneMoreDoomed(now: int, rows: set<Checkpoint>, c: Checkpoint, doomed: Checkpoint, prune: seq<int>)
    requires DistinctIds(rows + {c}) && c !in rows && doomed in rows + {c}
    requires Lists(prune, PrunedIds(now, rows))
    requires forall x :: x in rows + {c} ==> (Survives(now, rows + {c}, x) <==>
               x != doomed && (x == c || Survives(now, rows, x)))
    requires doomed == c || Survives(now, rows, doomed)
    ensures Lists(prune + [doomed.id], PrunedIds(now, rows + {c}))
  {
    hide Survives;
    assert PrunedIds(now, rows + {c}) == PrunedIds(now, rows) + {doomed.id};
    assert doomed.id !in PrunedIds(now, rows);
  }

  ghost predicate Increasing(s: seq<int>) {
    forall i, j :: 0 <= i < j < |s| ==> s[i] < s[j]
  }

  /** What the caller deletes: the doomed ids, once each, in ascending order. */
  ghost predicate IsPruneList(now: int, rows: set<Checkpoint>, prune: seq<int>) {
    Increasing(prune) && forall x :: x in prune <==> x in PrunedIds(now, rows)
  }

  /** The final ordering of the list. */
  method Sort(s: seq<int>) returns (r: seq<int>)
    requires forall i, j :: 0 <= i < j < |s| ==> s[i] != s[j]
    ensures Increasing(r)
    ensures forall x :: x in r <==> x in s
  {
    r := [];
    for n := 0 to |s|
      invariant Increasing(r)
      invariant forall x :: x in r <==> x in s[..n]
    {
      assert s[n] !in s[..n];
      r := Insert(r, s[n]);
      assert s[..n + 1] == s[..n] + [s[n]];
    }
    assert s[..|s|] == s;
  }

  method Insert(s: seq<int>, x: int) returns (r: seq<int>)
    requires Increasing(s) && x !in s
    ensures Increasing(r)
    ensures forall y :: y in r <==> y in s || y == x
  {
    var k := 0;
    while k < |s| && s[k] < x
      invariant 0 <= k <= |s|
      invariant forall i :: 0 <= i < k ==> s[i] < x
    {
      k := k + 1;
    }
    assert k < |s| ==> s[k] != x;
    r := s[..k] + [x] + s[k..];
    assert s == s[..k] + s[k..];
  }

  // ---------- what survives ----------

  /** Nothing under an hour old is pruned, and everything from seven days on is. */
  lemma TierBounds(now: int, rows: set<Checkpoint>, c: Checkpoint)
    requires c in rows && DistinctIds(rows)
    ensures Age(now, c) < HOUR_SECS ==> c.id !in PrunedIds(now, rows)
    ensures Age(now, c) >= KEEP_SECS ==> c.id in PrunedIds(now, rows)
  {
  }

  /** A non-empty bucket keeps one checkpoint and no other: its latest. */
  lemma {:induction false} BucketKeepsOne(now: int, rows: set<Checkpoint>, c: Checkpoint) returns (best: Checkpoint)
    requires c in rows && Bucketed(now, c) && DistinctIds(rows)
    ensures best in rows && SameBucket(now, best, c) && Survives(now, rows, best)
    ensures forall x :: x in rows && SameBucket(now, x, c) && Survives(now, rows, x) ==> x == best
  {
    var bucket := set x | x in rows && SameBucket(now, x, c);
    assert c in bucket;
    best := LatestIn(bucket);
    forall x | x in rows && SameBucket(now, x, c)
      ensures !Beats(x, best) && (Survives(now, rows, x) ==> x == best)
    {
      assert x in bucket;
      assert SameBucket(now, best, x);
    }
  }

  lemma {:induction false} LatestIn(s: set<Checkpoint>) returns (best: Checkpoint)
    requires s != {}
    ensures best in s && forall x :: x in s ==> !Beats(x, best)
    decreases s
  {
    var some :| some in s;
    best := some;
    if s - {some} != {} {
      var rest := LatestIn(s - {some});
      if Beats(rest, some) {
        best := rest;
      }
    }
    assert forall x :: x in s ==> x == some || x in s - {some};
  }

  // ---------- in terms of ages ----------

  /** `x` was taken later than `c`, or in the same second under a higher id. */
  predicate LaterThan(x: Checkpoint, c: Checkpoint) {
    x.createdAt > c.createdAt || (x.createdAt == c.createdAt && x.id > c.id)
  }

  /** Of the checkpoints that are from `k` to `k + 1` hours old, for 1 to 23 hours, the list
      names all but the latest. */
  lemma HourKeepsItsLatest(now: int, rows: set<Checkpoint>, prune: seq<int>, k: nat, c: Checkpoint)
    requires DistinctIds(rows) && IsPruneList(now, rows, prune)
    requires 1 <= k <= 23 && c in rows && k * 3600 <= now - c.createdAt < (k + 1) * 3600
    ensures c.id in prune <==>
      exists x :: x in rows && k * 3600 <= now - x.createdAt < (k + 1) * 3600 && LaterThan(x, c)
  {
    forall x
      ensures SameBucket(now, x, c) <==> k * 3600 <= now - x.createdAt < (k + 1) * 3600
    {
      Hours(now - x.createdAt, k);
      Hours(now - c.createdAt, k);
    }
    PrunedIff(now, rows, c);
  }

  /** Likewise of those from `k` to `k + 1` days old, for 1 to 6 days. */
  lemma DayKeepsItsLatest(now: int, rows: set<Checkpoint>, prune: seq<int>, k: nat, c: Checkpoint)
    requires DistinctIds(rows) && IsPruneList(now, rows, prune)
    requires 1 <= k <= 6 && c in rows && k * 86400 <= now - c.createdAt < (k + 1) * 86400
    ensures c.id in prune <==>
      exists x :: x in rows && k * 86400 <= now - x.createdAt < (k + 1) * 86400 && LaterThan(x, c)
  {
    forall x
      ensures SameBucket(now, x, c) <==> k * 86400 <= now - x.createdAt < (k + 1) * 86400
    {
    }
    PrunedIff(now, rows, c);
  }

  /** The last hour is kept whole, and nothing that is seven days old. */
  lemma AgeLimits(now: int, rows: set<Checkpoint>, prune: seq<int>, c: Checkpoint)
    requires DistinctIds(rows) && IsPruneList(now, rows, prune) && c in rows
    ensures now - c.createdAt < 3600 ==> c.id !in prune
    ensures now - c.createdAt >= 7 * 86400 ==> c.id in prune
  {
    PrunedIff(now, rows, c);
  }

  lemma Hours(age: int, k: nat)
    requires 1 <= k <= 23
    ensures 3600 <= age < 86400 && age / 3600 == k <==> k * 3600 <= age < (k + 1) * 3600
  {
  }

  lemma PrunedIff(now: int, rows: set<Checkpoint>, c: Checkpoint)
    requires DistinctIds(rows) && c in rows
    ensures c.id in PrunedIds(now, rows) <==> !Survives(now, rows, c)
  {
  }

  /** The bucket as a number from 1 to 29: 23 hours, then 6 days. */
  function BucketNumber(now: int, c: Checkpoint): int {
    var b := Bucket(now, c);
    if b.0 == 1 then b.1 else 23 + b.1
  }

  lemma BucketNumberRange(now: int, a: Checkpoint, b: Checkpoint)
    requires Bucketed(now, a) && Bucketed(now, b)
    ensures 1 <= BucketNumber(now, a) <= 29
    ensures BucketNumber(now, a) == BucketNumber(now, b) ==> SameBucket(now, a, b)
  {
  }

  /** At most 29 checkpoints survive between one hour and seven days. */
  lemma AtMostTwentyNine(now: int, rows: set<Checkpoint>)
    requires DistinctIds(rows)
    ensures |set c | c in Survivors(now, rows) && Bucketed(now, c)| <= 29
  {
    var s := set c | c in Survivors(now, rows) && Bucketed(now, c);
    forall a, b | a in s && b in s && BucketNumber(now, a) == BucketNumber(now, b)
      ensures a == b
    {
      BucketNumberRange(now, a, b);
      var best := BucketKeepsOne(now, rows, a);
      assert SameBucket(now, b, a);
    }
    forall a | a in s
      ensures 1 <= BucketNumber(now, a) <= 29
    {
      BucketNumberRange(now, a, a);
    }
    CountByNumber(now, s, 29);
  }

  lemma {:induction false} CountByNumber(now: int, s: set<Checkpoint>, n: nat)
    requires forall a :: a in s ==> 1 <= BucketNumber(now, a) <= n
    requires forall a, b :: a in s && b in s && BucketNumber(now, a) == BucketNumber(now, b) ==> a == b
    ensures |s| <= n
  {
    if a :| a in s && BucketNumber(now, a) == n {
      CountByNumber(now, s - {a}, n - 1);
    } else if n > 0 {
      CountByNumber(now, s, n - 1);
    } else {
      assert forall a :: a !in s;
    }
  }

  /** Pruning what survived a prune changes nothing. */
  lemma PruneIsIdempotent(now: int, rows: set<Checkpoint>)
    ensures Survivors(now, Survivors(now, rows)) == Survivors(now, rows)
    ensures PrunedIds(now, Survivors(now, rows)) == {}
  {
  }

  /** The checkpoint whose insert triggers the prune always survives it. */
  lemma InsertedSurvives(now: int, rows: set<Checkpoint>, c: Checkpoint)
    requires c.createdAt == now
    ensures Survives(now, rows, c)
  {
  }

  /** The answer depends on the rows alone, not on the order in which they come. */
  lemma PruneListIsUnique(now: int, rows: set<Checkpoint>, a: seq<int>, b: seq<int>)
    requires IsPruneList(now, rows, a) && IsPruneList(now, rows, b)
    ensures a == b
  {
    SortedListIsUnique(a, b);
  }

  lemma {:induction false} SortedListIsUnique(a: seq<int>, b: seq<int>)
    requires Increasing(a) && Increasing(b)
    requires forall x :: x in a <==> x in b
    ensures a == b
  {
    if a != [] {
      assert a[0] in a;
    }
    if b != [] {
      assert b[0] in b;
    }
    if a != [] && b != [] {
      var a', b' := a[1..], b[1..];
      forall x
        ensures x in a' <==> x in b'
      {
        assert x in a' <==> x in a && x != a[0];
        assert x in b' <==> x in b && x != b[0];
      }
      SortedListIsUnique(a', b');
      assert a == [a[0]] + a' && b == [b[0]] + b';
    }
  }
}
