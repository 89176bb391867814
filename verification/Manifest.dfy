/** Manifests: what a workspace holds at one point in time, and when a set of
    paths can exist together in one directory tree (crates/core/src/manifest.rs). */
module Manifests {

  datatype Option<+T> = None | Some(value: T)

  datatype Result<+T, +E> = Ok(value: T) | Err(error: E)

  /** A `/`-separated key, split into its components. `p < q` on sequences then
      says that `p` names a directory that contains `q`. */
  type Path = seq<string>

  type Hash = string

  datatype FileEntry = FileEntry(size: nat, mode: nat, mtimeSecs: int, mtimeNanos: int, chunks: seq<Hash>)

  type Files = map<Path, FileEntry>

  datatype Manifest = Manifest(version: nat, workspaceId: string, scannedAtSecs: int, files: Files)

  const FORMAT_VERSION := 1

  /** `s` holds every element of `elements` once and nothing else. */
  ghost predicate Lists<T(!new)>(s: seq<T>, elements: set<T>) {
    (forall x :: x in s <==> x in elements) && forall i, j :: 0 <= i < j < |s| ==> s[i] != s[j]
  }

  function SetOf<T>(s: seq<T>): set<T> {
    set x | x in s
  }

  lemma Prefix<T>(s: seq<T>, i: nat)
    requires i < |s|
    ensures SetOf(s[..i + 1]) == SetOf(s[..i]) + {s[i]}
  {
    assert s[..i + 1] == s[..i] + [s[i]];
  }

  /** One step of a walk over a listing. */
  lemma Walk<T(!new)>(s: seq<T>, elements: set<T>, i: nat)
    requires i < |s| && Lists(s, elements)
    ensures s[i] in elements && s[i] !in SetOf(s[..i])
    ensures SetOf(s[..i + 1]) == SetOf(s[..i]) + {s[i]}
  {
    Prefix(s, i);
  }

  lemma WalkEnds<T(!new)>(s: seq<T>, elements: set<T>)
    requires Lists(s, elements)
    ensures SetOf(s[..|s|]) == elements && SetOf(s[..0]) == {}
  {
    assert s[..|s|] == s;
  }

  /** The entry of `m` at `p`, as a map lookup in the source returns it. */
  function Get(m: Files, p: Path): Option<FileEntry> {
    if p in m then Some(m[p]) else None
  }

  lemma EqualByLookup(a: Files, b: Files)
    requires forall p :: Get(a, p) == Get(b, p)
    ensures a == b
  {
    forall p | p in a
      ensures p in b && a[p] == b[p]
    {
      assert Get(a, p) == Get(b, p);
    }
    forall p | p in b
      ensures p in a
    {
      assert Get(a, p) == Get(b, p);
    }
  }

  /** Two entries that hold the same bytes with the same permissions; only the
      modification time may differ. */
  predicate SameContent(a: FileEntry, b: FileEntry) {
    a.chunks == b.chunks && a.mode == b.mode && a.size == b.size
  }

  // ---------- validity ----------

  function LowerAscii(c: char): char {
    if 'A' <= c <= 'Z' then c - 'A' + 'a' else c
  }

  predicate IsPearName(c: string) {
    |c| == 5 && c[0] == '.' && LowerAscii(c[1]) == 'p' && LowerAscii(c[2]) == 'e'
    && LowerAscii(c[3]) == 'a' && LowerAscii(c[4]) == 'r'
  }

  /** A component that survives splitting on `/` and is not dropped or refused. */
  predicate ValidComponent(c: string) {
    c != "" && c != ".." && '/' !in c
  }

  /** The source inspects `Path::components`, which drops an interior `.`; only a
      leading `.` is refused. */
  predicate ValidPath(p: Path) {
    && p != []
    && (forall i :: 0 <= i < |p| ==> ValidComponent(p[i]))
    && p[0] != "."
    && !IsPearName(p[0])
  }

  predicate IsChunkHash(h: Hash) {
    |h| == 64 && forall i :: 0 <= i < |h| ==> '0' <= h[i] <= '9' || 'a' <= h[i] <= 'f'
  }

  predicate ValidEntry(e: FileEntry) {
    forall i :: 0 <= i < |e.chunks| ==> IsChunkHash(e.chunks[i])
  }

  /** No path is both a file and a directory. */
  ghost predicate NoFileIsADirectory(m: Files) {
    forall p, q :: p in m && q in m ==> !(p < q)
  }

  ghost predicate Valid(m: Files) {
    && (forall p :: p in m ==> ValidPath(p) && ValidEntry(m[p]))
    && NoFileIsADirectory(m)
  }

  /** Accepts exactly the valid manifests: every key is a usable path with
      well-formed chunk names, and climbing from a key never meets another key. */
  method Validate(m: Files) returns (ok: bool)
    ensures ok <==> Valid(m)
  {
    var todo := m.Keys;
    while todo != {}
      invariant todo <= m.Keys
      invariant forall p :: p in m && p !in todo ==> ValidPath(p) && ValidEntry(m[p])
      decreases todo
    {
      var p :| p in todo;
      if !(ValidPath(p) && ValidEntry(m[p])) {
        return false;
      }
      todo := todo - {p};
    }
    todo := m.Keys;
    while todo != {}
      invariant todo <= m.Keys
      invariant forall p, q :: p in m && q in m && q !in todo ==> !(p < q)
      decreases todo
    {
      var q :| q in todo;
      var ancestor := q;
      while |ancestor| > 1
        invariant ancestor != [] && ancestor <= q
        invariant forall p :: p in m && p < q ==> |p| < |ancestor|
      {
        ancestor := ancestor[..|ancestor| - 1];
        if ancestor in m {
          assert ancestor < q;
          return false;
        }
        forall p | p in m && p < q
          ensures |p| < |ancestor|
        {
          assert p == q[..|p|] && ancestor == q[..|ancestor|];
        }
      }
      todo := todo - {q};
    }
    return true;
  }

  // ---------- what a valid key is good for ----------

  /** Where a file system ends up that follows `p` from the root of the tree: `..` goes up, `.`
      stays, and there is no place above the root. */
  function Resolve(p: Path): Option<Path> {
    if p == [] then Some([])
    else
      match Resolve(p[..|p| - 1])
      case None => None
      case Some(place) =>
        var c := p[|p| - 1];
        if c == ".." then if place == [] then None else Some(place[..|place| - 1])
        else if c == "." || c == "" then Some(place)
        else Some(place + [c])
  }

  /** The name of the metadata directory, as a case-insensitive file system reads it. */
  predicate SpellsPear(c: string) {
    |c| == 5 && c[0] == '.' && c[1] in {'p', 'P'} && c[2] in {'e', 'E'} && c[3] in {'a', 'A'} && c[4] in {'r', 'R'}
  }

  /** After `n` components the walk stands inside the tree, below its root, and outside the
      metadata directory. */
  predicate StandsInside(p: Path, n: nat)
    requires n <= |p|
  {
    var place := Resolve(p[..n]);
    place.Some? && place.value != [] && !SpellsPear(place.value[0])
  }

  lemma ResolveNext(p: Path, n: nat)
    requires 0 < n <= |p|
    ensures Resolve(p[..n])
         == match Resolve(p[..n - 1])
            case None => None
            case Some(place) =>
              if p[n - 1] == ".." then if place == [] then None else Some(place[..|place| - 1])
              else if p[n - 1] == "." || p[n - 1] == "" then Some(place)
              else Some(place + [p[n - 1]])
  {
    assert p[..n][..n - 1] == p[..n - 1];
  }

  /** A walk along a usable path stays below its first component. */
  lemma {:induction false} WalkStaysBelow(p: Path, n: nat)
    requires ValidPath(p) && 0 < n <= |p|
    ensures Resolve(p[..n]).Some? && Resolve(p[..n]).value != [] && Resolve(p[..n]).value[0] == p[0]
    decreases n
  {
    ResolveNext(p, n);
    assert ValidComponent(p[n - 1]);
    if n > 1 {
      WalkStaysBelow(p, n - 1);
    } else {
      assert p[..0] == [];
    }
  }

  lemma PearSpellings(c: string)
    ensures IsPearName(c) <==> SpellsPear(c)
  {
  }

  /** A key is accepted exactly if its components are names, it never goes up, and on no step of
      the way it stands at the root or in the metadata directory, however that is spelled. */
  lemma KeyIsValidIff(p: Path)
    ensures ValidPath(p) <==>
      && p != [] && (forall i :: 0 <= i < |p| ==> p[i] != "" && '/' !in p[i] && p[i] != "..")
      && (forall n: nat :: 0 < n <= |p| ==> StandsInside(p, n))
  {
    if p != [] {
      PearSpellings(p[0]);
      ResolveNext(p, 1);
      assert p[..0] == [];
      if ValidPath(p) {
        forall i | 0 <= i < |p|
          ensures p[i] != "" && '/' !in p[i] && p[i] != ".."
        {
          assert ValidComponent(p[i]);
        }
        forall n: nat | 0 < n <= |p|
          ensures StandsInside(p, n)
        {
          WalkStaysBelow(p, n);
        }
      } else if forall n: nat :: 0 < n <= |p| ==> StandsInside(p, n) {
        assert StandsInside(p, 1);
      }
    }
  }

  function WithoutDots(p: Path): Path {
    if p == [] then []
    else WithoutDots(p[..|p| - 1]) + if p[|p| - 1] == "." then [] else [p[|p| - 1]]
  }

  lemma {:induction false} NamesResolve(p: Path)
    requires forall i :: 0 <= i < |p| ==> ValidComponent(p[i])
    ensures Resolve(p) == Some(WithoutDots(p)) && |WithoutDots(p)| <= |p|
    ensures WithoutDots(p) == p <==> "." !in p
  {
    if p != [] {
      var n := |p| - 1;
      NamesResolve(p[..n]);
      assert ValidComponent(p[n]);
      assert p == p[..n] + [p[n]];
      var rest, last := WithoutDots(p[..n]), p[n];
      assert "." in p <==> "." in p[..n] || last == ".";
      if last == "." {
        assert WithoutDots(p) == rest + [] == rest;
      } else {
        assert WithoutDots(p) == rest + [last] && Resolve(p) == Some(rest + [last]);
        assert rest + [last] == p ==> rest == p[..n];
      }
    }
  }

  /** An interior `.` is accepted although it stands for nothing: two keys of a valid manifest
      are one place on disk exactly if they are equal but for their dots. */
  lemma SamePlaceIff(m: Files, p: Path, q: Path)
    requires Valid(m) && p in m && q in m
    ensures Resolve(p) == Resolve(q) <==> WithoutDots(p) == WithoutDots(q)
  {
    NamesResolve(p);
    NamesResolve(q);
  }

  lemma SamePlaceExample() returns (m: Files, p: Path, q: Path)
    ensures Valid(m) && p in m && q in m && p != q && Resolve(p) == Resolve(q)
  {
    p, q := ["a", "b"], ["a", ".", "b"];
    m := map[p := FileEntry(0, 0x1A4, 0, 0, []), q := FileEntry(0, 0x1A4, 0, 0, [])];
    assert p[1][0] != q[1][0];
    assert !(p < q) && !(q < p);
    assert Valid(m);
    hide Valid;
    ResolveOneMore(["a"], "b");
    ResolveOneMore(["a"], ".");
    ResolveOneMore(["a", "."], "b");
    assert p == ["a"] + ["b"] && q == (["a"] + ["."]) + ["b"];
  }

  lemma ResolveOneMore(p: Path, c: string)
    ensures Resolve(p).Some? && c != ".." ==>
              Resolve(p + [c]) == if c == "." || c == "" then Resolve(p) else Some(Resolve(p).value + [c])
  {
    assert (p + [c])[..|p|] == p;
  }

  /** Every key is itself a place exactly if no key has a dot. Then no two keys are one place,
      and none is in the way of another. */
  lemma KeysArePlacesIff(m: Files)
    requires Valid(m)
    ensures (forall p :: p in m ==> Resolve(p) == Some(p)) <==> (forall p :: p in m ==> "." !in p)
    ensures (forall p :: p in m ==> "." !in p) ==>
      forall p, q :: p in m && q in m && p != q ==> Resolve(p) != Resolve(q) && !(Resolve(p).value < Resolve(q).value)
  {
    forall p | p in m
      ensures Resolve(p) == Some(p) <==> "." !in p
    {
      NamesResolve(p);
    }
    hide Resolve, ValidPath, ValidEntry;
    assert forall p, q :: p in m && q in m ==> !(p < q);
  }

  /** What a chunk name looks like. */
  lemma EntryIsValidIff(e: FileEntry)
    ensures ValidEntry(e) <==> forall i :: 0 <= i < |e.chunks| ==>
              |e.chunks[i]| == 64 && forall k :: 0 <= k < 64 ==> e.chunks[i][k] in "0123456789abcdef"
  {
    var digits := "0123456789abcdef";
    forall c: char
      ensures c in digits <==> '0' <= c <= '9' || 'a' <= c <= 'f'
    {
      if '0' <= c <= '9' {
        assert digits[c as int - '0' as int] == c;
      } else if 'a' <= c <= 'f' {
        assert digits[c as int - 'a' as int + 10] == c;
      }
    }
  }

  // ---------- diff ----------

  datatype ManifestDiff = ManifestDiff(added: set<Path>, changed: set<Path>, deleted: set<Path>)

  function DiffOf(before: Files, after: Files): ManifestDiff {
    ManifestDiff(
      set p | p in after && p !in before,
      set p | p in after && p in before && before[p] != after[p],
      set p | p in before && p !in after)
  }

  method Diff(before: Files, after: Files) returns (d: ManifestDiff)
    ensures d == DiffOf(before, after)
  {
    var added, changed, deleted: set<Path> := {}, {}, {};
    var todo := after.Keys;
    while todo != {}
      invariant todo <= after.Keys
      invariant added == set p | p in after && p !in todo && p !in before
      invariant changed == set p | p in after && p !in todo && p in before && before[p] != after[p]
      decreases todo
    {
      var p :| p in todo;
      match Get(before, p) {
        case None => added := added + {p};
        case Some(entry) =>
          if entry != after[p] {
            changed := changed + {p};
          }
      }
      todo := todo - {p};
    }
    todo := before.Keys;
    while todo != {}
      invariant todo <= before.Keys
      invariant deleted == set p | p in before && p !in todo && p !in after
      decreases todo
    {
      var p :| p in todo;
      if p !in after {
        deleted := deleted + {p};
      }
      todo := todo - {p};
    }
    d := ManifestDiff(added, changed, deleted);
  }

  /** A diff is empty exactly when both sides hold the same file set, and the
      paths it names are exactly those where the two sides disagree. */
  lemma DiffNamesDisagreements(before: Files, after: Files)
    ensures forall p :: p in DiffOf(before, after).added + DiffOf(before, after).changed + DiffOf(before, after).deleted
                        <==> Get(before, p) != Get(after, p)
    ensures DiffOf(before, after) == ManifestDiff({}, {}, {}) <==> before == after
  {
    var d := DiffOf(before, after);
    if d == ManifestDiff({}, {}, {}) {
      forall p | p in before
        ensures p in after && before[p] == after[p]
      {
        assert p !in d.deleted && p !in d.changed;
      }
      forall p | p in after
        ensures p in before
      {
        assert p !in d.added;
      }
      assert before == after;
    }
  }
}
