/** Conflict-copy names: the device label, the numbered candidates and the set of
    names a copy must stay clear of (crates/core/src/merge.rs). */
module Naming {
  import opened Manifests

  // ---------- the device label ----------

  predicate IsControl(c: char) {
    c < ' ' || '\U{7F}' <= c <= '\U{9F}'
  }

  predicate IsWhitespace(c: char) {
    c == ' ' || '\U{9}' <= c <= '\U{D}' || c == '\U{85}' || c == '\U{A0}' || c == '\U{1680}'
    || '\U{2000}' <= c <= '\U{200A}' || c == '\U{2028}' || c == '\U{2029}' || c == '\U{202F}'
    || c == '\U{205F}' || c == '\U{3000}'
  }

  function CleanChar(c: char): char {
    if c == '/' || c == '\\' || IsControl(c) then '_' else c
  }

  function TrimStart(s: string): (r: string)
    ensures forall c :: c in r ==> c in s
  {
    if s != "" && IsWhitespace(s[0]) then TrimStart(s[1..]) else s
  }

  function TrimEnd(s: string): (r: string)
    ensures forall c :: c in r ==> c in s
  {
    if s != "" && IsWhitespace(s[|s| - 1]) then TrimEnd(s[..|s| - 1]) else s
  }

  function Cleaned(s: string): (r: string)
    ensures |r| == |s| && forall i :: 0 <= i < |s| ==> r[i] == CleanChar(s[i])
  {
    seq(|s|, i requires 0 <= i < |s| => CleanChar(s[i]))
  }

  /** A device name as it appears in a path: never empty, never a separator. */
  function SanitizeDevice(device: string): (r: string)
    ensures r != "" && '/' !in r && forall c :: c in r ==> !IsControl(c)
  {
    var cleaned := TrimEnd(TrimStart(Cleaned(device)));
    if cleaned == "" then "device" else cleaned
  }

  // ---------- candidates ----------

  /** The last index of `c` in `s`, or -1. */
  function LastIndexOf(s: string, c: char): (i: int)
    ensures -1 <= i < |s|
    ensures i >= 0 ==> s[i] == c
    ensures forall j :: i < j < |s| ==> s[j] != c
  {
    if s == "" then -1
    else if s[|s| - 1] == c then |s| - 1
    else LastIndexOf(s[..|s| - 1], c)
  }

  function Dir(path: Path): Path {
    if path == [] then [] else path[..|path| - 1]
  }

  function FileName(path: Path): string {
    if path == [] then "" else path[|path| - 1]
  }

  /** A leading dot is not an extension. */
  function Stem(name: string): string {
    var dot := LastIndexOf(name, '.');
    if dot > 0 then name[..dot] else name
  }

  function Extension(name: string): string {
    var dot := LastIndexOf(name, '.');
    if dot > 0 then name[dot..] else ""
  }

  function Digit(d: nat): char
    requires d < 10
  {
    '0' + d as char
  }

  function Decimal(n: nat): (s: string)
    ensures s != "" && '/' !in s
  {
    if n < 10 then [Digit(n)] else Decimal(n / 10) + [Digit(n % 10)]
  }

  function Ordinal(n: nat): string {
    if n == 1 then "" else " " + Decimal(n)
  }

  function CopyName(name: string, device: string, stamp: string, n: nat): string {
    Stem(name) + (" (conflict from " + device + " " + stamp + ")") + Ordinal(n) + Extension(name)
  }

  function Candidate(path: Path, device: string, stamp: string, n: nat): Path {
    Dir(path) + [CopyName(FileName(path), device, stamp, n)]
  }

  lemma {:induction false} DecimalInjective(n: nat, m: nat)
    requires Decimal(n) == Decimal(m)
    ensures n == m
  {
    if n < 10 && m < 10 {
      assert Decimal(n)[0] == Decimal(m)[0];
    } else if n >= 10 && m >= 10 {
      var a, b := Decimal(n / 10), Decimal(m / 10);
      assert |a| == |b|;
      assert a == Decimal(n)[..|a|] && b == Decimal(m)[..|b|];
      DecimalInjective(n / 10, m / 10);
      assert Decimal(n)[|a|] == Decimal(m)[|b|];
    }
  }

  lemma MiddleOfConcat(a: string, x: string, y: string, b: string)
    requires a + x + b == a + y + b
    ensures x == y
  {
    assert |x| == |y|;
    assert x == (a + x + b)[|a|..|a| + |x|];
    assert y == (a + y + b)[|a|..|a| + |y|];
  }

  /** Every number gives a different name, so the numbering cannot run in circles. */
  lemma CandidateInjective(path: Path, device: string, stamp: string, n: nat, m: nat)
    requires n >= 1 && m >= 1
    requires Candidate(path, device, stamp, n) == Candidate(path, device, stamp, m)
    ensures n == m
  {
    var name := FileName(path);
    var a := Stem(name) + (" (conflict from " + device + " " + stamp + ")");
    var k := |Dir(path)|;
    assert Candidate(path, device, stamp, n)[k] == Candidate(path, device, stamp, m)[k];
    MiddleOfConcat(a, Ordinal(n), Ordinal(m), Extension(name));
    if n != 1 && m != 1 {
      assert Decimal(n) == Ordinal(n)[1..] && Decimal(m) == Ordinal(m)[1..];
      DecimalInjective(n, m);
    }
  }

  const COPY_MARK := " (conflict from "

  /** A name that shows where it comes from, longer than the name it was made from. */
  ghost predicate IsCopyName(copy: string, name: string) {
    |copy| > |name| && HasCopyMark(copy)
  }

  ghost predicate HasCopyMark(s: string) {
    exists i :: MarkAt(s, i)
  }

  predicate MarkAt(s: string, i: int) {
    0 <= i && i + |COPY_MARK| <= |s| && s[i..i + |COPY_MARK|] == COPY_MARK
  }

  lemma CopyNameShape(name: string, device: string, stamp: string, n: nat)
    ensures |CopyName(name, device, stamp, n)| > 5 && IsCopyName(CopyName(name, device, stamp, n), name)
    ensures '/' !in name && '/' !in device && '/' !in stamp ==> ValidComponent(CopyName(name, device, stamp, n))
  {
    var middle := " (conflict from " + device + " " + stamp + ")";
    assert |middle| > 5 && middle[..|COPY_MARK|] == COPY_MARK;
    MarkInside(Stem(name), middle, Ordinal(n) + Extension(name));
    assert CopyName(name, device, stamp, n) == Stem(name) + middle + (Ordinal(n) + Extension(name));
    if '/' !in name && '/' !in device && '/' !in stamp {
      assert '/' !in " (conflict from " + device + " " + stamp + ")";
    }
  }

  lemma MarkInside(a: string, middle: string, b: string)
    requires |middle| >= |COPY_MARK| && middle[..|COPY_MARK|] == COPY_MARK
    ensures HasCopyMark(a + middle + b)
  {
    var s := a + middle + b;
    assert s[|a|..|a| + |COPY_MARK|] == middle[..|COPY_MARK|];
    assert MarkAt(s, |a|);
  }

  /** A candidate stays in the contested file's directory, never names `.git` and
      is a usable path as long as the label and the stamp carry no separator. */
  lemma CandidateShape(path: Path, device: string, stamp: string, n: nat)
    requires path != []
    ensures var c := Candidate(path, device, stamp, n);
            && |c| == |path| && Dir(c) == Dir(path) && |FileName(c)| > 5 && IsCopyName(FileName(c), FileName(path))
            && (ValidPath(path) && '/' !in device && '/' !in stamp ==> ValidPath(c))
  {
    CopyNameShape(FileName(path), device, stamp, n);
    var c := Candidate(path, device, stamp, n);
    var last := CopyName(FileName(path), device, stamp, n);
    assert c == Dir(path) + [last];
    hide CopyName, IsCopyName;
    if ValidPath(path) && '/' !in device && '/' !in stamp {
      assert ValidComponent(path[|path| - 1]);
      assert ValidComponent(last);
      assert forall i :: 0 <= i < |c| - 1 ==> c[i] == path[i];
    }
  }

  // ---------- what a copy is called ----------

  /** A character that cannot stand in a path component becomes an underscore. */
  predicate IsReplacement(r: char, c: char) {
    r == if c == '/' || c == '\\' || c as int < 32 || 127 <= c as int < 160 then '_' else c
  }

  /** The code points that Unicode lists as white space. */
  lemma WhitespaceCodes(c: char)
    ensures IsWhitespace(c) <==>
      || c as int in {0x9, 0xA, 0xB, 0xC, 0xD, 0x20, 0x85, 0xA0, 0x1680}
      || c as int in {0x2000, 0x2001, 0x2002, 0x2003, 0x2004, 0x2005, 0x2006, 0x2007, 0x2008, 0x2009, 0x200A}
      || c as int in {0x2028, 0x2029, 0x202F, 0x205F, 0x3000}
  {
  }

  lemma {:induction false} TrimStartIs(s: string) returns (i: nat)
    ensures i <= |s| && TrimStart(s) == s[i..] && (forall k :: 0 <= k < i ==> IsWhitespace(s[k]))
    ensures i < |s| ==> !IsWhitespace(s[i])
  {
    i := 0;
    if s != "" && IsWhitespace(s[0]) {
      var j := TrimStartIs(s[1..]);
      i := j + 1;
      assert s[1..][j..] == s[i..];
      assert forall k :: 0 < k < i ==> s[k] == s[1..][k - 1];
    }
  }

  lemma {:induction false} TrimEndIs(s: string) returns (j: nat)
    ensures j <= |s| && TrimEnd(s) == s[..j] && (forall k :: j <= k < |s| ==> IsWhitespace(s[k]))
    ensures j > 0 ==> !IsWhitespace(s[j - 1])
  {
    j := |s|;
    if s != "" && IsWhitespace(s[|s| - 1]) {
      j := TrimEndIs(s[..|s| - 1]);
      assert s[..|s| - 1][..j] == s[..j];
    }
  }

  /** The label is the device's name between the spaces around it, character by character but for
      separators and control characters; only a name of nothing but spaces has another. */
  lemma LabelIsTheName(device: string) returns (i: nat, j: nat)
    ensures i <= j <= |device|
    ensures forall k :: 0 <= k < |device| && !(i <= k < j) ==> IsWhitespace(device[k])
    ensures var tag := SanitizeDevice(device);
      if i == j then tag == "device"
      else |tag| == j - i && (forall k :: 0 <= k < j - i ==> IsReplacement(tag[k], device[i + k]))
           && !IsWhitespace(tag[0]) && !IsWhitespace(tag[j - i - 1])
  {
    hide TrimStart, TrimEnd, Cleaned;
    var clean := Cleaned(device);
    i, j := TrimIs(clean);
    assert SanitizeDevice(device) == if i == j then "device" else clean[i..j];
    hide SanitizeDevice;
    forall k | 0 <= k < |device|
      ensures IsReplacement(clean[k], device[k]) && (IsWhitespace(clean[k]) ==> clean[k] == device[k])
    {
      CleanedChar(device[k]);
    }
    hide IsWhitespace, CleanChar, IsReplacement;
  }

  lemma CleanedChar(c: char)
    ensures IsReplacement(CleanChar(c), c) && (IsWhitespace(CleanChar(c)) ==> CleanChar(c) == c)
  {
  }

  lemma TrimIs(s: string) returns (i: nat, j: nat)
    ensures i <= j <= |s| && TrimEnd(TrimStart(s)) == s[i..j]
    ensures forall k :: 0 <= k < |s| && !(i <= k < j) ==> IsWhitespace(s[k])
    ensures i < j ==> !IsWhitespace(s[i]) && !IsWhitespace(s[j - 1])
  {
    hide IsWhitespace;
    i := TrimStartIs(s);
    var rest := s[i..];
    var n := TrimEndIs(rest);
    j := i + n;
    assert rest[..n] == s[i..j];
    forall k | j <= k < |s|
      ensures IsWhitespace(s[k])
    {
      assert s[k] == rest[k - i];
    }
  }

  /** A name that needs no change is its own label. */
  lemma PlainNameIsItsLabel(device: string)
    requires device != "" && !IsWhitespace(device[0]) && !IsWhitespace(device[|device| - 1])
    requires forall k :: 0 <= k < |device| ==> IsReplacement(device[k], device[k])
    ensures SanitizeDevice(device) == device
  {
    var i, j := LabelIsTheName(device);
    hide IsWhitespace, SanitizeDevice;
    assert i == 0 && j == |device|;
  }

  /** What a decimal numeral stands for. */
  function Numeral(s: string): int {
    if s == "" then 0 else 10 * Numeral(s[..|s| - 1]) + (s[|s| - 1] as int - '0' as int)
  }

  lemma {:induction false} DecimalIsNumeral(n: nat)
    ensures Numeral(Decimal(n)) == n
    ensures forall c :: c in Decimal(n) ==> '0' <= c <= '9'
    ensures n > 0 ==> Decimal(n)[0] != '0'
  {
    if n >= 10 {
      DecimalIsNumeral(n / 10);
      assert Decimal(n)[..|Decimal(n)| - 1] == Decimal(n / 10);
    } else {
      assert Decimal(n)[..0] == "";
    }
  }

  /** The copy of `stem.ext` keeps its extension last, after the mark, the label, the stamp and, from
      the second copy on, a number. A name without a dot, or with a leading one only, is all stem. */
  lemma CopyIsCalled(stem: string, ext: string, device: string, stamp: string, n: nat)
    requires n >= 1
    ensures var middle := (" (conflict from " + device + " " + stamp + ")") + if n == 1 then "" else " " + Decimal(n);
      && (stem != "" && '.' !in ext ==> CopyName(stem + ("." + ext), device, stamp, n) == stem + middle + ("." + ext))
      && (stem == "" || '.' !in stem[1..] ==> CopyName(stem, device, stamp, n) == stem + middle)
  {
    var note := " (conflict from " + device + " " + stamp + ")";
    if stem != "" && '.' !in ext {
      DottedName(stem, ext);
      Reassociate(stem, note, Ordinal(n), "." + ext);
    }
    if stem == "" || '.' !in stem[1..] {
      PlainName(stem);
      Reassociate(stem, note, Ordinal(n), "");
    }
    hide Stem, Extension, Decimal;
  }

  lemma Reassociate(a: string, b: string, c: string, d: string)
    ensures a + b + c + d == a + (b + c) + d
    ensures d == "" ==> a + b + c + d == a + (b + c)
  {
  }

  lemma DottedName(stem: string, ext: string)
    requires stem != "" && '.' !in ext
    ensures Stem(stem + ("." + ext)) == stem && Extension(stem + ("." + ext)) == "." + ext
  {
    hide LastIndexOf;
    var name := stem + ("." + ext);
    assert name[|stem|] == '.';
    forall k | |stem| < k < |name|
      ensures name[k] != '.'
    {
      assert name[k] == ("." + ext)[k - |stem|] == ext[k - |stem| - 1];
    }
    var dot := LastIndexOf(name, '.');
    assert dot == |stem|;
    assert name[..dot] == stem && name[dot..] == "." + ext;
  }

  lemma PlainName(name: string)
    requires name == "" || '.' !in name[1..]
    ensures Stem(name) == name && Extension(name) == ""
  {
    hide LastIndexOf;
    forall k | 0 < k < |name|
      ensures name[k] != '.'
    {
      assert name[k] == name[1..][k - 1];
    }
  }

  // ---------- the name space ----------

  /** The keys of both inputs and every directory above one of them. */
  ghost function Reserved(local: Files, remote: Files): set<Path> {
    WithAncestors(local.Keys + remote.Keys)
  }

  ghost function WithAncestors(keys: set<Path>): set<Path> {
    keys + (set p, q | p in keys && q in Ancestors(p) :: q)
  }

  function Ancestors(path: Path): set<Path> {
    set n | 0 < n < |path| :: path[..n]
  }

  lemma ReservedMembers(local: Files, remote: Files, q: Path)
    ensures q in Reserved(local, remote)
       <==> exists p :: (p in local || p in remote) && (q == p || (q != [] && q < p))
  {
    if p :| (p in local || p in remote) && q != [] && q < p {
      assert q == p[..|q|] && q in Ancestors(p) && p in local.Keys + remote.Keys;
    }
  }

  /** `name` is the first numbered candidate that is not taken. */
  ghost predicate IsClaim(taken: set<Path>, path: Path, device: string, stamp: string, name: Path) {
    exists n: nat :: n >= 1 && IsFirstFree(taken, path, device, stamp, name, n)
  }

  ghost predicate IsFirstFree(taken: set<Path>, path: Path, device: string, stamp: string, name: Path, n: nat) {
    && name == Candidate(path, device, stamp, n)
    && name !in taken
    && forall k: nat :: 1 <= k < n ==> Candidate(path, device, stamp, k) in taken
  }

  lemma ClaimIsUnique(taken: set<Path>, path: Path, device: string, stamp: string, a: Path, b: Path)
    requires IsClaim(taken, path, device, stamp, a) && IsClaim(taken, path, device, stamp, b)
    ensures a == b
  {
    var n: nat :| n >= 1 && IsFirstFree(taken, path, device, stamp, a, n);
    var m: nat :| m >= 1 && IsFirstFree(taken, path, device, stamp, b, m);
    assert a == Candidate(path, device, stamp, n) && b == Candidate(path, device, stamp, m);
  }

  lemma ClaimShape(taken: set<Path>, path: Path, device: string, stamp: string, name: Path)
    requires path != [] && IsClaim(taken, path, device, stamp, name)
    ensures name !in taken
    ensures |name| == |path| && Dir(name) == Dir(path) && |FileName(name)| > 5
    ensures IsCopyName(FileName(name), FileName(path))
    ensures ValidPath(path) && '/' !in device && '/' !in stamp ==> ValidPath(name)
  {
    var n: nat :| n >= 1 && IsFirstFree(taken, path, device, stamp, name, n);
    CandidateShape(path, device, stamp, n);
  }

  class NameSpace {
    var taken: set<Path>

    constructor (local: Files, remote: Files)
      ensures taken == Reserved(local, remote)
    {
      taken := {};
      new;
      var keys := local.Keys + remote.Keys;
      var todo := keys;
      while todo != {}
        invariant todo <= keys
        invariant taken == WithAncestors(keys - todo)
        decreases todo
      {
        var path :| path in todo;
        Take(path);
        assert keys - (todo - {path}) == (keys - todo) + {path};
        todo := todo - {path};
      }
      assert keys - todo == keys;
    }

    /** Marks a key and, climbing one `/` at a time, every directory above it. */
    method Take(path: Path)
      modifies this
      ensures taken == old(taken) + {path} + Ancestors(path)
    {
      taken := taken + {path};
      var rest := path;
      while |rest| > 1
        invariant rest <= path
        invariant |rest| >= 1 || rest == path
        invariant taken == old(taken) + {path} + (set n | |rest| <= n < |path| :: path[..n])
      {
        rest := rest[..|rest| - 1];
        taken := taken + {rest};
        assert rest == path[..|rest|];
      }
    }

    /** Takes the first free candidate. The loop stops because the candidates are
        pairwise different and only finitely many names are taken. */
    method Claim(path: Path, device: string, stamp: string) returns (name: Path)
      modifies this
      ensures IsClaim(old(taken), path, device, stamp, name)
      ensures taken == old(taken) + {name}
    {
      hide Candidate;
      var n := 1;
      ghost var tried: set<Path> := {};
      while true
        invariant n >= 1 && |tried| == n - 1 && tried <= taken == old(taken)
        invariant forall k: nat :: 1 <= k < n ==> Candidate(path, device, stamp, k) in tried
        invariant forall q :: q in tried ==> exists k: nat :: 1 <= k < n && q == Candidate(path, device, stamp, k)
        decreases |taken| - |tried|
      {
        name := Candidate(path, device, stamp, n);
        if name !in taken {
          assert IsFirstFree(old(taken), path, device, stamp, name, n);
          taken := taken + {name};
          return;
        }
        if name in tried {
          var k: nat :| 1 <= k < n && name == Candidate(path, device, stamp, k);
          CandidateInjective(path, device, stamp, k, n);
          assert false;
        }
        tried := tried + {name};
        SubsetSize(tried, taken);
        n := n + 1;
      }
    }
  }

  lemma {:induction false} SubsetSize<T>(a: set<T>, b: set<T>)
    requires a <= b
    ensures |a| <= |b|
  {
    if a != {} {
      var x :| x in a;
      SubsetSize(a - {x}, b - {x});
    }
  }
}
