/** The base64 codec that carries encrypted manifests (crates/core/src/crypto.rs);
    the alphabet and padding are those of section 4 of RFC 4648. */
module Base64 {
  import opened Manifests
  import opened Bytes

  datatype DecodeError = BadLength | BadPadding | BadByte(c: char)

  function Symbol(v: nat): char
    requires v < 64
  {
    if v < 26 then ('A' as int + v) as char
    else if v < 52 then ('a' as int + v - 26) as char
    else if v < 62 then ('0' as int + v - 52) as char
    else if v == 62 then '+' else '/'
  }

  function ValueOf(c: char): Option<nat> {
    if 'A' <= c <= 'Z' then Some(c as int - 'A' as int)
    else if 'a' <= c <= 'z' then Some(c as int - 'a' as int + 26)
    else if '0' <= c <= '9' then Some(c as int - '0' as int + 52)
    else if c == '+' then Some(62)
    else if c == '/' then Some(63)
    else None
  }

  /** The alphabet has no repeats and no padding character. */
  lemma SymbolsAreInjective(v: nat)
    requires v < 64
    ensures ValueOf(Symbol(v)) == Some(v) && Symbol(v) != '='
  {
  }

  lemma ValuesAreInjective(c: char)
    requires ValueOf(c).Some?
    ensures ValueOf(c).value < 64 && Symbol(ValueOf(c).value) == c && c != '='
  {
  }

  // ---------- one group ----------

  /** Up to three bytes as one number, missing bytes standing for zero. */
  function Packed(chunk: seq<Byte>): (n: nat)
    requires 1 <= |chunk| <= 3
  {
    var b0: nat, b1: nat, b2: nat :=
      chunk[0], if |chunk| > 1 then chunk[1] else 0, if |chunk| > 2 then chunk[2] else 0;
    b0 * 65536 + b1 * 256 + b2
  }

  function EncodeGroup(chunk: seq<Byte>): (s: string)
    requires 1 <= |chunk| <= 3
    ensures |s| == 4
  {
    var n := Packed(chunk);
    [Symbol(n / 262144 % 64), Symbol(n / 4096 % 64),
     if |chunk| > 1 then Symbol(n / 64 % 64) else '=',
     if |chunk| > 2 then Symbol(n % 64) else '=']
  }

  function Padding(group: string): nat
    requires |group| == 4
  {
    (if group[0] == '=' then 1 else 0) + (if group[1] == '=' then 1 else 0)
    + (if group[2] == '=' then 1 else 0) + (if group[3] == '=' then 1 else 0)
  }

  predicate WellPadded(group: string, last: bool)
    requires |group| == 4
  {
    var pad := Padding(group);
    pad > 0 ==> last && pad <= 2 && forall i :: 4 - pad <= i < 4 ==> group[i] == '='
  }

  /** The six bits of position `i`, a padding position standing for zero. */
  function Sextet(group: string, i: nat): Option<nat>
    requires |group| == 4 && i < 4
  {
    if ValueOf(group[i]).Some? then ValueOf(group[i])
    else if group[i] == '=' && i >= 4 - Padding(group) then Some(0)
    else None
  }

  function FirstBad(group: string, i: nat): Option<char>
    requires |group| == 4 && i <= 4
    decreases 4 - i
  {
    if i == 4 then None else if Sextet(group, i) == None then Some(group[i]) else FirstBad(group, i + 1)
  }

  function DecodeGroup(group: string, last: bool): Result<seq<Byte>, DecodeError>
    requires |group| == 4
  {
    if !WellPadded(group, last) then Err(BadPadding)
    else if FirstBad(group, 0).Some? then Err(BadByte(FirstBad(group, 0).value))
    else
      var n := ((Sextet(group, 0).value * 64 + Sextet(group, 1).value) * 64
                + Sextet(group, 2).value) * 64 + Sextet(group, 3).value;
      var pad := Padding(group);
      Ok([n / 65536 % 256] + (if pad < 2 then [n / 256 % 256] else []) + (if pad < 1 then [n % 256] else []))
  }

  // ---------- whole texts ----------

  function Encoded(bytes: seq<Byte>): string {
    if bytes == [] then ""
    else if |bytes| <= 3 then EncodeGroup(bytes)
    else EncodeGroup(bytes[..3]) + Encoded(bytes[3..])
  }

  function DecodedGroups(s: string): Result<seq<Byte>, DecodeError>
    requires |s| % 4 == 0
  {
    if s == "" then Ok([])
    else
      var head := DecodeGroup(s[..4], |s| == 4);
      if head.Err? then head
      else
        var rest := DecodedGroups(s[4..]);
        if rest.Err? then rest else Ok(head.value + rest.value)
  }

  function Decoded(s: string): Result<seq<Byte>, DecodeError> {
    if |s| % 4 != 0 then Err(BadLength) else DecodedGroups(s)
  }

  method Encode(bytes: seq<Byte>) returns (out: string)
    ensures out == Encoded(bytes)
  {
    hide EncodeGroup;
    out := "";
    var i := 0;
    while i < |bytes|
      invariant 0 <= i <= |bytes|
      invariant out + Encoded(bytes[i..]) == Encoded(bytes)
      decreases |bytes| - i
    {
      var end := if i + 3 <= |bytes| then i + 3 else |bytes|;
      assert bytes[i..][..end - i] == bytes[i..end] && bytes[i..][end - i..] == bytes[end..];
      assert end == |bytes| ==> bytes[i..end] == bytes[i..] && bytes[end..] == [];
      assert Encoded(bytes[i..]) == EncodeGroup(bytes[i..end]) + Encoded(bytes[end..]);
      out := out + EncodeGroup(bytes[i..end]);
      i := end;
    }
  }

  method Decode(s: string) returns (r: Result<seq<Byte>, DecodeError>)
    ensures r == Decoded(s)
  {
    hide DecodeGroup;
    if |s| % 4 != 0 {
      return Err(BadLength);
    }
    var out: seq<Byte> := [];
    var i := 0;
    assert s[0..] == s;
    assert DecodedGroups(s).Ok? ==> [] + DecodedGroups(s).value == DecodedGroups(s).value;
    while i < |s|
      invariant 0 <= i <= |s| && i % 4 == 0
      invariant DecodedGroups(s) == Prepend(out, DecodedGroups(s[i..]))
    {
      NextGroup(s, i, out);
      var group := DecodeGroup(s[i..i + 4], i + 4 == |s|);
      if group.Err? {
        return group;
      }
      out := out + group.value;
      i := i + 4;
    }
    assert out + [] == out;
    r := Ok(out);
  }

  function Prepend(head: seq<Byte>, rest: Result<seq<Byte>, DecodeError>): Result<seq<Byte>, DecodeError> {
    if rest.Err? then rest else Ok(head + rest.value)
  }

  lemma NextGroup(s: string, i: nat, out: seq<Byte>)
    requires |s| % 4 == 0 && i % 4 == 0 && i < |s|
    ensures var group := DecodeGroup(s[i..i + 4], i + 4 == |s|);
            Prepend(out, DecodedGroups(s[i..]))
            == if group.Err? then group else Prepend(out + group.value, DecodedGroups(s[i + 4..]))
  {
    hide DecodeGroup;
    assert s[i..][..4] == s[i..i + 4] && s[i..][4..] == s[i + 4..];
    var group := DecodeGroup(s[i..i + 4], i + 4 == |s|);
    var rest := DecodedGroups(s[i + 4..]);
    if group.Ok? && rest.Ok? {
      assert out + (group.value + rest.value) == (out + group.value) + rest.value;
    }
  }

  // ---------- decode after encode ----------

  /** The four sextets of three bytes, in order. */
  lemma SextetsOf(b0: nat, b1: nat, b2: nat)
    requires b0 < 256 && b1 < 256 && b2 < 256
    ensures var n := b0 * 65536 + b1 * 256 + b2;
            && n / 262144 % 64 == b0 / 4
            && n / 4096 % 64 == b0 % 4 * 16 + b1 / 16
            && n / 64 % 64 == b1 % 16 * 4 + b2 / 64
            && n % 64 == b2 % 64
  {
    var n := b0 * 65536 + b1 * 256 + b2;
    var a, b, c, d, e, f := b0 / 4, b0 % 4, b1 / 16, b1 % 16, b2 / 64, b2 % 64;
    DivisionIsUnique(n, 262144, a, b * 65536 + b1 * 256 + b2);
    DivisionIsUnique(n, 4096, a * 64 + b * 16 + c, d * 256 + b2);
    DivisionIsUnique(n, 64, a * 4096 + b * 1024 + c * 64 + d * 4 + e, f);
    DivisionIsUnique(a * 64 + b * 16 + c, 64, a, b * 16 + c);
    DivisionIsUnique(a * 4096 + b * 1024 + c * 64 + d * 4 + e, 64, a * 64 + b * 16 + c, d * 4 + e);
  }

  /** The three bytes of four sextets, in order. */
  lemma BytesOf(v0: nat, v1: nat, v2: nat, v3: nat)
    requires v0 < 64 && v1 < 64 && v2 < 64 && v3 < 64
    ensures var n := ((v0 * 64 + v1) * 64 + v2) * 64 + v3;
            && n / 65536 % 256 == v0 * 4 + v1 / 16
            && n / 256 % 256 == v1 % 16 * 16 + v2 / 4
            && n % 256 == v2 % 4 * 64 + v3
  {
    var n := ((v0 * 64 + v1) * 64 + v2) * 64 + v3;
    var a, b, c, d := v1 / 16, v1 % 16, v2 / 4, v2 % 4;
    DivisionIsUnique(n, 65536, v0 * 4 + a, b * 4096 + v2 * 64 + v3);
    DivisionIsUnique(n, 256, v0 * 1024 + v1 * 16 + c, d * 64 + v3);
    DivisionIsUnique(v0 * 4 + a, 256, 0, v0 * 4 + a);
    DivisionIsUnique(v0 * 1024 + v1 * 16 + c, 256, v0 * 4 + a, b * 16 + c);
  }

  /** The sextets of a chunk survive a trip through their symbols. */
  lemma GroupSextets(chunk: seq<Byte>)
    requires 1 <= |chunk| <= 3
    ensures var s := EncodeGroup(chunk);
            && Padding(s) == 3 - |chunk|
            && (forall i :: 4 - Padding(s) <= i < 4 ==> s[i] == '=')
            && Sextet(s, 0) == Some(Packed(chunk) / 262144 % 64)
            && Sextet(s, 1) == Some(Packed(chunk) / 4096 % 64)
            && Sextet(s, 2) == Some(if |chunk| > 1 then Packed(chunk) / 64 % 64 else 0)
            && Sextet(s, 3) == Some(if |chunk| > 2 then Packed(chunk) % 64 else 0)
  {
    var n := Packed(chunk);
    SymbolsAreInjective(n / 262144 % 64);
    SymbolsAreInjective(n / 4096 % 64);
    SymbolsAreInjective(n / 64 % 64);
    SymbolsAreInjective(n % 64);
    assert ValueOf('=') == None;
    hide Symbol, ValueOf, Packed;
  }

  /** A well padded group of known sextets decodes to their bytes. */
  lemma DecodeKnown(group: string, last: bool, v0: nat, v1: nat, v2: nat, v3: nat)
    requires |group| == 4 && WellPadded(group, last)
    requires v0 < 64 && v1 < 64 && v2 < 64 && v3 < 64
    requires Sextet(group, 0) == Some(v0) && Sextet(group, 1) == Some(v1)
    requires Sextet(group, 2) == Some(v2) && Sextet(group, 3) == Some(v3)
    ensures var pad := Padding(group);
            DecodeGroup(group, last) == Ok([v0 * 4 + v1 / 16] + (if pad < 2 then [v1 % 16 * 16 + v2 / 4] else [])
                                           + (if pad < 1 then [v2 % 4 * 64 + v3] else []))
  {
    BytesOf(v0, v1, v2, v3);
    hide Sextet, WellPadded, Padding;
    assert FirstBad(group, 4) == FirstBad(group, 3) == FirstBad(group, 2) == FirstBad(group, 1) == None;
  }

  /** Sextets put back together; `b1` and `b2` are zero where the chunk is short. */
  lemma Reassemble(b0: nat, b1: nat, b2: nat)
    requires b0 < 256 && b1 < 256 && b2 < 256
    ensures var v1, v2 := b0 % 4 * 16 + b1 / 16, b1 % 16 * 4 + b2 / 64;
            b0 / 4 * 4 + v1 / 16 == b0 && v1 % 16 * 16 + v2 / 4 == b1 && v2 % 4 * 64 + b2 % 64 == b2
            && v1 < 64 && v2 < 64
  {
    DivisionIsUnique(b0 % 4 * 16 + b1 / 16, 16, b0 % 4, b1 / 16);
    DivisionIsUnique(b1 % 16 * 4 + b2 / 64, 4, b1 % 16, b2 / 64);
  }

  /** The bytes of a chunk, absent ones standing for zero. */
  function At(chunk: seq<Byte>, i: nat): nat {
    if i < |chunk| then chunk[i] else 0
  }

  lemma EncodedSextets(chunk: seq<Byte>)
    requires 1 <= |chunk| <= 3
    ensures var s, b0, b1, b2 := EncodeGroup(chunk), At(chunk, 0), At(chunk, 1), At(chunk, 2);
            && Padding(s) == 3 - |chunk|
            && (forall i :: 4 - Padding(s) <= i < 4 ==> s[i] == '=')
            && Sextet(s, 0) == Some(b0 / 4)
            && Sextet(s, 1) == Some(b0 % 4 * 16 + b1 / 16)
            && Sextet(s, 2) == Some(if |chunk| > 1 then b1 % 16 * 4 + b2 / 64 else 0)
            && Sextet(s, 3) == Some(if |chunk| > 2 then b2 % 64 else 0)
  {
    GroupSextets(chunk);
    SextetsOf(At(chunk, 0), At(chunk, 1), At(chunk, 2));
    assert Packed(chunk) == At(chunk, 0) * 65536 + At(chunk, 1) * 256 + At(chunk, 2);
  }

  lemma GroupRoundTrip(chunk: seq<Byte>, last: bool)
    requires 1 <= |chunk| <= 3 && (last || |chunk| == 3)
    ensures DecodeGroup(EncodeGroup(chunk), last) == Ok(chunk)
  {
    hide EncodeGroup, DecodeGroup, Sextet, Padding;
    var s, b0, b1, b2 := EncodeGroup(chunk), At(chunk, 0), At(chunk, 1), At(chunk, 2);
    EncodedSextets(chunk);
    assert WellPadded(s, last);
    hide WellPadded;
    Reassemble(b0, b1, b2);
    var v0, v1 := b0 / 4, b0 % 4 * 16 + b1 / 16;
    var v2 := if |chunk| > 1 then b1 % 16 * 4 + b2 / 64 else 0;
    var v3 := if |chunk| > 2 then b2 % 64 else 0;
    DecodeKnown(s, last, v0, v1, v2, v3);
    assert chunk == [b0] + (if |chunk| > 1 then [b1] else []) + (if |chunk| > 2 then [b2] else []);
  }

  lemma SingleGroup(s: string)
    requires |s| == 4
    ensures Decoded(s) == DecodeGroup(s, true)
  {
    hide DecodeGroup;
    assert s[..4] == s && s[4..] == "";
    assert DecodedGroups("") == Ok([]);
    var head := DecodeGroup(s, true);
    assert head.Ok? ==> head.value + [] == head.value;
    assert DecodedGroups(s) == if head.Err? then head else Ok(head.value + []);
  }

  /** Decoding inverts encoding on every byte sequence. */
  lemma {:induction false} RoundTrip(bytes: seq<Byte>)
    ensures Decoded(Encoded(bytes)) == Ok(bytes)
  {
    hide EncodeGroup, DecodeGroup;
    EncodedLength(bytes);
    if bytes == [] {
    } else if |bytes| <= 3 {
      GroupRoundTrip(bytes, true);
      SingleGroup(Encoded(bytes));
    } else {
      var head, rest := EncodeGroup(bytes[..3]), Encoded(bytes[3..]);
      EncodedLength(bytes[3..]);
      GroupRoundTrip(bytes[..3], false);
      RoundTrip(bytes[3..]);
      assert (head + rest)[..4] == head && (head + rest)[4..] == rest;
      assert bytes[..3] + bytes[3..] == bytes;
    }
  }

  lemma {:induction false} EncodedLength(bytes: seq<Byte>)
    ensures |Encoded(bytes)| == (|bytes| + 2) / 3 * 4
  {
    hide EncodeGroup;
    if |bytes| > 3 {
      EncodedLength(bytes[3..]);
    }
  }

  // ---------- the text itself ----------

  /** The alphabet of section 4 of RFC 4648, in the order of the values. */
  function Alphabet(): (r: string)
    ensures |r| == 64
  {
    "ABCDEFGHIJKLMNOPQRSTUVWXYZ" + "abcdefghijklmnopqrstuvwxyz" + "0123456789" + "+/"
  }

  lemma SymbolsAreTheAlphabet(v: nat)
    requires v < 64
    ensures Symbol(v) == Alphabet()[v]
  {
    var upper, lower, digits := "ABCDEFGHIJKLMNOPQRSTUVWXYZ", "abcdefghijklmnopqrstuvwxyz", "0123456789";
    assert v < 26 ==> upper[v] == Symbol(v);
    assert 26 <= v < 52 ==> lower[v - 26] == Symbol(v);
    assert 52 <= v < 62 ==> digits[v - 52] == Symbol(v);
  }

  /** The text of up to three bytes: their bits, six at a time from the highest on, a byte that is
      not there standing for zero bits; padding for the symbols that hold no bit of a byte. */
  predicate IsTextOf(s: string, n: nat, b0: nat, b1: nat, b2: nat)
    requires n >= 1 && b0 < 256 && b1 < 256 && b2 < 256
  {
    && |s| == 4
    && s[0] == Alphabet()[b0 / 4]
    && s[1] == Alphabet()[b0 % 4 * 16 + b1 / 16]
    && s[2] == (if n > 1 then Alphabet()[b1 % 16 * 4 + b2 / 64] else '=')
    && s[3] == (if n > 2 then Alphabet()[b2 % 64] else '=')
  }

  /** The bytes from `3 * g` on become the four symbols from `4 * g` on. */
  lemma {:induction false} EncodesSixBitsAtATime(bytes: seq<Byte>, g: nat)
    requires 3 * g < |bytes|
    ensures |Encoded(bytes)| >= 4 * g + 4
    ensures IsTextOf(Encoded(bytes)[4 * g..4 * g + 4], |bytes| - 3 * g,
                     bytes[3 * g], At(bytes, 3 * g + 1), At(bytes, 3 * g + 2))
    decreases g
  {
    EncodedLength(bytes);
    hide EncodeGroup, IsTextOf;
    if g == 0 {
      var chunk := if |bytes| <= 3 then bytes else bytes[..3];
      GroupText(chunk);
      assert Encoded(bytes)[..4] == EncodeGroup(chunk);
      if |bytes| > 3 {
        LongerIsAlike(EncodeGroup(chunk), |bytes|, bytes[0], bytes[1], bytes[2]);
      }
    } else {
      EncodesSixBitsAtATime(bytes[3..], g - 1);
      var rest := Encoded(bytes[3..]);
      assert Encoded(bytes) == EncodeGroup(bytes[..3]) + rest;
      assert Encoded(bytes)[4 * g..4 * g + 4] == rest[4 * (g - 1)..4 * (g - 1) + 4];
    }
  }

  lemma LongerIsAlike(s: string, n: nat, b0: nat, b1: nat, b2: nat)
    requires n >= 3 && b0 < 256 && b1 < 256 && b2 < 256
    ensures IsTextOf(s, n, b0, b1, b2) <==> IsTextOf(s, 3, b0, b1, b2)
  {
  }

  lemma GroupText(chunk: seq<Byte>)
    requires 1 <= |chunk| <= 3
    ensures IsTextOf(EncodeGroup(chunk), |chunk|, chunk[0], At(chunk, 1), At(chunk, 2))
  {
    hide Symbol, Alphabet;
    var b0, b1, b2 := At(chunk, 0), At(chunk, 1), At(chunk, 2);
    assert Packed(chunk) == b0 * 65536 + b1 * 256 + b2;
    hide Packed;
    SextetsOf(b0, b1, b2);
    var v0, v1, v2, v3 := b0 / 4, b0 % 4 * 16 + b1 / 16, b1 % 16 * 4 + b2 / 64, b2 % 64;
    SymbolsAreTheAlphabet(v0);
    SymbolsAreTheAlphabet(v1);
    SymbolsAreTheAlphabet(v2);
    SymbolsAreTheAlphabet(v3);
    assert EncodeGroup(chunk) == [Symbol(v0), Symbol(v1), if |chunk| > 1 then Symbol(v2) else '=',
                                  if |chunk| > 2 then Symbol(v3) else '='];
  }

  /** Padding is in order: there is none, or this is the last group and it ends in one padding
      character or in two, with no other. */
  predicate PaddedRight(group: string, last: bool)
    requires |group| == 4
  {
    && group[0] != '=' && group[1] != '='
    && (if group[2] == '=' then last && group[3] == '=' else group[3] == '=' ==> last)
  }

  lemma AlphabetValues(c: char)
    ensures c in Alphabet() <==> ValueOf(c).Some?
  {
    if ValueOf(c).Some? {
      SymbolsAreTheAlphabet(ValueOf(c).value);
    }
    if c in Alphabet() {
      var v :| 0 <= v < 64 && Alphabet()[v] == c;
      SymbolsAreTheAlphabet(v);
      SymbolsAreInjective(v);
    }
  }

  /** Why a group is refused: its padding is out of order, or else the first of its characters
      that is neither in the alphabet nor padding. */
  lemma RefusedIff(group: string, last: bool, c: char)
    requires |group| == 4
    ensures DecodeGroup(group, last) == Err(BadPadding) <==> !PaddedRight(group, last)
    ensures DecodeGroup(group, last) == Err(BadByte(c)) <==>
      && PaddedRight(group, last)
      && exists i :: 0 <= i < 4 && group[i] == c && IsStray(group, i) && forall k :: 0 <= k < i ==> !IsStray(group, k)
  {
    WellPaddedIff(group, last);
    forall i | 0 <= i < 4 && PaddedRight(group, last)
      ensures IsStray(group, i) <==> Sextet(group, i) == None
    {
      AlphabetValues(group[i]);
    }
    FirstBadIs(group, 0);
    hide Alphabet, ValueOf, Sextet, WellPadded, PaddedRight, IsStray, Padding, FirstBad;
  }

  lemma {:induction false} FirstBadIs(group: string, i: nat)
    requires |group| == 4 && i <= 4
    ensures if FirstBad(group, i) == None then forall k :: i <= k < 4 ==> Sextet(group, k) != None
            else exists k :: i <= k < 4 && group[k] == FirstBad(group, i).value && Sextet(group, k) == None
                             && forall j :: i <= j < k ==> Sextet(group, j) != None
    decreases 4 - i
  {
    hide Sextet;
    if i < 4 {
      FirstBadIs(group, i + 1);
    }
  }

  predicate IsStray(group: string, i: int)
    requires |group| == 4 && 0 <= i < 4
  {
    group[i] !in Alphabet() && group[i] != '='
  }

  lemma WellPaddedIff(group: string, last: bool)
    requires |group| == 4
    ensures WellPadded(group, last) <==> PaddedRight(group, last)
    ensures PaddedRight(group, last) ==> forall i :: 0 <= i < 4 ==> (group[i] == '=' <==> i >= 4 - Padding(group))
  {
  }

  // ---------- encode after decode ----------

  /** The bits that padding leaves over in the final group are zero. */
  predicate CanonicalGroup(group: string)
    requires |group| == 4
  {
    && (Padding(group) == 2 ==> ValueOf(group[1]).Some? && ValueOf(group[1]).value % 16 == 0)
    && (Padding(group) == 1 ==> ValueOf(group[2]).Some? && ValueOf(group[2]).value % 4 == 0)
  }

  predicate CanonicalTail(s: string) {
    |s| >= 4 ==> CanonicalGroup(s[|s| - 4..])
  }

  lemma AcceptedGroup(group: string, last: bool) returns (v0: nat, v1: nat, v2: nat, v3: nat)
    requires |group| == 4 && DecodeGroup(group, last).Ok?
    ensures WellPadded(group, last)
    ensures v0 < 64 && v1 < 64 && v2 < 64 && v3 < 64
    ensures Sextet(group, 0) == Some(v0) && Sextet(group, 1) == Some(v1)
    ensures Sextet(group, 2) == Some(v2) && Sextet(group, 3) == Some(v3)
  {
    assert FirstBad(group, 1) == FirstBad(group, 2) == FirstBad(group, 3) == None;
    v0, v1, v2, v3 := Sextet(group, 0).value, Sextet(group, 1).value, Sextet(group, 2).value, Sextet(group, 3).value;
  }

  lemma SextetSymbol(group: string, i: nat, v: nat)
    requires |group| == 4 && i < 4 && Sextet(group, i) == Some(v) && group[i] != '='
    ensures v < 64 && Symbol(v) == group[i] && ValueOf(group[i]) == Some(v)
  {
    ValuesAreInjective(group[i]);
  }

  lemma SymbolsDiffer(v: nat, w: nat)
    requires v < 64 && w < 64
    ensures Symbol(v) == Symbol(w) <==> v == w
  {
  }

  lemma GroupCanonical(group: string, last: bool)
    requires |group| == 4 && DecodeGroup(group, last).Ok?
    ensures |DecodeGroup(group, last).value| == 3 - Padding(group)
    ensures 1 <= |DecodeGroup(group, last).value| <= 3
    ensures EncodeGroup(DecodeGroup(group, last).value) == group <==> CanonicalGroup(group)
  {
    var v0, v1, v2, v3 := AcceptedGroup(group, last);
    var pad := Padding(group);
    assert pad <= 2 && (forall i :: 0 <= i < 4 ==> (group[i] == '=' <==> i >= 4 - pad)) by {
      hide DecodeGroup, EncodeGroup, Sextet;
    }
    DecodeKnown(group, last, v0, v1, v2, v3);
    SextetSymbol(group, 0, v0);
    SextetSymbol(group, 1, v1);
    if pad < 2 {
      SextetSymbol(group, 2, v2);
    } else {
      assert v2 == 0;
    }
    if pad < 1 {
      SextetSymbol(group, 3, v3);
    } else {
      assert v3 == 0;
    }
    hide DecodeGroup, WellPadded, Sextet, Padding;
    ReencodedGroup(group, pad, v0, v1, v2, v3);
  }

  lemma ReencodedSextets(pad: nat, v0: nat, v1: nat, v2: nat, v3: nat)
    requires pad <= 2 && v0 < 64 && v1 < 64 && v2 < 64 && v3 < 64
    ensures var b0 := v0 * 4 + v1 / 16;
            var b1 := if pad < 2 then v1 % 16 * 16 + v2 / 4 else 0;
            var b2 := if pad < 1 then v2 % 4 * 64 + v3 else 0;
            var n := b0 * 65536 + b1 * 256 + b2;
            && n / 262144 % 64 == v0
            && n / 4096 % 64 == v1 / 16 * 16 + (if pad < 2 then v1 % 16 else 0)
            && (pad < 2 ==> n / 64 % 64 == v2 / 4 * 4 + (if pad < 1 then v2 % 4 else 0))
            && (pad < 1 ==> n % 64 == v3)
  {
    var b0: nat := v0 * 4 + v1 / 16;
    var b1: nat := if pad < 2 then v1 % 16 * 16 + v2 / 4 else 0;
    var b2: nat := if pad < 1 then v2 % 4 * 64 + v3 else 0;
    SextetsOf(b0, b1, b2);
    DivisionIsUnique(b0, 4, v0, v1 / 16);
    DivisionIsUnique(b1, 16, if pad < 2 then v1 % 16 else 0, if pad < 2 then v2 / 4 else 0);
    DivisionIsUnique(b2, 64, if pad < 1 then v2 % 4 else 0, if pad < 1 then v3 else 0);
  }

  lemma ReencodedSymbols(pad: nat, v0: nat, v1: nat, v2: nat, v3: nat)
    requires pad <= 2 && v0 < 64 && v1 < 64 && v2 < 64 && v3 < 64
    ensures var d := [v0 * 4 + v1 / 16] + (if pad < 2 then [v1 % 16 * 16 + v2 / 4] else [])
                     + (if pad < 1 then [v2 % 4 * 64 + v3] else []);
            EncodeGroup(d) == [Symbol(v0), Symbol(if pad < 2 then v1 else v1 / 16 * 16),
                               if pad < 2 then Symbol(if pad < 1 then v2 else v2 / 4 * 4) else '=',
                               if pad < 1 then Symbol(v3) else '=']
  {
    hide Symbol;
    var b0: nat := v0 * 4 + v1 / 16;
    var b1: nat := if pad < 2 then v1 % 16 * 16 + v2 / 4 else 0;
    var b2: nat := if pad < 1 then v2 % 4 * 64 + v3 else 0;
    var d: seq<Byte> := [b0] + (if pad < 2 then [b1] else []) + (if pad < 1 then [b2] else []);
    assert Packed(d) == b0 * 65536 + b1 * 256 + b2;
    hide Packed;
    ReencodedSextets(pad, v0, v1, v2, v3);
  }

  lemma ReencodedGroup(group: string, pad: nat, v0: nat, v1: nat, v2: nat, v3: nat)
    requires |group| == 4 && pad == Padding(group) <= 2
    requires forall i :: 0 <= i < 4 ==> (group[i] == '=' <==> i >= 4 - pad)
    requires v0 < 64 && v1 < 64 && v2 < 64 && v3 < 64
    requires group[0] == Symbol(v0) && ValueOf(group[1]) == Some(v1) && group[1] == Symbol(v1)
    requires if pad < 2 then ValueOf(group[2]) == Some(v2) && group[2] == Symbol(v2) else v2 == 0
    requires if pad < 1 then group[3] == Symbol(v3) else v3 == 0
    ensures var d := [v0 * 4 + v1 / 16] + (if pad < 2 then [v1 % 16 * 16 + v2 / 4] else [])
                     + (if pad < 1 then [v2 % 4 * 64 + v3] else []);
            EncodeGroup(d) == group <==> CanonicalGroup(group)
  {
    ReencodedSymbols(pad, v0, v1, v2, v3);
    SymbolsDiffer(v1 / 16 * 16, v1);
    SymbolsDiffer(v2 / 4 * 4, v2);
    hide Symbol, ValueOf, EncodeGroup, Padding;
    assert group == [group[0], group[1], group[2], group[3]];
  }

  /** An accepted text is the encoding of what it decodes to exactly if its padding
      leaves no stray bits; the decoder does not check them. */
  lemma {:induction false} CanonicalIff(s: string)
    requires Decoded(s).Ok?
    ensures Encoded(Decoded(s).value) == s <==> CanonicalTail(s)
  {
    hide DecodeGroup, EncodeGroup, CanonicalGroup, Padding;
    if s != "" {
      var head := DecodeGroup(s[..4], |s| == 4).value;
      GroupCanonical(s[..4], |s| == 4);
      InnerGroup(s[..4]);
      if |s| == 4 {
        assert s[..4] == s && head + [] == head;
      } else {
        var rest := DecodedGroups(s[4..]).value;
        CanonicalIff(s[4..]);
        NonEmpty(s[4..]);
        assert (head + rest)[..3] == head && (head + rest)[3..] == rest;
        assert s[4..][|s| - 8..] == s[|s| - 4..];
        assert CanonicalGroup(s[..4]);
        assert Encoded(head + rest) == EncodeGroup(head) + Encoded(rest);
        assert s == s[..4] + s[4..];
        assert (s[..4] + Encoded(rest))[4..] == Encoded(rest);
      }
    }
  }

  lemma InnerGroup(group: string)
    requires |group| == 4
    ensures DecodeGroup(group, false).Ok? ==> Padding(group) == 0 && CanonicalGroup(group)
  {
  }

  lemma NonEmpty(s: string)
    requires |s| % 4 == 0 && s != "" && DecodedGroups(s).Ok?
    ensures DecodedGroups(s).value != []
  {
  }

  lemma GroupOfOneLetter(c: char, v: nat)
    requires v < 64 && ValueOf(c) == Some(v)
    ensures Decoded(['Q', c, '=', '=']) == Ok([64 + v / 16])
  {
    var group := ['Q', c, '=', '='];
    SingleGroup(group);
    assert c != '=';
    assert Padding(group) == 2;
    assert Sextet(group, 0) == Some(16);
    hide Padding, DecodeGroup, ValueOf;
    DecodeKnown(group, true, 16, v, 0, 0);
    assert [16 * 4 + v / 16] + [] + [] == [64 + v / 16];
  }

  /** Two texts that decode to the same byte. */
  lemma StrayBitsExample()
    ensures Decoded("QQ==") == Decoded("QR==") == Ok([65])
    ensures Encoded([65]) == "QQ=="
  {
    GroupOfOneLetter('Q', 16);
    GroupOfOneLetter('R', 17);
    assert Packed([65]) == 4259840;
  }
}
