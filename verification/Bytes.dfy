/** Bytes and little-endian integers, as the wire formats use them. */
module Bytes {

  type Byte = b: int | 0 <= b < 256

  function Pow256(n: nat): (p: nat)
    ensures p > 0
  {
    if n == 0 then 1 else 256 * Pow256(n - 1)
  }

  /** The low `width` bytes of `v`, least significant first: a wider value is cut off,
      as an integer cast in the source does. */
  function ToLittleEndian(v: nat, width: nat): (s: seq<Byte>)
    ensures |s| == width
  {
    if width == 0 then [] else [v % 256] + ToLittleEndian(v / 256, width - 1)
  }

  function FromLittleEndian(s: seq<Byte>): nat {
    if s == [] then 0 else s[0] + 256 * FromLittleEndian(s[1..])
  }

  /** Byte `i` counts for 256 to the power of `i`. */
  lemma {:induction false} LowestByteFirst(v: nat, width: nat, i: nat)
    requires i < width
    ensures ToLittleEndian(v, width)[i] == v / Pow256(i) % 256
  {
    if i > 0 {
      LowestByteFirst(v / 256, width - 1, i - 1);
      ModOfProduct(v, Pow256(i - 1));
      assert ToLittleEndian(v, width)[i] == ToLittleEndian(v / 256, width - 1)[i - 1];
    }
  }

  lemma {:induction false} LittleEndianRoundTrip(v: nat, width: nat)
    ensures FromLittleEndian(ToLittleEndian(v, width)) == v % Pow256(width)
  {
    if width > 0 {
      LittleEndianRoundTrip(v / 256, width - 1);
      var p := Pow256(width - 1);
      ModOfProduct(v, p);
      assert ToLittleEndian(v, width)[1..] == ToLittleEndian(v / 256, width - 1);
    }
  }

  lemma ModOfProduct(v: nat, p: nat)
    requires p > 0
    ensures v / (256 * p) == v / 256 / p
    ensures v % (256 * p) == v % 256 + 256 * ((v / 256) % p)
  {
    var q := v / 256 / p;
    var r := v % 256 + 256 * ((v / 256) % p);
    assert v / 256 == q * p + (v / 256) % p;
    assert v == (256 * p) * q + r;
    assert (v / 256) % p <= p - 1;
    assert 0 <= r < 256 * p;
    DivisionIsUnique(v, 256 * p, q, r);
  }

  lemma AtLeastOnce(d: int, k: int)
    requires d > 0 && k >= 1
    ensures d * k >= d
  {
  }

  /** The quotient and remainder are the only ones. */
  lemma DivisionIsUnique(v: int, d: int, q: int, r: int)
    requires d > 0 && v == d * q + r && 0 <= r < d
    ensures v / d == q && v % d == r
  {
    var q', r' := v / d, v % d;
    assert v == d * q' + r' && 0 <= r' < d;
    var gap := q - q';
    assert d * gap == r' - r by {
      assert d * gap == d * q - d * q';
    }
    if gap >= 1 {
      AtLeastOnce(d, gap);
    } else if gap <= -1 {
      AtLeastOnce(d, -gap);
    }
  }

  lemma {:induction false} FromLittleEndianRoundTrip(s: seq<Byte>)
    ensures FromLittleEndian(s) < Pow256(|s|)
    ensures ToLittleEndian(FromLittleEndian(s), |s|) == s
  {
    if s != [] {
      FromLittleEndianRoundTrip(s[1..]);
    }
  }
}
