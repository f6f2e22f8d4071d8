/**
 Bytes and the fixed-width big-endian integers of the wire format
 (`put_i32`, `get_i64`, ... in the primitive codecs).
 */
module Bytes {
  import opened Wrappers

  type Byte = b: int | 0 <= b < 256

  datatype CodecError = UnexpectedEof | InvalidData

  // The values of an n-byte unsigned integer are those below Pow256(n).
  function Pow256(n: nat): (p: nat)
    ensures p >= 1
  {
    if n == 0 then 1 else 256 * Pow256(n - 1)
  }

  function BigEndian(x: nat, n: nat): (r: seq<Byte>)
    ensures |r| == n
  {
    if n == 0 then [] else BigEndian(x / 256, n - 1) + [x % 256]
  }

  function FromBigEndian(s: seq<Byte>): nat {
    if s == [] then 0 else 256 * FromBigEndian(s[..|s| - 1]) + s[|s| - 1]
  }

  predicate InRange(x: int, signed: bool, n: nat) {
    if signed
    then -(Pow256(n) / 2) <= x < Pow256(n) / 2
    else 0 <= x < Pow256(n)
  }

  function EncodeInt(x: int, signed: bool, n: nat): (r: seq<Byte>)
    requires InRange(x, signed, n)
    ensures |r| == n
  {
    BigEndian(if x < 0 then x + Pow256(n) else x, n)
  }

  lemma {:induction false} BigEndianInverse(s: seq<Byte>)
    ensures FromBigEndian(s) < Pow256(|s|)
    ensures BigEndian(FromBigEndian(s), |s|) == s
  {
    if s != [] {
      BigEndianInverse(s[..|s| - 1]);
    }
  }

  // The integer of n bytes that reads as u without a sign.
  function Signed(u: nat, signed: bool, n: nat): (x: int)
    requires n > 0 && u < Pow256(n)
    ensures InRange(x, signed, n)
  {
    PowHalf(n);
    if signed && u >= Pow256(n) / 2 then u - Pow256(n) else u
  }

  lemma {:induction false} PowHalf(n: nat)
    requires n > 0
    ensures Pow256(n) == 2 * (Pow256(n) / 2)
  {
    var q := Pow256(n - 1);
    assert Pow256(n) == 256 * q;
    hide Pow256;
    assert 256 * q == 2 * (128 * q);
  }

  function DecodeInt(src: seq<Byte>, signed: bool, n: nat): (r: Result<(int, seq<Byte>), CodecError>)
    requires n > 0
    ensures r.Ok? <==> |src| >= n
    ensures r.Ok? ==> InRange(r.value.0, signed, n) && r.value.1 == src[n..]
  {
    if |src| < n then
      Err(UnexpectedEof)
    else
      BigEndianInverse(src[..n]);
      Ok((Signed(FromBigEndian(src[..n]), signed, n), src[n..]))
  }

  lemma {:induction false} BigEndianRoundTrip(x: nat, n: nat)
    requires x < Pow256(n)
    ensures FromBigEndian(BigEndian(x, n)) == x
  {
    if n > 0 {
      BigEndianRoundTrip(x / 256, n - 1);
      var r := BigEndian(x, n);
      assert r[..|r| - 1] == BigEndian(x / 256, n - 1);
    }
  }

  // The k-th byte from the left holds the k-th digit to the base 256 from the left.
  lemma {:induction false} BigEndianByte(x: nat, n: nat, k: nat)
    requires k < n
    ensures BigEndian(x, n)[k] == x / Pow256(n - 1 - k) % 256
  {
    if k < n - 1 {
      BigEndianByte(x / 256, n - 1, k);
      DivideTwice(x, Pow256(n - 2 - k));
    }
  }

  lemma {:induction false} DivideTwice(x: nat, p: nat)
    requires p > 0
    ensures x / 256 / p == x / (256 * p)
  {
    var q, r := x / 256 / p, x / 256 % p;
    assert x / 256 == p * q + r;
    assert x == 256 * (p * q) + (256 * r + x % 256);
    assert 256 * (p * q) == (256 * p) * q;
    DivModUnique(x, 256 * p, q, 256 * r + x % 256);
  }

  lemma {:induction false} DivModUnique(x: int, d: int, q: int, r: int)
    requires 0 <= r < d && x == d * q + r
    ensures x / d == q && x % d == r
  {
    var e := x / d - q;
    assert e * d == r - x % d;
    assert e >= 1 ==> e * d >= d;
    assert e <= -1 ==> e * d <= -d;
  }

  lemma {:induction false} FromDigit(s: seq<Byte>, b: Byte)
    ensures FromBigEndian(s + [b]) == 256 * FromBigEndian(s) + b && FromBigEndian([]) == 0
  {
    assert (s + [b])[..|s|] == s;
  }

  lemma {:induction false} FromFour(a: Byte, b: Byte, c: Byte, d: Byte)
    ensures FromBigEndian([a, b, c, d]) == a * 0x100_0000 + b * 0x1_0000 + c * 0x100 + d
  {
    FromDigit([a, b, c], d);
    FromDigit([a, b], c);
    FromDigit([a], b);
    FromDigit([], a);
    hide FromBigEndian;
    assert [] + [a] == [a] && [a] + [b] == [a, b] && [a, b] + [c] == [a, b, c] && [a, b, c] + [d] == [a, b, c, d];
  }

  // An integer in range is read back from its bytes, whatever follows them.
  lemma {:induction false} IntRoundTrip(x: int, signed: bool, n: nat, rest: seq<Byte>)
    requires n > 0 && InRange(x, signed, n)
    ensures DecodeInt(EncodeInt(x, signed, n) + rest, signed, n) == Ok((x, rest))
  {
    hide BigEndian, FromBigEndian;
    var e := EncodeInt(x, signed, n);
    assert (e + rest)[..n] == e;
    assert (e + rest)[n..] == rest;
    BigEndianRoundTrip(if x < 0 then x + Pow256(n) else x, n);
    SignedBack(x, signed, n);
  }

  lemma {:induction false} SignedBack(x: int, signed: bool, n: nat)
    requires n > 0 && InRange(x, signed, n)
    ensures var u := if x < 0 then x + Pow256(n) else x;
            0 <= u < Pow256(n) && Signed(u, signed, n) == x
  {
    hide Pow256;
    PowHalf(n);
  }

  lemma {:induction false} Pow256Values()
    ensures Pow256(1) == 0x100 && Pow256(2) == 0x1_0000
    ensures Pow256(4) == 0x1_0000_0000 && Pow256(8) == 0x1_0000_0000_0000_0000
  {
    assert Pow256(3) == 0x100_0000;
    assert Pow256(5) == 0x100_0000_0000;
    assert Pow256(7) == 0x100_0000_0000_0000;
  }
}
