/**
 The variable-length integers of record headers (fluvio-protocol, core/varint.rs).

 The encoder maps num to (num << 1) ^ (num >> 31) and tests the remaining value with the 32-bit
 mask 0xffffff80, although num is an i64.  VarintRoundTripIff says exactly which integers survive.
 */
module Varint {
  import opened Wrappers
  import opened Bytes

  const TWO31: int := 0x8000_0000
  const TWO32: int := 0x1_0000_0000
  const TWO62: int := 0x4000_0000_0000_0000
  const TWO63: int := 0x8000_0000_0000_0000
  const TWO64: int := 0x1_0000_0000_0000_0000

  predicate IsI64(n: int) {
    -TWO63 <= n < TWO63
  }

  predicate IsI32(n: int) {
    -TWO31 <= n < TWO31
  }

  function Wrap64(x: int): (r: int)
    ensures IsI64(r)
  {
    var u := x % TWO64;
    if u >= TWO63 then u - TWO64 else u
  }

  function Abs(x: int): nat {
    if x < 0 then -x else x
  }

  // Exclusive or of two's complement integers; Dafny's / and % by 2 are the arithmetic shift and the low bit.
  function Xor(a: int, b: int): int
    decreases Abs(a) + Abs(b)
  {
    if (a == 0 || a == -1) && (b == 0 || b == -1) then
      if a == b then 0 else -1
    else
      (a % 2 + b % 2) % 2 + 2 * Xor(a / 2, b / 2)
  }

  // (num << 1) ^ (num >> 31) on i64
  function Mix(num: int): int {
    Xor(Wrap64(2 * num), num / TWO31)
  }

  // (num >> 1) ^ -(num & 1)
  function Unmix(num: int): int {
    if num % 2 == 0 then num / 2 else -(num / 2) - 1
  }

  // (v & 0xffffff80) != 0
  predicate More(v: int) {
    v % TWO32 >= 128
  }

  // The bytes the encoding loop emits for v; None when the loop never ends (v settles at -1).
  function Groups(v: int): (r: Option<seq<Byte>>)
    ensures r.Some? ==> |r.value| >= 1
    decreases Abs(v)
  {
    if More(v) then
      if v == -1 then None
      else
        var rest :- Groups(v / 128);
        Some([v % 128 + 128] + rest)
    else
      Some([v % 256])
  }

  // Value of the leading group sequence of src and the number of bytes it takes.
  function Ungroup(src: seq<Byte>): (r: Option<(nat, nat)>)
    ensures r.Some? ==> 1 <= r.value.1 <= |src|
  {
    if src == [] then None
    else if src[0] < 128 then Some((src[0], 1))
    else
      var tail :- Ungroup(src[1..]);
      Some((src[0] - 128 + 128 * tail.0, tail.1 + 1))
  }

  // Shifting by 64 or more bits panics; the model reports it as invalid data.
  function DecodeVarint(src: seq<Byte>): (r: Result<(int, seq<Byte>), CodecError>)
    ensures r.Ok? ==> |r.value.1| < |src|
  {
    match Ungroup(src)
    case None => Err(UnexpectedEof)
    case Some((t, count)) =>
      if count > 10 then Err(InvalidData) else Ok((Unmix(Wrap64(t)), src[count..]))
  }

  // The first byte without the continuation bit is at i.
  predicate EndsAt(src: seq<Byte>, i: nat) {
    i < |src| && src[i] < 128 && forall j :: 0 <= j < i ==> src[j] >= 128
  }

  lemma {:induction false} UngroupEnds(src: seq<Byte>, i: nat)
    requires EndsAt(src, i)
    ensures Ungroup(src).Some? && Ungroup(src).value.1 == i + 1
  {
    if i > 0 {
      assert EndsAt(src[1..], i - 1);
      UngroupEnds(src[1..], i - 1);
    }
  }

  lemma {:induction false} UngroupNever(src: seq<Byte>)
    requires forall j :: 0 <= j < |src| ==> src[j] >= 128
    ensures Ungroup(src) == None
  {
    if src != [] {
      UngroupNever(src[1..]);
    }
  }

  // A varint ends at the first byte without the continuation bit, which is one of the first ten, and
  // what follows it is left.
  lemma {:induction false} VarintEnds(src: seq<Byte>, i: nat)
    ensures EndsAt(src, i) && i < 10 ==> DecodeVarint(src).Ok? && DecodeVarint(src).value.1 == src[i + 1..]
    ensures EndsAt(src, i) && i >= 10 ==> DecodeVarint(src) == Err(InvalidData)
    ensures (forall j :: 0 <= j < |src| ==> src[j] >= 128) ==> DecodeVarint(src) == Err(UnexpectedEof)
  {
    if EndsAt(src, i) {
      UngroupEnds(src, i);
    } else if forall j :: 0 <= j < |src| ==> src[j] >= 128 {
      UngroupNever(src);
    }
  }

  // What a reader of Groups(v) sees.
  function Seen(v: int): (t: nat)
    requires Groups(v).Some?
    ensures v >= 0 ==> t <= v
    ensures t % 128 == v % 128
    decreases Abs(v)
  {
    if More(v) then v % 128 + 128 * Seen(v / 128) else v % 128
  }

  lemma {:induction false} LastByte(v: int)
    requires !More(v)
    ensures v % 256 == v % 128
  {
    var q, r := v / TWO32, v % TWO32;
    DivModUnique(v, 256, 0x100_0000 * q, r);
    DivModUnique(v, 128, 0x200_0000 * q, r);
  }

  lemma {:induction false} UngroupCons(b: Byte, s: seq<Byte>)
    requires b >= 128 && Ungroup(s).Some?
    ensures Ungroup([b] + s) == Some((b - 128 + 128 * Ungroup(s).value.0, Ungroup(s).value.1 + 1))
  {
    assert ([b] + s)[1..] == s;
  }

  lemma {:induction false} UngroupLast(b: Byte, s: seq<Byte>)
    requires b < 128
    ensures Ungroup([b] + s) == Some((b, 1))
  {
  }

  lemma {:induction false} UngroupGroups(v: int, rest: seq<Byte>)
    requires Groups(v).Some?
    ensures Ungroup(Groups(v).value + rest) == Some((Seen(v), |Groups(v).value|))
    decreases Abs(v)
  {
    hide More, Ungroup;
    if More(v) {
      var tail := Groups(v / 128).value;
      UngroupGroups(v / 128, rest);
      UngroupCons(v % 128 + 128, tail + rest);
      assert Groups(v).value + rest == [v % 128 + 128] + (tail + rest);
    } else {
      LastByte(v);
      UngroupLast(v % 256, rest);
    }
  }

  function Pow128(k: nat): nat {
    if k == 0 then 1 else 128 * Pow128(k - 1)
  }

  lemma {:induction false} DivPow128(v: nat, k: nat)
    requires v < Pow128(k)
    ensures v >= 128 ==> k > 1 && v / 128 < Pow128(k - 1)
  {
  }

  lemma {:induction false} MoreIff(v: int)
    requires 0 <= v < TWO32
    ensures More(v) <==> v >= 128
  {
  }

  lemma {:induction false} GroupsUnfold(v: int)
    ensures !More(v) ==> Groups(v) == Some([v % 256])
    ensures More(v) ==> (Groups(v).Some? <==> Groups(v / 128).Some?)
    ensures More(v) && Groups(v).Some? ==> Groups(v).value == [v % 128 + 128] + Groups(v / 128).value
    ensures Groups(v).Some? ==> Seen(v) == if More(v) then v % 128 + 128 * Seen(v / 128) else v % 128
  {
    hide More;
    if v == -1 {
      assert v / 128 == -1;
    }
  }

  // Below 2^32 the mask test is exact.
  lemma {:induction false} GroupsExact(v: int, k: nat)
    requires 0 <= v < TWO32 && v < Pow128(k)
    ensures Groups(v).Some? && Seen(v) == v && |Groups(v).value| <= if k == 0 then 1 else k
    decreases k
  {
    hide Groups, Seen, More, Pow128;
    GroupsUnfold(v);
    MoreIff(v);
    DivPow128(v, k);
    if v >= 128 {
      GroupsExact(v / 128, k - 1);
    }
  }

  lemma {:induction false} XorStep(a: int, b: int)
    ensures Xor(a, b) == (a % 2 + b % 2) % 2 + 2 * Xor(a / 2, b / 2)
    ensures Xor(a, b) / 2 == Xor(a / 2, b / 2)
    ensures Xor(a, b) % 2 == (a % 2 + b % 2) % 2
  {
  }

  lemma {:induction false} XorZero(a: int)
    ensures Xor(a, 0) == a
    decreases Abs(a)
  {
    if a != 0 && a != -1 { XorZero(a / 2); }
  }

  lemma {:induction false} XorOnes(a: int)
    ensures Xor(a, -1) == -a - 1
    decreases Abs(a)
  {
    if a != 0 && a != -1 { XorOnes(a / 2); }
  }

  lemma {:induction false} XorComplement(a: int, b: int)
    ensures Xor(-a - 1, -b - 1) == Xor(a, b)
    decreases Abs(a) + Abs(b)
  {
    hide Xor;
    if (a == 0 || a == -1) && (b == 0 || b == -1) {
      XorSigns();
    } else {
      XorComplement(a / 2, b / 2);
      XorComplementStep(a, b);
    }
  }

  lemma {:induction false} XorSigns()
    ensures Xor(0, 0) == Xor(-1, -1) && Xor(0, -1) == Xor(-1, 0)
  {
  }

  lemma {:induction false} XorComplementStep(a: int, b: int)
    requires Xor(-(a / 2) - 1, -(b / 2) - 1) == Xor(a / 2, b / 2)
    ensures Xor(-a - 1, -b - 1) == Xor(a, b)
  {
    hide Xor;
    XorStep(a, b);
    XorStep(-a - 1, -b - 1);
    HalfComplement(a);
    HalfComplement(b);
  }

  lemma {:induction false} HalfComplement(a: int)
    ensures (-a - 1) / 2 == -(a / 2) - 1 && (-a - 1) % 2 == 1 - a % 2
  {
  }

  predicate IsPowerOfTwo(c: int)
    decreases Abs(c)
  {
    c == 1 || (c > 1 && c % 2 == 0 && IsPowerOfTwo(c / 2))
  }

  lemma {:induction false} Doubled(c: int)
    requires IsPowerOfTwo(c)
    ensures IsPowerOfTwo(2 * c)
  {
  }

  lemma {:induction false} Times128(c: int)
    requires IsPowerOfTwo(c)
    ensures IsPowerOfTwo(128 * c)
  {
    hide IsPowerOfTwo;
    Doubled(c);
    Doubled(2 * c);
    Doubled(4 * c);
    Doubled(8 * c);
    Doubled(16 * c);
    Doubled(32 * c);
    Doubled(64 * c);
  }

  lemma {:induction false} OneIsPowerOfTwo()
    ensures IsPowerOfTwo(1)
  {
  }

  lemma {:induction false} Two63IsPowerOfTwo()
    ensures IsPowerOfTwo(TWO63)
  {
    hide IsPowerOfTwo;
    Two35IsPowerOfTwo();
    Times128(0x8_0000_0000);
    Times128(0x400_0000_0000);
    Times128(0x2_0000_0000_0000);
    Times128(0x100_0000_0000_0000);
  }

  lemma {:induction false} XorBound(a: int, b: int, c: int)
    requires IsPowerOfTwo(c)
    requires 0 <= a < c && 0 <= b < c
    ensures 0 <= Xor(a, b) < c
    decreases c
  {
    if c > 1 {
      XorBound(a / 2, b / 2, c / 2);
      XorStep(a, b);
    }
  }

  lemma {:induction false} LowBit(x: int, m: int)
    requires m > 0
    ensures x % (2 * m) == x % 2 + 2 * (x / 2 % m)
    ensures x / (2 * m) == x / 2 / m
  {
    var h := x / 2;
    assert x == 2 * h + x % 2;
    assert h == m * (h / m) + h % m;
    assert 2 * (m * (h / m)) == 2 * m * (h / m);
    DivModUnique(x, 2 * m, h / m, x % 2 + 2 * (h % m));
  }

  lemma {:induction false} XorLowStep(a: int, k: int, h: int)
    requires h > 0
    requires Xor(a, k) % (2 * h) == a % (2 * h)
    ensures k % 2 == 0 && Xor(a / 2, k / 2) % h == a / 2 % h
    ensures Xor(a, k) / (2 * h) == Xor(a / 2, k / 2) / h
  {
    hide Xor;
    XorStep(a, k);
    var v := Xor(a, k);
    LowBit(a, h);
    LowBit(v, h);
    SameParity(v % 2, v / 2 % h, a % 2, a / 2 % h);
  }

  lemma {:induction false} SameParity(p: int, x: int, q: int, y: int)
    requires 0 <= p < 2 && 0 <= q < 2 && p + 2 * x == q + 2 * y
    ensures p == q && x == y
  {
  }

  lemma {:induction false} XorSameLow(a: int, k: int, m: int)
    requires IsPowerOfTwo(m)
    requires Xor(a, k) % m == a % m
    ensures k % m == 0 && Xor(a, k) / m == Xor(a / m, k / m)
    decreases m
  {
    if m > 1 {
      var h := m / 2;
      XorLowStep(a, k, h);
      XorSameLow(a / 2, k / 2, h);
      LowBit(a, h);
      LowBit(k, h);
    }
  }

  // Once k is mixed into a, no reader gets a back: the lowest bits of k already spoil it.
  lemma {:induction false} MixedIsLost(a: int, k: int)
    requires 1 <= k <= a
    requires Xor(a, k) >= 0 && Groups(Xor(a, k)).Some?
    ensures Seen(Xor(a, k)) != a
    decreases a
  {
    var v := Xor(a, k);
    if Seen(v) == a {
      Times128(1);
      XorSameLow(a, k, 128);
      MixedIsLost(a / 128, k / 128);
      assert false;
    }
  }

  // Exactly the 32-bit integers survive an encode and decode, whatever bytes follow.
  lemma {:induction false} VarintRoundTripIff(n: int, rest: seq<Byte>)
    requires IsI64(n)
    ensures IsI32(n) <==> Groups(Mix(n)).Some? && DecodeVarint(Groups(Mix(n)).value + rest) == Ok((n, rest))
  {
    if IsI32(n) {
      VarintSmall(n, rest);
    } else if Groups(Mix(n)).Some? {
      UngroupGroups(Mix(n), rest);
      VarintLarge(n);
    }
  }

  lemma {:induction false} WrapIdentity(x: int)
    requires IsI64(x)
    ensures Wrap64(x) == x
  {
  }

  lemma {:induction false} MixSmall(n: int)
    requires IsI32(n)
    ensures Mix(n) == (if n >= 0 then 2 * n else -2 * n - 1)
  {
    WrapIdentity(2 * n);
    HighBits(n);
    XorZero(2 * n);
    XorOnes(2 * n);
  }

  lemma {:induction false} HighBits(n: int)
    requires IsI32(n)
    ensures n / TWO31 == if n >= 0 then 0 else -1
  {
  }

  lemma {:induction false} UnmixZigzag(n: int, v: int)
    requires v == if n >= 0 then 2 * n else -2 * n - 1
    ensures Unmix(v) == n
  {
  }

  lemma {:induction false} ReadBack(v: int, rest: seq<Byte>)
    requires 0 <= v < TWO32
    ensures Groups(v).Some? && DecodeVarint(Groups(v).value + rest) == Ok((Unmix(v), rest))
  {
    assert Pow128(5) == 0x8_0000_0000;
    GroupsExact(v, 5);
    UngroupGroups(v, rest);
    var g := Groups(v).value;
    assert (g + rest)[|g|..] == rest;
    WrapIdentity(v);
  }

  // Within 62 bits, mixing xors the zigzag code of n with its bits from 31 up.
  lemma {:induction false} MixLarge(n: int, a: int, k: int)
    requires -TWO62 <= n < TWO62 && !IsI32(n)
    requires a == if n >= 0 then 2 * n else -2 * n - 1
    requires k == if n >= 0 then n / TWO31 else -(n / TWO31) - 1
    ensures 1 <= k <= a < TWO63 && Mix(n) == Xor(a, k)
  {
    WrapIdentity(2 * n);
    if n < 0 { XorComplement(a, k); }
  }

  // No 64-bit value unmixes to an integer of 63 bits or more.
  lemma {:induction false} UnmixRange(num: int)
    requires IsI64(num)
    ensures -TWO62 <= Unmix(num) < TWO62
  {
  }

  lemma {:induction false} VarintSmall(n: int, rest: seq<Byte>)
    requires IsI32(n)
    ensures Groups(Mix(n)).Some? && DecodeVarint(Groups(Mix(n)).value + rest) == Ok((n, rest))
  {
    MixSmall(n);
    var v := Mix(n);
    ReadBack(v, rest);
    UnmixZigzag(n, v);
  }

  lemma {:induction false} VarintLarge(n: int)
    requires IsI64(n) && !IsI32(n)
    requires Groups(Mix(n)).Some?
    ensures Unmix(Wrap64(Seen(Mix(n)))) != n
  {
    var v := Mix(n);
    var t := Seen(v);
    UnmixRange(Wrap64(t));
    if -TWO62 <= n < TWO62 {
      var a := if n >= 0 then 2 * n else -2 * n - 1;
      var k := if n >= 0 then n / TWO31 else -(n / TWO31) - 1;
      MixLarge(n, a, k);
      Two63IsPowerOfTwo();
      XorBound(a, k, TWO63);
      MixedIsLost(a, k);
      WrapIdentity(t);
    }
  }

  lemma {:induction false} GroupsEnd(v: int)
    requires v >= 0
    ensures Groups(v).Some?
    decreases v
  {
    if More(v) { GroupsEnd(v / 128); }
  }

  // When the loop does not end the integer is out of reach of any decoder.
  lemma {:induction false} EndlessIsUnreachable(n: int, src: seq<Byte>)
    requires IsI64(n) && Groups(Mix(n)).None?
    ensures DecodeVarint(src).Ok? ==> DecodeVarint(src).value.0 != n
  {
    if -TWO62 <= n < TWO62 {
      if IsI32(n) {
        VarintSmall(n, src);
      } else {
        var a := if n >= 0 then 2 * n else -2 * n - 1;
        var k := if n >= 0 then n / TWO31 else -(n / TWO31) - 1;
        MixLarge(n, a, k);
        Two63IsPowerOfTwo();
        XorBound(a, k, TWO63);
        GroupsEnd(Mix(n));
      }
    } else if Ungroup(src).Some? {
      UnmixRange(Wrap64(Ungroup(src).value.0));
    }
  }

  // A number above one that never ends, if the loop goes on there.
  lemma {:induction false} EndlessStep(w: int, low: nat)
    requires low < 128 && Groups(w).None? && More(128 * w + low)
    ensures Groups(128 * w + low).None?
  {
    hide More;
    DivModUnique(128 * w + low, 128, w, low);
  }

  // Exclusive or with a number below the lowest bit is addition.
  lemma {:induction false} XorAligned(h: int, low: nat, p: nat)
    requires IsPowerOfTwo(p) && low < p
    ensures Xor(h * p, low) == h * p + low
    decreases p
  {
    hide Xor;
    if p == 1 {
      XorZero(h);
    } else {
      var half := p / 2;
      XorAligned(h, low / 2, half);
      TimesDouble(h, half);
      XorDouble(h * half, low);
    }
  }

  lemma {:induction false} TimesDouble(h: int, half: int)
    ensures h * (2 * half) == 2 * (h * half)
  {
  }

  lemma {:induction false} XorDouble(x: int, low: nat)
    requires Xor(x, low / 2) == x + low / 2
    ensures Xor(2 * x, low) == 2 * x + low
  {
    XorStep(2 * x, low);
    hide Xor;
  }

  // An integer whose loop does not end: the mixed value is shifted down to -1 and stays there.
  lemma {:induction false} EndlessExists()
    ensures IsI64(0x4004_0000_0000_0000) && Groups(Mix(0x4004_0000_0000_0000)).None?
  {
    hide Mix, Xor, Groups, More;
    MixOfEndless();
    EndlessHigh();
    GoesOn(-562812514336736, 0);
    EndlessStep(-562812514336736, 0);
    GoesOn(-72040001835102208, 0);
    EndlessStep(-72040001835102208, 0);
  }

  // The mixed value after two shifts, and after five.
  lemma {:induction false} EndlessHigh()
    ensures Groups(-562812514336736).None?
  {
    hide Groups, More;
    EndlessHigher();
    GoesOn(-268369920, 8);
    EndlessStep(-268369920, 8);
    GoesOn(-34351349752, 0);
    EndlessStep(-34351349752, 0);
    GoesOn(-4396972768256, 32);
    EndlessStep(-4396972768256, 32);
  }

  lemma {:induction false} EndlessHigher()
    ensures Groups(-268369920).None?
  {
    hide Groups, More;
    EndlessOnes();
    GoesOn(-1, 0);
    EndlessStep(-1, 0);
    GoesOn(-128, 4);
    EndlessStep(-128, 4);
    GoesOn(-16380, 0);
    EndlessStep(-16380, 0);
    GoesOn(-2096640, 0);
    EndlessStep(-2096640, 0);
  }

  // The loop goes on while the low 25 bits of the rest are not all zero.
  lemma {:induction false} GoesOn(w: int, low: nat)
    requires low < 128 && w % 0x200_0000 > 0
    ensures More(128 * w + low)
  {
    var q, r := w / 0x200_0000, w % 0x200_0000;
    assert 128 * w + low == TWO32 * q + (128 * r + low);
    DivModUnique(128 * w + low, TWO32, q, 128 * r + low);
  }

  lemma {:induction false} EndlessOnes()
    ensures Groups(-1).None?
  {
  }

  lemma {:induction false} MixOfEndless()
    ensures Mix(0x4004_0000_0000_0000) == -0x7ff7_ffff_7ff8_0000
  {
    hide Xor, IsPowerOfTwo;
    Two35IsPowerOfTwo();
    XorAligned(-0xfff_0000, 0x8008_0000, 0x8_0000_0000);
  }

  lemma {:induction false} Two35IsPowerOfTwo()
    ensures IsPowerOfTwo(0x8_0000_0000)
  {
    hide IsPowerOfTwo;
    OneIsPowerOfTwo();
    Times128(1);
    Times128(128);
    Times128(0x4000);
    Times128(0x20_0000);
    Times128(0x1000_0000);
  }

  // An encoder whose buffer has room for a number of bytes: the groups, or an error if they do not
  // fit or do not end.
  method VariantEncode(num: int, room: nat) returns (r: Result<seq<Byte>, CodecError>)
    requires IsI64(num)
    ensures r.Ok? <==> Groups(Mix(num)).Some? && |Groups(Mix(num)).value| <= room
    ensures r.Ok? ==> Some(r.value) == Groups(Mix(num))
    ensures r.Err? ==> r.error == UnexpectedEof
  {
    hide More, Mix, Groups;
    var v := Mix(num);
    var buf := [];
    while More(v)
      invariant Groups(v).Some? <==> Groups(Mix(num)).Some?
      invariant Groups(v).Some? ==> buf + Groups(v).value == Groups(Mix(num)).value
      invariant |buf| <= room
      decreases room - |buf|
    {
      GroupsUnfold(v);
      if |buf| == room {
        return Err(UnexpectedEof);
      }
      var b: Byte := v % 128 + 128;
      assert Groups(v).Some? ==> buf + ([b] + Groups(v / 128).value) == (buf + [b]) + Groups(v / 128).value;
      buf := buf + [b];
      v := v / 128;
    }
    GroupsUnfold(v);
    if |buf| == room {
      return Err(UnexpectedEof);
    }
    r := Ok(buf + [v % 256]);
  }

  // The size loop agrees with the encoding loop: within a number of rounds it ends if and only if the
  // groups do, with their number.
  method VariantSize(num: int, rounds: nat) returns (r: Option<nat>)
    requires IsI64(num)
    ensures r.Some? <==> Groups(Mix(num)).Some? && |Groups(Mix(num)).value| <= rounds + 1
    ensures r.Some? ==> r.value == |Groups(Mix(num)).value|
  {
    hide More, Mix, Groups;
    var v := Mix(num);
    var bytes := 1;
    while More(v)
      invariant Groups(v).Some? <==> Groups(Mix(num)).Some?
      invariant Groups(v).Some? ==> bytes - 1 + |Groups(v).value| == |Groups(Mix(num)).value|
      invariant bytes <= rounds + 1
      decreases rounds - bytes
    {
      GroupsUnfold(v);
      if bytes == rounds + 1 {
        return None;
      }
      bytes := bytes + 1;
      v := v / 128;
    }
    GroupsUnfold(v);
    r := Some(bytes);
  }
}
