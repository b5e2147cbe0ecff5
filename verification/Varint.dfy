/**
 The variable-length integers of the raw encoding: seven bits to a byte, lowest
 first, with the top bit set on every byte but the last.
 */
module Varint {
  import opened RawTypes
  import opened Words

  function Encode(n: nat): (e: Bytes)
    ensures |e| >= 1
  {
    if n < 128 then [n] else [128 + n % 128] + Encode(n / 128)
  }

  function Decode(bytes: Bytes): Result<uint32> {
    DecodeFrom(bytes, 0, 0)
  }

  /** The decoding loop after `k` bytes, with `v` gathered so far. */
  function DecodeFrom(bytes: Bytes, k: nat, v: nat): (r: Result<uint32>)
    ensures r.Ok? ==> |r.rest| < |bytes|
  {
    if bytes == [] then Fail(OutOfRange)
    else if k >= 5 then Fail(Overlong)
    else
      var v' := v + Digit(bytes[0], k);
      if bytes[0] >= 128 then DecodeFrom(bytes[1..], k + 1, v')
      else Ok(v' % 0x1_0000_0000, bytes[1..])
  }

  /** The seven bits of the byte after `k` others, shifted into place in a 32-bit word. */
  function Digit(b: Octet, k: nat): uint32
    requires k < 5
  {
    Shifted(b % 128, k) % 0x1_0000_0000
  }

  /** `x << 7k` without truncation. */
  function Shifted(x: nat, k: nat): nat
    requires k < 5
  {
    if k == 0 then x
    else if k == 1 then 0x80 * x
    else if k == 2 then 0x4000 * x
    else if k == 3 then 0x20_0000 * x
    else 0x1000_0000 * x
  }

  lemma ShiftedIsProduct(x: nat, k: nat)
    requires k < 5
    ensures Shifted(x, k) == x * Pow2(7 * k)
  {
    SevenMore(0); SevenMore(1); SevenMore(2); SevenMore(3);
  }

  lemma DigitIsShifted(b: Octet, k: nat) returns (d: nat)
    requires k < 5
    ensures Digit(b, k) == Shifted(d, k)
  {
    if k < 4 {
      d := b % 128;
    } else {
      d := b % 16;
      assert b % 128 == 16 * (b % 128 / 16) + d;
      EuclideanUnique(0x1000_0000 * (b % 128), 0x1_0000_0000, b % 128 / 16, 0x1000_0000 * d);
    }
  }

  /** As the source writes it: or-ing the next seven bits in is adding them. */
  lemma OrInDigit(v: nat, b: Octet, k: nat)
    requires k < 5 && v < Shifted(1, k)
    ensures OrNat(v, Digit(b, k)) == v + Digit(b, k)
  {
    var d := DigitIsShifted(b, k);
    ShiftedIsProduct(d, k);
    ShiftedIsProduct(1, k);
    OrDisjoint(v, d, 7 * k);
  }

  //  Shape of the encoding

  /** The encoding is as short as seven bits a byte allow, and marks only its last byte as last. */
  lemma {:induction false} EncodeShape(n: nat)
    ensures var e := Encode(n);
            && n < Pow2(7 * |e|) && (|e| > 1 ==> n >= Pow2(7 * (|e| - 1)))
            && forall i :: 0 <= i < |e| ==> (e[i] >= 128 <==> i < |e| - 1)
  {
    var e := Encode(n);
    if n < 128 {
      assert Pow2(7) == 128;
    } else {
      EncodeShape(n / 128);
      var t := Encode(n / 128);
      assert e == [128 + n % 128] + t;
      SevenMore(|t|);
      if |t| > 1 {
        SevenMore(|t| - 1);
      } else {
        assert Pow2(7) == 128;
      }
      forall i | 0 <= i < |e| ensures e[i] >= 128 <==> i < |e| - 1 {
        assert i > 0 ==> e[i] == t[i - 1];
      }
    }
  }

  lemma SevenMore(k: nat)
    ensures Pow2(7 * (k + 1)) == 128 * Pow2(7 * k)
  {
    var m := 7 * k;
    assert Pow2(m + 7) == 2 * Pow2(m + 6) == 4 * Pow2(m + 5) == 8 * Pow2(m + 4);
    assert Pow2(m + 4) == 2 * Pow2(m + 3) == 4 * Pow2(m + 2) == 8 * Pow2(m + 1) == 16 * Pow2(m);
  }

  lemma Pow2Of32()
    ensures Pow2(32) == 0x1_0000_0000
  {
    assert Pow2(8) == 256;
    SevenMore(0); SevenMore(1); SevenMore(2); SevenMore(3);
    assert Pow2(32) == 2 * Pow2(31) == 4 * Pow2(30) == 8 * Pow2(29) == 16 * Pow2(28);
  }

  lemma {:induction false} Pow2Monotone(a: nat, b: nat)
    requires a <= b
    ensures Pow2(a) <= Pow2(b)
    decreases b
  {
    if a < b {
      Pow2Monotone(a, b - 1);
    }
  }

  /** Encodings of 32-bit values take at most five bytes. */
  lemma EncodeAtMostFive(n: uint32)
    ensures |Encode(n)| <= 5
  {
    EncodeShape(n);
    Pow2Of32();
    if |Encode(n)| > 5 {
      Pow2Monotone(32, 7 * (|Encode(n)| - 1));
    }
  }

  //  Round trip

  lemma RoundTrip(n: uint32, rest: Bytes)
    ensures Decode(Encode(n) + rest) == Ok(n, rest)
  {
    RoundTripFrom(n, rest, 0, 0, Encode(n) + rest, n);
  }

  lemma {:induction false} RoundTripFrom(n: nat, rest: Bytes, k: nat, v: nat, bytes: Bytes, total: nat)
    requires bytes == Encode(n) + rest && k < 5 && v < Shifted(1, k)
    requires total == v + Shifted(n, k) < 0x1_0000_0000
    ensures DecodeFrom(bytes, k, v) == Ok(total, rest)
    decreases n
  {
    var digit := Shifted(n % 128, k);
    ShiftedDigits(n, k, v);
    EncodeHead(n, rest);
    DigitFits(bytes[0], k);
    if n < 128 {
      DecodeLast(bytes, k, v, digit);
    } else {
      DecodeMore(bytes, k, v, digit);
      RoundTripFrom(n / 128, rest, k + 1, v + digit, bytes[1..], total);
    }
  }

  lemma EncodeHead(n: nat, rest: Bytes)
    ensures var bytes := Encode(n) + rest;
            && bytes[0] % 128 == n % 128 && (bytes[0] >= 128 <==> n >= 128)
            && bytes[1..] == if n < 128 then rest else Encode(n / 128) + rest
  {
    if n < 128 {
      assert Encode(n) == [n];
    } else {
      var tail := Encode(n / 128);
      assert Encode(n) + rest == [128 + n % 128] + (tail + rest);
      LowSeven(n);
    }
  }

  lemma LowSeven(n: nat)
    ensures (128 + n % 128) % 128 == n % 128
  {
  }

  lemma ShiftedDigits(n: nat, k: nat, v: nat)
    requires k < 5 && v < Shifted(1, k) && v + Shifted(n, k) < 0x1_0000_0000
    ensures Shifted(n % 128, k) <= Shifted(n, k)
    ensures n >= 128 ==> k < 4 && v + Shifted(n % 128, k) < Shifted(1, k + 1)
    ensures n >= 128 ==> Shifted(n % 128, k) + Shifted(n / 128, k + 1) == Shifted(n, k)
  {
  }

  lemma DigitFits(b: Octet, k: nat)
    requires k < 5 && Shifted(b % 128, k) < 0x1_0000_0000
    ensures Digit(b, k) == Shifted(b % 128, k)
  {
    var d := Shifted(b % 128, k);
    assert d % 0x1_0000_0000 == d;
  }

  lemma DecodeLast(bytes: Bytes, k: nat, v: nat, digit: nat)
    requires bytes != [] && k < 5 && bytes[0] < 128 && Digit(bytes[0], k) == digit
    requires v + digit < 0x1_0000_0000
    ensures DecodeFrom(bytes, k, v) == Ok(v + digit, bytes[1..])
  {
  }

  lemma DecodeMore(bytes: Bytes, k: nat, v: nat, digit: nat)
    requires bytes != [] && k < 5 && bytes[0] >= 128 && Digit(bytes[0], k) == digit
    ensures DecodeFrom(bytes, k, v) == DecodeFrom(bytes[1..], k + 1, v + digit)
  {
  }

  //  Signed values

  /** `(v << 1) ^ (v >> 31)` */
  function ZigZag(v: int32): uint32 {
    var doubled, sign := (2 * v) % 0x1_0000_0000, if v < 0 then 0xFFFF_FFFF else 0;
    Pow2Of32();
    XorNatBound(32, doubled, sign);
    XorNat(doubled, sign)
  }

  /** Conversion to a 32-bit signed value. */
  function ToInt32(x: int): int32 {
    var m := x % 0x1_0000_0000;
    if m < 0x8000_0000 then m else m - 0x1_0000_0000
  }

  /** The same for an unsigned or negated 32-bit value. */
  function Narrow(x: int): int32
    requires -0x1_0000_0000 <= x <= 0x1_0000_0000
  {
    if x >= 0x8000_0000 then x - 0x1_0000_0000
    else if x < -0x8000_0000 then x + 0x1_0000_0000
    else x
  }

  function UnZigZag(u: uint32): int32 {
    Pow2Of32();
    XorNatBound(32, u / 2, u / 0x8000_0000);
    var w: int := Narrow(XorNat(u / 2, u / 0x8000_0000) + u % 2);
    var w': int := if u % 2 == 1 then w else Narrow(-w);
    Narrow(-w')
  }

  function EncodeSigned(v: int32): Bytes {
    Encode(ZigZag(v))
  }

  function DecodeSigned(bytes: Bytes): Result<int32> {
    match Decode(bytes)
    case Ok(u, rest) => Ok(UnZigZag(u), rest)
    case Fail(e) => Fail(e)
  }

  lemma ZigZagValue(v: int32)
    ensures ZigZag(v) == if v < 0 then -2 * v - 1 else 2 * v
  {
    var d := if v < 0 then 2 * v + 0x1_0000_0000 else 2 * v;
    assert (2 * v) % 0x1_0000_0000 == d;
    XorWithSign(d, v < 0, ZigZag(v));
  }

  lemma XorWithSign(d: uint32, negative: bool, x: nat)
    requires x == XorNat(d, if negative then 0xFFFF_FFFF else 0)
    ensures x == if negative then 0xFFFF_FFFF - d else d
  {
    if negative {
      Pow2Of32();
      XorNatOnes(32, d);
    } else {
      XorNatZero(d);
    }
  }

  /** Outside 31 bits the decoder's extra term flips the lowest bit of the magnitude. */
  lemma UnZigZagValue(v: int32)
    ensures UnZigZag(ZigZag(v)) ==
      if -0x4000_0000 <= v < 0x4000_0000 then v
      else if v >= 0 then (if v % 2 == 0 then v + 1 else v - 1)
      else if v % 2 == 0 then v + 1 else Narrow(v - 1)
  {
    ZigZagValue(v);
    UnZigZagOf(v, ZigZag(v));
  }

  lemma UnZigZagOf(v: int32, u: uint32)
    requires u == if v < 0 then -2 * v - 1 else 2 * v
    ensures UnZigZag(u) ==
      if -0x4000_0000 <= v < 0x4000_0000 then v
      else if v >= 0 then (if v % 2 == 0 then v + 1 else v - 1)
      else if v % 2 == 0 then v + 1 else Narrow(v - 1)
  {
    var x := XorWithTop(u);
    UnZigZagIs(u, x);
    FlipLowest(v, u, x);
  }

  lemma FlipLowest(v: int32, u: uint32, x: nat)
    requires u == if v < 0 then -2 * v - 1 else 2 * v
    requires x == if u < 0x8000_0000 then u / 2 else if (u / 2) % 2 == 0 then u / 2 + 1 else u / 2 - 1
    ensures (if u % 2 == 1 then Narrow(-1 - x) else x) ==
      if -0x4000_0000 <= v < 0x4000_0000 then v
      else if v >= 0 then (if v % 2 == 0 then v + 1 else v - 1)
      else if v % 2 == 0 then v + 1 else Narrow(v - 1)
  {
    assert u / 2 == if v < 0 then -1 - v else v;
    if v < 0 {
      InRange(v);
      if v % 2 == 0 {
        InRange(v + 1);
      }
    }
  }

  /** The two negations undo the sign trick: even values come back as they are, odd ones negated. */
  lemma UnZigZagIs(u: uint32, x: nat)
    requires x == XorNat(u / 2, u / 0x8000_0000) < 0x8000_0000
    ensures UnZigZag(u) == if u % 2 == 1 then Narrow(-1 - x) else x
  {
    var w: int := Narrow(x + u % 2);
    if u % 2 == 0 {
      InRange(x);
      InRange(0 - x);
    } else if x < 0x7FFF_FFFF {
      InRange(x + 1);
    }
  }

  lemma InRange(x: int32)
    ensures Narrow(x) == x
  {
  }

  lemma XorWithTop(u: uint32) returns (x: nat)
    ensures x == XorNat(u / 2, u / 0x8000_0000)
    ensures x == if u < 0x8000_0000 then u / 2 else if (u / 2) % 2 == 0 then u / 2 + 1 else u / 2 - 1
  {
    if u < 0x8000_0000 {
      assert u / 0x8000_0000 == 0;
      XorNatZero(u / 2);
    } else {
      assert u / 0x8000_0000 == 1;
      XorNatOne(u / 2);
    }
    x := XorNat(u / 2, u / 0x8000_0000);
  }

  /** The signed codec inverts itself on exactly the 31-bit values. */
  lemma SignedRoundTrip(v: int32, rest: Bytes)
    ensures DecodeSigned(EncodeSigned(v) + rest) == Ok(v, rest) <==> -0x4000_0000 <= v < 0x4000_0000
  {
    ZigZagValue(v);
    RoundTrip(ZigZag(v), rest);
    UnZigZagValue(v);
  }
}
