/**
 One step of each engine on machine words, and what it does to the remainder
 that the word stands for.
 */
module CrcWordSteps {
  import opened Words
  import opened CrcDivision
  import opened CrcAugmented

  /** The truth value of an integer. */
  predicate Nonzero(a: Word) {
    exists i :: 0 <= i < |a| && a[i]
  }

  lemma SingleBit(a: Word, k: nat)
    requires k < |a|
    ensures Nonzero(And(a, Bit(|a|, k))) <==> a[k]
  {
    var m := And(a, Bit(|a|, k));
    assert m[k] == a[k];
  }

  lemma XorZeros(a: Word)
    ensures Xor(a, Zeros(|a|)) == a
  {
  }

  /** Division on words: what is above the remainder never reaches it. */
  lemma LowStep(n: nat, poly: Word, rem: Word, bit: bool)
    requires 1 <= n <= |poly| == |rem|
    ensures var x := Xor(rem, if bit then Bit(|poly|, n - 1) else Zeros(|poly|));
            (if x[n - 1] then Xor(Shl(x, 1), poly) else Shl(x, 1))[..n] == DivStep(poly[..n], rem[..n], bit)
  {
    var x := Xor(rem, if bit then Bit(|poly|, n - 1) else Zeros(|poly|));
    var y := if x[n - 1] then Xor(Shl(x, 1), poly) else Shl(x, 1);
    var z := DivStep(poly[..n], rem[..n], bit);
    forall i | 0 <= i < n ensures y[i] == z[i] {
      assert i > 0 ==> x[i - 1] == rem[i - 1];
    }
  }

  lemma DivBitsSnoc(p: Word, r: Word, bits: seq<bool>, j: nat)
    requires |r| == |p| >= 1 && j < |bits|
    ensures DivBits(p, r, bits[..j + 1]) == DivStep(p, DivBits(p, r, bits[..j]), bits[j])
  {
    assert bits[..j + 1][..j] == bits[..j];
  }

  lemma ShiftedTop(byte: Byte, count: nat, i: nat)
    requires 0 < i <= count <= 8
    ensures Shl(byte, 8 - i)[7] == Mirror(byte[..count])[count - i]
    ensures Shl(Shl(byte, 8 - i), 1) == Shl(byte, 9 - i)
  {
  }

  lemma MessageSnoc(p: Word, r: Word, msg: seq<Byte>, i: nat, reflected: bool)
    requires |r| == |p| >= 1 && i < |msg|
    ensures DivBits(p, r, MessageBits(msg[..i + 1], reflected))
         == DivBits(p, DivBits(p, r, MessageBits(msg[..i], reflected)), ByteBits(msg[i], reflected))
  {
    assert msg[..i + 1][..i] == msg[..i];
    DivBitsConcat(p, r, MessageBits(msg[..i], reflected), ByteBits(msg[i], reflected));
  }

  lemma ReflectedByte(b: Byte)
    ensures Resize(Mirror(b[..8]), 8) == Mirror(b)
    ensures Mirror(Mirror(b)) == b
  {
    assert b[..8] == b;
  }

  //  The lookup table

  function ByteIndex(b: Byte): (k: nat)
    ensures k < 256
  {
    assert Pow2(8) == 256;
    ToNat(b)
  }

  /** Where the division of `b` is stored. */
  function Placed(b: Byte, reflected: bool): Byte {
    if reflected then Mirror(b) else b
  }

  lemma PlacedInverse(b: Byte, reflected: bool)
    ensures Placed(Placed(b, reflected), reflected) == b
  {
  }

  /** The index byte under which the division of the number `d` is stored. */
  function Home(d: nat, reflected: bool): Byte {
    Placed(FromNat(d, 8), reflected)
  }

  lemma HomesAreDistinct(c: nat, d: nat, reflected: bool)
    requires c < 256 && d < 256 && c != d
    ensures ByteIndex(Home(c, reflected)) != ByteIndex(Home(d, reflected))
  {
    assert Pow2(8) == 256;
    FromNatInjective(c, d, 8);
    PlaceInjective(FromNat(c, 8), FromNat(d, 8), reflected);
  }

  lemma HomesCoverAll(b: Byte, reflected: bool) returns (d: nat)
    ensures d < 256 && Home(d, reflected) == b
  {
    var c := Placed(b, reflected);
    d := ByteIndex(c);
    FromNatToNat(c);
    PlacedInverse(b, reflected);
  }

  lemma FromNatInjective(c: nat, d: nat, width: nat)
    requires c < Pow2(width) && d < Pow2(width) && c != d
    ensures FromNat(c, width) != FromNat(d, width)
  {
    ToNatFromNat(c, width);
    ToNatFromNat(d, width);
    EuclideanUnique(c, Pow2(width), 0, c);
    EuclideanUnique(d, Pow2(width), 0, d);
  }

  lemma PlaceInjective(a: Byte, b: Byte, reflected: bool)
    requires a != b
    ensures ByteIndex(Placed(a, reflected)) != ByteIndex(Placed(b, reflected))
  {
    PlacedInverse(a, reflected);
    PlacedInverse(b, reflected);
    FromNatToNat(Placed(a, reflected));
    FromNatToNat(Placed(b, reflected));
  }

  /** What the slot of index byte `b` must hold. */
  predicate SlotFor(n: nat, poly: Word, reflected: bool, b: Byte, slot: Word)
    requires 1 <= n <= |poly|
  {
    var d := DivBits(poly[..n], Zeros(n), ByteBits(b, reflected));
    |slot| == |poly| && if reflected then slot == Resize(Mirror(d), |poly|) else slot[..n] == d
  }

  lemma SlotFilled(n: nat, poly: Word, reflected: bool, b: Byte, slot: Word)
    requires 1 <= n <= |poly| == |slot|
    requires var d := DivBits(poly[..n], Zeros(n), Mirror(b));
             if reflected then slot == Resize(Mirror(d), |poly|) else slot[..n] == d
    ensures SlotFor(n, poly, reflected, Placed(b, reflected), slot)
  {
  }

  lemma MaskLive(j: nat)
    ensures Nonzero(Shr(Bit(8, 7), j)) <==> j < 8
  {
    var mask := Shr(Bit(8, 7), j);
    assert mask == if j < 8 then Bit(8, 7 - j) else Zeros(8);
    if j < 8 {
      assert mask[7 - j];
    }
  }

  lemma MaskAt(dividend: Byte, j: nat)
    requires j < 8
    ensures Nonzero(And(dividend, Shr(Bit(8, 7), j))) <==> Mirror(dividend)[j]
    ensures Shr(Shr(Bit(8, 7), j), 1) == Shr(Bit(8, 7), j + 1)
  {
    assert Shr(Bit(8, 7), j) == Bit(8, 7 - j);
    SingleBit(dividend, 7 - j);
  }

  //  One byte

  /** Which slot the next byte selects. */
  function HelperIndex(n: nat, reflected: bool, rem: Word, x: Byte): (i: Byte)
    requires 1 <= n <= |rem|
  {
    if reflected then Xor(x, Resize(rem, 8))
    else if n > 8 then Xor(x, Resize(Shr(rem, n - 8), 8))
    else Xor(x, Resize(Shl(rem, 8 - n), 8))
  }

  function HelperShift(reflected: bool, rem: Word): Word {
    if reflected then Shr(rem, 8) else Shl(rem, 8)
  }

  /** The word `rem` stands for the remainder `r`. */
  predicate Represents(n: nat, reflected: bool, rem: Word, r: Word)
    requires n <= |rem|
  {
    |r| == n && if reflected then rem == Resize(Mirror(r), |rem|) else rem[..n] == r
  }

  lemma ReflectedRepresents(n: nat, x: Word)
    requires n <= |x|
    ensures Represents(n, true, Resize(Mirror(x[..n]), |x|), x[..n])
    ensures Mirror(Resize(Mirror(x[..n]), |x|)[..n]) == x[..n]
  {
  }

  lemma RepresentsUnique(n: nat, reflected: bool, rem: Word, r: Word)
    requires n <= |rem| && Represents(n, reflected, rem, r)
    ensures r == if reflected then Mirror(rem[..n]) else rem[..n]
  {
  }

  lemma SameUpToWidth(a: Word, v: nat, w: nat)
    requires |a| <= v && |a| <= w
    ensures Resize(Resize(a, v), w) == Resize(a, w) && Resize(Resize(a, w), v) == Resize(a, v)
  {
  }

  /** Un-reflecting when the two flags differ publishes what the plain engine publishes. */
  lemma PublishFrom(n: nat, reflected: bool, reflectRem: bool, rem: Word, out: Word, final: Word)
    requires 1 <= n <= |rem| == |final|
    requires out == if reflectRem != reflected then Resize(Mirror(rem[..n]), |rem|) else rem
    ensures And(Xor(out, final), LowMask(|rem|, n))
         == Resize(Publish(if reflected then Mirror(rem[..n]) else rem[..n], final[..n], reflectRem), |rem|)
  {
    var r := if reflected then Mirror(rem[..n]) else rem[..n];
    MirrorInvolution(rem[..n]);
    assert out[..n] == if reflectRem then Mirror(r) else r;
  }

  /** One table look-up does the eight division steps of one byte. */
  lemma ByteStep(n: nat, poly: Word, reflected: bool, rem: Word, r: Word, x: Byte, slot: Word)
    requires 1 <= n <= |poly| == |rem| && |poly| >= 8
    requires Represents(n, reflected, rem, r)
    requires SlotFor(n, poly, reflected, HelperIndex(n, reflected, rem, x), slot)
    ensures Represents(n, reflected, Xor(HelperShift(reflected, rem), slot),
                       DivBits(poly[..n], r, ByteBits(x, reflected)))
  {
    var p, fed := poly[..n], ByteBits(x, reflected);
    var d := DivBits(p, Zeros(n), Xor(fed, Top(r, 8)));
    DivBitsSplit(p, r, fed);
    IndexIsTop(n, reflected, rem, r, x);
    if reflected {
      ShiftReflected(r, d, rem, slot);
    } else {
      ShiftPlain(n, rem, slot);
    }
  }

  lemma IndexIsTop(n: nat, reflected: bool, rem: Word, r: Word, x: Byte)
    requires 1 <= n <= |rem| && |rem| >= 8 && Represents(n, reflected, rem, r)
    ensures ByteBits(HelperIndex(n, reflected, rem, x), reflected) == Xor(ByteBits(x, reflected), Top(r, 8))
  {
    var lhs, rhs := ByteBits(HelperIndex(n, reflected, rem, x), reflected), Xor(ByteBits(x, reflected), Top(r, 8));
    forall i | 0 <= i < 8 ensures lhs[i] == rhs[i] {
      if !reflected {
        assert forall k :: 0 <= k < n ==> rem[k] == r[k];
      }
    }
  }

  lemma ShiftPlain(n: nat, rem: Word, slot: Word)
    requires n <= |rem| == |slot|
    ensures Xor(Shl(rem, 8), slot)[..n] == Xor(Shl(rem[..n], 8), slot[..n])
  {
  }

  lemma ShiftReflected(r: Word, d: Word, rem: Word, slot: Word)
    requires |r| == |d| <= |rem| == |slot|
    requires rem == Resize(Mirror(r), |rem|) && slot == Resize(Mirror(d), |rem|)
    ensures Xor(Shr(rem, 8), slot) == Resize(Mirror(Xor(Shl(r, 8), d)), |rem|)
  {
  }

  /** The byte step of the augmented division, for remainders of at least a byte. */
  lemma AugmentedByteStep(n: nat, poly: Word, rem: Word, x: Byte, slot: Word)
    requires 8 <= n <= |poly| == |rem|
    requires SlotFor(n, poly, false, Resize(Shr(rem, n - 8), 8), slot)
    ensures Xor(Or(Shl(rem, 8), Resize(x, |poly|)), slot)[..n]
         == AugBits(poly[..n], rem[..n], ByteBits(x, false))
  {
    var p, r, fed := poly[..n], rem[..n], ByteBits(x, false);
    AugBitsSplit(p, r, fed);
    MirrorInvolution(x);
    TopByte(n, rem);
    ShiftIn(n, rem, x, slot);
  }

  lemma TopByte(n: nat, rem: Word)
    requires 8 <= n <= |rem|
    ensures Mirror(Resize(Shr(rem, n - 8), 8)) == Top(rem[..n], 8)
  {
  }

  lemma ShiftIn(n: nat, rem: Word, x: Byte, slot: Word)
    requires n <= |rem| == |slot|
    ensures Xor(Or(Shl(rem, 8), Resize(x, |rem|)), slot)[..n]
         == Xor(Xor(Shl(rem[..n], 8), Resize(x, n)), slot[..n])
  {
  }

  lemma AugmentedSnoc(p: Word, r: Word, msg: seq<Byte>, i: nat)
    requires |r| == |p| >= 1 && i < |msg|
    ensures AugBits(p, r, MessageBits(msg[..i + 1], false))
         == AugBits(p, AugBits(p, r, MessageBits(msg[..i], false)), ByteBits(msg[i], false))
  {
    assert msg[..i + 1][..i] == msg[..i];
    AugBitsConcat(p, r, MessageBits(msg[..i], false), ByteBits(msg[i], false));
  }
}
