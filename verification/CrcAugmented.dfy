/**
 Division of an augmented message: bits enter at x^0, and the message carries its
 own room for the remainder at its end.
 */
module CrcAugmented {
  import opened Words
  import opened CrcDivision
  import opened CrcDetection

  /** Multiply by x, bring in `b` at x^0, reduce. */
  function AugStep(p: Word, r: Word, b: bool): (r': Word)
    requires |r| == |p| >= 1
    ensures |r'| == |r|
  {
    var shifted := [b] + r[..|r| - 1];
    if r[|r| - 1] then Xor(shifted, p) else shifted
  }

  function AugBits(p: Word, r: Word, bits: seq<bool>): (r': Word)
    requires |r| == |p| >= 1
    ensures |r'| == |r|
  {
    if bits == [] then r
    else AugStep(p, AugBits(p, r, bits[..|bits| - 1]), bits[|bits| - 1])
  }

  /** `n` zero bits after the message make the augmented division the plain one. */
  lemma AugmentedIsPlain(p: Word, bits: seq<bool>)
    requires |p| >= 1
    ensures AugBits(p, Zeros(|p|), bits + Zeros(|p|)) == DivBits(p, Zeros(|p|), bits)
  {
    AugmentedIsPlainFrom(p, Zeros(|p|), bits);
    ZeroStaysZero(p, |p|);
  }

  /** With an initial remainder the plain division starts from that remainder times x^n. */
  lemma AugmentedIsPlainFrom(p: Word, init: Word, bits: seq<bool>)
    requires |init| == |p| >= 1
    ensures AugBits(p, init, bits + Zeros(|p|)) == DivBits(p, DivBits(p, init, Zeros(|p|)), bits)
  {
    AugBitsConcat(p, init, bits, Zeros(|p|));
    AugOfZeros(p, AugBits(p, init, bits), |p|);
    ShiftCommutes(p, init, bits);
  }

  /** A message followed by its own remainder, highest bit first, divides evenly. */
  lemma SelfCheck(p: Word, bits: seq<bool>)
    requires |p| >= 1
    ensures AugBits(p, Zeros(|p|), bits + Mirror(DivBits(p, Zeros(|p|), bits))) == Zeros(|p|)
  {
    var n := |p|;
    var zero, crc := Zeros(n), DivBits(p, Zeros(n), bits);
    var m := Mirror(crc);
    AugLinear(p, zero, zero, bits + zero, Zeros(|bits|) + m);
    SideBySide(bits, m);
    assert Xor(zero, zero) == zero;
    AugmentedIsPlain(p, bits);
    AloneItIsItself(p, |bits|, crc);
    XorZero(crc, crc);
  }

  lemma SideBySide(a: seq<bool>, b: seq<bool>)
    ensures Xor(a + Zeros(|b|), Zeros(|a|) + b) == a + b
  {
  }

  /** A remainder after zeros only is shifted in unchanged. */
  lemma AloneItIsItself(p: Word, k: nat, crc: Word)
    requires |crc| == |p| >= 1
    ensures AugBits(p, Zeros(|p|), Zeros(k) + Mirror(crc)) == crc
  {
    AugBitsConcat(p, Zeros(|p|), Zeros(k), Mirror(crc));
    AugOfZeros(p, Zeros(|p|), k);
    ZeroStaysZero(p, k);
    AugShort(p, Mirror(crc));
    MirrorInvolution(crc);
    assert Resize(crc, |p|) == crc;
  }

  /** Up to `n` bits entering an empty remainder are only shifted in. */
  lemma {:induction false} AugShort(p: Word, bits: seq<bool>)
    requires 1 <= |p| && |bits| <= |p|
    ensures AugBits(p, Zeros(|p|), bits) == Resize(Mirror(bits), |p|)
    decreases |bits|
  {
    if bits == [] {
      assert Resize(Mirror(bits), |p|) == Zeros(|p|);
    } else {
      var m := |bits| - 1;
      AugShort(p, bits[..m]);
      assert Mirror(bits) == [bits[m]] + Mirror(bits[..m]);
    }
  }

  /** The table-driven step of the augmented division, for at most `n` bits. */
  lemma AugBitsSplit(p: Word, r: Word, bits: seq<bool>)
    requires |r| == |p| >= 1 && |bits| <= |p|
    ensures AugBits(p, r, bits)
         == Xor(Xor(Shl(r, |bits|), Resize(Mirror(bits), |p|)), DivBits(p, Zeros(|p|), Top(r, |bits|)))
  {
    var n, k := |p|, |bits|;
    AugLinear(p, r, Zeros(n), Zeros(k), bits);
    assert Xor(r, Zeros(n)) == r && Xor(Zeros(k), bits) == bits;
    AugOfZeros(p, r, k);
    AugShort(p, bits);
    DivBitsSplit(p, r, Zeros(k));
    assert Xor(Zeros(k), Top(r, k)) == Top(r, k);
    XorSwap(Shl(r, k), DivBits(p, Zeros(n), Top(r, k)), Resize(Mirror(bits), n));
  }

  lemma XorSwap(a: Word, b: Word, c: Word)
    requires |a| == |b| == |c|
    ensures Xor(Xor(a, b), c) == Xor(Xor(a, c), b)
  {
  }

  lemma {:induction false} AugBitsConcat(p: Word, r: Word, a: seq<bool>, b: seq<bool>)
    requires |r| == |p| >= 1
    ensures AugBits(p, r, a + b) == AugBits(p, AugBits(p, r, a), b)
    decreases |b|
  {
    if b == [] {
      assert a + b == a;
    } else {
      var m := |b| - 1;
      AugBitsConcat(p, r, a, b[..m]);
      assert (a + b)[..|a + b| - 1] == a + b[..m];
    }
  }

  lemma {:induction false} AugOfZeros(p: Word, r: Word, k: nat)
    requires |r| == |p| >= 1
    ensures AugBits(p, r, Zeros(k)) == DivBits(p, r, Zeros(k))
  {
    if k != 0 {
      assert Zeros(k)[..k - 1] == Zeros(k - 1);
      AugOfZeros(p, r, k - 1);
      var s := DivBits(p, r, Zeros(k - 1));
      assert [false] + s[..|s| - 1] == Shl(s, 1);
    }
  }

  lemma {:induction false} AugLinear(p: Word, r: Word, s: Word, a: seq<bool>, b: seq<bool>)
    requires |r| == |s| == |p| >= 1 && |a| == |b|
    ensures AugBits(p, Xor(r, s), Xor(a, b)) == Xor(AugBits(p, r, a), AugBits(p, s, b))
    decreases |a|
  {
    if a != [] {
      var m := |a| - 1;
      AugLinear(p, r, s, a[..m], b[..m]);
      assert Xor(a, b)[..m] == Xor(a[..m], b[..m]);
      AugStepLinear(p, AugBits(p, r, a[..m]), AugBits(p, s, b[..m]), a[m], b[m]);
    }
  }

  lemma AugStepLinear(p: Word, r: Word, s: Word, a: bool, b: bool)
    requires |r| == |s| == |p| >= 1
    ensures AugStep(p, Xor(r, s), a != b) == Xor(AugStep(p, r, a), AugStep(p, s, b))
  {
    var lhs, rhs := AugStep(p, Xor(r, s), a != b), Xor(AugStep(p, r, a), AugStep(p, s, b));
    forall i | 0 <= i < |p| ensures lhs[i] == rhs[i] {
    }
  }

  /** Multiplying by x^n turns an augmented step into a plain one. */
  lemma {:induction false} ShiftCommutes(p: Word, r: Word, bits: seq<bool>)
    requires |r| == |p| >= 1
    ensures DivBits(p, AugBits(p, r, bits), Zeros(|p|)) == DivBits(p, DivBits(p, r, Zeros(|p|)), bits)
    decreases |bits|
  {
    if bits != [] {
      var m := |bits| - 1;
      ShiftCommutes(p, r, bits[..m]);
      ShiftCommutesStep(p, AugBits(p, r, bits[..m]), bits[m]);
    }
  }

  lemma ShiftCommutesStep(p: Word, r: Word, b: bool)
    requires |r| == |p| >= 1
    ensures DivBits(p, AugStep(p, r, b), Zeros(|p|)) == DivStep(p, DivBits(p, r, Zeros(|p|)), b)
  {
    var zeros := Zeros(|p|);
    var unit := if b then Bit(|p|, 0) else zeros;
    var moved, shifted := DivStep(p, r, false), DivBits(p, r, zeros);
    StepsAsSums(p, r, b);
    XorZero(zeros, zeros);
    DivBitsLinear(p, moved, unit, zeros, zeros);
    ZeroLast(p, r, |p|);
    UnitTimesXn(p);
    ZeroStaysZero(p, |p|);
    StepsAsSums(p, shifted, b);
  }

  /** Both steps are the step for a zero bit plus what the bit itself brings in. */
  lemma StepsAsSums(p: Word, r: Word, b: bool)
    requires |r| == |p| >= 1
    ensures AugStep(p, r, b) == Xor(DivStep(p, r, false), if b then Bit(|p|, 0) else Zeros(|p|))
    ensures DivStep(p, r, b) == Xor(DivStep(p, r, false), if b then p else Zeros(|p|))
  {
    var aug, div, base := AugStep(p, r, b), DivStep(p, r, b), DivStep(p, r, false);
    forall i | 0 <= i < |p|
      ensures aug[i] == (base[i] != (b && i == 0)) && div[i] == (base[i] != (b && p[i]))
    {
    }
  }

  lemma ZeroLast(p: Word, r: Word, k: nat)
    requires |r| == |p| >= 1
    ensures DivBits(p, DivStep(p, r, false), Zeros(k)) == DivStep(p, DivBits(p, r, Zeros(k)), false)
  {
    assert Zeros(k) + [false] == [false] + Zeros(k);
    DivBitsConcat(p, r, [false], Zeros(k));
    DivBitsConcat(p, r, Zeros(k), [false]);
    assert forall s: Word | |s| == |p| :: DivBits(p, s, [false]) == DivStep(p, DivBits(p, s, []), false);
  }

  lemma UnitTimesXn(p: Word)
    requires |p| >= 1
    ensures DivBits(p, Bit(|p|, 0), Zeros(|p|)) == p
  {
    var n := |p|;
    DivBitsSplit(p, Bit(n, 0), Zeros(n));
    UnitOnTop(n);
    LastBitAlone(p, n - 1);
    XorIdentity(p);
  }

  lemma UnitOnTop(n: nat)
    requires n >= 1
    ensures Shl(Bit(n, 0), n) == Zeros(n)
    ensures Xor(Zeros(n), Top(Bit(n, 0), n)) == Zeros(n - 1) + [true]
  {
  }

  lemma LastBitAlone(p: Word, k: nat)
    requires |p| >= 1
    ensures DivBits(p, Zeros(|p|), Zeros(k) + [true]) == p
  {
    var bits := Zeros(k) + [true];
    assert bits[..|bits| - 1] == Zeros(k);
    ZeroStaysZero(p, k);
    assert DivStep(p, Zeros(|p|), true) == p;
  }

  //  In bytes, for remainders of whole bytes

  function ZeroBytes(k: nat): (z: seq<Byte>)
    ensures |z| == k
  {
    seq(k, i => Zeros(8))
  }

  function BigEndian(r: Word): (bytes: seq<Byte>)
    requires |r| % 8 == 0
    ensures |bytes| == |r| / 8
  {
    if r == [] then [] else BigEndian(r[8..]) + [r[..8]]
  }

  lemma {:induction false} BigEndianBits(r: Word)
    requires |r| % 8 == 0
    ensures MessageBits(BigEndian(r), false) == Mirror(r)
  {
    if r != [] {
      BigEndianBits(r[8..]);
      var bytes := BigEndian(r);
      assert bytes[..|bytes| - 1] == BigEndian(r[8..]);
      assert Mirror(r) == Mirror(r[8..]) + Mirror(r[..8]);
    }
  }

  lemma {:induction false} ZeroBytesBits(k: nat)
    ensures MessageBits(ZeroBytes(k), false) == Zeros(8 * k)
  {
    if k != 0 {
      ZeroBytesBits(k - 1);
      assert ZeroBytes(k)[..k - 1] == ZeroBytes(k - 1);
      assert Mirror(Zeros(8)) == Zeros(8);
    }
  }

  /** Appending `n / 8` zero bytes gives the plain CRC; appending the CRC itself gives zero. */
  lemma AugmentedFrames(p: Word, msg: seq<Byte>)
    requires |p| >= 8 && |p| % 8 == 0
    ensures var crc := DivBits(p, Zeros(|p|), MessageBits(msg, false));
            && AugBits(p, Zeros(|p|), MessageBits(msg + ZeroBytes(|p| / 8), false)) == crc
            && AugBits(p, Zeros(|p|), MessageBits(msg + BigEndian(crc), false)) == Zeros(|p|)
  {
    var bits := MessageBits(msg, false);
    var crc := DivBits(p, Zeros(|p|), bits);
    MessageBitsConcat(msg, ZeroBytes(|p| / 8), false);
    ZeroBytesBits(|p| / 8);
    AugmentedIsPlain(p, bits);
    MessageBitsConcat(msg, BigEndian(crc), false);
    BigEndianBits(crc);
    SelfCheck(p, bits);
  }
}
