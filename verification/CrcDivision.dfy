/**
 What a CRC is: polynomial division over GF(2), one message bit at a time. A
 remainder of `n` bits lists its coefficients from x^0 to x^(n-1); `p` holds the
 low `n` coefficients of a divisor whose leading coefficient x^n is implied.
 */
module CrcDivision {
  import opened Words

  /** One step of long division: multiply by x, bring in `b` at x^n, reduce. */
  function DivStep(p: Word, r: Word, b: bool): (r': Word)
    requires |r| == |p| >= 1
    ensures |r'| == |r|
  {
    if r[|r| - 1] != b then Xor(Shl(r, 1), p) else Shl(r, 1)
  }

  /** The remainder after dividing all of `bits`, first bit first. */
  function DivBits(p: Word, r: Word, bits: seq<bool>): (r': Word)
    requires |r| == |p| >= 1
    ensures |r'| == |r|
  {
    if bits == [] then r
    else DivStep(p, DivBits(p, r, bits[..|bits| - 1]), bits[|bits| - 1])
  }

  /** The order in which a byte's bits enter the division. */
  function ByteBits(b: Byte, reflected: bool): (bits: seq<bool>)
    ensures |bits| == 8
  {
    if reflected then b else Mirror(b)
  }

  function MessageBits(msg: seq<Byte>, reflected: bool): (bits: seq<bool>)
    ensures |bits| == 8 * |msg|
  {
    if msg == [] then []
    else MessageBits(msg[..|msg| - 1], reflected) + ByteBits(msg[|msg| - 1], reflected)
  }

  /** The checksum that is published for a remainder. */
  function Publish(r: Word, finalXor: Word, reflected: bool): Word
    requires |r| == |finalXor|
  {
    Xor(if reflected then Mirror(r) else r, finalXor)
  }

  lemma {:induction false} DivBitsConcat(p: Word, r: Word, a: seq<bool>, b: seq<bool>)
    requires |r| == |p| >= 1
    ensures DivBits(p, r, a + b) == DivBits(p, DivBits(p, r, a), b)
    decreases |b|
  {
    if b == [] {
      assert a + b == a;
    } else {
      var m := |b| - 1;
      DivBitsConcat(p, r, a, b[..m]);
      assert (a + b)[..|a + b| - 1] == a + b[..m];
    }
  }

  lemma {:induction false} MessageBitsConcat(a: seq<Byte>, b: seq<Byte>, reflected: bool)
    ensures MessageBits(a + b, reflected) == MessageBits(a, reflected) + MessageBits(b, reflected)
    decreases |b|
  {
    if b == [] {
      assert a + b == a;
    } else {
      var m := |b| - 1;
      var c := a + b;
      assert c[..|c| - 1] == a + b[..m] && c[|c| - 1] == b[m];
      calc {
        MessageBits(c, reflected);
        MessageBits(a + b[..m], reflected) + ByteBits(b[m], reflected);
        { MessageBitsConcat(a, b[..m], reflected); }
        MessageBits(a, reflected) + MessageBits(b[..m], reflected) + ByteBits(b[m], reflected);
        MessageBits(a, reflected) + MessageBits(b, reflected);
      }
    }
  }

  //  Linearity

  /** Division is xor-linear in the remainder and the message together. */
  lemma {:induction false} DivBitsLinear(p: Word, r: Word, s: Word, a: seq<bool>, b: seq<bool>)
    requires |r| == |s| == |p| >= 1 && |a| == |b|
    ensures DivBits(p, Xor(r, s), Xor(a, b)) == Xor(DivBits(p, r, a), DivBits(p, s, b))
    decreases |a|
  {
    if a != [] {
      var m := |a| - 1;
      DivBitsLinear(p, r, s, a[..m], b[..m]);
      assert Xor(a, b)[..m] == Xor(a[..m], b[..m]);
      DivStepLinear(p, DivBits(p, r, a[..m]), DivBits(p, s, b[..m]), a[m], b[m]);
    }
  }

  lemma DivStepLinear(p: Word, r: Word, s: Word, a: bool, b: bool)
    requires |r| == |s| == |p| >= 1
    ensures DivStep(p, Xor(r, s), a != b) == Xor(DivStep(p, r, a), DivStep(p, s, b))
  {
    var lhs, rhs := DivStep(p, Xor(r, s), a != b), Xor(DivStep(p, r, a), DivStep(p, s, b));
    forall i | 0 <= i < |p| ensures lhs[i] == rhs[i] {
    }
  }

  //  Many steps at once

  /** The top `k` bits of `r`, highest first, as if `r` went on with zeros below. */
  function Top(r: Word, k: nat): (t: seq<bool>)
    ensures |t| == k
  {
    seq(k, i requires i >= 0 => i < |r| && r[|r| - 1 - i])
  }

  /**
   The table-driven step: feeding `k` bits into `r` shifts `r` by `k` and adds
   the division, from zero, of those bits xored with the top of `r`.
   */
  lemma {:induction false} DivBitsSplit(p: Word, r: Word, bits: seq<bool>)
    requires |r| == |p| >= 1
    ensures DivBits(p, r, bits)
         == Xor(Shl(r, |bits|), DivBits(p, Zeros(|p|), Xor(bits, Top(r, |bits|))))
    decreases |bits|
  {
    var zero := Zeros(|p|);
    if bits == [] {
      assert r == Xor(Shl(r, 0), zero);
    } else {
      var m := |bits| - 1;
      var t := Top(r, |bits|);
      var fed := Xor(bits, t);
      DivBitsSplit(p, r, bits[..m]);
      FedPrefix(r, bits);
      DivStepLinear(p, Shl(r, m), DivBits(p, zero, fed[..m]), t[m], fed[m]);
      TopCancels(p, r, m);
    }
  }

  lemma FedPrefix(r: Word, bits: seq<bool>)
    requires |bits| >= 1
    ensures var m := |bits| - 1;
            Xor(bits, Top(r, |bits|))[..m] == Xor(bits[..m], Top(r, m))
  {
  }

  lemma TopCancels(p: Word, r: Word, m: nat)
    requires |r| == |p| >= 1
    ensures DivStep(p, Shl(r, m), Top(r, m + 1)[m]) == Shl(r, m + 1)
  {
    var n, s := |r|, Shl(r, m);
    assert s[n - 1] == Top(r, m + 1)[m];
    forall i | 0 <= i < n ensures Shl(s, 1)[i] == Shl(r, m + 1)[i] {
    }
  }
}
