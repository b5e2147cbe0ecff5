/**
 Why a CRC is worth computing: two messages collide exactly when the divisor
 divides their difference, and no burst as short as the remainder goes unseen.
 */
module CrcDetection {
  import opened Words
  import opened CrcDivision
  import opened CrcPolynomial

  /** Equal-length messages get the same remainder iff their xor is a multiple of the divisor. */
  lemma CollisionIffDivisible(p: Word, init: Word, a: seq<bool>, b: seq<bool>)
    requires |init| == |p| >= 1 && |a| == |b|
    ensures DivBits(p, init, a) == DivBits(p, init, b) <==> exists q :: IsMultiple(p, Xor(a, b), q)
  {
    var zero, e := Zeros(|p|), Xor(a, b);
    DifferenceRemainder(p, init, a, b);
    RemainderIsUniqueResidue(p, zero, e, zero);
    forall q ensures IsDivision(p, zero, e, q, zero) <==> IsMultiple(p, e, q) {
      MultipleIsEvenDivision(p, e, q);
    }
  }

  /** E(x) x^n == q P, for the polynomial E whose coefficients are `bits`, highest first. */
  predicate IsMultiple(p: Word, bits: seq<bool>, q: Word) {
    |q| == |bits| && Product(q, Divisor(p)) == Zeros(|p|) + Mirror(bits)
  }

  lemma MultipleIsEvenDivision(p: Word, bits: seq<bool>, q: Word)
    requires |p| >= 1
    ensures IsDivision(p, Zeros(|p|), bits, q, Zeros(|p|)) <==> IsMultiple(p, bits, q)
  {
    if |q| == |bits| {
      var zero, d := Zeros(|p|), Product(q, Divisor(p));
      assert Dividend(zero, bits) == zero + Mirror(bits);
      assert Xor(d, Resize(zero, |p| + |bits|)) == d;
    }
  }

  lemma DifferenceRemainder(p: Word, init: Word, a: seq<bool>, b: seq<bool>)
    requires |init| == |p| >= 1 && |a| == |b|
    ensures DivBits(p, init, a) == DivBits(p, init, b) <==> DivBits(p, Zeros(|p|), Xor(a, b)) == Zeros(|p|)
  {
    assert Xor(init, init) == Zeros(|p|);
    DivBitsLinear(p, init, init, a, b);
    XorZero(DivBits(p, init, a), DivBits(p, init, b));
  }

  lemma XorZero(a: Word, b: Word)
    requires |a| == |b|
    ensures Xor(a, b) == Zeros(|a|) <==> a == b
  {
    if Xor(a, b) == Zeros(|a|) {
      forall i | 0 <= i < |a| ensures a[i] == b[i] {
        assert !Xor(a, b)[i];
      }
    }
  }

  /**
   If the divisor has a constant term, two messages that differ, and differ only
   inside a window of at most `n` consecutive bits, never get the same remainder.
   */
  lemma BurstIsDetected(p: Word, init: Word, a: seq<bool>, b: seq<bool>, lo: nat, hi: nat)
    requires |init| == |p| >= 1 && p[0]
    requires lo <= hi <= |a| == |b| && hi - lo <= |p|
    requires a != b && a[..lo] == b[..lo] && a[hi..] == b[hi..]
    ensures DivBits(p, init, a) != DivBits(p, init, b)
  {
    var window := Xor(a[lo..hi], b[lo..hi]);
    DifferenceShape(a, b, lo, hi);
    DifferenceInside(a, b, lo, hi);
    XorZero(a[lo..hi], b[lo..hi]);
    ShiftedBurst(p, lo, window, |a| - hi);
    DifferenceRemainder(p, init, a, b);
  }

  /** The same for the published checksums, whatever the flags and the final xor. */
  lemma BurstChangesChecksum(p: Word, init: Word, finalXor: Word, reflectIn: bool, reflectRem: bool,
                             a: seq<Byte>, b: seq<Byte>, lo: nat, hi: nat)
    requires |init| == |finalXor| == |p| >= 1 && p[0]
    requires |a| == |b| && lo <= hi <= 8 * |a| && hi - lo <= |p|
    requires var x, y := MessageBits(a, reflectIn), MessageBits(b, reflectIn);
             x != y && x[..lo] == y[..lo] && x[hi..] == y[hi..]
    ensures Publish(DivBits(p, init, MessageBits(a, reflectIn)), finalXor, reflectRem)
         != Publish(DivBits(p, init, MessageBits(b, reflectIn)), finalXor, reflectRem)
  {
    var x, y := MessageBits(a, reflectIn), MessageBits(b, reflectIn);
    BurstIsDetected(p, init, x, y, lo, hi);
    PublishInjective(DivBits(p, init, x), DivBits(p, init, y), finalXor, reflectRem);
  }

  lemma PublishInjective(r: Word, s: Word, finalXor: Word, reflected: bool)
    requires |r| == |s| == |finalXor| && r != s
    ensures Publish(r, finalXor, reflected) != Publish(s, finalXor, reflected)
  {
    var i :| 0 <= i < |r| && r[i] != s[i];
    var k := if reflected then |r| - 1 - i else i;
    assert Publish(r, finalXor, reflected)[k] != Publish(s, finalXor, reflected)[k];
  }

  lemma DifferenceInside(a: seq<bool>, b: seq<bool>, lo: nat, hi: nat)
    requires lo <= hi <= |a| == |b| && a[..lo] == b[..lo] && a[hi..] == b[hi..] && a != b
    ensures a[lo..hi] != b[lo..hi]
  {
    assert a == a[..lo] + a[lo..hi] + a[hi..];
    assert b == b[..lo] + b[lo..hi] + b[hi..];
  }

  lemma DifferenceShape(a: seq<bool>, b: seq<bool>, lo: nat, hi: nat)
    requires lo <= hi <= |a| == |b| && a[..lo] == b[..lo] && a[hi..] == b[hi..]
    ensures Xor(a, b) == Zeros(lo) + Xor(a[lo..hi], b[lo..hi]) + Zeros(|a| - hi)
  {
    var e := Zeros(lo) + Xor(a[lo..hi], b[lo..hi]) + Zeros(|a| - hi);
    forall i | 0 <= i < |a| ensures Xor(a, b)[i] == e[i] {
      if i < lo {
        assert a[..lo][i] == b[..lo][i];
      } else if i >= hi {
        assert a[hi..][i - hi] == b[hi..][i - hi];
      }
    }
  }

  lemma ShiftedBurst(p: Word, before: nat, window: seq<bool>, after: nat)
    requires |window| <= |p| && |p| >= 1 && p[0] && window != Zeros(|window|)
    ensures DivBits(p, Zeros(|p|), Zeros(before) + window + Zeros(after)) != Zeros(|p|)
  {
    var zero := Zeros(|p|);
    DivBitsConcat(p, zero, Zeros(before) + window, Zeros(after));
    DivBitsConcat(p, zero, Zeros(before), window);
    ZeroStaysZero(p, before);
    WindowIsSeen(p, window);
    NonzeroStays(p, DivBits(p, zero, window), after);
  }

  lemma {:induction false} ZeroStaysZero(p: Word, k: nat)
    requires |p| >= 1
    ensures DivBits(p, Zeros(|p|), Zeros(k)) == Zeros(|p|)
  {
    if k != 0 {
      assert Zeros(k)[..k - 1] == Zeros(k - 1);
      ZeroStaysZero(p, k - 1);
    }
  }

  lemma {:induction false} NonzeroStays(p: Word, r: Word, k: nat)
    requires |r| == |p| >= 1 && p[0] && r != Zeros(|p|)
    ensures DivBits(p, r, Zeros(k)) != Zeros(|p|)
  {
    if k != 0 {
      assert Zeros(k)[..k - 1] == Zeros(k - 1);
      NonzeroStays(p, r, k - 1);
      NonzeroStep(p, DivBits(p, r, Zeros(k - 1)));
    }
  }

  lemma NonzeroStep(p: Word, r: Word)
    requires |r| == |p| >= 1 && p[0] && r != Zeros(|p|)
    ensures DivStep(p, r, false) != Zeros(|p|)
  {
    var n := |p|;
    var r' := DivStep(p, r, false);
    if r[n - 1] {
      assert r'[0];
    } else {
      var i :| 0 <= i < n && r[i];
      assert r'[i + 1];
    }
  }

  /** A short window fed to an empty remainder acts like the same bits already at its top. */
  lemma WindowIsSeen(p: Word, window: seq<bool>)
    requires |window| <= |p| && |p| >= 1 && p[0] && window != Zeros(|window|)
    ensures DivBits(p, Zeros(|p|), window) != Zeros(|p|)
  {
    var zero := Zeros(|p|);
    var r := AlignTop(window, |p|);
    DivBitsSplit(p, r, Zeros(|window|));
    XorIdentity(window);
    XorIdentity(DivBits(p, zero, window));
    NonzeroStays(p, r, |window|);
  }

  lemma AlignTop(window: seq<bool>, n: nat) returns (r: Word)
    requires |window| <= n && window != Zeros(|window|)
    ensures |r| == n && r != Zeros(n) && Shl(r, |window|) == Zeros(n) && Top(r, |window|) == window
  {
    var k := |window|;
    r := Zeros(n - k) + Mirror(window);
    forall i | 0 <= i < k ensures Top(r, k)[i] == window[i] {
      assert r[n - 1 - i] == Mirror(window)[k - 1 - i];
    }
    var i :| 0 <= i < k && window[i];
    assert r[n - 1 - i];
  }

  lemma XorIdentity(a: Word)
    ensures Xor(Zeros(|a|), a) == a
  {
  }
}
