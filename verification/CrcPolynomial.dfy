/**
 The CRC remainder as a polynomial over GF(2): the unique residue of the message,
 and what that residue is good for (error detection).
 */
module CrcPolynomial {
  import opened Words
  import opened CrcDivision

  /** The product of two polynomials: (q0 + x q')d = q0 d + x (q' d). */
  function Product(q: Word, d: Word): (r: Word)
    requires |d| >= 1
    ensures |r| == |q| + |d| - 1
  {
    if q == [] then Zeros(|d| - 1)
    else
      var tail := Product(q[1..], d);
      seq(|q| + |d| - 1, i requires 0 <= i <= |tail| => (q[0] && i < |d| && d[i]) != (i > 0 && tail[i - 1]))
  }

  /** The divisor: `p` below the implied leading coefficient. */
  function Divisor(p: Word): Word {
    p + [true]
  }

  /** M(x) x^n + I(x) x^m for the `m` message bits, highest coefficient first, and `init`. */
  function Dividend(init: Word, bits: seq<bool>): (d: Word)
    ensures |d| == |init| + |bits|
  {
    Xor(Zeros(|init|) + Mirror(bits), Zeros(|bits|) + init)
  }

  /** `q` and `r` are quotient and remainder of the dividend: M x^n + I x^m == q P + r. */
  predicate IsDivision(p: Word, init: Word, bits: seq<bool>, q: Word, r: Word)
    requires |init| == |p|
  {
    && |q| == |bits| && |r| == |p|
    && Dividend(init, bits) == Xor(Product(q, Divisor(p)), Resize(r, |p| + |bits|))
  }

  /** The engine's remainder is the remainder of that division, and only it is. */
  lemma RemainderIsUniqueResidue(p: Word, init: Word, bits: seq<bool>, r: Word)
    requires |init| == |p| >= 1 && |r| == |p|
    ensures r == DivBits(p, init, bits) <==> exists q :: IsDivision(p, init, bits, q, r)
  {
    var q := Quotient(p, init, bits);
    DivisionAlgorithm(p, init, bits);
    if q' :| IsDivision(p, init, bits, q', r) {
      DivisionIsUnique(p, init, bits, q, DivBits(p, init, bits), q', r);
    }
  }

  /** The quotient bits: the steps in which the divisor was subtracted, last step lowest. */
  function Quotient(p: Word, init: Word, bits: seq<bool>): (q: Word)
    requires |init| == |p| >= 1
    ensures |q| == |bits|
  {
    if bits == [] then []
    else
      var m := |bits| - 1;
      [DivBits(p, init, bits[..m])[|p| - 1] != bits[m]] + Quotient(p, init, bits[..m])
  }

  lemma {:induction false} DivisionAlgorithm(p: Word, init: Word, bits: seq<bool>)
    requires |init| == |p| >= 1
    ensures IsDivision(p, init, bits, Quotient(p, init, bits), DivBits(p, init, bits))
    decreases |bits|
  {
    if bits == [] {
      assert Dividend(init, bits) == init == Resize(init, |p|);
      assert Xor(Zeros(|p|), init) == init;
    } else {
      var m := |bits| - 1;
      DivisionAlgorithm(p, init, bits[..m]);
      DivisionStep(p, init, bits[..m], bits[m], Quotient(p, init, bits[..m]), DivBits(p, init, bits[..m]));
      assert bits == bits[..m] + [bits[m]];
    }
  }

  lemma DivisionStep(p: Word, init: Word, bits: seq<bool>, b: bool, q: Word, r: Word)
    requires |init| == |p| >= 1 && IsDivision(p, init, bits, q, r)
    ensures IsDivision(p, init, bits + [b], [r[|p| - 1] != b] + q, DivStep(p, r, b))
  {
    var w := |p| + |bits| + 1;
    var q', r' := [r[|p| - 1] != b] + q, DivStep(p, r, b);
    var product := Product(q', Divisor(p));
    assert |q'| == |bits + [b]|;
    assert Dividend(init, bits + [b]) == Xor(product, Resize(r', w)) by {
      forall i | 0 <= i < w
        ensures Dividend(init, bits + [b])[i] == (product[i] != Resize(r', w)[i])
      {
        DivisionStepAt(p, init, bits, b, q, r, i);
      }
    }
  }

  lemma DivisionStepAt(p: Word, init: Word, bits: seq<bool>, b: bool, q: Word, r: Word, i: nat)
    requires |init| == |p| >= 1 && IsDivision(p, init, bits, q, r)
    requires i < |p| + |bits| + 1
    ensures Dividend(init, bits + [b])[i]
         == (Product([r[|p| - 1] != b] + q, Divisor(p))[i] != (i < |p| && DivStep(p, r, b)[i]))
  {
    var n, d := |p|, Divisor(p);
    var t := r[n - 1] != b;
    ProductStep(t, q, d, i);
    DividendStep(init, bits, b, i);
    if i > 0 {
      assert Dividend(init, bits)[i - 1] == Xor(Product(q, d), Resize(r, n + |bits|))[i - 1];
    }
    if i < n {
      DivStepAt(p, r, b, i);
    }
  }

  lemma DivStepAt(p: Word, r: Word, b: bool, i: nat)
    requires |r| == |p| && i < |p|
    ensures DivStep(p, r, b)[i] == ((i > 0 && r[i - 1]) != ((r[|p| - 1] != b) && p[i]))
  {
  }

  lemma ProductStep(t: bool, q: Word, d: Word, i: nat)
    requires |d| >= 1 && i < |q| + |d|
    ensures Product([t] + q, d)[i] == ((t && i < |d| && d[i]) != (i > 0 && Product(q, d)[i - 1]))
  {
    ProductHead([t] + q, d, i);
    assert ([t] + q)[1..] == q;
  }

  lemma ProductHead(q: Word, d: Word, i: nat)
    requires |q| >= 1 && |d| >= 1 && i < |q| + |d| - 1
    ensures Product(q, d)[i] == ((q[0] && i < |d| && d[i]) != (i > 0 && Product(q[1..], d)[i - 1]))
  {
  }

  lemma DividendStep(init: Word, bits: seq<bool>, b: bool, i: nat)
    requires i < |init| + |bits| + 1
    ensures Dividend(init, bits + [b])[i]
         == ((i > 0 && Dividend(init, bits)[i - 1]) != (i == |init| && b))
  {
    var n := |init|;
    assert Mirror(bits + [b]) == [b] + Mirror(bits);
  }

  //  Uniqueness

  lemma DivisionIsUnique(p: Word, init: Word, bits: seq<bool>, q1: Word, r1: Word, q2: Word, r2: Word)
    requires |init| == |p| >= 1
    requires IsDivision(p, init, bits, q1, r1) && IsDivision(p, init, bits, q2, r2)
    ensures q1 == q2 && r1 == r2
  {
    var n, w, d := |p|, |p| + |bits|, Divisor(p);
    var a, b := Product(q1, d), Product(q2, d);
    forall i | 0 <= i < w
      ensures (a[i] != Resize(r1, w)[i]) == (b[i] != Resize(r2, w)[i])
    {
      assert Xor(a, Resize(r1, w))[i] == Xor(b, Resize(r2, w))[i];
    }
    if q1 != q2 {
      var k := TopDifference(q1, q2);
      ProductTop(p, q1, q2, k);
      assert false;
    } else {
      forall i | 0 <= i < n ensures r1[i] == r2[i] {
        assert Resize(r1, w)[i] == r1[i] && Resize(r2, w)[i] == r2[i];
      }
    }
  }

  lemma {:induction false} TopDifference(a: Word, b: Word) returns (k: nat)
    requires |a| == |b| && a != b
    ensures k < |a| && a[k] != b[k] && forall i :: k < i < |a| ==> a[i] == b[i]
    decreases |a|
  {
    var m := |a| - 1;
    k := m;
    if a[m] == b[m] {
      assert a == a[..m] + [a[m]] && b == b[..m] + [b[m]];
      k := TopDifference(a[..m], b[..m]);
      forall i | k < i < |a| ensures a[i] == b[i] {
        assert i < m ==> a[i] == a[..m][i] && b[i] == b[..m][i];
      }
    }
  }

  /** The divisor is monic, so products of polynomials that differ at x^k differ at x^(k+n). */
  lemma {:induction false} ProductTop(p: Word, q1: Word, q2: Word, k: nat)
    requires |q1| == |q2| && k < |q1| && q1[k] != q2[k] && forall i :: k < i < |q1| ==> q1[i] == q2[i]
    ensures Product(q1, Divisor(p))[k + |p|] != Product(q2, Divisor(p))[k + |p|]
    decreases k
  {
    var d := Divisor(p);
    ProductHead(q1, d, k + |p|);
    ProductHead(q2, d, k + |p|);
    if k == 0 {
      assert q1[1..] == q2[1..];
    } else {
      ProductTop(p, q1[1..], q2[1..], k - 1);
    }
  }
}
