/**
 Fixed-width unsigned machine words, as the C++ sources use them: a word is the
 sequence of its bits, least significant first, so its length is the number of
 digits of the unsigned type and masking to the low `n` bits is taking a prefix.
 */
module Words {

  type Word = seq<bool>

  type Byte = w: Word | |w| == 8 witness Zeros(8)

  function Zeros(width: nat): Word {
    seq(width, i => false)
  }

  /** The word `1 << k`. */
  function Bit(width: nat, k: nat): Word {
    seq(width, i => i == k)
  }

  function Xor(a: Word, b: Word): Word
    requires |a| == |b|
  {
    seq(|a|, i requires 0 <= i < |a| => a[i] != b[i])
  }

  function And(a: Word, b: Word): Word
    requires |a| == |b|
  {
    seq(|a|, i requires 0 <= i < |a| => a[i] && b[i])
  }

  function Or(a: Word, b: Word): Word
    requires |a| == |b|
  {
    seq(|a|, i requires 0 <= i < |a| => a[i] || b[i])
  }

  /** `a << k` truncated to the width of `a`. */
  function Shl(a: Word, k: nat): Word {
    seq(|a|, i requires 0 <= i < |a| => i >= k && a[i - k])
  }

  /** `a >> k` for an unsigned `a`. */
  function Shr(a: Word, k: nat): Word {
    seq(|a|, i requires 0 <= i < |a| => i + k < |a| && a[i + k])
  }

  /** Conversion between unsigned types: truncation or zero extension. */
  function Resize(a: Word, width: nat): Word {
    seq(width, i requires i >= 0 => i < |a| && a[i])
  }

  /** The mask of the `n` low bits. */
  function LowMask(width: nat, n: nat): Word {
    seq(width, i => i < n)
  }

  /** The bits in the opposite order. */
  function Mirror(a: Word): Word {
    seq(|a|, i requires 0 <= i < |a| => a[|a| - 1 - i])
  }

  lemma MirrorInvolution(a: Word)
    ensures Mirror(Mirror(a)) == a
  {
  }

  //  Words as numbers

  function Pow2(n: nat): (r: nat)
    ensures r >= 1
  {
    if n == 0 then 1 else 2 * Pow2(n - 1)
  }

  function ToNat(a: Word): (n: nat)
    ensures n < Pow2(|a|)
  {
    if a == [] then 0 else (if a[0] then 1 else 0) + 2 * ToNat(a[1..])
  }

  function FromNat(n: nat, width: nat): (a: Word)
    ensures |a| == width
  {
    if width == 0 then [] else [n % 2 == 1] + FromNat(n / 2, width - 1)
  }

  lemma {:induction false} FromNatToNat(a: Word)
    ensures FromNat(ToNat(a), |a|) == a
  {
    if a != [] {
      FromNatToNat(a[1..]);
    }
  }

  lemma {:induction false} ToNatFromNat(n: nat, width: nat)
    ensures ToNat(FromNat(n, width)) == n % Pow2(width)
  {
    if width != 0 {
      ToNatFromNat(n / 2, width - 1);
      HalfMod(n, Pow2(width - 1));
    }
  }

  //  Bitwise operators on numbers

  function OrNat(a: nat, b: nat): nat
    decreases a + b
  {
    if a == 0 && b == 0 then 0
    else (if a % 2 == 1 || b % 2 == 1 then 1 else 0) + 2 * OrNat(a / 2, b / 2)
  }

  function XorNat(a: nat, b: nat): nat
    decreases a + b
  {
    if a == 0 && b == 0 then 0
    else (if (a % 2 == 1) != (b % 2 == 1) then 1 else 0) + 2 * XorNat(a / 2, b / 2)
  }

  /** They are the operators on words. */
  lemma NumbersMatchWords(a: Word, b: Word)
    requires |a| == |b|
    ensures ToNat(Or(a, b)) == OrNat(ToNat(a), ToNat(b))
    ensures ToNat(Xor(a, b)) == XorNat(ToNat(a), ToNat(b))
  {
    OrMatches(a, b);
    XorMatches(a, b);
  }

  lemma {:induction false} OrMatches(a: Word, b: Word)
    requires |a| == |b|
    ensures ToNat(Or(a, b)) == OrNat(ToNat(a), ToNat(b))
  {
    if a != [] {
      OrMatches(a[1..], b[1..]);
      assert Or(a, b)[1..] == Or(a[1..], b[1..]);
    }
  }

  lemma {:induction false} XorMatches(a: Word, b: Word)
    requires |a| == |b|
    ensures ToNat(Xor(a, b)) == XorNat(ToNat(a), ToNat(b))
  {
    if a != [] {
      XorMatches(a[1..], b[1..]);
      assert Xor(a, b)[1..] == Xor(a[1..], b[1..]);
    }
  }

  /** Bits that do not overlap are added. */
  lemma {:induction false} OrDisjoint(a: nat, c: nat, k: nat)
    requires a < Pow2(k)
    ensures OrNat(a, c * Pow2(k)) == a + c * Pow2(k)
    decreases k
  {
    if k == 0 {
      OrNatZero(c);
    } else {
      var half := c * Pow2(k - 1);
      assert c * Pow2(k) == 2 * half;
      OrDisjoint(a / 2, c, k - 1);
    }
  }

  lemma {:induction false} OrNatZero(b: nat)
    ensures OrNat(0, b) == b
  {
    if b != 0 {
      OrNatZero(b / 2);
    }
  }

  lemma {:induction false} XorNatZero(a: nat)
    ensures XorNat(a, 0) == a
  {
    if a != 0 {
      XorNatZero(a / 2);
    }
  }

  /** Xor with the all-ones word is the complement. */
  lemma {:induction false} XorNatOnes(width: nat, a: nat)
    requires a < Pow2(width)
    ensures XorNat(a, Pow2(width) - 1) == Pow2(width) - 1 - a
  {
    if width != 0 {
      XorNatOnes(width - 1, a / 2);
    }
  }

  lemma XorNatOne(a: nat)
    ensures XorNat(a, 1) == if a % 2 == 0 then a + 1 else a - 1
  {
    XorNatZero(a / 2);
  }

  lemma {:induction false} XorNatBound(width: nat, a: nat, b: nat)
    requires a < Pow2(width) && b < Pow2(width)
    ensures XorNat(a, b) < Pow2(width)
  {
    if width != 0 {
      XorNatBound(width - 1, a / 2, b / 2);
    }
  }

  lemma HalfMod(n: nat, m: nat)
    requires m >= 1
    ensures n % (2 * m) == n % 2 + 2 * ((n / 2) % m)
  {
    var q, r := (n / 2) / m, (n / 2) % m;
    assert n / 2 == m * q + r;
    assert n == (2 * m) * q + (2 * r + n % 2);
    EuclideanUnique(n, 2 * m, q, 2 * r + n % 2);
  }

  lemma EuclideanUnique(n: nat, m: nat, q: nat, r: nat)
    requires r < m && n == m * q + r
    ensures n / m == q && n % m == r
  {
    var q', r' := n / m, n % m;
    assert n == m * q' + r';
    if q < q' {
      MulStep(m, q, q');
    } else if q' < q {
      MulStep(m, q', q);
    }
  }

  /** Dividing twice is dividing by the product. */
  lemma NestedDivision(n: nat, a: nat, b: nat)
    requires a > 0 && b > 0
    ensures a * b > 0 && n / a / b == n / (a * b)
  {
    var q, r := n / a / b, n / a % b;
    assert n / a == b * q + r;
    assert n == a * (n / a) + n % a;
    RegroupProduct(a, b, q, r);
    MulStep(a, r, b);
    assert a * r >= 0;
    EuclideanUnique(n, a * b, q, a * r + n % a);
  }

  lemma RegroupProduct(a: nat, b: nat, q: nat, r: nat)
    ensures a * (b * q + r) == a * b * q + a * r
  {
  }

  lemma {:induction false} MulStep(m: nat, a: nat, b: nat)
    requires a < b
    ensures m * a + m <= m * b
  {
    assert m * (b - a) >= m by {
      if b - a > 1 {
        MulStep(m, a, b - 1);
      }
    }
  }
}
