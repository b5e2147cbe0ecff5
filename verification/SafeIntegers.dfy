/**
 `safe<T>` for a signed type of any width: each operator tests, without leaving the
 type itself, whether its mathematical result fits, and throws exactly if it does not.
 */
module SafeIntegers {
  import opened Words

  datatype Checked = Value(v: int) | Overflow | Underflow | DivideByZero

  function Min(max: nat): int {
    -1 - max
  }

  /** The values of the type whose greatest value is `max`. */
  predicate Fits(max: nat, x: int) {
    Min(max) <= x <= max
  }

  /** A value the code computes on its way; it has to fit, or computing it would overflow. */
  function Computed(max: nat, x: int): int
    requires Fits(max, x)
  {
    x
  }

  /** Division of the machine: truncated toward zero. */
  function Quotient(a: int, b: int): int
    requires b != 0
  {
    if a >= 0 then (if b > 0 then a / b else -(a / -b))
    else (if b > 0 then -(-a / b) else -a / -b)
  }

  function Add(max: nat, a: int, b: int): (r: Checked)
    requires Fits(max, a) && Fits(max, b)
    ensures IsChecked(max, a + b, r)
  {
    if b > 0 && a > Computed(max, max - b) then Overflow
    else if b < 0 && a < Computed(max, Min(max) - b) then Underflow
    else Value(Computed(max, a + b))
  }

  function Sub(max: nat, a: int, b: int): (r: Checked)
    requires Fits(max, a) && Fits(max, b)
    ensures IsChecked(max, a - b, r)
  {
    if b > 0 && a < Computed(max, Min(max) + b) then Underflow
    else if b < 0 && a > Computed(max, max + b) then Overflow
    else Value(Computed(max, a - b))
  }

  /** What a checked operator makes of its mathematical result. */
  predicate IsChecked(max: nat, exact: int, r: Checked) {
    r == if Fits(max, exact) then Value(exact) else if exact > max then Overflow else Underflow
  }

  function Mul(max: nat, a: int, b: int): (r: Checked)
    requires Fits(max, a) && Fits(max, b)
    ensures IsChecked(max, a * b, r)
  {
    if a > 0 then (if b > 0 then MulUpUp(max, a, b) else MulUpDown(max, a, b))
    else if b > 0 then MulDownUp(max, a, b)
    else MulDownDown(max, a, b)
  }

  function MulUpUp(max: nat, a: int, b: int): (r: Checked)
    requires Fits(max, a) && Fits(max, b) && a > 0 && b > 0
    ensures IsChecked(max, a * b, r)
  {
    QuotientTest(max, b, a, a * b);
    if a > Computed(max, Quotient(max, b)) then Overflow else Value(Computed(max, a * b))
  }

  function MulUpDown(max: nat, a: int, b: int): (r: Checked)
    requires Fits(max, a) && Fits(max, b) && a > 0 && b <= 0
    ensures IsChecked(max, a * b, r)
  {
    QuotientTest(max + 1, a, -b, -(a * b));
    if b < Computed(max, Quotient(Min(max), a)) then Underflow else Value(Computed(max, a * b))
  }

  function MulDownUp(max: nat, a: int, b: int): (r: Checked)
    requires Fits(max, a) && Fits(max, b) && a <= 0 && b > 0
    ensures IsChecked(max, a * b, r)
  {
    QuotientTest(max + 1, b, -a, -(a * b));
    if a < Computed(max, Quotient(Min(max), b)) then Underflow else Value(Computed(max, a * b))
  }

  function MulDownDown(max: nat, a: int, b: int): (r: Checked)
    requires Fits(max, a) && Fits(max, b) && a <= 0 && b <= 0
    ensures IsChecked(max, a * b, r)
  {
    if a != 0 then
      QuotientTest(max, -a, -b, a * b);
      if b < Computed(max, Quotient(max, a)) then Overflow else Value(Computed(max, a * b))
    else Value(Computed(max, a * b))
  }

  function Div(max: nat, a: int, b: int): (r: Checked)
    requires Fits(max, a) && Fits(max, b)
    ensures r == if b == 0 then DivideByZero
                 else if Fits(max, Quotient(a, b)) then Value(Quotient(a, b)) else Overflow
    ensures r.Value? ==> IsTruncated(a, b, r.v)
  {
    if b == 0 then DivideByZero
    else if a == Min(max) && b == -1 then Overflow
    else QuotientFits(max, a, b); QuotientTruncates(a, b, Quotient(a, b)); Value(Computed(max, Quotient(a, b)))
  }

  function Neg(max: nat, a: int): (r: Checked)
    requires Fits(max, a)
    ensures r == if Fits(max, -a) then Value(-a) else Overflow
  {
    if a == Min(max) then Overflow else Value(Computed(max, -a))
  }

  /** Comparing with a quotient tells whether the product is too large. */
  lemma QuotientTest(m: nat, d: nat, x: nat, product: int)
    requires d > 0 && product == x * d
    ensures 0 <= m / d <= m && (x > m / d <==> product > m) && product >= 0
  {
    var q := m / d;
    assert d * q <= m < d * q + d;
    if q > 0 { MulStep(q, 0, d); }
    if x > q {
      MulStep(d, q, x);
    } else if x < q {
      MulStep(d, x, q);
    }
  }

  lemma QuotientFits(max: nat, a: int, b: int)
    requires Fits(max, a) && Fits(max, b) && b != 0 && !(a == Min(max) && b == -1)
    ensures Fits(max, Quotient(a, b))
  {
    QuotientTest(if a >= 0 then a else -a, if b > 0 then b else -b, 0, 0);
    if a == Min(max) && b < -1 {
      HalfAtMost(max + 1, -b);
    }
  }

  /** Truncated division, told by its remainder: smaller than the divisor, and zero or of the
      sign of the dividend. */
  predicate IsTruncated(a: int, b: int, q: int) {
    var r := a - b * q;
    (if b > 0 then -b < r < b else b < r < -b) && (r == 0 || (r > 0 <==> a > 0))
  }

  /** The quotient is the one number with such a remainder. */
  lemma QuotientTruncates(a: int, b: int, q: int)
    requires b != 0
    ensures q == Quotient(a, b) <==> IsTruncated(a, b, q)
  {
    var m, d: nat := if a >= 0 then a else -a, if b > 0 then b else -b;
    var q' := if (a >= 0) == (b > 0) then q else -q;
    var p := d * q';
    NegatedProduct(b, q);
    NegatedProduct(-b, q);
    SignedQuotient(a, b, m / d);
    TruncatedUnique(m, d, q', p);
    Remainder(a, b, q, b * q, m, d, p);
  }

  lemma SignedQuotient(a: int, b: int, k: int)
    requires b != 0 && k == (if a >= 0 then a else -a) / (if b > 0 then b else -b)
    ensures Quotient(a, b) == if (a >= 0) == (b > 0) then k else -k
  {
  }

  lemma Remainder(a: int, b: int, q: int, product: int, m: nat, d: nat, p: int)
    requires b != 0 && m == (if a >= 0 then a else -a) && d == (if b > 0 then b else -b)
    requires product == b * q && product == if a >= 0 then p else -p
    ensures IsTruncated(a, b, q) <==> 0 <= m - p < d
  {
  }

  lemma NegatedProduct(x: int, y: int)
    ensures x * -y == -(x * y) && -x * y == -(x * y)
  {
  }

  lemma TruncatedUnique(m: nat, d: nat, q: int, p: int)
    requires d > 0 && p == d * q
    ensures q == m / d <==> 0 <= m - p < d
  {
    if q < 0 {
      MulStep(d, 0, -q);
      NegatedProduct(d, q);
    } else if 0 <= m - p < d {
      EuclideanUnique(m, d, q, m - p);
    }
  }

  lemma HalfAtMost(m: nat, d: nat)
    requires m > 0 && d > 1
    ensures m / d < m
  {
    var q := m / d;
    assert d * q <= m;
    if q > 0 { MulStep(q, 1, d); }
  }

  //  Runs of compound assignments

  datatype Op = Plus(b: int) | Minus(b: int) | Times(b: int) | Over(b: int)

  /** The operator on mathematical integers; only division by zero has no result. */
  function Exact(a: int, op: Op): (r: Checked)
    ensures r.Value? || (op.Over? && op.b == 0)
  {
    match op
    case Plus(b) => Value(a + b)
    case Minus(b) => Value(a - b)
    case Times(b) => Value(a * b)
    case Over(b) => if b == 0 then DivideByZero else Value(Quotient(a, b))
  }

  function Apply(max: nat, a: int, op: Op): Checked
    requires Fits(max, a) && Fits(max, op.b)
  {
    match op
    case Plus(b) => Add(max, a, b)
    case Minus(b) => Sub(max, a, b)
    case Times(b) => Mul(max, a, b)
    case Over(b) => Div(max, a, b)
  }

  /** The exact value after the first `n` operations, if every step has one. */
  function ExactRun(a: int, ops: seq<Op>): Checked {
    if ops == [] then Value(a)
    else match ExactRun(a, ops[..|ops| - 1])
      case Value(v) => Exact(v, ops[|ops| - 1])
      case error => error
  }

  /** Whether the exact run has a value, and one that fits, after each of its first `n` steps. */
  predicate StaysInRange(max: nat, a: int, ops: seq<Op>, n: nat)
    requires n <= |ops|
  {
    forall k :: 0 <= k <= n ==> InRangeAfter(max, a, ops, k)
  }

  predicate InRangeAfter(max: nat, a: int, ops: seq<Op>, k: nat)
    requires k <= |ops|
  {
    ExactRun(a, ops[..k]).Value? && Fits(max, ExactRun(a, ops[..k]).v)
  }

  class Safe {
    const max: nat
    var value: int

    ghost predicate Valid()
      reads this
    {
      Fits(max, value)
    }

    constructor (max: nat, value: int)
      requires Fits(max, value)
      ensures Valid() && this.max == max && this.value == value
    {
      this.max, this.value := max, value;
    }

    /** `+=`, `-=`, `*=` and `/=`; a throw leaves the value as it was. */
    method Assign(op: Op) returns (r: Checked)
      requires Valid() && Fits(max, op.b)
      modifies this
      ensures Valid() && r == old(Apply(max, value, op))
      ensures value == if r.Value? then r.v else old(value)
    {
      r := Apply(max, value, op);
      if r.Value? {
        value := r.v;
      }
    }
  }

  lemma ApplyIsExact(max: nat, a: int, op: Op)
    requires Fits(max, a) && Fits(max, op.b)
    ensures Apply(max, a, op).Value? <==> Exact(a, op).Value? && Fits(max, Exact(a, op).v)
    ensures Apply(max, a, op).Value? ==> Apply(max, a, op) == Exact(a, op)
  {
  }

  /**
   A run holds the exact value after every step until it throws, and it throws at
   the first step whose exact result does not exist or does not fit.
   */
  method Run(s: Safe, ops: seq<Op>) returns (done: nat)
    requires s.Valid() && forall i :: 0 <= i < |ops| ==> Fits(s.max, ops[i].b)
    modifies s
    ensures s.Valid() && done <= |ops| && StaysInRange(s.max, old(s.value), ops, done)
    ensures ExactRun(old(s.value), ops[..done]) == Value(s.value)
    ensures done < |ops| ==> !InRangeAfter(s.max, old(s.value), ops, done + 1)
  {
    done := 0;
    while done < |ops|
      invariant s.Valid() && done <= |ops| && StaysInRange(s.max, old(s.value), ops, done)
      invariant ExactRun(old(s.value), ops[..done]) == Value(s.value)
    {
      assert ops[..done + 1][..done] == ops[..done];
      ApplyIsExact(s.max, s.value, ops[done]);
      var r := s.Assign(ops[done]);
      if !r.Value? {
        return;
      }
      assert InRangeAfter(s.max, old(s.value), ops, done + 1);
      done := done + 1;
    }
  }
}
