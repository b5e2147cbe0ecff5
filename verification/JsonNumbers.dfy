/**
 Number tokens of the relaxed JSON reader: integer literals with their overflow
 tests, and the scanner that decides between integer, floating point and string.
 */
module JsonNumbers {
  import opened RawTypes
  import opened Words

  const UINT64_MAX := 0xFFFF_FFFF_FFFF_FFFF
  const INT64_MAX_PLUS_ONE := 0x8000_0000_0000_0000

  /** What a token turns into; `Floating` is what `to_double` makes of it. */
  datatype Parsed = Unsigned(u: uint64) | Negative(i: int64) | Text(token: Bytes) | Floating(token: Bytes) | Error

  //  Characters

  predicate IsDigit(c: int) {
    '0' as int <= c <= '9' as int
  }

  predicate IsLetter(c: int) {
    'a' as int <= c <= 'z' as int || 'A' as int <= c <= 'Z' as int
  }

  /** Characters of unquoted strings, apart from digits. */
  predicate IsWord(c: int) {
    IsLetter(c) || c in {'_' as int, '-' as int, '.' as int, '+' as int, '/' as int}
  }

  predicate IsExponent(c: int) {
    c == 'e' as int || c == 'E' as int
  }

  /** The value of a character as a digit, or 255. */
  function CharValue(c: Octet): Octet {
    if IsDigit(c) then c - '0' as int
    else if 'a' as int <= c <= 'z' as int then c - 'a' as int + 10
    else if 'A' as int <= c <= 'Z' as int then c - 'A' as int + 10
    else 0xFF
  }

  /** The table behind `CharValue`, filled in place. */
  method CharValueTable() returns (c2v: array<Octet>)
    ensures fresh(c2v) && c2v.Length == 0x100 && forall c :: 0 <= c < 0x100 ==> c2v[c] == CharValue(c)
  {
    c2v := new Octet[0x100](i => 0xFF);
    for d := 0 to 10
      invariant forall c :: 0 <= c < 0x100 ==>
                  c2v[c] == if '0' as int <= c < '0' as int + d then CharValue(c) else 0xFF
    {
      c2v['0' as int + d] := d;
    }
    for d := 0 to 26
      invariant forall c :: 0 <= c < 0x100 ==>
                  c2v[c] == if IsDigit(c) || LetterBelow(c, d) then CharValue(c) else 0xFF
    {
      c2v['a' as int + d] := 10 + d;
      c2v['A' as int + d] := 10 + d;
    }
  }

  predicate LetterBelow(c: int, d: nat) {
    'a' as int <= c < 'a' as int + d || 'A' as int <= c < 'A' as int + d
  }

  //  Integer literals

  predicate AllLegal(digits: Bytes) {
    forall i :: 0 <= i < |digits| ==> CharValue(digits[i]) != 0xFF
  }

  function Horner(base: nat, digits: Bytes): nat {
    if digits == [] then 0
    else Horner(base, digits[..|digits| - 1]) * base + CharValue(digits[|digits| - 1])
  }

  /** What an integer literal means, without any bound on the way. */
  function IntLiteral(base: nat, token: Bytes, start: nat): Parsed {
    if start >= |token| || !AllLegal(token[start..]) then Error
    else
      var value := Horner(base, token[start..]);
      if token[0] != '-' as int then if value <= UINT64_MAX then Unsigned(value) else Error
      else if value <= INT64_MAX_PLUS_ONE then Negative(0 - value) else Error
  }

  predicate InBase(base: nat, digits: Bytes) {
    forall i :: 0 <= i < |digits| ==> CharValue(digits[i]) < base
  }

  /** The same for a reader that rejects digits that are not below the base. */
  function InBaseLiteral(base: nat, token: Bytes, start: nat): Parsed {
    if start < |token| && !InBase(base, token[start..]) then Error else IntLiteral(base, token, start)
  }

  function Bound(token: Bytes): nat
    requires token != []
  {
    if token[0] == '-' as int then INT64_MAX_PLUS_ONE else UINT64_MAX
  }

  /** A literal reads as one of its base exactly when all its digits are below the base, or
      it is an error anyway: for an illegal character, or a value out of bounds. */
  lemma ReadsInBase(base: nat, token: Bytes, start: nat)
    requires start < |token|
    ensures
      var digits := token[start..];
      IntLiteral(base, token, start) == InBaseLiteral(base, token, start) <==>
        InBase(base, digits) || !AllLegal(digits) || Horner(base, digits) > Bound(token)
  {
  }

  /** Digits below the base are told by their value; others need not be. */
  lemma {:induction false} InBaseIsUnique(base: nat, a: Bytes, b: Bytes)
    requires InBase(base, a) && InBase(base, b) && |a| == |b| && Horner(base, a) == Horner(base, b)
    ensures forall i :: 0 <= i < |a| ==> CharValue(a[i]) == CharValue(b[i])
  {
    if a != [] {
      var n := |a| - 1;
      SameDigit(base, Horner(base, a[..n]), Horner(base, b[..n]), CharValue(a[n]), CharValue(b[n]));
      InBaseIsUnique(base, a[..n], b[..n]);
      forall i | 0 <= i < |a| ensures CharValue(a[i]) == CharValue(b[i]) {
        if i < n {
          assert a[..n][i] == a[i] && b[..n][i] == b[i];
        }
      }
    }
  }

  lemma SameDigit(base: nat, x: nat, y: nat, c: nat, d: nat)
    requires c < base && d < base && x * base + c == y * base + d
    ensures x == y && c == d
  {
    var k, b: int := x - y, base;
    assert k * b == d - c;
    assert k >= 1 ==> k * b >= b;
    assert k <= -1 ==> k * b <= -b;
  }

  /** So `0o9` reads as nine. */
  lemma OutOfBaseExample()
    ensures ParseNumberOrStr(false, ['0' as int, 'o' as int, '9' as int]) == Unsigned(9)
    ensures InBaseLiteral(8, ['0' as int, 'o' as int, '9' as int], 2) == Error
  {
    var token := ['0' as int, 'o' as int, '9' as int];
    assert token[2..] == ['9' as int];
    assert Horner(8, ['9' as int]) == 9 by {
      assert ['9' as int][..0] == [];
    }
    assert CharValue(token[2..][0]) == 9;
  }

  /** The loop with its two overflow tests, which together are exact. */
  method ParseInt(base: nat, token: Bytes, start: nat) returns (r: Parsed)
    requires 2 <= base <= 255
    ensures r == IntLiteral(base, token, start)
  {
    var i, n := start, |token|;
    if i >= n {
      return Error;
    }
    ghost var digits := token[start..];
    var val: uint64 := 0;
    var maxb4mul := UINT64_MAX / base;
    while true
      invariant start <= i < n && val == Horner(base, digits[..i - start]) && AllLegal(digits[..i - start])
      decreases n - i
    {
      ghost var k := i - start;
      NextDigit(base, digits, k);
      var next := Accumulate(base, maxb4mul, val, token[i]);
      if next.Error? {
        return Error;
      }
      val := next.u;
      i := i + 1;
      if i >= n {
        break;
      }
    }
    assert digits[..|digits|] == digits;
    if token[0] == '-' as int {
      if val > INT64_MAX_PLUS_ONE {
        return Error;
      }
      return Negative(0 - val);
    }
    return Unsigned(val);
  }

  /** The body of that loop. */
  method Accumulate(base: nat, maxb4mul: nat, before: uint64, c: Octet) returns (r: Parsed)
    requires 2 <= base && maxb4mul == UINT64_MAX / base
    ensures r == if CharValue(c) != 0xFF && before * base + CharValue(c) <= UINT64_MAX
                 then Unsigned(before * base + CharValue(c)) else Error
  {
    var vc := CharValue(c);
    if vc == 0xFF {
      return Error;
    }
    MaxBeforeMul(base, before);
    if before > maxb4mul {
      return Error;
    }
    var val := before * base;
    var newval := (val + vc) % (UINT64_MAX + 1);
    if newval < val {
      return Error;
    }
    return Unsigned(newval);
  }

  lemma NextDigit(base: nat, digits: Bytes, k: nat)
    requires base >= 1 && k < |digits|
    ensures Horner(base, digits[..k + 1]) == Horner(base, digits[..k]) * base + CharValue(digits[k])
    ensures Horner(base, digits[..k + 1]) <= Horner(base, digits)
    ensures AllLegal(digits[..k + 1]) <==> AllLegal(digits[..k]) && CharValue(digits[k]) != 0xFF
    ensures AllLegal(digits) ==> AllLegal(digits[..k + 1])
  {
    assert digits[..k + 1][..k] == digits[..k];
    HornerGrows(base, digits, k + 1);
    assert digits[..k + 1] == digits[..k] + [digits[k]];
  }

  lemma {:induction false} HornerGrows(base: nat, digits: Bytes, k: nat)
    requires base >= 1 && k <= |digits|
    ensures Horner(base, digits[..k]) <= Horner(base, digits)
    decreases |digits| - k
  {
    if k == |digits| {
      assert digits[..k] == digits;
    } else {
      HornerGrows(base, digits, k + 1);
      assert digits[..k + 1][..k] == digits[..k];
      TimesAtLeast(Horner(base, digits[..k]), base);
    }
  }

  lemma TimesAtLeast(x: nat, base: nat)
    requires base >= 1
    ensures x * base >= x
  {
    assert x * (base - 1) >= 0;
  }

  /** The pre-multiplication test is exact. */
  lemma MaxBeforeMul(base: nat, val: nat)
    requires base >= 1
    ensures val > UINT64_MAX / base <==> val * base > UINT64_MAX
  {
    var q := UINT64_MAX / base;
    assert base * q <= UINT64_MAX < base * q + base;
    if val > q {
      MulStep(base, q, val);
    } else if val < q {
      MulStep(base, val, q);
    }
  }

  //  Tokens

  /** Rejects in strict mode, otherwise takes the token for a string. */
  function StringUnless(strict: bool, token: Bytes): Parsed {
    if strict then Error else Text(token)
  }

  /** `token[i]`, which is the terminating zero at the end. */
  function CharAt(token: Bytes, i: nat): Octet
    requires i <= |token|
  {
    if i < |token| then token[i] else 0
  }

  function MaybeParseInt(strict: bool, base: nat, token: Bytes, start: nat): Parsed {
    match IntLiteral(base, token, start)
    case Error => StringUnless(strict, token)
    case value => value
  }

  function ParseNumberOrStr(strict: bool, token: Bytes): Parsed {
    if token == [] then Error
    else if token[0] == '+' as int && strict then Error
    else
      var i := if token[0] == '+' as int || token[0] == '-' as int then 1 else 0;
      var c := CharAt(token, i);
      if c == '0' as int then AfterZero(strict, token, i + 1)
      else if IsDigit(c) then ScanInt(strict, token, i, i + 1)
      else if IsWord(c) then StringUnless(strict, token)
      else Error
  }

  /** After a leading zero at `i - 1`. */
  function AfterZero(strict: bool, token: Bytes, i: nat): Parsed
    requires 1 <= i <= |token|
  {
    if i >= |token| then Unsigned(0)
    else if token[i] == 'b' as int || token[i] == 'B' as int then
      if strict || i + 1 >= |token| then Error else MaybeParseInt(strict, 2, token, i + 2)
    else if token[i] == 'o' as int || token[i] == 'O' as int then
      if strict then Error else MaybeParseInt(strict, 8, token, i + 1)
    else if token[i] == 'x' as int || token[i] == 'X' as int then
      if strict then Error else MaybeParseInt(strict, 16, token, i + 1)
    else if strict && token[i] != '.' as int && !IsExponent(token[i]) then Error
    else ScanInt(strict, token, i - 1, i)
  }

  /** The integer part from `start`, scanned up to `i`. */
  function ScanInt(strict: bool, token: Bytes, start: nat, i: nat): Parsed
    decreases |token| - i
  {
    if i >= |token| then IntLiteral(10, token, start)
    else if IsDigit(token[i]) then ScanInt(strict, token, start, i + 1)
    else if token[i] == '.' as int then Text(token)
    else if IsExponent(token[i]) then AfterExponent(strict, token, i + 1)
    else if IsWord(token[i]) then StringUnless(strict, token)
    else Error
  }

  /** After an `e` at `i - 1`. */
  function AfterExponent(strict: bool, token: Bytes, i: nat): Parsed
    requires i <= |token|
  {
    if i == |token| then StringUnless(strict, token)
    else if token[i] == '+' as int || token[i] == '-' as int then
      if i + 1 == |token| then StringUnless(strict, token) else ScanExponent(strict, token, i + 1)
    else if IsDigit(token[i]) then ScanExponent(strict, token, i + 1)
    else if IsWord(token[i]) then StringUnless(strict, token)
    else Error
  }

  function ScanExponent(strict: bool, token: Bytes, i: nat): Parsed
    decreases |token| - i
  {
    if i >= |token| then Floating(token)
    else if IsWord(token[i]) then StringUnless(strict, token)
    else ScanExponent(strict, token, i + 1)
  }

  /** The scanner with its mutable index. */
  method ParseToken(strict: bool, token: Bytes) returns (r: Parsed)
    ensures r == ParseNumberOrStr(strict, token)
  {
    var i, n := 0, |token|;
    if n == 0 {
      return Error;
    }
    if token[0] == '+' as int {
      if strict {
        return Error;
      }
      i := i + 1;
    } else if token[0] == '-' as int {
      i := i + 1;
    }
    var c := CharAt(token, i);
    i := i + 1;
    if c == '0' as int {
      if i >= n {
        return Unsigned(0);
      }
      if token[i] == 'b' as int || token[i] == 'B' as int {
        if strict {
          return Error;
        }
        i := i + 1;
        if i >= n {
          return Error;
        }
        r := ParseInt(2, token, i + 1);
        return if r.Error? then StringUnless(strict, token) else r;
      } else if token[i] == 'o' as int || token[i] == 'O' as int {
        if strict {
          return Error;
        }
        r := ParseInt(8, token, i + 1);
        return if r.Error? then StringUnless(strict, token) else r;
      } else if token[i] == 'x' as int || token[i] == 'X' as int {
        if strict {
          return Error;
        }
        r := ParseInt(16, token, i + 1);
        return if r.Error? then StringUnless(strict, token) else r;
      } else if token[i] != '.' as int && !IsExponent(token[i]) {
        if strict {
          return Error;
        }
      }
    } else if !IsDigit(c) {
      return if IsWord(c) then StringUnless(strict, token) else Error;
    }
    r := ScanNumber(strict, token, i - 1, i);
  }

  /** The loop over the integer part. */
  method ScanNumber(strict: bool, token: Bytes, start: nat, first: nat) returns (r: Parsed)
    requires first <= |token|
    ensures r == ScanInt(strict, token, start, first)
  {
    var i := first;
    while true
      invariant first <= i <= |token| && ScanInt(strict, token, start, i) == ScanInt(strict, token, start, first)
      decreases |token| - i
    {
      if i >= |token| {
        r := ParseInt(10, token, start);
        return;
      }
      var c := token[i];
      i := i + 1;
      if IsDigit(c) {
        continue;
      }
      if c == '.' as int {
        return Text(token);
      }
      if IsExponent(c) {
        r := ScanFloating(strict, token, i);
        return;
      }
      return if IsWord(c) then StringUnless(strict, token) else Error;
    }
  }

  /** The loop over the exponent. */
  method ScanFloating(strict: bool, token: Bytes, first: nat) returns (r: Parsed)
    requires first <= |token|
    ensures r == AfterExponent(strict, token, first)
  {
    var i := first;
    if i == |token| {
      return StringUnless(strict, token);
    }
    var c := token[i];
    i := i + 1;
    if c == '+' as int || c == '-' as int {
      if i == |token| {
        return StringUnless(strict, token);
      }
    } else if !IsDigit(c) {
      return if IsWord(c) then StringUnless(strict, token) else Error;
    }
    while i < |token|
      invariant first < i <= |token| && ScanExponent(strict, token, i) == AfterExponent(strict, token, first)
    {
      if IsWord(token[i]) {
        return StringUnless(strict, token);
      }
      i := i + 1;
    }
    return Floating(token);
  }

  //  Decimal text

  function DecimalDigits(n: nat): (d: Bytes)
    ensures |d| >= 1
  {
    if n < 10 then ['0' as int + n] else DecimalDigits(n / 10) + ['0' as int + n % 10]
  }

  /** The canonical decimal text of an integer. */
  function DecimalText(i: int): (t: Bytes)
    ensures |t| >= 1
  {
    if i < 0 then ['-' as int] + DecimalDigits(-i) else DecimalDigits(i)
  }

  lemma {:induction false} DecimalDigitsMean(n: nat)
    ensures Horner(10, DecimalDigits(n)) == n
    ensures forall i :: 0 <= i < |DecimalDigits(n)| ==> IsDigit(DecimalDigits(n)[i])
    ensures DecimalDigits(n)[0] == '0' as int <==> n == 0
  {
    var d := DecimalDigits(n);
    if n >= 10 {
      DecimalDigitsMean(n / 10);
      assert d[..|d| - 1] == DecimalDigits(n / 10);
    } else {
      assert d[..0] == [];
    }
  }

  /** Every 64-bit integer, signed or unsigned, reads back from its decimal text in both modes. */
  lemma DecimalTextReadsBack(strict: bool, i: int)
    requires -INT64_MAX_PLUS_ONE <= i <= UINT64_MAX
    ensures ParseNumberOrStr(strict, DecimalText(i)) == if i < 0 then Negative(i) else Unsigned(i)
  {
    var t := DecimalText(i);
    var n := if i < 0 then -i else i;
    var start := if i < 0 then 1 else 0;
    DecimalDigitsMean(n);
    assert t[start..] == DecimalDigits(n);
    assert t[start] == DecimalDigits(n)[0];
    if n > 0 {
      ScanAllDigits(strict, t, start, start + 1);
    } else {
      assert |t| == 1;
    }
  }

  lemma {:induction false} ScanAllDigits(strict: bool, token: Bytes, start: nat, i: nat)
    requires start < |token| && i <= |token|
    requires forall k :: start <= k < |token| ==> IsDigit(token[k])
    requires start <= i
    ensures ScanInt(strict, token, start, i) == IntLiteral(10, token, start)
    decreases |token| - i
  {
    if i < |token| {
      ScanAllDigits(strict, token, start, i + 1);
    }
  }

  //  Prefixed literals

  /** A hexadecimal literal reads as the value of its digits, when it has one. */
  lemma HexLiteral(digits: Bytes)
    requires digits != [] && AllLegal(digits) && Horner(16, digits) <= UINT64_MAX
    ensures ParseNumberOrStr(false, ['0' as int, 'x' as int] + digits) == Unsigned(Horner(16, digits))
  {
    var token := ['0' as int, 'x' as int] + digits;
    assert token[2..] == digits;
  }

  /** A binary literal loses its first digit: it reads as written exactly if that digit is
      the only one and illegal, or a zero, or the others are no number without it. */
  lemma BinaryLiteral(first: Octet, digits: Bytes)
    ensures
      var token := ['0' as int, 'b' as int, first] + digits;
      ParseNumberOrStr(false, token) == MaybeParseInt(false, 2, token, 2) <==>
        if digits == [] then CharValue(first) == 0xFF
        else !AllLegal(digits) || Horner(2, digits) > UINT64_MAX || CharValue(first) == 0
  {
    var token := ['0' as int, 'b' as int, first] + digits;
    assert token[3..] == digits && token[2..] == [first] + digits;
    LegalAfter(first, digits);
    if AllLegal([first] + digits) {
      LeadingDigit(2, first, digits);
    }
    if digits == [] && CharValue(first) != 0xFF {
      OneDigit(first);
    }
  }

  lemma LegalAfter(first: Octet, digits: Bytes)
    ensures AllLegal([first] + digits) <==> CharValue(first) != 0xFF && AllLegal(digits)
  {
    var all := [first] + digits;
    assert all[0] == first && forall i :: 0 <= i < |digits| ==> digits[i] == all[i + 1];
  }

  lemma OneDigit(first: Octet)
    ensures Horner(2, [first]) == CharValue(first)
  {
    assert [first][..0] == [];
  }

  lemma {:induction false} LeadingDigit(base: nat, first: Octet, digits: Bytes)
    requires base >= 1 && AllLegal([first] + digits)
    ensures Horner(base, [first] + digits) >= Horner(base, digits)
    ensures Horner(base, [first] + digits) == Horner(base, digits) <==> CharValue(first) == 0
    ensures AllLegal(digits)
    decreases |digits|
  {
    var all := [first] + digits;
    if digits == [] {
      assert all[..0] == [];
    } else {
      var m := |digits| - 1;
      assert all[..|all| - 1] == [first] + digits[..m];
      assert AllLegal([first] + digits[..m]);
      LeadingDigit(base, first, digits[..m]);
      var a, b := Horner(base, [first] + digits[..m]), Horner(base, digits[..m]);
      assert a > b ==> a * base > b * base by {
        if a > b { MulStep(base, b, a); }
      }
      assert forall i :: 0 <= i < |digits| ==> digits[i] == all[i + 1];
    }
  }

  /** So `0b10` reads as zero. */
  lemma BinaryLiteralExample()
    ensures ParseNumberOrStr(false, ['0' as int, 'b' as int, '1' as int, '0' as int]) == Unsigned(0)
  {
    var token := ['0' as int, 'b' as int, '1' as int, '0' as int];
    assert token[3..] == ['0' as int];
    assert Horner(2, ['0' as int]) == 0 by {
      assert ['0' as int][..0] == [];
    }
  }

  /** And a literal of one digit is taken for a string. */
  lemma OneBinaryDigit(first: Octet)
    ensures var token := ['0' as int, 'b' as int, first]; ParseNumberOrStr(false, token) == Text(token)
  {
  }

  //  Floating point

  /** No character of an unquoted string from `i` on. */
  predicate NoWord(token: Bytes, i: nat) {
    forall k :: i <= k < |token| ==> !IsWord(token[k])
  }

  /** From `i` on, an exponent: a sign and something, or a digit, and no word character. */
  predicate IsExponentTail(token: Bytes, i: nat) {
    && i < |token| && NoWord(token, i + 1)
    && if token[i] == '+' as int || token[i] == '-' as int then i + 1 < |token| else IsDigit(token[i])
  }

  /** Digits from `start` to an exponent mark at `e`; in strict mode no leading zero. */
  predicate IsFloatBody(strict: bool, token: Bytes, start: nat, e: nat) {
    && start < e < |token| && (forall k :: start <= k < e ==> IsDigit(token[k]))
    && IsExponent(token[e]) && IsExponentTail(token, e + 1)
    && (strict && token[start] == '0' as int ==> e == start + 1)
  }

  function SignLength(token: Bytes): nat {
    if token != [] && (token[0] == '+' as int || token[0] == '-' as int) then 1 else 0
  }

  /** The tokens handed to `to_double`: a sign, which is not `+` in strict mode, digits
      and an exponent. There is no fraction. */
  ghost predicate IsFloat(strict: bool, token: Bytes) {
    && (strict && token != [] ==> token[0] != '+' as int)
    && exists e :: IsFloatBody(strict, token, SignLength(token), e)
  }

  lemma {:induction false} ExponentScan(strict: bool, token: Bytes, i: nat)
    ensures ScanExponent(strict, token, i).Floating? <==> NoWord(token, i)
    decreases |token| - i
  {
    if i < |token| {
      ExponentScan(strict, token, i + 1);
    }
  }

  lemma ExponentTail(strict: bool, token: Bytes, i: nat)
    requires i <= |token|
    ensures AfterExponent(strict, token, i).Floating? <==> IsExponentTail(token, i)
  {
    if i < |token| {
      ExponentScan(strict, token, i + 1);
    }
  }

  /** The scan of the integer part ends in a floating value exactly when digits lead to
      an exponent. */
  lemma {:induction false} IntegerScan(strict: bool, token: Bytes, start: nat, i: nat)
    ensures ScanInt(strict, token, start, i).Floating? <==>
      exists e :: i <= e < |token| && (forall k :: i <= k < e ==> IsDigit(token[k]))
                  && IsExponent(token[e]) && IsExponentTail(token, e + 1)
    decreases |token| - i
  {
    if i < |token| {
      if IsDigit(token[i]) {
        IntegerScan(strict, token, start, i + 1);
      } else if IsExponent(token[i]) {
        ExponentTail(strict, token, i + 1);
      }
    }
  }

  /** Exactly the tokens without fraction and with an exponent become floating values. */
  lemma FloatingExactly(strict: bool, token: Bytes)
    ensures ParseNumberOrStr(strict, token).Floating? <==> IsFloat(strict, token)
  {
    if ParseNumberOrStr(strict, token).Floating? {
      FloatingHasBody(strict, token);
    }
    if IsFloat(strict, token) {
      BodyIsFloating(strict, token);
    }
  }

  /** A floating value comes from the scan of an integer part; in strict mode no digit
      follows a leading zero. */
  lemma FloatingIsScanned(strict: bool, token: Bytes)
    requires ParseNumberOrStr(strict, token).Floating?
    ensures
      var start := SignLength(token);
      && token != [] && !(strict && token[0] == '+' as int) && start < |token| && IsDigit(token[start])
      && ScanInt(strict, token, start, start + 1).Floating?
      && (strict && token[start] == '0' as int ==> start + 1 < |token| && !IsDigit(token[start + 1]))
  {
  }

  lemma FloatingHasBody(strict: bool, token: Bytes)
    requires ParseNumberOrStr(strict, token).Floating?
    ensures IsFloat(strict, token)
  {
    var start := SignLength(token);
    FloatingIsScanned(strict, token);
    IntegerScan(strict, token, start, start + 1);
    var e :| start + 1 <= e < |token| && (forall k :: start + 1 <= k < e ==> IsDigit(token[k]))
             && IsExponent(token[e]) && IsExponentTail(token, e + 1);
    assert IsFloatBody(strict, token, start, e);
  }

  lemma BodyIsFloating(strict: bool, token: Bytes)
    requires IsFloat(strict, token)
    ensures ParseNumberOrStr(strict, token).Floating?
  {
    var start := SignLength(token);
    var e :| IsFloatBody(strict, token, start, e);
    assert start + 1 <= e && IsDigit(token[start]);
    IntegerScan(strict, token, start, start + 1);
  }

  /** So nothing with a `.` in it is ever read as a number with a fraction. */
  lemma NoFractions(strict: bool, token: Bytes)
    requires '.' as int in token
    ensures !ParseNumberOrStr(strict, token).Floating?
  {
    var k :| 0 <= k < |token| && token[k] == '.' as int;
    assert IsWord(token[k]) && !IsDigit(token[k]) && !IsExponent(token[k]);
    FloatingExactly(strict, token);
  }

  /** `1.5` comes back as a string, in strict mode too. */
  lemma FractionExample()
    ensures var token := ['1' as int, '.' as int, '5' as int]; ParseNumberOrStr(true, token) == Text(token)
  {
  }
}
