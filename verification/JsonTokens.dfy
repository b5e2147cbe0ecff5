/**
 What every token of the relaxed reader turns into, told by the shape of the token alone:
 a sign, the digits after it, and the rest.
 */
module JsonTokens {
  import opened RawTypes
  import opened JsonNumbers

  predicate AllDigits(digits: Bytes) {
    forall k :: 0 <= k < |digits| ==> '0' as int <= digits[k] <= '9' as int
  }

  /** The letters, and the five other characters of unquoted strings. */
  predicate WordCharacter(c: int) {
    || 'a' as int <= c <= 'z' as int || 'A' as int <= c <= 'Z' as int
    || c == '_' as int || c == '-' as int || c == '.' as int || c == '+' as int || c == '/' as int
  }

  predicate IsSign(sign: Bytes) {
    sign == [] || sign == ['+' as int] || sign == ['-' as int]
  }

  /** The token falls apart into these: the sign if there is one, all digits after it, and the rest. */
  predicate Shape(token: Bytes, sign: Bytes, digits: Bytes, rest: Bytes) {
    && token == sign + digits + rest && IsSign(sign) && AllDigits(digits)
    && (rest != [] ==> !('0' as int <= rest[0] <= '9' as int))
    && (sign == [] && digits == [] && rest != [] ==> rest[0] != '+' as int && rest[0] != '-' as int)
  }

  /** Every token has a shape. */
  lemma HasShape(token: Bytes) returns (sign: Bytes, digits: Bytes, rest: Bytes)
    ensures Shape(token, sign, digits, rest)
  {
    var start := SignLength(token);
    var e := start;
    while e < |token| && IsDigit(token[e])
      invariant start <= e <= |token| && forall k :: start <= k < e ==> IsDigit(token[k])
    {
      e := e + 1;
    }
    sign, digits, rest := token[..start], token[start..e], token[e..];
    assert sign == [] || sign == [token[0]];
  }

  /** A number, or an error if its type does not hold it. */
  function Meaning(sign: Bytes, value: nat): Parsed {
    if sign == ['-' as int] then
      if value <= 9223372036854775808 then Negative(0 - value) else Error
    else if value <= 18446744073709551615 then Unsigned(value) else Error
  }

  /** Parts of the token by index. */
  lemma Parts(token: Bytes, sign: Bytes, digits: Bytes, rest: Bytes)
    requires Shape(token, sign, digits, rest)
    ensures |sign| == SignLength(token) && |token| == |sign| + |digits| + |rest|
    ensures forall k :: |sign| <= k < |sign| + |digits| ==> IsDigit(token[k]) && token[k] == digits[k - |sign|]
    ensures rest != [] ==> token[|sign| + |digits|] == rest[0] && !IsDigit(rest[0])
    ensures token[|sign| + |digits|..] == rest && token[|sign|..] == digits + rest
    ensures sign != [] ==> token[0] == sign[0]
    ensures sign != ['-' as int] && token != [] ==> token[0] != '-' as int
  {
  }

  /** The scan passes over digits. */
  lemma {:induction false} SkipDigits(strict: bool, token: Bytes, start: nat, i: nat, e: nat)
    requires i <= e <= |token| && forall k :: i <= k < e ==> IsDigit(token[k])
    ensures ScanInt(strict, token, start, i) == ScanInt(strict, token, start, e)
    decreases e - i
  {
    if i < e {
      SkipDigits(strict, token, start, i + 1, e);
    }
  }

  //  Tokens that start with no digit

  /** Nothing, a sign alone, or a character of no string: an error in both modes. Strict mode
      takes no plus sign. A word is text, and an error in strict mode. */
  lemma WithoutDigits(strict: bool, token: Bytes, sign: Bytes, rest: Bytes)
    requires Shape(token, sign, [], rest)
    ensures
      ParseNumberOrStr(strict, token) ==
        if rest != [] && WordCharacter(rest[0]) && !strict then Text(token) else Error
  {
    Parts(token, sign, [], rest);
    if token == [] || (strict && token[0] == '+' as int) {
      NothingOrPlus(strict, token);
    } else {
      NoDigitAt(strict, token, |sign|);
    }
  }

  lemma NothingOrPlus(strict: bool, token: Bytes)
    requires token == [] || (strict && token[0] == '+' as int)
    ensures ParseNumberOrStr(strict, token) == Error
  {
  }

  lemma NoDigitAt(strict: bool, token: Bytes, start: nat)
    requires token != [] && start == SignLength(token) && !(strict && token[0] == '+' as int)
    requires start < |token| ==> !IsDigit(token[start])
    ensures ParseNumberOrStr(strict, token) ==
      if start < |token| && WordCharacter(token[start]) && !strict then Text(token) else Error
  {
  }

  lemma PlusIsNotStrict(token: Bytes)
    requires token != [] && token[0] == '+' as int
    ensures ParseNumberOrStr(true, token) == Error
  {
  }

  //  Digits

  /** The scan begins at a digit, unless a lone zero ends the token, starts a prefix or is
      followed in strict mode by what strict mode does not take. */
  lemma EntersScan(strict: bool, token: Bytes, start: nat, e: nat)
    requires start == SignLength(token) && start < e <= |token| && (strict ==> token[0] != '+' as int)
    requires forall k :: start <= k < e ==> IsDigit(token[k])
    requires token[start] == '0' as int ==> start + 1 < |token| && !IsPrefix(token[start + 1])
    requires token[start] == '0' as int && strict ==> IsFraction(token[start + 1])
    ensures ParseNumberOrStr(strict, token) == ScanInt(strict, token, start, e)
  {
    SkipDigits(strict, token, start, start + 1, e);
  }

  predicate IsPrefix(c: int) {
    || c == 'b' as int || c == 'B' as int || c == 'o' as int || c == 'O' as int || c == 'x' as int || c == 'X' as int
  }

  predicate IsFraction(c: int) {
    c == '.' as int || c == 'e' as int || c == 'E' as int
  }

  /** In strict mode a leading zero is followed by nothing, a dot or an exponent. */
  lemma StrictZero(token: Bytes, start: nat)
    requires start == SignLength(token) && start + 1 < |token| && token[0] != '+' as int
    requires token[start] == '0' as int && !IsFraction(token[start + 1])
    ensures ParseNumberOrStr(true, token) == Error
  {
  }

  lemma LiteralMeaning(base: nat, token: Bytes, start: nat, sign: Bytes, digits: Bytes)
    requires token != [] && start <= |token| && token[start..] == digits && digits != [] && AllLegal(digits)
    requires token[0] == '-' as int <==> sign == ['-' as int]
    ensures IntLiteral(base, token, start) == Meaning(sign, Horner(base, digits))
  {
  }

  /** Digits alone: their value. Strict mode takes no zero in front of others; a zero alone has no sign. */
  lemma DigitsAlone(strict: bool, token: Bytes, sign: Bytes, digits: Bytes)
    requires Shape(token, sign, digits, []) && digits != [] && (strict ==> sign != ['+' as int])
    ensures
      ParseNumberOrStr(strict, token) ==
        if |digits| == 1 && digits[0] == '0' as int then Unsigned(0)
        else if strict && digits[0] == '0' as int then Error
        else Meaning(sign, Horner(10, digits))
  {
    var start := |sign|;
    Parts(token, sign, digits, []);
    if digits[0] == '0' as int && |digits| == 1 {
      ZeroAlone(strict, token, start);
    } else if strict && digits[0] == '0' as int {
      assert token[start + 1] == digits[1];
      StrictZero(token, start);
    } else {
      assert token[start] == digits[0];
      assert |digits| > 1 ==> token[start + 1] == digits[1];
      EntersScan(strict, token, start, |token|);
      assert token[start..] == digits;
      LiteralMeaning(10, token, start, sign, digits);
    }
  }

  lemma ZeroAlone(strict: bool, token: Bytes, start: nat)
    requires start == SignLength(token) && |token| == start + 1 && token[start] == '0' as int
    requires strict ==> token[0] != '+' as int
    ensures ParseNumberOrStr(strict, token) == Unsigned(0)
  {
  }

  /** Digits and then a character other than an exponent mark, or a prefix after a lone zero:
      with a dot the token is text in both modes. */
  lemma DigitsAndMore(strict: bool, token: Bytes, sign: Bytes, digits: Bytes, rest: Bytes)
    requires Shape(token, sign, digits, rest) && digits != [] && (strict ==> sign != ['+' as int])
    requires rest != [] && rest[0] != 'e' as int && rest[0] != 'E' as int
    requires |digits| == 1 && digits[0] == '0' as int ==> !IsPrefix(rest[0])
    ensures
      ParseNumberOrStr(strict, token) ==
        if strict && digits[0] == '0' as int && (|digits| > 1 || rest[0] != '.' as int) then Error
        else if rest[0] == '.' as int then Text(token)
        else if WordCharacter(rest[0]) && !strict then Text(token)
        else Error
  {
    var start, e := |sign|, |sign| + |digits|;
    Parts(token, sign, digits, rest);
    assert token[start] == digits[0] && token[e] == rest[0];
    assert |digits| > 1 ==> token[start + 1] == digits[1];
    if strict && digits[0] == '0' as int && (|digits| > 1 || rest[0] != '.' as int) {
      StrictZero(token, start);
    } else {
      EntersScan(strict, token, start, e);
    }
  }

  /** Digits and then an exponent mark: floating with an exponent after it, which is a sign and
      something or a digit, and no character of a word later on. */
  lemma DigitsAndExponent(strict: bool, token: Bytes, sign: Bytes, digits: Bytes, rest: Bytes)
    requires Shape(token, sign, digits, rest) && digits != [] && (strict ==> sign != ['+' as int])
    requires rest != [] && (rest[0] == 'e' as int || rest[0] == 'E' as int)
    ensures
      ParseNumberOrStr(strict, token) ==
        if strict && digits[0] == '0' as int && |digits| > 1 then Error
        else if |rest| >= 2 && !WordCharacter(rest[1]) && !('0' as int <= rest[1] <= '9' as int) then Error
        else if IsExponentPart(rest) then Floating(token)
        else if strict then Error
        else Text(token)
  {
    var start, e := |sign|, |sign| + |digits|;
    Parts(token, sign, digits, rest);
    assert token[start] == digits[0] && token[e] == rest[0];
    assert |digits| > 1 ==> token[start + 1] == digits[1];
    if strict && digits[0] == '0' as int && |digits| > 1 {
      StrictZero(token, start);
    } else {
      EntersScan(strict, token, start, e);
      ExponentPart(strict, token, e, rest);
    }
  }

  predicate IsExponentPart(rest: Bytes) {
    && |rest| >= 2 && (forall k :: 2 <= k < |rest| ==> !WordCharacter(rest[k]))
    && if rest[1] == '+' as int || rest[1] == '-' as int then |rest| >= 3 else '0' as int <= rest[1] <= '9' as int
  }

  lemma ExponentPart(strict: bool, token: Bytes, e: nat, rest: Bytes)
    requires e < |token| && rest == token[e..]
    ensures
      AfterExponent(strict, token, e + 1) ==
        if |rest| >= 2 && !WordCharacter(rest[1]) && !('0' as int <= rest[1] <= '9' as int) then Error
        else if IsExponentPart(rest) then Floating(token)
        else if strict then Error
        else Text(token)
  {
    if e + 1 < |token| {
      assert rest[1] == token[e + 1];
      RestScan(strict, token, e, rest);
    }
  }

  lemma RestScan(strict: bool, token: Bytes, e: nat, rest: Bytes)
    requires e + 2 <= |token| && rest == token[e..]
    ensures
      ScanExponent(strict, token, e + 2) ==
        if forall k :: 2 <= k < |rest| ==> !WordCharacter(rest[k]) then Floating(token)
        else if strict then Error
        else Text(token)
  {
    ScanOutcome(strict, token, e + 2);
    ExponentScan(strict, token, e + 2);
    if k :| e + 2 <= k < |token| && IsWord(token[k]) {
      assert rest[k - e] == token[k];
    }
    assert forall k :: 2 <= k < |rest| ==> rest[k] == token[e + k];
  }

  lemma {:induction false} ScanOutcome(strict: bool, token: Bytes, i: nat)
    ensures ScanExponent(strict, token, i) == Floating(token) || ScanExponent(strict, token, i) == StringUnless(strict, token)
    decreases |token| - i
  {
    if i < |token| {
      ScanOutcome(strict, token, i + 1);
    }
  }

  //  Prefixes

  /** Strict mode takes no prefix. */
  lemma PrefixIsNotStrict(token: Bytes, sign: Bytes, rest: Bytes)
    requires Shape(token, sign, ['0' as int], rest) && rest != [] && IsPrefix(rest[0])
    ensures ParseNumberOrStr(true, token) == Error
  {
    Parts(token, sign, ['0' as int], rest);
    assert token[|sign|] == '0' as int;
    if sign == ['+' as int] {
      PlusIsNotStrict(token);
    } else {
      StrictZero(token, |sign|);
    }
  }

  /** An octal or hexadecimal literal has the value of its digits in that base; without
      digits, with another character or out of bounds it is text. */
  lemma PrefixedLiteral(token: Bytes, sign: Bytes, prefix: Octet, digits: Bytes, base: nat)
    requires token == sign + ['0' as int, prefix] + digits && IsSign(sign)
    requires if base == 8 then prefix == 'o' as int || prefix == 'O' as int
             else base == 16 && (prefix == 'x' as int || prefix == 'X' as int)
    ensures
      ParseNumberOrStr(false, token) ==
        if digits != [] && AllLegal(digits) && Meaning(sign, Horner(base, digits)) != Error
        then Meaning(sign, Horner(base, digits)) else Text(token)
  {
    var start := |sign|;
    assert token[start] == '0' as int && token[start + 1] == prefix && token[start + 2..] == digits;
    assert start == SignLength(token) && (sign == ['-' as int] <==> token[0] == '-' as int);
    assert ParseNumberOrStr(false, token) == MaybeParseInt(false, base, token, start + 2);
    if digits != [] && AllLegal(digits) {
      LiteralMeaning(base, token, start + 2, sign, digits);
    }
  }

  /** A binary literal has the value of its digits after the first, which is any character;
      a prefix with nothing after it is an error. */
  lemma BinaryPrefix(token: Bytes, sign: Bytes, prefix: Octet, rest: Bytes)
    requires token == sign + ['0' as int, prefix] + rest && IsSign(sign)
    requires prefix == 'b' as int || prefix == 'B' as int
    ensures
      ParseNumberOrStr(false, token) ==
        if rest == [] then Error
        else if |rest| > 1 && AllLegal(rest[1..]) && Meaning(sign, Horner(2, rest[1..])) != Error
        then Meaning(sign, Horner(2, rest[1..])) else Text(token)
  {
    var start := |sign|;
    assert token[start] == '0' as int && token[start + 1] == prefix && token[start + 2..] == rest;
    assert start == SignLength(token) && (sign == ['-' as int] <==> token[0] == '-' as int);
    if rest != [] {
      assert token[start + 3..] == rest[1..];
      assert ParseNumberOrStr(false, token) == MaybeParseInt(false, 2, token, start + 3);
      if |rest| > 1 && AllLegal(rest[1..]) {
        LiteralMeaning(2, token, start + 3, sign, rest[1..]);
      }
    }
  }

  /** `0o17` is fifteen. */
  lemma OctalExample(token: Bytes)
    requires token == ['0' as int, 'o' as int, '1' as int, '7' as int]
    ensures ParseNumberOrStr(false, token) == Unsigned(15)
  {
    ShowTwoDigits(token, [], 'o' as int, 8, '1' as int, '7' as int, 15);
  }

  /** `0xfZ` is 275, and `-0X10` is -16. */
  lemma HexExample(token: Bytes)
    requires token == ['0' as int, 'x' as int, 'f' as int, 'Z' as int]
    ensures ParseNumberOrStr(false, token) == Unsigned(275)
  {
    ShowTwoDigits(token, [], 'x' as int, 16, 'f' as int, 'Z' as int, 275);
  }

  lemma NegativeHexExample(token: Bytes)
    requires token == ['-' as int, '0' as int, 'X' as int, '1' as int, '0' as int]
    ensures ParseNumberOrStr(false, token) == Negative(-16)
  {
    ShowTwoDigits(token, ['-' as int], 'X' as int, 16, '1' as int, '0' as int, 16);
  }

  lemma ShowTwoDigits(token: Bytes, sign: Bytes, prefix: Octet, base: nat, a: Octet, b: Octet, value: nat)
    requires token == sign + ['0' as int, prefix] + [a, b] && IsSign(sign)
    requires if base == 8 then prefix == 'o' as int || prefix == 'O' as int
             else base == 16 && (prefix == 'x' as int || prefix == 'X' as int)
    requires CharValue(a) != 0xFF && CharValue(b) != 0xFF && value == CharValue(a) * base + CharValue(b)
    requires value < 0x1_0000
    ensures ParseNumberOrStr(false, token) == Meaning(sign, value)
  {
    var digits := [a, b];
    TwoDigits(base, digits);
    PrefixedLiteral(token, sign, prefix, digits, base);
  }

  lemma TwoDigits(base: nat, digits: Bytes)
    requires |digits| == 2
    ensures Horner(base, digits) == CharValue(digits[0]) * base + CharValue(digits[1])
  {
    assert digits[..1][..0] == [];
    var zero := Horner(base, digits[..1][..0]);
    assert zero == 0 && zero * base == 0;
  }
}
