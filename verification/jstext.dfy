/**
 * The few JavaScript string operations the patcher's decisions depend on:
 * lower-casing, `endsWith`, and the loose comparison `x != 0` on a string,
 * which converts the string to a number first.
 */
module JsText {

  /** `String.prototype.toLowerCase` on one character, ASCII letters only. */
  function LowerChar(c: char): char {
    if 'A' <= c <= 'Z' then (c as int + 32) as char else c
  }

  /** `String.prototype.toLowerCase`, ASCII letters only. */
  function Lower(s: string): (r: string)
    ensures |r| == |s|
    ensures forall i :: 0 <= i < |s| ==> r[i] == LowerChar(s[i])
  {
    if |s| == 0 then [] else [LowerChar(s[0])] + Lower(s[1..])
  }

  /** `s.endsWith(suffix)`, and equally the regular expression `/suffix$/`. */
  predicate EndsWith(s: string, suffix: string) {
    |suffix| <= |s| && s[|s| - |suffix|..] == suffix
  }

  // ---------------------------------------------------------------------------
  // ToNumber(s) == 0 for a string s (StringToNumber, section 7.1.4.1.1 of ECMA-262)
  // ---------------------------------------------------------------------------

  /** StrWhiteSpaceChar: WhiteSpace or LineTerminator. */
  predicate IsStrWhiteSpace(c: char) {
    c == '\t' || c == '\n' || c == '\r' || c == ' '
    || c == '\U{000B}' || c == '\U{000C}' || c == '\U{00A0}' || c == '\U{1680}'
    || ('\U{2000}' <= c <= '\U{200A}')
    || c == '\U{2028}' || c == '\U{2029}' || c == '\U{202F}' || c == '\U{205F}'
    || c == '\U{3000}' || c == '\U{FEFF}'
  }

  function TrimStart(s: string): (r: string)
    ensures |r| <= |s|
    ensures |r| == 0 || !IsStrWhiteSpace(r[0])
  {
    if |s| > 0 && IsStrWhiteSpace(s[0]) then TrimStart(s[1..]) else s
  }

  function TrimEnd(s: string): (r: string)
    ensures |r| <= |s|
    ensures |r| == 0 || !IsStrWhiteSpace(r[|r| - 1])
  {
    if |s| > 0 && IsStrWhiteSpace(s[|s| - 1]) then TrimEnd(s[..|s| - 1]) else s
  }

  predicate IsDecimalDigit(c: char) {
    '0' <= c <= '9'
  }

  /** DecimalDigits: one or more decimal digits. */
  predicate DecimalDigits(s: string) {
    |s| > 0 && forall i :: 0 <= i < |s| ==> IsDecimalDigit(s[i])
  }

  /** Every character is the digit zero (vacuously true of the empty string). */
  predicate AllZeros(s: string) {
    forall i :: 0 <= i < |s| ==> s[i] == '0'
  }

  /** The index of the first `e` or `E`, or |s| when there is none. */
  function ExponentStart(s: string): (k: nat)
    ensures k <= |s|
    ensures forall i :: 0 <= i < k ==> s[i] != 'e' && s[i] != 'E'
    ensures k < |s| ==> s[k] == 'e' || s[k] == 'E'
  {
    if |s| == 0 then 0
    else if s[0] == 'e' || s[0] == 'E' then 0
    else 1 + ExponentStart(s[1..])
  }

  /** The index of the first `.`, or |s| when there is none. */
  function PointAt(s: string): (k: nat)
    ensures k <= |s|
    ensures forall i :: 0 <= i < k ==> s[i] != '.'
    ensures k < |s| ==> s[k] == '.'
  {
    if |s| == 0 then 0
    else if s[0] == '.' then 0
    else 1 + PointAt(s[1..])
  }

  /** ExponentPart (possibly absent): `e` or `E`, an optional sign, DecimalDigits. */
  predicate OptionalExponent(s: string) {
    || |s| == 0
    || (&& (s[0] == 'e' || s[0] == 'E')
        && if |s| > 1 && (s[1] == '+' || s[1] == '-') then DecimalDigits(s[2..]) else DecimalDigits(s[1..]))
  }

  /** Every character is a decimal digit (vacuously true of the empty string). */
  predicate AllDigits(s: string) {
    forall i :: 0 <= i < |s| ==> IsDecimalDigit(s[i])
  }

  /**
   * The mantissa of a StrUnsignedDecimalLiteral: `d…d`, `d…d.`, `d….d…d` or
   * `.d…d`, with at least one digit (`Infinity` is not zero and is left out).
   */
  predicate DecimalMantissa(m: string) {
    var p := PointAt(m);
    if p == |m| then DecimalDigits(m)
    else AllDigits(m[..p]) && AllDigits(m[p + 1..]) && |m| > 1
  }

  /** The digits of a mantissa, without its point. */
  function MantissaDigits(m: string): string {
    var p := PointAt(m);
    if p == |m| then m else m[..p] + m[p + 1..]
  }

  /** How many digits of a mantissa follow its point. */
  function FractionLength(m: string): nat {
    var p := PointAt(m);
    if p == |m| then 0 else |m| - p - 1
  }

  /** The value of a string of decimal digits. */
  function DigitsValue(s: string): nat
    requires AllDigits(s)
  {
    if |s| == 0 then 0 else 10 * DigitsValue(s[..|s| - 1]) + (s[|s| - 1] as int - '0' as int)
  }

  /** The value of an ExponentPart, 0 when it is absent. */
  function ExponentValue(x: string): int
    requires OptionalExponent(x)
  {
    if |x| == 0 then 0
    else if |x| > 1 && x[1] == '-' then -(DigitsValue(x[2..]) as int)
    else if |x| > 1 && x[1] == '+' then DigitsValue(x[2..])
    else DigitsValue(x[1..])
  }

  function Pow(b: nat, n: nat): nat {
    if n == 0 then 1 else b * Pow(b, n - 1)
  }

  /**
   * Below the least positive double: the positive value `n` times ten to the
   * `x` is at most 2^-1075, half of the least positive double 2^-1074, so
   * rounding to nearest, ties to even, makes it zero.
   */
  predicate Underflows(n: nat, x: int) {
    x < 0 && n * Pow(2, 1075) <= Pow(10, -x)
  }

  /**
   * A StrUnsignedDecimalLiteral whose number value is zero: its digits are all
   * zero, or its mathematical value is so small that StringToNumber rounds it
   * to +0.
   */
  predicate ZeroUnsignedDecimal(s: string) {
    var k := ExponentStart(s);
    var m := s[..k];
    && DecimalMantissa(m) && OptionalExponent(s[k..])
    && (AllZeros(MantissaDigits(m))
        || Underflows(DigitsValue(MantissaDigits(m)), ExponentValue(s[k..]) - FractionLength(m)))
  }

  /** A StrDecimalLiteral whose value is zero or negative zero. */
  predicate ZeroDecimal(s: string) {
    if |s| > 0 && (s[0] == '+' || s[0] == '-') then ZeroUnsignedDecimal(s[1..]) else ZeroUnsignedDecimal(s)
  }

  /** A NonDecimalIntegerLiteral (`0x`, `0o`, `0b` forms) whose value is zero. */
  predicate ZeroNonDecimal(s: string) {
    && |s| >= 3 && s[0] == '0'
    && (s[1] == 'x' || s[1] == 'X' || s[1] == 'o' || s[1] == 'O' || s[1] == 'b' || s[1] == 'B')
    && AllZeros(s[2..])
  }

  /**
   * JavaScript's `s == 0` for a string `s`: the string, with surrounding white
   * space trimmed, is empty or a numeric literal whose value is zero.
   */
  predicate LooselyEqualsZero(s: string) {
    var t := TrimEnd(TrimStart(s));
    |t| == 0 || ZeroDecimal(t) || ZeroNonDecimal(t)
  }

  /** Unsigned, untrimmable text that reads as zero equals zero loosely. */
  lemma UnsignedZeroIsLooseZero(s: string)
    requires TrimEnd(TrimStart(s)) == s && |s| > 0 && '0' <= s[0] <= '9'
    requires ZeroUnsignedDecimal(s)
    ensures LooselyEqualsZero(s)
  {
  }

  lemma {:induction false} PowAdd(b: nat, m: nat, n: nat)
    ensures Pow(b, m + n) == Pow(b, m) * Pow(b, n)
    decreases n
  {
    if n > 0 {
      PowAdd(b, m, n - 1);
      assert Pow(b, m + n) == b * Pow(b, m + n - 1);
    }
  }

  lemma {:induction false} PowOfPow(b: nat, m: nat, n: nat)
    ensures Pow(b, m * n) == Pow(Pow(b, m), n)
    decreases n
  {
    if n > 0 {
      PowOfPow(b, m, n - 1);
      PowAdd(b, m, m * (n - 1));
      assert m * n == m + m * (n - 1);
    }
  }

  lemma MulMonotone(a: nat, b: nat, c: nat)
    requires a <= b
    ensures a * c <= b * c
  {
  }

  lemma {:induction false} PowBaseMonotone(a: nat, b: nat, n: nat)
    requires a <= b
    ensures Pow(a, n) <= Pow(b, n)
    decreases n
  {
    if n > 0 {
      PowBaseMonotone(a, b, n - 1);
      MulMonotone(a, b, Pow(a, n - 1));
      MulMonotone(Pow(a, n - 1), Pow(b, n - 1), b);
    }
  }

  lemma {:induction false} PowPositive(b: nat, n: nat)
    requires b > 0
    ensures Pow(b, n) > 0
    decreases n
  {
    if n > 0 {
      PowPositive(b, n - 1);
    }
  }

  /** 2^1075 is at most 10^359, since 2^3 < 10. */
  lemma TwoPowerBound()
    ensures Pow(2, 1075) <= Pow(10, 359)
  {
    PowAdd(2, 1075, 2);
    PowPositive(2, 1075);
    PowOfPow(2, 3, 359);
    PowBaseMonotone(8, 10, 359);
  }

  /** Once the exponent is at most -359, the value one times ten to it rounds to zero. */
  lemma {:induction false} UnitUnderflows(x: nat)
    requires x >= 359
    ensures Underflows(1, -(x as int))
  {
    TwoPowerBound();
    PowAdd(10, 359, x - 359);
    PowPositive(10, x - 359);
  }

  /** Text that starts with a letter other than `e` and does not end in white space is not a numeric literal. */
  lemma LetterStartNotZero(s: string)
    requires |s| > 0 && 'a' <= s[0] <= 'z' && s[0] != 'e' && !IsStrWhiteSpace(s[|s| - 1])
    ensures !LooselyEqualsZero(s)
  {
    assert TrimStart(s) == s by {
      assert !IsStrWhiteSpace(s[0]);
    }
    assert TrimEnd(s) == s;
    var k := ExponentStart(s);
    assert !ZeroUnsignedDecimal(s) by {
      var m := s[..k];
      assert k > 0 && m[0] == s[0];
      var p := PointAt(m);
      if p < |m| {
        assert p > 0 && !IsDecimalDigit(m[..p][0]);
      }
      assert !DecimalMantissa(m);
    }
  }

  /** A literal whose mathematical value underflows reads as zero. */
  lemma UnderflowingIsZero(s: string, n: nat, x: int)
    requires var k := ExponentStart(s);
      && DecimalMantissa(s[..k]) && OptionalExponent(s[k..])
      && DigitsValue(MantissaDigits(s[..k])) == n && ExponentValue(s[k..]) - FractionLength(s[..k]) == x
    requires Underflows(n, x)
    ensures ZeroUnsignedDecimal(s)
  {
  }

  lemma TinyMantissa()
    ensures ExponentStart("1e-400") == 1
    ensures var m := "1e-400"[..1];
      DecimalMantissa(m) && MantissaDigits(m) == "1" && FractionLength(m) == 0 && DigitsValue("1") == 1
  {
    var s := "1e-400";
    assert ExponentStart(s) == 1 by {
      assert s[1..][0] == 'e';
    }
    var m := s[..1];
    assert PointAt(m) == 1 by {
      assert PointAt(m[1..]) == 0;
    }
    assert DigitsValue("1") == 1 by {
      assert "1"[..0] == "";
    }
  }

  lemma TinyExponent()
    ensures var x := "1e-400"[1..]; OptionalExponent(x) && ExponentValue(x) == -400
  {
    var x := "1e-400"[1..];
    assert x == "e-400" && x[2..] == "400";
    assert DigitsValue("400") == 400 by {
      assert "400"[..2] == "40" && "40"[..1] == "4" && "4"[..0] == "";
    }
  }

  /** "1e-400" is a nonzero literal that StringToNumber rounds to zero, so it equals zero loosely. */
  lemma TinyLiteralEqualsZero()
    ensures LooselyEqualsZero("1e-400")
  {
    var s := "1e-400";
    TinyMantissa();
    TinyExponent();
    UnitUnderflows(400);
    UnderflowingIsZero(s, 1, -400);
    assert TrimStart(s) == s;
    assert TrimEnd(s) == s;
    UnsignedZeroIsLooseZero(s);
  }

  // ---------------------------------------------------------------------------
  // JSON.stringify on a string (section 25.5.2.3 of ECMA-262, QuoteJSONString)
  // ---------------------------------------------------------------------------

  function LowerHexDigit(n: nat): char
    requires n < 16
  {
    if n < 10 then ('0' as int + n) as char else ('a' as int + n - 10) as char
  }

  /** One character as it appears inside a JSON string. */
  function JsonChar(c: char): string {
    if c == '"' then "\\\""
    else if c == '\\' then "\\\\"
    else if c == '\n' then "\\n"
    else if c == '\r' then "\\r"
    else if c == '\t' then "\\t"
    else if c == '\U{8}' then "\\b"
    else if c == '\U{C}' then "\\f"
    else if c < ' ' then "\\u00" + [LowerHexDigit(c as int / 16), LowerHexDigit(c as int % 16)]
    else [c]
  }

  function JsonBody(t: string): string {
    if |t| == 0 then [] else JsonChar(t[0]) + JsonBody(t[1..])
  }

  /** `JSON.stringify(t)` for a string `t`: quoted, with quotes, backslashes and control characters escaped. */
  function JsonString(t: string): (r: string)
    ensures |r| >= |t| + 2 && r[0] == '"' && r[|r| - 1] == '"'
  {
    JsonBodyLength(t);
    "\"" + JsonBody(t) + "\""
  }

  lemma {:induction false} JsonBodyLength(t: string)
    ensures |JsonBody(t)| >= |t|
  {
    if |t| > 0 {
      JsonBodyLength(t[1..]);
    }
  }

  /** One hexadecimal digit, either case. */
  predicate IsHexDigit(c: char) {
    ('0' <= c <= '9') || ('a' <= c <= 'f') || ('A' <= c <= 'F')
  }

  /** A well-formed MD5 digest in hexadecimal: exactly 32 hex digits. */
  predicate IsHexDigest(s: string) {
    |s| == 32 && forall i :: 0 <= i < |s| ==> IsHexDigit(s[i])
  }
}
