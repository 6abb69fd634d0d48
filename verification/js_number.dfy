/**
 * JavaScript numbers as the rest of the model needs them: the `Number(x)`
 * conversion of strings (ECMAScript StringToNumber), `String(n)` of integers,
 * truthiness, and the few arithmetic operators the source applies.
 *
 * Values are exact rationals: IEEE-754 rounding and the sign of zero are not
 * modelled (see README).
 */
module JsNumber {
  import opened Results

  /** A JavaScript number: a finite value, one of the two infinities, or NaN. */
  datatype Num = Finite(value: real) | PosInf | NegInf | NaN

  /** ToBoolean on a number: only 0 and NaN are falsy. */
  predicate Truthy(n: Num) {
    n != NaN && n != Finite(0.0)
  }

  /**
   * `x || d` on a number, the idiom the source uses for defaults: the result
   * is one of the two operands, and it is truthy as soon as either is, so a
   * truthy default can never be defeated.
   */
  function OrDefault(x: Num, d: Num): (r: Num)
    ensures r == x || r == d
    ensures Truthy(r) <==> Truthy(x) || Truthy(d)
    ensures Truthy(x) ==> r == x
    ensures !Truthy(x) ==> r == d
  {
    if Truthy(x) then x else d
  }

  function Negate(n: Num): Num {
    match n
    case Finite(x) => Finite(-x)
    case PosInf => NegInf
    case NegInf => PosInf
    case NaN => NaN
  }

  /** `n - 1`. */
  function MinusOne(n: Num): Num {
    match n
    case Finite(x) => Finite(x - 1.0)
    case _ => n
  }

  /** `k * n` for an integer `k`; zero times an infinity is NaN. */
  function Times(k: int, n: Num): Num {
    match n
    case Finite(x) => Finite(k as real * x)
    case NaN => NaN
    case PosInf => if k > 0 then PosInf else if k < 0 then NegInf else NaN
    case NegInf => if k > 0 then NegInf else if k < 0 then PosInf else NaN
  }

  /**
   * `a + b` on numbers: the sum is NaN exactly when an operand is NaN or the
   * operands are opposite infinities, 0 is neutral on either side, and finite
   * operands add exactly.
   */
  function Add(a: Num, b: Num): (r: Num)
    ensures r.NaN? <==> a.NaN? || b.NaN? || (a.PosInf? && b.NegInf?) || (a.NegInf? && b.PosInf?)
    ensures a == Finite(0.0) ==> r == b
    ensures b == Finite(0.0) ==> r == a
    ensures a.Finite? && b.Finite? ==> r == Finite(a.value + b.value)
  {
    if a.NaN? || b.NaN? then NaN
    else if a.Finite? && b.Finite? then Finite(a.value + b.value)
    else if a.Finite? then b
    else if b.Finite? || a == b then a
    else NaN
  }

  /** Addition commutes. */
  lemma AddCommutes(a: Num, b: Num)
    ensures Add(a, b) == Add(b, a)
  {
  }

  /** Addition associates, so a running total does not depend on grouping. */
  lemma AddAssociates(a: Num, b: Num, c: Num)
    ensures Add(Add(a, b), c) == Add(a, Add(b, c))
  {
  }

  /** `a / b` for a non-zero divisor (division by zero needs the sign of zero, which the model drops). */
  function Divide(a: Num, b: Num): Num
    requires b != Finite(0.0)
  {
    if a.NaN? || b.NaN? then NaN
    else if a.Finite? && b.Finite? then Finite(a.value / b.value)
    else if a.Finite? then Finite(0.0)
    else if b.Finite? then (if (b.value > 0.0) == a.PosInf? then PosInf else NegInf)
    else NaN
  }

  /** The least integer not below `x`. */
  function CeilReal(x: real): int {
    -((-x).Floor)
  }

  /** `Math.ceil(n)`. */
  function Ceil(n: Num): Num {
    match n
    case Finite(x) => Finite(CeilReal(x) as real)
    case _ => n
  }

  /** JavaScript `a < b` on numbers: any comparison with NaN is false. */
  predicate Less(a: Num, b: Num) {
    match (a, b)
    case (NaN, _) => false
    case (_, NaN) => false
    case (Finite(x), Finite(y)) => x < y
    case (NegInf, _) => b != NegInf
    case (_, PosInf) => a != PosInf
    case _ => false
  }

  // ---------------------------------------------------------------------
  // String to number (ECMAScript StringToNumber)
  // ---------------------------------------------------------------------

  /** The WhiteSpace and LineTerminator code points that StringToNumber trims. */
  predicate IsJsSpace(c: char) {
    var k := c as int;
    k == 0x09 || k == 0x0A || k == 0x0B || k == 0x0C || k == 0x0D || k == 0x20
    || k == 0xA0 || k == 0x1680 || (0x2000 <= k <= 0x200A) || k == 0x2028
    || k == 0x2029 || k == 0x202F || k == 0x205F || k == 0x3000 || k == 0xFEFF
  }

  function TrimStart(s: string): string
    decreases |s|
  {
    if |s| > 0 && IsJsSpace(s[0]) then TrimStart(s[1..]) else s
  }

  function TrimEnd(s: string): string
    decreases |s|
  {
    if |s| > 0 && IsJsSpace(s[|s| - 1]) then TrimEnd(s[..|s| - 1]) else s
  }

  function Trim(s: string): string {
    TrimEnd(TrimStart(s))
  }

  /** The value of a digit in bases up to 16, or 16 for any other character. */
  function DigitValue(c: char): nat {
    if '0' <= c <= '9' then (c as int) - ('0' as int)
    else if 'a' <= c <= 'f' then (c as int) - ('a' as int) + 10
    else if 'A' <= c <= 'F' then (c as int) - ('A' as int) + 10
    else 16
  }

  predicate AllDigits(s: string, base: nat) {
    forall i :: 0 <= i < |s| ==> DigitValue(s[i]) < base
  }

  /** The value of a digit string in the given base, most significant digit first. */
  function DigitsValue(s: string, base: nat): nat {
    if s == [] then 0 else DigitsValue(s[..|s| - 1], base) * base + DigitValue(s[|s| - 1])
  }

  /** Index of the first `a` or `b` in `s`, or `|s|` when there is none. */
  function IndexOfEither(s: string, a: char, b: char): (r: nat)
    ensures r <= |s|
    ensures forall i :: 0 <= i < r ==> s[i] != a && s[i] != b
    ensures r < |s| ==> s[r] == a || s[r] == b
  {
    if s == [] || s[0] == a || s[0] == b then 0 else 1 + IndexOfEither(s[1..], a, b)
  }

  /** `x * 10^e`. */
  function Scale10(x: real, e: int): real
    decreases if e >= 0 then e else -e
  {
    if e == 0 then x
    else if e > 0 then Scale10(x, e - 1) * 10.0
    else Scale10(x, e + 1) / 10.0
  }

  /** An exponent: an optional sign followed by at least one decimal digit. */
  function ParseExponent(s: string): Option<int> {
    if |s| > 0 && (s[0] == '+' || s[0] == '-') then
      var ds := s[1..];
      var v: int := DigitsValue(ds, 10);
      if |ds| > 0 && AllDigits(ds, 10) then Some(if s[0] == '-' then -v else v)
      else None
    else if |s| > 0 && AllDigits(s, 10) then Some(DigitsValue(s, 10))
    else None
  }

  /** StrUnsignedDecimalLiteral: `Infinity`, or digits with an optional fraction and exponent. */
  function UnsignedDecimal(s: string): Num {
    if s == "Infinity" then PosInf
    else
      var e := IndexOfEither(s, 'e', 'E');
      Mantissa(s[..e], if e < |s| then ParseExponent(s[e + 1..]) else Some(0))
  }

  /**
   * Digits with an optional `.` and fraction, scaled by an already parsed
   * exponent: all the digits read as one integer, times ten to the exponent
   * less the number of fraction digits.
   */
  function Mantissa(m: string, exponent: Option<int>): Num {
    var d := IndexOfEither(m, '.', '.');
    var whole := m[..d];
    var fraction := if d < |m| then m[d + 1..] else "";
    if exponent.Some? && AllDigits(whole, 10) && AllDigits(fraction, 10) && |whole| + |fraction| > 0 then
      Finite(Scale10(DigitsValue(whole + fraction, 10) as real, exponent.value - |fraction|))
    else NaN
  }

  /** NonDecimalIntegerLiteral digits after the `0x`/`0o`/`0b` prefix. */
  function NonDecimal(ds: string, base: nat): Num {
    if |ds| > 0 && AllDigits(ds, base) then Finite(DigitsValue(ds, base) as real) else NaN
  }

  /** The radix a `0x`/`0o`/`0b` prefix letter selects, or 0 for any other character. */
  function Radix(c: char): nat {
    if c == 'x' || c == 'X' then 16
    else if c == 'o' || c == 'O' then 8
    else if c == 'b' || c == 'B' then 2
    else 0
  }

  /** `Number(s)` for a string `s`. */
  function StringToNumber(s: string): Num {
    TrimmedToNumber(Trim(s))
  }

  /** StringToNumber after white space has been trimmed. */
  function TrimmedToNumber(t: string): Num {
    if t == [] then Finite(0.0)
    else if |t| >= 2 && t[0] == '0' && Radix(t[1]) > 0 then NonDecimal(t[2..], Radix(t[1]))
    else if t[0] == '+' then UnsignedDecimal(t[1..])
    else if t[0] == '-' then Negate(UnsignedDecimal(t[1..]))
    else UnsignedDecimal(t)
  }

  // ---------------------------------------------------------------------
  // Integer to string (Number::toString for integers)
  // ---------------------------------------------------------------------

  function DigitChar(d: nat): char
    requires d < 10
  {
    ((('0' as int) + d) as char)
  }

  function NatToString(n: nat): string {
    if n < 10 then [DigitChar(n)] else NatToString(n / 10) + [DigitChar(n % 10)]
  }

  /** `String(n)` (or template interpolation) of an integer-valued number. */
  function IntToString(n: int): string {
    if n < 0 then "-" + NatToString(-n) else NatToString(n)
  }

  /** The decimal rendering of a natural number is a non-empty digit string denoting it. */
  lemma {:induction false} NatToStringDenotes(n: nat)
    ensures |NatToString(n)| > 0
    ensures AllDigits(NatToString(n), 10)
    ensures DigitsValue(NatToString(n), 10) == n
  {
    if n >= 10 {
      NatToStringDenotes(n / 10);
      var s := NatToString(n);
      assert s[..|s| - 1] == NatToString(n / 10);
    }
  }

  /** `String(n)` of an integer uses only decimal digits and a leading minus sign. */
  lemma IntToStringChars(n: int)
    ensures |IntToString(n)| > 0
    ensures forall i :: 0 <= i < |IntToString(n)| ==> IntToString(n)[i] == '-' || '0' <= IntToString(n)[i] <= '9'
  {
    var m: nat := if n < 0 then -n else n;
    NatToStringDenotes(m);
    var ds := NatToString(m);
    assert forall i :: 0 <= i < |ds| ==> '0' <= ds[i] <= '9' by {
      forall i | 0 <= i < |ds| ensures '0' <= ds[i] <= '9' {
        assert DigitValue(ds[i]) < 10;
      }
    }
    if n < 0 {
      assert IntToString(n) == "-" + ds;
      forall i | 1 <= i < |IntToString(n)| ensures '0' <= IntToString(n)[i] <= '9' {
        assert IntToString(n)[i] == ds[i - 1];
      }
    }
  }

  /** A digit string has no surrounding white space to trim. */
  lemma TrimDigits(s: string)
    requires |s| > 0 && AllDigits(s, 10)
    ensures Trim(s) == s
  {
    assert !IsJsSpace(s[0]) && !IsJsSpace(s[|s| - 1]);
  }

  /** A digit string contains neither of two non-digit characters. */
  lemma DigitsAvoid(s: string, a: char, b: char)
    requires AllDigits(s, 10)
    requires DigitValue(a) >= 10 && DigitValue(b) >= 10
    ensures IndexOfEither(s, a, b) == |s|
  {
  }

  /** A digit string reads back as the natural number it denotes. */
  lemma UnsignedDecimalOfDigits(s: string)
    requires |s| > 0 && AllDigits(s, 10)
    ensures UnsignedDecimal(s) == Finite(DigitsValue(s, 10) as real)
  {
    assert s != "Infinity" by {
      assert DigitValue(s[0]) < 10;
    }
    DigitsAvoid(s, 'e', 'E');
    assert s[..|s|] == s;
    assert UnsignedDecimal(s) == Mantissa(s, Some(0));
    MantissaOfDigits(s);
  }

  lemma MantissaOfDigits(s: string)
    requires |s| > 0 && AllDigits(s, 10)
    ensures Mantissa(s, Some(0)) == Finite(DigitsValue(s, 10) as real)
  {
    DigitsAvoid(s, '.', '.');
    assert s[..|s|] == s;
    assert s + "" == s;
  }

  /** A digit string converts to the number it denotes. */
  lemma StringToNumberOfDigits(ds: string)
    requires |ds| > 0 && AllDigits(ds, 10)
    ensures StringToNumber(ds) == Finite(DigitsValue(ds, 10) as real)
  {
    TrimDigits(ds);
    assert DigitValue(ds[0]) < 10;
    if |ds| >= 2 {
      assert DigitValue(ds[1]) < 10;
      assert Radix(ds[1]) == 0;
    }
    UnsignedDecimalOfDigits(ds);
    assert TrimmedToNumber(ds) == UnsignedDecimal(ds);
  }

  /** A minus sign followed by a digit string converts to the negated number. */
  lemma StringToNumberOfNegatedDigits(ds: string)
    requires |ds| > 0 && AllDigits(ds, 10)
    ensures StringToNumber("-" + ds) == Finite(-(DigitsValue(ds, 10) as real))
  {
    assert DigitValue(ds[|ds| - 1]) < 10;
    MinusSign(ds);
    UnsignedDecimalOfDigits(ds);
    NegatedFinite(StringToNumber("-" + ds), UnsignedDecimal(ds), DigitsValue(ds, 10) as real);
  }

  lemma NegatedFinite(x: Num, u: Num, v: real)
    requires x == Negate(u) && u == Finite(v)
    ensures x == Finite(-v)
  {
  }

  /** A minus sign before a string ending in a digit negates the unsigned reading. */
  lemma MinusSign(ds: string)
    requires |ds| > 0 && DigitValue(ds[|ds| - 1]) < 10
    ensures StringToNumber("-" + ds) == Negate(UnsignedDecimal(ds))
  {
    var t := "-" + ds;
    assert t[0] == '-' && t[1..] == ds;
    assert t[|t| - 1] == ds[|ds| - 1];
    TrimSigned(t);
    NegativeTrimmed(t);
  }

  /** A string that starts with a sign and ends with a digit is left alone by trimming. */
  lemma TrimSigned(t: string)
    requires |t| > 0 && t[0] == '-' && DigitValue(t[|t| - 1]) < 10
    ensures Trim(t) == t
  {
    assert !IsJsSpace(t[0]);
    assert TrimStart(t) == t;
  }

  lemma NegativeTrimmed(t: string)
    requires |t| > 1 && t[0] == '-'
    ensures TrimmedToNumber(t) == Negate(UnsignedDecimal(t[1..]))
  {
    assert Radix(t[1]) > 0 ==> t[0] != '0';
  }

  /** `Number(String(n)) === n` for every integer `n`. */
  lemma StringToNumberOfInt(n: int)
    ensures StringToNumber(IntToString(n)) == Finite(n as real)
  {
    if n < 0 {
      NatToStringDenotes(-n);
      StringToNumberOfNegatedDigits(NatToString(-n));
    } else {
      NatToStringDenotes(n);
      StringToNumberOfDigits(NatToString(n));
    }
  }
}
