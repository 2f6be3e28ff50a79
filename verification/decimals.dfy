/**
 * Python's `decimal.Decimal` and the loosely typed values the finance app
 * feeds into its conversion helpers.
 *
 * A `Decimal` is exact here: a finite value is a Dafny `real`, and the two
 * special kinds are NaN and a signed infinity.  The helpers receive
 * arbitrary Python objects (`None`, booleans, request strings, decimals
 * loaded from the table), so those are a `Value`.  Integers the code passes
 * (`0`, the `or 0` fallback) are folded into `Num`, since every helper treats
 * them exactly like the equal `Decimal`.
 */
module Decimals {
  import opened Wrappers

  /** A `decimal.Decimal`. */
  datatype Dec = Fin(v: real) | NaN | Inf(negative: bool)

  /** A Python object handed to a conversion helper. */
  datatype Value = Null | Bool(b: bool) | Text(s: string) | Num(d: Dec)

  /** The exceptions raised by the Decimal machinery. */
  datatype DecimalError =
    | TypeError          // Decimal(None) or a call with the wrong arity
    | InvalidOperation   // an ordering comparison with NaN, or Infinity - Infinity

  /** `Decimal("0.00")`, the default of every normalizer. */
  const Zero: Value := Num(Fin(0.0))

  function Money(x: real): Value {
    Num(Fin(x))
  }

  /** A finite, non-negative decimal: what the normalizer promises. */
  predicate IsMoney(v: Value) {
    v.Num? && v.d.Fin? && v.d.v >= 0.0
  }

  function AmountOf(v: Value): real
    requires IsMoney(v)
  {
    v.d.v
  }

  // ---------------------------------------------------------------
  // Python truthiness and ==
  // ---------------------------------------------------------------

  /** `bool(v)` is False: None, False, "" and a zero number.  NaN is truthy. */
  predicate Falsy(v: Value) {
    v == Null || v == Bool(false) || v == Text("") || v == Num(Fin(0.0))
  }

  /** `v or 0`. */
  function OrZero(v: Value): (r: Value)
    ensures Falsy(v) ==> r == Zero
    ensures !Falsy(v) ==> r == v
  {
    if Falsy(v) then Zero else v
  }

  /**
   * Python's `a == b` between the kinds of object modelled here.  A string
   * never equals a number, a bool is the integer 0 or 1, and NaN equals
   * nothing.
   */
  predicate PyEq(a: Value, b: Value) {
    match (a, b)
    case (Null, Null) => true
    case (Bool(x), Bool(y)) => x == y
    case (Text(x), Text(y)) => x == y
    case (Bool(x), Num(d)) => d == Fin(if x then 1.0 else 0.0)
    case (Num(d), Bool(x)) => d == Fin(if x then 1.0 else 0.0)
    case (Num(Fin(x)), Num(Fin(y))) => x == y
    case (Num(Inf(x)), Num(Inf(y))) => x == y
    case _ => false
  }

  /** `v in (t0, t1, ...)` for a tuple of constants, membership by ==. */
  predicate InTuple(v: Value, tuple: seq<Value>) {
    exists i :: 0 <= i < |tuple| && PyEq(v, tuple[i])
  }

  // ---------------------------------------------------------------
  // The Decimal string syntax
  // ---------------------------------------------------------------

  predicate IsDigit(c: char) {
    '0' <= c <= '9'
  }

  predicate AllDigits(s: string) {
    forall i :: 0 <= i < |s| ==> IsDigit(s[i])
  }

  function DigitValue(c: char): nat
    requires IsDigit(c)
  {
    (c as int - '0' as int) as nat
  }

  /** The number a run of decimal digits spells, most significant first. */
  function DigitsValue(s: string): nat
    requires AllDigits(s)
  {
    if |s| == 0 then 0 else DigitsValue(s[..|s| - 1]) * 10 + DigitValue(s[|s| - 1])
  }

  function Pow10(n: nat): (r: nat)
    ensures r >= 1
  {
    if n == 0 then 1 else 10 * Pow10(n - 1)
  }

  function Lower(c: char): char {
    if 'A' <= c <= 'Z' then (c as int + 32) as char else c
  }

  function LowerStr(s: string): (r: string)
    ensures |r| == |s|
    ensures forall i :: 0 <= i < |s| ==> r[i] == Lower(s[i])
  {
    if |s| == 0 then [] else [Lower(s[0])] + LowerStr(s[1..])
  }

  /** Index of the first `c` in `s`, or `|s|` when there is none. */
  function IndexOf(s: string, c: char): (k: nat)
    ensures k <= |s|
    ensures forall i :: 0 <= i < k ==> s[i] != c
    ensures k < |s| ==> s[k] == c
  {
    if |s| == 0 then 0 else if s[0] == c then 0 else 1 + IndexOf(s[1..], c)
  }

  /** `inf`, `infinity` or `nan`, in any case. */
  function SpecialValue(s: string): Option<Dec> {
    var low := LowerStr(s);
    if low == "inf" || low == "infinity" then Some(Inf(false))
    else if low == "nan" then Some(NaN)
    else None
  }

  /** The digits before and after the decimal point; at least one digit in all. */
  function Numeral(whole: string, frac: string): Option<Dec> {
    if AllDigits(whole) && AllDigits(frac) && |whole| + |frac| > 0 then
      Some(Fin(DigitsValue(whole) as real + FractionValue(frac)))
    else
      None
  }

  /** Digits with at most one decimal point. */
  function ParseNumeral(s: string): Option<Dec> {
    var k := IndexOf(s, '.');
    if k < |s| then Numeral(s[..k], s[k + 1..]) else Numeral(s, [])
  }

  /** An unsigned Decimal literal. */
  function ParseUnsigned(s: string): Option<Dec> {
    if SpecialValue(s).Some? then SpecialValue(s) else ParseNumeral(s)
  }

  /** The value of the digits after a decimal point. */
  function FractionValue(frac: string): (r: real)
    requires AllDigits(frac)
    ensures 0.0 <= r
  {
    if |frac| == 0 then 0.0 else DigitsValue(frac) as real / Pow10(|frac|) as real
  }

  function Negate(d: Dec): Dec {
    match d
    case Fin(x) => Fin(-x)
    case Inf(n) => Inf(!n)
    case NaN => NaN
  }

  /** `Decimal(s)` for a string; `None` is the InvalidOperation it raises. */
  function ParseDecimal(s: string): Option<Dec> {
    if |s| > 0 && s[0] == '-' then
      match ParseUnsigned(s[1..])
      case Some(d) => Some(Negate(d))
      case None => None
    else if |s| > 0 && s[0] == '+' then ParseUnsigned(s[1..])
    else ParseUnsigned(s)
  }

  /** `s.replace(",", ".")`. */
  function ReplaceComma(s: string): (r: string)
    ensures |r| == |s|
    ensures forall i :: 0 <= i < |s| ==> r[i] == (if s[i] == ',' then '.' else s[i])
  {
    seq(|s|, i requires 0 <= i < |s| => if s[i] == ',' then '.' else s[i])
  }

  /**
   * `Decimal(str(v).replace(",", "."))`, the conversion all three
   * normalizers share.  `str` of a Decimal reads back as the same Decimal;
   * `str(None)`, `"True"` and `"False"` are not Decimal literals.
   */
  function FromStr(v: Value): Option<Dec> {
    match v
    case Null => None
    case Bool(_) => None
    case Text(s) => ParseDecimal(ReplaceComma(s))
    case Num(d) => Some(d)
  }

  /**
   * `Decimal(v)` called directly, as the leftover calculator does: no comma
   * replacement, a bool is the integer 0 or 1, and `None` is a TypeError.
   */
  function DecimalOf(v: Value): Result<Dec, DecimalError> {
    match v
    case Null => Err(TypeError)
    case Bool(b) => Ok(Fin(if b then 1.0 else 0.0))
    case Text(s) =>
      (match ParseDecimal(s)
       case Some(d) => Ok(d)
       case None => Err(InvalidOperation))
    case Num(d) => Ok(d)
  }

  // ---------------------------------------------------------------
  // Decimal arithmetic with the default context's traps
  // ---------------------------------------------------------------

  /** `a - b`; Infinity minus an equal Infinity traps InvalidOperation. */
  function Sub(a: Dec, b: Dec): Result<Dec, DecimalError> {
    match (a, b)
    case (NaN, _) => Ok(NaN)
    case (_, NaN) => Ok(NaN)
    case (Fin(x), Fin(y)) => Ok(Fin(x - y))
    case (Inf(n), Fin(_)) => Ok(Inf(n))
    case (Fin(_), Inf(n)) => Ok(Inf(!n))
    case (Inf(n), Inf(m)) => if n == m then Err(InvalidOperation) else Ok(Inf(n))
  }

  datatype Ordering = Less | Equal | Greater

  /**
   * Ordering comparison of a Decimal with a finite bound (`<`, `<=`, `>`,
   * `>=`); comparing NaN traps InvalidOperation.
   */
  function Compare(a: Dec, bound: real): (r: Result<Ordering, DecimalError>)
    ensures r.Err? <==> a.NaN?
    ensures a.Fin? ==> r == Ok(if a.v < bound then Less else if a.v == bound then Equal else Greater)
  {
    match a
    case NaN => Err(InvalidOperation)
    case Inf(n) => Ok(if n then Less else Greater)
    case Fin(x) => Ok(if x < bound then Less else if x == bound then Equal else Greater)
  }

  /** `a.quantize(Decimal("0.01")) == a` for a finite decimal. */
  predicate IsQuantized(x: real) {
    (x * 100.0).Floor as real == x * 100.0
  }

  // ---------------------------------------------------------------
  // int() and str() of an integer
  // ---------------------------------------------------------------

  /** `int(x)`: truncation toward zero. */
  function Trunc(x: real): (r: int)
    ensures x >= 0.0 ==> r as real <= x < r as real + 1.0
    ensures x < 0.0 ==> r as real - 1.0 < x <= r as real
  {
    if x >= 0.0 then x.Floor else -((-x).Floor)
  }

  function DigitChar(d: nat): (c: char)
    requires d < 10
    ensures IsDigit(c) && DigitValue(c) == d
  {
    ('0' as int + d) as char
  }

  function NatToString(n: nat): (s: string)
    ensures |s| > 0 && AllDigits(s)
  {
    if n < 10 then [DigitChar(n)] else NatToString(n / 10) + [DigitChar(n % 10)]
  }

  /** `str(i)` for a Python int. */
  function IntToString(i: int): (s: string)
    ensures |s| > 0
  {
    if i < 0 then "-" + NatToString(-i) else NatToString(i)
  }

  // ---------------------------------------------------------------
  // Lemmas
  // ---------------------------------------------------------------

  lemma {:induction false} NatToStringValue(n: nat)
    ensures DigitsValue(NatToString(n)) == n
  {
    var s := NatToString(n);
    if n >= 10 {
      NatToStringValue(n / 10);
      assert s[..|s| - 1] == NatToString(n / 10);
    }
  }

  /** The digits of a number contain no decimal point and no letters. */
  lemma DigitStringIsPlain(s: string)
    requires |s| > 0 && AllDigits(s)
    ensures IndexOf(s, '.') == |s|
    ensures LowerStr(s) != "inf" && LowerStr(s) != "infinity" && LowerStr(s) != "nan"
  {
    assert LowerStr(s)[0] == s[0];
  }

  /** A plain run of digits parses as the number it spells. */
  lemma ParseDigits(s: string)
    requires |s| > 0 && AllDigits(s)
    ensures ParseUnsigned(s) == Some(Fin(DigitsValue(s) as real))
  {
    DigitStringIsPlain(s);
    NumeralOfDigits(s);
  }

  lemma NumeralOfDigits(s: string)
    requires |s| > 0 && AllDigits(s)
    ensures Numeral(s, []) == Some(Fin(DigitsValue(s) as real))
  {
  }

  /** A numeral with a decimal point splits at that point. */
  lemma PointSplits(whole: string, frac: string)
    requires AllDigits(whole)
    ensures ParseNumeral(whole + "." + frac) == Numeral(whole, frac)
  {
    var s := whole + "." + frac;
    IndexOfDigitsThenPoint(whole, frac);
    assert s[..|whole|] == whole;
    assert s[|whole| + 1..] == frac;
  }

  lemma {:induction false} IndexOfDigitsThenPoint(whole: string, frac: string)
    requires AllDigits(whole)
    ensures IndexOf(whole + "." + frac, '.') == |whole|
  {
    if |whole| > 0 {
      assert (whole + "." + frac)[1..] == whole[1..] + "." + frac;
      IndexOfDigitsThenPoint(whole[1..], frac);
    }
  }

  /** `str(i)` reads back as the same integer. */
  lemma IntToStringRoundTrip(i: int)
    ensures ParseDecimal(IntToString(i)) == Some(Fin(i as real))
  {
    if i < 0 {
      NegativeRoundTrip(-i);
    } else {
      NaturalRoundTrip(i);
    }
  }

  /** The digits of a natural number read back as that number. */
  lemma NaturalRoundTrip(n: nat)
    ensures ParseDecimal(NatToString(n)) == Some(Fin(n as real))
  {
    ParseDigits(NatToString(n));
    NatToStringValue(n);
  }

  /** A minus sign before the digits of a natural number reads back as its negation. */
  lemma NegativeRoundTrip(n: nat)
    ensures ParseDecimal("-" + NatToString(n)) == Some(Fin(-(n as real)))
  {
    var digits := NatToString(n);
    var signed := "-" + digits;
    assert signed[0] == '-' && signed[1..] == digits;
    ParseDigits(digits);
    NatToStringValue(n);
    assert ParseUnsigned(signed[1..]) == Some(Fin(n as real));
  }


  /** Replacing commas a second time changes nothing. */
  lemma ReplaceCommaIdempotent(s: string)
    ensures ReplaceComma(ReplaceComma(s)) == ReplaceComma(s)
  {
  }

  /** Python equality is symmetric for the modelled kinds. */
  lemma PyEqSymmetric(a: Value, b: Value)
    ensures PyEq(a, b) <==> PyEq(b, a)
  {
  }
}
