/**
 * `normalizar_decimal`, the single choke point every monetary input of the
 * records, the config and the goals goes through.
 */
module Normalizar {
  import opened Wrappers
  import opened Decimals

  /** The tuple `(None, "", " ", "-", "--")` the normalizer tests first. */
  const Placeholders: seq<Value> := [Null, Text(""), Text(" "), Text("-"), Text("--")]

  predicate IsPlaceholder(v: Value) {
    InTuple(v, Placeholders)
  }

  /**
   * `normalizar_decimal(valor, default)`: a finite, non-negative Decimal read
   * from `valor`, or `default` for a placeholder, an unparseable value, NaN,
   * an infinity or a negative number.  It never raises.
   */
  function NormalizarDecimal(valor: Value, default: Value): (r: Value)
    ensures IsPlaceholder(valor) ==> r == default
    ensures FromStr(valor).None? ==> r == default
    ensures FromStr(valor).Some? && !FromStr(valor).value.Fin? ==> r == default
    ensures FromStr(valor).Some? && FromStr(valor).value.Fin? && FromStr(valor).value.v < 0.0 ==> r == default
    ensures r == default || (IsMoney(r) && FromStr(valor) == Some(r.d) && !IsPlaceholder(valor))
    ensures (!IsPlaceholder(valor) && FromStr(valor).Some? && FromStr(valor).value.Fin?
             && FromStr(valor).value.v >= 0.0) ==> r == Num(FromStr(valor).value)
  {
    if IsPlaceholder(valor) then default
    else
      match FromStr(valor)
      case None => default
      case Some(dec) =>
        if !dec.Fin? then default
        else if dec.v < 0.0 then default
        else Num(dec)
  }

  /** `normalizar_decimal(valor)` with its default `Decimal("0.00")`. */
  function Normalize(valor: Value): (r: Value)
    ensures IsMoney(r)
  {
    NormalizarDecimal(valor, Zero)
  }

  /** The amount `normalizar_decimal(valor)` yields. */
  function Amount(valor: Value): (r: real)
    ensures r >= 0.0
  {
    AmountOf(Normalize(valor))
  }

  // ---------------------------------------------------------------
  // Properties
  // ---------------------------------------------------------------

  /** The placeholder test matches exactly None and the four strings. */
  lemma PlaceholderExactly(v: Value)
    ensures IsPlaceholder(v) <==> v == Null || v == Text("") || v == Text(" ") || v == Text("-") || v == Text("--")
  {
    if v == Null { assert PyEq(v, Placeholders[0]); }
    if v == Text("") { assert PyEq(v, Placeholders[1]); }
    if v == Text(" ") { assert PyEq(v, Placeholders[2]); }
    if v == Text("-") { assert PyEq(v, Placeholders[3]); }
    if v == Text("--") { assert PyEq(v, Placeholders[4]); }
  }

  /** A placeholder contains no comma, and replacing commas never makes one. */
  lemma PlaceholderIgnoresCommas(s: string)
    ensures IsPlaceholder(Text(s)) <==> IsPlaceholder(Text(ReplaceComma(s)))
  {
    PlaceholderExactly(Text(s));
    PlaceholderExactly(Text(ReplaceComma(s)));
    if exists i :: 0 <= i < |s| && s[i] == ',' {
      var i :| 0 <= i < |s| && s[i] == ',';
      assert ReplaceComma(s)[i] == '.';
      assert s !in {"", " ", "-", "--"};
      assert ReplaceComma(s) !in {"", " ", "-", "--"};
    } else {
      assert ReplaceComma(s) == s;
    }
  }

  /** "," is read as the decimal point: "12,50" and "12.50" normalize alike. */
  lemma CommaIsDecimalPoint(s: string, default: Value)
    ensures NormalizarDecimal(Text(s), default) == NormalizarDecimal(Text(ReplaceComma(s)), default)
  {
    PlaceholderIgnoresCommas(s);
    ReplaceCommaIdempotent(s);
  }

  /** A finite non-negative Decimal passes through unchanged, unquantized. */
  lemma MoneyIsFixedPoint(x: real, default: Value)
    requires x >= 0.0
    ensures NormalizarDecimal(Money(x), default) == Money(x)
  {
    PlaceholderExactly(Money(x));
  }

  /** With a safe default the result is safe, and normalizing it again changes nothing. */
  lemma NormalizeIdempotent(valor: Value, default: Value)
    requires IsMoney(default)
    ensures IsMoney(NormalizarDecimal(valor, default))
    ensures NormalizarDecimal(NormalizarDecimal(valor, default), default) == NormalizarDecimal(valor, default)
  {
    var r := NormalizarDecimal(valor, default);
    MoneyIsFixedPoint(AmountOf(r), default);
  }

  /** NaN, either infinity and every negative number fall back to the default. */
  lemma RejectsNonFiniteAndNegative(d: Dec, default: Value)
    requires !d.Fin? || d.v < 0.0
    ensures NormalizarDecimal(Num(d), default) == default
  {
    PlaceholderExactly(Num(d));
  }

  /** "12.50" is the Decimal twelve and a half. */
  lemma ParseTwelveFifty()
    ensures ParseDecimal("12.50") == Some(Fin(12.5))
  {
    assert SpecialValue("12.50") == None;
    assert IndexOf("12.50", '.') == 2;
    assert "12.50"[..2] == "12" && "12.50"[3..] == "50";
    assert "12"[..1] == "1" && "50"[..1] == "5";
    assert DigitsValue("5") == 5 && DigitsValue("1") == 1;
    assert DigitsValue("12") == 12 && DigitsValue("50") == 50;
    assert FractionValue("50") == 0.5;
  }

  /** The two spellings of twelve and a half normalize to the same amount. */
  lemma TwelveFifty()
    ensures NormalizarDecimal(Text("12,50"), Zero) == NormalizarDecimal(Text("12.50"), Zero) == Money(12.5)
  {
    TwelveFiftyWithPoint();
    CommaIsDecimalPoint("12,50", Zero);
    TwelveFiftyComma();
  }

  /** Replacing the comma of "12,50" gives "12.50". */
  lemma TwelveFiftyComma()
    ensures ReplaceComma("12,50") == "12.50"
  {
    var r := ReplaceComma("12,50");
    assert r[0] == '1' && r[1] == '2' && r[2] == '.' && r[3] == '5' && r[4] == '0';
  }

  /** "12.50" has no comma to replace. */
  lemma TwelveFiftyNoComma()
    ensures ReplaceComma("12.50") == "12.50"
  {
    var r := ReplaceComma("12.50");
    assert r[0] == '1' && r[1] == '2' && r[2] == '.' && r[3] == '5' && r[4] == '0';
  }

  /** "12.50" normalizes to twelve and a half. */
  lemma TwelveFiftyWithPoint()
    ensures NormalizarDecimal(Text("12.50"), Zero) == Money(12.5)
  {
    PlaceholderExactly(Text("12.50"));
    ParseTwelveFifty();
    TwelveFiftyNoComma();
  }

  /** `x or 0` before the normalizer changes nothing: every falsy value normalizes to zero anyway. */
  lemma OrZeroIsRedundant(v: Value)
    ensures Normalize(OrZero(v)) == Normalize(v)
  {
    PlaceholderExactly(v);
    PlaceholderExactly(Zero);
  }
}
