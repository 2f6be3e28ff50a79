/**
 * The two display helpers of the dashboard views: `to_decimal` and
 * `dec_int`.  Both share the normalizer's conversion but test a different
 * tuple of placeholders, and Python's `==` makes any zero equal `False`.
 */
module Convert {
  import opened Wrappers
  import opened Decimals
  import Normalizar

  /** The tuple `(None, "", False, "-", "--")` of `to_decimal`. */
  const ToDecimalPlaceholders: seq<Value> := [Null, Text(""), Bool(false), Text("-"), Text("--")]

  /** The tuple `(None, "", False)` of `dec_int`. */
  const DecIntPlaceholders: seq<Value> := [Null, Text(""), Bool(false)]

  /**
   * `to_decimal(value, default)`: the same contract as the normalizer, but
   * every value equal to `False` (so every zero) yields the default.
   */
  function ToDecimal(value: Value, default: Value): (r: Value)
    ensures InTuple(value, ToDecimalPlaceholders) ==> r == default
    ensures r == default || (IsMoney(r) && FromStr(value) == Some(r.d))
    ensures (!InTuple(value, ToDecimalPlaceholders) && FromStr(value).Some? && FromStr(value).value.Fin?
             && FromStr(value).value.v >= 0.0) ==> r == Num(FromStr(value).value)
  {
    if InTuple(value, ToDecimalPlaceholders) then default
    else
      match FromStr(value)
      case None => default
      case Some(dec) =>
        if !dec.Fin? then default
        else if dec.v < 0.0 then default
        else Num(dec)
  }

  /**
   * `dec_int(value, default)`: the decimal truncated toward zero and printed
   * as a Python int, or `default` for a placeholder, an unparseable value or
   * a non-finite one.  Negative values are not rejected.
   */
  function DecInt(value: Value, default: string): (r: string)
    ensures InTuple(value, DecIntPlaceholders) ==> r == default
    ensures FromStr(value).None? || (FromStr(value).Some? && !FromStr(value).value.Fin?) ==> r == default
    ensures r == default || (FromStr(value).Some? && FromStr(value).value.Fin?
                             && ParseDecimal(r) == Some(Fin(Trunc(FromStr(value).value.v) as real)))
    ensures !InTuple(value, DecIntPlaceholders) && FromStr(value).Some? && FromStr(value).value.Fin? ==>
              r == IntToString(Trunc(FromStr(value).value.v))
  {
    if InTuple(value, DecIntPlaceholders) then default
    else
      match FromStr(value)
      case None => default
      case Some(dec) =>
        if !dec.Fin? then default
        else
          IntToStringRoundTrip(Trunc(dec.v));
          IntToString(Trunc(dec.v))
  }

  // ---------------------------------------------------------------
  // Properties
  // ---------------------------------------------------------------

  /** Membership by == catches None, "", False, "-", "--" and every zero. */
  lemma ToDecimalPlaceholderExactly(v: Value)
    ensures InTuple(v, ToDecimalPlaceholders)
        <==> v == Null || v == Text("") || v == Bool(false) || v == Text("-") || v == Text("--") || v == Num(Fin(0.0))
  {
    if v == Null { assert PyEq(v, ToDecimalPlaceholders[0]); }
    if v == Text("") { assert PyEq(v, ToDecimalPlaceholders[1]); }
    if v == Bool(false) || v == Num(Fin(0.0)) { assert PyEq(v, ToDecimalPlaceholders[2]); }
    if v == Text("-") { assert PyEq(v, ToDecimalPlaceholders[3]); }
    if v == Text("--") { assert PyEq(v, ToDecimalPlaceholders[4]); }
  }

  lemma DecIntPlaceholderExactly(v: Value)
    ensures InTuple(v, DecIntPlaceholders) <==> v == Null || v == Text("") || v == Bool(false) || v == Num(Fin(0.0))
  {
    if v == Null { assert PyEq(v, DecIntPlaceholders[0]); }
    if v == Text("") { assert PyEq(v, DecIntPlaceholders[1]); }
    if v == Bool(false) || v == Num(Fin(0.0)) { assert PyEq(v, DecIntPlaceholders[2]); }
  }

  /** A Decimal zero is returned as the default, not as zero. */
  lemma ToDecimalZeroIsDefault(default: Value)
    ensures ToDecimal(Zero, default) == default
  {
    ToDecimalPlaceholderExactly(Zero);
  }

  /**
   * `to_decimal` agrees with the normalizer everywhere except on the values
   * only one of them treats as a placeholder: a zero, `False` and `" "`.
   */
  lemma ToDecimalAgreesWithNormalizer(value: Value, default: Value)
    requires value != Num(Fin(0.0)) && value != Bool(false) && value != Text(" ")
    ensures ToDecimal(value, default) == Normalizar.NormalizarDecimal(value, default)
  {
    ToDecimalPlaceholderExactly(value);
    Normalizar.PlaceholderExactly(value);
  }

  /** Because zero maps to the default, `to_decimal` is not idempotent. */
  lemma ToDecimalNotIdempotent()
    ensures ToDecimal(ToDecimal(Text("0"), Money(5.0)), Money(5.0)) == Money(5.0)
    ensures ToDecimal(Text("0"), Money(5.0)) == Zero
  {
    ToDecimalPlaceholderExactly(Text("0"));
    var digits := NatToString(0);
    assert digits == "0";
    ParseDigits(digits);
    assert ReplaceComma("0") == "0";
    ToDecimalZeroIsDefault(Money(5.0));
  }

  /** Commas are decimal points for `to_decimal` too. */
  lemma ToDecimalCommaIsDecimalPoint(s: string, default: Value)
    ensures ToDecimal(Text(s), default) == ToDecimal(Text(ReplaceComma(s)), default)
  {
    ToDecimalPlaceholderExactly(Text(s));
    ToDecimalPlaceholderExactly(Text(ReplaceComma(s)));
    Normalizar.PlaceholderIgnoresCommas(s);
    Normalizar.PlaceholderExactly(Text(s));
    Normalizar.PlaceholderExactly(Text(ReplaceComma(s)));
    ReplaceCommaIdempotent(s);
  }

  /** `dec_int` of any finite decimal is `str(int(x))`, negatives included. */
  lemma DecIntOfFinite(x: real, default: string)
    requires x != 0.0
    ensures DecInt(Money(x), default) == IntToString(Trunc(x))
  {
    DecIntPlaceholderExactly(Money(x));
  }

  lemma PrintTwelveHundred()
    ensures IntToString(1200) == "1200"
  {
    assert NatToString(1) == "1";
    assert NatToString(12) == "12";
    assert NatToString(120) == "120";
  }

  lemma TwelveHundredDigits()
    ensures DigitsValue("1200") == 1200
  {
    assert "1200"[..3] == "120" && "120"[..2] == "12" && "12"[..1] == "1";
    assert DigitsValue("1") == 1;
    assert DigitsValue("12") == 12;
    assert DigitsValue("120") == 120;
  }

  lemma FiftyCents()
    ensures FractionValue("50") == 0.5
  {
    assert "50"[..1] == "5";
    assert Pow10(2) == 100;
    assert DigitsValue("5") == 5;
    assert DigitsValue("50") == 50;
  }

  lemma ParseTwelveHundredFifty()
    ensures FromStr(Text("1200,50")) == Some(Fin(1200.5))
  {
    TwelveHundredFiftyComma();
    ParseTwelveHundredFiftyPoint();
  }

  lemma TwelveHundredFiftyComma()
    ensures ReplaceComma("1200,50") == "1200.50"
  {
    var r := ReplaceComma("1200,50");
    assert r[0] == '1' && r[1] == '2' && r[2] == '0' && r[3] == '0' && r[4] == '.' && r[5] == '5' && r[6] == '0';
  }

  lemma MinusThreeSevenNoComma()
    ensures ReplaceComma("-3.7") == "-3.7"
  {
    var r := ReplaceComma("-3.7");
    assert r[0] == '-' && r[1] == '3' && r[2] == '.' && r[3] == '7';
  }

  lemma ParseTwelveHundredFiftyPoint()
    ensures ParseDecimal("1200.50") == Some(Fin(1200.5))
  {
    assert SpecialValue("1200.50") == None;
    assert "1200.50" == "1200" + "." + "50";
    assert AllDigits("1200") && AllDigits("50");
    hide SpecialValue, IndexOf, AllDigits, DigitsValue, FractionValue;
    PointSplits("1200", "50");
    TwelveHundredDigits();
    FiftyCents();
  }

  lemma ParseMinusThreeSeven()
    ensures FromStr(Text("-3.7")) == Some(Fin(-3.7))
  {
    MinusThreeSevenNoComma();
    assert "-3.7"[1..] == "3.7";
    assert SpecialValue("3.7") == None;
    assert "3.7" == "3" + "." + "7";
    PointSplits("3", "7");
    assert DigitsValue("3") == 3 && DigitsValue("7") == 7;
    assert FractionValue("7") == 0.7;
  }

  /** "1200,50" displays as "1200" and "-3.7" as "-3". */
  lemma DecIntExamples()
    ensures DecInt(Text("1200,50"), "0") == "1200"
    ensures DecInt(Text("-3.7"), "0") == "-3"
  {
    DecIntTwelveHundred();
    DecIntMinusThree();
  }

  lemma DecIntTwelveHundred()
    ensures DecInt(Text("1200,50"), "0") == "1200"
  {
    DecIntPlaceholderExactly(Text("1200,50"));
    ParseTwelveHundredFifty();
    assert Trunc(1200.5) == 1200;
    PrintTwelveHundred();
  }

  lemma DecIntMinusThree()
    ensures DecInt(Text("-3.7"), "0") == "-3"
  {
    DecIntPlaceholderExactly(Text("-3.7"));
    ParseMinusThreeSeven();
    assert Trunc(-3.7) == -3;
    assert NatToString(3) == "3";
  }

}
