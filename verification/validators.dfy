/**
 * The field validators attached to the models.  They read the value through
 * `safe_decimal`, which maps placeholders and parse errors to zero but,
 * unlike the normalizer, lets negative and non-finite decimals through.
 */
module Validators {
  import opened Wrappers
  import opened Decimals
  import Normalizar

  /** What a validator call does: return, raise ValidationError, or trap. */
  datatype Verdict = Valid | Invalid(code: string) | Raises(error: DecimalError)

  /** `safe_decimal(value, default)`. */
  function SafeDecimal(value: Value, default: Dec): (r: Dec)
    ensures Normalizar.IsPlaceholder(value) || FromStr(value).None? ==> r == default
    ensures !Normalizar.IsPlaceholder(value) && FromStr(value).Some? ==> r == FromStr(value).value
  {
    if Normalizar.IsPlaceholder(value) then default
    else
      match FromStr(value)
      case None => default
      case Some(d) => d
  }

  /** The decimal every validator inspects: `safe_decimal(value)`. */
  function Inspected(value: Value): Dec {
    SafeDecimal(value, Fin(0.0))
  }

  /** Raise `code` when `valor < 0`. */
  function RejectNegative(value: Value, code: string): (r: Verdict)
    ensures r.Raises? <==> Inspected(value).NaN?
    ensures r.Invalid? <==> (Inspected(value).Fin? && Inspected(value).v < 0.0) || Inspected(value) == Inf(true)
    ensures r.Invalid? ==> r.code == code
  {
    match Compare(Inspected(value), 0.0)
    case Err(e) => Raises(e)
    case Ok(o) => if o == Less then Invalid(code) else Valid
  }

  /** Raise `code` when `valor <= 0`. */
  function RejectNonPositive(value: Value, code: string): (r: Verdict)
    ensures r.Raises? <==> Inspected(value).NaN?
    ensures r.Invalid? <==> (Inspected(value).Fin? && Inspected(value).v <= 0.0) || Inspected(value) == Inf(true)
    ensures r.Invalid? ==> r.code == code
  {
    match Compare(Inspected(value), 0.0)
    case Err(e) => Raises(e)
    case Ok(o) => if o != Greater then Invalid(code) else Valid
  }

  /** `validar_decimal_no_negativo`. */
  function ValidarDecimalNoNegativo(value: Value): (r: Verdict)
    ensures Inspected(value).Fin? ==> (r.Invalid? <==> Inspected(value).v < 0.0)
    ensures r.Invalid? ==> r.code == "valor_negativo"
    ensures r.Raises? <==> Inspected(value).NaN?
  {
    RejectNegative(value, "valor_negativo")
  }

  /** `validar_decimal_positivo_o_cero`, an alias of the non-negative check. */
  function ValidarDecimalPositivoOCero(value: Value): (r: Verdict)
    ensures Inspected(value).Fin? ==> (r.Invalid? <==> Inspected(value).v < 0.0)
    ensures r == ValidarDecimalNoNegativo(value)
  {
    ValidarDecimalNoNegativo(value)
  }

  /** `validar_decimal_mayor_a_cero`. */
  function ValidarDecimalMayorACero(value: Value): (r: Verdict)
    ensures Inspected(value).Fin? ==> (r.Invalid? <==> Inspected(value).v <= 0.0)
    ensures r.Invalid? ==> r.code == "valor_no_positivo"
    ensures r.Raises? <==> Inspected(value).NaN?
  {
    RejectNonPositive(value, "valor_no_positivo")
  }

  /** The largest daily budget `validar_presupuesto_diario` accepts. */
  const MaxDailyBudget: real := 100000000.0

  /** `validar_presupuesto_diario`: negative first, then unrealistically high. */
  function ValidarPresupuestoDiario(value: Value): (r: Verdict)
    ensures Inspected(value).Fin? ==> (r.Invalid? <==> Inspected(value).v < 0.0 || Inspected(value).v > MaxDailyBudget)
    ensures Inspected(value).Fin? && Inspected(value).v < 0.0 ==> r == Invalid("presupuesto_negativo")
    ensures Inspected(value).Fin? && Inspected(value).v > MaxDailyBudget ==> r == Invalid("presupuesto_irreal")
    ensures r.Raises? <==> Inspected(value).NaN?
  {
    var d := Inspected(value);
    match Compare(d, 0.0)
    case Err(e) => Raises(e)
    case Ok(o) =>
      if o == Less then Invalid("presupuesto_negativo")
      else if Compare(d, MaxDailyBudget) == Ok(Greater) then Invalid("presupuesto_irreal")
      else Valid
  }

  /** `validar_gasto_individual`, used for food, products and savings/debt. */
  function ValidarGastoIndividual(value: Value): (r: Verdict)
    ensures Inspected(value).Fin? ==> (r.Invalid? <==> Inspected(value).v < 0.0)
    ensures r.Invalid? ==> r.code == "gasto_negativo"
    ensures r.Raises? <==> Inspected(value).NaN?
  {
    RejectNegative(value, "gasto_negativo")
  }

  /** `validar_sobrante`. */
  function ValidarSobrante(value: Value): (r: Verdict)
    ensures Inspected(value).Fin? ==> (r.Invalid? <==> Inspected(value).v < 0.0)
    ensures r.Invalid? ==> r.code == "sobrante_negativo"
    ensures r.Raises? <==> Inspected(value).NaN?
  {
    RejectNegative(value, "sobrante_negativo")
  }

  /** `validar_monto_objetivo`. */
  function ValidarMontoObjetivo(value: Value): (r: Verdict)
    ensures Inspected(value).Fin? ==> (r.Invalid? <==> Inspected(value).v <= 0.0)
    ensures r.Invalid? ==> r.code == "objetivo_invalido"
    ensures r.Raises? <==> Inspected(value).NaN?
  {
    RejectNonPositive(value, "objetivo_invalido")
  }

  /** `validar_monto_actual`. */
  function ValidarMontoActual(value: Value): (r: Verdict)
    ensures Inspected(value).Fin? ==> (r.Invalid? <==> Inspected(value).v < 0.0)
    ensures r.Invalid? ==> r.code == "monto_actual_negativo"
    ensures r.Raises? <==> Inspected(value).NaN?
  {
    RejectNegative(value, "monto_actual_negativo")
  }

  // ---------------------------------------------------------------
  // Properties
  // ---------------------------------------------------------------

  /**
   * Unlike the normalizer, `safe_decimal` passes negative and non-finite
   * decimals through; the two agree on every finite non-negative input.
   */
  lemma SafeDecimalVersusNormalizer(value: Value)
    requires !Normalizar.IsPlaceholder(value) && FromStr(value).Some?
    ensures Inspected(value) == FromStr(value).value
    ensures Inspected(value).Fin? && Inspected(value).v >= 0.0
        ==> Normalizar.Normalize(value) == Num(Inspected(value))
    ensures !Inspected(value).Fin? || Inspected(value).v < 0.0 ==> Normalizar.Normalize(value) == Zero
  {
  }

  /** A Decimal is inspected as itself: `safe_decimal` leaves decimals alone. */
  lemma InspectedDecimal(d: Dec)
    ensures Inspected(Num(d)) == d
  {
    Normalizar.PlaceholderExactly(Num(d));
  }

  /** An unparseable value counts as zero: it passes the non-negative checks and fails the positive ones. */
  lemma UnparseableCountsAsZero(value: Value)
    requires FromStr(value).None?
    ensures ValidarDecimalNoNegativo(value) == Valid
    ensures ValidarGastoIndividual(value) == Valid
    ensures ValidarSobrante(value) == Valid
    ensures ValidarMontoActual(value) == Valid
    ensures ValidarPresupuestoDiario(value) == Valid
    ensures ValidarDecimalMayorACero(value) == Invalid("valor_no_positivo")
    ensures ValidarMontoObjetivo(value) == Invalid("objetivo_invalido")
  {
  }

  /** Both ends of the budget range pass: 0 and exactly 100000000. */
  lemma BudgetBoundsInclusive()
    ensures ValidarPresupuestoDiario(Money(0.0)) == Valid
    ensures ValidarPresupuestoDiario(Money(MaxDailyBudget)) == Valid
    ensures ValidarPresupuestoDiario(Money(MaxDailyBudget + 0.01)) == Invalid("presupuesto_irreal")
  {
    Normalizar.PlaceholderExactly(Money(0.0));
    Normalizar.PlaceholderExactly(Money(MaxDailyBudget));
    Normalizar.PlaceholderExactly(Money(MaxDailyBudget + 0.01));
  }

  /** "NaN" is not caught by `safe_decimal`; the comparison then traps. */
  lemma NaNTrapsEveryValidator()
    ensures ValidarDecimalNoNegativo(Num(NaN)) == Raises(InvalidOperation)
    ensures ValidarDecimalPositivoOCero(Num(NaN)) == Raises(InvalidOperation)
    ensures ValidarDecimalMayorACero(Num(NaN)) == Raises(InvalidOperation)
    ensures ValidarPresupuestoDiario(Num(NaN)) == Raises(InvalidOperation)
    ensures ValidarGastoIndividual(Num(NaN)) == Raises(InvalidOperation)
    ensures ValidarSobrante(Num(NaN)) == Raises(InvalidOperation)
    ensures ValidarMontoObjetivo(Num(NaN)) == Raises(InvalidOperation)
    ensures ValidarMontoActual(Num(NaN)) == Raises(InvalidOperation)
  {
    Normalizar.PlaceholderExactly(Num(NaN));
  }
}
