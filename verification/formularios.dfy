/**
 * The three model forms.  Every monetary field goes through `clean_decimal`,
 * the normalizer with a zero default; the record form additionally compares
 * the expenses with the budget, and the goal form rejects a target that is
 * not positive.
 */
module Formularios {
  import opened Wrappers
  import opened Decimals
  import Normalizar
  import Validators
  import Registro
  import Configuracion

  /** `clean_decimal(value)`: never raises, never negative. */
  function CleanDecimal(value: Value): (r: Value)
    ensures IsMoney(r)
    ensures Normalizar.IsPlaceholder(value) || FromStr(value).None? ==> r == Zero
    ensures FromStr(value).Some? && (!FromStr(value).value.Fin? || FromStr(value).value.v < 0.0) ==> r == Zero
    ensures r != Zero ==> FromStr(value) == Some(r.d)
  {
    Normalizar.NormalizarDecimal(value, Zero)
  }

  // ---------------------------------------------------------------
  // RegistroFinancieroForm
  // ---------------------------------------------------------------

  /**
   * The four monetary entries of `cleaned_data`.  `None` stands for a field
   * whose own conversion failed: such a field is absent from `cleaned_data`
   * and its `clean_<field>` never runs.
   */
  datatype RecordInput = RecordInput(budget: Option<Value>, food: Option<Value>,
                                     products: Option<Value>, savings: Option<Value>)

  /** The per-field cleaners `clean_para_gastar_dia` ... `clean_ahorro_y_deuda`. */
  function CleanField(o: Option<Value>): (r: Option<Value>)
    ensures r.Some? <==> o.Some?
    ensures r.Some? ==> IsMoney(r.value) && r.value == Normalizar.Normalize(o.value)
  {
    match o
    case None => None
    case Some(v) => Some(CleanDecimal(v))
  }

  function CleanRecordFields(i: RecordInput): (c: RecordInput) {
    RecordInput(CleanField(i.budget), CleanField(i.food), CleanField(i.products), CleanField(i.savings))
  }

  /** `cleaned.get(name, Decimal("0"))` after the field cleaners ran. */
  function GetOrZero(o: Option<Value>): (x: real)
    ensures x >= 0.0
    ensures o.None? ==> x == 0.0
    ensures o.Some? ==> x == Normalizar.Amount(o.value)
  {
    match CleanField(o)
    case None => 0.0
    case Some(v) => AmountOf(v)
  }

  /** The message `clean` raises. */
  const OverBudgetMessage: string := "La suma de los gastos no puede superar el presupuesto diario."

  /**
   * `RegistroFinancieroForm.clean()`: the cleaned fields, or the error when
   * food + products + savings exceed the budget; a missing field counts as 0.
   */
  function RecordFormClean(i: RecordInput): (r: Result<RecordInput, string>)
    ensures r.Ok? <==> GetOrZero(i.food) + GetOrZero(i.products) + GetOrZero(i.savings) <= GetOrZero(i.budget)
    ensures r.Err? ==> r.error == OverBudgetMessage
    ensures r.Ok? ==> r.value == CleanRecordFields(i)
  {
    var c := CleanRecordFields(i);
    var presupuesto := GetOrZero(i.budget);
    var gastos := GetOrZero(i.food) + GetOrZero(i.products) + GetOrZero(i.savings);
    if gastos > presupuesto then Err(OverBudgetMessage) else Ok(c)
  }

  // ---------------------------------------------------------------
  // ObjetivoFinancieroForm
  // ---------------------------------------------------------------

  /** The message `clean_monto_objetivo` raises. */
  const TargetMessage: string := "El monto objetivo debe ser mayor a 0."

  /** `clean_monto_objetivo`: the normalized target, rejected unless positive. */
  function CleanMontoObjetivo(v: Value): (r: Result<Value, string>)
    ensures r.Ok? <==> Normalizar.Amount(v) > 0.0
    ensures r.Ok? ==> r.value == Normalizar.Normalize(v) && Validators.ValidarMontoObjetivo(r.value) == Validators.Valid
    ensures r.Err? ==> r.error == TargetMessage
  {
    var valor := CleanDecimal(v);
    Validators.InspectedDecimal(valor.d);
    if AmountOf(valor) <= 0.0 then Err(TargetMessage) else Ok(valor)
  }

  /** `clean_monto_actual`: the normalized amount; a negative one becomes 0. */
  function CleanMontoActual(v: Value): (r: Value)
    ensures IsMoney(r)
    ensures Validators.ValidarMontoActual(r) == Validators.Valid
    ensures FromStr(v).Some? && FromStr(v).value.Fin? && FromStr(v).value.v < 0.0 ==> r == Zero
  {
    var valor := CleanDecimal(v);
    Validators.InspectedDecimal(valor.d);
    valor
  }

  // ---------------------------------------------------------------
  // ConfigFinancieraForm
  // ---------------------------------------------------------------

  /**
   * The configuration with its five monetary fields replaced by their
   * cleaned values; flags and the start date have no custom cleaner.
   */
  function CleanConfig(c: Configuracion.Config): (s: Configuracion.Config)
    ensures Configuracion.Saved(s)
    ensures s.start == c.start && s.user == c.user
    ensures s.foodFixed == c.foodFixed && s.productsFixed == c.productsFixed
         && s.savingsFixed == c.savingsFixed && s.leftoverFixed == c.leftoverFixed
  {
    c.(budget := CleanDecimal(c.budget), food := CleanDecimal(c.food), products := CleanDecimal(c.products),
       savings := CleanDecimal(c.savings), leftover := CleanDecimal(c.leftover))
  }

  // ---------------------------------------------------------------
  // Properties
  // ---------------------------------------------------------------

  /**
   * With every field present, the form accepts exactly what the model's own
   * `clean` accepts for a record holding the same amounts.
   */
  lemma RecordFormAgreesWithModel(i: RecordInput, rec: Registro.Record)
    requires i.budget.Some? && i.food.Some? && i.products.Some? && i.savings.Some?
    requires rec.budget == i.budget.value && rec.food == i.food.value
    requires rec.products == i.products.value && rec.savings == i.savings.value
    ensures RecordFormClean(i).Ok? <==> Registro.Clean(rec).None?
  {
  }

  /** A missing field weighs exactly as much as an explicit zero. */
  lemma MissingFieldCountsAsZero(i: RecordInput)
    ensures RecordFormClean(i.(food := None)).Ok? <==> RecordFormClean(i.(food := Some(Zero))).Ok?
    ensures RecordFormClean(i.(budget := None)).Ok? <==> RecordFormClean(i.(budget := Some(Zero))).Ok?
  {
    Normalizar.MoneyIsFixedPoint(0.0, Zero);
  }

  /** Spending exactly the budget is accepted; one cent more is not. */
  lemma RecordFormEqualityAccepted()
    ensures RecordFormClean(RecordInput(Some(Money(10.0)), Some(Money(4.0)), Some(Money(3.0)), Some(Money(3.0)))).Ok?
    ensures RecordFormClean(RecordInput(Some(Money(10.0)), Some(Money(4.0)), Some(Money(3.0)), Some(Money(3.01)))).Err?
  {
    Normalizar.MoneyIsFixedPoint(10.0, Zero);
    Normalizar.MoneyIsFixedPoint(4.0, Zero);
    Normalizar.MoneyIsFixedPoint(3.0, Zero);
    Normalizar.MoneyIsFixedPoint(3.01, Zero);
  }

  /** An empty, unparseable, non-finite or negative target is rejected. */
  lemma TargetRejections(v: Value)
    requires Normalizar.IsPlaceholder(v) || FromStr(v).None?
          || (FromStr(v).Some? && (!FromStr(v).value.Fin? || FromStr(v).value.v <= 0.0))
    ensures CleanMontoObjetivo(v) == Err(TargetMessage)
  {
  }

  /** A cleaned configuration is already what `save` would store. */
  lemma ConfigFormMatchesSave(c: Configuracion.Config)
    ensures CleanConfig(c) == Configuracion.Save(c)
    ensures Configuracion.Save(CleanConfig(c)) == CleanConfig(c)
  {
    Configuracion.SaveIdempotent(c);
  }
}
