/**
 * The daily record (`RegistroFinanciero`): one per user and date, with a
 * budget, three expense categories, a leftover, a "fixed" flag per category
 * and a completion flag.  Its `save` normalizes the amounts, runs the
 * validations and then decides the leftover: zero on an incomplete day, the
 * stored value when it is fixed, the calculator's value otherwise.
 */
module Registro {
  import opened Wrappers
  import opened Decimals
  import Normalizar
  import Validators
  import Calculadora
  import Dates

  type User = nat

  /**
   * A record.  `budget` is `para_gastar_dia`, `food` is `alimento`,
   * `products` is `productos`, `savings` is `ahorro_y_deuda` and `leftover`
   * is `sobrante_monetario`; each `...Fixed` is the matching `_fijo` flag.
   */
  datatype Record = Record(
    user: User,
    fecha: Dates.Date,
    budget: Value,
    food: Value,
    products: Value,
    savings: Value,
    leftover: Value,
    foodFixed: bool,
    productsFixed: bool,
    savingsFixed: bool,
    leftoverFixed: bool,
    completed: bool)

  /** The four fields `fijar_valor` knows, by their names in the mapping. */
  datatype Field = Food | Products | Savings | Sobrante

  function FieldNamed(campo: string): (f: Option<Field>)
    ensures f.Some? <==> campo in {"alimento", "productos", "ahorro_y_deuda", "sobrante"}
  {
    if campo == "alimento" then Some(Food)
    else if campo == "productos" then Some(Products)
    else if campo == "ahorro_y_deuda" then Some(Savings)
    else if campo == "sobrante" then Some(Sobrante)
    else None
  }

  function FieldValue(r: Record, f: Field): Value {
    match f
    case Food => r.food
    case Products => r.products
    case Savings => r.savings
    case Sobrante => r.leftover
  }

  function FieldFixed(r: Record, f: Field): bool {
    match f
    case Food => r.foodFixed
    case Products => r.productsFixed
    case Savings => r.savingsFixed
    case Sobrante => r.leftoverFixed
  }

  function WithValue(r: Record, f: Field, v: Value): (s: Record)
    ensures FieldValue(s, f) == v
    ensures forall g :: g != f ==> FieldValue(s, g) == FieldValue(r, g)
    ensures forall g :: FieldFixed(s, g) == FieldFixed(r, g)
    ensures s.budget == r.budget && s.completed == r.completed && s.user == r.user && s.fecha == r.fecha
  {
    match f
    case Food => r.(food := v)
    case Products => r.(products := v)
    case Savings => r.(savings := v)
    case Sobrante => r.(leftover := v)
  }

  function WithFixed(r: Record, f: Field, b: bool): (s: Record)
    ensures FieldFixed(s, f) == b
    ensures forall g :: g != f ==> FieldFixed(s, g) == FieldFixed(r, g)
    ensures forall g :: FieldValue(s, g) == FieldValue(r, g)
    ensures s.budget == r.budget && s.completed == r.completed && s.user == r.user && s.fecha == r.fecha
  {
    match f
    case Food => r.(foodFixed := b)
    case Products => r.(productsFixed := b)
    case Savings => r.(savingsFixed := b)
    case Sobrante => r.(leftoverFixed := b)
  }

  // ---------------------------------------------------------------
  // Derived values
  // ---------------------------------------------------------------

  /** `gasto_total`: the normalized food, products and savings/debt. */
  function GastoTotal(r: Record): (t: real)
    ensures t >= 0.0
    ensures t >= Normalizar.Amount(r.food) && t >= Normalizar.Amount(r.products) && t >= Normalizar.Amount(r.savings)
  {
    Normalizar.Amount(r.food) + Normalizar.Amount(r.products) + Normalizar.Amount(r.savings)
  }

  /** `balance_diario`: the normalized budget minus the expenses. */
  function BalanceDiario(r: Record): (b: real)
    ensures b <= Normalizar.Amount(r.budget)
  {
    Normalizar.Amount(r.budget) - GastoTotal(r)
  }

  /** `sobrante_efectivo`: the leftover counts only once the day is completed. */
  function SobranteEfectivo(r: Record): (e: real)
    ensures e >= 0.0
    ensures !r.completed ==> e == 0.0
  {
    if !r.completed then 0.0 else Normalizar.Amount(r.leftover)
  }

  // ---------------------------------------------------------------
  // Validation
  // ---------------------------------------------------------------

  /** Why `save` refuses a record. */
  datatype SaveError =
    | Rejected(codes: seq<string>)   // full_clean raised ValidationError with these messages
    | Trapped(error: DecimalError)   // a validator's comparison trapped
    | ArityMismatch                  // the four-argument calculator call raised TypeError

  /**
   * `clean()`: expenses above the budget are rejected (equality passes).
   * The negative-budget branch after it cannot fire, since the normalized
   * budget is never negative.
   */
  function Clean(r: Record): (e: Option<string>)
    ensures e.None? <==> GastoTotal(r) <= Normalizar.Amount(r.budget)
  {
    var presupuesto := Normalizar.Amount(r.budget);
    if GastoTotal(r) > presupuesto then Some("gastos_superan_presupuesto")
    else if presupuesto < 0.0 then Some("presupuesto_negativo")
    else None
  }

  /**
   * The model field's own conversion of `sobrante_monetario` inside
   * `full_clean`: `None` is refused as null, anything `Decimal()` cannot read
   * or that is not finite is refused as invalid.
   */
  function LeftoverFieldValue(v: Value): (r: Result<real, string>)
    ensures r.Ok? <==> v != Null && DecimalOf(v).Ok? && DecimalOf(v).value.Fin?
    ensures r.Ok? ==> r.value == DecimalOf(v).value.v
  {
    if v == Null then Err("null")
    else
      match DecimalOf(v)
      case Err(_) => Err("invalid")
      case Ok(d) => if d.Fin? then Ok(d.v) else Err("invalid")
  }

  /** The messages of the validators that refused, in order. */
  function Messages(vs: seq<Validators.Verdict>): (m: seq<string>)
    ensures |m| == 0 <==> forall i :: 0 <= i < |vs| ==> !vs[i].Invalid?
  {
    if |vs| == 0 then []
    else (if vs[0].Invalid? then [vs[0].code] else []) + Messages(vs[1..])
  }

  /** The exception of the first validator that trapped, which ends `full_clean` at once. */
  function FirstTrap(vs: seq<Validators.Verdict>): (t: Option<DecimalError>)
    ensures t.None? <==> forall i :: 0 <= i < |vs| ==> !vs[i].Raises?
  {
    if |vs| == 0 then None
    else if vs[0].Raises? then Some(vs[0].error)
    else FirstTrap(vs[1..])
  }

  /** The four amounts `save` has already normalized. */
  predicate AmountsNormalized(r: Record) {
    IsMoney(r.budget) && IsMoney(r.food) && IsMoney(r.products) && IsMoney(r.savings)
  }

  /** The expenses of a record whose amounts are normalized. */
  function Expenses(r: Record): real
    requires AmountsNormalized(r)
  {
    AmountOf(r.food) + AmountOf(r.products) + AmountOf(r.savings)
  }

  /** On normalized amounts the derived expense total is the plain sum. */
  lemma GastoTotalOfNormalized(r: Record)
    requires AmountsNormalized(r)
    ensures GastoTotal(r) == Expenses(r)
    ensures Normalizar.Amount(r.budget) == AmountOf(r.budget)
  {
    Normalizar.MoneyIsFixedPoint(AmountOf(r.budget), Zero);
    Normalizar.MoneyIsFixedPoint(AmountOf(r.food), Zero);
    Normalizar.MoneyIsFixedPoint(AmountOf(r.products), Zero);
    Normalizar.MoneyIsFixedPoint(AmountOf(r.savings), Zero);
  }

  /** The field validators' verdicts on a normalized record, in declaration order. */
  function FieldVerdicts(r: Record): seq<Validators.Verdict> {
    [Validators.ValidarPresupuestoDiario(r.budget),
     Validators.ValidarGastoIndividual(r.food),
     Validators.ValidarGastoIndividual(r.products),
     Validators.ValidarGastoIndividual(r.savings)]
    + (match LeftoverFieldValue(r.leftover)
       case Ok(x) => [Validators.ValidarSobrante(Money(x))]
       case Err(_) => [])
  }

  /** On normalized amounts no validator traps, and they all pass exactly when budget and leftover are in range. */
  lemma FieldVerdictsOfNormalized(r: Record)
    requires AmountsNormalized(r)
    ensures forall i :: 0 <= i < |FieldVerdicts(r)| ==> !FieldVerdicts(r)[i].Raises?
    ensures (forall i :: 0 <= i < |FieldVerdicts(r)| ==> !FieldVerdicts(r)[i].Invalid?)
        <==> (AmountOf(r.budget) <= Validators.MaxDailyBudget
              && (LeftoverFieldValue(r.leftover).Ok? ==> LeftoverFieldValue(r.leftover).value >= 0.0))
  {
    Validators.InspectedDecimal(r.budget.d);
    Validators.InspectedDecimal(r.food.d);
    Validators.InspectedDecimal(r.products.d);
    Validators.InspectedDecimal(r.savings.d);
    var vs := FieldVerdicts(r);
    assert vs[0] == Validators.ValidarPresupuestoDiario(r.budget);
    assert vs[1] == Validators.ValidarGastoIndividual(r.food);
    assert vs[2] == Validators.ValidarGastoIndividual(r.products);
    assert vs[3] == Validators.ValidarGastoIndividual(r.savings);
    match LeftoverFieldValue(r.leftover)
    case Ok(x) =>
      Validators.InspectedDecimal(Fin(x));
      assert vs[4] == Validators.ValidarSobrante(Money(x));
    case Err(_) =>
      assert |vs| == 4;
  }

  /**
   * `clean_fields()` on a record whose amounts are normalized: the field
   * validators in declaration order, the leftover's conversion and its
   * validator.  Returns the messages and the converted leftover.
   */
  function CleanFields(r: Record): (res: Result<(seq<string>, Value), SaveError>)
    requires AmountsNormalized(r)
    ensures res.Ok?
    ensures (|res.value.0| == 0) <==> (AmountOf(r.budget) <= Validators.MaxDailyBudget
                                        && LeftoverFieldValue(r.leftover).Ok? && LeftoverFieldValue(r.leftover).value >= 0.0)
    ensures LeftoverFieldValue(r.leftover).Ok? ==> res.value.1 == Money(LeftoverFieldValue(r.leftover).value)
  {
    var vs := FieldVerdicts(r);
    FieldVerdictsOfNormalized(r);
    match FirstTrap(vs)
    case Some(e) => Err(Trapped(e))
    case None =>
      match LeftoverFieldValue(r.leftover)
      case Err(code) => Ok((Messages(vs) + [code], r.leftover))
      case Ok(x) => Ok((Messages(vs), Money(x)))
  }

  /**
   * `full_clean()`: the field messages and `clean()`'s message together;
   * any message rejects the record.  On success the leftover holds its
   * converted value.
   */
  function FullClean(r: Record): (res: Result<Record, SaveError>)
    requires AmountsNormalized(r)
    ensures res.Ok? <==> AmountOf(r.budget) <= Validators.MaxDailyBudget
                         && LeftoverFieldValue(r.leftover).Ok? && LeftoverFieldValue(r.leftover).value >= 0.0
                         && Expenses(r) <= AmountOf(r.budget)
    ensures res.Err? ==> res.error.Rejected? && |res.error.codes| > 0
    ensures res.Ok? ==> res.value == r.(leftover := Money(LeftoverFieldValue(r.leftover).value))
  {
    GastoTotalOfNormalized(r);
    match CleanFields(r)
    case Err(e) => Err(e)
    case Ok(fields) =>
      var codes := fields.0 + (match Clean(r) case Some(c) => [c] case None => []);
      if |codes| == 0 then Ok(r.(leftover := fields.1)) else Err(Rejected(codes))
  }

  // ---------------------------------------------------------------
  // save
  // ---------------------------------------------------------------

  /** The normalization `save` starts with: `normalizar_decimal(x or 0)` on the four amounts. */
  function Normalized(r: Record): (s: Record)
    ensures AmountsNormalized(s)
    ensures s == r.(budget := Normalizar.Normalize(r.budget), food := Normalizar.Normalize(r.food),
                    products := Normalizar.Normalize(r.products), savings := Normalizar.Normalize(r.savings))
  {
    Normalizar.OrZeroIsRedundant(r.budget);
    Normalizar.OrZeroIsRedundant(r.food);
    Normalizar.OrZeroIsRedundant(r.products);
    Normalizar.OrZeroIsRedundant(r.savings);
    r.(budget := Normalizar.Normalize(OrZero(r.budget)),
       food := Normalizar.Normalize(OrZero(r.food)),
       products := Normalizar.Normalize(OrZero(r.products)),
       savings := Normalizar.Normalize(OrZero(r.savings)))
  }

  /** The leftover the calculator gives a record, under the four-argument reading. */
  function ComputedLeftover(r: Record): real
    requires AmountsNormalized(r)
  {
    Calculadora.Leftover(AmountOf(r.budget), AmountOf(r.food), AmountOf(r.savings), AmountOf(r.products))
  }

  /** What every record `save` accepted looks like. */
  predicate Stored(r: Record) {
    AmountsNormalized(r) && IsMoney(r.leftover)
    && AmountOf(r.budget) <= Validators.MaxDailyBudget
    && Expenses(r) <= AmountOf(r.budget)
    && (!r.completed ==> r.leftover == Zero)
    && (r.completed && !r.leftoverFixed ==> AmountOf(r.leftover) == ComputedLeftover(r))
  }

  /** The records `save` accepts. */
  predicate Acceptable(r: Record) {
    var n := Normalized(r);
    AmountOf(n.budget) <= Validators.MaxDailyBudget
    && Expenses(n) <= AmountOf(n.budget)
    && LeftoverFieldValue(r.leftover).Ok? && LeftoverFieldValue(r.leftover).value >= 0.0
  }

  /** Everything but the amounts stays as it was. */
  predicate SameFlags(a: Record, b: Record) {
    a.user == b.user && a.fecha == b.fecha && a.completed == b.completed
    && a.foodFixed == b.foodFixed && a.productsFixed == b.productsFixed
    && a.savingsFixed == b.savingsFixed && a.leftoverFixed == b.leftoverFixed
  }

  /** The leftover rule applied once validation has passed. */
  function SettleLeftover(c: Record): (s: Record)
    requires AmountsNormalized(c) && IsMoney(c.leftover)
    requires AmountOf(c.budget) <= Validators.MaxDailyBudget && Expenses(c) <= AmountOf(c.budget)
    ensures Stored(s) && SameFlags(s, c)
    ensures s == c.(leftover := s.leftover)
    ensures c.completed && c.leftoverFixed ==> s.leftover == c.leftover
  {
    Normalizar.MoneyIsFixedPoint(AmountOf(c.leftover), Zero);
    Normalizar.OrZeroIsRedundant(c.leftover);
    if !c.completed then c.(leftover := Zero)
    else if c.leftoverFixed then c.(leftover := Normalizar.Normalize(OrZero(c.leftover)))
    else c.(leftover := Money(ComputedLeftover(c)))
  }

  /**
   * `save()` with the calculator read as taking all four amounts: normalize,
   * validate, then zero the leftover of an incomplete day, keep a fixed one,
   * or compute it.
   */
  function Save(r: Record): (res: Result<Record, SaveError>)
    ensures res.Ok? <==> Acceptable(r)
    ensures res.Err? ==> res.error.Rejected? && |res.error.codes| > 0
    ensures res.Ok? ==> Stored(res.value) && SameFlags(res.value, r)
    ensures res.Ok? ==> (res.value.budget == Normalizar.Normalize(r.budget)
                         && res.value.food == Normalizar.Normalize(r.food)
                         && res.value.products == Normalizar.Normalize(r.products)
                         && res.value.savings == Normalizar.Normalize(r.savings))
    ensures res.Ok? && r.completed && r.leftoverFixed ==> res.value.leftover == Money(LeftoverFieldValue(r.leftover).value)
  {
    match FullClean(Normalized(r))
    case Err(e) => Err(e)
    case Ok(c) => Ok(SettleLeftover(c))
  }

  /**
   * `save()` as written: the leftover of a completed, non-fixed day comes
   * from `calcular_sobrante` called with four arguments, which raises.
   */
  function SaveAsWritten(r: Record): (res: Result<Record, SaveError>)
    ensures res.Ok? ==> Stored(res.value) && (!r.completed || r.leftoverFixed)
  {
    match FullClean(Normalized(r))
    case Err(e) => Err(e)
    case Ok(c) =>
      if c.completed && !c.leftoverFixed then
        match Calculadora.Call([c.budget, c.food, c.savings, c.products])
        case Ok(d) => Ok(c.(leftover := Num(d)))
        case Err(Arity(_)) => Err(ArityMismatch)
        case Err(Raised(e)) => Err(Trapped(e))
      else
        Ok(SettleLeftover(c))
  }

  // ---------------------------------------------------------------
  // fijar_valor
  // ---------------------------------------------------------------

  /**
   * `fijar_valor(campo, valor)`, with `Null` for `valor=None` (omitted or
   * passed): an unknown field name changes nothing and saves nothing;
   * otherwise the value is replaced by the normalized `valor` when it is
   * not `None`, the flag is flipped, and the record saved.
   */
  function FijarValor(r: Record, campo: string, valor: Value): (res: Result<Record, SaveError>)
    ensures FieldNamed(campo).None? ==> res == Ok(r)
    ensures FieldNamed(campo).Some? && res.Ok? ==>
              var f := FieldNamed(campo).value;
              FieldFixed(res.value, f) == !FieldFixed(r, f)
              && (forall g :: g != f ==> FieldFixed(res.value, g) == FieldFixed(r, g))
              && res.value.completed == r.completed
              && res.value.budget == Normalizar.Normalize(r.budget)
    ensures FieldNamed(campo).Some? && FieldNamed(campo).value != Sobrante && res.Ok? ==>
              var f := FieldNamed(campo).value;
              FieldValue(res.value, f) == Normalizar.Normalize(if valor == Null then FieldValue(r, f) else valor)
    ensures FieldNamed(campo).Some? ==>
              var f := FieldNamed(campo).value;
              var v := if valor == Null then FieldValue(r, f) else Normalizar.Normalize(valor);
              res.Ok? <==> Acceptable(Flipped(r, f, v))
    ensures FieldNamed(campo).Some? && res.Ok? ==>
              var f := FieldNamed(campo).value;
              res.value.user == r.user && res.value.fecha == r.fecha
              && (forall g :: g != f && g != Sobrante ==> FieldValue(res.value, g) == Normalizar.Normalize(FieldValue(r, g)))
  {
    match FieldNamed(campo)
    case None => Ok(r)
    case Some(f) =>
      Normalizar.NormalizeIdempotent(valor, Zero);
      var v := if valor == Null then FieldValue(r, f) else Normalizar.Normalize(valor);
      SaveFlipped(r, f, v);
      Save(Flipped(r, f, v))
  }

  /** What `save` makes of a flipped record, from `Save`'s contract alone. */
  lemma SaveFlipped(r: Record, f: Field, v: Value)
    ensures var x := Save(Flipped(r, f, v));
            (x.Ok? <==> Acceptable(Flipped(r, f, v)))
            && (x.Ok? ==>
                  FieldFixed(x.value, f) == !FieldFixed(r, f)
                  && (forall g :: g != f ==> FieldFixed(x.value, g) == FieldFixed(r, g))
                  && x.value.completed == r.completed && x.value.user == r.user && x.value.fecha == r.fecha
                  && x.value.budget == Normalizar.Normalize(r.budget)
                  && (f != Sobrante ==> FieldValue(x.value, f) == Normalizar.Normalize(v))
                  && (forall g :: g != f && g != Sobrante ==> FieldValue(x.value, g) == Normalizar.Normalize(FieldValue(r, g))))
  {
    hide Save;
    var t := Flipped(r, f, v);
    var x := Save(t);
    if x.Ok? {
      assert SameFlags(x.value, t);
      forall g ensures FieldFixed(x.value, g) == FieldFixed(t, g) {
      }
      forall g | g != Sobrante ensures FieldValue(x.value, g) == Normalizar.Normalize(FieldValue(t, g)) {
      }
    }
  }

  /** The record `fijar_valor` saves: the flag of `f` flipped and its value set to `v`. */
  function Flipped(r: Record, f: Field, v: Value): (t: Record)
    ensures FieldFixed(t, f) == !FieldFixed(r, f) && FieldValue(t, f) == v
    ensures forall g :: g != f ==> FieldFixed(t, g) == FieldFixed(r, g) && FieldValue(t, g) == FieldValue(r, g)
    ensures t.budget == r.budget && t.completed == r.completed && t.user == r.user && t.fecha == r.fecha
  {
    WithFixed(WithValue(r, f, v), f, !FieldFixed(r, f))
  }

  // ---------------------------------------------------------------
  // Properties
  // ---------------------------------------------------------------

  /** On a stored record, the effective leftover of a completed, computed day is its balance. */
  lemma EffectiveLeftoverIsBalance(r: Record)
    requires Stored(r) && r.completed && !r.leftoverFixed
    ensures SobranteEfectivo(r) == BalanceDiario(r)
  {
    Normalizar.MoneyIsFixedPoint(AmountOf(r.budget), Zero);
    Normalizar.MoneyIsFixedPoint(AmountOf(r.food), Zero);
    Normalizar.MoneyIsFixedPoint(AmountOf(r.products), Zero);
    Normalizar.MoneyIsFixedPoint(AmountOf(r.savings), Zero);
    Normalizar.MoneyIsFixedPoint(AmountOf(r.leftover), Zero);
  }

  /** A stored record never shows a negative balance. */
  lemma StoredBalanceNonNegative(r: Record)
    requires Stored(r)
    ensures BalanceDiario(r) >= 0.0
  {
    Normalizar.MoneyIsFixedPoint(AmountOf(r.budget), Zero);
  }

  /** Saving a saved record again changes nothing. */
  lemma SaveIdempotent(r: Record)
    requires Save(r).Ok?
    ensures Save(Save(r).value) == Save(r)
  {
    StoredSavesToItself(Save(r).value);
  }

  /** A stored record saves to itself. */
  lemma StoredSavesToItself(x: Record)
    requires Stored(x)
    ensures Save(x) == Ok(x)
  {
    StoredIsNormalized(x);
    StoredPassesClean(x);
    StoredIsSettled(x);
  }

  /** The normalization `save` starts with leaves a stored record alone. */
  lemma StoredIsNormalized(x: Record)
    requires Stored(x)
    ensures Normalized(x) == x
  {
    Normalizar.MoneyIsFixedPoint(AmountOf(x.budget), Zero);
    Normalizar.MoneyIsFixedPoint(AmountOf(x.food), Zero);
    Normalizar.MoneyIsFixedPoint(AmountOf(x.products), Zero);
    Normalizar.MoneyIsFixedPoint(AmountOf(x.savings), Zero);
    Normalizar.OrZeroIsRedundant(x.budget);
    Normalizar.OrZeroIsRedundant(x.food);
    Normalizar.OrZeroIsRedundant(x.products);
    Normalizar.OrZeroIsRedundant(x.savings);
  }

  /** A stored record passes `full_clean` unchanged. */
  lemma StoredPassesClean(x: Record)
    requires Stored(x)
    ensures FullClean(x) == Ok(x)
  {
  }

  /** The leftover rule leaves a stored record alone. */
  lemma StoredIsSettled(x: Record)
    requires Stored(x)
    ensures SettleLeftover(x) == x
  {
    Normalizar.MoneyIsFixedPoint(AmountOf(x.leftover), Zero);
    Normalizar.OrZeroIsRedundant(x.leftover);
  }

  /**
   * As written, `save` fails exactly on the completed days whose leftover is
   * not fixed, and otherwise agrees with the four-argument reading.
   */
  lemma SaveAsWrittenRaises(r: Record)
    ensures Save(r).Ok? && r.completed && !r.leftoverFixed ==> SaveAsWritten(r) == Err(ArityMismatch)
    ensures !(r.completed && !r.leftoverFixed) ==> SaveAsWritten(r) == Save(r)
  {
    Normalizar.OrZeroIsRedundant(r.budget);
    Normalizar.OrZeroIsRedundant(r.food);
    Normalizar.OrZeroIsRedundant(r.products);
    Normalizar.OrZeroIsRedundant(r.savings);
  }

  /** Expenses equal to the budget pass; one cent more is rejected. */
  lemma ExpensesMayEqualBudget(r: Record)
    requires r.budget == Money(50.0) && r.food == Money(20.0) && r.products == Money(20.0)
    requires r.leftover == Zero
    ensures r.savings == Money(10.0) ==> Save(r).Ok?
    ensures r.savings == Money(10.01) ==> Save(r) == Err(Rejected(["gastos_superan_presupuesto"]))
  {
    Normalizar.MoneyIsFixedPoint(50.0, Zero);
    Normalizar.MoneyIsFixedPoint(20.0, Zero);
    Normalizar.MoneyIsFixedPoint(10.0, Zero);
    Normalizar.MoneyIsFixedPoint(10.01, Zero);
    Normalizar.OrZeroIsRedundant(r.budget);
    Normalizar.OrZeroIsRedundant(r.food);
    Normalizar.OrZeroIsRedundant(r.products);
    Normalizar.OrZeroIsRedundant(r.savings);
    var n := Normalized(r);
    FieldVerdictsOfNormalized(n);
    GastoTotalOfNormalized(n);
    if r.savings == Money(10.01) {
      var fields := CleanFields(n).value;
      assert |fields.0| == 0;
      assert Clean(n) == Some("gastos_superan_presupuesto");
      assert [] + ["gastos_superan_presupuesto"] == ["gastos_superan_presupuesto"];
      assert FullClean(n) == Err(Rejected(["gastos_superan_presupuesto"]));
      assert Save(r) == FullClean(n);
    }
  }

  /** The day of 100 with 30 food, 20 products and 10 savings, completed and not fixed. */
  function ScenarioRecord(): Record {
    Record(1, 738000, Money(100.0), Money(30.0), Money(20.0), Money(10.0), Zero,
           false, false, false, false, true)
  }

  /** As written it cannot be saved; under the four-argument reading it saves with 40 left over. */
  lemma ScenarioSave()
    ensures SaveAsWritten(ScenarioRecord()) == Err(ArityMismatch)
    ensures Save(ScenarioRecord()).Ok? && Save(ScenarioRecord()).value.leftover == Money(40.0)
  {
    var r := ScenarioRecord();
    Normalizar.MoneyIsFixedPoint(100.0, Zero);
    Normalizar.MoneyIsFixedPoint(30.0, Zero);
    Normalizar.MoneyIsFixedPoint(20.0, Zero);
    Normalizar.MoneyIsFixedPoint(10.0, Zero);
    Normalizar.OrZeroIsRedundant(r.budget);
    Normalizar.OrZeroIsRedundant(r.food);
    Normalizar.OrZeroIsRedundant(r.products);
    Normalizar.OrZeroIsRedundant(r.savings);
    SaveAsWrittenRaises(r);
  }

  /** Whether `save` accepts a day does not depend on its date. */
  lemma SaveIgnoresDate(r: Record, d: Dates.Date)
    ensures Save(r.(fecha := d)).Ok? <==> Save(r).Ok?
  {
    assert Normalized(r.(fecha := d)) == Normalized(r).(fecha := d);
  }

  /** `fijar_valor` on a category with a value other than `None` stores the value's normalized form. */
  lemma FijarValorWritesValue(r: Record, campo: string, valor: Value)
    requires FieldNamed(campo).Some? && FieldNamed(campo).value != Sobrante && valor != Null
    requires FijarValor(r, campo, valor).Ok?
    ensures FieldValue(FijarValor(r, campo, valor).value, FieldNamed(campo).value) == Normalizar.Normalize(valor)
  {
  }

  /** With `valor=None`, omitted or passed, `fijar_valor` keeps the amount (only normalized) and flips the flag. */
  lemma FijarValorKeepsValue(r: Record, campo: string)
    requires FieldNamed(campo).Some? && FieldNamed(campo).value != Sobrante
    requires FijarValor(r, campo, Null).Ok?
    ensures FieldValue(FijarValor(r, campo, Null).value, FieldNamed(campo).value)
         == Normalizar.Normalize(FieldValue(r, FieldNamed(campo).value))
  {
  }
}
