/**
 * The leftover calculator.
 *
 * `calcular_sobrante` is defined with three parameters (budget, food,
 * savings), but every caller passes four: budget, food, savings/debt and
 * products.  A Python call with the wrong arity raises TypeError before the
 * body runs, so as written every caller fails.  `CalcularSobrante` models the
 * definition, `Call` models a call with any number of arguments, and
 * `CalcularSobrante4` is the explicit assumption the rest of the model makes
 * about the four-argument calls: products is subtracted like the other
 * expenses.
 */
module Calculadora {
  import opened Wrappers
  import opened Decimals

  /** The clamp the calculator applies: a negative difference becomes 0.00. */
  function Clamp(x: real): (r: real)
    ensures r >= 0.0 && r >= x
    ensures r == x || r == 0.0
  {
    if x >= 0.0 then x else 0.0
  }

  /**
   * The closing `sobrante if sobrante >= 0 else Decimal("0.00")`: a negative
   * difference becomes zero, and comparing NaN traps.
   */
  function AtLeastZero(sobrante: Dec): (r: Result<Dec, DecimalError>)
    ensures r.Err? <==> sobrante.NaN?
    ensures sobrante.Fin? ==> r == Ok(Fin(Clamp(sobrante.v)))
    ensures r.Ok? && r.value.Fin? ==> r.value.v >= 0.0
  {
    var ordering :- Compare(sobrante, 0.0);
    if ordering != Less then Ok(sobrante) else Ok(Fin(0.0))
  }

  /**
   * `calcular_sobrante(presupuesto, alimento, ahorro)` as defined.  An
   * argument `Decimal()` cannot convert yields 0.00; otherwise the
   * difference, clamped at zero.  The subtraction and the comparison run
   * outside the `try`, so their traps propagate.
   */
  function CalcularSobrante(presupuesto: Value, alimento: Value, ahorro: Value): (r: Result<Dec, DecimalError>)
    ensures DecimalOf(presupuesto).Err? || DecimalOf(alimento).Err? || DecimalOf(ahorro).Err? ==> r == Ok(Fin(0.0))
    ensures (DecimalOf(presupuesto).Ok? && DecimalOf(presupuesto).value.Fin?
             && DecimalOf(alimento).Ok? && DecimalOf(alimento).value.Fin?
             && DecimalOf(ahorro).Ok? && DecimalOf(ahorro).value.Fin?)
            ==> r == Ok(Fin(Clamp(DecimalOf(presupuesto).value.v - DecimalOf(alimento).value.v - DecimalOf(ahorro).value.v)))
    ensures r.Ok? && r.value.Fin? ==> r.value.v >= 0.0
  {
    if DecimalOf(presupuesto).Err? || DecimalOf(alimento).Err? || DecimalOf(ahorro).Err? then Ok(Fin(0.0))
    else Difference(DecimalOf(presupuesto).value, DecimalOf(alimento).value, DecimalOf(ahorro).value)
  }

  /** The part of `calcular_sobrante` after the conversions: `presupuesto - alimento - ahorro`, then the clamp. */
  function Difference(p: Dec, a: Dec, h: Dec): (r: Result<Dec, DecimalError>)
    ensures p.Fin? && a.Fin? && h.Fin? ==> r == Ok(Fin(Clamp(p.v - a.v - h.v)))
    ensures r.Ok? && r.value.Fin? ==> r.value.v >= 0.0
  {
    var partial :- Sub(p, a);
    var sobrante :- Sub(partial, h);
    AtLeastZero(sobrante)
  }


  /** The error a call of a Python function can raise before or inside its body. */
  datatype CallError = Arity(given: nat) | Raised(error: DecimalError)

  /**
   * `calcular_sobrante(*args)`: any number of arguments other than three is
   * rejected with TypeError before the body runs.
   */
  function Call(args: seq<Value>): (r: Result<Dec, CallError>)
    ensures |args| != 3 ==> r == Err(Arity(|args|))
    ensures |args| == 3 ==> (r.Ok? <==> CalcularSobrante(args[0], args[1], args[2]).Ok?)
    ensures |args| == 3 && r.Ok? ==> r.value == CalcularSobrante(args[0], args[1], args[2]).value
  {
    if |args| != 3 then Err(Arity(|args|))
    else
      match CalcularSobrante(args[0], args[1], args[2])
      case Ok(d) => Ok(d)
      case Err(e) => Err(Raised(e))
  }

  /**
   * The assumed meaning of the four-argument calls
   * `calcular_sobrante(para_gastar_dia, alimento, ahorro_y_deuda, productos)`:
   * the same conversion and clamp, with products as a third expense.
   */
  function CalcularSobrante4(presupuesto: Value, alimento: Value, ahorro: Value, productos: Value)
    : (r: Result<Dec, DecimalError>)
    ensures (DecimalOf(presupuesto).Err? || DecimalOf(alimento).Err? || DecimalOf(ahorro).Err?
             || DecimalOf(productos).Err?) ==> r == Ok(Fin(0.0))
    ensures r.Ok? && r.value.Fin? ==> r.value.v >= 0.0
  {
    if DecimalOf(presupuesto).Err? || DecimalOf(alimento).Err? || DecimalOf(ahorro).Err?
       || DecimalOf(productos).Err? then Ok(Fin(0.0))
    else
      var partial :- Sub(DecimalOf(presupuesto).value, DecimalOf(alimento).value);
      Difference(partial, DecimalOf(ahorro).value, DecimalOf(productos).value)
  }


  /** Four amounts `Decimal()` reads as finite numbers give the budget minus the three expenses, clamped at zero. */
  lemma CalcularSobrante4Finite(presupuesto: Value, alimento: Value, ahorro: Value, productos: Value)
    requires DecimalOf(presupuesto).Ok? && DecimalOf(presupuesto).value.Fin?
    requires DecimalOf(alimento).Ok? && DecimalOf(alimento).value.Fin?
    requires DecimalOf(ahorro).Ok? && DecimalOf(ahorro).value.Fin?
    requires DecimalOf(productos).Ok? && DecimalOf(productos).value.Fin?
    ensures CalcularSobrante4(presupuesto, alimento, ahorro, productos)
         == Ok(Fin(Clamp(DecimalOf(presupuesto).value.v - DecimalOf(alimento).value.v
                         - DecimalOf(ahorro).value.v - DecimalOf(productos).value.v)))
  {
    hide DecimalOf;
    var b, f, h, q := DecimalOf(presupuesto).value, DecimalOf(alimento).value, DecimalOf(ahorro).value, DecimalOf(productos).value;
    assert CalcularSobrante4(presupuesto, alimento, ahorro, productos) == Difference(Fin(b.v - f.v), h, q);
  }

  /**
   * The leftover of a day whose four amounts are already normalized: the
   * budget minus all three expenses, or zero when that is negative.
   */
  function Leftover(budget: real, food: real, savings: real, products: real): (r: real)
    ensures r >= 0.0
    ensures CalcularSobrante4(Money(budget), Money(food), Money(savings), Money(products)) == Ok(Fin(r))
    ensures budget - food - savings - products >= 0.0 ==> r == budget - food - savings - products
    ensures budget - food - savings - products < 0.0 ==> r == 0.0
  {
    Clamp(budget - food - savings - products)
  }

  // ---------------------------------------------------------------
  // Properties
  // ---------------------------------------------------------------

  /** As written, every four-argument call raises TypeError. */
  lemma FourArgumentCallRaises(b: Value, f: Value, s: Value, p: Value)
    ensures Call([b, f, s, p]) == Err(Arity(4))
  {
  }

  /**
   * The assumed four-argument form is the written three-argument one with
   * savings and products merged into one expense.
   */
  lemma FourArgumentsAsThree(b: real, f: real, s: real, p: real)
    ensures CalcularSobrante4(Money(b), Money(f), Money(s), Money(p))
         == CalcularSobrante(Money(b), Money(f), Money(s + p))
  {
  }

  /** With non-negative expenses and no budget, nothing is left over. */
  lemma NoBudgetNoLeftover(b: real, f: real, s: real, p: real)
    requires b <= 0.0 && f >= 0.0 && s >= 0.0 && p >= 0.0
    ensures Leftover(b, f, s, p) == 0.0
  {
  }

  /** Spending more on any category never increases the leftover. */
  lemma LeftoverAntitone(b: real, f: real, s: real, p: real, f': real, s': real, p': real)
    requires f <= f' && s <= s' && p <= p'
    ensures Leftover(b, f', s', p') <= Leftover(b, f, s, p)
  {
  }

  /** The three-argument calculator is antitone in food and savings too. */
  lemma CalcularSobranteAntitone(b: real, f: real, s: real, f': real, s': real)
    requires f <= f' && s <= s'
    ensures CalcularSobrante(Money(b), Money(f'), Money(s')).value.v
         <= CalcularSobrante(Money(b), Money(f), Money(s)).value.v
  {
  }

  /** A day of 100 with 30 food, 10 savings and 20 products leaves 40. */
  lemma ScenarioA()
    ensures Leftover(100.0, 30.0, 10.0, 20.0) == 40.0
  {
  }

  /** `Decimal(None)` is caught by the bare `except`: the result is 0.00. */
  lemma UnconvertibleArgumentGivesZero(f: Value, s: Value)
    ensures CalcularSobrante(Null, f, s) == Ok(Fin(0.0))
    ensures CalcularSobrante(Text("abc"), f, s) == Ok(Fin(0.0))
  {
    assert SpecialValue("abc") == None;
    assert IndexOf("abc", '.') == 3;
  }
}
