/**
 * Savings goals (`ObjetivoFinanciero`): a target amount, the amount saved so
 * far, and a completion flag that is only ever raised.
 */
module Objetivo {
  import opened Decimals
  import Normalizar

  /** A goal; its name and creation date play no part in the rules. */
  datatype Goal = Goal(user: nat, target: Value, current: Value, completed: bool)

  /**
   * `round(x, 2)` on a Decimal: to the nearest hundredth, ties to the even
   * hundredth (the default rounding of Python's decimal context).
   */
  function RoundCents(x: real): (r: real)
    ensures IsQuantized(r)
    ensures r - x <= 0.005 && x - r <= 0.005
  {
    var n := RoundHalfEven(x * 100.0);
    var r := n as real / 100.0;
    assert r * 100.0 == n as real;
    r
  }

  /** The integer nearest to `y`, ties to the even one. */
  function RoundHalfEven(y: real): (n: int)
    ensures n as real - y <= 0.5 && y - n as real <= 0.5
  {
    var f := y.Floor;
    var frac := y - f as real;
    if frac < 0.5 then f
    else if frac > 0.5 then f + 1
    else if f % 2 == 0 then f else f + 1
  }

  /** The percentage `progreso` reports. */
  function Progreso(g: Goal): (p: real)
    ensures Normalizar.Amount(g.target) == 0.0 ==> p == 0.0
    ensures Normalizar.Amount(g.target) > 0.0 ==>
              var exact := Normalizar.Amount(g.current) / Normalizar.Amount(g.target) * 100.0;
              IsQuantized(p) && p - exact <= 0.005 && exact - p <= 0.005
  {
    var target := Normalizar.Amount(g.target);
    var current := Normalizar.Amount(g.current);
    if target == 0.0 then 0.0 else RoundCents(current / target * 100.0)
  }

  /** `save()`: both amounts normalized, the flag untouched. */
  function SaveGoal(g: Goal): (s: Goal)
    ensures IsMoney(s.target) && IsMoney(s.current)
    ensures AmountOf(s.target) == Normalizar.Amount(g.target)
    ensures AmountOf(s.current) == Normalizar.Amount(g.current)
    ensures s.user == g.user && s.completed == g.completed
  {
    g.(target := Normalizar.Normalize(g.target), current := Normalizar.Normalize(g.current))
  }

  /**
   * `actualizar_estado()`: normalize both amounts, raise the flag when the
   * amount saved reaches the target, then save.
   */
  function ActualizarEstado(g: Goal): (s: Goal)
    ensures s.completed <==> g.completed || Normalizar.Amount(g.current) >= Normalizar.Amount(g.target)
    ensures IsMoney(s.target) && IsMoney(s.current)
    ensures AmountOf(s.target) == Normalizar.Amount(g.target)
    ensures AmountOf(s.current) == Normalizar.Amount(g.current)
    ensures s.user == g.user
  {
    var n := g.(target := Normalizar.Normalize(g.target), current := Normalizar.Normalize(g.current));
    var flagged := if AmountOf(n.current) >= AmountOf(n.target) then n.(completed := true) else n;
    Normalizar.MoneyIsFixedPoint(AmountOf(flagged.target), Zero);
    Normalizar.MoneyIsFixedPoint(AmountOf(flagged.current), Zero);
    SaveGoal(flagged)
  }

  // ---------------------------------------------------------------
  // Properties
  // ---------------------------------------------------------------

  /** Rounding leaves an amount already in cents unchanged. */
  lemma RoundCentsOfCents(x: real)
    requires IsQuantized(x)
    ensures RoundCents(x) == x
  {
  }

  /** Rounding is monotone. */
  lemma RoundCentsMonotone(x: real, y: real)
    requires x <= y
    ensures RoundCents(x) <= RoundCents(y)
  {
    var fx := (x * 100.0).Floor;
    var fy := (y * 100.0).Floor;
    assert fx <= fy;
  }

  /** Progress is never negative: negative amounts normalize to zero. */
  lemma ProgresoNonNegative(g: Goal)
    ensures Progreso(g) >= 0.0
  {
    var target := Normalizar.Amount(g.target);
    if target > 0.0 {
      var q := Normalizar.Amount(g.current) / target * 100.0;
      assert q >= 0.0;
      RoundCentsMonotone(0.0, q);
      RoundCentsOfCents(0.0);
    }
  }

  /** A positive amount divided by itself is one. */
  lemma DivSelf(t: real)
    requires t > 0.0
    ensures t / t == 1.0
  {
    var q := t / t;
    assert q * t == t;
    assert (q - 1.0) * t == 0.0;
  }

  /** A goal whose saved amount equals a positive target is at 100. */
  lemma ProgresoComplete(g: Goal)
    requires Normalizar.Amount(g.target) > 0.0
    requires Normalizar.Amount(g.current) == Normalizar.Amount(g.target)
    ensures Progreso(g) == 100.0
  {
    var t := Normalizar.Amount(g.target);
    DivSelf(t);
    RoundCentsOfCents(100.0);
  }

  /** A zero target makes every goal complete. */
  lemma ZeroTargetCompletes(g: Goal)
    requires Normalizar.Amount(g.target) == 0.0
    ensures ActualizarEstado(g).completed
  {
  }

  /** Updating twice is the same as updating once. */
  lemma ActualizarEstadoIdempotent(g: Goal)
    ensures ActualizarEstado(ActualizarEstado(g)) == ActualizarEstado(g)
  {
    var s := ActualizarEstado(g);
    Normalizar.MoneyIsFixedPoint(AmountOf(s.target), Zero);
    Normalizar.MoneyIsFixedPoint(AmountOf(s.current), Zero);
  }

  /** Saving a saved goal changes nothing, and progress reads the same before and after saving. */
  lemma SaveGoalIdempotent(g: Goal)
    ensures SaveGoal(SaveGoal(g)) == SaveGoal(g)
    ensures Progreso(SaveGoal(g)) == Progreso(g)
  {
    var s := SaveGoal(g);
    Normalizar.MoneyIsFixedPoint(AmountOf(s.target), Zero);
    Normalizar.MoneyIsFixedPoint(AmountOf(s.current), Zero);
  }

  /** A third of the way: 1 of 3 reports 33.33. */
  lemma ProgresoOneThird(u: nat)
    ensures Progreso(Goal(u, Money(3.0), Money(1.0), false)) == 33.33
  {
    Normalizar.MoneyIsFixedPoint(3.0, Zero);
    Normalizar.MoneyIsFixedPoint(1.0, Zero);
    assert (100.0 / 3.0 * 100.0).Floor == 3333;
  }
}
