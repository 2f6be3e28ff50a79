/**
 * `verificar_registros_financieros`: a read-only audit of the record
 * table.  For every user, in the order of the users table, it lists the
 * dates seen twice and then, row by row in date order, the problems of each
 * row: negative amounts, expenses above the budget, a leftover that does not
 * match the calculator, and fixed flags on negative amounts.  It returns the
 * list and changes no row.
 */
module Verificador {
  import opened Wrappers
  import opened Decimals
  import Normalizar
  import Calculadora
  import Dates
  import Registro
  import opened Almacen
  import Orden
  import Reparador

  /** The four `_fijo` flags the last check looks at. */
  datatype Flag = FoodFixed | ProductsFixed | SavingsFixed | LeftoverFixed

  /** What one entry of `errores` reports. */
  datatype Kind =
    | Duplicate                                     // a date already seen for the user
    | InvalidData(campo: string)                    // the normalizer raised on a field
    | NegativeBudget
    | NegativeExpense
    | OverBudget(gastado: real, presupuesto: real)
    | WrongLeftover(actual: real, esperado: real)
    | NegativeFlag(flag: Flag)

  /** One entry of `errores`: the user and the date of the row it is about. */
  datatype Problem = Problem(user: User, fecha: Dates.Date, kind: Kind)

  // ---------------------------------------------------------------
  // One user's rows
  // ---------------------------------------------------------------

  /** `filter(user=u).order_by("fecha")`. */
  function UserRows(s: Store, u: User): (rows: Store)
    ensures Orden.Ascending(rows)
    ensures forall x :: x in rows <==> x in s && x.user == u
    ensures forall d :: CountOn(rows, u, d) == CountOn(s, u, d)
  {
    var rows := Orden.SortByFecha(OfUser(s, u));
    OfUserMembers(s, u);
    assert forall x :: x in rows <==> x in multiset(rows);
    assert forall x :: x in OfUser(s, u) <==> x in multiset(OfUser(s, u));
    forall d ensures CountOn(rows, u, d) == CountOn(s, u, d) {
      CountOnPermutation(rows, OfUser(s, u), u, d);
      CountOnOfUser(s, u, d);
    }
    rows
  }

  /** The dates `fechas_vistas` holds once `rows` have been seen. */
  function Fechas(rows: Store): set<Dates.Date> {
    set i | 0 <= i < |rows| :: rows[i].fecha
  }

  /** The first loop: one entry for every row whose date an earlier row already had. */
  function Duplicates(u: User, rows: Store): (ps: seq<Problem>)
    ensures forall p :: p in ps ==> p.user == u && p.kind == Duplicate
  {
    if |rows| == 0 then []
    else
      var before := rows[..|rows| - 1];
      var x := rows[|rows| - 1];
      Duplicates(u, before) + (if x.fecha in Fechas(before) then [Problem(u, x.fecha, Duplicate)] else [])
  }

  /**
   * `valores`: the five amounts through `normalizar_decimal`.  The
   * normalizer never raises, so the `except` branch and its "invalid data"
   * entry are never reached.
   */
  datatype Valores = Valores(budget: real, food: real, products: real, savings: real, leftover: real)

  function ValoresOf(x: Registro.Record): (v: Valores)
    ensures NonNegative(v)
  {
    Valores(Normalizar.Amount(x.budget), Normalizar.Amount(x.food), Normalizar.Amount(x.products),
            Normalizar.Amount(x.savings), Normalizar.Amount(x.leftover))
  }

  /** A normalized amount is never negative. */
  predicate NonNegative(v: Valores) {
    v.budget >= 0.0 && v.food >= 0.0 && v.products >= 0.0 && v.savings >= 0.0 && v.leftover >= 0.0
  }

  /**
   * Checks 3 and 4: negative amounts and expenses above the budget.  On
   * normalized amounts only the budget check can fire.
   */
  function AmountChecks(u: User, x: Registro.Record, v: Valores): (ps: seq<Problem>)
    ensures NonNegative(v) ==>
              ps == if v.food + v.products + v.savings > v.budget
                    then [Problem(u, x.fecha, OverBudget(v.food + v.products + v.savings, v.budget))] else []
  {
    var gastos := v.food + v.products + v.savings;
    (if v.budget < 0.0 then [Problem(u, x.fecha, NegativeBudget)] else [])
    + (if v.food < 0.0 || v.products < 0.0 || v.savings < 0.0 then [Problem(u, x.fecha, NegativeExpense)] else [])
    + (if gastos > v.budget then [Problem(u, x.fecha, OverBudget(gastos, v.budget))] else [])
  }

  /** Check 5 once `esperado` is known. */
  function LeftoverCheck(u: User, x: Registro.Record, v: Valores, esperado: real): seq<Problem> {
    if v.leftover != esperado then [Problem(u, x.fecha, WrongLeftover(v.leftover, esperado))] else []
  }

  /** Check 6: a set flag on a negative amount, which normalized amounts never are. */
  function FlagChecks(u: User, x: Registro.Record, v: Valores): (ps: seq<Problem>)
    ensures NonNegative(v) ==> ps == []
  {
    (if x.foodFixed && v.food < 0.0 then [Problem(u, x.fecha, NegativeFlag(FoodFixed))] else [])
    + (if x.productsFixed && v.products < 0.0 then [Problem(u, x.fecha, NegativeFlag(ProductsFixed))] else [])
    + (if x.savingsFixed && v.savings < 0.0 then [Problem(u, x.fecha, NegativeFlag(SavingsFixed))] else [])
    + (if x.leftoverFixed && v.leftover < 0.0 then [Problem(u, x.fecha, NegativeFlag(LeftoverFixed))] else [])
  }

  /**
   * `esperado` under the four-argument reading of the calculator: the
   * normalized clamped balance of the normalized amounts.
   */
  function Esperado(v: Valores): (e: real)
    requires v.budget >= 0.0 && v.food >= 0.0 && v.products >= 0.0 && v.savings >= 0.0
    ensures e == Calculadora.Leftover(v.budget, v.food, v.savings, v.products)
  {
    var computed := Reparador.Recomputed(Money(v.budget), Money(v.food), Money(v.savings), Money(v.products));
    AmountOf(computed)
  }

  /** The problems of one row, checks 3 to 6 in order. */
  function RowProblems(u: User, x: Registro.Record): (ps: seq<Problem>)
    ensures forall p :: p in ps ==> p.user == u && p.fecha == x.fecha && (p.kind.OverBudget? || p.kind.WrongLeftover?)
  {
    var v := ValoresOf(x);
    var amounts := AmountChecks(u, x, v);
    var leftover := if x.leftoverFixed then [] else LeftoverCheck(u, x, v, Esperado(v));
    var flags := FlagChecks(u, x, v);
    assert forall p :: p in amounts + leftover ==> p in amounts || p in leftover;
    amounts + leftover + flags
  }

  /**
   * One row as written: with the leftover not fixed, the calculator is
   * called with four arguments, and the TypeError that raises is not caught.
   */
  function RowProblemsAsWritten(u: User, x: Registro.Record): (r: Result<seq<Problem>, Calculadora.CallError>)
  {
    var v := ValoresOf(x);
    if x.leftoverFixed then Ok(AmountChecks(u, x, v) + FlagChecks(u, x, v))
    else
      match Calculadora.Call([Money(v.budget), Money(v.food), Money(v.savings), Money(v.products)])
      case Err(e) => Err(e)
      case Ok(_) => assert false; Ok([])
  }

  /** The entries of the items `xs` in turn, as the loops append them to `errores`. */
  function Concat<T>(xs: seq<T>, f: T -> seq<Problem>): seq<Problem> {
    if |xs| == 0 then [] else Concat(xs[..|xs| - 1], f) + f(xs[|xs| - 1])
  }

  /** The same loop when an item can raise: the first exception ends it. */
  function TryConcat<T>(xs: seq<T>, f: T -> Result<seq<Problem>, Calculadora.CallError>)
    : Result<seq<Problem>, Calculadora.CallError>
  {
    if |xs| == 0 then Ok([])
    else
      match TryConcat(xs[..|xs| - 1], f)
      case Err(e) => Err(e)
      case Ok(ps) =>
        match f(xs[|xs| - 1])
        case Err(e) => Err(e)
        case Ok(qs) => Ok(ps + qs)
  }

  /** The check of each row of `u`. */
  function RowCheck(u: User): Registro.Record -> seq<Problem> {
    x => RowProblems(u, x)
  }

  /** The second loop over the rows of one user. */
  function RowsProblems(u: User, rows: Store): (ps: seq<Problem>)
    ensures forall p :: p in ps ==> p.user == u && (p.kind.OverBudget? || p.kind.WrongLeftover?)
  {
    ConcatMembers(rows, RowCheck(u));
    Concat(rows, RowCheck(u))
  }

  /** The entries for one user: the duplicated dates, then each row's problems. */
  function UserProblems(s: Store, u: User): (ps: seq<Problem>)
    ensures forall p :: p in ps ==> p.user == u
  {
    var rows := UserRows(s, u);
    Duplicates(u, rows) + RowsProblems(u, rows)
  }

  /** The entries of each user. */
  function UserCheck(s: Store): User -> seq<Problem> {
    (u: User) => UserProblems(s, u)
  }

  /** `verificar_registros_financieros()` on the table `s`, with `users` the users table in its order. */
  function Verificar(s: Store, users: seq<User>): (ps: seq<Problem>)
    ensures forall p :: p in ps ==> p.user in users
    ensures forall p :: p in ps ==> p.kind.Duplicate? || p.kind.OverBudget? || p.kind.WrongLeftover?
  {
    ConcatMembers(users, UserCheck(s));
    Concat(users, UserCheck(s))
  }

  /** One user as written: the duplicates loop, then the rows loop, which can raise. */
  function UserAsWritten(s: Store, u: User): Result<seq<Problem>, Calculadora.CallError> {
    var rows := UserRows(s, u);
    match TryConcat(rows, RowCheckAsWritten(u))
    case Err(e) => Err(e)
    case Ok(qs) => Ok(Duplicates(u, rows) + qs)
  }

  function RowCheckAsWritten(u: User): Registro.Record -> Result<seq<Problem>, Calculadora.CallError> {
    x => RowProblemsAsWritten(u, x)
  }

  function UserCheckAsWritten(s: Store): User -> Result<seq<Problem>, Calculadora.CallError> {
    (u: User) => UserAsWritten(s, u)
  }

  /** The audit as written: the first row of a listed user whose leftover is not fixed raises. */
  function VerificarAsWritten(s: Store, users: seq<User>): Result<seq<Problem>, Calculadora.CallError> {
    TryConcat(users, UserCheckAsWritten(s))
  }

  // ---------------------------------------------------------------
  // Properties
  // ---------------------------------------------------------------

  /** The loops report exactly what their items report. */
  lemma {:induction false} ConcatMembers<T>(xs: seq<T>, f: T -> seq<Problem>)
    ensures forall p :: p in Concat(xs, f) <==> exists x :: x in xs && p in f(x)
  {
    if |xs| > 0 {
      var before := xs[..|xs| - 1];
      ConcatMembers(before, f);
      assert xs == before + [xs[|xs| - 1]];
    }
  }

  /**
   * A loop whose items can raise raises exactly when one of them does, with
   * that item's exception; when none does, it is the plain loop.
   */
  lemma {:induction false} TryConcatSpec<T>(xs: seq<T>, f: T -> Result<seq<Problem>, Calculadora.CallError>,
                                            g: T -> seq<Problem>)
    ensures TryConcat(xs, f).Err? <==> exists x :: x in xs && f(x).Err?
    ensures TryConcat(xs, f).Err? ==> exists x :: x in xs && f(x) == Err(TryConcat(xs, f).error)
    ensures (forall x :: x in xs ==> f(x) == Ok(g(x))) ==> TryConcat(xs, f) == Ok(Concat(xs, g))
  {
    if |xs| > 0 {
      var before := xs[..|xs| - 1];
      TryConcatSpec(before, f, g);
      assert xs == before + [xs[|xs| - 1]];
    }
  }

  /** The users table lists every user once. */
  predicate Distinct(users: seq<User>) {
    forall i, j :: 0 <= i < j < |users| ==> users[i] != users[j]
  }

  /**
   * The duplicates of one user's rows: a date held by `n` rows is reported
   * `n - 1` times.
   */
  lemma {:induction false} DuplicatesCount(u: User, rows: Store, d: Dates.Date)
    requires forall i :: 0 <= i < |rows| ==> rows[i].user == u
    ensures multiset(Duplicates(u, rows))[Problem(u, d, Duplicate)]
         == if CountOn(rows, u, d) == 0 then 0 else CountOn(rows, u, d) - 1
  {
    if |rows| > 0 {
      var before := rows[..|rows| - 1];
      var x := rows[|rows| - 1];
      DuplicatesCount(u, before, d);
      CountOnHas(before, u, d);
      if x.fecha == d {
        if d in Fechas(before) {
          var i :| 0 <= i < |before| && before[i].fecha == d;
          assert On(before[i], u, d);
        }
      }
    }
  }

  /** In a loop over distinct users whose items report only about themselves, a user's entries are its item's. */
  lemma {:induction false} ConcatOwnBlock(users: seq<User>, f: User -> seq<Problem>, u: User, q: Problem)
    requires Distinct(users) && u in users && q.user == u
    requires forall v, p :: p in f(v) ==> p.user == v
    ensures multiset(Concat(users, f))[q] == multiset(f(u))[q]
  {
    var before := users[..|users| - 1];
    var last := users[|users| - 1];
    assert users == before + [last];
    ConcatMembers(before, f);
    if last == u {
      assert u !in before;
      assert q !in Concat(before, f);
    } else {
      assert u in before;
      ConcatOwnBlock(before, f, u, q);
      assert q !in f(last);
    }
  }

  /**
   * Each date of a listed user that `n` rows share is reported as a
   * duplicate exactly `n - 1` times; a date with one row or none, never.
   */
  lemma DuplicatesReported(s: Store, users: seq<User>, u: User, d: Dates.Date)
    requires Distinct(users) && u in users
    ensures multiset(Verificar(s, users))[Problem(u, d, Duplicate)]
         == if CountOn(s, u, d) == 0 then 0 else CountOn(s, u, d) - 1
  {
    var q := Problem(u, d, Duplicate);
    ConcatOwnBlock(users, UserCheck(s), u, q);
    assert UserCheck(s)(u) == UserProblems(s, u);
    UserDuplicates(s, u, d);
  }

  /** The same count among one user's entries. */
  lemma UserDuplicates(s: Store, u: User, d: Dates.Date)
    ensures multiset(UserProblems(s, u))[Problem(u, d, Duplicate)]
         == if CountOn(s, u, d) == 0 then 0 else CountOn(s, u, d) - 1
  {
    hide RowsProblems;
    var rows := UserRows(s, u);
    forall i | 0 <= i < |rows| ensures rows[i].user == u {
      assert rows[i] in rows;
    }
    DuplicatesCount(u, rows, d);
    CountWithoutOthers(Duplicates(u, rows), RowsProblems(u, rows), Problem(u, d, Duplicate));
  }

  /** Appending entries that do not include `q` leaves the count of `q` alone. */
  lemma CountWithoutOthers(a: seq<Problem>, b: seq<Problem>, q: Problem)
    requires q !in b
    ensures multiset(a + b)[q] == multiset(a)[q]
  {
    assert multiset(a + b) == multiset(a) + multiset(b);
  }

  /** The expenses of a row, through the normalizer. */
  function Gastos(x: Registro.Record): real {
    Normalizar.Amount(x.food) + Normalizar.Amount(x.products) + Normalizar.Amount(x.savings)
  }

  /**
   * A row's problems stated independently of the checks: one for expenses
   * above the normalized budget, then one for a leftover that is not fixed
   * and differs from the leftover its normalized amounts call for.
   */
  lemma RowProblemsExactly(u: User, x: Registro.Record)
    ensures RowProblems(u, x)
         == (if Gastos(x) > Normalizar.Amount(x.budget)
             then [Problem(u, x.fecha, OverBudget(Gastos(x), Normalizar.Amount(x.budget)))] else [])
          + (if !x.leftoverFixed && Normalizar.Amount(x.leftover) != Reparador.Expected(x)
             then [Problem(u, x.fecha, WrongLeftover(Normalizar.Amount(x.leftover), Reparador.Expected(x)))] else [])
  {
    var v := ValoresOf(x);
    var amounts := AmountChecks(u, x, v);
    var leftover := if x.leftoverFixed then [] else LeftoverCheck(u, x, v, Esperado(v));
    assert RowProblems(u, x) == amounts + leftover + FlagChecks(u, x, v);
    assert amounts + leftover + [] == amounts + leftover;
    OverBudgetPart(u, x);
    WrongLeftoverPart(u, x);
  }

  /** Check 4 on a row, in the terms of `RowProblemsExactly`. */
  lemma OverBudgetPart(u: User, x: Registro.Record)
    ensures AmountChecks(u, x, ValoresOf(x))
         == if Gastos(x) > Normalizar.Amount(x.budget)
            then [Problem(u, x.fecha, OverBudget(Gastos(x), Normalizar.Amount(x.budget)))] else []
  {
  }

  /** Check 5 on a row, in the terms of `RowProblemsExactly`. */
  lemma WrongLeftoverPart(u: User, x: Registro.Record)
    ensures (if x.leftoverFixed then [] else LeftoverCheck(u, x, ValoresOf(x), Esperado(ValoresOf(x))))
         == if !x.leftoverFixed && Normalizar.Amount(x.leftover) != Reparador.Expected(x)
            then [Problem(u, x.fecha, WrongLeftover(Normalizar.Amount(x.leftover), Reparador.Expected(x)))] else []
  {
  }

  /** An entry other than a duplicate is in the list exactly when some row of a listed user reports it. */
  lemma VerificarMembers(s: Store, users: seq<User>, p: Problem)
    requires !p.kind.Duplicate?
    ensures p in Verificar(s, users) <==> p.user in users && exists x :: x in s && x.user == p.user && p in RowProblems(p.user, x)
  {
    ConcatMembers(users, UserCheck(s));
    UserMembers(s, p.user, p);
  }

  /** An entry other than a duplicate is among a user's entries exactly when one of the user's rows reports it. */
  lemma UserMembers(s: Store, u: User, p: Problem)
    requires !p.kind.Duplicate?
    ensures p in UserProblems(s, u) <==> p.user == u && exists x :: x in s && x.user == u && p in RowProblems(u, x)
  {
    ConcatMembers(UserRows(s, u), RowCheck(u));
  }

  /**
   * "Expenses above the budget" is reported, with the amounts, for exactly
   * the rows of listed users whose normalized expenses exceed their
   * normalized budget.
   */
  lemma OverBudgetReported(s: Store, users: seq<User>, u: User, d: Dates.Date, gastado: real, presupuesto: real)
    ensures Problem(u, d, OverBudget(gastado, presupuesto)) in Verificar(s, users)
        <==> u in users && exists x :: x in s && On(x, u, d) && Gastos(x) > Normalizar.Amount(x.budget)
                                      && gastado == Gastos(x) && presupuesto == Normalizar.Amount(x.budget)
  {
    var p := Problem(u, d, OverBudget(gastado, presupuesto));
    VerificarMembers(s, users, p);
    forall x | x in s && x.user == u
      ensures p in RowProblems(u, x) <==> (On(x, u, d) && Gastos(x) > Normalizar.Amount(x.budget)
                                           && gastado == Gastos(x) && presupuesto == Normalizar.Amount(x.budget))
    {
      RowProblemsExactly(u, x);
    }
  }

  /**
   * A wrong leftover is reported, with both amounts, for exactly the rows of
   * listed users whose leftover is not fixed and differs from the leftover
   * their amounts call for; a fixed leftover is never reported.
   */
  lemma WrongLeftoverReported(s: Store, users: seq<User>, u: User, d: Dates.Date, actual: real, esperado: real)
    ensures Problem(u, d, WrongLeftover(actual, esperado)) in Verificar(s, users)
        <==> u in users && exists x :: x in s && On(x, u, d) && !x.leftoverFixed
                                      && actual == Normalizar.Amount(x.leftover) && esperado == Reparador.Expected(x)
                                      && actual != esperado
  {
    var p := Problem(u, d, WrongLeftover(actual, esperado));
    VerificarMembers(s, users, p);
    forall x | x in s && x.user == u
      ensures p in RowProblems(u, x) <==> (On(x, u, d) && !x.leftoverFixed
                                           && actual == Normalizar.Amount(x.leftover) && esperado == Reparador.Expected(x)
                                           && actual != esperado)
    {
      RowProblemsExactly(u, x);
    }
  }

  /**
   * A row as `save` leaves it is within its budget, and its leftover
   * matches unless the day is not completed: such a day keeps a zero
   * leftover, which is reported whenever its amounts leave something over.
   */
  lemma StoredRowProblems(u: User, x: Registro.Record)
    requires Registro.Stored(x)
    ensures RowProblems(u, x)
         == if !x.leftoverFixed && !x.completed && Reparador.Expected(x) > 0.0
            then [Problem(u, x.fecha, WrongLeftover(0.0, Reparador.Expected(x)))] else []
  {
    RowProblemsExactly(u, x);
    Reparador.MoneyKept(x.budget);
    Reparador.MoneyKept(x.food);
    Reparador.MoneyKept(x.products);
    Reparador.MoneyKept(x.savings);
    Reparador.MoneyKept(x.leftover);
    Reparador.ExpectedIsComputed(x);
    assert Registro.Normalized(x) == x;
  }

  /**
   * On a stored row whose leftover is not fixed, the audit reports a wrong
   * leftover exactly when the repair's third pass would rewrite it.
   */
  lemma ReportedIffRepaired(u: User, x: Registro.Record)
    requires Registro.Stored(x) && !x.leftoverFixed
    ensures RowProblems(u, x) != [] <==> Reparador.Revise(x).sobrante
  {
    StoredRowProblems(u, x);
    Reparador.ReviseSpec(x);
    Reparador.MoneyKept(x.leftover);
  }

  // ---------------------------------------------------------------
  // Order of the list
  // ---------------------------------------------------------------

  /** The place of `u` in the users table. */
  function Position(users: seq<User>, u: User): (k: nat)
    requires u in users
    ensures k < |users| && users[k] == u
  {
    if users[|users| - 1] == u then |users| - 1 else Position(users[..|users| - 1], u)
  }

  /** Entries of one user come in one block, and blocks follow the users table. */
  predicate Grouped(ps: seq<Problem>, users: seq<User>) {
    forall i, j :: 0 <= i < j < |ps| && ps[i].user in users && ps[j].user in users
                   ==> Position(users, ps[i].user) <= Position(users, ps[j].user)
  }

  /** Duplicates come first; each part is ordered by date. */
  function Phase(k: Kind): nat {
    if k.Duplicate? then 0 else 1
  }

  predicate InOrder(a: Problem, b: Problem) {
    Phase(a.kind) < Phase(b.kind) || (Phase(a.kind) == Phase(b.kind) && a.fecha <= b.fecha)
  }

  predicate OrderedWithinUsers(ps: seq<Problem>) {
    forall i, j :: 0 <= i < j < |ps| && ps[i].user == ps[j].user ==> InOrder(ps[i], ps[j])
  }

  predicate ByDate(ps: seq<Problem>) {
    forall i, j :: 0 <= i < j < |ps| ==> ps[i].fecha <= ps[j].fecha
  }

  /** An ascending table's dates are bounded by its last row's. */
  lemma AscendingBound(rows: Store)
    requires Orden.Ascending(rows) && |rows| > 0
    ensures forall d :: d in Fechas(rows) ==> d <= rows[|rows| - 1].fecha
  {
  }

  /** A loop over ascending rows whose items report on their own row's date reports in date order. */
  lemma {:induction false} ConcatByDate(rows: Store, f: Registro.Record -> seq<Problem>)
    requires Orden.Ascending(rows)
    requires forall x, p :: p in f(x) ==> p.fecha == x.fecha
    ensures forall p :: p in Concat(rows, f) ==> p.fecha in Fechas(rows)
    ensures ByDate(Concat(rows, f))
  {
    if |rows| > 0 {
      var before := rows[..|rows| - 1];
      var x := rows[|rows| - 1];
      ConcatByDate(before, f);
      AscendingBound(rows);
      assert Fechas(before) <= Fechas(rows);
      var a := Concat(before, f);
      var b := f(x);
      var ab: seq<Problem> := a + b;
      forall i, j | 0 <= i < j < |ab|
        ensures ab[i].fecha <= ab[j].fecha
      {
        if i < |a| && j >= |a| {
          assert a[i] in a && b[j - |a|] in b;
        } else if i >= |a| {
          assert b[i - |a|] in b && b[j - |a|] in b;
        }
      }
    }
  }

  /** The duplicates of ascending rows come in date order. */
  lemma {:induction false} DuplicatesByDate(u: User, rows: Store)
    requires Orden.Ascending(rows)
    ensures forall p :: p in Duplicates(u, rows) ==> p.fecha in Fechas(rows)
    ensures ByDate(Duplicates(u, rows))
  {
    if |rows| > 0 {
      var before := rows[..|rows| - 1];
      var x := rows[|rows| - 1];
      DuplicatesByDate(u, before);
      AscendingBound(rows);
      assert Fechas(before) <= Fechas(rows);
    }
  }

  /** One user's entries: the duplicates by date, then the other entries by date. */
  lemma UserProblemsOrdered(s: Store, u: User)
    ensures OrderedWithinUsers(UserProblems(s, u))
  {
    var rows := UserRows(s, u);
    DuplicatesByDate(u, rows);
    ConcatByDate(rows, RowCheck(u));
    PhasesInOrder(Duplicates(u, rows), RowsProblems(u, rows));
  }

  /** Duplicates in date order followed by other entries in date order are in order. */
  lemma PhasesInOrder(a: seq<Problem>, b: seq<Problem>)
    requires ByDate(a) && ByDate(b)
    requires forall p :: p in a ==> p.kind.Duplicate?
    requires forall p :: p in b ==> !p.kind.Duplicate?
    ensures OrderedWithinUsers(a + b)
  {
    var ab: seq<Problem> := a + b;
    forall i, j | 0 <= i < j < |ab|
      ensures InOrder(ab[i], ab[j])
    {
      if j < |a| {
        assert a[i] in a && a[j] in a;
      } else if i < |a| {
        assert a[i] in a && b[j - |a|] in b;
      } else {
        assert b[i - |a|] in b && b[j - |a|] in b;
      }
    }
  }


  /**
   * A loop over distinct users whose items report only about themselves,
   * each in order, lists its entries grouped by user in the users' order.
   */
  lemma {:induction false} ConcatOrdered(users: seq<User>, f: User -> seq<Problem>)
    requires Distinct(users)
    requires forall v, p :: p in f(v) ==> p.user == v
    requires forall v :: OrderedWithinUsers(f(v))
    ensures Grouped(Concat(users, f), users)
    ensures OrderedWithinUsers(Concat(users, f))
  {
    if |users| > 0 {
      var before := users[..|users| - 1];
      var u := users[|users| - 1];
      ConcatOrdered(before, f);
      ConcatMembers(before, f);
      var a := Concat(before, f);
      var b := f(u);
      var ab: seq<Problem> := a + b;
      assert u !in before;
      forall p | p in a
        ensures p.user in before
      {
        var i :| 0 <= i < |before| && p in f(before[i]);
      }
      forall i, j | 0 <= i < j < |ab| && ab[i].user in users && ab[j].user in users
        ensures Position(users, ab[i].user) <= Position(users, ab[j].user)
      {
        if j < |a| {
          assert a[i] in a && a[j] in a;
        } else if i < |a| {
          assert a[i] in a && b[j - |a|] in b;
        } else {
          assert b[i - |a|] in b && b[j - |a|] in b;
        }
      }
      forall i, j | 0 <= i < j < |ab| && ab[i].user == ab[j].user
        ensures InOrder(ab[i], ab[j])
      {
        if j < |a| {
          assert a[i] in a && a[j] in a;
        } else if i >= |a| {
          assert b[i - |a|] in b && b[j - |a|] in b;
        }
      }
    }
  }

  /**
   * The list is grouped by user in the order of the users table, and within
   * a user the duplicates come first, by date, then the row problems, by
   * date.
   */
  lemma VerificarOrdered(s: Store, users: seq<User>)
    requires Distinct(users)
    ensures Grouped(Verificar(s, users), users)
    ensures OrderedWithinUsers(Verificar(s, users))
  {
    forall v
      ensures OrderedWithinUsers(UserCheck(s)(v))
    {
      UserProblemsOrdered(s, v);
    }
    ConcatOrdered(users, UserCheck(s));
  }

  // ---------------------------------------------------------------
  // As written
  // ---------------------------------------------------------------

  /** A row as written raises exactly when its leftover is not fixed, and otherwise reports as corrected. */
  lemma RowAsWritten(u: User, x: Registro.Record)
    ensures !x.leftoverFixed ==> RowProblemsAsWritten(u, x) == Err(Calculadora.Arity(4))
    ensures x.leftoverFixed ==> RowProblemsAsWritten(u, x) == Ok(RowProblems(u, x))
  {
    var v := ValoresOf(x);
    assert AmountChecks(u, x, v) + [] + FlagChecks(u, x, v) == AmountChecks(u, x, v) + FlagChecks(u, x, v);
  }

  /**
   * One user as written raises TypeError exactly when one of the user's
   * rows has a leftover that is not fixed; otherwise it reports as corrected.
   */
  lemma UserAsWrittenSpec(s: Store, u: User)
    ensures UserAsWritten(s, u).Err? <==> exists x :: x in s && x.user == u && !x.leftoverFixed
    ensures UserAsWritten(s, u).Err? ==> UserAsWritten(s, u).error == Calculadora.Arity(4)
    ensures UserAsWritten(s, u).Ok? ==> UserAsWritten(s, u) == Ok(UserProblems(s, u))
  {
    var rows := UserRows(s, u);
    RowsAsWritten(u, rows);
    if exists x :: x in s && x.user == u && !x.leftoverFixed {
      var x :| x in s && x.user == u && !x.leftoverFixed;
      assert x in rows;
    }
  }

  /** The row loop as written raises exactly when a row's leftover is not fixed. */
  lemma RowsAsWritten(u: User, rows: Store)
    ensures TryConcat(rows, RowCheckAsWritten(u)).Err? <==> exists x :: x in rows && !x.leftoverFixed
    ensures TryConcat(rows, RowCheckAsWritten(u)).Err? ==> TryConcat(rows, RowCheckAsWritten(u)).error == Calculadora.Arity(4)
    ensures TryConcat(rows, RowCheckAsWritten(u)).Ok? ==> TryConcat(rows, RowCheckAsWritten(u)) == Ok(RowsProblems(u, rows))
  {
    RowChecksAsWritten(u);
    TryConcatSpec(rows, RowCheckAsWritten(u), RowCheck(u));
  }

  /** Every row check as written raises exactly when the leftover is not fixed. */
  lemma RowChecksAsWritten(u: User)
    ensures forall x :: RowCheckAsWritten(u)(x) == (if x.leftoverFixed then Ok(RowCheck(u)(x)) else Err(Calculadora.Arity(4)))
  {
    forall x ensures RowCheckAsWritten(u)(x) == (if x.leftoverFixed then Ok(RowCheck(u)(x)) else Err(Calculadora.Arity(4))) {
      RowAsWritten(u, x);
    }
  }

  /**
   * As written, the audit raises TypeError as soon as a listed user has a
   * row whose leftover is not fixed; when none has, it returns what the
   * corrected audit returns.
   */
  lemma VerificarAsWrittenSpec(s: Store, users: seq<User>)
    ensures VerificarAsWritten(s, users).Err?
        <==> exists x :: x in s && x.user in users && !x.leftoverFixed
    ensures VerificarAsWritten(s, users).Err? ==> VerificarAsWritten(s, users).error == Calculadora.Arity(4)
    ensures VerificarAsWritten(s, users).Ok? ==> VerificarAsWritten(s, users) == Ok(Verificar(s, users))
  {
    forall v ensures UserCheckAsWritten(s)(v).Err? ==> UserCheckAsWritten(s)(v).error == Calculadora.Arity(4)
      ensures UserCheckAsWritten(s)(v).Ok? ==> UserCheckAsWritten(s)(v) == Ok(UserCheck(s)(v))
      ensures UserCheckAsWritten(s)(v).Err? <==> exists x :: x in s && x.user == v && !x.leftoverFixed
    {
      UserAsWrittenSpec(s, v);
    }
    TryConcatSpec(users, UserCheckAsWritten(s), UserCheck(s));
    if exists x :: x in s && x.user in users && !x.leftoverFixed {
      var x :| x in s && x.user in users && !x.leftoverFixed;
      var i :| 0 <= i < |users| && users[i] == x.user;
    }
  }
}
