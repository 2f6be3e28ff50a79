/**
 * `diagnosticar_registros`: counts the records in scope and the problems
 * it detects in them: a date in the future or before the year 2000, a
 * monetary field that is not finite, negative, or has more than two decimal
 * places, and a negative leftover.  It changes nothing.
 */
module Diagnostico {
  import opened Wrappers
  import opened Decimals
  import Dates
  import Registro
  import opened Almacen

  /** The answer: `total_registros` and `errores_detectados`. */
  datatype Diagnosis = Diagnosis(totalRegistros: nat, erroresDetectados: nat)

  /** `filter(user=usuario)` when a user is given, every record otherwise. */
  function Scope(s: Store, usuario: Option<User>): (r: Store)
    ensures usuario.None? ==> r == s
    ensures usuario.Some? ==> forall x :: x in r <==> x in s && x.user == usuario.value
  {
    if usuario.Some? then OfUserMembers(s, usuario.value); OfUser(s, usuario.value) else s
  }

  /** `campos_monetarios`, in the order the loop visits them. */
  function Campos(x: Registro.Record): seq<Value> {
    [x.food, x.products, x.savings, x.budget, x.leftover]
  }

  /** Check 1: a date after today or in a year before 2000. */
  function DateErrors(fecha: Dates.Date, hoy: Dates.Date): (n: nat)
    requires Dates.ValidDate(fecha)
  {
    if fecha > hoy || Dates.YearOf(fecha) < 2000 then 1 else 0
  }

  /**
   * Check 2 on one field: nothing for a value that is not a Decimal (None
   * included); one for NaN or an infinity, whose other checks are skipped;
   * otherwise one if negative and one if `quantize(Decimal("0.01"))` changes it.
   */
  function FieldErrors(v: Value): (n: nat)
    ensures n <= 2
    ensures n == 2 ==> v.Num? && v.d.Fin? && v.d.v < 0.0 && !IsQuantized(v.d.v)
  {
    match v
    case Num(d) =>
      if !d.Fin? then 1
      else (if d.v < 0.0 then 1 else 0) + (if IsQuantized(d.v) then 0 else 1)
    case _ => 0
  }

  /** Check 2 on the five fields in turn. */
  function FieldsErrors(vs: seq<Value>): (n: nat)
    ensures n <= 2 * |vs|
  {
    if |vs| == 0 then 0 else FieldsErrors(vs[..|vs| - 1]) + FieldErrors(vs[|vs| - 1])
  }

  /** The five fields' problems are the sum of each field's. */
  lemma FieldsErrorsOfFive(x: Registro.Record)
    ensures FieldsErrors(Campos(x)) == FieldErrors(x.food) + FieldErrors(x.products) + FieldErrors(x.savings)
                                      + FieldErrors(x.budget) + FieldErrors(x.leftover)
  {
    var c := Campos(x);
    assert FieldsErrors(c) == FieldsErrors(c[..4]) + FieldErrors(x.leftover);
    assert c[..4][..3] == c[..3];
    assert FieldsErrors(c[..4]) == FieldsErrors(c[..3]) + FieldErrors(x.budget);
    assert c[..3][..2] == c[..2];
    assert FieldsErrors(c[..3]) == FieldsErrors(c[..2]) + FieldErrors(x.savings);
    assert c[..2][..1] == c[..1];
    assert FieldsErrors(c[..2]) == FieldsErrors(c[..1]) + FieldErrors(x.products);
    assert c[..1][..0] == [];
    assert FieldsErrors(c[..1]) == FieldErrors(x.food);
  }

  /** Check 3: a Decimal leftover below zero; comparing NaN raises InvalidOperation. */
  function LeftoverErrors(v: Value): (r: Result<nat, DecimalError>)
    ensures r.Err? <==> v == Num(NaN)
    ensures r.Err? ==> r.error == InvalidOperation
    ensures r.Ok? ==> r.value <= 1
  {
    match v
    case Num(d) =>
      var ordering :- Compare(d, 0.0);
      Ok(if ordering == Less then 1 else 0)
    case _ => Ok(0)
  }

  /** The problems of one record, or the exception its leftover check raises. */
  function RecordErrors(x: Registro.Record, hoy: Dates.Date): (r: Result<nat, DecimalError>)
    requires Dates.ValidDate(x.fecha)
    ensures r.Err? <==> x.leftover == Num(NaN)
    ensures r.Err? ==> r.error == InvalidOperation
    ensures r.Ok? ==> r.value <= 12
  {
    var leftover :- LeftoverErrors(x.leftover);
    Ok(DateErrors(x.fecha, hoy) + FieldsErrors(Campos(x)) + leftover)
  }

  /** Every date read from the table is a date. */
  predicate ValidDates(s: Store) {
    forall i :: 0 <= i < |s| ==> Dates.ValidDate(s[i].fecha)
  }

  /** The problems of all records, or the first exception. */
  function Errors(s: Store, hoy: Dates.Date): (r: Result<nat, DecimalError>)
    requires ValidDates(s)
  {
    if |s| == 0 then Ok(0)
    else
      var before :- Errors(s[..|s| - 1], hoy);
      var last :- RecordErrors(s[|s| - 1], hoy);
      Ok(before + last)
  }

  /** One more record: its problems are added, or its exception is raised. */
  lemma ErrorsStep(s: Store, k: nat, hoy: Dates.Date, e: nat)
    requires ValidDates(s) && k < |s|
    requires ValidDates(s[..k]) && Errors(s[..k], hoy) == Ok(e) && RecordErrors(s[k], hoy).Ok?
    ensures ValidDates(s[..k + 1])
    ensures Errors(s[..k + 1], hoy) == Ok(e + RecordErrors(s[k], hoy).value)
  {
    hide RecordErrors;
    assert s[..k + 1][..k] == s[..k];
  }

  /**
   * The loop of `diagnosticar_registros` over the records in scope: it
   * raises exactly when one of them has a NaN leftover; otherwise it sums
   * their problems.
   */
  method CountErrors(registros: Store, hoy: Dates.Date) returns (r: Result<nat, DecimalError>)
    requires ValidDates(registros)
    ensures r.Err? <==> exists x :: x in registros && x.leftover == Num(NaN)
    ensures r.Err? ==> r.error == InvalidOperation
    ensures r.Ok? ==> Errors(registros, hoy) == Ok(r.value) && r.value <= 12 * |registros|
  {
    var errores := 0;
    var k := 0;
    assert Errors(registros[..k], hoy) == Ok(errores);
    hide *;
    while k < |registros|
      invariant k <= |registros|
      invariant ValidDates(registros[..k]) && Errors(registros[..k], hoy) == Ok(errores)
      invariant errores <= 12 * k
    {
      var n := RecordErrors(registros[k], hoy);
      if n.Err? {
        assert registros[k] in registros;
        return Err(n.error);
      }
      ErrorsStep(registros, k, hoy, errores);
      errores := errores + n.value;
      k := k + 1;
    }
    assert registros[..k] == registros;
    ErrorsOkIff(registros, hoy);
    return Ok(errores);
  }

  /** The loop raises somewhere exactly when some record has a NaN leftover. */
  lemma {:induction false} ErrorsOkIff(s: Store, hoy: Dates.Date)
    requires ValidDates(s)
    ensures Errors(s, hoy).Ok? <==> forall i :: 0 <= i < |s| ==> s[i].leftover != Num(NaN)
  {
    if |s| > 0 {
      var before := s[..|s| - 1];
      assert forall i :: 0 <= i < |before| ==> before[i] == s[i];
      ErrorsOkIff(before, hoy);
    }
  }

  /**
   * `diagnosticar_registros(usuario)` on the day `hoy`.  It raises exactly
   * when a record in scope has a NaN leftover; otherwise it reports the
   * number of records in scope and the sum of their problems.
   */
  method DiagnosticarRegistros(s: Store, usuario: Option<User>, hoy: Dates.Date)
    returns (r: Result<Diagnosis, DecimalError>)
    requires ValidDates(s)
    ensures r.Err? <==> exists x :: x in Scope(s, usuario) && x.leftover == Num(NaN)
    ensures r.Err? ==> r.error == InvalidOperation
    ensures r.Ok? ==> r.value.totalRegistros == |Scope(s, usuario)|
    ensures r.Ok? ==> Errors(Scope(s, usuario), hoy) == Ok(r.value.erroresDetectados)
    ensures r.Ok? ==> r.value.erroresDetectados <= 12 * r.value.totalRegistros
  {
    var registros := Scope(s, usuario);
    assert ValidDates(registros) by {
      forall i | 0 <= i < |registros| ensures Dates.ValidDate(registros[i].fecha) {
        assert registros[i] in s;
      }
    }
    var errores :- CountErrors(registros, hoy);
    return Ok(Diagnosis(|registros|, errores));
  }

  // ---------------------------------------------------------------
  // Properties
  // ---------------------------------------------------------------

  /** The first day of the year 2000. */
  const Y2K: Dates.Date := Dates.Ordinal(Dates.Ymd(2000, 1, 1))

  /** "Year before 2000" is "before the first of January 2000". */
  lemma YearBefore2000(n: Dates.Date)
    requires Dates.ValidDate(n)
    ensures Dates.YearOf(n) < 2000 <==> n < Y2K
  {
    var (y, k) := Dates.YearAndDay(n, Dates.MinYear);
    assert Dates.DaysBeforeYear(y) + k == n;
    if y < 2000 {
      Dates.DaysBeforeYearMonotone(y + 1, 2000);
      assert Dates.DaysBeforeYear(y + 1) == Dates.DaysBeforeYear(y) + Dates.DaysInYear(y);
    } else {
      Dates.DaysBeforeYearMonotone(2000, y);
    }
  }

  /** A record dated from 2000-01-01 to today has no date problem; any other date has one. */
  lemma DateErrorsExactly(fecha: Dates.Date, hoy: Dates.Date)
    requires Dates.ValidDate(fecha)
    ensures DateErrors(fecha, hoy) == if Y2K <= fecha <= hoy then 0 else 1
  {
    YearBefore2000(fecha);
  }

  /** The count splits over the records: it is additive, and raises if either part raises. */
  lemma {:induction false} ErrorsAppend(a: Store, b: Store, hoy: Dates.Date)
    requires ValidDates(a) && ValidDates(b)
    ensures ValidDates(a + b)
    ensures Errors(a + b, hoy).Err? <==> Errors(a, hoy).Err? || Errors(b, hoy).Err?
    ensures Errors(a + b, hoy).Ok? ==> Errors(a + b, hoy).value == Errors(a, hoy).value + Errors(b, hoy).value
    decreases |b|
  {
    assert ValidDates(a + b) by {
      forall i | 0 <= i < |a + b| ensures Dates.ValidDate((a + b)[i].fecha) {
        if i >= |a| {
          assert (a + b)[i] == b[i - |a|];
        }
      }
    }
    if |b| == 0 {
      assert a + b == a;
    } else {
      var b' := b[..|b| - 1];
      assert (a + b)[..|a + b| - 1] == a + b';
      assert (a + b)[|a + b| - 1] == b[|b| - 1];
      ErrorsAppend(a, b', hoy);
    }
  }

  /**
   * A negative finite leftover is counted twice over a zero one: once as a
   * negative field and once by the leftover check, plus once more when it
   * has more than two decimal places.
   */
  lemma NegativeLeftoverCountedTwice(x: Registro.Record, hoy: Dates.Date, v: real)
    requires Dates.ValidDate(x.fecha) && v < 0.0 && x.leftover == Num(Fin(v))
    ensures RecordErrors(x, hoy).Ok? && RecordErrors(x.(leftover := Zero), hoy).Ok?
    ensures RecordErrors(x, hoy).value
         == RecordErrors(x.(leftover := Zero), hoy).value + (if IsQuantized(v) then 2 else 3)
  {
    var zero := x.(leftover := Zero);
    assert IsQuantized(0.0);
    assert Campos(x)[..4] == Campos(zero)[..4];
  }

  /** An infinite leftover: positive infinity counts once, negative infinity twice; NaN raises. */
  lemma InfiniteLeftover(x: Registro.Record, hoy: Dates.Date, negative: bool)
    requires Dates.ValidDate(x.fecha) && x.leftover == Num(Inf(negative))
    ensures RecordErrors(x, hoy).Ok? && RecordErrors(x.(leftover := Zero), hoy).Ok?
    ensures RecordErrors(x, hoy).value
         == RecordErrors(x.(leftover := Zero), hoy).value + (if negative then 2 else 1)
  {
    var zero := x.(leftover := Zero);
    assert IsQuantized(0.0);
    assert Campos(x)[..4] == Campos(zero)[..4];
  }

  /** The number of amounts of a record with more than two decimal places. */
  function Unquantized(x: Registro.Record): (n: nat)
    requires Registro.AmountsNormalized(x) && IsMoney(x.leftover)
  {
    MoneyErrors(x.food) + MoneyErrors(x.products) + MoneyErrors(x.savings) + MoneyErrors(x.budget)
    + MoneyErrors(x.leftover)
  }

  /** An amount as `save` leaves it counts only when it has more than two decimal places. */
  function MoneyErrors(v: Value): (n: nat)
    requires IsMoney(v)
    ensures n == FieldErrors(v)
    ensures n <= 1
  {
    if IsQuantized(AmountOf(v)) then 0 else 1
  }

  /**
   * A record whose five amounts are finite and non-negative, as `save`
   * leaves every record, has no problem but its date and the amounts with
   * more than two decimal places, which the normalizer does not round.
   */
  lemma StoredRecordErrors(x: Registro.Record, hoy: Dates.Date)
    requires Registro.AmountsNormalized(x) && IsMoney(x.leftover) && Dates.ValidDate(x.fecha)
    ensures RecordErrors(x, hoy) == Ok((if Y2K <= x.fecha <= hoy then 0 else 1) + Unquantized(x))
  {
    DateErrorsExactly(x.fecha, hoy);
    StoredFieldsErrors(x);
    MoneyLeftoverErrors(x.leftover);
  }

  /** The fields check on a record as `save` leaves it counts only the unquantized amounts. */
  lemma StoredFieldsErrors(x: Registro.Record)
    requires Registro.AmountsNormalized(x) && IsMoney(x.leftover)
    ensures FieldsErrors(Campos(x)) == Unquantized(x)
  {
    FieldsErrorsOfFive(x);
  }

  /** A finite non-negative leftover passes the leftover check. */
  lemma MoneyLeftoverErrors(v: Value)
    requires IsMoney(v)
    ensures LeftoverErrors(v) == Ok(0)
  {
  }
}
