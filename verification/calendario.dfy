/**
 * The calendar: setting the start date once (`configurar_calendario`) and
 * the month view (`calendario_ver`), which first backfills the days up to
 * today and then lists the month's days in range with their records.
 */
module Calendario {
  import opened Wrappers
  import opened Decimals
  import Dates
  import Registro
  import Configuracion
  import opened Almacen
  import Servicios
  import Pendientes

  // ---------------------------------------------------------------
  // configurar_calendario
  // ---------------------------------------------------------------

  /** Where `configurar_calendario` sends the user. */
  datatype Setup =
    | NoConfig           // no configuration row: error, to the dashboard
    | AlreadyConfigured  // start date set before: to the calendar
    | HasRecords         // the user already has records: error, to the dashboard
    | MissingDate        // POST without a date: back to the form
    | BadFormat          // not an ISO date: back to the form
    | AfterToday         // a start after today: back to the form
    | Before2000         // a start before the year 2000: back to the form
    | Configured         // saved: to the calendar
    | ShowForm           // GET

  /** The earliest start date the view accepts. */
  const FirstAllowedYear: int := 2000

  /** Some record belongs to `u`. */
  predicate HasAnyRecord(s: Store, u: User) {
    exists i :: 0 <= i < |s| && s[i].user == u
  }

  /**
   * `configurar_calendario(request)` on the day `hoy`; `post` is `None` for
   * a GET and otherwise the value of `fecha_inicio`, itself `None` when the
   * key is missing.
   */
  function ConfigurarCalendario(configs: Configs, store: Store, u: User, hoy: Dates.Date,
                                post: Option<Option<string>>): (r: (Setup, Configs))
    ensures r.0 != Configured ==> r.1 == configs
    ensures r.0 == Configured <==>
              u in configs && configs[u].start.None? && !HasAnyRecord(store, u) && post.Some?
              && post.value.Some? && Dates.ParseIso(post.value.value).Some?
              && Dates.Ordinal(Dates.ParseIso(post.value.value).value) <= hoy
              && Dates.ParseIso(post.value.value).value.year >= FirstAllowedYear
    ensures r.0 == Configured ==>
              var t := Dates.ParseIso(post.value.value).value;
              r.1 == configs[u := Configuracion.Save(configs[u].(start := Some(Dates.Ordinal(t))))]
  {
    if u !in configs then (NoConfig, configs)
    else
      var c := configs[u];
      if c.start.Some? then (AlreadyConfigured, configs)
      else if HasAnyRecord(store, u) then (HasRecords, configs)
      else
        match post
        case None => (ShowForm, configs)
        case Some(field) =>
          if field.None? || field.value == "" then (MissingDate, configs)
          else
            match Dates.ParseIso(field.value)
            case None => (BadFormat, configs)
            case Some(t) =>
              var fecha := Dates.Ordinal(t);
              if fecha > hoy then (AfterToday, configs)
              else if t.year < FirstAllowedYear then (Before2000, configs)
              else (Configured, configs[u := Configuracion.Save(c.(start := Some(fecha)))])
  }

  /**
   * The start date is set once: after a successful configuration the view
   * refuses any further change, whatever is posted.
   */
  lemma StartIsSetOnce(configs: Configs, store: Store, u: User, hoy: Dates.Date,
                       post: Option<Option<string>>, store': Store, hoy': Dates.Date, post': Option<Option<string>>)
    requires ConfigurarCalendario(configs, store, u, hoy, post).0 == Configured
    ensures var cs := ConfigurarCalendario(configs, store, u, hoy, post).1;
            ConfigurarCalendario(cs, store', u, hoy', post') == (AlreadyConfigured, cs)
  {
  }

  /**
   * A successful configuration stores a start date from the year 2000 up to
   * today and, for a configuration already saved, changes nothing else.
   */
  lemma ConfiguredStart(configs: Configs, store: Store, u: User, hoy: Dates.Date, post: Option<Option<string>>)
    requires ConfigsSaved(configs)
    requires ConfigurarCalendario(configs, store, u, hoy, post).0 == Configured
    ensures var cs := ConfigurarCalendario(configs, store, u, hoy, post).1;
            var d := Dates.Ordinal(Dates.ParseIso(post.value.value).value);
            cs == configs[u := configs[u].(start := Some(d))]
            && Dates.Ordinal(Dates.Ymd(FirstAllowedYear, 1, 1)) <= d <= hoy
  {
    var c := configs[u];
    var t := Dates.ParseIso(post.value.value).value;
    Configuracion.SaveKeepsSaved(c.(start := Some(Dates.Ordinal(t))));
    FirstOfYearIsEarliest(t);
  }

  /** No day of a year comes before its first of January. */
  lemma FirstOfYearIsEarliest(t: Dates.Ymd)
    requires Dates.ValidYmd(t) && t.year >= FirstAllowedYear
    ensures Dates.Ordinal(Dates.Ymd(FirstAllowedYear, 1, 1)) <= Dates.Ordinal(t)
  {
    Dates.DaysBeforeYearMonotone(FirstAllowedYear, t.year);
  }

  // ---------------------------------------------------------------
  // calendario_ver: query parameters and month navigation
  // ---------------------------------------------------------------

  /** `int(s)` for a string of an optional sign and decimal digits; `None` is the ValueError. */
  function ParseInt(s: string): (r: Option<int>)
    ensures r.Some? && |s| > 0 && IsDigit(s[0]) ==> r.value >= 0
  {
    if |s| > 1 && s[0] == '-' && AllDigits(s[1..]) then Some(-(DigitsValue(s[1..]) as int))
    else if |s| > 1 && s[0] == '+' && AllDigits(s[1..]) then Some(DigitsValue(s[1..]) as int)
    else if |s| > 0 && AllDigits(s) then Some(DigitsValue(s) as int)
    else None
  }

  /** `int(str(n)) == n`: the text Python prints for an integer reads back as it. */
  lemma ParseIntRoundTrip(n: int)
    ensures ParseInt(IntToString(n)) == Some(n)
  {
    var digits := NatToString(if n < 0 then -n else n);
    NatToStringValue(if n < 0 then -n else n);
    if n < 0 {
      assert ("-" + digits)[1..] == digits;
    }
  }

  /** A leading `+` is accepted and changes nothing. */
  lemma ParseIntPlusSign(n: nat)
    ensures ParseInt("+" + NatToString(n)) == Some(n)
  {
    var digits := NatToString(n);
    NatToStringValue(n);
    assert ("+" + digits)[1..] == digits;
  }

  /** An empty string, a bare sign and a sign twice over are all `ValueError`s. */
  lemma ParseIntRejects(n: nat)
    ensures ParseInt("") == None && ParseInt("-") == None && ParseInt("+") == None
    ensures ParseInt("--" + NatToString(n)) == None && ParseInt("+-" + NatToString(n)) == None
  {
    assert !IsDigit(("--" + NatToString(n))[1]);
    assert !IsDigit(("+-" + NatToString(n))[1]);
  }

  /**
   * The year and month the view shows before wrapping: a missing parameter
   * is today's, and an unreadable one sends both back to today's.
   */
  function Requested(yearParam: Option<string>, monthParam: Option<string>, today: Dates.Ymd): (r: (int, int))
    ensures yearParam.None? && monthParam.None? ==> r == (today.year, today.month)
    ensures ((yearParam.Some? && ParseInt(yearParam.value).None?)
             || (monthParam.Some? && ParseInt(monthParam.value).None?)) ==> r == (today.year, today.month)
  {
    var y := if yearParam.None? then Some(today.year) else ParseInt(yearParam.value);
    var m := if monthParam.None? then Some(today.month) else ParseInt(monthParam.value);
    if y.Some? && m.Some? then (y.value, m.value) else (today.year, today.month)
  }

  /** `mostrar_prev`: the previous month is not before the start's month. */
  predicate ShowPrev(prev: (int, int), inicio: Dates.Ymd) {
    prev.0 > inicio.year || (prev.0 == inicio.year && prev.1 >= inicio.month)
  }

  /** Months counted from year 0, so that month order is integer order. */
  function MonthIndex(y: int, m: int): int {
    y * 12 + m
  }

  /** The back arrow shows exactly when the month on screen is later than the start's month. */
  lemma ShowPrevIsLaterMonth(y: int, m: int, inicio: Dates.Ymd)
    requires 1 <= m <= 12 && 1 <= inicio.month <= 12
    ensures ShowPrev(Dates.PrevMonth(y, m), inicio) <==> MonthIndex(y, m) > MonthIndex(inicio.year, inicio.month)
  {
  }

  // ---------------------------------------------------------------
  // calendario_ver: the records of the month
  // ---------------------------------------------------------------

  /** The row at the date's ordinal, if it falls in month `(y, m)`; stored dates are ordinals from 1. */
  predicate InMonth(d: Dates.Date, y: int, m: int) {
    d >= 1 && Dates.FromOrdinal(d).year == y && Dates.FromOrdinal(d).month == m
  }

  /**
   * `registros_mes`: the dictionary from date to row built from the user's
   * rows of the month; a later row replaces an earlier one of the same date.
   */
  function RegistrosMes(s: Store, u: User, y: int, m: int): (r: map<Dates.Date, Registro.Record>)
    ensures forall d :: d in r ==> InMonth(d, y, m) && On(r[d], u, d)
  {
    if |s| == 0 then map[]
    else
      var before := RegistrosMes(s[..|s| - 1], u, y, m);
      var x := s[|s| - 1];
      if x.user == u && InMonth(x.fecha, y, m) then before[x.fecha := x] else before
  }

  /** Looking a day of the month up in `registros_mes` finds the last row of that day. */
  lemma {:induction false} MonthLookup(s: Store, u: User, y: int, m: int, d: Dates.Date)
    requires InMonth(d, y, m)
    ensures d in RegistrosMes(s, u, y, m) <==> LastOn(s, u, d).Some?
    ensures d in RegistrosMes(s, u, y, m) ==> RegistrosMes(s, u, y, m)[d] == LastOn(s, u, d).value
  {
    if |s| > 0 {
      MonthLookup(s[..|s| - 1], u, y, m, d);
    }
  }

  /** One day of the month grid. */
  datatype DayCell = DayCell(fecha: Dates.Date, registro: Option<Registro.Record>, completado: bool)

  /** The cell the view builds for the day `d`. */
  predicate CellFor(c: DayCell, s: Store, u: User, d: Dates.Date) {
    c.fecha == d && c.registro == LastOn(s, u, d)
    && c.completado == (c.registro.Some? && c.registro.value.completed)
  }

  function Max(a: int, b: int): int { if a < b then b else a }
  function Min(a: int, b: int): int { if a < b then a else b }

  /**
   * The loop over the days of the month: the days from `inicio` to `hoy`,
   * in order, each with its row from `registros_mes`.
   */
  method DiasDelMes(s: Store, u: User, inicio: Dates.Date, hoy: Dates.Date, y: int, m: int)
    returns (dias: seq<DayCell>)
    requires Dates.YearRepresentable(y) && 1 <= m <= 12
    ensures var lo := Max(Dates.MonthFirst(y, m), inicio);
            var hi := Min(Dates.MonthLast(y, m), hoy);
            |dias| == Pendientes.Span(lo, hi)
            && forall i :: 0 <= i < |dias| ==> CellFor(dias[i], s, u, lo + i)
  {
    var registrosMes := RegistrosMes(s, u, y, m);
    var total := Dates.DaysInMonth(y, m);
    var first := Dates.MonthFirst(y, m);
    ghost var lo := Max(first, inicio);
    ghost var hi := Min(Dates.MonthLast(y, m), hoy);
    Dates.OrdinalWithinMonth(y, m, total);
    dias := [];
    var dia := 1;
    while dia <= total
      invariant 1 <= dia <= total + 1
      invariant |dias| == Pendientes.Span(lo, Min(first + dia - 2, hi))
      invariant forall i :: 0 <= i < |dias| ==> CellFor(dias[i], s, u, lo + i)
    {
      Dates.OrdinalWithinMonth(y, m, dia);
      var fecha := Dates.Ordinal(Dates.Ymd(y, m, dia));
      if inicio <= fecha <= hoy {
        var cell := MonthCell(s, u, y, m, dia, registrosMes);
        CellsSnoc(dias, cell, s, u, lo);
        dias := dias + [cell];
      }
      SpanStep(first, Dates.MonthLast(y, m), inicio, hoy, first + dia - 1);
      dia := dia + 1;
    }
  }

  /** The cell of the day `dia` of the month, looked up in `registros_mes`. */
  function MonthCell(s: Store, u: User, y: int, m: int, dia: int, registrosMes: map<Dates.Date, Registro.Record>)
    : (c: DayCell)
    requires Dates.YearRepresentable(y) && 1 <= m <= 12 && 1 <= dia <= Dates.DaysInMonth(y, m)
    requires registrosMes == RegistrosMes(s, u, y, m)
    ensures CellFor(c, s, u, Dates.Ordinal(Dates.Ymd(y, m, dia)))
  {
    var fecha := Dates.Ordinal(Dates.Ymd(y, m, dia));
    Dates.YmdRoundTrip(Dates.Ymd(y, m, dia));
    MonthLookup(s, u, y, m, fecha);
    var registro := if fecha in registrosMes then Some(registrosMes[fecha]) else None;
    DayCell(fecha, registro, registro.Some? && registro.value.completed)
  }

  /** Clipping to `[inicio, hoy]` the days of a month up to `a` adds `a` exactly when it lies in the range. */
  lemma SpanStep(first: int, last: int, inicio: int, hoy: int, a: int)
    requires first <= a <= last
    ensures var lo := Max(first, inicio);
            var hi := Min(last, hoy);
            Pendientes.Span(lo, Min(a, hi)) == Pendientes.Span(lo, Min(a - 1, hi)) + (if inicio <= a <= hoy then 1 else 0)
            && (inicio <= a <= hoy ==> a == lo + Pendientes.Span(lo, Min(a - 1, hi)))
  {
  }

  /** Appending the cell of the next day keeps every cell at its day. */
  lemma CellsSnoc(dias: seq<DayCell>, c: DayCell, s: Store, u: User, lo: int)
    requires forall i :: 0 <= i < |dias| ==> CellFor(dias[i], s, u, lo + i)
    requires CellFor(c, s, u, lo + |dias|)
    ensures forall i :: 0 <= i < |dias + [c]| ==> CellFor((dias + [c])[i], s, u, lo + i)
  {
  }

  // ---------------------------------------------------------------
  // calendario_ver
  // ---------------------------------------------------------------

  /** What the month view shows. */
  datatype MonthView = MonthView(dias: seq<DayCell>, year: int, month: int,
                                 prev: (int, int), next: (int, int), mostrarPrev: bool)

  datatype Calendar =
    | ToConfigure        // no configuration or no start date: to the setup form
    | YearOutOfRange     // `date(year, month, 1)` raises ValueError, after the backfill
    | Shown(view: MonthView)

  /**
   * The month view `v` of the table `s` is right for a start `inicio` and
   * the day `hoy`: its neighbours are the months just before and after, the
   * back arrow shows exactly when the month is later than the start's, and
   * the grid holds the days of the month from `inicio` to `hoy`, in order,
   * each with its single row and that row's completion.
   */
  predicate Describes(v: MonthView, s: Store, u: User, inicio: Dates.Date, hoy: Dates.Date)
    requires inicio >= 1
  {
    Dates.YearRepresentable(v.year) && 1 <= v.month <= 12
    && MonthIndex(v.prev.0, v.prev.1) == MonthIndex(v.year, v.month) - 1
    && MonthIndex(v.next.0, v.next.1) == MonthIndex(v.year, v.month) + 1
    && 1 <= v.prev.1 <= 12 && 1 <= v.next.1 <= 12
    && (v.mostrarPrev <==> MonthIndex(v.year, v.month) > MonthIndex(Dates.YearOf(inicio), Dates.FromOrdinal(inicio).month))
    && |v.dias| == Pendientes.Span(Max(Dates.MonthFirst(v.year, v.month), inicio),
                                    Min(Dates.MonthLast(v.year, v.month), hoy))
    && forall i :: 0 <= i < |v.dias| ==>
         v.dias[i].fecha == Max(Dates.MonthFirst(v.year, v.month), inicio) + i
         && inicio <= v.dias[i].fecha <= hoy
         && FirstOn(s, u, v.dias[i].fecha) < |s|
         && v.dias[i].registro == Some(s[FirstOn(s, u, v.dias[i].fecha)])
         && v.dias[i].completado == s[FirstOn(s, u, v.dias[i].fecha)].completed
  }

  /** The view of month `(year, month)` once every day up to today has its row. */
  method MonthPage(s: Store, u: User, inicio: Dates.Date, hoy: Dates.Date, year: int, month: int)
    returns (v: MonthView)
    requires Dates.YearRepresentable(year) && 1 <= month <= 12 && inicio >= 1
    requires Servicios.Covered(s, u, inicio, hoy)
    ensures v.year == year && v.month == month
    ensures Describes(v, s, u, inicio, hoy)
  {
    var dias := DiasDelMes(s, u, inicio, hoy, year, month);
    ghost var lo := Max(Dates.MonthFirst(year, month), inicio);
    forall i | 0 <= i < |dias|
      ensures inicio <= dias[i].fecha <= hoy
      ensures FirstOn(s, u, dias[i].fecha) < |s|
      ensures dias[i].registro == Some(s[FirstOn(s, u, dias[i].fecha)])
      ensures dias[i].completado == s[FirstOn(s, u, dias[i].fecha)].completed
    {
      assert CellFor(dias[i], s, u, lo + i);
      LastOnUnique(s, u, dias[i].fecha);
    }
    var prev := Dates.PrevMonth(year, month);
    var next := Dates.NextMonth(year, month);
    var start := Dates.FromOrdinal(inicio);
    ShowPrevIsLaterMonth(year, month, start);
    v := MonthView(dias, year, month, prev, next, ShowPrev(prev, start));
  }

  /**
   * `calendario_ver(request)` on the day `hoy`: the answer and the record
   * table, which keeps the days the backfill created even when the year is
   * out of range; an exception of the backfill rolls it back.
   */
  method CalendarioVer(store: Store, configs: Configs, u: User, hoy: Dates.Date,
                       yearParam: Option<string>, monthParam: Option<string>)
    returns (res: Result<(Calendar, Store), DbError>)
    requires hoy >= 1
    requires u in configs && configs[u].start.Some? ==> configs[u].start.value >= 1
    ensures u !in configs || configs[u].start.None? ==> res == Ok((ToConfigure, store))
    ensures res.Ok? && res.value.0 != ToConfigure ==>
              var inicio := configs[u].start.value;
              var s' := res.value.1;
              Servicios.Covered(s', u, inicio, hoy) && |store| <= |s'| && s'[..|store|] == store
    ensures res.Ok? && res.value.0.Shown? ==>
              (res.value.0.view.year, res.value.0.view.month)
                == Dates.WrapMonth(Requested(yearParam, monthParam, Dates.FromOrdinal(hoy)).0,
                                   Requested(yearParam, monthParam, Dates.FromOrdinal(hoy)).1)
              && Describes(res.value.0.view, res.value.1, u, configs[u].start.value, hoy)
    ensures res.Ok? && res.value.0 == YearOutOfRange ==>
              !Dates.YearRepresentable(Dates.WrapMonth(Requested(yearParam, monthParam, Dates.FromOrdinal(hoy)).0,
                                                       Requested(yearParam, monthParam, Dates.FromOrdinal(hoy)).1).0)
  {
    if u !in configs || configs[u].start.None? {
      return Ok((ToConfigure, store));
    }
    var inicio := configs[u].start.value;
    var backfill := Servicios.AsegurarRegistrosHastaHoy(store, configs, u, hoy);
    if backfill.Err? {
      return Err(backfill.error);
    }
    var s' := backfill.value.0;
    var today := Dates.FromOrdinal(hoy);
    var (y0, m0) := Requested(yearParam, monthParam, today);
    var (year, month) := Dates.WrapMonth(y0, m0);
    if !Dates.YearRepresentable(year) {
      return Ok((YearOutOfRange, s'));
    }
    var view := MonthPage(s', u, inicio, hoy, year, month);
    res := Ok((Shown(view), s'));
  }
}
