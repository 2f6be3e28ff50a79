/**
 * The calendar backfill: one `get_or_create` per day from the start date to
 * today, inside one transaction, so either every missing day gets its row
 * or, on an exception, nothing is kept.
 */
module Servicios {
  import opened Wrappers
  import Dates
  import Registro
  import Configuracion
  import opened Almacen

  /** The days of `[a, b]` with no row of `u`, ascending. */
  function MissingDates(s: Store, u: User, a: Dates.Date, b: Dates.Date): (m: seq<Dates.Date>)
    ensures forall i :: 0 <= i < |m| ==> a <= m[i] <= b && CountOn(s, u, m[i]) == 0
    ensures forall i, j :: 0 <= i < j < |m| ==> m[i] < m[j]
    ensures |m| <= if b < a then 0 else b - a + 1
    decreases if b < a then 0 else b - a + 1
  {
    if b < a then [] else MissingDates(s, u, a, b - 1) + (if CountOn(s, u, b) == 0 then [b] else [])
  }

  /** No day of `[a, b]` holds two rows of `u`. */
  predicate NoDuplicateIn(s: Store, u: User, a: Dates.Date, b: Dates.Date) {
    forall d :: a <= d <= b ==> CountOn(s, u, d) <= 1
  }

  /** Every day of `[a, b]` holds exactly one row of `u`. */
  predicate Covered(s: Store, u: User, a: Dates.Date, b: Dates.Date) {
    forall d :: a <= d <= b ==> CountOn(s, u, d) == 1
  }

  /** Every day of `[a, b]` without a row is listed. */
  lemma {:induction false} MissingDatesComplete(s: Store, u: User, a: Dates.Date, b: Dates.Date, d: Dates.Date)
    requires a <= d <= b && CountOn(s, u, d) == 0
    ensures d in MissingDates(s, u, a, b)
    decreases b - a
  {
    if d < b {
      MissingDatesComplete(s, u, a, b - 1, d);
    }
  }

  /** Every day of `m` yields a row `save` accepts. */
  predicate AllAccepted(c: Configuracion.Config, u: User, m: seq<Dates.Date>) {
    forall i :: 0 <= i < |m| ==> Registro.Save(Configuracion.NewRecord(c, u, m[i])).Ok?
  }

  /** The rows stored for the days of `m`, in order. */
  function Rows(c: Configuracion.Config, u: User, m: seq<Dates.Date>): (rs: Store)
    requires AllAccepted(c, u, m)
    ensures |rs| == |m|
    ensures forall i :: 0 <= i < |m| ==> rs[i] == Registro.Save(Configuracion.NewRecord(c, u, m[i])).value
  {
    if |m| == 0 then []
    else
      var init := m[..|m| - 1];
      RowsInit(c, u, m);
      var rest := Rows(c, u, init);
      var last := Registro.Save(Configuracion.NewRecord(c, u, m[|m| - 1])).value;
      RowsLast(c, u, m, rest, last);
      rest + [last]
  }

  /** The days before the last one are all accepted too. */
  lemma RowsInit(c: Configuracion.Config, u: User, m: seq<Dates.Date>)
    requires AllAccepted(c, u, m) && |m| > 0
    ensures AllAccepted(c, u, m[..|m| - 1])
  {
    hide Registro.Save;
    var init := m[..|m| - 1];
    assert forall i :: 0 <= i < |init| ==> init[i] == m[i];
  }

  /** Appending the last day's row to the rows of the earlier days gives a row per day of `m`. */
  lemma RowsLast(c: Configuracion.Config, u: User, m: seq<Dates.Date>, rest: Store, last: Registro.Record)
    requires AllAccepted(c, u, m) && |m| > 0 && |rest| == |m| - 1
    requires forall i :: 0 <= i < |m| - 1 ==> rest[i] == Registro.Save(Configuracion.NewRecord(c, u, m[..|m| - 1][i])).value
    requires last == Registro.Save(Configuracion.NewRecord(c, u, m[|m| - 1])).value
    ensures forall i :: 0 <= i < |m| ==> (rest + [last])[i] == Registro.Save(Configuracion.NewRecord(c, u, m[i])).value
  {
    hide Registro.Save, Configuracion.NewRecord;
    forall i | 0 <= i < |m|
      ensures (rest + [last])[i] == Registro.Save(Configuracion.NewRecord(c, u, m[i])).value
    {
      if i < |m| - 1 {
        assert m[..|m| - 1][i] == m[i];
        assert (rest + [last])[i] == rest[i];
      } else {
        assert (rest + [last])[i] == last;
      }
    }
  }

  /** Appending a row for `d` adds one to the count of `d` and nothing elsewhere. */
  lemma CountAfterAppend(st: Store, x: Registro.Record, u: User, d0: Dates.Date)
    requires x.user == u && x.fecha == d0
    ensures forall d :: d != d0 ==> CountOn(st + [x], u, d) == CountOn(st, u, d)
    ensures CountOn(st + [x], u, d0) == CountOn(st, u, d0) + 1
  {
    forall d
      ensures CountOn(st + [x], u, d) == CountOn(st, u, d) + (if d == d0 then 1 else 0)
    {
      CountOnSnoc(st, x, u, d);
    }
  }

  /** What the backfill has established once every day before `actual` was visited. */
  ghost predicate Visited(store: Store, st: Store, c: Configuracion.Config, u: User,
                          inicio: Dates.Date, actual: Dates.Date, m: seq<Dates.Date>) {
    m == MissingDates(store, u, inicio, actual - 1)
    && AllAccepted(c, u, m) && st == store + Rows(c, u, m)
    && NoDuplicateIn(store, u, inicio, actual - 1)
    && Covered(st, u, inicio, actual - 1)
    && (forall d :: d >= actual ==> CountOn(st, u, d) == CountOn(store, u, d))
    && (|m| > 0 ==> Registro.Save(Configuracion.NewRecord(c, u, inicio)).Ok?)
  }

  /** Visiting a day that already has its one row changes nothing. */
  lemma VisitExisting(store: Store, st: Store, c: Configuracion.Config, u: User,
                      inicio: Dates.Date, actual: Dates.Date, m: seq<Dates.Date>)
    requires inicio <= actual
    requires Visited(store, st, c, u, inicio, actual, m) && CountOn(st, u, actual) == 1
    ensures Visited(store, st, c, u, inicio, actual + 1, m)
  {
    assert MissingDates(store, u, inicio, actual) == m;
  }

  /** The rows of one more day are the earlier rows followed by that day's. */
  lemma RowsSnoc(c: Configuracion.Config, u: User, m: seq<Dates.Date>, d: Dates.Date)
    requires AllAccepted(c, u, m) && Registro.Save(Configuracion.NewRecord(c, u, d)).Ok?
    ensures AllAccepted(c, u, m + [d])
    ensures Rows(c, u, m + [d]) == Rows(c, u, m) + [Registro.Save(Configuracion.NewRecord(c, u, d)).value]
  {
    hide Registro.Save;
    AcceptedSnoc(c, u, m, d);
    var md := m + [d];
    assert md[..|md| - 1] == m;
    assert md[|md| - 1] == d;
  }

  /** One more accepted day keeps every day accepted. */
  lemma AcceptedSnoc(c: Configuracion.Config, u: User, m: seq<Dates.Date>, d: Dates.Date)
    requires AllAccepted(c, u, m) && Registro.Save(Configuracion.NewRecord(c, u, d)).Ok?
    ensures AllAccepted(c, u, m + [d])
  {
    hide Registro.Save;
    forall i | 0 <= i < |m + [d]|
      ensures Registro.Save(Configuracion.NewRecord(c, u, (m + [d])[i])).Ok?
    {
      if i < |m| {
        assert (m + [d])[i] == m[i];
      }
    }
  }

  /** Visiting a day without a row appends the accepted template for it. */
  lemma VisitMissing(store: Store, st: Store, c: Configuracion.Config, u: User,
                     inicio: Dates.Date, actual: Dates.Date, m: seq<Dates.Date>)
    requires inicio <= actual
    requires Visited(store, st, c, u, inicio, actual, m) && CountOn(st, u, actual) == 0
    requires Registro.Save(Configuracion.NewRecord(c, u, actual)).Ok?
    ensures Visited(store, st + [Registro.Save(Configuracion.NewRecord(c, u, actual)).value], c, u, inicio, actual + 1, m + [actual])
  {
    var x := Registro.Save(Configuracion.NewRecord(c, u, actual)).value;
    AppendCovers(store, st, x, u, inicio, actual);
    MissingRowsStep(store, st, c, u, inicio, actual, m);
  }

  /** The sequence half of `VisitMissing`: the missing day and its row are appended. */
  lemma MissingRowsStep(store: Store, st: Store, c: Configuracion.Config, u: User,
                        inicio: Dates.Date, actual: Dates.Date, m: seq<Dates.Date>)
    requires inicio <= actual && CountOn(store, u, actual) == 0
    requires m == MissingDates(store, u, inicio, actual - 1) && AllAccepted(c, u, m) && st == store + Rows(c, u, m)
    requires |m| > 0 ==> Registro.Save(Configuracion.NewRecord(c, u, inicio)).Ok?
    requires Registro.Save(Configuracion.NewRecord(c, u, actual)).Ok?
    ensures m + [actual] == MissingDates(store, u, inicio, actual)
    ensures AllAccepted(c, u, m + [actual])
    ensures st + [Registro.Save(Configuracion.NewRecord(c, u, actual)).value] == store + Rows(c, u, m + [actual])
    ensures Registro.Save(Configuracion.NewRecord(c, u, inicio)).Ok?
  {
    RowsSnoc(c, u, m, actual);
    SnocAssoc(store, Rows(c, u, m), Registro.Save(Configuracion.NewRecord(c, u, actual)).value);
    Configuracion.CreatedRecord(c, u, actual, inicio);
  }


  /** Appending one row after a concatenation. */
  lemma SnocAssoc(a: Store, b: Store, x: Registro.Record)
    ensures a + (b + [x]) == (a + b) + [x]
  {
  }

  /** The counting half of `VisitMissing`: the appended row covers `actual` and no later day. */
  lemma AppendCovers(store: Store, st: Store, x: Registro.Record, u: User, inicio: Dates.Date, actual: Dates.Date)
    requires x.user == u && x.fecha == actual && CountOn(st, u, actual) == 0
    requires Covered(st, u, inicio, actual - 1) && NoDuplicateIn(store, u, inicio, actual - 1)
    requires forall d :: d >= actual ==> CountOn(st, u, d) == CountOn(store, u, d)
    ensures Covered(st + [x], u, inicio, actual) && NoDuplicateIn(store, u, inicio, actual)
    ensures forall d :: d >= actual + 1 ==> CountOn(st + [x], u, d) == CountOn(store, u, d)
    ensures CountOn(store, u, actual) == 0
  {
    CountAfterAppend(st, x, u, actual);
  }

  /** The backfill stopped with `e`: a duplicate or a refused template, never a uniqueness clash. */
  predicate Failed(store: Store, c: Configuracion.Config, u: User, inicio: Dates.Date, hoy: Dates.Date, e: DbError) {
    e != NotUnique
    && !(NoDuplicateIn(store, u, inicio, hoy)
         && (|MissingDates(store, u, inicio, hoy)| == 0 || Registro.Save(Configuracion.NewRecord(c, u, inicio)).Ok?))
  }

  /** A failing `get_or_create` means a duplicate in range or a template `save` refuses on every day. */
  lemma VisitFails(store: Store, st: Store, c: Configuracion.Config, u: User,
                   inicio: Dates.Date, hoy: Dates.Date, actual: Dates.Date, m: seq<Dates.Date>, e: DbError)
    requires inicio <= actual <= hoy
    requires Visited(store, st, c, u, inicio, actual, m)
    requires (CountOn(st, u, actual) >= 2 && e == MultipleObjectsReturned)
          || (CountOn(st, u, actual) == 0 && Registro.Save(Configuracion.NewRecord(c, u, actual)).Err?
              && e == Invalid(Registro.Save(Configuracion.NewRecord(c, u, actual)).error))
    ensures Failed(store, c, u, inicio, hoy, e)
  {
    if CountOn(st, u, actual) == 0 {
      MissingDatesComplete(store, u, inicio, hoy, actual);
      Configuracion.CreatedRecord(c, u, actual, inicio);
    }
  }

  /** The state of the loop: the table so far, rows created, the next day, and the exception if one stopped it. */
  datatype Progress = Progress(st: Store, n: nat, actual: Dates.Date, missing: seq<Dates.Date>, failure: Option<DbError>)

  /** The loop invariant of the backfill. */
  ghost predicate Invariant(store: Store, c: Configuracion.Config, u: User, inicio: Dates.Date, hoy: Dates.Date,
                            p: Progress) {
    inicio <= p.actual && (inicio <= hoy ==> p.actual <= hoy + 1) && (hoy < inicio ==> p.actual == inicio)
    && (p.failure.None? ==> Visited(store, p.st, c, u, inicio, p.actual, p.missing) && p.n == |p.missing|)
    && (p.failure.Some? ==> Failed(store, c, u, inicio, hoy, p.failure.value))
  }

  /** Days left to visit. */
  function Remaining(hoy: Dates.Date, p: Progress): nat {
    if p.failure.Some? || p.actual > hoy then 0 else hoy - p.actual + 1
  }

  /** A day whose `get_or_create` created a row advances the loop with that row appended. */
  lemma StepCreated(store: Store, c: Configuracion.Config, u: User, inicio: Dates.Date, hoy: Dates.Date,
                    p: Progress, st': Store)
    requires Invariant(store, c, u, inicio, hoy, p) && p.failure.None? && p.actual <= hoy
    requires CountOn(p.st, u, p.actual) == 0 && Registro.Save(Configuracion.NewRecord(c, u, p.actual)).Ok?
    requires st' == p.st + [Registro.Save(Configuracion.NewRecord(c, u, p.actual)).value]
    ensures Invariant(store, c, u, inicio, hoy, Progress(st', p.n + 1, p.actual + 1, p.missing + [p.actual], None))
  {
    var q := Progress(st', p.n + 1, p.actual + 1, p.missing + [p.actual], None);
    VisitMissing(store, p.st, c, u, inicio, p.actual, p.missing);
    assert Visited(store, q.st, c, u, inicio, q.actual, q.missing);
    assert q.n == |q.missing|;
  }

  /** A day that already had its row advances the loop unchanged. */
  lemma StepFound(store: Store, c: Configuracion.Config, u: User, inicio: Dates.Date, hoy: Dates.Date, p: Progress)
    requires Invariant(store, c, u, inicio, hoy, p) && p.failure.None? && p.actual <= hoy
    requires CountOn(p.st, u, p.actual) == 1
    ensures Invariant(store, c, u, inicio, hoy, Progress(p.st, p.n, p.actual + 1, p.missing, None))
  {
    VisitExisting(store, p.st, c, u, inicio, p.actual, p.missing);
  }

  /** A failing `get_or_create` stops the loop. */
  lemma StepFailed(store: Store, c: Configuracion.Config, u: User, inicio: Dates.Date, hoy: Dates.Date,
                   p: Progress, e: DbError)
    requires Invariant(store, c, u, inicio, hoy, p) && p.failure.None? && p.actual <= hoy
    requires (CountOn(p.st, u, p.actual) >= 2 && e == MultipleObjectsReturned)
          || (CountOn(p.st, u, p.actual) == 0 && Registro.Save(Configuracion.NewRecord(c, u, p.actual)).Err?
              && e == Invalid(Registro.Save(Configuracion.NewRecord(c, u, p.actual)).error))
    ensures Invariant(store, c, u, inicio, hoy, p.(failure := Some(e)))
  {
    VisitFails(store, p.st, c, u, inicio, hoy, p.actual, p.missing, e);
  }

  /** One iteration of the backfill: `get_or_create` for the day `p.actual`. */
  method VisitDay(ghost store: Store, c: Configuracion.Config, u: User,
                  ghost inicio: Dates.Date, hoy: Dates.Date, p: Progress)
    returns (q: Progress)
    requires Invariant(store, c, u, inicio, hoy, p) && p.failure.None? && p.actual <= hoy
    ensures Invariant(store, c, u, inicio, hoy, q)
    ensures q.failure.Some? || q.actual == p.actual + 1
  {
    var step := GetOrCreate(p.st, Configuracion.NewRecord(c, u, p.actual));
    if step.Err? {
      StepFailed(store, c, u, inicio, hoy, p, step.error);
      q := p.(failure := Some(step.error));
    } else if step.value.1 {
      StepCreated(store, c, u, inicio, hoy, p, step.value.0);
      q := Progress(step.value.0, p.n + 1, p.actual + 1, p.missing + [p.actual], None);
    } else {
      StepFound(store, c, u, inicio, hoy, p);
      q := Progress(step.value.0, p.n, p.actual + 1, p.missing, None);
    }
  }

  /**
   * What `generar_registros_desde_fecha` promises: without a configuration
   * DoesNotExist; success exactly when no day of the range holds two rows
   * and, if some day lacks its row, `save` accepts the template; and on
   * success the old table followed by one accepted template per missing
   * day, in date order, their number, and every day covered once.
   */
  predicate BackfillOutcome(store: Store, configs: Configs, u: User, inicio: Dates.Date, hoy: Dates.Date,
                            res: Result<(Store, nat), DbError>) {
    (u !in configs ==> res == Err(DoesNotExist))
    && (res.Ok? <==> u in configs && NoDuplicateIn(store, u, inicio, hoy)
                     && (|MissingDates(store, u, inicio, hoy)| == 0
                         || Registro.Save(Configuracion.NewRecord(configs[u], u, inicio)).Ok?))
    && (res.Err? ==> res.error != NotUnique)
    && (res.Ok? ==>
          var m := MissingDates(store, u, inicio, hoy);
          AllAccepted(configs[u], u, m)
          && res.value == (store + Rows(configs[u], u, m), |m|)
          && Covered(res.value.0, u, inicio, hoy))
  }

  /** Before the first day nothing is visited. */
  lemma Start(store: Store, c: Configuracion.Config, u: User, inicio: Dates.Date, hoy: Dates.Date)
    ensures Invariant(store, c, u, inicio, hoy, Progress(store, 0, inicio, [], None))
  {
    assert store + Rows(c, u, []) == store;
  }

  /** A stopped loop is the failing outcome. */
  lemma FinishFailed(store: Store, configs: Configs, u: User, inicio: Dates.Date, hoy: Dates.Date, p: Progress)
    requires u in configs && Invariant(store, configs[u], u, inicio, hoy, p) && p.failure.Some?
    ensures BackfillOutcome(store, configs, u, inicio, hoy, Err(p.failure.value))
  {
  }

  /** Once every day of the range was visited, the table holds the outcome the backfill promises. */
  lemma VisitedAll(store: Store, st: Store, c: Configuracion.Config, u: User,
                   inicio: Dates.Date, hoy: Dates.Date, actual: Dates.Date, m: seq<Dates.Date>)
    requires actual == if hoy < inicio then inicio else hoy + 1
    requires Visited(store, st, c, u, inicio, actual, m)
    ensures m == MissingDates(store, u, inicio, hoy)
  {
    if hoy < inicio {
      assert MissingDates(store, u, inicio, actual - 1) == [];
    }
  }

  /** A loop that visited every day is the successful outcome. */
  lemma FinishVisited(store: Store, configs: Configs, u: User, inicio: Dates.Date, hoy: Dates.Date, p: Progress)
    requires u in configs && Invariant(store, configs[u], u, inicio, hoy, p)
    requires p.failure.None? && p.actual > hoy
    ensures BackfillOutcome(store, configs, u, inicio, hoy, Ok((p.st, p.n)))
  {
    VisitedAll(store, p.st, configs[u], u, inicio, hoy, p.actual, p.missing);
  }

  /**
   * `generar_registros_desde_fecha(user=u, fecha_inicio=inicio)` with `hoy`
   * for `date.today()`: the new table and the number of rows created.
   */
  method GenerarRegistrosDesdeFecha(store: Store, configs: Configs, u: User, inicio: Dates.Date, hoy: Dates.Date)
    returns (res: Result<(Store, nat), DbError>)
    ensures BackfillOutcome(store, configs, u, inicio, hoy, res)
  {
    if u !in configs {
      return Err(DoesNotExist);
    }
    var c := configs[u];
    var p := Progress(store, 0, inicio, [], None);
    Start(store, c, u, inicio, hoy);
    while p.failure.None? && p.actual <= hoy
      invariant Invariant(store, c, u, inicio, hoy, p)
      decreases Remaining(hoy, p)
    {
      p := VisitDay(store, c, u, inicio, hoy, p);
    }
    if p.failure.Some? {
      FinishFailed(store, configs, u, inicio, hoy, p);
      res := Err(p.failure.value);
    } else {
      FinishVisited(store, configs, u, inicio, hoy, p);
      res := Ok((p.st, p.n));
    }
  }

  /**
   * `asegurar_registros_hasta_hoy(user=u)`: nothing happens without a
   * configuration or a start date; otherwise the backfill from that date.
   */
  method AsegurarRegistrosHastaHoy(store: Store, configs: Configs, u: User, hoy: Dates.Date)
    returns (res: Result<(Store, nat), DbError>)
    ensures u !in configs || configs[u].start.None? ==> res == Ok((store, 0))
    ensures u in configs && configs[u].start.Some? && res.Ok? ==>
              Covered(res.value.0, u, configs[u].start.value, hoy)
              && res.value.1 == |MissingDates(store, u, configs[u].start.value, hoy)|
              && |store| <= |res.value.0| && res.value.0[..|store|] == store
  {
    if u !in configs || configs[u].start.None? {
      return Ok((store, 0));
    }
    res := GenerarRegistrosDesdeFecha(store, configs, u, configs[u].start.value, hoy);
    if res.Ok? {
      assert res.value.0[..|store|] == store;
    }
  }

  // ---------------------------------------------------------------
  // Properties
  // ---------------------------------------------------------------

  /** A covered range has nothing missing and no duplicate. */
  lemma CoveredHasNothingMissing(s: Store, u: User, a: Dates.Date, b: Dates.Date)
    requires Covered(s, u, a, b)
    ensures MissingDates(s, u, a, b) == [] && NoDuplicateIn(s, u, a, b)
  {
    CoveredMissingNone(s, u, a, b);
  }

  /** Induction on the end of the range for the lemma above. */
  lemma {:induction false} CoveredMissingNone(s: Store, u: User, a: Dates.Date, b: Dates.Date)
    requires Covered(s, u, a, b)
    ensures MissingDates(s, u, a, b) == []
    decreases if b < a then 0 else b - a + 1
  {
    if a <= b {
      CoveredMissingNone(s, u, a, b - 1);
      assert CountOn(s, u, b) == 1;
    }
  }

  /** A start date after today creates nothing and changes nothing. */
  method StartAfterToday(store: Store, configs: Configs, u: User, inicio: Dates.Date, hoy: Dates.Date)
    returns (res: Result<(Store, nat), DbError>)
    requires u in configs && hoy < inicio
    ensures res == Ok((store, 0))
  {
    res := GenerarRegistrosDesdeFecha(store, configs, u, inicio, hoy);
    assert MissingDates(store, u, inicio, hoy) == [];
    assert Rows(configs[u], u, []) == [];
    assert store + [] == store;
  }

  /** Running the backfill a second time creates nothing and changes nothing. */
  method BackfillTwice(store: Store, configs: Configs, u: User, inicio: Dates.Date, hoy: Dates.Date)
    returns (first: Result<(Store, nat), DbError>, second: Result<(Store, nat), DbError>)
    ensures first.Ok? ==> second == Ok((first.value.0, 0))
  {
    first := GenerarRegistrosDesdeFecha(store, configs, u, inicio, hoy);
    if first.Err? {
      second := first;
      return;
    }
    second := GenerarRegistrosDesdeFecha(first.value.0, configs, u, inicio, hoy);
    CoveredOutcome(first.value.0, configs, u, inicio, hoy, second);
  }

  /** On a table that already covers the range, the backfill succeeds and adds nothing. */
  lemma CoveredOutcome(s: Store, configs: Configs, u: User, inicio: Dates.Date, hoy: Dates.Date,
                       res: Result<(Store, nat), DbError>)
    requires u in configs && Covered(s, u, inicio, hoy) && BackfillOutcome(s, configs, u, inicio, hoy, res)
    ensures res == Ok((s, 0))
  {
    CoveredHasNothingMissing(s, u, inicio, hoy);
    assert Rows(configs[u], u, []) == [];
    assert s + [] == s;
  }
}
