/**
 * The two list pages: every day from the start date to today with the
 * action it offers (`lista_dias`), and the completed records, latest first
 * (`RegistroListView.get_queryset`).
 */
module Listas {
  import opened Wrappers
  import Dates
  import Registro
  import Configuracion
  import opened Almacen
  import Orden
  import Pendientes

  // ---------------------------------------------------------------
  // lista_dias
  // ---------------------------------------------------------------

  datatype Accion = Editar | Completar

  /** One entry of the list of days. */
  datatype Dia = Dia(fecha: Dates.Date, registro: Option<Registro.Record>, accion: Accion)

  /** The exception the page raises: `render` is used without being imported. */
  datatype PageError = NameError

  /**
   * `registros`: the dictionary from date to row built from the rows of `u`
   * dated from `a` to `b`; a later row replaces an earlier one of the same date.
   */
  function RegistrosRango(s: Store, u: User, a: Dates.Date, b: Dates.Date): (r: map<Dates.Date, Registro.Record>)
    ensures forall d :: d in r ==> a <= d <= b && On(r[d], u, d)
  {
    if |s| == 0 then map[]
    else
      var before := RegistrosRango(s[..|s| - 1], u, a, b);
      var x := s[|s| - 1];
      if x.user == u && a <= x.fecha <= b then before[x.fecha := x] else before
  }

  /** Looking a day of the range up finds the last row of that day. */
  lemma {:induction false} RangoLookup(s: Store, u: User, a: Dates.Date, b: Dates.Date, d: Dates.Date)
    requires a <= d <= b
    ensures d in RegistrosRango(s, u, a, b) <==> LastOn(s, u, d).Some?
    ensures d in RegistrosRango(s, u, a, b) ==> RegistrosRango(s, u, a, b)[d] == LastOn(s, u, d).value
  {
    if |s| > 0 {
      RangoLookup(s[..|s| - 1], u, a, b, d);
    }
  }

  /** The entry for the day `d`: "editar" when its row is completed, "completar" otherwise. */
  predicate EntryFor(e: Dia, s: Store, u: User, d: Dates.Date) {
    e.fecha == d && e.registro == LastOn(s, u, d)
    && (e.accion == Editar <==> e.registro.Some? && e.registro.value.completed)
  }

  /** The start date of `u`, when a configuration holds one. */
  function StartOf(configs: Configs, u: User): Option<Dates.Date> {
    if u in configs then configs[u].start else None
  }

  /**
   * `lista_dias(request)` on the day `hoy` with `render` in scope: no days
   * without a start date, otherwise one entry per day from the start to
   * today, today first.
   */
  method ListaDias(store: Store, configs: Configs, u: User, hoy: Dates.Date) returns (dias: seq<Dia>)
    ensures StartOf(configs, u).None? ==> dias == []
    ensures StartOf(configs, u).Some? ==>
              var inicio := StartOf(configs, u).value;
              |dias| == Pendientes.Span(inicio, hoy)
              && forall i :: 0 <= i < |dias| ==> EntryFor(dias[i], store, u, hoy - i)
  {
    if StartOf(configs, u).None? {
      return [];
    }
    var inicio := StartOf(configs, u).value;
    var registros := RegistrosRango(store, u, inicio, hoy);
    var ascending: seq<Dia> := [];
    var actual := inicio;
    while actual <= hoy
      invariant inicio <= actual && (inicio <= hoy ==> actual <= hoy + 1)
      invariant hoy < inicio ==> actual == inicio
      invariant |ascending| == actual - inicio
      invariant forall i :: 0 <= i < |ascending| ==> EntryFor(ascending[i], store, u, inicio + i)
      decreases hoy - actual
    {
      RangoLookup(store, u, inicio, hoy, actual);
      var registro := if actual in registros then Some(registros[actual]) else None;
      var accion := if registro.Some? && registro.value.completed then Editar else Completar;
      ascending := ascending + [Dia(actual, registro, accion)];
      actual := actual + 1;
    }
    dias := seq(|ascending|, i requires 0 <= i < |ascending| => ascending[|ascending| - 1 - i]);
  }

  /** The page as written: whatever the configuration, the call to `render` raises. */
  method ListaDiasAsWritten(store: Store, configs: Configs, u: User, hoy: Dates.Date)
    returns (res: Result<seq<Dia>, PageError>)
    ensures res == Err(NameError)
  {
    if StartOf(configs, u).None? {
      return Err(NameError);
    }
    var dias := ListaDias(store, configs, u, hoy);
    res := Err(NameError);
  }

  /**
   * With at most one row per day, the days offered to complete are exactly
   * the pending days, and the days offered to edit are the completed ones.
   */
  lemma CompletarIsPending(store: Store, u: User, inicio: Dates.Date, hoy: Dates.Date, e: Dia)
    requires inicio <= e.fecha <= hoy && EntryFor(e, store, u, e.fecha)
    requires CountOn(store, u, e.fecha) <= 1
    ensures e.accion == Completar <==> Pendientes.IsPending(store, u, inicio, hoy, e.fecha)
  {
    var d := e.fecha;
    LastOnNone(store, u, d);
    if CountOn(store, u, d) == 1 {
      LastOnUnique(store, u, d);
      if Pendientes.CompletedOn(store, u, d) {
        var i :| 0 <= i < |store| && On(store[i], u, d) && store[i].completed;
        OnlyRow(store, u, d, i);
      }
    } else {
      CountOnHas(store, u, d);
    }
  }

  // ---------------------------------------------------------------
  // RegistroListView.get_queryset
  // ---------------------------------------------------------------

  /** A completed row of `u`, dated no earlier than the start when there is one. */
  predicate Listed(x: Registro.Record, u: User, start: Option<Dates.Date>) {
    x.user == u && x.completed && (start.Some? ==> x.fecha >= start.value)
  }

  /** The rows of `s` the queryset filters keep, in table order. */
  function Completados(s: Store, u: User, start: Option<Dates.Date>): (r: Store)
    ensures forall x :: x in r <==> x in s && Listed(x, u, start)
    ensures forall x :: Listed(x, u, start) ==> multiset(r)[x] == multiset(s)[x]
    ensures forall x :: !Listed(x, u, start) ==> multiset(r)[x] == 0
  {
    if |s| == 0 then []
    else
      var p := s[..|s| - 1];
      var x := s[|s| - 1];
      assert s == p + [x];
      Completados(p, u, start) + (if Listed(x, u, start) then [x] else [])
  }

  /**
   * `get_queryset()`: the configuration is fetched or created; the result
   * holds exactly the user's completed rows from the start date on, each as
   * often as in the table, latest date first.
   */
  function ListaRegistros(store: Store, configs: Configs, u: User): (r: (Store, Configs))
    ensures r.1 == GetOrCreateConfig(configs, u).1
    ensures Orden.Descending(r.0)
    ensures forall x :: x in r.0 <==> x in store && Listed(x, u, StartOf(configs, u))
    ensures forall x :: Listed(x, u, StartOf(configs, u)) ==> multiset(r.0)[x] == multiset(store)[x]
  {
    var (config, configs') := GetOrCreateConfig(configs, u);
    var rows := Orden.SortByFechaDesc(Completados(store, u, config.start));
    Orden.SortByFechaDescSpec(Completados(store, u, config.start));
    assert forall x :: x in rows <==> x in multiset(rows);
    (rows, configs')
  }
}
