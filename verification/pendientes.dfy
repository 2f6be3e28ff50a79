/**
 * Pending days: the days from the configured start date to today that have
 * no completed record.  A day whose record exists but is not completed is
 * still pending.
 */
module Pendientes {
  import opened Wrappers
  import Dates
  import Registro
  import Configuracion
  import opened Almacen

  /** The number of days from `desde` to `hasta`, both included. */
  function Span(desde: Dates.Date, hasta: Dates.Date): nat {
    if hasta < desde then 0 else hasta - desde + 1
  }

  /** `generar_rango_fechas(desde, hasta)`: every day from `desde` to `hasta`, inclusive, ascending. */
  method GenerarRangoFechas(desde: Dates.Date, hasta: Dates.Date) returns (dias: seq<Dates.Date>)
    ensures |dias| == Span(desde, hasta)
    ensures forall i :: 0 <= i < |dias| ==> dias[i] == desde + i
    ensures forall d :: d in dias <==> desde <= d <= hasta
  {
    dias := [];
    var actual := desde;
    while actual <= hasta
      invariant desde <= actual
      invariant desde <= hasta ==> actual <= hasta + 1
      invariant hasta < desde ==> actual == desde
      invariant |dias| == actual - desde
      invariant forall i :: 0 <= i < |dias| ==> dias[i] == desde + i
      decreases hasta - actual
    {
      dias := dias + [actual];
      actual := actual + 1;
    }
    forall d | desde <= d <= hasta
      ensures d in dias
    {
      assert dias[d - desde] == d;
    }
  }

  /** Some completed row of `u` is dated `d`. */
  predicate CompletedOn(s: Store, u: User, d: Dates.Date) {
    exists i :: 0 <= i < |s| && On(s[i], u, d) && s[i].completed
  }

  /** `fechas_completadas`: the dates in `[a, b]` of the completed rows of `u`. */
  function FechasCompletadas(s: Store, u: User, a: Dates.Date, b: Dates.Date): (r: set<Dates.Date>)
    ensures forall d :: d in r <==> a <= d <= b && CompletedOn(s, u, d)
  {
    var r := set i | 0 <= i < |s| && s[i].user == u && s[i].completed && a <= s[i].fecha <= b :: s[i].fecha;
    assert forall d :: a <= d <= b && CompletedOn(s, u, d) ==> d in r by {
      forall d | a <= d <= b && CompletedOn(s, u, d)
        ensures d in r
      {
        var i :| 0 <= i < |s| && On(s[i], u, d) && s[i].completed;
        assert s[i].fecha == d;
      }
    }
    r
  }

  predicate StrictlyAscending(ds: seq<Dates.Date>) {
    forall i, j :: 0 <= i < j < |ds| ==> ds[i] < ds[j]
  }

  /** The dates of `ds` that are not in `done`, in their order. */
  function Without(ds: seq<Dates.Date>, done: set<Dates.Date>): (r: seq<Dates.Date>)
    ensures forall d :: d in r <==> d in ds && d !in done
    ensures StrictlyAscending(ds) ==> StrictlyAscending(r)
  {
    if |ds| == 0 then []
    else
      var rest := Without(ds[1..], done);
      if StrictlyAscending(ds) then
        assert forall k :: 0 <= k < |rest| ==> ds[0] < rest[k] by {
          forall k | 0 <= k < |rest|
            ensures ds[0] < rest[k]
          {
            assert rest[k] in ds[1..];
            var j :| 0 <= j < |ds[1..]| && ds[1..][j] == rest[k];
            assert ds[j + 1] == rest[k];
          }
        }
        (if ds[0] in done then [] else [ds[0]]) + rest
      else
        (if ds[0] in done then [] else [ds[0]]) + rest
  }

  /** The message for a user without a start date. */
  const NoStartMessage: string := "⚠️ Debes configurar una fecha de inicio para registrar gastos."

  /** The message for a user with nothing pending. */
  const UpToDateMessage: string := "✅ No hay días pendientes. Estás al día."

  /** The pending days from `inicio` to `hoy`, by definition. */
  predicate IsPending(s: Store, u: User, inicio: Dates.Date, hoy: Dates.Date, d: Dates.Date) {
    inicio <= d <= hoy && !CompletedOn(s, u, d)
  }

  /**
   * `obtener_dias_pendientes(usuario)` on the day `hoy`: the configuration
   * is fetched or created; without a start date the list is empty with a
   * warning; otherwise the pending days, ascending, and a message exactly
   * when there are none.
   */
  method ObtenerDiasPendientes(store: Store, configs: Configs, u: User, hoy: Dates.Date)
    returns (pendientes: seq<Dates.Date>, mensaje: string, configs': Configs)
    ensures configs' == GetOrCreateConfig(configs, u).1
    ensures configs'[u].start.None? ==> pendientes == [] && mensaje == NoStartMessage
    ensures configs'[u].start.Some? ==>
              (forall d :: d in pendientes <==> IsPending(store, u, configs'[u].start.value, hoy, d))
              && StrictlyAscending(pendientes)
              && (mensaje == UpToDateMessage <==> |pendientes| == 0)
              && (|pendientes| > 0 ==> mensaje == "")
              && pendientes == Pending(store, u, configs'[u].start.value, hoy)
  {
    var got := GetOrCreateConfig(configs, u);
    configs' := got.1;
    var config := got.0;
    if config.start.None? {
      pendientes, mensaje := [], NoStartMessage;
      return;
    }
    var inicio := config.start.value;
    var rango := GenerarRangoFechas(inicio, hoy);
    assert rango == seq(Span(inicio, hoy), i => inicio + i);
    var completadas := FechasCompletadas(store, u, inicio, hoy);
    pendientes := Without(rango, completadas);
    mensaje := if |pendientes| == 0 then UpToDateMessage else "";
  }

  /** The pending list as a value, for stating properties about it. */
  function Pending(s: Store, u: User, inicio: Dates.Date, hoy: Dates.Date): (r: seq<Dates.Date>)
    ensures forall d :: d in r <==> IsPending(s, u, inicio, hoy, d)
  {
    var rango := seq(Span(inicio, hoy), i => inicio + i);
    assert forall d :: d in rango <==> inicio <= d <= hoy by {
      forall d | inicio <= d <= hoy
        ensures d in rango
      {
        assert rango[d - inicio] == d;
      }
    }
    Without(rango, FechasCompletadas(s, u, inicio, hoy))
  }

  // ---------------------------------------------------------------
  // Properties
  // ---------------------------------------------------------------

  /** Two tables that agree on which days of `[inicio, hoy]` are completed have the same pending days. */
  lemma PendingDependsOnCompletion(s: Store, t: Store, u: User, inicio: Dates.Date, hoy: Dates.Date)
    requires forall d :: inicio <= d <= hoy ==> (CompletedOn(s, u, d) <==> CompletedOn(t, u, d))
    ensures Pending(s, u, inicio, hoy) == Pending(t, u, inicio, hoy)
  {
    assert FechasCompletadas(s, u, inicio, hoy) == FechasCompletadas(t, u, inicio, hoy);
  }

  /** A row dated outside `[inicio, hoy]`, or not completed, or of another user, changes nothing. */
  lemma IrrelevantRow(s: Store, x: Registro.Record, u: User, inicio: Dates.Date, hoy: Dates.Date)
    requires x.fecha < inicio || x.fecha > hoy || !x.completed || x.user != u
    ensures Pending(s + [x], u, inicio, hoy) == Pending(s, u, inicio, hoy)
  {
    forall d | inicio <= d <= hoy
      ensures CompletedOn(s + [x], u, d) <==> CompletedOn(s, u, d)
    {
      if CompletedOn(s, u, d) {
        var i :| 0 <= i < |s| && On(s[i], u, d) && s[i].completed;
        assert (s + [x])[i] == s[i];
      }
      if CompletedOn(s + [x], u, d) {
        var i :| 0 <= i < |s + [x]| && On((s + [x])[i], u, d) && (s + [x])[i].completed;
        assert i < |s| && s[i] == (s + [x])[i];
      }
    }
    PendingDependsOnCompletion(s + [x], s, u, inicio, hoy);
  }

  /** Completing a day's row removes that day, and only that day, from the pending list. */
  lemma CompletingRemovesDay(s: Store, x: Registro.Record, u: User, inicio: Dates.Date, hoy: Dates.Date)
    requires x.user == u && x.completed && inicio <= x.fecha <= hoy
    ensures x.fecha !in Pending(s + [x], u, inicio, hoy)
    ensures forall d :: d != x.fecha ==> (d in Pending(s + [x], u, inicio, hoy) <==> d in Pending(s, u, inicio, hoy))
  {
    assert On((s + [x])[|s|], u, x.fecha);
    forall d | d != x.fecha
      ensures CompletedOn(s + [x], u, d) <==> CompletedOn(s, u, d)
    {
      if CompletedOn(s, u, d) {
        var i :| 0 <= i < |s| && On(s[i], u, d) && s[i].completed;
        assert (s + [x])[i] == s[i];
      }
      if CompletedOn(s + [x], u, d) {
        var i :| 0 <= i < |s + [x]| && On((s + [x])[i], u, d) && (s + [x])[i].completed;
        assert i < |s| && s[i] == (s + [x])[i];
      }
    }
  }
}
