/**
 * The batch repair `reparar_registros_financieros`, in its three passes
 * over the rows in scope (all rows, or one user's): rows dated before
 * their user's start date are moved to it, duplicate (user, date) rows are
 * reduced to the best one, and every remaining row is normalized and its
 * leftover recomputed.
 */
module Reparador {
  import opened Wrappers
  import opened Decimals
  import Normalizar
  import Calculadora
  import Validators
  import Dates
  import Registro
  import Configuracion
  import opened Almacen

  /** `registros`: every row, or only the rows of `usuario` when one is given. */
  predicate InScope(x: Registro.Record, scope: Option<User>) {
    scope.None? || x.user == scope.value
  }

  // ---------------------------------------------------------------
  // Pass 1: dates before the start date
  // ---------------------------------------------------------------

  /**
   * The start date a row would be moved to: its user has a configuration
   * with a start date later than the row's date.  A user without a
   * configuration makes the lookup raise, which the pass catches and skips.
   */
  function Target(x: Registro.Record, configs: Configs): (d: Option<Dates.Date>)
    ensures d.Some? ==> x.fecha < d.value
  {
    if x.user in configs && configs[x.user].start.Some? && x.fecha < configs[x.user].start.value
    then configs[x.user].start
    else None
  }

  /** A row other than the `i`-th holds `u`'s day `d`. */
  predicate TakenByOther(s: Store, i: nat, u: User, d: Dates.Date) {
    exists j :: 0 <= j < |s| && j != i && On(s[j], u, d)
  }

  /**
   * `reg.save(update_fields=["fecha"])` of the `i`-th row moved to `d`: its
   * validation refuses the move when another row already holds that day or
   * the row itself does not validate, and the pass swallows the error.
   */
  predicate MoveAccepted(s: Store, i: nat, d: Dates.Date)
    requires i < |s|
  {
    !TakenByOther(s, i, s[i].user, d) && Registro.Save(s[i].(fecha := d)).Ok?
  }

  /** The number of positions below `n` where `s` and `t` differ. */
  function Changed(s: Store, t: Store, n: nat): (c: nat)
    requires n <= |s| && n <= |t|
    ensures c <= n
  {
    if n == 0 then 0 else Changed(s, t, n - 1) + (if s[n - 1] != t[n - 1] then 1 else 0)
  }

  lemma {:induction false} ChangedNone(s: Store, n: nat)
    requires n <= |s|
    ensures Changed(s, s, n) == 0
  {
    if n > 0 {
      ChangedNone(s, n - 1);
    }
  }

  /** Pass 1 on the `i`-th row of the table `t` as it stands. */
  function MoveRow(t: Store, configs: Configs, scope: Option<User>, i: nat): (t': Store)
    requires i < |t|
    ensures |t'| == |t| && forall j :: 0 <= j < |t| && j != i ==> t'[j] == t[j]
  {
    var x := t[i];
    if InScope(x, scope) && Target(x, configs).Some? && MoveAccepted(t, i, Target(x, configs).value)
    then t[i := x.(fecha := Target(x, configs).value)]
    else t
  }

  /** Every row of `t` that differs from `s` is a row in scope moved to its start date. */
  predicate OnlyMoves(s: Store, t: Store, configs: Configs, scope: Option<User>)
    requires |s| == |t|
  {
    forall j :: 0 <= j < |s| && t[j] != s[j] ==>
      InScope(s[j], scope) && Target(s[j], configs).Some? && t[j] == s[j].(fecha := Target(s[j], configs).value)
  }

  /** Every row in scope listed in `vis` and still before its start date was refused the move. */
  predicate Refused(s: Store, t: Store, configs: Configs, scope: Option<User>, vis: seq<nat>)
    requires |s| == |t|
  {
    forall j :: 0 <= j < |s| && j in vis && InScope(s[j], scope) && Target(t[j], configs).Some? ==>
      t[j] == s[j] && !MoveAccepted(t, j, Target(t[j], configs).value)
  }

  /** Pass 1 moves at most one row of each user, since every move of a user's rows lands on the same day. */
  predicate OneMovePerUser(s: Store, t: Store)
    requires |s| == |t|
  {
    forall i, k :: 0 <= i < |s| && 0 <= k < |s| && i != k && t[i] != s[i] && t[k] != s[k] ==> s[i].user != s[k].user
  }

  /**
   * A row moved by pass 1 beat every row of its user in scope listed
   * before it in `vis`: each of those would not have validated on the
   * start date.
   */
  predicate FirstToMove(s: Store, t: Store, configs: Configs, scope: Option<User>, vis: seq<nat>)
    requires |s| == |t|
  {
    forall p, q :: 0 <= p < q < |vis| && vis[p] < |s| && vis[q] < |s|
                   && t[vis[q]] != s[vis[q]] && s[vis[p]].user == s[vis[q]].user
                   && InScope(s[vis[p]], scope) && Target(s[vis[p]], configs).Some? ==>
      !Registro.Save(s[vis[p]].(fecha := Target(s[vis[p]], configs).value)).Ok?
  }

  /**
   * Pass 1 visits row `a` before row `b`: the table's default ordering is
   * by date, latest first, and rows of one date are taken in table order.
   */
  predicate Before(s: Store, a: nat, b: nat)
    requires a < |s| && b < |s|
  {
    s[a].fecha > s[b].fecha || (s[a].fecha == s[b].fecha && a < b)
  }

  /** `o` lists rows of `s`, each visited before the next. */
  predicate Visits(s: Store, o: seq<nat>) {
    (forall p :: 0 <= p < |o| ==> o[p] < |s|)
    && forall p, q :: 0 <= p < q < |o| ==> Before(s, o[p], o[q])
  }

  /** `o` with row `k` put in its place in the visiting order. */
  function InsertVisit(s: Store, o: seq<nat>, k: nat): (r: seq<nat>)
    requires k < |s| && Visits(s, o) && k !in o
    ensures |r| == |o| + 1 && Visits(s, r)
    ensures forall x: nat :: x in r <==> x in o || x == k
  {
    if |o| == 0 then [k]
    else if Before(s, k, o[0]) then [k] + o
    else
      var rest := InsertVisit(s, o[1..], k);
      assert forall q :: 0 <= q < |rest| ==> rest[q] in rest;
      assert forall x :: x in o[1..] ==> Before(s, o[0], x);
      [o[0]] + rest
  }

  /** The rows `0..n` in the order pass 1 visits them. */
  function VisitOrder(s: Store, n: nat): (o: seq<nat>)
    requires n <= |s|
    ensures |o| == n && Visits(s, o)
    ensures forall x: nat :: x in o <==> x < n
  {
    if n == 0 then [] else InsertVisit(s, VisitOrder(s, n - 1), n - 1)
  }

  /** A visiting order lists each row at most once. */
  lemma VisitsDistinct(s: Store, o: seq<nat>)
    requires Visits(s, o)
    ensures forall p :: 0 <= p < |o| ==> o[p] < |s|
    ensures forall p, q :: 0 <= p < q < |o| ==> o[p] != o[q]
  {
  }

  /** Before pass 1 has visited anything, the loop state holds of the untouched table. */
  lemma PassOneStart(s: Store, configs: Configs, scope: Option<User>)
    ensures PassOne(s, s, configs, scope, [])
  {
  }

  /** Listed before in a visiting order is visited before. */
  lemma VisitedEarlier(s: Store, o: seq<nat>, i: nat, k: nat)
    requires Visits(s, o) && i < |s| && k < |s| && i in o && k in o && Before(s, i, k)
    ensures exists p, q :: 0 <= p < q < |o| && o[p] == i && o[q] == k
  {
    var p :| 0 <= p < |o| && o[p] == i;
    var q :| 0 <= q < |o| && o[q] == k;
  }

  /** Moving one row, or not, adds one to the count of changed rows exactly when the row changes. */
  lemma {:induction false} ChangedOne(s: Store, t: Store, t': Store, k: nat, n: nat)
    requires n <= |s| == |t| == |t'| && k < |s| && t[k] == s[k]
    requires forall j :: 0 <= j < |s| && j != k ==> t'[j] == t[j]
    ensures Changed(s, t', n) == Changed(s, t, n) + (if k < n && t'[k] != s[k] then 1 else 0)
  {
    if n > 0 {
      ChangedOne(s, t, t', k, n - 1);
    }
  }

  /** The loop state of pass 1 after visiting the rows `vis`, a prefix of the visiting order. */
  predicate PassOne(s: Store, t: Store, configs: Configs, scope: Option<User>, vis: seq<nat>)
    requires |s| == |t|
  {
    OnlyMoves(s, t, configs, scope) && Refused(s, t, configs, scope, vis)
    && OneMovePerUser(s, t) && FirstToMove(s, t, configs, scope, vis)
    && forall j :: 0 <= j < |s| && j !in vis ==> t[j] == s[j]
  }

  /** Visiting row `k` keeps the loop state, now with `k` visited. */
  lemma FixDatesStep(s: Store, t: Store, configs: Configs, scope: Option<User>, vis: seq<nat>, k: nat)
    requires |s| == |t| && k < |s| && k !in vis
    requires PassOne(s, t, configs, scope, vis)
    ensures var t' := MoveRow(t, configs, scope, k);
            PassOne(s, t', configs, scope, vis + [k]) && Changed(s, t', |s|) == Changed(s, t, |s|) + (if t' != t then 1 else 0)
  {
    hide Registro.Save;
    var t' := MoveRow(t, configs, scope, k);
    assert t[k] == s[k];
    ChangedOne(s, t, t', k, |s|);
    if t' != t {
      FixDatesMoved(s, t, configs, scope, vis, k);
    } else {
      FixDatesUnmoved(s, t, configs, scope, vis, k);
    }
  }

  /** `FixDatesStep` when row `k` stays where it is. */
  lemma FixDatesUnmoved(s: Store, t: Store, configs: Configs, scope: Option<User>, vis: seq<nat>, k: nat)
    requires |s| == |t| && k < |s| && k !in vis
    requires PassOne(s, t, configs, scope, vis)
    requires MoveRow(t, configs, scope, k) == t
    ensures PassOne(s, t, configs, scope, vis + [k])
  {
    assert t[k] == s[k];
    UnmovedRefused(s, t, configs, scope, vis, k);
    UnmovedFirst(s, t, configs, scope, vis, k);
    hide Registro.Save, OnlyMoves, Refused, OneMovePerUser, FirstToMove, MoveRow;
    assert forall j :: 0 <= j < |s| && j !in vis + [k] ==> j !in vis;
  }

  /** A row left where it is was refused the move, if it wanted one. */
  lemma UnmovedRefused(s: Store, t: Store, configs: Configs, scope: Option<User>, vis: seq<nat>, k: nat)
    requires |s| == |t| && k < |s| && t[k] == s[k] && Refused(s, t, configs, scope, vis)
    requires MoveRow(t, configs, scope, k) == t
    ensures Refused(s, t, configs, scope, vis + [k])
  {
    hide Registro.Save;
  }

  /** Visiting a row that stays adds no move to be first at. */
  lemma UnmovedFirst(s: Store, t: Store, configs: Configs, scope: Option<User>, vis: seq<nat>, k: nat)
    requires |s| == |t| && k < |s| && t[k] == s[k] && FirstToMove(s, t, configs, scope, vis)
    ensures FirstToMove(s, t, configs, scope, vis + [k])
  {
    hide Registro.Save;
    assert forall p :: 0 <= p < |vis| ==> (vis + [k])[p] == vis[p];
  }

  /** `FixDatesStep` when row `k` is moved. */
  lemma FixDatesMoved(s: Store, t: Store, configs: Configs, scope: Option<User>, vis: seq<nat>, k: nat)
    requires |s| == |t| && k < |s| && k !in vis
    requires PassOne(s, t, configs, scope, vis)
    requires MoveRow(t, configs, scope, k) != t
    ensures PassOne(s, MoveRow(t, configs, scope, k), configs, scope, vis + [k])
  {
    var t' := MoveRow(t, configs, scope, k);
    assert t[k] == s[k];
    MovedOnlyMoves(s, t, configs, scope, k);
    MovedRefused(s, t, configs, scope, vis, k);
    MovedAlone(s, t, configs, scope, k);
    MovedFirst(s, t, configs, scope, vis, k);
    hide Registro.Save, OnlyMoves, Refused, OneMovePerUser, FirstToMove, MoveRow;
    assert forall j :: 0 <= j < |s| && j !in vis + [k] ==> j != k && j !in vis;
  }

  /** A moved row lands on its start date. */
  lemma MovedOnlyMoves(s: Store, t: Store, configs: Configs, scope: Option<User>, k: nat)
    requires |s| == |t| && k < |s| && t[k] == s[k] && OnlyMoves(s, t, configs, scope)
    requires MoveRow(t, configs, scope, k) != t
    ensures OnlyMoves(s, MoveRow(t, configs, scope, k), configs, scope)
  {
    hide Registro.Save;
  }

  /** A move refused earlier stays refused, and the moved row is no longer before its start date. */
  lemma MovedRefused(s: Store, t: Store, configs: Configs, scope: Option<User>, vis: seq<nat>, k: nat)
    requires |s| == |t| && k < |s| && k !in vis && t[k] == s[k] && Refused(s, t, configs, scope, vis)
    requires MoveRow(t, configs, scope, k) != t
    ensures Refused(s, MoveRow(t, configs, scope, k), configs, scope, vis + [k])
  {
    hide Registro.Save;
    var t' := MoveRow(t, configs, scope, k);
    StillBlocked(t, k, configs, t', |t|);
    assert Target(t'[k], configs).None?;
  }

  /** A row that moves is the only one of its user to have moved. */
  lemma MovedAlone(s: Store, t: Store, configs: Configs, scope: Option<User>, k: nat)
    requires |s| == |t| && k < |s| && t[k] == s[k]
    requires OnlyMoves(s, t, configs, scope) && OneMovePerUser(s, t)
    requires MoveRow(t, configs, scope, k) != t
    ensures OneMovePerUser(s, MoveRow(t, configs, scope, k))
  {
    hide Registro.Save;
    var t' := MoveRow(t, configs, scope, k);
    var u, d := s[k].user, Target(s[k], configs).value;
    assert !TakenByOther(t, k, u, d);
  }

  /** A row that moves beats every earlier-visited row of its user, none of which validated on the start date. */
  lemma MovedFirst(s: Store, t: Store, configs: Configs, scope: Option<User>, vis: seq<nat>, k: nat)
    requires |s| == |t| && k < |s| && k !in vis
    requires t[k] == s[k] && OnlyMoves(s, t, configs, scope) && Refused(s, t, configs, scope, vis)
    requires FirstToMove(s, t, configs, scope, vis)
    requires MoveRow(t, configs, scope, k) != t
    ensures FirstToMove(s, MoveRow(t, configs, scope, k), configs, scope, vis + [k])
  {
    hide Registro.Save;
    var t' := MoveRow(t, configs, scope, k);
    var u, d := s[k].user, Target(s[k], configs).value;
    assert !TakenByOther(t, k, u, d) && t' == t[k := s[k].(fecha := d)];
    hide MoveRow;
    var w := vis + [k];
    forall p | 0 <= p < |vis| && w[p] < |s| && s[w[p]].user == u && InScope(s[w[p]], scope) && Target(s[w[p]], configs).Some?
      ensures !Registro.Save(s[w[p]].(fecha := Target(s[w[p]], configs).value)).Ok?
    {
      var i := w[p];
      assert i == vis[p] && i in vis && i != k;
      EarlierRowInvalid(s, t, configs, scope, vis, k, i);
    }
    assert forall p :: 0 <= p < |vis| ==> w[p] == vis[p];
  }

  /**
   * A row of the same user visited before a row whose move is accepted
   * was refused for its own sake: the day was still free.
   */
  lemma EarlierRowInvalid(s: Store, t: Store, configs: Configs, scope: Option<User>, vis: seq<nat>, k: nat, i: nat)
    requires |s| == |t| && k < |s| && i < |s| && i in vis && i != k && t[k] == s[k]
    requires OnlyMoves(s, t, configs, scope) && Refused(s, t, configs, scope, vis)
    requires Target(s[k], configs).Some? && MoveAccepted(t, k, Target(s[k], configs).value)
    requires s[i].user == s[k].user && InScope(s[i], scope) && Target(s[i], configs).Some?
    ensures !Registro.Save(s[i].(fecha := Target(s[i], configs).value)).Ok?
  {
    hide Registro.Save;
    var u, d := s[k].user, Target(s[k], configs).value;
    assert !TakenByOther(t, k, u, d);
  }

  /**
   * Pass 1: each row in scope, latest date first, dated before its user's
   * start date is moved to the start date when the move validates.
   * Returns the table and `fechas_fuera_de_rango`.
   */
  method FixDates(s: Store, configs: Configs, scope: Option<User>) returns (t: Store, moved: nat)
    ensures |t| == |s|
    ensures forall i :: 0 <= i < |s| && t[i] != s[i] ==>
              InScope(s[i], scope) && Target(s[i], configs).Some? && t[i] == s[i].(fecha := Target(s[i], configs).value)
    ensures forall i :: 0 <= i < |s| && InScope(s[i], scope) && Target(t[i], configs).Some? ==>
              t[i] == s[i] && !MoveAccepted(t, i, Target(t[i], configs).value)
    ensures forall i, k :: 0 <= i < |s| && 0 <= k < |s| && i != k && t[i] != s[i] && t[k] != s[k] ==> s[i].user != s[k].user
    ensures forall i, k ::
              (0 <= i < |s| && 0 <= k < |s| && t[k] != s[k] && i != k && s[i].user == s[k].user
               && InScope(s[i], scope) && Target(s[i], configs).Some? && Before(s, i, k)) ==>
              !Registro.Save(s[i].(fecha := Target(s[i], configs).value)).Ok?
    ensures moved == Changed(s, t, |s|)
  {
    hide Registro.Save;
    hide *;
    var order := VisitOrder(s, |s|);
    t, moved := s, 0;
    ChangedNone(s, |s|);
    VisitsDistinct(s, order);
    PassOneStart(s, configs, scope);
    assert order[..0] == [];
    var p := 0;
    while p < |order|
      invariant p <= |order| && |t| == |s|
      invariant PassOne(s, t, configs, scope, order[..p])
      invariant moved == Changed(s, t, |s|)
    {
      assert order[p] !in order[..p];
      FixDatesStep(s, t, configs, scope, order[..p], order[p]);
      var t' := MoveRow(t, configs, scope, order[p]);
      if t' != t {
        moved := moved + 1;
      }
      t := t';
      assert order[..p + 1] == order[..p] + [order[p]];
      p := p + 1;
    }
    assert order[..p] == order;
    PassOneDone(s, t, configs, scope, order);
  }

  /** After visiting every row in the visiting order, the loop state says what pass 1 promises. */
  lemma PassOneDone(s: Store, t: Store, configs: Configs, scope: Option<User>, order: seq<nat>)
    requires |s| == |t| && Visits(s, order) && forall x: nat :: x in order <==> x < |s|
    requires PassOne(s, t, configs, scope, order)
    ensures forall i :: 0 <= i < |s| && t[i] != s[i] ==>
              InScope(s[i], scope) && Target(s[i], configs).Some? && t[i] == s[i].(fecha := Target(s[i], configs).value)
    ensures forall i :: 0 <= i < |s| && InScope(s[i], scope) && Target(t[i], configs).Some? ==>
              t[i] == s[i] && !MoveAccepted(t, i, Target(t[i], configs).value)
    ensures forall i, k :: 0 <= i < |s| && 0 <= k < |s| && i != k && t[i] != s[i] && t[k] != s[k] ==> s[i].user != s[k].user
    ensures forall i, k ::
              (0 <= i < |s| && 0 <= k < |s| && t[k] != s[k] && i != k && s[i].user == s[k].user
               && InScope(s[i], scope) && Target(s[i], configs).Some? && Before(s, i, k)) ==>
              !Registro.Save(s[i].(fecha := Target(s[i], configs).value)).Ok?
  {
    hide Registro.Save;
    forall i, k | 0 <= i < |s| && 0 <= k < |s| && t[k] != s[k] && i != k && s[i].user == s[k].user
                  && InScope(s[i], scope) && Target(s[i], configs).Some? && Before(s, i, k)
      ensures !Registro.Save(s[i].(fecha := Target(s[i], configs).value)).Ok?
    {
      VisitedEarlier(s, order, i, k);
    }
  }

  /** A day of user 1 dated `d` that `save` accepts. */
  function EarlyRow(d: Dates.Date): (r: Registro.Record)
    ensures r.user == 1 && r.fecha == d && Registro.Save(r).Ok?
  {
    Registro.ScenarioSave();
    Registro.SaveIgnoresDate(Registro.ScenarioRecord(), d);
    Registro.ScenarioRecord().(fecha := d)
  }

  lemma EarlyRowRedated(d: Dates.Date, d': Dates.Date)
    ensures EarlyRow(d).(fecha := d') == EarlyRow(d')
  {
    hide Registro.Save;
  }

  /** User 1's configuration with the start date 10. */
  function StartsAtTen(): Configs {
    map[1 := Configuracion.NewConfig(1).(start := Some(10))]
  }

  /**
   * Two rows of user 1 dated 5 and 7, in that table order, and a start
   * date of 10: the row dated 7 is visited first and takes the start
   * date, and the row dated 5 is then refused it.
   */
  lemma LatestRowMovesFirst()
    ensures var s := [EarlyRow(5), EarlyRow(7)];
            var t := [EarlyRow(5), EarlyRow(10)];
            VisitOrder(s, 2) == [1, 0] && MoveRow(s, StartsAtTen(), None, 1) == t && MoveRow(t, StartsAtTen(), None, 0) == t
  {
    EarlyRowRedated(7, 10);
    LaterDateFirst([EarlyRow(5), EarlyRow(7)]);
    LaterRowMoves(EarlyRow(5), EarlyRow(7));
    EarlierRowRefused(EarlyRow(5), EarlyRow(10));
  }

  /** Of two rows, the later-dated one is visited first, whatever their table order. */
  lemma LaterDateFirst(s: Store)
    requires |s| == 2 && s[0].fecha < s[1].fecha
    ensures VisitOrder(s, 2) == [1, 0]
  {
    assert VisitOrder(s, 1) == [0];
  }

  /** The later row, alone on its user's start date, moves there when `save` accepts it. */
  lemma LaterRowMoves(a: Registro.Record, b: Registro.Record)
    requires a.user == b.user == 1 && a.fecha == 5 && b.fecha == 7 && Registro.Save(b.(fecha := 10)).Ok?
    ensures MoveRow([a, b], StartsAtTen(), None, 1) == [a, b.(fecha := 10)]
  {
    hide Registro.Save;
    assert !TakenByOther([a, b], 1, 1, 10);
  }

  /** The earlier row is refused the start date the later one already holds. */
  lemma EarlierRowRefused(a: Registro.Record, c: Registro.Record)
    requires a.user == c.user == 1 && a.fecha == 5 && c.fecha == 10
    ensures MoveRow([a, c], StartsAtTen(), None, 0) == [a, c]
  {
    assert On([a, c][1], 1, 10);
  }

  /**
   * Moving row `i` onto its start date does not unblock a row that an
   * earlier row kept from moving: rows are only ever moved onto a start
   * date, never off one.
   */
  lemma StillBlocked(t: Store, i: nat, configs: Configs, t': Store, n: nat)
    requires i < |t| && n <= |t| && Target(t[i], configs).Some?
    requires t' == t[i := t[i].(fecha := Target(t[i], configs).value)]
    ensures forall j :: 0 <= j < n && j != i && Target(t[j], configs).Some? && !MoveAccepted(t, j, Target(t[j], configs).value) ==>
              !MoveAccepted(t', j, Target(t'[j], configs).value)
  {
    forall j | 0 <= j < n && j != i && Target(t[j], configs).Some? && !MoveAccepted(t, j, Target(t[j], configs).value)
      ensures !MoveAccepted(t', j, Target(t'[j], configs).value)
    {
      var d := Target(t[j], configs).value;
      assert t'[j] == t[j];
      if TakenByOther(t, j, t[j].user, d) {
        var k :| 0 <= k < |t| && k != j && On(t[k], t[j].user, d);
        assert k != i;
        assert On(t'[k], t[j].user, d);
      }
    }
  }

  // ---------------------------------------------------------------
  // Pass 2: duplicates
  // ---------------------------------------------------------------

  /** The key of a row, as the pass's dictionary `vistos` holds it. */
  function Key(x: Registro.Record): (User, Dates.Date) {
    (x.user, x.fecha)
  }

  /** The sum of the four normalized amounts the pass compares duplicates by. */
  function Weight(x: Registro.Record): real {
    Normalizar.Amount(x.food) + Normalizar.Amount(x.products) + Normalizar.Amount(x.savings) + Normalizar.Amount(x.budget)
  }

  /** Some row below `m` has the key `k`. */
  predicate HasKey(s: Store, m: nat, k: (User, Dates.Date))
    requires m <= |s|
  {
    m > 0 && (Key(s[m - 1]) == k || HasKey(s, m - 1, k))
  }

  lemma {:induction false} HasKeyIff(s: Store, m: nat, k: (User, Dates.Date))
    requires m <= |s|
    ensures HasKey(s, m, k) <==> exists j :: 0 <= j < m && Key(s[j]) == k
  {
    if m > 0 {
      HasKeyIff(s, m - 1, k);
    }
  }

  /**
   * Among the rows below `n`, the `c`-th is the one the pass keeps for its
   * key: every earlier row of that key weighs strictly less and no later
   * one weighs more, since only a strictly heavier row replaces the one
   * already kept.
   */
  predicate Best(s: Store, c: nat, n: nat)
    requires c < n <= |s|
  {
    forall j :: 0 <= j < n && j != c && Key(s[j]) == Key(s[c]) ==>
      (j < c ==> Weight(s[j]) < Weight(s[c])) && (j > c ==> Weight(s[j]) <= Weight(s[c]))
  }

  /** A row's own key is among the keys of any prefix holding it. */
  lemma {:induction false} HasKeyOf(s: Store, m: nat, j: nat)
    requires j < m <= |s|
    ensures HasKey(s, m, Key(s[j]))
  {
    if j < m - 1 {
      HasKeyOf(s, m - 1, j);
    }
  }

  /** The row kept so far for the key `k` once the rows below `m` have been visited. */
  function BestOf(s: Store, m: nat, k: (User, Dates.Date)): (c: nat)
    requires m <= |s| && HasKey(s, m, k)
    ensures c < m && Key(s[c]) == k
  {
    var c := if HasKey(s, m - 1, k) then BestOf(s, m - 1, k) else m - 1;
    if Key(s[m - 1]) != k then c
    else if !HasKey(s, m - 1, k) then m - 1
    else if Weight(s[m - 1]) > Weight(s[c]) then m - 1
    else c
  }

  /** The row `BestOf` picks is the best of its key: it is what the scan keeps. */
  lemma {:induction false} BestOfIsBest(s: Store, m: nat, k: (User, Dates.Date))
    requires m <= |s| && HasKey(s, m, k)
    ensures Best(s, BestOf(s, m, k), m)
  {
    hide Weight;
    if !HasKey(s, m - 1, k) {
      HasKeyIff(s, m - 1, k);
      BestStepFirst(s, m);
    } else {
      var b := BestOf(s, m - 1, k);
      BestOfIsBest(s, m - 1, k);
      if Key(s[m - 1]) != k {
        BestStepOther(s, m, b);
      } else if Weight(s[m - 1]) > Weight(s[b]) {
        BestStepReplace(s, m, b);
      } else {
        BestStepKeep(s, m, b);
      }
    }
  }

  /** The first row of its key is the best so far. */
  lemma BestStepFirst(s: Store, m: nat)
    requires 0 < m <= |s| && forall j :: 0 <= j < m - 1 ==> Key(s[j]) != Key(s[m - 1])
    ensures Best(s, m - 1, m)
  {
    hide Weight;
  }

  /** A row of another key leaves the best row of a key as it was. */
  lemma BestStepOther(s: Store, m: nat, c: nat)
    requires c < m - 1 && m <= |s| && Best(s, c, m - 1) && Key(s[m - 1]) != Key(s[c])
    ensures Best(s, c, m)
  {
    hide Weight;
    forall j | 0 <= j < m && j != c && Key(s[j]) == Key(s[c])
      ensures (j < c ==> Weight(s[j]) < Weight(s[c])) && (j > c ==> Weight(s[j]) <= Weight(s[c]))
    {
      assert j < m - 1;
    }
  }

  /** A row of the same key that weighs no more leaves the best row as it was. */
  lemma BestStepKeep(s: Store, m: nat, c: nat)
    requires c < m - 1 && m <= |s| && Best(s, c, m - 1)
    requires Key(s[m - 1]) == Key(s[c]) && Weight(s[m - 1]) <= Weight(s[c])
    ensures Best(s, c, m)
  {
    hide Weight;
    forall j | 0 <= j < m - 1 && j != c && Key(s[j]) == Key(s[c])
      ensures (j < c ==> Weight(s[j]) < Weight(s[c])) && (j > c ==> Weight(s[j]) <= Weight(s[c]))
    {
    }
  }

  /** A strictly heavier row of the same key becomes the best. */
  lemma BestStepReplace(s: Store, m: nat, b: nat)
    requires b < m - 1 && m <= |s| && Best(s, b, m - 1)
    requires Key(s[m - 1]) == Key(s[b]) && Weight(s[m - 1]) > Weight(s[b])
    ensures Best(s, m - 1, m)
  {
    hide Weight;
    forall j | 0 <= j < m - 1 && Key(s[j]) == Key(s[m - 1])
      ensures Weight(s[j]) < Weight(s[m - 1])
    {
      if j != b {
        assert Weight(s[j]) <= Weight(s[b]);
      }
    }
  }


  /** A row the pass keeps: out of scope, or the best of its key in the whole table. */
  predicate Kept(s: Store, scope: Option<User>, i: nat)
    requires i < |s|
  {
    HasKeyOf(s, |s|, i);
    !InScope(s[i], scope) || BestOf(s, |s|, Key(s[i])) == i
  }

  /** The rows of the first `n` the pass keeps, in table order. */
  function KeptRows(s: Store, scope: Option<User>, n: nat): (t: Store)
    requires n <= |s|
    ensures |t| <= n
  {
    if n == 0 then []
    else KeptRows(s, scope, n - 1) + (if Kept(s, scope, n - 1) then [s[n - 1]] else [])
  }

  /** The number of rows of the first `n` the pass deletes. */
  function Dropped(s: Store, scope: Option<User>, n: nat): (c: nat)
    requires n <= |s|
  {
    if n == 0 then 0 else Dropped(s, scope, n - 1) + (if Kept(s, scope, n - 1) then 0 else 1)
  }

  /** Pass 2 as a value: the table without the rows it deletes. */
  function Deduplicated(s: Store, scope: Option<User>): Store {
    KeptRows(s, scope, |s|)
  }

  /** Kept and deleted rows account for the whole table. */
  lemma {:induction false} KeptPlusDropped(s: Store, scope: Option<User>, n: nat)
    requires n <= |s|
    ensures |KeptRows(s, scope, n)| + Dropped(s, scope, n) == n
  {
    hide Weight;
    if n > 0 {
      KeptPlusDropped(s, scope, n - 1);
    }
  }

  /** Among the first `n` rows, the kept rows of a key in scope are its best row, if it lies there. */
  lemma {:induction false} KeptCount(s: Store, scope: Option<User>, n: nat, u: User, d: Dates.Date)
    requires n <= |s| && (scope.None? || scope.value == u)
    ensures CountOn(KeptRows(s, scope, n), u, d)
            == (if HasKey(s, |s|, (u, d)) && BestOf(s, |s|, (u, d)) < n then 1 else 0)
  {
    hide Weight;
    if n > 0 {
      KeptCount(s, scope, n - 1, u, d);
      if Kept(s, scope, n - 1) {
        KeptCountKeptStep(s, scope, n, u, d);
      } else {
        KeptCountDroppedStep(s, scope, n, u, d);
      }
    }
  }

  /** `KeptCount`'s step over a row the pass keeps. */
  lemma KeptCountKeptStep(s: Store, scope: Option<User>, n: nat, u: User, d: Dates.Date)
    requires 0 < n <= |s| && (scope.None? || scope.value == u) && Kept(s, scope, n - 1)
    requires CountOn(KeptRows(s, scope, n - 1), u, d)
             == (if HasKey(s, |s|, (u, d)) && BestOf(s, |s|, (u, d)) < n - 1 then 1 else 0)
    ensures CountOn(KeptRows(s, scope, n), u, d)
            == (if HasKey(s, |s|, (u, d)) && BestOf(s, |s|, (u, d)) < n then 1 else 0)
  {
    hide Weight;
    var prev := KeptRows(s, scope, n - 1);
    var x := s[n - 1];
    HasKeyOf(s, |s|, n - 1);
    assert KeptRows(s, scope, n) == prev + [x];
    CountOnSnoc(prev, x, u, d);
    if On(x, u, d) {
      assert Key(x) == (u, d);
    } else if HasKey(s, |s|, (u, d)) {
      assert Key(s[BestOf(s, |s|, (u, d))]) == (u, d);
    }
  }

  /** `KeptCount`'s step over a row the pass deletes. */
  lemma KeptCountDroppedStep(s: Store, scope: Option<User>, n: nat, u: User, d: Dates.Date)
    requires 0 < n <= |s| && (scope.None? || scope.value == u) && !Kept(s, scope, n - 1)
    requires CountOn(KeptRows(s, scope, n - 1), u, d)
             == (if HasKey(s, |s|, (u, d)) && BestOf(s, |s|, (u, d)) < n - 1 then 1 else 0)
    ensures CountOn(KeptRows(s, scope, n), u, d)
            == (if HasKey(s, |s|, (u, d)) && BestOf(s, |s|, (u, d)) < n then 1 else 0)
  {
    hide Weight;
    HasKeyOf(s, |s|, n - 1);
    assert KeptRows(s, scope, n) == KeptRows(s, scope, n - 1);
    if HasKey(s, |s|, (u, d)) {
      assert Key(s[BestOf(s, |s|, (u, d))]) == (u, d);
    }
  }

  /**
   * After pass 2 a user in scope has at most one row per date, and still a
   * row on every date that had one.
   */
  lemma OneRowPerDay(s: Store, scope: Option<User>, u: User, d: Dates.Date)
    requires scope.None? || scope.value == u
    ensures CountOn(Deduplicated(s, scope), u, d) <= 1
    ensures CountOn(Deduplicated(s, scope), u, d) == 1 <==> Has(s, u, d)
  {
    hide Weight;
    KeptCount(s, scope, |s|, u, d);
    HasKeyIff(s, |s|, (u, d));
    if Has(s, u, d) {
      var i :| 0 <= i < |s| && On(s[i], u, d);
      assert Key(s[i]) == (u, d);
    }
  }

  /**
   * The row kept for a key in scope weighs at least as much as every row
   * of that key, and strictly more than every earlier one.
   */
  lemma KeptIsHeaviest(s: Store, scope: Option<User>, c: nat, j: nat)
    requires c < |s| && j < |s| && InScope(s[c], scope) && Kept(s, scope, c) && Key(s[j]) == Key(s[c])
    ensures Weight(s[j]) <= Weight(s[c])
    ensures j < c ==> Weight(s[j]) < Weight(s[c])
  {
    hide Weight;
    HasKeyOf(s, |s|, c);
    BestOfIsBest(s, |s|, Key(s[c]));
  }

  /** Rows outside the scope are all kept, in their order. */
  lemma {:induction false} OutOfScopeKept(s: Store, scope: Option<User>, n: nat, v: User)
    requires n <= |s| && scope.Some? && v != scope.value
    ensures OfUser(KeptRows(s, scope, n), v) == OfUser(s[..n], v)
  {
    hide Weight;
    if n > 0 {
      OutOfScopeKept(s, scope, n - 1, v);
      OutOfScopeStep(s, scope, n, v);
      assert s[..n] == s[..n - 1] + [s[n - 1]];
      OfUserAppend(s[..n - 1], [s[n - 1]], v);
    }
  }

  /** `OutOfScopeKept`'s step: row `n - 1` counts for `v` whether or not the pass keeps it. */
  lemma OutOfScopeStep(s: Store, scope: Option<User>, n: nat, v: User)
    requires 0 < n <= |s| && scope.Some? && v != scope.value
    ensures OfUser(KeptRows(s, scope, n), v) == OfUser(KeptRows(s, scope, n - 1), v) + OfUser([s[n - 1]], v)
  {
    hide Weight;
    var k := if Kept(s, scope, n - 1) then [s[n - 1]] else [];
    assert KeptRows(s, scope, n) == KeptRows(s, scope, n - 1) + k;
    OfUserAppend(KeptRows(s, scope, n - 1), k, v);
    assert OfUser(k, v) == OfUser([s[n - 1]], v) by {
      if !Kept(s, scope, n - 1) {
        assert [s[n - 1]][..0] == [];
      }
    }
  }

  /** The dictionary `vistos` after visiting the rows below `i`: each key in scope seen so far, with its best row. */
  predicate Dict(s: Store, scope: Option<User>, vistos: map<(User, Dates.Date), nat>, i: nat)
    requires i <= |s|
  {
    (forall j :: 0 <= j < i && InScope(s[j], scope) ==> Key(s[j]) in vistos)
    && (forall k :: k in vistos ==> (scope.None? || k.0 == scope.value) && HasKey(s, i, k) && vistos[k] == BestOf(s, i, k))
  }

  /** The dictionary after visiting the `i`-th row. */
  function NextDict(s: Store, scope: Option<User>, vistos: map<(User, Dates.Date), nat>, i: nat): map<(User, Dates.Date), nat>
    requires i < |s|
  {
    var k := Key(s[i]);
    if !InScope(s[i], scope) then vistos
    else if k !in vistos then vistos[k := i]
    else if vistos[k] < |s| && Weight(s[i]) > Weight(s[vistos[k]]) then vistos[k := i]
    else vistos
  }

  /** Visiting a row keeps the dictionary holding the best row of every key seen. */
  lemma DictStep(s: Store, scope: Option<User>, vistos: map<(User, Dates.Date), nat>, i: nat)
    requires i < |s| && Dict(s, scope, vistos, i)
    ensures Dict(s, scope, NextDict(s, scope, vistos, i), i + 1)
  {
    hide Weight;
    var v' := NextDict(s, scope, vistos, i);
    DictDomainStep(s, scope, vistos, i);
    forall k | k in v'
      ensures HasKey(s, i + 1, k) && v'[k] == BestOf(s, i + 1, k)
    {
      DictValueStep(s, scope, vistos, i, k);
    }
  }

  /** Visiting a row adds its key when it is in scope, and only keys in scope. */
  lemma DictDomainStep(s: Store, scope: Option<User>, vistos: map<(User, Dates.Date), nat>, i: nat)
    requires i < |s| && Dict(s, scope, vistos, i)
    ensures forall j :: 0 <= j < i + 1 && InScope(s[j], scope) ==> Key(s[j]) in NextDict(s, scope, vistos, i)
    ensures forall k :: k in NextDict(s, scope, vistos, i) ==> scope.None? || k.0 == scope.value
  {
    hide Weight;
  }

  /** Visiting a row keeps each key's entry at its best row. */
  lemma DictValueStep(s: Store, scope: Option<User>, vistos: map<(User, Dates.Date), nat>, i: nat, k: (User, Dates.Date))
    requires i < |s| && Dict(s, scope, vistos, i) && k in NextDict(s, scope, vistos, i)
    ensures HasKey(s, i + 1, k) && NextDict(s, scope, vistos, i)[k] == BestOf(s, i + 1, k)
  {
    hide Weight;
    var ki := Key(s[i]);
    if k != ki {
      OtherKeyStep(s, i, k);
    } else if ki !in vistos {
      forall j | 0 <= j < i ensures Key(s[j]) != ki {
        assert Key(s[j]) == ki ==> InScope(s[j], scope);
      }
      HasKeyIff(s, i, ki);
      NewKeyStep(s, i);
    } else {
      SameKeyStep(s, i);
    }
  }

  /** A row of another key leaves a key's best row where it was. */
  lemma OtherKeyStep(s: Store, i: nat, k: (User, Dates.Date))
    requires i < |s| && HasKey(s, i, k) && Key(s[i]) != k
    ensures HasKey(s, i + 1, k) && BestOf(s, i + 1, k) == BestOf(s, i, k)
  {
    hide Weight;
  }

  /** The first row of a key is its best row so far. */
  lemma NewKeyStep(s: Store, i: nat)
    requires i < |s| && !HasKey(s, i, Key(s[i]))
    ensures HasKey(s, i + 1, Key(s[i])) && BestOf(s, i + 1, Key(s[i])) == i
  {
    hide Weight;
  }

  /** A later row of a key replaces the best row so far only when it weighs strictly more. */
  lemma SameKeyStep(s: Store, i: nat)
    requires i < |s| && HasKey(s, i, Key(s[i]))
    ensures HasKey(s, i + 1, Key(s[i]))
    ensures BestOf(s, i + 1, Key(s[i]))
         == if Weight(s[i]) > Weight(s[BestOf(s, i, Key(s[i]))]) then i else BestOf(s, i, Key(s[i]))
  {
    hide Weight;
  }


  /** The deleted rows among those below `i`: each row in scope that the dictionary no longer holds. */
  ghost predicate Gone(s: Store, scope: Option<User>, vistos: map<(User, Dates.Date), nat>, gone: set<nat>, i: nat)
    requires i <= |s| && Dict(s, scope, vistos, i)
  {
    forall j :: j in gone <==> 0 <= j < i && InScope(s[j], scope) && vistos[Key(s[j])] != j
  }

  /** The deletions after visiting the `i`-th row: a clash deletes the lighter row, or the later on a tie. */
  function NextGone(s: Store, scope: Option<User>, vistos: map<(User, Dates.Date), nat>, gone: set<nat>, i: nat): set<nat>
    requires i < |s|
  {
    var k := Key(s[i]);
    if !InScope(s[i], scope) || k !in vistos then gone
    else if vistos[k] < |s| && Weight(s[i]) > Weight(s[vistos[k]]) then gone + {vistos[k]}
    else gone + {i}
  }

  /** Visiting a row keeps the deleted set exact. */
  lemma GoneStep(s: Store, scope: Option<User>, vistos: map<(User, Dates.Date), nat>, gone: set<nat>, i: nat)
    requires i < |s| && Dict(s, scope, vistos, i) && Gone(s, scope, vistos, gone, i)
    requires Dict(s, scope, NextDict(s, scope, vistos, i), i + 1)
    ensures Gone(s, scope, NextDict(s, scope, vistos, i), NextGone(s, scope, vistos, gone, i), i + 1)
  {
    hide Weight;
    if !InScope(s[i], scope) {
      assert NextDict(s, scope, vistos, i) == vistos && NextGone(s, scope, vistos, gone, i) == gone;
    } else if Key(s[i]) in vistos {
      GoneStepClash(s, scope, vistos, gone, i);
    } else {
      GoneStepNew(s, scope, vistos, gone, i);
    }
  }

  /** A row whose key was seen: the lighter of the two rows joins the deleted set. */
  lemma GoneStepClash(s: Store, scope: Option<User>, vistos: map<(User, Dates.Date), nat>, gone: set<nat>, i: nat)
    requires i < |s| && Dict(s, scope, vistos, i) && Gone(s, scope, vistos, gone, i)
    requires Dict(s, scope, NextDict(s, scope, vistos, i), i + 1)
    requires InScope(s[i], scope) && Key(s[i]) in vistos
    ensures Gone(s, scope, NextDict(s, scope, vistos, i), NextGone(s, scope, vistos, gone, i), i + 1)
  {
    hide Weight;
    var o := vistos[Key(s[i])];
    if o < |s| && Weight(s[i]) > Weight(s[o]) {
      assert NextDict(s, scope, vistos, i) == vistos[Key(s[i]) := i];
      GoneReplace(s, scope, vistos, gone, i);
    } else {
      assert NextDict(s, scope, vistos, i) == vistos;
      GoneDiscard(s, scope, vistos, gone, i);
    }
  }

  /** A heavier row replaces the one the dictionary held, which is deleted. */
  lemma GoneReplace(s: Store, scope: Option<User>, vistos: map<(User, Dates.Date), nat>, gone: set<nat>, i: nat)
    requires i < |s| && Dict(s, scope, vistos, i) && Gone(s, scope, vistos, gone, i)
    requires InScope(s[i], scope) && Key(s[i]) in vistos
    requires vistos[Key(s[i])] < |s| && Weight(s[i]) > Weight(s[vistos[Key(s[i])]])
    requires Dict(s, scope, vistos[Key(s[i]) := i], i + 1)
    ensures Gone(s, scope, vistos[Key(s[i]) := i], gone + {vistos[Key(s[i])]}, i + 1)
  {
    hide Weight;
    var k := Key(s[i]);
    var o := vistos[k];
    var v' := vistos[k := i];
    var g' := gone + {o};
    assert o !in gone && i !in gone;
    forall j | 0 <= j < i + 1 && InScope(s[j], scope)
      ensures j in g' <==> v'[Key(s[j])] != j
    {
      if Key(s[j]) != k {
        assert v'[Key(s[j])] == vistos[Key(s[j])];
      } else if j == i {
        assert v'[k] == i && i != o;
      } else {
        assert v'[k] == i && (j in gone <==> j != o);
      }
    }
  }

  /** A row no heavier than the one the dictionary holds is deleted itself. */
  lemma GoneDiscard(s: Store, scope: Option<User>, vistos: map<(User, Dates.Date), nat>, gone: set<nat>, i: nat)
    requires i < |s| && Dict(s, scope, vistos, i) && Gone(s, scope, vistos, gone, i)
    requires InScope(s[i], scope) && Key(s[i]) in vistos
    requires !(vistos[Key(s[i])] < |s| && Weight(s[i]) > Weight(s[vistos[Key(s[i])]]))
    requires Dict(s, scope, vistos, i + 1)
    ensures Gone(s, scope, vistos, gone + {i}, i + 1)
  {
    hide Weight;
    assert i !in gone;
  }

  /** A row with a new key: it enters the dictionary and nothing is deleted. */
  lemma GoneStepNew(s: Store, scope: Option<User>, vistos: map<(User, Dates.Date), nat>, gone: set<nat>, i: nat)
    requires i < |s| && Dict(s, scope, vistos, i) && Gone(s, scope, vistos, gone, i)
    requires Dict(s, scope, NextDict(s, scope, vistos, i), i + 1)
    requires InScope(s[i], scope) && Key(s[i]) !in vistos
    ensures Gone(s, scope, NextDict(s, scope, vistos, i), NextGone(s, scope, vistos, gone, i), i + 1)
  {
    hide Weight;
    var v' := NextDict(s, scope, vistos, i);
    var g' := NextGone(s, scope, vistos, gone, i);
    assert g' == gone;
    forall j | 0 <= j < i + 1 && InScope(s[j], scope)
      ensures j in g' <==> v'[Key(s[j])] != j
    {
      if j < i {
        assert Key(s[j]) in vistos;
        assert v'[Key(s[j])] == vistos[Key(s[j])];
      }
    }
  }

  /** A clash adds exactly one row to the deleted set. */
  lemma GoneCount(s: Store, scope: Option<User>, vistos: map<(User, Dates.Date), nat>, gone: set<nat>, i: nat)
    requires i < |s| && Dict(s, scope, vistos, i) && Gone(s, scope, vistos, gone, i)
    ensures |NextGone(s, scope, vistos, gone, i)| == |gone| + (if InScope(s[i], scope) && Key(s[i]) in vistos then 1 else 0)
  {
    hide Weight;
    var k := Key(s[i]);
    if InScope(s[i], scope) && k in vistos {
      var o := vistos[k];
      assert Key(s[o]) == k;
      assert o !in gone && i !in gone;
    }
  }

  /** Once every row is visited, the deleted rows are exactly those the pass does not keep. */
  lemma GoneIsDropped(s: Store, scope: Option<User>, vistos: map<(User, Dates.Date), nat>, gone: set<nat>)
    requires Dict(s, scope, vistos, |s|) && Gone(s, scope, vistos, gone, |s|)
    ensures forall j :: j in gone <==> 0 <= j < |s| && !Kept(s, scope, j)
  {
    hide Weight;
    forall j | 0 <= j < |s|
      ensures j in gone <==> !Kept(s, scope, j)
    {
      HasKeyOf(s, |s|, j);
    }
  }

  /** The code of one visit, on the dictionary, the deleted rows and the counter. */
  method Visit(s: Store, scope: Option<User>, vistos: map<(User, Dates.Date), nat>, gone: set<nat>, eliminated: nat, i: nat)
    returns (vistos': map<(User, Dates.Date), nat>, gone': set<nat>, eliminated': nat)
    requires i < |s| && Dict(s, scope, vistos, i)
    ensures vistos' == NextDict(s, scope, vistos, i) && gone' == NextGone(s, scope, vistos, gone, i)
    ensures eliminated' == eliminated + (if InScope(s[i], scope) && Key(s[i]) in vistos then 1 else 0)
  {
    hide Weight;
    vistos', gone', eliminated' := vistos, gone, eliminated;
    var x := s[i];
    var k := Key(x);
    if InScope(x, scope) && k in vistos {
      var o := vistos[k];
      if Weight(x) > Weight(s[o]) {
        vistos' := vistos[k := i];
        gone' := gone + {o};
      } else {
        gone' := gone + {i};
      }
      eliminated' := eliminated + 1;
    } else if InScope(x, scope) {
      vistos' := vistos[k := i];
    }
  }

  /**
   * Pass 2 as the code runs it: the rows in scope are visited with a
   * dictionary from (user, date) to the row kept so far; a later row of the
   * same key replaces it only when strictly heavier, and each clash deletes
   * one row and counts it.  Rows of one key share their date, and rows of
   * one date are taken in table order, which the database does not
   * promise (see the note on equal dates in the README).
   * Returns the indices deleted and `duplicados_eliminados`.
   */
  method Deduplicate(s: Store, scope: Option<User>) returns (gone: set<nat>, eliminated: nat)
    ensures forall i :: i in gone <==> 0 <= i < |s| && !Kept(s, scope, i)
    ensures eliminated == |gone|
  {
    hide Weight;
    var vistos: map<(User, Dates.Date), nat> := map[];
    gone, eliminated := {}, 0;
    var i := 0;
    while i < |s|
      invariant i <= |s| && Dict(s, scope, vistos, i) && Gone(s, scope, vistos, gone, i)
      invariant eliminated == |gone|
    {
      DictStep(s, scope, vistos, i);
      GoneStep(s, scope, vistos, gone, i);
      GoneCount(s, scope, vistos, gone, i);
      vistos, gone, eliminated := Visit(s, scope, vistos, gone, eliminated, i);
      i := i + 1;
    }
    GoneIsDropped(s, scope, vistos, gone);
  }

  // ---------------------------------------------------------------
  // Pass 3: normalize each row and recompute its leftover
  // ---------------------------------------------------------------

  /** A money amount is its own normal form. */
  lemma MoneyKept(v: Value)
    ensures IsMoney(v) ==> Normalizar.Normalize(v) == v
  {
    if IsMoney(v) {
      Normalizar.MoneyIsFixedPoint(v.d.v, Zero);
    }
  }

  /**
   * One amount in pass 3: the normalized value replaces the stored one when
   * Python's `!=` tells them apart (a `decimales_corregidos`), and a
   * negative normalized value would be zeroed (a
   * `valores_negativos_corregidos`).  Returns the value and whether each
   * counter moves.
   */
  function FixAmount(v: Value): (r: (Value, bool, bool))
    ensures !r.2
  {
    var n := Normalizar.Normalize(v);
    var (kept, fixes) := if PyEq(v, n) then (v, false) else (n, true);
    if AmountOf(n) < 0.0 then (Zero, fixes, true) else (kept, fixes, false)
  }

  /**
   * The fixed amount equals the normal form in Python's `==`, normalizes
   * and converts like the original, and is counted exactly when it
   * replaced the original; a money amount is left alone.
   */
  lemma FixAmountSpec(v: Value)
    ensures var r := FixAmount(v);
            PyEq(r.0, Normalizar.Normalize(v))
            && (r.1 <==> r.0 != v)
            && (IsMoney(v) ==> r == (v, false, false))
            && DecimalOf(r.0) == Ok(Fin(Normalizar.Amount(v)))
            && Normalizar.Normalize(r.0) == Normalizar.Normalize(v)
  {
    MoneyKept(v);
    Normalizar.NormalizeIdempotent(v, Zero);
  }

  /** How many of four counters move. */
  function Ones(a: bool, b: bool, c: bool, d: bool): (n: nat)
    ensures n <= 4 && (n == 0 <==> !a && !b && !c && !d)
  {
    (if a then 1 else 0) + (if b then 1 else 0) + (if c then 1 else 0) + (if d then 1 else 0)
  }

  /** A row as pass 3 leaves it before saving, with what it counted. */
  datatype Revision = Revision(row: Registro.Record, decimales: nat, negativos: nat, sobrante: bool)

  /** `modificado`: the row is saved and counted in `registros_actualizados`. */
  predicate Modified(r: Revision) {
    r.decimales > 0 || r.negativos > 0 || r.sobrante
  }

  /**
   * The loop over the four amounts: each is replaced by its normal form
   * when it differs from it, and nothing else changes.
   */
  function FixAmounts(x: Registro.Record): (r: Revision)
    ensures r.negativos == 0 && !r.sobrante && r.decimales <= 4 && Key(r.row) == Key(x)
  {
    var (f, df, nf) := FixAmount(x.food);
    var (p, dp, np) := FixAmount(x.products);
    var (s, ds, ns) := FixAmount(x.savings);
    var (b, db, nb) := FixAmount(x.budget);
    Revision(x.(food := f, products := p, savings := s, budget := b), Ones(df, dp, ds, db), Ones(nf, np, ns, nb), false)
  }

  /**
   * The four amounts are each brought to their normal form (in Python's
   * `==`), `decimales_corregidos` counts the ones replaced, and nothing
   * else changes.
   */
  lemma FixAmountsSpec(x: Registro.Record)
    ensures var r := FixAmounts(x);
            r.row == x.(budget := r.row.budget, food := r.row.food, products := r.row.products, savings := r.row.savings)
            && PyEq(r.row.budget, Normalizar.Normalize(x.budget)) && PyEq(r.row.food, Normalizar.Normalize(x.food))
            && PyEq(r.row.products, Normalizar.Normalize(x.products)) && PyEq(r.row.savings, Normalizar.Normalize(x.savings))
            && (r.decimales == 0 <==> r.row.budget == x.budget && r.row.food == x.food
                                      && r.row.products == x.products && r.row.savings == x.savings)
            && DecimalOf(r.row.budget) == Ok(Fin(Normalizar.Amount(x.budget)))
            && DecimalOf(r.row.food) == Ok(Fin(Normalizar.Amount(x.food)))
            && DecimalOf(r.row.products) == Ok(Fin(Normalizar.Amount(x.products)))
            && DecimalOf(r.row.savings) == Ok(Fin(Normalizar.Amount(x.savings)))
            && Normalizar.Normalize(r.row.budget) == Normalizar.Normalize(x.budget)
            && Normalizar.Normalize(r.row.food) == Normalizar.Normalize(x.food)
            && Normalizar.Normalize(r.row.products) == Normalizar.Normalize(x.products)
            && Normalizar.Normalize(r.row.savings) == Normalizar.Normalize(x.savings)
  {
    FixAmountSpec(x.budget);
    FixAmountSpec(x.food);
    FixAmountSpec(x.products);
    FixAmountSpec(x.savings);
  }

  /** The leftover a row's normalized amounts call for. */
  function Expected(x: Registro.Record): real {
    Calculadora.Leftover(Normalizar.Amount(x.budget), Normalizar.Amount(x.food),
                         Normalizar.Amount(x.savings), Normalizar.Amount(x.products))
  }

  /**
   * `normalizar_decimal(calcular_sobrante(para_gastar_dia, alimento,
   * ahorro_y_deuda, productos))` under the four-argument reading, on
   * amounts `Decimal()` reads as finite numbers: the clamped balance.
   */
  function Recomputed(b: Value, f: Value, s: Value, p: Value): (v: Value)
    requires DecimalOf(b).Ok? && DecimalOf(b).value.Fin? && DecimalOf(f).Ok? && DecimalOf(f).value.Fin?
    requires DecimalOf(s).Ok? && DecimalOf(s).value.Fin? && DecimalOf(p).Ok? && DecimalOf(p).value.Fin?
    ensures v == Money(Calculadora.Leftover(DecimalOf(b).value.v, DecimalOf(f).value.v,
                                            DecimalOf(s).value.v, DecimalOf(p).value.v))
  {
    var leftover := Calculadora.Leftover(DecimalOf(b).value.v, DecimalOf(f).value.v,
                                         DecimalOf(s).value.v, DecimalOf(p).value.v);
    Normalizar.MoneyIsFixedPoint(leftover, Zero);
    Calculadora.CalcularSobrante4Finite(b, f, s, p);
    hide Calculadora.CalcularSobrante4;
    match Calculadora.CalcularSobrante4(b, f, s, p)
    case Ok(d) => Normalizar.Normalize(Num(d))
    case Err(_) => assert false; Zero
  }

  /**
   * Pass 3 on one row: the amounts are fixed; unless the leftover is
   * fixed, it is replaced by the recomputed leftover when it differs from
   * it.
   */
  function Revise(x: Registro.Record): (r: Revision)
    ensures Key(r.row) == Key(x) && r.negativos == 0 && r.decimales <= 4
  {
    var a := FixAmounts(x);
    if x.leftoverFixed then a
    else
      FixAmountsSpec(x);
      var computed := Recomputed(a.row.budget, a.row.food, a.row.savings, a.row.products);
      if PyEq(x.leftover, computed) then a
      else a.(row := a.row.(leftover := computed), sobrante := true)
  }

  /**
   * Pass 3 on one row as written: the leftover of a row whose leftover is
   * not fixed comes from `calcular_sobrante` called with four arguments,
   * which raises TypeError.
   */
  function ReviseAsWritten(x: Registro.Record): (r: Result<Revision, Calculadora.CallError>)
    ensures r.Err? <==> !x.leftoverFixed
    ensures !x.leftoverFixed ==> r == Err(Calculadora.Arity(4))
    ensures r.Ok? ==> r.value == Revise(x)
  {
    var a := FixAmounts(x);
    if x.leftoverFixed then Ok(a)
    else
      match Calculadora.Call([a.row.budget, a.row.food, a.row.savings, a.row.products])
      case Err(e) => Err(e)
      case Ok(d) =>
        var computed := Normalizar.Normalize(Num(d));
        if PyEq(x.leftover, computed) then Ok(a)
        else Ok(a.(row := a.row.(leftover := computed), sobrante := true))
  }

  /**
   * What pass 3 does to one row: the amounts as `FixAmounts` leaves them,
   * a fixed leftover kept, and any other leftover brought to the expected
   * one (in Python's `==`), with `sobrantes_recalculados` counting exactly
   * the leftovers it replaces.
   */
  lemma ReviseSpec(x: Registro.Record)
    ensures var r := Revise(x);
            r.row == FixAmounts(x).row.(leftover := r.row.leftover)
            && r.decimales == FixAmounts(x).decimales
            && (x.leftoverFixed ==> r.row.leftover == x.leftover && !r.sobrante)
            && (!x.leftoverFixed ==> PyEq(r.row.leftover, Money(Expected(x))))
            && (r.sobrante <==> r.row.leftover != x.leftover)
            && (r.sobrante ==> r.row.leftover == Money(Expected(x)))
  {
    FixAmountsSpec(x);
  }

  /** The leftover pass 3 compares against is the one `save` computes. */
  lemma ExpectedIsComputed(x: Registro.Record)
    ensures Expected(x) == Registro.ComputedLeftover(Registro.Normalized(x))
  {
  }

  /** A revised row normalizes to what the row itself normalizes to, except for its leftover. */
  lemma NormalizedRevised(x: Registro.Record)
    ensures Registro.Normalized(Revise(x).row) == Registro.Normalized(x).(leftover := Revise(x).row.leftover)
  {
    ReviseSpec(x);
    FixAmountsSpec(x);
    var y := Revise(x).row;
    assert Normalizar.Normalize(y.budget) == Normalizar.Normalize(x.budget);
    assert Normalizar.Normalize(y.food) == Normalizar.Normalize(x.food);
    assert Normalizar.Normalize(y.products) == Normalizar.Normalize(x.products);
    assert Normalizar.Normalize(y.savings) == Normalizar.Normalize(x.savings);
  }

  /** `save` as the validation of the normalized row followed by the leftover rule. */
  lemma SaveSteps(r: Registro.Record)
    ensures Registro.Save(r).Ok? <==> Registro.FullClean(Registro.Normalized(r)).Ok?
    ensures Registro.Save(r).Ok? ==> Registro.Save(r).value == Registro.SettleLeftover(Registro.FullClean(Registro.Normalized(r)).value)
  {
  }

  /** The leftover rule of `save` reads the stored leftover only on a completed day with a fixed leftover. */
  lemma SettleIgnoresLeftover(c: Registro.Record, c': Registro.Record)
    requires Registro.AmountsNormalized(c) && IsMoney(c.leftover) && IsMoney(c'.leftover)
    requires AmountOf(c.budget) <= Validators.MaxDailyBudget && Registro.Expenses(c) <= AmountOf(c.budget)
    requires c' == c.(leftover := c'.leftover)
    requires c.completed && c.leftoverFixed ==> c'.leftover == c.leftover
    ensures Registro.SettleLeftover(c') == Registro.SettleLeftover(c)
  {
  }

  /** The revised leftover still converts to a non-negative amount. */
  lemma RevisedLeftoverValid(x: Registro.Record)
    requires Registro.LeftoverFieldValue(x.leftover).Ok? && Registro.LeftoverFieldValue(x.leftover).value >= 0.0
    ensures Registro.LeftoverFieldValue(Revise(x).row.leftover).Ok? && Registro.LeftoverFieldValue(Revise(x).row.leftover).value >= 0.0
  {
    ReviseSpec(x);
  }

  /** Saving a revised row stores what saving the row itself would store. */
  lemma ReviseThenSave(x: Registro.Record)
    requires Registro.Save(x).Ok?
    ensures Registro.Save(Revise(x).row) == Registro.Save(x)
  {
    var y := Revise(x).row;
    ReviseSpec(x);
    NormalizedRevised(x);
    SaveSteps(x);
    SaveSteps(y);
    var n, n' := Registro.Normalized(x), Registro.Normalized(y);
    assert n' == n.(leftover := y.leftover);
    RevisedLeftoverValid(x);
    var c := Registro.FullClean(n).value;
    assert Registro.FullClean(n').Ok?;
    var c' := Registro.FullClean(n').value;
    SettleIgnoresLeftover(c, c');
  }

  /** A row `save` stored completed, or with a fixed leftover, is left alone. */
  lemma StoredRowUntouched(x: Registro.Record)
    requires Registro.Stored(x) && (x.completed || x.leftoverFixed)
    ensures !Modified(Revise(x)) && Revise(x).row == x
  {
    ReviseSpec(x);
    MoneyKept(x.budget);
    MoneyKept(x.food);
    MoneyKept(x.products);
    MoneyKept(x.savings);
  }

  /**
   * A stored day not yet completed, with a computed leftover, is revised
   * whenever its amounts leave a positive balance, and the save puts the
   * leftover back to zero: every run counts it again and leaves it as it was.
   */
  lemma IncompleteDayRevisedEveryRun(x: Registro.Record)
    requires Registro.Stored(x) && !x.completed && !x.leftoverFixed
    ensures Modified(Revise(x)) <==> Expected(x) > 0.0
    ensures Registro.Save(Revise(x).row) == Ok(x)
  {
    Registro.StoredSavesToItself(x);
    ReviseSpec(x);
    MoneyKept(x.budget);
    MoneyKept(x.food);
    MoneyKept(x.products);
    MoneyKept(x.savings);
    assert FixAmounts(x).row == x;
    ReviseThenSave(x);
  }

  /** What one visit of pass 3 yields: the row the table then holds and what it adds to the counters. */
  datatype Visited = Visited(row: Registro.Record, sobrante: bool, decimales: nat, updated: bool)

  /** Each counted fix belongs to a row that was saved. */
  predicate Sane(v: Visited) {
    (v.sobrante ==> v.updated) && v.decimales <= (if v.updated then 4 else 0)
  }

  /**
   * One visit of pass 3: a row out of scope or left unchanged by the
   * revision stays as it is; a changed row is saved, and a rejected save
   * raises.
   */
  function VisitRow(x: Registro.Record, scope: Option<User>): (r: Result<Visited, Registro.SaveError>)
    ensures r.Ok? ==> Key(r.value.row) == Key(x) && Sane(r.value)
    ensures !InScope(x, scope) ==> r == Ok(Visited(x, false, 0, false))
  {
    if !InScope(x, scope) then Ok(Visited(x, false, 0, false))
    else
      var revision := Revise(x);
      if !Modified(revision) then Ok(Visited(x, false, 0, false))
      else
        match Registro.Save(revision.row)
        case Err(e) => Err(e)
        case Ok(y) => Ok(Visited(y, revision.sobrante, revision.decimales, true))
  }

  /**
   * A visit fails exactly when the row is in scope, changed, and rejected
   * by `save`; otherwise the row ends as it was or as `save` stores its
   * revision, and it counts as updated exactly when it was changed.
   */
  lemma VisitRowSpec(x: Registro.Record, scope: Option<User>)
    ensures var r := VisitRow(x, scope);
            var changed := InScope(x, scope) && Modified(Revise(x));
            (r.Err? <==> changed && Registro.Save(Revise(x).row).Err?)
            && (r.Err? ==> r.error == Registro.Save(Revise(x).row).error)
            && (r.Ok? ==> (r.value.updated <==> changed))
            && (r.Ok? && !changed ==> r.value.row == x)
            && (r.Ok? && changed ==> r.value.row == Registro.Save(Revise(x).row).value)
  {
  }

  /** A row in scope that `save` accepts is visited without error and stored as a plain `save` would store it. */
  lemma VisitSaveable(x: Registro.Record, scope: Option<User>)
    requires InScope(x, scope) && Registro.Save(x).Ok?
    ensures VisitRow(x, scope).Ok?
    ensures VisitRow(x, scope).value.row == x || VisitRow(x, scope).value.row == Registro.Save(x).value
  {
    var revision := Revise(x);
    if Modified(revision) {
      ReviseThenSave(x);
      assert Registro.Save(revision.row) == Registro.Save(x);
    }
  }

  /** The number of rows among the first `n` whose visit saved them. */
  function UpdatedBy(s: Store, visit: Registro.Record -> Result<Visited, Registro.SaveError>, n: nat): (c: nat)
    requires n <= |s|
    ensures c <= n
  {
    if n == 0 then 0
    else UpdatedBy(s, visit, n - 1) + (if visit(s[n - 1]).Ok? && visit(s[n - 1]).value.updated then 1 else 0)
  }

  /** The counters pass 3 adds to. */
  datatype Tally = Tally(sobrantes: nat, decimales: nat, negativos: nat, actualizados: nat)

  /**
   * The loop of pass 3, for any visit of one row: the rows are visited in
   * table order, each result stored and counted, until a visit raises.
   * Returns the table, the counters and the exception, if one was raised.
   */
  method VisitAll(s: Store, visit: Registro.Record -> Result<Visited, Registro.SaveError>)
    returns (t: Store, tally: Tally, failure: Option<Registro.SaveError>)
    requires forall x :: visit(x).Ok? ==> Sane(visit(x).value)
    ensures |t| == |s| && tally.negativos == 0
    ensures tally.sobrantes <= tally.actualizados && tally.decimales <= 4 * tally.actualizados
    ensures forall i :: 0 <= i < |s| ==> t[i] == s[i] || (visit(s[i]).Ok? && t[i] == visit(s[i]).value.row)
    ensures failure.None? <==> forall i :: 0 <= i < |s| ==> visit(s[i]).Ok?
    ensures failure.None? ==> (forall i :: 0 <= i < |s| ==> t[i] == visit(s[i]).value.row)
                              && tally.actualizados == UpdatedBy(s, visit, |s|)
    ensures failure.Some? ==>
              exists k :: 0 <= k < |s| && visit(s[k]) == Err(failure.value)
                          && (forall i :: 0 <= i < k ==> visit(s[i]).Ok? && t[i] == visit(s[i]).value.row)
                          && (forall i :: k <= i < |s| ==> t[i] == s[i])
  {
    t, tally, failure := s, Tally(0, 0, 0, 0), None;
    var i := 0;
    while i < |s|
      invariant i <= |s| && |t| == |s|
      invariant forall j :: 0 <= j < i ==> visit(s[j]).Ok? && t[j] == visit(s[j]).value.row
      invariant forall j :: i <= j < |s| ==> t[j] == s[j]
      invariant tally.negativos == 0 && tally.actualizados == UpdatedBy(s, visit, i)
      invariant tally.sobrantes <= tally.actualizados && tally.decimales <= 4 * tally.actualizados
    {
      match visit(s[i])
      case Err(e) =>
        failure := Some(e);
        return;
      case Ok(v) =>
        t := t[i := v.row];
        if v.updated {
          tally := Tally(tally.sobrantes + (if v.sobrante then 1 else 0), tally.decimales + v.decimales,
                         tally.negativos, tally.actualizados + 1);
        }
      i := i + 1;
    }
  }

  // ---------------------------------------------------------------
  // The whole repair
  // ---------------------------------------------------------------

  /** Two tables that agree on `v`'s rows, and never give `v` another row, hold the same rows of `v`. */
  lemma {:induction false} SameRowsOf(a: Store, b: Store, v: User)
    requires |a| == |b|
    requires forall i :: 0 <= i < |a| && (a[i].user == v || b[i].user == v) ==> a[i] == b[i]
    ensures OfUser(a, v) == OfUser(b, v)
  {
    if |a| > 0 {
      SameRowsOf(a[..|a| - 1], b[..|b| - 1], v);
    }
  }

  /** Tables whose rows have the same keys, position by position, have the same rows per day. */
  lemma {:induction false} SameKeysCount(a: Store, b: Store, u: User, d: Dates.Date)
    requires |a| == |b| && forall i :: 0 <= i < |a| ==> Key(a[i]) == Key(b[i])
    ensures CountOn(a, u, d) == CountOn(b, u, d)
  {
    if |a| > 0 {
      SameKeysCount(a[..|a| - 1], b[..|b| - 1], u, d);
      assert Key(a[|a| - 1]) == Key(b[|b| - 1]);
    }
  }

  /** The indices below `n` pass 2 deletes are as many as it counts. */
  lemma {:induction false} DroppedCard(s: Store, scope: Option<User>, n: nat)
    requires n <= |s|
    ensures |DroppedBelow(s, scope, n)| == Dropped(s, scope, n)
  {
    hide Weight;
    if n > 0 {
      DroppedCard(s, scope, n - 1);
      DroppedSetStep(s, scope, n);
      var below := DroppedBelow(s, scope, n - 1);
      if !Kept(s, scope, n - 1) {
        assert |below + {n - 1}| == |below| + 1;
      }
    }
  }

  /** The indices below `n` of the rows pass 2 deletes. */
  function DroppedBelow(s: Store, scope: Option<User>, n: nat): set<nat>
    requires n <= |s|
  {
    set i: nat | i < n && !Kept(s, scope, i)
  }

  /** The deleted rows below `n` are those below `n - 1`, plus row `n - 1` when it is deleted. */
  lemma DroppedSetStep(s: Store, scope: Option<User>, n: nat)
    requires 0 < n <= |s|
    ensures n - 1 !in DroppedBelow(s, scope, n - 1)
    ensures DroppedBelow(s, scope, n)
         == DroppedBelow(s, scope, n - 1) + (if Kept(s, scope, n - 1) then {} else {n - 1})
  {
    hide Weight;
  }

  /** `duplicados_eliminados` is the number of rows pass 2 removes from the table. */
  lemma GoneSize(s: Store, scope: Option<User>, gone: set<nat>)
    requires forall i :: i in gone <==> 0 <= i < |s| && !Kept(s, scope, i)
    ensures |gone| == |s| - |Deduplicated(s, scope)|
  {
    hide Weight;
    KeptPlusDropped(s, scope, |s|);
    DroppedCard(s, scope, |s|);
    assert gone == DroppedBelow(s, scope, |s|);
  }

  /** Passes 1 and 3 keep the rows of users out of scope, and pass 2 keeps them in order. */
  lemma OthersUntouched(s: Store, t1: Store, t3: Store, scope: Option<User>, v: User)
    requires scope.Some? && v != scope.value && |t1| == |s|
    requires forall i :: 0 <= i < |s| && t1[i] != s[i] ==> InScope(s[i], scope) && t1[i].user == s[i].user
    requires |t3| == |Deduplicated(t1, scope)|
    requires forall i :: 0 <= i < |t3| ==> t3[i].user == Deduplicated(t1, scope)[i].user
    requires forall i :: 0 <= i < |t3| && !InScope(Deduplicated(t1, scope)[i], scope) ==> t3[i] == Deduplicated(t1, scope)[i]
    ensures OfUser(t3, v) == OfUser(s, v)
  {
    hide Weight;
    SameRowsOf(s, t1, v);
    OutOfScopeKept(t1, scope, |t1|, v);
    assert t1[..|t1|] == t1;
    SameRowsOf(Deduplicated(t1, scope), t3, v);
  }

  /** Pass 3 keeps every row's key and every row out of scope. */
  lemma VisitKeeps(s: Store, t: Store, scope: Option<User>)
    requires |t| == |s|
    requires forall i :: 0 <= i < |s| ==> t[i] == s[i] || (VisitRow(s[i], scope).Ok? && t[i] == VisitRow(s[i], scope).value.row)
    ensures forall i :: 0 <= i < |s| ==> Key(t[i]) == Key(s[i]) && t[i].user == s[i].user
    ensures forall i :: 0 <= i < |s| && !InScope(s[i], scope) ==> t[i] == s[i]
  {
  }

  /** The dictionary `reparar_registros_financieros` returns. */
  datatype Counts = Counts(fechas: nat, duplicados: nat, sobrantes: nat, decimales: nat, negativos: nat, actualizados: nat)

  /** The table after a run, and the counters or the exception that ended the run. */
  datatype Outcome = Outcome(store: Store, counts: Result<Counts, Registro.SaveError>)

  /**
   * `reparar_registros_financieros(usuario)`, with `scope` the user or
   * `None` for every row: the three passes in order.
   */
  method RepararRegistrosFinancieros(s: Store, configs: Configs, scope: Option<User>) returns (o: Outcome)
    ensures |o.store| <= |s|
    ensures scope.Some? ==> forall v :: v != scope.value ==> OfUser(o.store, v) == OfUser(s, v)
    ensures forall u, d :: scope.None? || scope.value == u ==> CountOn(o.store, u, d) <= 1
    ensures o.counts.Ok? ==> var c := o.counts.value;
              c.negativos == 0 && c.duplicados == |s| - |o.store| && c.fechas <= |s|
              && c.sobrantes <= c.actualizados && c.decimales <= 4 * c.actualizados
              && c.actualizados <= |o.store|
    ensures o.counts.Ok? ==> forall i :: 0 <= i < |o.store| && InScope(o.store[i], scope) ==>
              Registro.Stored(o.store[i]) || !Modified(Revise(o.store[i]))
  {
    hide *;
    var t1, moved := FixDates(s, configs, scope);
    var gone, eliminated := Deduplicate(t1, scope);
    var t2 := Deduplicated(t1, scope);
    var t3, tally, failure := VisitAll(t2, x => VisitRow(x, scope));
    VisitKeeps(t2, t3, scope);
    GoneSize(t1, scope, gone);
    o := Outcome(t3, if failure.Some? then Err(failure.value)
                     else Ok(Counts(moved, eliminated, tally.sobrantes, tally.decimales, tally.negativos, tally.actualizados)));
    if scope.Some? {
      AllOthersUntouched(s, t1, t3, scope);
    }
    OneRowPerDayAfterVisit(t1, t3, scope);
    if failure.None? {
      VisitedRowsSettled(t2, t3, scope);
    }
  }

  /**
   * After a pass 3 that raised nothing, each row in scope was either saved
   * or left as it was because its revision changed nothing.
   */
  lemma VisitedRowsSettled(t2: Store, t3: Store, scope: Option<User>)
    requires |t3| == |t2|
    requires forall i :: 0 <= i < |t2| ==> VisitRow(t2[i], scope).Ok? && t3[i] == VisitRow(t2[i], scope).value.row
    ensures forall i :: 0 <= i < |t3| && InScope(t3[i], scope) ==> Registro.Stored(t3[i]) || !Modified(Revise(t3[i]))
  {
    forall i | 0 <= i < |t3| && InScope(t3[i], scope)
      ensures Registro.Stored(t3[i]) || !Modified(Revise(t3[i]))
    {
      VisitRowSpec(t2[i], scope);
    }
  }

  /** `OthersUntouched` for every user out of scope. */
  lemma AllOthersUntouched(s: Store, t1: Store, t3: Store, scope: Option<User>)
    requires scope.Some? && |t1| == |s|
    requires forall i :: 0 <= i < |s| && t1[i] != s[i] ==> InScope(s[i], scope) && t1[i].user == s[i].user
    requires |t3| == |Deduplicated(t1, scope)|
    requires forall i :: 0 <= i < |t3| ==> t3[i].user == Deduplicated(t1, scope)[i].user
    requires forall i :: 0 <= i < |t3| && !InScope(Deduplicated(t1, scope)[i], scope) ==> t3[i] == Deduplicated(t1, scope)[i]
    ensures forall v :: v != scope.value ==> OfUser(t3, v) == OfUser(s, v)
  {
    hide Weight;
    forall v | v != scope.value
      ensures OfUser(t3, v) == OfUser(s, v)
    {
      OthersUntouched(s, t1, t3, scope, v);
    }
  }

  /** After pass 3, which keeps every key, each user in scope still has at most one row per day. */
  lemma OneRowPerDayAfterVisit(t1: Store, t3: Store, scope: Option<User>)
    requires |t3| == |Deduplicated(t1, scope)|
    requires forall i :: 0 <= i < |t3| ==> Key(t3[i]) == Key(Deduplicated(t1, scope)[i])
    ensures forall u, d :: scope.None? || scope.value == u ==> CountOn(t3, u, d) <= 1
  {
    hide Weight;
    forall u, d | scope.None? || scope.value == u
      ensures CountOn(t3, u, d) <= 1
    {
      SameKeysCount(Deduplicated(t1, scope), t3, u, d);
      OneRowPerDay(t1, scope, u, d);
    }
  }
}
