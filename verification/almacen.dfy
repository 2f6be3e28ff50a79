/**
 * The database tables the views work on.  The record table is a sequence in
 * primary-key order, so it may hold several rows for one (user, date) when
 * it comes from older data; saving through the model refuses to add such a
 * clash.  Configurations are a map, one per user.
 */
module Almacen {
  import opened Wrappers
  import Dates
  import Registro
  import Configuracion

  type User = Registro.User

  /** The `RegistroFinanciero` table, in primary-key order. */
  type Store = seq<Registro.Record>

  /** The `ConfigFinanciera` table. */
  type Configs = map<User, Configuracion.Config>

  /** The exceptions the ORM calls in the core can raise. */
  datatype DbError =
    | DoesNotExist
    | MultipleObjectsReturned
    | Invalid(error: Registro.SaveError)
    | NotUnique

  predicate On(r: Registro.Record, u: User, d: Dates.Date) {
    r.user == u && r.fecha == d
  }

  /** Some row of `u` is dated `d`. */
  predicate Has(s: Store, u: User, d: Dates.Date) {
    exists i :: 0 <= i < |s| && On(s[i], u, d)
  }

  /** The number of rows `filter(user=u, fecha=d)` finds. */
  function CountOn(s: Store, u: User, d: Dates.Date): (n: nat)
    ensures n <= |s|
  {
    if |s| == 0 then 0 else CountOn(s[..|s| - 1], u, d) + (if On(s[|s| - 1], u, d) then 1 else 0)
  }

  /** The index of the first row of `u` dated `d`, or `|s|` when there is none. */
  function FirstOn(s: Store, u: User, d: Dates.Date): (k: nat)
    ensures k <= |s|
    ensures forall i :: 0 <= i < k ==> !On(s[i], u, d)
    ensures k < |s| ==> On(s[k], u, d)
  {
    if |s| == 0 then 0
    else if On(s[0], u, d) then 0
    else 1 + FirstOn(s[1..], u, d)
  }

  /** The rows of `u`, in table order. */
  function OfUser(s: Store, u: User): (t: Store)
    ensures |t| <= |s|
    ensures forall i :: 0 <= i < |t| ==> t[i].user == u
  {
    if |s| == 0 then []
    else OfUser(s[..|s| - 1], u) + (if s[|s| - 1].user == u then [s[|s| - 1]] else [])
  }

  /** Every configuration is keyed by its own user and was saved. */
  predicate ConfigsSaved(cs: Configs) {
    forall u :: u in cs ==> cs[u].user == u && Configuracion.Saved(cs[u])
  }

  /** `ConfigFinanciera.objects.get_or_create(user=u)`. */
  function GetOrCreateConfig(cs: Configs, u: User): (r: (Configuracion.Config, Configs))
    ensures r.1 == cs[u := r.0]
    ensures ConfigsSaved(cs) ==> ConfigsSaved(r.1)
    ensures u in cs ==> r.0 == cs[u] && r.1 == cs
    ensures u !in cs ==> r.0 == Configuracion.NewConfig(u)
  {
    if u in cs then (cs[u], cs)
    else
      Configuracion.NewConfigIsSaved(u);
      (Configuracion.NewConfig(u), cs[u := Configuracion.NewConfig(u)])
  }

  /**
   * `save()` of a new row: the model's own save, whose `full_clean` also
   * refuses a second row for the same user and date.
   */
  function Insert(s: Store, r: Registro.Record): (res: Result<Store, DbError>)
    ensures res.Ok? <==> Registro.Save(r).Ok? && !Has(s, r.user, r.fecha)
    ensures res.Ok? ==> res.value == s + [Registro.Save(r).value]
    ensures Registro.Save(r).Err? ==> res == Err(Invalid(Registro.Save(r).error))
  {
    match Registro.Save(r)
    case Err(e) => Err(Invalid(e))
    case Ok(x) =>
      CountOnHas(s, r.user, r.fecha);
      if CountOn(s, x.user, x.fecha) > 0 then Err(NotUnique) else Ok(s + [x])
  }

  /** `save()` of the existing row `i`. */
  function Update(s: Store, i: nat, r: Registro.Record): (res: Result<Store, DbError>)
    requires i < |s|
    ensures res.Ok? <==> Registro.Save(r).Ok?
                         && forall j :: 0 <= j < |s| && j != i ==> !On(s[j], r.user, r.fecha)
    ensures res.Ok? ==> res.value == s[i := Registro.Save(r).value]
    ensures Registro.Save(r).Err? ==> res == Err(Invalid(Registro.Save(r).error))
  {
    match Registro.Save(r)
    case Err(e) => Err(Invalid(e))
    case Ok(x) =>
      if exists j :: 0 <= j < |s| && j != i && On(s[j], x.user, x.fecha) then Err(NotUnique)
      else Ok(s[i := x])
  }

  /**
   * The table once `template`'s user has a row on its date: as it was when
   * there is one, otherwise with `template` saved and appended.
   */
  function EnsureRow(s: Store, template: Registro.Record): (res: Result<Store, DbError>)
    ensures res.Ok? ==> FirstOn(s, template.user, template.fecha) < |res.value|
                        && On(res.value[FirstOn(s, template.user, template.fecha)], template.user, template.fecha)
    ensures res.Ok? ==> |s| <= |res.value| && res.value[..|s|] == s
    ensures Has(s, template.user, template.fecha) ==> res == Ok(s)
    ensures !Has(s, template.user, template.fecha) ==> res == Insert(s, template)
  {
    FirstOnHas(s, template.user, template.fecha);
    if FirstOn(s, template.user, template.fecha) < |s| then Ok(s) else Insert(s, template)
  }

  /**
   * `RegistroFinanciero.objects.get_or_create(user=u, fecha=d, defaults=...)`
   * with `template` the row it would create: the store and whether a row
   * was created.
   */
  method GetOrCreate(s: Store, template: Registro.Record) returns (res: Result<(Store, bool), DbError>)
    ensures CountOn(s, template.user, template.fecha) >= 2 ==> res == Err(MultipleObjectsReturned)
    ensures CountOn(s, template.user, template.fecha) == 1 ==> res == Ok((s, false))
    ensures CountOn(s, template.user, template.fecha) == 0 ==>
              (res.Ok? <==> Registro.Save(template).Ok?)
              && (res.Ok? ==> res.value == (s + [Registro.Save(template).value], true))
              && (res.Err? ==> res.error == Invalid(Registro.Save(template).error))
  {
    var n := CountOn(s, template.user, template.fecha);
    if n >= 2 {
      res := Err(MultipleObjectsReturned);
    } else if n == 1 {
      res := Ok((s, false));
    } else {
      CountOnHas(s, template.user, template.fecha);
      match Insert(s, template)
      case Err(e) => res := Err(e);
      case Ok(t) => res := Ok((t, true));
    }
  }

  // ---------------------------------------------------------------
  // Counting lemmas
  // ---------------------------------------------------------------

  /** No row is counted exactly when none exists. */
  lemma {:induction false} CountOnHas(s: Store, u: User, d: Dates.Date)
    ensures CountOn(s, u, d) == 0 <==> !Has(s, u, d)
  {
    if |s| > 0 {
      var p := s[..|s| - 1];
      CountOnHas(p, u, d);
      if Has(p, u, d) {
        var i :| 0 <= i < |p| && On(p[i], u, d);
        assert On(s[i], u, d);
      }
      if Has(s, u, d) && !On(s[|s| - 1], u, d) {
        var i :| 0 <= i < |s| && On(s[i], u, d);
        assert On(p[i], u, d);
      }
    }
  }

  /** Counting splits over concatenation. */
  lemma {:induction false} CountOnAppend(s: Store, t: Store, u: User, d: Dates.Date)
    ensures CountOn(s + t, u, d) == CountOn(s, u, d) + CountOn(t, u, d)
  {
    if |t| == 0 {
      assert s + t == s;
    } else {
      var t' := t[..|t| - 1];
      CountOnAppend(s, t', u, d);
      assert (s + t)[..|s + t| - 1] == s + t';
    }
  }

  /** A row no longer found is counted once the row is appended. */
  lemma CountOnSnoc(s: Store, r: Registro.Record, u: User, d: Dates.Date)
    ensures CountOn(s + [r], u, d) == CountOn(s, u, d) + (if On(r, u, d) then 1 else 0)
  {
    assert (s + [r])[..|s|] == s;
  }

  /** The first row found is a row of the table, and exists exactly when some row matches. */
  lemma FirstOnHas(s: Store, u: User, d: Dates.Date)
    ensures FirstOn(s, u, d) < |s| <==> Has(s, u, d)
  {
  }

  /** The last row of `u` dated `d`, in table order. */
  function LastOn(s: Store, u: User, d: Dates.Date): (r: Option<Registro.Record>)
    ensures r.Some? ==> On(r.value, u, d)
  {
    if |s| == 0 then None
    else if On(s[|s| - 1], u, d) then Some(s[|s| - 1])
    else LastOn(s[..|s| - 1], u, d)
  }

  /** With exactly one row for the day, the last row is that row. */
  lemma {:induction false} LastOnUnique(s: Store, u: User, d: Dates.Date)
    requires CountOn(s, u, d) == 1
    ensures FirstOn(s, u, d) < |s|
    ensures LastOn(s, u, d) == Some(s[FirstOn(s, u, d)])
  {
    CountOnHas(s, u, d);
    FirstOnHas(s, u, d);
    var p := s[..|s| - 1];
    if On(s[|s| - 1], u, d) {
      CountOnHas(p, u, d);
      FirstOnHas(p, u, d);
      FirstOnPrefix(s, u, d);
    } else {
      CountOnHas(p, u, d);
      FirstOnHas(p, u, d);
      LastOnUnique(p, u, d);
      FirstOnPrefix(s, u, d);
    }
  }

  /** Dropping the last row keeps the first match when one comes before it. */
  lemma FirstOnPrefix(s: Store, u: User, d: Dates.Date)
    requires |s| > 0
    ensures FirstOn(s[..|s| - 1], u, d) < |s| - 1 ==> FirstOn(s, u, d) == FirstOn(s[..|s| - 1], u, d)
    ensures FirstOn(s[..|s| - 1], u, d) == |s| - 1 && On(s[|s| - 1], u, d) ==> FirstOn(s, u, d) == |s| - 1
  {
    var p := s[..|s| - 1];
    var k := FirstOn(p, u, d);
    if k < |p| {
      assert On(s[k], u, d);
      assert forall i :: 0 <= i < k ==> !On(s[i], u, d) by {
        forall i | 0 <= i < k ensures !On(s[i], u, d) { assert s[i] == p[i]; }
      }
      FirstOnIsLeast(s, u, d, k);
    } else if On(s[|s| - 1], u, d) {
      assert forall i :: 0 <= i < k ==> !On(s[i], u, d) by {
        forall i | 0 <= i < k ensures !On(s[i], u, d) { assert s[i] == p[i]; }
      }
      FirstOnIsLeast(s, u, d, k);
    }
  }

  /** The first match is the least index that matches. */
  lemma FirstOnIsLeast(s: Store, u: User, d: Dates.Date, k: nat)
    requires k < |s| && On(s[k], u, d)
    requires forall i :: 0 <= i < k ==> !On(s[i], u, d)
    ensures FirstOn(s, u, d) == k
  {
  }

  /** No last row exactly when no row is counted. */
  lemma {:induction false} LastOnNone(s: Store, u: User, d: Dates.Date)
    ensures LastOn(s, u, d).None? <==> CountOn(s, u, d) == 0
  {
    if |s| > 0 {
      LastOnNone(s[..|s| - 1], u, d);
    }
  }

  /** Two rows for the same user and date are counted twice. */
  lemma {:induction false} TwoRows(s: Store, u: User, d: Dates.Date, i: nat, j: nat)
    requires i < j < |s| && On(s[i], u, d) && On(s[j], u, d)
    ensures CountOn(s, u, d) >= 2
  {
    var p := s[..|s| - 1];
    assert p[i] == s[i];
    if j == |s| - 1 {
      CountOnHas(p, u, d);
    } else {
      assert p[j] == s[j];
      TwoRows(p, u, d, i, j);
    }
  }

  /** When a single row is counted, every matching row is the first one. */
  lemma OnlyRow(s: Store, u: User, d: Dates.Date, i: nat)
    requires CountOn(s, u, d) == 1 && i < |s| && On(s[i], u, d)
    ensures i == FirstOn(s, u, d)
  {
    var k := FirstOn(s, u, d);
    if i > k {
      TwoRows(s, u, d, k, i);
    }
  }

  /** Filtering by user keeps exactly that user's rows, in order. */
  lemma {:induction false} OfUserAppend(s: Store, t: Store, u: User)
    ensures OfUser(s + t, u) == OfUser(s, u) + OfUser(t, u)
  {
    if |t| == 0 {
      assert s + t == s;
    } else {
      var t' := t[..|t| - 1];
      OfUserAppend(s, t', u);
      assert (s + t)[..|s + t| - 1] == s + t';
    }
  }
  /** The rows filtered by user are exactly the table's rows of that user. */
  lemma {:induction false} OfUserMembers(s: Store, u: User)
    ensures forall x :: x in OfUser(s, u) <==> x in s && x.user == u
  {
    if |s| > 0 {
      var p := s[..|s| - 1];
      OfUserMembers(p, u);
      assert s == p + [s[|s| - 1]];
    }
  }

  /** Filtering by the user first does not change the count of that user's rows. */
  lemma {:induction false} CountOnOfUser(s: Store, u: User, d: Dates.Date)
    ensures CountOn(OfUser(s, u), u, d) == CountOn(s, u, d)
  {
    if |s| > 0 {
      var p := s[..|s| - 1];
      var x := s[|s| - 1];
      CountOnOfUser(p, u, d);
      CountOnAppend(OfUser(p, u), if x.user == u then [x] else [], u, d);
      var last: Store := [x];
      assert last[..0] == [];
    }
  }

  /** Reordering the rows does not change any count. */
  lemma {:induction false} CountOnPermutation(a: Store, b: Store, u: User, d: Dates.Date)
    requires multiset(a) == multiset(b)
    ensures CountOn(a, u, d) == CountOn(b, u, d)
    decreases |a|
  {
    if |a| == 0 {
      assert |b| == |multiset(b)| == 0;
    } else {
      var x := a[|a| - 1];
      var a' := a[..|a| - 1];
      assert a == a' + [x];
      assert x in multiset(b);
      var j :| 0 <= j < |b| && b[j] == x;
      var b' := b[..j] + b[j + 1..];
      assert b == b[..j] + [x] + b[j + 1..];
      assert multiset(b') == multiset(b) - multiset{x};
      CountOnPermutation(a', b', u, d);
      CountOnAppend(b[..j], b[j + 1..], u, d);
      CountOnAppend(b[..j] + [x], b[j + 1..], u, d);
      CountOnSnoc(b[..j], x, u, d);
    }
  }

  /** Overwriting row `k` of a table that extends `store` leaves every other row of `store` as it was. */
  lemma PrefixUpdateKeeps(store: Store, s1: Store, k: nat, x: Registro.Record)
    requires |store| <= |s1| && s1[..|store|] == store && k < |s1|
    ensures forall j :: 0 <= j < |store| && j != k ==> s1[k := x][j] == store[j]
  {
    forall j | 0 <= j < |store| && j != k
      ensures s1[k := x][j] == store[j]
    {
      assert s1[..|store|][j] == store[j];
    }
  }
}
