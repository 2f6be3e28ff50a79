/**
 * Completing a pending day (`completar_pendiente_por_fecha`): the date in the
 * URL is checked, the day's record is found or created from the
 * configuration's defaults, and a POST fills in the amounts that are not
 * fixed and marks the day completed.
 */
module Completar {
  import opened Wrappers
  import opened Decimals
  import Normalizar
  import Dates
  import Registro
  import Configuracion
  import opened Almacen

  /** How the view answers. */
  datatype Page =
    | NotFound                            // Http404: bad or out-of-range date
    | ToDashboard                         // no start date configured yet
    | ToPendientes                        // day already completed, or just saved
    | Form(registro: Registro.Record)     // GET: the form for the day's record
    | Raised(error: DbError)              // a `create()` or `save()` raised

  /** The four entries of a POST body; a missing key is `None`. */
  datatype Post = Post(budget: Option<string>, food: Option<string>,
                       products: Option<string>, savings: Option<string>)

  /** `request.POST.get(name)` as the normalizer receives it. */
  function Posted(o: Option<string>): Value {
    match o
    case None => Null
    case Some(s) => Text(s)
  }

  /**
   * The record as the POST branch leaves it before `save`: each category
   * that is not fixed and the budget take the normalized input, with the
   * current value as the fallback; the day is marked completed.
   */
  function Filled(r: Registro.Record, p: Post): (f: Registro.Record)
    ensures f.completed && f.user == r.user && f.fecha == r.fecha
    ensures f.foodFixed == r.foodFixed && f.productsFixed == r.productsFixed
         && f.savingsFixed == r.savingsFixed && f.leftoverFixed == r.leftoverFixed
    ensures r.foodFixed ==> f.food == r.food
    ensures r.productsFixed ==> f.products == r.products
    ensures r.savingsFixed ==> f.savings == r.savings
  {
    r.(food := if r.foodFixed then r.food else Normalizar.NormalizarDecimal(Posted(p.food), r.food),
       products := if r.productsFixed then r.products else Normalizar.NormalizarDecimal(Posted(p.products), r.products),
       savings := if r.savingsFixed then r.savings else Normalizar.NormalizarDecimal(Posted(p.savings), r.savings),
       budget := Normalizar.NormalizarDecimal(Posted(p.budget), r.budget),
       completed := true)
  }

  /**
   * The answer once the day has a row at index `k` of `s1`: the form, or
   * the saved POST.  A `save` that raises leaves both tables as they were
   * before it, since the view runs outside a transaction.
   */
  function Respond(s1: Store, k: nat, configs': Configs, post: Option<Post>): (res: (Page, Store, Configs))
    requires k < |s1|
    ensures res.2 == configs'
    ensures post.None? ==> res == (Form(s1[k]), s1, configs')
    ensures post.Some? ==> (res.0 == ToPendientes <==> Update(s1, k, Filled(s1[k], post.value)).Ok?)
    ensures post.Some? && res.0 == ToPendientes ==>
              res.1 == s1[k := Registro.Save(Filled(s1[k], post.value)).value]
    ensures post.Some? && res.0 != ToPendientes ==>
              res == (Raised(Update(s1, k, Filled(s1[k], post.value)).error), s1, configs')
  {
    match post
    case None => (Form(s1[k]), s1, configs')
    case Some(p) =>
      match Update(s1, k, Filled(s1[k], p))
      case Err(e) => (Raised(e), s1, configs')
      case Ok(s2) => (ToPendientes, s2, configs')
  }

  /** The view once the URL's date has been read as the day `fecha`. */
  function AtDay(store: Store, configs: Configs, u: User, fecha: Dates.Date,
                 hoy: Dates.Date, post: Option<Post>): (res: (Page, Store, Configs))
    ensures res.2 == GetOrCreateConfig(configs, u).1
    ensures res.0.NotFound? || res.0.ToDashboard? ==> res.1 == store
    ensures |store| <= |res.1| && (res.0.Form? || res.0.Raised? ==> res.1[..|store|] == store)
  {
    var (config, configs') := GetOrCreateConfig(configs, u);
    if config.start.None? then (ToDashboard, store, configs')
    else if fecha < config.start.value || fecha > hoy then (NotFound, store, configs')
    else
      var k := FirstOn(store, u, fecha);
      if k < |store| && store[k].completed then (ToPendientes, store, configs')
      else
        match EnsureRow(store, Configuracion.NewRecord(config, u, fecha))
        case Err(e) => (Raised(e), store, configs')
        case Ok(s1) => Respond(s1, k, configs', post)
  }

  /**
   * `completar_pendiente_por_fecha(request, fecha_str)` on the day `hoy`,
   * with `post` the POST body or `None` for a GET.  Returns the answer, or
   * the exception a `create` or `save` raised, with both tables as the
   * request leaves them: what was written before the exception stays.
   */
  function CompletarPendiente(store: Store, configs: Configs, u: User, fechaStr: string,
                              hoy: Dates.Date, post: Option<Post>): (res: (Page, Store, Configs))
    ensures Dates.ParseStrptime(fechaStr).None? ==> res == (NotFound, store, configs)
    ensures Dates.ParseStrptime(fechaStr).Some? ==>
              res == AtDay(store, configs, u, Dates.Ordinal(Dates.ParseStrptime(fechaStr).value), hoy, post)
  {
    match Dates.ParseStrptime(fechaStr)
    case None => (NotFound, store, configs)
    case Some(t) => AtDay(store, configs, u, Dates.Ordinal(t), hoy, post)
  }

  // ---------------------------------------------------------------
  // Properties
  // ---------------------------------------------------------------

  /** The date the view works on, when the URL holds one in range of a configured start. */
  predicate InRange(configs: Configs, u: User, fechaStr: string, hoy: Dates.Date) {
    Dates.ParseStrptime(fechaStr).Some?
    && var c := GetOrCreateConfig(configs, u).0;
       c.start.Some? && c.start.value <= Dates.Ordinal(Dates.ParseStrptime(fechaStr).value) <= hoy
  }

  function Day(fechaStr: string): Dates.Date
    requires Dates.ParseStrptime(fechaStr).Some?
  {
    Dates.Ordinal(Dates.ParseStrptime(fechaStr).value)
  }

  /** Without a start date the view sends the user to the dashboard and touches no record. */
  lemma NoStartRedirects(store: Store, configs: Configs, u: User, fechaStr: string, hoy: Dates.Date, post: Option<Post>)
    requires Dates.ParseStrptime(fechaStr).Some?
    requires u !in configs || configs[u].start.None?
    ensures CompletarPendiente(store, configs, u, fechaStr, hoy, post) == (ToDashboard, store, GetOrCreateConfig(configs, u).1)
  {
  }

  /** A date before the start or after today is not found, and nothing changes. */
  lemma OutOfRangeNotFound(store: Store, configs: Configs, u: User, fechaStr: string, hoy: Dates.Date, post: Option<Post>)
    requires Dates.ParseStrptime(fechaStr).Some? && u in configs && configs[u].start.Some?
    requires Day(fechaStr) < configs[u].start.value || Day(fechaStr) > hoy
    ensures CompletarPendiente(store, configs, u, fechaStr, hoy, post) == (NotFound, store, configs)
  {
  }

  /** A day whose record is already completed is left alone, whatever was posted. */
  lemma CompletedDayUntouched(store: Store, configs: Configs, u: User, fechaStr: string, hoy: Dates.Date, post: Option<Post>)
    requires InRange(configs, u, fechaStr, hoy)
    requires FirstOn(store, u, Day(fechaStr)) < |store| && store[FirstOn(store, u, Day(fechaStr))].completed
    ensures CompletarPendiente(store, configs, u, fechaStr, hoy, post) == (ToPendientes, store, GetOrCreateConfig(configs, u).1)
  {
  }

  /**
   * Opening the form of a day without a record creates it from the
   * defaults, not completed, even though nothing is posted.
   */
  lemma GetCreatesMissingDay(store: Store, configs: Configs, u: User, fechaStr: string, hoy: Dates.Date)
    requires InRange(configs, u, fechaStr, hoy) && !Has(store, u, Day(fechaStr))
    ensures var res := CompletarPendiente(store, configs, u, fechaStr, hoy, None);
            var x := Registro.Save(Configuracion.NewRecord(GetOrCreateConfig(configs, u).0, u, Day(fechaStr)));
            (res.0.Form? <==> x.Ok?)
            && (x.Ok? ==> x.value.user == u && x.value.fecha == Day(fechaStr) && !x.value.completed
                          && res == (Form(x.value), store + [x.value], GetOrCreateConfig(configs, u).1))
            && (x.Err? ==> res == (Raised(Invalid(x.error)), store, GetOrCreateConfig(configs, u).1))
  {
    var d := Day(fechaStr);
    assert CompletarPendiente(store, configs, u, fechaStr, hoy, None) == AtDay(store, configs, u, d, hoy, None);
    AtDayCreates(store, configs, u, d, hoy);
  }

  /** `GetCreatesMissingDay` once the date has been read. */
  lemma AtDayCreates(store: Store, configs: Configs, u: User, d: Dates.Date, hoy: Dates.Date)
    requires GetOrCreateConfig(configs, u).0.start.Some?
    requires GetOrCreateConfig(configs, u).0.start.value <= d <= hoy && !Has(store, u, d)
    ensures var res := AtDay(store, configs, u, d, hoy, None);
            var x := Registro.Save(Configuracion.NewRecord(GetOrCreateConfig(configs, u).0, u, d));
            (res.0.Form? <==> x.Ok?)
            && (x.Ok? ==> x.value.user == u && x.value.fecha == d && !x.value.completed
                          && res == (Form(x.value), store + [x.value], GetOrCreateConfig(configs, u).1))
            && (x.Err? ==> res == (Raised(Invalid(x.error)), store, GetOrCreateConfig(configs, u).1))
  {
    hide Registro.Save;
    var c := GetOrCreateConfig(configs, u).0;
    FirstOnHas(store, u, d);
    assert EnsureRow(store, Configuracion.NewRecord(c, u, d)) == Insert(store, Configuracion.NewRecord(c, u, d));
    var x := Registro.Save(Configuracion.NewRecord(c, u, d));
    if x.Ok? {
      assert (store + [x.value])[FirstOn(store, u, d)] == x.value;
    }
  }

  /**
   * A successful POST on a day not yet completed leaves the day's row
   * completed and saved, and every other row as it was.
   */
  lemma PostCompletesDay(store: Store, configs: Configs, u: User, fechaStr: string, hoy: Dates.Date, p: Post)
    requires InRange(configs, u, fechaStr, hoy)
    requires FirstOn(store, u, Day(fechaStr)) < |store| ==> !store[FirstOn(store, u, Day(fechaStr))].completed
    requires !CompletarPendiente(store, configs, u, fechaStr, hoy, Some(p)).0.Raised?
    ensures var res := CompletarPendiente(store, configs, u, fechaStr, hoy, Some(p));
            var k := FirstOn(store, u, Day(fechaStr));
            res.0 == ToPendientes
            && k < |res.1| && res.1[k].completed && Registro.Stored(res.1[k])
            && On(res.1[k], u, Day(fechaStr))
            && (forall j :: 0 <= j < |store| && j != k ==> res.1[j] == store[j])
  {
    hide Registro.Save;
    var d := Day(fechaStr);
    var c := GetOrCreateConfig(configs, u).0;
    var k := FirstOn(store, u, d);
    FirstOnHas(store, u, d);
    var (config, configs') := GetOrCreateConfig(configs, u);
    var ensured := EnsureRow(store, Configuracion.NewRecord(config, u, d));
    assert ensured.Ok?;
    var s1 := ensured.value;
    var r := Respond(s1, k, configs', Some(p));
    assert r == CompletarPendiente(store, configs, u, fechaStr, hoy, Some(p));
    var x := Registro.Save(Filled(s1[k], p));
    assert x.Ok? && Registro.Stored(x.value) && x.value.completed;
    assert r.1 == s1[k := x.value];
    forall j | 0 <= j < |store| && j != k
      ensures r.1[j] == store[j]
    {
      assert s1[j] == store[j];
    }
  }

  /**
   * A POST on a day without a row whose filled-in row `save` refuses: the
   * view raises, yet the row `create()` made from the defaults and the
   * configuration `get_or_create` made both stay, incomplete, in their
   * tables.
   */
  lemma FailedPostKeepsCreatedRow(store: Store, configs: Configs, u: User, fechaStr: string, hoy: Dates.Date, p: Post)
    requires InRange(configs, u, fechaStr, hoy) && !Has(store, u, Day(fechaStr))
    requires Registro.Save(Configuracion.NewRecord(GetOrCreateConfig(configs, u).0, u, Day(fechaStr))).Ok?
    requires Registro.Save(Filled(Registro.Save(Configuracion.NewRecord(GetOrCreateConfig(configs, u).0, u, Day(fechaStr))).value, p)).Err?
    ensures var x := Registro.Save(Configuracion.NewRecord(GetOrCreateConfig(configs, u).0, u, Day(fechaStr))).value;
            var e := Registro.Save(Filled(x, p)).error;
            !x.completed && On(x, u, Day(fechaStr))
            && CompletarPendiente(store, configs, u, fechaStr, hoy, Some(p))
               == (Raised(Invalid(e)), store + [x], GetOrCreateConfig(configs, u).1)
  {
    hide Registro.Save;
    var d := Day(fechaStr);
    var c := GetOrCreateConfig(configs, u).0;
    var x := Registro.Save(Configuracion.NewRecord(c, u, d)).value;
    AtDayCreates(store, configs, u, d, hoy);
    FirstOnHas(store, u, d);
    var s1 := store + [x];
    assert EnsureRow(store, Configuracion.NewRecord(c, u, d)) == Ok(s1);
    assert s1[FirstOn(store, u, d)] == x;
    assert Update(s1, FirstOn(store, u, d), Filled(x, p)) == Err(Invalid(Registro.Save(Filled(x, p)).error));
    assert CompletarPendiente(store, configs, u, fechaStr, hoy, Some(p)) == AtDay(store, configs, u, d, hoy, Some(p));
  }

  /** A fixed category ignores what is posted for it. */
  lemma FixedCategoryIgnoresInput(r: Registro.Record, p: Post, q: Post)
    requires r.foodFixed && p.(food := q.food) == q
    ensures Filled(r, p) == Filled(r, q)
  {
  }

  /**
   * A category that is not fixed takes a valid posted amount, and keeps its
   * current value when the input is missing, unreadable or negative.
   */
  lemma UnfixedCategoryTakesInput(r: Registro.Record, p: Post)
    requires !r.foodFixed
    ensures var v := Posted(p.food);
            var d := FromStr(v);
            (!Normalizar.IsPlaceholder(v) && d.Some? && d.value.Fin? && d.value.v >= 0.0 ==> Filled(r, p).food == Num(d.value))
            && (Normalizar.IsPlaceholder(v) || d.None? || !d.value.Fin? || d.value.v < 0.0 ==> Filled(r, p).food == r.food)
  {
  }
}
