/**
 * The dashboard (`FinanzasDashboardView`): its POST sets the daily budget,
 * fixes or unfixes one amount of today's record, or saves the whole day; its
 * GET shows the budget, the pending days, today's record and two totals.
 */
module Dashboard {
  import opened Wrappers
  import opened Decimals
  import Normalizar
  import Dates
  import Registro
  import Configuracion
  import opened Almacen
  import Convert
  import Pendientes

  /** A POST body: the keys present and their values. */
  type Form = map<string, string>

  /** `request.POST.get(key)` as the normalizer receives it. */
  function Get(form: Form, key: string): Value {
    if key in form then Text(form[key]) else Null
  }

  /** What the POST does, or the exception it raises. */
  datatype Answer =
    | BudgetRejected     // the new budget is not positive
    | BudgetSaved
    | AmountRejected     // fijar with an amount that is not positive
    | Toggled            // fijar done
    | DaySaved           // guardar_todo done
    | NoAction
    | Raised(error: DashError)

  datatype DashError = Db(e: DbError) | AttributeError

  /** The row `create(user=u, fecha=hoy, para_gastar_dia=budget)` builds; every other field has its default. */
  function BlankDay(u: User, hoy: Dates.Date, budget: Value): (r: Registro.Record)
    ensures r.user == u && r.fecha == hoy && !r.completed && r.budget == budget
  {
    Registro.Record(u, hoy, budget, Zero, Zero, Zero, Zero, false, false, false, false, false)
  }

  // ---------------------------------------------------------------
  // POST: presupuesto_diario
  // ---------------------------------------------------------------

  /** The new budget the form asks for, falling back to the current one. */
  function NewBudget(form: Form, c: Configuracion.Config): Value {
    Normalizar.NormalizarDecimal(Get(form, "presupuesto_diario"), c.budget)
  }

  /**
   * The budget branch with `c` the user's saved configuration: a budget
   * that is not positive is refused; otherwise it is saved.
   */
  function PostBudget(configs: Configs, u: User, c: Configuracion.Config, form: Form): (r: (Answer, Configs))
    requires Configuracion.Saved(c)
    ensures r.0 == BudgetSaved <==> AmountOf(NewBudget(form, c)) > 0.0
    ensures r.0 != BudgetSaved ==> r.0 == BudgetRejected && r.1 == configs
    ensures r.0 == BudgetSaved ==> r.1 == configs[u := Configuracion.Save(c.(budget := NewBudget(form, c)))]
  {
    var valor := NewBudget(form, c);
    if AmountOf(valor) <= 0.0 then (BudgetRejected, configs)
    else (BudgetSaved, configs[u := Configuracion.Save(c.(budget := valor))])
  }

  /**
   * A saved budget is positive and is the posted amount, and the rest of
   * the configuration stays as it was; a posted amount that is missing,
   * unreadable, negative or zero leaves a zero budget in place.
   */
  lemma BudgetSavedIsPositive(configs: Configs, u: User, form: Form)
    requires ConfigsSaved(configs) && u in configs
    ensures var c := configs[u];
            var r := PostBudget(configs, u, c, form);
            (r.0 == BudgetSaved ==>
               r.1 == configs[u := c.(budget := NewBudget(form, c))] && AmountOf(r.1[u].budget) > 0.0
               && (NewBudget(form, c) == c.budget
                   || FromStr(Get(form, "presupuesto_diario")) == Some(NewBudget(form, c).d)))
            && ((AmountOf(c.budget) == 0.0 && !(FromStr(Get(form, "presupuesto_diario")).Some?
                   && FromStr(Get(form, "presupuesto_diario")).value.Fin?
                   && FromStr(Get(form, "presupuesto_diario")).value.v > 0.0)) ==> r.0 == BudgetRejected)
  {
    var c := configs[u];
    var v := NewBudget(form, c);
    assert IsMoney(v);
    Normalizar.MoneyIsFixedPoint(AmountOf(c.budget), Zero);
    Normalizar.MoneyIsFixedPoint(AmountOf(c.food), Zero);
    Normalizar.MoneyIsFixedPoint(AmountOf(c.products), Zero);
    Normalizar.MoneyIsFixedPoint(AmountOf(c.savings), Zero);
    Normalizar.MoneyIsFixedPoint(AmountOf(c.leftover), Zero);
    Normalizar.MoneyIsFixedPoint(AmountOf(v), Zero);
  }

  // ---------------------------------------------------------------
  // POST: fijar
  // ---------------------------------------------------------------

  /** The categories `fijar` can name other than the leftover: `getattr` finds `<tipo>_fijo` only for these. */
  function Category(tipo: Option<string>): (f: Option<Registro.Field>)
    ensures f.Some? ==> f.value != Registro.Sobrante
  {
    if tipo.Some? && tipo.value != "sobrante" then Registro.FieldNamed(tipo.value) else None
  }

  /** The row with the flag of `f` flipped and its value set to `v`. */
  function Toggle(r: Registro.Record, f: Registro.Field, v: Value): (t: Registro.Record)
    ensures Registro.FieldFixed(t, f) == !Registro.FieldFixed(r, f)
    ensures Registro.FieldValue(t, f) == v
    ensures forall g :: g != f ==> (Registro.FieldFixed(t, g) == Registro.FieldFixed(r, g)
                                  && Registro.FieldValue(t, g) == Registro.FieldValue(r, g))
    ensures t.budget == r.budget && t.completed == r.completed && t.user == r.user && t.fecha == r.fecha
  {
    Registro.WithValue(Registro.WithFixed(r, f, !Registro.FieldFixed(r, f)), f, v)
  }

  /** The amount `fijar` writes: the row's own leftover for "sobrante", the posted amount otherwise. */
  function FijarAmount(form: Form, r: Registro.Record): Value {
    var tipo := if "tipo" in form then Some(form["tipo"]) else None;
    if tipo == Some("sobrante") then Normalizar.Normalize(r.leftover)
    else Normalizar.Normalize(if tipo.None? then Null else Get(form, tipo.value))
  }

  /** The field `fijar` works on: the leftover for "sobrante", otherwise a category or nothing. */
  function FijarField(form: Form): Option<Registro.Field> {
    var tipo := if "tipo" in form then Some(form["tipo"]) else None;
    if tipo == Some("sobrante") then Some(Registro.Sobrante) else Category(tipo)
  }

  /**
   * fijar once today's row sits at index `k` of `s1`: the leftover is taken
   * from the row itself; any other amount must be positive, and then a name
   * that is not a category raises.
   */
  function FijarRow(s1: Store, k: nat, form: Form): (r: (Answer, Store))
    requires k < |s1|
    ensures r.0 != Toggled ==> r.1 == s1
    ensures r.0 == Toggled ==>
              FijarField(form).Some?
              && Update(s1, k, Toggle(s1[k], FijarField(form).value, FijarAmount(form, s1[k]))).Ok?
              && r.1 == Update(s1, k, Toggle(s1[k], FijarField(form).value, FijarAmount(form, s1[k]))).value
    ensures var valor := FijarAmount(form, s1[k]);
            var sobrante := FijarField(form) == Some(Registro.Sobrante);
            (!sobrante && AmountOf(valor) <= 0.0 ==> r == (AmountRejected, s1))
            && ((sobrante || AmountOf(valor) > 0.0) && FijarField(form).None? ==> r == (Raised(AttributeError), s1))
            && ((sobrante || AmountOf(valor) > 0.0) && FijarField(form).Some? ==>
                  var saved := Update(s1, k, Toggle(s1[k], FijarField(form).value, valor));
                  (r.0 == Toggled <==> saved.Ok?) && (saved.Err? ==> r == (Raised(Db(saved.error)), s1)))
  {
    var valor := FijarAmount(form, s1[k]);
    var sobrante := "tipo" in form && form["tipo"] == "sobrante";
    if !sobrante && AmountOf(valor) <= 0.0 then (AmountRejected, s1)
    else if FijarField(form).None? then (Raised(AttributeError), s1)
    else
      match Update(s1, k, Toggle(s1[k], FijarField(form).value, valor))
      case Err(e) => (Raised(Db(e)), s1)
      case Ok(s2) => (Toggled, s2)
  }

  /**
   * The fijar branch on day `hoy` with `c` the user's configuration.
   * Today's row is created first when missing, and stays created whatever
   * happens next.
   */
  function PostFijar(store: Store, c: Configuracion.Config, u: User, hoy: Dates.Date, form: Form): (r: (Answer, Store))
    ensures (r.0 == AmountRejected || r.0 == Raised(AttributeError)) ==>
              Has(r.1, u, hoy) && |store| <= |r.1| && r.1[..|store|] == store
    ensures r.0 != Toggled && Has(store, u, hoy) ==> r.1 == store
    ensures var e := EnsureRow(store, BlankDay(u, hoy, c.budget));
            var k := FirstOn(store, u, hoy);
            (e.Err? ==> r == (Raised(Db(e.error)), store))
            && ((e.Ok? && FijarField(form) != Some(Registro.Sobrante) && AmountOf(FijarAmount(form, e.value[k])) <= 0.0)
                ==> r == (AmountRejected, e.value))
            && (r.0 == Toggled <==>
                  e.Ok? && FijarField(form).Some?
                  && (FijarField(form) == Some(Registro.Sobrante) || AmountOf(FijarAmount(form, e.value[k])) > 0.0)
                  && Update(e.value, k, Toggle(e.value[k], FijarField(form).value, FijarAmount(form, e.value[k]))).Ok?)
  {
    match EnsureRow(store, BlankDay(u, hoy, c.budget))
    case Err(e) => (Raised(Db(e)), store)
    case Ok(s1) => FijarRow(s1, FirstOn(store, u, hoy), form)
  }

  /**
   * After a successful fijar today's row has the named field's flag
   * flipped, holds the amount that was written, keeps every other flag,
   * and is saved; the other rows are untouched.
   */
  lemma FijarFlipsOneFlag(store: Store, c: Configuracion.Config, u: User, hoy: Dates.Date, form: Form)
    requires PostFijar(store, c, u, hoy, form).0 == Toggled
    ensures var s' := PostFijar(store, c, u, hoy, form).1;
            var k := FirstOn(store, u, hoy);
            var s1 := EnsureRow(store, BlankDay(u, hoy, c.budget));
            var f := FijarField(form);
            s1.Ok? && f.Some? && k < |s'| && Registro.Stored(s'[k]) && On(s'[k], u, hoy)
            && Registro.FieldFixed(s'[k], f.value) == !Registro.FieldFixed(s1.value[k], f.value)
            && (forall g :: g != f.value ==> Registro.FieldFixed(s'[k], g) == Registro.FieldFixed(s1.value[k], g))
            && (forall j :: 0 <= j < |store| && j != k ==> s'[j] == store[j])
  {
    var k := FirstOn(store, u, hoy);
    var s1 := EnsureRow(store, BlankDay(u, hoy, c.budget)).value;
    var t := Toggle(s1[k], FijarField(form).value, FijarAmount(form, s1[k]));
    var x := Registro.Save(t);
    assert x.Ok? && Registro.SameFlags(x.value, t) && Registro.Stored(x.value);
    assert forall g :: Registro.FieldFixed(x.value, g) == Registro.FieldFixed(t, g);
    PrefixUpdateKeeps(store, s1, k, x.value);
    assert PostFijar(store, c, u, hoy, form).1 == s1[k := x.value];
  }

  /**
   * An amount that is not positive is refused before any flag changes,
   * except for the leftover, which takes the row's own leftover whatever
   * was posted.
   */
  lemma FijarRejectsNonPositive(store: Store, c: Configuracion.Config, u: User, hoy: Dates.Date, form: Form)
    requires "tipo" in form && form["tipo"] != "sobrante"
    requires Has(store, u, hoy)
    requires AmountOf(FijarAmount(form, store[FirstOn(store, u, hoy)])) <= 0.0
    ensures PostFijar(store, c, u, hoy, form) == (AmountRejected, store)
  {
    FirstOnHas(store, u, hoy);
  }

  /** A positive amount for a name that is not a category raises once `getattr` looks for its flag. */
  lemma FijarUnknownTipoRaises(store: Store, c: Configuracion.Config, u: User, hoy: Dates.Date, form: Form)
    requires "tipo" in form && Registro.FieldNamed(form["tipo"]).None?
    requires Has(store, u, hoy)
    requires AmountOf(FijarAmount(form, store[FirstOn(store, u, hoy)])) > 0.0
    ensures PostFijar(store, c, u, hoy, form) == (Raised(AttributeError), store)
  {
    FirstOnHas(store, u, hoy);
  }

  // ---------------------------------------------------------------
  // POST: guardar_todo
  // ---------------------------------------------------------------

  /**
   * The row as guardar_todo leaves it before `save`: the posted amounts,
   * fixed or not, and completed.  The budget is the posted one when it is a
   * readable non-negative number, and the configuration's budget otherwise.
   */
  function WholeDay(r: Registro.Record, c: Configuracion.Config, form: Form): (w: Registro.Record)
    ensures w.completed && w.user == r.user && w.fecha == r.fecha
    ensures w.foodFixed == r.foodFixed && w.productsFixed == r.productsFixed
         && w.savingsFixed == r.savingsFixed && w.leftoverFixed == r.leftoverFixed
    ensures w.food == Normalizar.Normalize(Get(form, "alimento"))
         && w.products == Normalizar.Normalize(Get(form, "productos"))
         && w.savings == Normalizar.Normalize(Get(form, "ahorro_y_deuda"))
         && w.leftover == r.leftover
    ensures var v := Get(form, "para_gastar_dia");
            var d := FromStr(v);
            (!Normalizar.IsPlaceholder(v) && d.Some? && d.value.Fin? && d.value.v >= 0.0 ==> w.budget == Num(d.value))
            && (Normalizar.IsPlaceholder(v) || d.None? || !d.value.Fin? || d.value.v < 0.0 ==> w.budget == c.budget)
  {
    r.(budget := Normalizar.NormalizarDecimal(Get(form, "para_gastar_dia"), c.budget),
       food := Normalizar.Normalize(Get(form, "alimento")),
       products := Normalizar.Normalize(Get(form, "productos")),
       savings := Normalizar.Normalize(Get(form, "ahorro_y_deuda")),
       completed := true)
  }

  /** The index of the row a successful `get_or_create` returned. */
  lemma CreatedIsFirst(store: Store, x: Registro.Record, u: User, hoy: Dates.Date)
    requires !Has(store, u, hoy) && On(x, u, hoy)
    ensures FirstOn(store + [x], u, hoy) == |store|
  {
    FirstOnHas(store, u, hoy);
    var s := store + [x];
    assert forall i :: 0 <= i < |store| ==> !On(s[i], u, hoy) by {
      forall i | 0 <= i < |store| ensures !On(s[i], u, hoy) {
        assert s[i] == store[i];
      }
    }
    FirstOnIsLeast(s, u, hoy, |store|);
  }

  /**
   * `save()` of row `k` once guardar_todo has filled it in: the day is
   * saved, or the error is raised with the table as it was.
   */
  function SaveWholeDay(s1: Store, k: nat, c: Configuracion.Config, form: Form): (r: (Answer, Store))
    requires k < |s1|
    ensures r.0 == DaySaved || r.0.Raised?
    ensures r.0.Raised? ==> r.1 == s1
    ensures r.0 == DaySaved <==> Update(s1, k, WholeDay(s1[k], c, form)).Ok?
    ensures r.0 == DaySaved ==> r.1 == s1[k := Registro.Save(WholeDay(s1[k], c, form)).value]
  {
    match Update(s1, k, WholeDay(s1[k], c, form))
    case Err(e) => (Raised(Db(e)), s1)
    case Ok(s2) => (DaySaved, s2)
  }

  /**
   * The guardar_todo branch on day `hoy`: today's row is fetched or created,
   * takes the posted amounts and is saved as completed.
   */
  function PostGuardarTodo(store: Store, c: Configuracion.Config, u: User, hoy: Dates.Date, form: Form): (r: (Answer, Store))
    ensures CountOn(store, u, hoy) >= 2 ==> r == (Raised(Db(MultipleObjectsReturned)), store)
    ensures r.0 == DaySaved ==>
              var k := FirstOn(store, u, hoy);
              k < |r.1| && |r.1| == (if k < |store| then |store| else |store| + 1)
              && On(r.1[k], u, hoy) && r.1[k].completed && Registro.Stored(r.1[k])
              && r.1[k].food == Normalizar.Normalize(Get(form, "alimento"))
              && r.1[k].products == Normalizar.Normalize(Get(form, "productos"))
              && r.1[k].savings == Normalizar.Normalize(Get(form, "ahorro_y_deuda"))
              && r.1[k].budget == Normalizar.Normalize(Normalizar.NormalizarDecimal(Get(form, "para_gastar_dia"), c.budget))
              && forall j :: 0 <= j < |store| && j != k ==> r.1[j] == store[j]
    ensures CountOn(store, u, hoy) <= 1 ==>
              var e := EnsureRow(store, BlankDay(u, hoy, c.budget));
              (r.0 == DaySaved <==> e.Ok? && Registro.Save(WholeDay(e.value[FirstOn(store, u, hoy)], c, form)).Ok?)
    ensures r.0 == DaySaved || r.0.Raised?
    ensures r.0.Raised? ==> |store| <= |r.1| && r.1[..|store|] == store
  {
    if CountOn(store, u, hoy) >= 2 then (Raised(Db(MultipleObjectsReturned)), store)
    else
      match EnsureRow(store, BlankDay(u, hoy, c.budget))
      case Err(e) => (Raised(Db(e)), store)
      case Ok(s1) =>
        GuardarTodoSaved(store, s1, c, u, hoy, form);
        SaveWholeDay(s1, FirstOn(store, u, hoy), c, form)
  }

  /** What guardar_todo leaves on the table once today's row is there. */
  lemma GuardarTodoSaved(store: Store, s1: Store, c: Configuracion.Config, u: User, hoy: Dates.Date, form: Form)
    requires CountOn(store, u, hoy) <= 1
    requires EnsureRow(store, BlankDay(u, hoy, c.budget)) == Ok(s1)
    ensures FirstOn(store, u, hoy) < |s1|
    ensures var k := FirstOn(store, u, hoy);
            var r := SaveWholeDay(s1, k, c, form);
            (r.0 == DaySaved <==> Registro.Save(WholeDay(s1[k], c, form)).Ok?)
            && |store| <= |s1| && s1[..|store|] == store
            && |s1| == (if k < |store| then |store| else |store| + 1)
            && (r.0 == DaySaved ==>
                  k < |r.1| && |r.1| == |s1|
                  && On(r.1[k], u, hoy) && r.1[k].completed && Registro.Stored(r.1[k])
                  && r.1[k].food == Normalizar.Normalize(Get(form, "alimento"))
                  && r.1[k].products == Normalizar.Normalize(Get(form, "productos"))
                  && r.1[k].savings == Normalizar.Normalize(Get(form, "ahorro_y_deuda"))
                  && r.1[k].budget == Normalizar.Normalize(Normalizar.NormalizarDecimal(Get(form, "para_gastar_dia"), c.budget))
                  && forall j :: 0 <= j < |store| && j != k ==> r.1[j] == store[j])
  {
    hide Registro.Save, WholeDay, Update, EnsureRow, SaveWholeDay;
    CountOnHas(store, u, hoy);
    FirstOnHas(store, u, hoy);
    if !Has(store, u, hoy) {
      assert EnsureRow(store, BlankDay(u, hoy, c.budget)) == Insert(store, BlankDay(u, hoy, c.budget));
      CreatedIsFirst(store, Registro.Save(BlankDay(u, hoy, c.budget)).value, u, hoy);
    }
    var k := FirstOn(store, u, hoy);
    var w := WholeDay(s1[k], c, form);
    AloneOnDay(store, s1, u, hoy);
    assert w.user == u && w.fecha == hoy;
    var r := SaveWholeDay(s1, k, c, form);
    assert r.0 == DaySaved <==> Registro.Save(w).Ok?;
    if r.0 == DaySaved {
      WholeDaySaved(s1[k], c, form);
      assert r.1 == s1[k := Registro.Save(w).value];
      PrefixUpdateKeeps(store, s1, k, Registro.Save(w).value);
    }
  }

  /**
   * `get_or_create` leaves at most one row of `u` on `hoy`: after it, the
   * row at the first match is the only one on that day.
   */
  lemma AloneOnDay(store: Store, s1: Store, u: User, hoy: Dates.Date)
    requires CountOn(store, u, hoy) <= 1
    requires s1 == store || (!Has(store, u, hoy) && |s1| == |store| + 1 && s1[..|store|] == store)
    ensures forall j :: 0 <= j < |s1| && j != FirstOn(store, u, hoy) ==> !On(s1[j], u, hoy)
  {
    FirstOnHas(store, u, hoy);
    forall j | 0 <= j < |s1| && j != FirstOn(store, u, hoy)
      ensures !On(s1[j], u, hoy)
    {
      if s1 == store {
        if On(store[j], u, hoy) {
          CountOnHas(store, u, hoy);
          OnlyRow(store, u, hoy, j);
        }
      } else {
        assert j < |store| && s1[j] == store[j];
      }
    }
  }

  /**
   * A day saved by guardar_todo is completed and holds the posted category
   * amounts and the posted budget, or the configuration's budget when none
   * was readable.
   */
  lemma WholeDaySaved(r: Registro.Record, c: Configuracion.Config, form: Form)
    requires Registro.Save(WholeDay(r, c, form)).Ok?
    ensures var x := Registro.Save(WholeDay(r, c, form)).value;
            x.completed && Registro.Stored(x) && x.user == r.user && x.fecha == r.fecha
            && x.food == Normalizar.Normalize(Get(form, "alimento"))
            && x.products == Normalizar.Normalize(Get(form, "productos"))
            && x.savings == Normalizar.Normalize(Get(form, "ahorro_y_deuda"))
            && x.budget == Normalizar.Normalize(Normalizar.NormalizarDecimal(Get(form, "para_gastar_dia"), c.budget))
    ensures Configuracion.Saved(c) ==>
              Registro.Save(WholeDay(r, c, form)).value.budget
              == Normalizar.NormalizarDecimal(Get(form, "para_gastar_dia"), c.budget)
  {
    Normalizar.NormalizeIdempotent(Get(form, "alimento"), Zero);
    Normalizar.NormalizeIdempotent(Get(form, "productos"), Zero);
    Normalizar.NormalizeIdempotent(Get(form, "ahorro_y_deuda"), Zero);
    if Configuracion.Saved(c) {
      var b := Normalizar.NormalizarDecimal(Get(form, "para_gastar_dia"), c.budget);
      Normalizar.NormalizeIdempotent(Get(form, "para_gastar_dia"), c.budget);
      Normalizar.MoneyIsFixedPoint(AmountOf(b), Zero);
    }
  }

  // ---------------------------------------------------------------
  // POST
  // ---------------------------------------------------------------

  /**
   * `post(request)` on the day `hoy` with the POST body `form`: the first of
   * the keys presupuesto_diario, fijar and guardar_todo that is present
   * picks the action.
   */
  method Post(store: Store, configs: Configs, u: User, hoy: Dates.Date, form: Form)
    returns (answer: Answer, store': Store, configs': Configs)
    requires ConfigsSaved(configs)
    ensures ConfigsSaved(configs')
    ensures var (c, cs) := GetOrCreateConfig(configs, u);
            ("presupuesto_diario" in form ==> (answer, configs') == PostBudget(cs, u, c, form) && store' == store)
            && ("presupuesto_diario" !in form ==> configs' == cs)
            && ("presupuesto_diario" !in form && "fijar" in form ==> (answer, store') == PostFijar(store, c, u, hoy, form))
            && ("presupuesto_diario" !in form && "fijar" !in form && "guardar_todo" in form ==>
                  (answer, store') == PostGuardarTodo(store, c, u, hoy, form))
            && ("presupuesto_diario" !in form && "fijar" !in form && "guardar_todo" !in form ==>
                  answer == NoAction && store' == store)
    ensures "presupuesto_diario" !in form && "fijar" !in form && "guardar_todo" in form ==>
              (answer == DaySaved || answer.Raised?)
              && (answer.Raised? ==> |store| <= |store'| && store'[..|store|] == store)
  {
    hide Registro.Save;
    var (c, cs) := GetOrCreateConfig(configs, u);
    if "presupuesto_diario" in form {
      var r := PostBudget(cs, u, c, form);
      answer, store', configs' := r.0, store, r.1;
      return;
    }
    configs' := cs;
    if "fijar" in form {
      answer, store' := PostFijar(store, c, u, hoy, form).0, PostFijar(store, c, u, hoy, form).1;
    } else if "guardar_todo" in form {
      var r := PostGuardarTodo(store, c, u, hoy, form);
      answer, store' := r.0, r.1;
    } else {
      answer, store' := NoAction, store;
    }
  }

  // ---------------------------------------------------------------
  // GET: totals
  // ---------------------------------------------------------------

  /**
   * `total_gastado`: the spending of every row of `u`.  Each `gasto_total`
   * is a sum of normalized amounts, so normalizing it again changes nothing.
   */
  function TotalGastado(s: Store, u: User): (t: real)
    ensures t >= 0.0
  {
    if |s| == 0 then 0.0
    else TotalGastado(s[..|s| - 1], u) + (if s[|s| - 1].user == u then Registro.GastoTotal(s[|s| - 1]) else 0.0)
  }

  /** The rows `registros_completados` keeps: completed, with a positive budget. */
  predicate CountsForSobrante(r: Registro.Record) {
    r.completed && Normalizar.Amount(r.budget) > 0.0
  }

  /** `total_sobrante`: the normalized leftover of the user's completed rows with a positive budget. */
  function TotalSobrante(s: Store, u: User): (t: real)
    ensures t >= 0.0
  {
    if |s| == 0 then 0.0
    else TotalSobrante(s[..|s| - 1], u)
         + (if s[|s| - 1].user == u && CountsForSobrante(s[|s| - 1]) then Normalizar.Amount(s[|s| - 1].leftover) else 0.0)
  }

  /** The budgets of the rows `total_sobrante` counts. */
  function TotalPresupuesto(s: Store, u: User): real {
    if |s| == 0 then 0.0
    else TotalPresupuesto(s[..|s| - 1], u)
         + (if s[|s| - 1].user == u && CountsForSobrante(s[|s| - 1]) then Normalizar.Amount(s[|s| - 1].budget) else 0.0)
  }

  /** The spending of those rows. */
  function GastadoContado(s: Store, u: User): real {
    if |s| == 0 then 0.0
    else GastadoContado(s[..|s| - 1], u)
         + (if s[|s| - 1].user == u && CountsForSobrante(s[|s| - 1]) then Registro.GastoTotal(s[|s| - 1]) else 0.0)
  }

  /** The totals add up over two parts of the table. */
  lemma {:induction false} TotalsAppend(s: Store, t: Store, u: User)
    ensures TotalGastado(s + t, u) == TotalGastado(s, u) + TotalGastado(t, u)
    ensures TotalSobrante(s + t, u) == TotalSobrante(s, u) + TotalSobrante(t, u)
  {
    if |t| == 0 {
      assert s + t == s;
    } else {
      var t' := t[..|t| - 1];
      TotalsAppend(s, t', u);
      assert (s + t)[..|s + t| - 1] == s + t';
    }
  }

  /** Other users' rows do not count towards the totals. */
  lemma {:induction false} TotalsOfOtherUser(s: Store, x: Registro.Record, u: User)
    requires x.user != u
    ensures TotalGastado(s + [x], u) == TotalGastado(s, u)
    ensures TotalSobrante(s + [x], u) == TotalSobrante(s, u)
  {
    assert (s + [x])[..|s|] == s;
  }

  /**
   * When every counted row was saved with a computed leftover, the leftover
   * total is what remains of their budgets after their spending.
   */
  lemma {:induction false} SobranteIsBudgetLeft(s: Store, u: User)
    requires forall i :: 0 <= i < |s| && s[i].user == u && CountsForSobrante(s[i]) ==>
               Registro.Stored(s[i]) && !s[i].leftoverFixed
    ensures TotalSobrante(s, u) == TotalPresupuesto(s, u) - GastadoContado(s, u)
  {
    if |s| > 0 {
      var p := s[..|s| - 1];
      var x := s[|s| - 1];
      assert forall i :: 0 <= i < |p| ==> p[i] == s[i];
      SobranteIsBudgetLeft(p, u);
      if x.user == u && CountsForSobrante(x) {
        Registro.EffectiveLeftoverIsBalance(x);
      }
    }
  }

  // ---------------------------------------------------------------
  // GET
  // ---------------------------------------------------------------

  /** What the dashboard shows. */
  datatype Context = Context(
    presupuesto: string,
    pendientes: seq<Dates.Date>,
    mensaje: string,
    cantidad: nat,
    registro: Option<Registro.Record>,
    diaCompletado: bool,
    valorAlimento: string,
    valorProductos: string,
    valorAhorro: string,
    valorSobrante: string,
    totalGastado: real,
    totalSobrante: real)

  /** `get_context_data()` on the day `hoy`. */
  method GetContext(store: Store, configs: Configs, u: User, hoy: Dates.Date) returns (ctx: Context, configs': Configs)
    ensures configs' == GetOrCreateConfig(configs, u).1
    ensures var c := configs'[u];
            ctx.presupuesto == Convert.DecInt(Normalizar.Normalize(c.budget), "0")
            && ctx.cantidad == |ctx.pendientes|
            && (c.start.None? ==> ctx.pendientes == [] && ctx.mensaje == Pendientes.NoStartMessage)
            && (c.start.Some? ==> ctx.pendientes == Pendientes.Pending(store, u, c.start.value, hoy))
    ensures !Has(store, u, hoy) ==>
              ctx.registro.None? && !ctx.diaCompletado && ctx.valorAlimento == "0"
              && ctx.valorProductos == "0" && ctx.valorAhorro == "0" && ctx.valorSobrante == ctx.presupuesto
    ensures Has(store, u, hoy) ==>
              var r := store[FirstOn(store, u, hoy)];
              ctx.registro == Some(r) && ctx.diaCompletado == r.completed
              && ctx.valorAlimento == Convert.DecInt(r.food, "0")
              && ctx.valorProductos == Convert.DecInt(r.products, "0")
              && ctx.valorAhorro == Convert.DecInt(r.savings, "0")
              && ctx.valorSobrante == Convert.DecInt(r.leftover, "0")
    ensures ctx.totalGastado == TotalGastado(store, u) && ctx.totalSobrante == TotalSobrante(store, u)
  {
    var (c, cs) := GetOrCreateConfig(configs, u);
    var presupuesto := Convert.DecInt(Normalizar.Normalize(c.budget), "0");
    var pendientes, mensaje, cs2 := Pendientes.ObtenerDiasPendientes(store, cs, u, hoy);
    configs' := cs2;
    var k := FirstOn(store, u, hoy);
    FirstOnHas(store, u, hoy);
    var registro := if k < |store| then Some(store[k]) else None;
    ctx := Context(
      presupuesto, pendientes, mensaje, |pendientes|, registro,
      if registro.Some? then registro.value.completed else false,
      if registro.Some? then Convert.DecInt(registro.value.food, "0") else "0",
      if registro.Some? then Convert.DecInt(registro.value.products, "0") else "0",
      if registro.Some? then Convert.DecInt(registro.value.savings, "0") else "0",
      if registro.Some? then Convert.DecInt(registro.value.leftover, "0") else presupuesto,
      TotalGastado(store, u), TotalSobrante(store, u));
  }
}
