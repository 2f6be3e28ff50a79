/**
 * The JSON endpoint `fijar_valor_default`: it sets (or clears) the "fixed"
 * flag of one category default in the user's configuration and, when a
 * value is posted, stores that value as the new default.
 */
module Api {
  import opened Wrappers
  import opened Decimals
  import Normalizar
  import Configuracion
  import opened Almacen

  /** The three categories the endpoint accepts; `sobrante` is not among them. */
  datatype Campo = Alimento | Productos | AhorroYDeuda

  /** The lookup in the endpoint's `mapping`. */
  function CampoNamed(name: Option<string>): (c: Option<Campo>)
    ensures c.Some? <==> name == Some("alimento") || name == Some("productos") || name == Some("ahorro_y_deuda")
  {
    match name
    case Some("alimento") => Some(Alimento)
    case Some("productos") => Some(Productos)
    case Some("ahorro_y_deuda") => Some(AhorroYDeuda)
    case _ => None
  }

  /** The `default_<campo>` amount of a configuration. */
  function DefaultOf(c: Configuracion.Config, campo: Campo): Value {
    match campo
    case Alimento => c.food
    case Productos => c.products
    case AhorroYDeuda => c.savings
  }

  /** The `default_<campo>_fijo` flag of a configuration. */
  function FixedOf(c: Configuracion.Config, campo: Campo): bool {
    match campo
    case Alimento => c.foodFixed
    case Productos => c.productsFixed
    case AhorroYDeuda => c.savingsFixed
  }

  /** The two `setattr` calls on the mapped pair. */
  function SetPair(c: Configuracion.Config, campo: Campo, v: Value, fijo: bool): (r: Configuracion.Config)
    ensures DefaultOf(r, campo) == v && FixedOf(r, campo) == fijo
    ensures forall o :: o != campo ==> DefaultOf(r, o) == DefaultOf(c, o) && FixedOf(r, o) == FixedOf(c, o)
    ensures r.user == c.user && r.budget == c.budget && r.leftover == c.leftover
         && r.leftoverFixed == c.leftoverFixed && r.start == c.start
  {
    match campo
    case Alimento => c.(food := v, foodFixed := fijo)
    case Productos => c.(products := v, productsFixed := fijo)
    case AhorroYDeuda => c.(savings := v, savingsFixed := fijo)
  }

  /** The JSON answers: status 400 for an unknown field or a negative value, otherwise the stored pair. */
  datatype Response =
    | InvalidField
    | NegativeValue
    | Done(campo: Campo, fijo: bool, valor: Value)

  /**
   * The default the endpoint stores: the current one when `valor` is
   * missing or empty, otherwise the normalized `valor` with the current
   * default as the fallback.
   */
  function NewDefault(current: Value, valorRaw: Option<string>): (v: Value)
    requires IsMoney(current)
    ensures IsMoney(v)
  {
    if valorRaw.None? || valorRaw.value == "" then current
    else
      Normalizar.NormalizeIdempotent(Text(valorRaw.value), current);
      Normalizar.NormalizarDecimal(Text(valorRaw.value), current)
  }

  /**
   * `fijar_valor_default(request)` with the POST entries `campo`, `valor` and
   * `fijo` (`None` when missing).  Returns the answer and the configurations.
   * A known field always succeeds: the configuration, fetched or created,
   * gets the new default and the flag, and the answer reports both.
   */
  function FijarValorDefault(configs: Configs, u: User, campo: Option<string>,
                             valorRaw: Option<string>, fijo: Option<string>): (r: (Response, Configs))
    requires ConfigsSaved(configs)
    ensures CampoNamed(campo).None? ==> r == (InvalidField, configs)
    ensures r.0 != NegativeValue
    ensures CampoNamed(campo).Some? ==>
              var (c, configs') := GetOrCreateConfig(configs, u);
              var k := CampoNamed(campo).value;
              var v := NewDefault(DefaultOf(c, k), valorRaw);
              r == (Done(k, fijo == Some("true"), v), configs'[u := SetPair(c, k, v, fijo == Some("true"))])
    ensures ConfigsSaved(r.1)
  {
    var flag := fijo == Some("true");
    match CampoNamed(campo)
    case None => (InvalidField, configs)
    case Some(k) =>
      var (config, configs') := GetOrCreateConfig(configs, u);
      var current := DefaultOf(config, k);
      if valorRaw.None? || valorRaw.value == "" then Stored(configs', u, config, k, current, flag)
      else
        var valor := NewDefault(current, valorRaw);
        if AmountOf(valor) < 0.0 then (NegativeValue, configs')
        else Stored(configs', u, config, k, valor, flag)
  }

  /** `config.save()` after the two assignments: saving a saved configuration changes nothing. */
  function Stored(configs: Configs, u: User, config: Configuracion.Config, k: Campo, v: Value, flag: bool): (r: (Response, Configs))
    requires ConfigsSaved(configs) && Configuracion.Saved(config) && config.user == u && IsMoney(v)
    ensures r == (Done(k, flag, v), configs[u := SetPair(config, k, v, flag)])
    ensures ConfigsSaved(r.1)
  {
    var withPair := SetPair(config, k, v, flag);
    var saved := Configuracion.Save(withPair);
    Configuracion.SaveKeepsSaved(withPair);
    (Done(k, flag, DefaultOf(saved, k)), configs[u := saved])
  }

  /** Setting the same pair twice is setting it once. */
  lemma SetPairTwice(c: Configuracion.Config, k: Campo, v: Value, flag: bool)
    ensures SetPair(SetPair(c, k, v, flag), k, v, flag) == SetPair(c, k, v, flag)
  {
  }

  // ---------------------------------------------------------------
  // Properties
  // ---------------------------------------------------------------

  /**
   * Only the mapped value/flag pair of the requesting user changes: the
   * other categories, the budget, the leftover default, the start date and
   * every other user's configuration stay as they were.
   */
  lemma OnlyMappedPairChanges(configs: Configs, u: User, campo: Option<string>,
                              valorRaw: Option<string>, fijo: Option<string>)
    requires ConfigsSaved(configs) && CampoNamed(campo).Some?
    ensures var r := FijarValorDefault(configs, u, campo, valorRaw, fijo).1;
            var c := GetOrCreateConfig(configs, u).0;
            var k := CampoNamed(campo).value;
            (forall v :: v != u ==> (v in r <==> v in configs))
            && (forall v :: v != u && v in configs ==> r[v] == configs[v])
            && (forall o :: o != k ==> DefaultOf(r[u], o) == DefaultOf(c, o) && FixedOf(r[u], o) == FixedOf(c, o))
            && r[u].budget == c.budget && r[u].leftover == c.leftover
            && r[u].leftoverFixed == c.leftoverFixed && r[u].start == c.start
  {
  }

  /** A missing or empty `valor` keeps the stored default; only the flag is set. */
  lemma MissingValueKeepsDefault(configs: Configs, u: User, campo: Option<string>,
                                 valorRaw: Option<string>, fijo: Option<string>)
    requires ConfigsSaved(configs) && CampoNamed(campo).Some?
    requires valorRaw == None || valorRaw == Some("")
    ensures var r := FijarValorDefault(configs, u, campo, valorRaw, fijo);
            var k := CampoNamed(campo).value;
            r.0 == Done(k, fijo == Some("true"), DefaultOf(GetOrCreateConfig(configs, u).0, k))
  {
  }

  /**
   * A posted value is stored when it reads as a finite non-negative
   * decimal; an unreadable, non-finite or negative one keeps the current
   * default, so the "negative value" answer is never given.
   */
  lemma PostedValueStored(configs: Configs, u: User, campo: Option<string>, s: string, fijo: Option<string>)
    requires ConfigsSaved(configs) && CampoNamed(campo).Some? && s != ""
    ensures var r := FijarValorDefault(configs, u, campo, Some(s), fijo);
            var k := CampoNamed(campo).value;
            var d := FromStr(Text(s));
            (!Normalizar.IsPlaceholder(Text(s)) && d.Some? && d.value.Fin? && d.value.v >= 0.0 ==> r.0.valor == Num(d.value))
            && (Normalizar.IsPlaceholder(Text(s)) || d.None? || !d.value.Fin? || d.value.v < 0.0 ==>
                  r.0.valor == DefaultOf(GetOrCreateConfig(configs, u).0, k))
  {
  }

  /** Posting the same `valor` against the default it produced leaves that default. */
  lemma NewDefaultIdempotent(current: Value, valorRaw: Option<string>)
    requires IsMoney(current)
    ensures NewDefault(NewDefault(current, valorRaw), valorRaw) == NewDefault(current, valorRaw)
  {
    if valorRaw.Some? && valorRaw.value != "" {
      Normalizar.NormalizeIdempotent(Text(valorRaw.value), current);
    }
  }

  /** The flag is set to `fijo == "true"`, not toggled: repeating a call changes nothing more. */
  lemma RepeatIsIdempotent(configs: Configs, u: User, campo: Option<string>,
                           valorRaw: Option<string>, fijo: Option<string>)
    requires ConfigsSaved(configs)
    ensures var once := FijarValorDefault(configs, u, campo, valorRaw, fijo);
            FijarValorDefault(once.1, u, campo, valorRaw, fijo) == once
  {
    var once := FijarValorDefault(configs, u, campo, valorRaw, fijo);
    if CampoNamed(campo).Some? {
      var k := CampoNamed(campo).value;
      var flag := fijo == Some("true");
      var c := GetOrCreateConfig(configs, u).0;
      var v := NewDefault(DefaultOf(c, k), valorRaw);
      var c' := SetPair(c, k, v, flag);
      assert once.1[u] == c';
      assert GetOrCreateConfig(once.1, u) == (c', once.1);
      NewDefaultIdempotent(DefaultOf(c, k), valorRaw);
      SetPairTwice(c, k, v, flag);
      assert once.1[u := SetPair(c', k, v, flag)] == once.1;
    }
  }
}
