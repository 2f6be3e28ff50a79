/**
 * The per-user configuration (`ConfigFinanciera`): the daily budget, a
 * default value and "fixed" flag per category, and the start date of the
 * calendar.  New records are built from its defaults snapshot.
 */
module Configuracion {
  import opened Wrappers
  import opened Decimals
  import Normalizar
  import Dates
  import Registro

  /**
   * A configuration.  `budget` is `presupuesto_diario`; `food`, `products`,
   * `savings` and `leftover` are the `default_...` amounts with their
   * `default_..._fijo` flags; `start` is `fecha_inicio_registros`.
   */
  datatype Config = Config(
    user: Registro.User,
    budget: Value,
    food: Value,
    foodFixed: bool,
    products: Value,
    productsFixed: bool,
    savings: Value,
    savingsFixed: bool,
    leftover: Value,
    leftoverFixed: bool,
    start: Option<Dates.Date>)

  /** The configuration `get_or_create` makes for a user who has none: field defaults only. */
  function NewConfig(u: Registro.User): Config {
    Config(u, Zero, Zero, false, Zero, false, Zero, false, Zero, false, None)
  }

  /** A configuration as `save` leaves it: every amount finite and non-negative. */
  predicate Saved(c: Config) {
    IsMoney(c.budget) && IsMoney(c.food) && IsMoney(c.products) && IsMoney(c.savings) && IsMoney(c.leftover)
  }

  /** The dictionary `get_defaults_registro` returns. */
  datatype Defaults = Defaults(
    budget: Value,
    food: Value,
    foodFixed: bool,
    products: Value,
    productsFixed: bool,
    savings: Value,
    savingsFixed: bool,
    leftover: Value,
    leftoverFixed: bool)

  /**
   * `get_defaults_registro()`: each amount through the normalizer with a
   * zero default, each flag copied as it is.  A value is copied whether or
   * not its flag is set, and completion is not part of the snapshot.
   */
  function GetDefaultsRegistro(c: Config): (d: Defaults)
    ensures IsMoney(d.budget) && IsMoney(d.food) && IsMoney(d.products) && IsMoney(d.savings) && IsMoney(d.leftover)
    ensures d.foodFixed == c.foodFixed && d.productsFixed == c.productsFixed
         && d.savingsFixed == c.savingsFixed && d.leftoverFixed == c.leftoverFixed
  {
    Defaults(
      Normalizar.NormalizarDecimal(c.budget, Zero),
      Normalizar.NormalizarDecimal(c.food, Zero), c.foodFixed,
      Normalizar.NormalizarDecimal(c.products, Zero), c.productsFixed,
      Normalizar.NormalizarDecimal(c.savings, Zero), c.savingsFixed,
      Normalizar.NormalizarDecimal(c.leftover, Zero), c.leftoverFixed)
  }

  /** The unsaved record `create(user=u, fecha=day, completado=False, **defaults)` builds. */
  function RecordFromDefaults(d: Defaults, u: Registro.User, day: Dates.Date): (r: Registro.Record)
    ensures r.user == u && r.fecha == day && !r.completed
  {
    Registro.Record(u, day, d.budget, d.food, d.products, d.savings, d.leftover,
                    d.foodFixed, d.productsFixed, d.savingsFixed, d.leftoverFixed, false)
  }

  /**
   * The row `get_or_create(user=u, fecha=day, defaults=config.get_defaults_registro())`
   * creates for a missing day: incomplete, with the snapshot's amounts and
   * flags, which for a saved configuration are its stored defaults.
   */
  function NewRecord(c: Config, u: Registro.User, day: Dates.Date): (r: Registro.Record)
    ensures r.user == u && r.fecha == day && !r.completed
  {
    RecordFromDefaults(GetDefaultsRegistro(c), u, day)
  }

  /** The new row takes the snapshot's amounts and flags: for a saved configuration, its stored defaults. */
  lemma NewRecordTakesDefaults(c: Config, u: Registro.User, day: Dates.Date)
    ensures var r := NewRecord(c, u, day);
            IsMoney(r.budget) && IsMoney(r.food) && IsMoney(r.products) && IsMoney(r.savings) && IsMoney(r.leftover)
            && r.foodFixed == c.foodFixed && r.productsFixed == c.productsFixed
            && r.savingsFixed == c.savingsFixed && r.leftoverFixed == c.leftoverFixed
    ensures Saved(c) ==> var r := NewRecord(c, u, day);
              r.budget == c.budget && r.food == c.food && r.products == c.products
              && r.savings == c.savings && r.leftover == c.leftover
  {
    if Saved(c) {
      SnapshotOfSaved(c);
    }
  }

  /** `save()`: the five amounts become `normalizar_decimal(x or 0)`; flags and start date stay. */
  function Save(c: Config): (s: Config)
    ensures Saved(s)
    ensures s.user == c.user && s.start == c.start
    ensures s.foodFixed == c.foodFixed && s.productsFixed == c.productsFixed
         && s.savingsFixed == c.savingsFixed && s.leftoverFixed == c.leftoverFixed
    ensures s.budget == Normalizar.Normalize(c.budget) && s.food == Normalizar.Normalize(c.food)
         && s.products == Normalizar.Normalize(c.products) && s.savings == Normalizar.Normalize(c.savings)
         && s.leftover == Normalizar.Normalize(c.leftover)
  {
    Normalizar.OrZeroIsRedundant(c.budget);
    Normalizar.OrZeroIsRedundant(c.food);
    Normalizar.OrZeroIsRedundant(c.products);
    Normalizar.OrZeroIsRedundant(c.savings);
    Normalizar.OrZeroIsRedundant(c.leftover);
    c.(budget := Normalizar.Normalize(OrZero(c.budget)),
       food := Normalizar.Normalize(OrZero(c.food)),
       products := Normalizar.Normalize(OrZero(c.products)),
       savings := Normalizar.Normalize(OrZero(c.savings)),
       leftover := Normalizar.Normalize(OrZero(c.leftover)))
  }

  // ---------------------------------------------------------------
  // Properties
  // ---------------------------------------------------------------

  /** A saved configuration is a fixed point of `save`. */
  lemma SaveIdempotent(c: Config)
    ensures Save(Save(c)) == Save(c)
  {
    var s := Save(c);
    Normalizar.MoneyIsFixedPoint(AmountOf(s.budget), Zero);
    Normalizar.MoneyIsFixedPoint(AmountOf(s.food), Zero);
    Normalizar.MoneyIsFixedPoint(AmountOf(s.products), Zero);
    Normalizar.MoneyIsFixedPoint(AmountOf(s.savings), Zero);
    Normalizar.MoneyIsFixedPoint(AmountOf(s.leftover), Zero);
  }

  /** `save` leaves a saved configuration as it is. */
  lemma SaveKeepsSaved(c: Config)
    requires Saved(c)
    ensures Save(c) == c
  {
    SnapshotOfSaved(c);
    SnapshotIsSavedAmounts(c);
  }

  /** The snapshot of a saved configuration holds exactly its stored amounts. */
  lemma SnapshotOfSaved(c: Config)
    requires Saved(c)
    ensures var d := GetDefaultsRegistro(c);
            d.budget == c.budget && d.food == c.food && d.products == c.products
            && d.savings == c.savings && d.leftover == c.leftover
  {
    Normalizar.MoneyIsFixedPoint(AmountOf(c.budget), Zero);
    Normalizar.MoneyIsFixedPoint(AmountOf(c.food), Zero);
    Normalizar.MoneyIsFixedPoint(AmountOf(c.products), Zero);
    Normalizar.MoneyIsFixedPoint(AmountOf(c.savings), Zero);
    Normalizar.MoneyIsFixedPoint(AmountOf(c.leftover), Zero);
  }

  /** Snapshot and save agree: the snapshot is what saving would store. */
  lemma SnapshotIsSavedAmounts(c: Config)
    ensures var d := GetDefaultsRegistro(c);
            var s := Save(c);
            d.budget == s.budget && d.food == s.food && d.products == s.products
            && d.savings == s.savings && d.leftover == s.leftover
  {
  }

  /** An unfixed default is still copied: 12 with the flag off gives food 12, not fixed. */
  lemma UnfixedValueIsCopied(c: Config)
    requires c.food == Money(12.0) && !c.foodFixed
    ensures GetDefaultsRegistro(c).food == Money(12.0) && !GetDefaultsRegistro(c).foodFixed
  {
    Normalizar.MoneyIsFixedPoint(12.0, Zero);
  }

  /** A fresh configuration is already saved, and saving it changes nothing. */
  lemma NewConfigIsSaved(u: Registro.User)
    ensures Saved(NewConfig(u)) && Save(NewConfig(u)) == NewConfig(u)
  {
    Normalizar.MoneyIsFixedPoint(0.0, Zero);
  }

  /**
   * Records made from a snapshot are accepted or refused by `save`
   * regardless of their date, and on acceptance they start incomplete with
   * a zero leftover and the snapshot's amounts.
   */
  lemma CreatedRecord(c: Config, u: Registro.User, day: Dates.Date, other: Dates.Date)
    ensures Registro.Save(RecordFromDefaults(GetDefaultsRegistro(c), u, day)).Ok?
        <==> Registro.Save(RecordFromDefaults(GetDefaultsRegistro(c), u, other)).Ok?
    ensures var d := GetDefaultsRegistro(c);
            var res := Registro.Save(RecordFromDefaults(d, u, day));
            res.Ok? ==> res.value.leftover == Zero && !res.value.completed
                        && res.value.budget == d.budget && res.value.food == d.food
                        && res.value.products == d.products && res.value.savings == d.savings
  {
    var d := GetDefaultsRegistro(c);
    Normalizar.MoneyIsFixedPoint(AmountOf(d.budget), Zero);
    Normalizar.MoneyIsFixedPoint(AmountOf(d.food), Zero);
    Normalizar.MoneyIsFixedPoint(AmountOf(d.products), Zero);
    Normalizar.MoneyIsFixedPoint(AmountOf(d.savings), Zero);
  }
}
