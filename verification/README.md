# Finanzas: a Dafny model of the daily-budget core

This project models the core of the `finanzas` app, a personal daily-budget tracker. Each user has:

- one financial configuration: a daily budget, default amounts for food, products, savings/debt and leftover, a "fixed" flag for each, and a start date;
- one daily record per date: a budget, the three expenses, a leftover, and a `completado` flag;
- savings goals.

The model covers the following parts of the app:

- **Safe-number layer.** `normalizar_decimal`, `to_decimal`, `dec_int`, `safe_decimal` and the `validar_*` validators, over Python values (`None`, booleans, strings, `Decimal`).
- **Leftover calculator.** `calcular_sobrante`, as defined and as it is called.
- **Entities.** The rules for saving, cleaning and fixing a daily record, the configuration's default snapshot, and a goal's progress and completion.
- **Forms.** The `clean_*` cleaners of the three forms.
- **Backfill and pending days.** Backfill of missing days, pending days, and completing a pending day.
- **Views.** Calendar configuration and month view, the day list, the record list, the dashboard actions and totals, and the `fijar_valor_default` endpoint.
- **Batch utilities.** Record repair, verification, diagnosis and ghost clean-up.

**Modelling choices:**

- Money is an exact `real`. A Python `Decimal` is `Fin(v)`, `NaN` or `Inf(negative)`.
- A date is its proleptic Gregorian ordinal, with a year/month/day view.
- The record table is a sequence in primary-key order, and the configurations are a map from user to configuration.
- Today's date is a parameter, and so is the operator's answer to the clean-up prompt.

One module follows each source file or group of files:

- `Wrappers`: `Option` and `Result`
- `Decimals`: values, Python `Decimal`
- `Normalizar`: `normalizar_decimal`
- `Convert`: `to_decimal`, `dec_int`
- `Validators`: `validators.py`
- `Calculadora`: `calcular_sobrante`
- `Dates`: `date` arithmetic, parsing
- `Registro`: `RegistroFinanciero`
- `Configuracion`: `ConfigFinanciera`
- `Objetivo`: `ObjetivoFinanciero`
- `Formularios`: `forms.py`
- `Almacen`: the tables and `get_or_create`
- `Orden`: `order_by("fecha")`
- `Servicios`: calendar services
- `Pendientes`: `dias_pendientes.py`
- `Completar`: `completar_pendientes.py`
- `Calendario`: `configurar_calendario.py`, `calendario_ver.py`
- `Listas`: `dias/views.py`, `lista_registros.py`
- `Dashboard`: `FinanzasDashboardView.py`
- `Api`: `fijar_valor.py`
- `Reparador`: `reparador.py`
- `Verificador`: `verificador.py`
- `Diagnostico`: `diagnostico.py`
- `Fantasmas`: `limpiar_registros_fantasma.py`

**The three-argument calculator.** `calcular_sobrante` takes three parameters, but every caller passes four. As written, each of those calls raises TypeError (see Findings).

- The as-written behaviour is modelled by `Calculadora.Call`, `Registro.SaveAsWritten`, `Reparador.ReviseAsWritten` and `Verificador.VerificarAsWritten`.
- Everywhere else, the model assumes the four-argument form `Calculadora.CalcularSobrante4`. It converts the four arguments like the three-argument one and subtracts products as a third expense, clamping at zero. This assumption is stated once, in `Calculadora`.

## Model

| member | source | states |
|---|---|---|
| Decimals.Trunc | tareas_proyecto/finanzas/views/dashboard_views/dec_int.py:30 | `int(x)` truncates toward zero: below or at `x` for a non-negative `x`, at or above it for a negative one, within one unit |
| Decimals.Compare | tareas_proyecto/finanzas/utils/diagnostico.py:53-58 | comparing a Decimal with a bound traps InvalidOperation exactly for NaN; an infinity compares as below or above every bound |
| Decimals.OrZero | tareas_proyecto/finanzas/models/RegistroFinanciero.py:161-164 | `v or 0` is zero for exactly the falsy values and `v` otherwise |
| Decimals.IntToStringRoundTrip | tareas_proyecto/finanzas/views/dashboard_views/dec_int.py:30 | `str(int)` reads back through `Decimal()` as the same integer |
| Decimals.ReplaceCommaIdempotent | tareas_proyecto/finanzas/models/normalizar_decimal.py:20 | replacing commas by points a second time changes nothing |
| Normalizar.NormalizarDecimal | tareas_proyecto/finanzas/models/normalizar_decimal.py:16-33 | a placeholder, an unparseable value, NaN, an infinity or a negative number gives the default; a finite non-negative reading is returned as read; nothing raises |
| Normalizar.Normalize | tareas_proyecto/finanzas/models/normalizar_decimal.py:4 | with the default `Decimal("0.00")` the result is always a finite, non-negative Decimal |
| Normalizar.PlaceholderExactly | tareas_proyecto/finanzas/models/normalizar_decimal.py:17-18 | the membership test catches exactly None, "", " ", "-" and "--" (no number equals a string) |
| Normalizar.PlaceholderIgnoresCommas | tareas_proyecto/finanzas/models/normalizar_decimal.py:17-20 | replacing commas never turns a string into a placeholder or out of one |
| Normalizar.CommaIsDecimalPoint | tareas_proyecto/finanzas/models/normalizar_decimal.py:20 | a string and the same string with its commas replaced by points normalize alike |
| Normalizar.MoneyIsFixedPoint | tareas_proyecto/finanzas/models/normalizar_decimal.py:20-30 | a finite non-negative Decimal is returned unchanged, with no rounding to two places |
| Normalizar.NormalizeIdempotent | tareas_proyecto/finanzas/models/normalizar_decimal.py:16-33 | with a finite non-negative default the result is finite and non-negative, and normalizing it again returns it |
| Normalizar.RejectsNonFiniteAndNegative | tareas_proyecto/finanzas/models/normalizar_decimal.py:23-28 | NaN, both infinities and every negative Decimal give the default |
| Normalizar.TwelveFifty | tareas_proyecto/finanzas/models/normalizar_decimal.py:20 | "12,50" and "12.50" both normalize to twelve and a half |
| Normalizar.OrZeroIsRedundant | tareas_proyecto/finanzas/models/RegistroFinanciero.py:161-164 | the `or 0` in front of the normalizer changes nothing: every falsy value already normalizes to zero |
| Convert.ToDecimal | tareas_proyecto/finanzas/views/dashboard_views/to_decimal.py:20-37 | a value in the tuple gives the default; otherwise a finite non-negative reading is returned and everything else gives the default, without raising |
| Convert.DecInt | tareas_proyecto/finanzas/views/dashboard_views/dec_int.py:20-33 | a value in the tuple, an unparseable or a non-finite one gives the default; any other value is exactly its decimal truncated toward zero, printed as an integer |
| Convert.ToDecimalPlaceholderExactly | tareas_proyecto/finanzas/views/dashboard_views/to_decimal.py:20-21 | membership by `==` catches None, "", False, "-", "--" and every value equal to zero |
| Convert.DecIntPlaceholderExactly | tareas_proyecto/finanzas/views/dashboard_views/dec_int.py:20-21 | membership by `==` catches None, "", False and every value equal to zero |
| Convert.ToDecimalZeroIsDefault | tareas_proyecto/finanzas/views/dashboard_views/to_decimal.py:20-21 | a Decimal zero is answered with the default, not with zero |
| Convert.ToDecimalAgreesWithNormalizer | tareas_proyecto/finanzas/views/dashboard_views/to_decimal.py:20-37 | `to_decimal` and the normalizer agree on every value but zero, False and " " |
| Convert.ToDecimalNotIdempotent | tareas_proyecto/finanzas/views/dashboard_views/to_decimal.py:20-21 | "0" converts to zero, and converting that zero again gives the default |
| Convert.ToDecimalCommaIsDecimalPoint | tareas_proyecto/finanzas/views/dashboard_views/to_decimal.py:24 | commas are read as decimal points |
| Convert.DecIntOfFinite | tareas_proyecto/finanzas/views/dashboard_views/dec_int.py:24-30 | any finite non-zero Decimal, negatives included, is displayed as `str(int(x))` |
| Convert.DecIntExamples | tareas_proyecto/finanzas/views/dashboard_views/dec_int.py:24-30 | "1200,50" displays as "1200" and "-3.7" as "-3" |
| Validators.SafeDecimal | tareas_proyecto/finanzas/validators.py:10-20 | a placeholder or an unparseable value gives the default; any other reading, negative or non-finite included, is returned as read |
| Validators.RejectNegative | tareas_proyecto/finanzas/validators.py:31-37 | `valor < 0` raises the code for a negative value or minus infinity, and NaN traps InvalidOperation |
| Validators.RejectNonPositive | tareas_proyecto/finanzas/validators.py:51-57 | `valor <= 0` raises the code for zero, a negative value or minus infinity, and NaN traps |
| Validators.ValidarDecimalNoNegativo | tareas_proyecto/finanzas/validators.py:26-37 | a finite value is rejected with "valor_negativo" iff it is below zero; NaN traps |
| Validators.ValidarDecimalPositivoOCero | tareas_proyecto/finanzas/validators.py:40-44 | the alias behaves exactly as the non-negative validator |
| Validators.ValidarDecimalMayorACero | tareas_proyecto/finanzas/validators.py:47-57 | a finite value is rejected with "valor_no_positivo" iff it is zero or below; NaN traps |
| Validators.ValidarPresupuestoDiario | tareas_proyecto/finanzas/validators.py:64-82 | a finite budget is rejected iff below zero ("presupuesto_negativo") or above 100000000 ("presupuesto_irreal"); NaN traps |
| Validators.ValidarGastoIndividual | tareas_proyecto/finanzas/validators.py:85-98 | a finite expense is rejected with "gasto_negativo" iff below zero; NaN traps |
| Validators.ValidarSobrante | tareas_proyecto/finanzas/validators.py:101-113 | a finite leftover is rejected with "sobrante_negativo" iff below zero; NaN traps |
| Validators.ValidarMontoObjetivo | tareas_proyecto/finanzas/validators.py:120-131 | a finite target is rejected with "objetivo_invalido" iff zero or below; NaN traps |
| Validators.ValidarMontoActual | tareas_proyecto/finanzas/validators.py:134-145 | a finite amount is rejected with "monto_actual_negativo" iff below zero; NaN traps |
| Validators.SafeDecimalVersusNormalizer | tareas_proyecto/finanzas/validators.py:15-18 | on a readable value `safe_decimal` and the normalizer agree when the reading is finite and non-negative; otherwise the normalizer gives zero while `safe_decimal` passes the reading through |
| Validators.UnparseableCountsAsZero | tareas_proyecto/finanzas/validators.py:15-20 | an unparseable value counts as zero: it passes every non-negative validator and the budget one, and fails both strictly positive ones |
| Validators.BudgetBoundsInclusive | tareas_proyecto/finanzas/validators.py:72-82 | 0 and exactly 100000000 pass the budget validator; one cent more is "presupuesto_irreal" |
| Validators.NaNTrapsEveryValidator | tareas_proyecto/finanzas/validators.py:10-144 | "NaN" is not caught by `safe_decimal`, so the comparison in every one of the eight validators traps InvalidOperation |
| Calculadora.Clamp | tareas_proyecto/finanzas/calculo_sobrante/calculadora.py:18-19 | the clamp is never negative, never below its argument, and is either the argument or zero |
| Calculadora.CalcularSobrante | tareas_proyecto/finanzas/calculo_sobrante/calculadora.py:6-19 | an argument `Decimal()` cannot convert gives 0.00; on finite arguments the result is budget minus food minus savings, or 0.00 when that is negative |
| Calculadora.Difference | tareas_proyecto/finanzas/calculo_sobrante/calculadora.py:18-19 | on finite amounts the result is budget minus food minus savings, or 0.00 when that is negative; a finite result is never negative |
| Calculadora.AtLeastZero | tareas_proyecto/finanzas/calculo_sobrante/calculadora.py:19 | a non-negative amount is kept and a negative one becomes 0.00; comparing NaN raises |
| Calculadora.Call | tareas_proyecto/finanzas/calculo_sobrante/calculadora.py:6 | a call with other than three arguments raises TypeError before the body runs; with three it is the definition |
| Calculadora.CalcularSobrante4 | tareas_proyecto/finanzas/models/RegistroFinanciero.py:183-188 | the assumed four-argument meaning: an unconvertible argument gives 0.00, and a finite result is never negative |
| Calculadora.CalcularSobrante4Finite | tareas_proyecto/finanzas/models/RegistroFinanciero.py:183-188 | under the assumed four-argument meaning, four finite amounts give the budget minus the three expenses, clamped at zero |
| Calculadora.Leftover | tareas_proyecto/finanzas/calculo_sobrante/calculadora.py:18-19 | on normalized amounts the leftover is the budget minus the three expenses when that is non-negative, and zero otherwise |
| Calculadora.FourArgumentCallRaises | tareas_proyecto/finanzas/models/RegistroFinanciero.py:183-188 | as written, every four-argument call raises TypeError |
| Calculadora.FourArgumentsAsThree | tareas_proyecto/finanzas/calculo_sobrante/calculadora.py:6-19 | the assumed four-argument form is the written one with savings and products merged into one expense |
| Calculadora.NoBudgetNoLeftover | tareas_proyecto/finanzas/calculo_sobrante/calculadora.py:18-19 | with non-negative expenses and a budget of zero or below, the leftover is zero |
| Calculadora.LeftoverAntitone | tareas_proyecto/finanzas/calculo_sobrante/calculadora.py:18-19 | spending more on any category never increases the leftover |
| Calculadora.CalcularSobranteAntitone | tareas_proyecto/finanzas/calculo_sobrante/calculadora.py:18-19 | the three-argument calculator never increases when food or savings grow |
| Calculadora.UnconvertibleArgumentGivesZero | tareas_proyecto/finanzas/calculo_sobrante/calculadora.py:11-16 | `Decimal(None)` and an unparseable string are caught: the result is 0.00 |
| Registro.FieldNamed | tareas_proyecto/finanzas/models/RegistroFinanciero.py:138-146 | exactly the four names of the mapping are known: `alimento`, `productos`, `ahorro_y_deuda` and `sobrante` |
| Registro.GastoTotal | tareas_proyecto/finanzas/models/RegistroFinanciero.py:81-87 | the expense total is never negative and is at least each normalized category |
| Registro.BalanceDiario | tareas_proyecto/finanzas/models/RegistroFinanciero.py:89-91 | the balance never exceeds the normalized budget |
| Registro.SobranteEfectivo | tareas_proyecto/finanzas/models/RegistroFinanciero.py:93-101 | the effective leftover is zero for a day that is not completed and never negative |
| Registro.Clean | tareas_proyecto/finanzas/models/RegistroFinanciero.py:106-129 | `clean()` refuses exactly when the normalized expenses exceed the normalized budget; the negative-budget check never fires |
| Registro.LeftoverFieldValue | tareas_proyecto/finanzas/models/RegistroFinanciero.py:53-58 | the decimal field accepts the leftover exactly when it is present and reads as a finite Decimal, and then holds that reading |
| Registro.Messages | tareas_proyecto/finanzas/models/RegistroFinanciero.py:167 | `full_clean()` collects no message exactly when no validator refused |
| Registro.FirstTrap | tareas_proyecto/finanzas/models/RegistroFinanciero.py:167 | an exception escapes `full_clean()` exactly when some validator traps |
| Registro.GastoTotalOfNormalized | tareas_proyecto/finanzas/models/RegistroFinanciero.py:82-91 | once the amounts are normalized, the derived total is their plain sum and the budget is read as stored |
| Registro.FieldVerdictsOfNormalized | tareas_proyecto/finanzas/models/RegistroFinanciero.py:25-58 | on normalized amounts no field validator traps, and all pass exactly when the budget is at most the daily maximum and a readable leftover is not negative |
| Registro.CleanFields | tareas_proyecto/finanzas/models/RegistroFinanciero.py:25-58 | the field checks never raise on normalized amounts, report nothing exactly when budget and leftover are in range, and convert the leftover to its reading |
| Registro.FullClean | tareas_proyecto/finanzas/models/RegistroFinanciero.py:106-123 | validation passes exactly when the budget is in range, the leftover is a finite non-negative Decimal and the expenses do not exceed the budget; a refusal always carries a message |
| Registro.Normalized | tareas_proyecto/finanzas/models/RegistroFinanciero.py:160-164 | after the opening normalization all four amounts are finite and non-negative, each the normalization of the amount given |
| Registro.SettleLeftover | tareas_proyecto/finanzas/models/RegistroFinanciero.py:169-188 | after the leftover rule the record satisfies every invariant of a stored record, only the leftover changed, and a fixed leftover of a completed day is kept |
| Registro.Save | tareas_proyecto/finanzas/models/RegistroFinanciero.py:159-190 | `save()` accepts exactly the acceptable records; an accepted record is stored normalized with its flags unchanged and satisfies the stored-record invariants; a refusal carries its messages |
| Registro.SaveAsWritten | tareas_proyecto/finanzas/models/RegistroFinanciero.py:183-188 | as written, only an incomplete day or a fixed leftover can be saved, since the four-argument calculator call raises |
| Registro.FijarValor | tareas_proyecto/finanzas/models/RegistroFinanciero.py:134-154 | an unknown field name changes nothing; for a known one the call succeeds exactly when `save` accepts the record with that flag flipped and the new amount written; a success flips only its own flag, keeps owner, date and completion, stores the normalized `valor` (or the old amount when `valor` is `None`) and normalizes every other amount |
| Registro.SaveFlipped | tareas_proyecto/finanzas/models/RegistroFinanciero.py:148-154 | saving the record with one flag flipped and one amount written succeeds exactly when that record is acceptable, and the saved record keeps owner, date, completion and the other flags, with every amount normalized |
| Registro.EffectiveLeftoverIsBalance | tareas_proyecto/finanzas/models/RegistroFinanciero.py:89-101 | on a stored, completed day whose leftover is computed, the effective leftover equals the daily balance |
| Registro.StoredBalanceNonNegative | tareas_proyecto/finanzas/models/RegistroFinanciero.py:117-123 | a stored record never shows a negative balance |
| Registro.SaveIdempotent | tareas_proyecto/finanzas/models/RegistroFinanciero.py:159-190 | saving a saved record again returns the same record |
| Registro.StoredSavesToItself | tareas_proyecto/finanzas/models/RegistroFinanciero.py:159-190 | a record in the form `save` leaves it in is saved again unchanged |
| Registro.SaveAsWrittenRaises | tareas_proyecto/finanzas/models/RegistroFinanciero.py:176-188 | as written, every acceptable completed day with a computed leftover fails with the arity error, and every other record saves as under the four-argument reading |
| Registro.ExpensesMayEqualBudget | tareas_proyecto/finanzas/models/RegistroFinanciero.py:119-123 | expenses equal to the budget are accepted; one cent more is refused with the over-budget message |
| Registro.ScenarioSave | tareas_proyecto/finanzas/models/RegistroFinanciero.py:176-188 | budget 100 with 30, 20 and 10 spent: as written the save raises; under the four-argument reading it stores 40 left over |
| Registro.SaveIgnoresDate | tareas_proyecto/finanzas/models/RegistroFinanciero.py:159-190 | whether `save` accepts a day does not depend on its date |
| Registro.FijarValorWritesValue | tareas_proyecto/finanzas/models/RegistroFinanciero.py:150-151 | a value other than `None` given for a category is stored in its normalized form |
| Registro.FijarValorKeepsValue | tareas_proyecto/finanzas/models/RegistroFinanciero.py:150-154 | with `valor` `None`, whether omitted or passed, the category's amount is kept, only normalized by the save |
| Configuracion.GetDefaultsRegistro | tareas_proyecto/finanzas/models/ConfigFinanciera.py:70-103 | every amount of the snapshot is a finite non-negative Decimal, and every flag is copied as it is |
| Configuracion.RecordFromDefaults | tareas_proyecto/finanzas/models/ConfigFinanciera.py:70-78 | a record built from the snapshot belongs to the given user and date and starts incomplete |
| Configuracion.Save | tareas_proyecto/finanzas/models/ConfigFinanciera.py:108-127 | after `save()` all five amounts are finite and non-negative, each the normalization of the value given; flags, owner and start date are kept |
| Configuracion.SaveIdempotent | tareas_proyecto/finanzas/models/ConfigFinanciera.py:108-127 | saving twice is saving once |
| Configuracion.SaveKeepsSaved | tareas_proyecto/finanzas/models/ConfigFinanciera.py:108-127 | a configuration whose amounts are already finite and non-negative is left as it is by `save()` |
| Configuracion.SnapshotOfSaved | tareas_proyecto/finanzas/models/ConfigFinanciera.py:79-103 | the snapshot of a saved configuration holds exactly its stored amounts |
| Configuracion.SnapshotIsSavedAmounts | tareas_proyecto/finanzas/models/ConfigFinanciera.py:79-125 | the snapshot amounts are the amounts `save()` would store |
| Configuracion.UnfixedValueIsCopied | tareas_proyecto/finanzas/models/ConfigFinanciera.py:84-87 | a default is copied into the snapshot even when its flag is off |
| Configuracion.NewConfigIsSaved | tareas_proyecto/finanzas/models/ConfigFinanciera.py:20-62 | the field defaults already form a saved configuration |
| Configuracion.CreatedRecord | tareas_proyecto/finanzas/models/ConfigFinanciera.py:70-103 | whether a record made from the snapshot saves does not depend on its date; once saved it is incomplete, with a zero leftover and the snapshot's amounts |
| Objetivo.RoundCents | tareas_proyecto/finanzas/models/ObjetivoFinanciero.py:56 | `round(x, 2)` gives a whole number of cents within half a cent of `x` |
| Objetivo.RoundHalfEven | tareas_proyecto/finanzas/models/ObjetivoFinanciero.py:56 | the rounded value is an integer within one half of its argument |
| Objetivo.SaveGoal | tareas_proyecto/finanzas/models/ObjetivoFinanciero.py:73-77 | after `save()` both amounts are finite, non-negative and equal to their normalized values; owner and flag are kept |
| Objetivo.ActualizarEstado | tareas_proyecto/finanzas/models/ObjetivoFinanciero.py:61-68 | the goal is complete afterwards exactly when it was already complete or the saved amount reaches the target; the flag is never lowered |
| Objetivo.RoundCentsOfCents | tareas_proyecto/finanzas/models/ObjetivoFinanciero.py:56 | rounding leaves an amount already in cents unchanged |
| Objetivo.RoundCentsMonotone | tareas_proyecto/finanzas/models/ObjetivoFinanciero.py:56 | rounding to cents preserves order |
| Objetivo.Progreso | tareas_proyecto/finanzas/models/ObjetivoFinanciero.py:48-56 | a zero target reports 0; otherwise the percentage saved, rounded to a whole number of cents within half a cent; its partners ProgresoNonNegative and ProgresoComplete bound it below and fix it at 100 for a reached target |
| Objetivo.ProgresoNonNegative | tareas_proyecto/finanzas/models/ObjetivoFinanciero.py:48-56 | progress is never negative |
| Objetivo.ProgresoComplete | tareas_proyecto/finanzas/models/ObjetivoFinanciero.py:48-56 | a saved amount equal to a positive target reports exactly 100 |
| Objetivo.ZeroTargetCompletes | tareas_proyecto/finanzas/models/ObjetivoFinanciero.py:61-66 | a zero (or unreadable) target completes every goal |
| Objetivo.ActualizarEstadoIdempotent | tareas_proyecto/finanzas/models/ObjetivoFinanciero.py:61-77 | updating the state twice is updating it once |
| Objetivo.SaveGoalIdempotent | tareas_proyecto/finanzas/models/ObjetivoFinanciero.py:48-77 | saving twice is saving once, and progress reads the same before and after saving |
| Objetivo.ProgresoOneThird | tareas_proyecto/finanzas/models/ObjetivoFinanciero.py:53-56 | one saved of three reports 33.33 |
| Formularios.CleanDecimal | tareas_proyecto/finanzas/forms.py:17-18 | the shared cleaner never raises and never gives a negative amount; an empty, unparseable, non-finite or negative entry becomes zero, and any other result is the entry's own reading |
| Formularios.CleanField | tareas_proyecto/finanzas/forms.py:61-79 | a field cleaner runs exactly for the fields present and leaves each one finite, non-negative and normalized |
| Formularios.GetOrZero | tareas_proyecto/finanzas/forms.py:87-92 | a field missing from the cleaned data counts as zero; a present one counts as its normalized amount |
| Formularios.RecordFormClean | tareas_proyecto/finanzas/forms.py:84-99 | the record form is valid exactly when food, products and savings together do not exceed the budget, and otherwise fails with the over-budget message |
| Formularios.CleanMontoObjetivo | tareas_proyecto/finanzas/forms.py:122-128 | the target is accepted exactly when its normalized amount is positive, and an accepted target passes the model's target validator |
| Formularios.CleanMontoActual | tareas_proyecto/finanzas/forms.py:130-131 | the saved amount is finite and non-negative and passes the model's validator; a negative entry becomes zero |
| Formularios.CleanConfig | tareas_proyecto/finanzas/forms.py:175-190 | the configuration form leaves every amount finite and non-negative and keeps flags, owner and start date |
| Formularios.RecordFormAgreesWithModel | tareas_proyecto/finanzas/forms.py:84-99 | with every field present the form accepts exactly what the record's own `clean()` accepts |
| Formularios.MissingFieldCountsAsZero | tareas_proyecto/finanzas/forms.py:87-92 | a missing field weighs exactly as much as an explicit zero |
| Formularios.RecordFormEqualityAccepted | tareas_proyecto/finanzas/forms.py:94-97 | spending exactly the budget passes; one cent more does not |
| Formularios.TargetRejections | tareas_proyecto/finanzas/forms.py:122-127 | an empty, unparseable, non-finite, negative or zero target is refused with its message |
| Formularios.ConfigFormMatchesSave | tareas_proyecto/finanzas/forms.py:175-190 | the cleaned configuration is what the model's `save()` would store, and saving it changes nothing |
| Dates.DaysInMonth | tareas_proyecto/finanzas/views/calendario_views/calendario_ver.py:55 | `monthrange` gives a month length between 28 and 31 days |
| Dates.OrdinalRoundTrip | tareas_proyecto/finanzas/calendario/services.py:39 | every day number names a calendar date whose ordinal is that number, so stepping by `timedelta(days=1)` is adding one |
| Dates.YmdRoundTrip | tareas_proyecto/finanzas/views/calendario_views/calendario_ver.py:68 | the year, month and day of a valid date's ordinal are that date |
| Dates.OrdinalWithinMonth | tareas_proyecto/finanzas/views/calendario_views/calendario_ver.py:66-68 | the days 1 to n of a month are consecutive dates |
| Dates.ParseIso | tareas_proyecto/finanzas/views/calendario_views/configurar_calendario.py:60-61 | `fromisoformat` only ever yields a date that exists |
| Dates.IsoRoundTrip | tareas_proyecto/finanzas/views/calendario_views/configurar_calendario.py:60-61 | the ISO text of any date parses back to that date |
| Dates.ParseStrptime | tareas_proyecto/finanzas/views/registros_views/completar_pendientes.py:23-24 | `strptime` with `%Y-%m-%d` only ever yields a date that exists |
| Dates.StrptimeAcceptsIso | tareas_proyecto/finanzas/views/registros_views/completar_pendientes.py:23-24 | every string `fromisoformat` accepts is read by `strptime` as the same date |
| Dates.PrevMonth | tareas_proyecto/finanzas/views/calendario_views/calendario_ver.py:85-90 | the previous month is a valid month one month earlier |
| Dates.NextMonth | tareas_proyecto/finanzas/views/calendario_views/calendario_ver.py:92-97 | the next month is a valid month one month later |
| Dates.PrevNextInverse | tareas_proyecto/finanzas/views/calendario_views/calendario_ver.py:85-97 | stepping forward then back, or back then forward, returns to the same month |
| Dates.WrapMonth | tareas_proyecto/finanzas/views/calendario_views/calendario_ver.py:44-50 | a month in range is kept; below 1 becomes December of the year before, above 12 January of the year after |
| Dates.WrapIsSingleStep | tareas_proyecto/finanzas/views/calendario_views/calendario_ver.py:44-50 | the fix is one step, not a modulo: month 15 of 2024 becomes January 2025 and month -7 becomes December 2023 |
| Dates.MonthsAreAdjacent | tareas_proyecto/finanzas/views/calendario_views/calendario_ver.py:85-97 | the month the "next" link shows begins the day after the shown month ends |
| Almacen.CountOn | tareas_proyecto/finanzas/models/RegistroFinanciero.py:69-73 | a count of rows for one user and date never exceeds the table size |
| Almacen.GetOrCreateConfig | tareas_proyecto/finanzas/views/dashboard_views/FinanzasDashboardView.py:30-32 | an existing configuration is returned untouched; otherwise a fresh one is created and stored, and saved configurations stay saved |
| Almacen.Insert | tareas_proyecto/finanzas/models/RegistroFinanciero.py:69-73 | adding a row succeeds exactly when `save()` accepts it and the user has no row on that date, and then appends the saved row |
| Almacen.Update | tareas_proyecto/finanzas/models/RegistroFinanciero.py:69-73 | rewriting a row succeeds exactly when `save()` accepts it and no other row has its user and date, and then replaces only that row |
| Almacen.EnsureRow | tareas_proyecto/finanzas/views/dashboard_views/FinanzasDashboardView.py:114-121 | afterwards the user has a row on the date at the first matching position, and the earlier table is kept as a prefix |
| Almacen.GetOrCreate | tareas_proyecto/finanzas/calendario/services.py:30-34 | two or more matching rows raise; one is returned uncreated; none creates the saved template, or fails with `save()`'s error |
| Almacen.CountOnHas | tareas_proyecto/finanzas/calendario/services.py:30-34 | no row is counted exactly when none exists |
| Almacen.CountOnPermutation | tareas_proyecto/finanzas/models/RegistroFinanciero.py:69-73 | the number of rows on a date does not depend on the order of the table |
| Configuracion.NewRecord | tareas_proyecto/finanzas/calendario/services.py:22-24 | the row created for a missing day belongs to the user and that day and is not completed; the pending-day form creates its rows the same way |
| Configuracion.NewRecordTakesDefaults | tareas_proyecto/finanzas/calendario/services.py:22-24 | the new row's amounts are valid Decimals and its flags are the configuration's; for a saved configuration the amounts are its stored defaults |
| Servicios.MissingDates | tareas_proyecto/finanzas/calendario/services.py:27-39 | the days that will be created lie in the range, have no row, and come in ascending order without repetition |
| Servicios.MissingDatesComplete | tareas_proyecto/finanzas/calendario/services.py:27-39 | every day of the range without a row will be created |
| Servicios.Rows | tareas_proyecto/finanzas/calendario/services.py:30-37 | the rows added are the accepted templates of the missing days, in the same order |
| Servicios.VisitDay | tareas_proyecto/finanzas/calendario/services.py:29-39 | one iteration keeps the loop invariant and either advances one day or stops with the exception |
| Servicios.GenerarRegistrosDesdeFecha | tareas_proyecto/finanzas/calendario/services.py:10-41 | without a configuration the call raises; it succeeds exactly when no day of the range has two rows and the template is accepted; on success the old table is followed by one saved template per missing day, the count returned is their number, and every day of the range then has exactly one row |
| Servicios.AsegurarRegistrosHastaHoy | tareas_proyecto/finanzas/calendario/services.py:47-64 | without a configuration or a start date nothing changes and 0 is returned; otherwise it creates one row per missing day and keeps the old table as a prefix |
| Servicios.CoveredHasNothingMissing | tareas_proyecto/finanzas/calendario/services.py:29-39 | a range where each day has its one row has nothing to create and no duplicate |
| Servicios.StartAfterToday | tareas_proyecto/finanzas/calendario/services.py:29 | a start date after today creates nothing and changes nothing |
| Servicios.BackfillTwice | tareas_proyecto/finanzas/calendario/services.py:10-41 | a second run right after a successful one creates nothing and changes nothing |
| Pendientes.GenerarRangoFechas | tareas_proyecto/finanzas/views/registros_views/dias_pendientes.py:12-21 | the list holds every day from `desde` to `hasta` inclusive, one after the other, and nothing else; an empty range gives an empty list |
| Pendientes.FechasCompletadas | tareas_proyecto/finanzas/views/registros_views/dias_pendientes.py:62-69 | the set holds exactly the dates in range on which the user has a completed row |
| Pendientes.Without | tareas_proyecto/finanzas/views/registros_views/dias_pendientes.py:74-77 | the filter keeps exactly the dates not completed and keeps them in ascending order |
| Pendientes.ObtenerDiasPendientes | tareas_proyecto/finanzas/views/registros_views/dias_pendientes.py:27-83 | the configuration is fetched or created; without a start date the list is empty with the warning; otherwise it holds exactly the days from the start to today with no completed row, ascending, and the "up to date" message is given exactly when it is empty |
| Pendientes.Pending | tareas_proyecto/finanzas/views/registros_views/dias_pendientes.py:27-83 | a day is pending exactly when it lies between the start date and today and no completed row of the user has that date |
| Pendientes.PendingDependsOnCompletion | tareas_proyecto/finanzas/views/registros_views/dias_pendientes.py:32-37 | only which days are completed matters: two tables that agree on that give the same pending days |
| Pendientes.IrrelevantRow | tareas_proyecto/finanzas/views/registros_views/dias_pendientes.py:32-37 | a row outside the range, not completed, or of another user changes no pending day; an incomplete row leaves its day pending |
| Pendientes.CompletingRemovesDay | tareas_proyecto/finanzas/views/registros_views/dias_pendientes.py:62-77 | completing a day's row removes that day, and only that day, from the pending list |
| Completar.Filled | tareas_proyecto/finanzas/views/registros_views/completar_pendientes.py:79-104 | the POST marks the day completed, keeps owner, date and flags, and never changes a fixed category |
| Completar.Respond | tareas_proyecto/finanzas/views/registros_views/completar_pendientes.py:79-135 | a GET shows the form for the row; a POST succeeds exactly when the filled row can be saved in its place; when that `save` raises, the answer is the exception and the table keeps the row as it stood before the POST |
| Completar.AtDay | tareas_proyecto/finanzas/views/registros_views/completar_pendientes.py:33-135 | the configuration `get_or_create` made stays whatever happens next; a redirect for a missing start or a 404 leaves the record table as it was; the form and a raised exception keep every earlier row, and the table never shrinks |
| Completar.CompletarPendiente | tareas_proyecto/finanzas/views/registros_views/completar_pendientes.py:18-135 | a date `strptime` cannot read is not found and nothing changes; otherwise the view continues on that day, and what it wrote before any exception stays written |
| Completar.NoStartRedirects | tareas_proyecto/finanzas/views/registros_views/completar_pendientes.py:37-42 | without a start date the user is sent to the dashboard and no row is touched |
| Completar.OutOfRangeNotFound | tareas_proyecto/finanzas/views/registros_views/completar_pendientes.py:44-45 | a date before the start or after today is not found and nothing changes |
| Completar.CompletedDayUntouched | tareas_proyecto/finanzas/views/registros_views/completar_pendientes.py:55-61 | a day whose first row is completed is left alone, whatever was posted |
| Completar.GetCreatesMissingDay | tareas_proyecto/finanzas/views/registros_views/completar_pendientes.py:63-74 | opening the form of a day without a row creates it from the defaults, not completed, even though nothing is posted; when `create()` raises, the record table is unchanged but the new configuration stays |
| Completar.PostCompletesDay | tareas_proyecto/finanzas/views/registros_views/completar_pendientes.py:79-105 | a successful POST leaves the day's row completed, saved and on its date, and every other row as it was |
| Completar.FailedPostKeepsCreatedRow | tareas_proyecto/finanzas/views/registros_views/completar_pendientes.py:63-105 | a POST on a day without a row whose filled-in row `save` refuses (say, expenses over the budget) raises, yet the incomplete row `create()` made from the defaults and the new configuration both stay, because the view runs outside a transaction |
| Completar.FixedCategoryIgnoresInput | tareas_proyecto/finanzas/views/registros_views/completar_pendientes.py:81-85 | a fixed category ignores whatever is posted for it |
| Completar.UnfixedCategoryTakesInput | tareas_proyecto/finanzas/views/registros_views/completar_pendientes.py:81-85 | a category that is not fixed takes a readable finite non-negative posted amount and otherwise keeps its current value |
| Calendario.ConfigurarCalendario | tareas_proyecto/finanzas/views/calendario_views/configurar_calendario.py:11-105 | only a refused attempt leaves the configurations as they were; the start date is stored exactly when the user has a configuration without one, has no records, and posts an ISO date no later than today and from the year 2000 on |
| Calendario.StartIsSetOnce | tareas_proyecto/finanzas/views/calendario_views/configurar_calendario.py:29-35 | once the start date is configured, every later call is refused as already configured and changes nothing |
| Calendario.ConfiguredStart | tareas_proyecto/finanzas/views/calendario_views/configurar_calendario.py:71-87 | a stored start date lies between 1 January 2000 and today, and nothing else of a saved configuration changes |
| Calendario.FirstOfYearIsEarliest | tareas_proyecto/finanzas/views/calendario_views/configurar_calendario.py:78 | a date whose year is 2000 or later is not before 1 January 2000 |
| Calendario.ParseInt | tareas_proyecto/finanzas/views/calendario_views/calendario_ver.py:37-39 | `int()` of a string that starts with a digit is never negative |
| Calendario.ParseIntRoundTrip | tareas_proyecto/finanzas/views/calendario_views/calendario_ver.py:37-39 | `int()` reads the decimal text of any integer, negative ones included, back as that integer |
| Calendario.ParseIntPlusSign | tareas_proyecto/finanzas/views/calendario_views/calendario_ver.py:37-39 | `int()` accepts a leading `+` before the digits |
| Calendario.ParseIntRejects | tareas_proyecto/finanzas/views/calendario_views/calendario_ver.py:37-39 | `int()` raises `ValueError` on an empty string, a bare sign and a doubled sign |
| Calendario.Requested | tareas_proyecto/finanzas/views/calendario_views/calendario_ver.py:37-42 | a missing parameter means today's year and month, and an unreadable one sends both back to today's |
| Calendario.ShowPrevIsLaterMonth | tareas_proyecto/finanzas/views/calendario_views/calendario_ver.py:100-104 | the back arrow shows exactly when the month on screen is later than the start date's month |
| Calendario.RegistrosMes | tareas_proyecto/finanzas/views/calendario_views/calendario_ver.py:57-64 | the month dictionary maps only dates of that month, each to a row of the user on that date |
| Calendario.MonthLookup | tareas_proyecto/finanzas/views/calendario_views/calendario_ver.py:57-74 | a day of the month is in the dictionary exactly when the user has a row on it, and it maps to the last such row |
| Calendario.DiasDelMes | tareas_proyecto/finanzas/views/calendario_views/calendario_ver.py:66-80 | the grid holds the days of the month from the start to today, one after the other, each with its row from the dictionary and that row's completion |
| Calendario.MonthPage | tareas_proyecto/finanzas/views/calendario_views/calendario_ver.py:55-120 | once every day up to today has its one row, the page shows the days of the month in range each with that row, the neighbouring months, and the back arrow exactly when the month is later than the start's |
| Calendario.CalendarioVer | tareas_proyecto/finanzas/views/calendario_views/calendario_ver.py:11-126 | without a configuration or a start date the user is sent to configure it; otherwise every day from the start to today ends with exactly one row, the old table is kept as a prefix, and the month shown is the requested one after the one-step wrap |
| Listas.RegistrosRango | tareas_proyecto/finanzas/dias/views.py:16-22 | the dictionary maps only dates of the range, each to a row of the user on that date |
| Listas.RangoLookup | tareas_proyecto/finanzas/dias/views.py:16-28 | a day of the range is in the dictionary exactly when the user has a row on it, and it maps to the last such row |
| Listas.ListaDias | tareas_proyecto/finanzas/dias/views.py:6-48 | without a start date there are no days; otherwise one entry per day from the start to today, today first, each offering "editar" exactly when its row is completed |
| Listas.ListaDiasAsWritten | tareas_proyecto/finanzas/dias/views.py:10-11 | as written the page always raises, since `render` is never imported |
| Listas.CompletarIsPending | tareas_proyecto/finanzas/dias/views.py:27-38 | with at most one row per day, a day offers "completar" exactly when it is pending |
| Listas.Completados | tareas_proyecto/finanzas/views/registros_views/lista_registros.py:21-28 | the filter keeps exactly the user's completed rows from the start date on, each as often as in the table |
| Listas.ListaRegistros | tareas_proyecto/finanzas/views/registros_views/lista_registros.py:13-30 | the configuration is fetched or created; the list holds exactly the user's completed rows from the start date on, as often as in the table, latest date first |
| Dashboard.BlankDay | tareas_proyecto/finanzas/views/dashboard_views/FinanzasDashboardView.py:74-78 | the row created for today belongs to the user and today, is not completed and carries the configured budget |
| Dashboard.PostBudget | tareas_proyecto/finanzas/views/dashboard_views/FinanzasDashboardView.py:37-57 | the budget is saved exactly when the normalized posted value is positive; otherwise it is refused and nothing changes |
| Dashboard.BudgetSavedIsPositive | tareas_proyecto/finanzas/views/dashboard_views/FinanzasDashboardView.py:37-57 | a saved budget is positive and is either the posted amount or the current one; with a zero budget in place, a missing, unreadable or non-positive posted amount is refused |
| Dashboard.Category | tareas_proyecto/finanzas/views/dashboard_views/FinanzasDashboardView.py:93-100 | the flag `getattr` finds for a name other than "sobrante" is never the leftover's |
| Dashboard.Toggle | tareas_proyecto/finanzas/views/dashboard_views/FinanzasDashboardView.py:96-101 | only the named field's flag is flipped and only its value is written; budget, completion, owner and date stay |
| Dashboard.FijarRow | tareas_proyecto/finanzas/views/dashboard_views/FinanzasDashboardView.py:80-102 | a category amount that is not positive is refused and an unknown field raises, both leaving the table as it was; otherwise the flag is toggled exactly when saving the toggled row succeeds, and a failing save raises its error with the table unchanged |
| Dashboard.PostFijar | tareas_proyecto/finanzas/views/dashboard_views/FinanzasDashboardView.py:70-108 | a failing creation of today's row raises; on the existing or created row a non-positive category amount is refused; the flag is toggled exactly when the row exists or was created, the field is known, the amount is acceptable and the toggled row saves; a created row stays created whatever happens next |
| Dashboard.FijarFlipsOneFlag | tareas_proyecto/finanzas/views/dashboard_views/FinanzasDashboardView.py:96-102 | after a successful fijar today's row has the named flag flipped and every other flag kept, and every other row is untouched |
| Dashboard.FijarRejectsNonPositive | tareas_proyecto/finanzas/views/dashboard_views/FinanzasDashboardView.py:84-91 | a non-positive amount for a name other than "sobrante" is refused before any flag changes |
| Dashboard.FijarUnknownTipoRaises | tareas_proyecto/finanzas/views/dashboard_views/FinanzasDashboardView.py:93-100 | a positive amount for a name that is not a field raises when its flag is looked up |
| Dashboard.WholeDay | tareas_proyecto/finanzas/views/dashboard_views/FinanzasDashboardView.py:122-136 | guardar_todo marks the day completed and keeps owner, date, leftover and every flag, so even fixed categories take the normalized posted amounts; the budget is the posted one when it parses to a finite amount of at least zero, and the configured budget otherwise |
| Dashboard.CreatedIsFirst | tareas_proyecto/finanzas/views/dashboard_views/FinanzasDashboardView.py:114-120 | a row just created for a day that had none is the one later lookups of that day find |
| Dashboard.PostGuardarTodo | tareas_proyecto/finanzas/views/dashboard_views/FinanzasDashboardView.py:113-143 | two rows for today raise; with at most one, the day is saved exactly when today's row exists or is created and `save` accepts it filled from the form; a saved day is today's row, completed, stored, holding the normalized posted categories and the posted budget (the configured one when the posted is unusable), with every other row untouched; a failure keeps the old table as a prefix |
| Dashboard.GuardarTodoSaved | tareas_proyecto/finanzas/views/dashboard_views/FinanzasDashboardView.py:114-137 | with at most one row that day, once `get_or_create` has returned the table, the day is saved exactly when `save` accepts the filled-in row, which then sits at the first match, completed and stored with the posted amounts, while every older row stays |
| Dashboard.AloneOnDay | tareas_proyecto/finanzas/views/dashboard_views/FinanzasDashboardView.py:114-120 | with at most one row for the user on that day, after `get_or_create` no row other than the one it returned is on that day |
| Dashboard.WholeDaySaved | tareas_proyecto/finanzas/views/dashboard_views/FinanzasDashboardView.py:122-137 | a day saved by guardar_todo is completed and holds the normalized posted category amounts and the posted budget, falling back to the configured one, which is stored unchanged when the configuration was itself saved |
| Dashboard.Post | tareas_proyecto/finanzas/views/dashboard_views/FinanzasDashboardView.py:28-145 | the first of the keys presupuesto_diario, fijar and guardar_todo that is present picks the action and answers exactly as that branch does; configurations stay saved, and only the budget action changes them |
| Dashboard.TotalGastado | tareas_proyecto/finanzas/views/dashboard_views/FinanzasDashboardView.py:215-218 | the spending total is never negative |
| Dashboard.TotalSobrante | tareas_proyecto/finanzas/views/dashboard_views/FinanzasDashboardView.py:210-226 | the leftover total is never negative |
| Dashboard.TotalsAppend | tareas_proyecto/finanzas/views/dashboard_views/FinanzasDashboardView.py:206-226 | both totals add up over two parts of the table |
| Dashboard.TotalsOfOtherUser | tareas_proyecto/finanzas/views/dashboard_views/FinanzasDashboardView.py:206-208 | rows of other users do not count towards either total |
| Dashboard.SobranteIsBudgetLeft | tareas_proyecto/finanzas/views/dashboard_views/FinanzasDashboardView.py:210-226 | when every counted day was saved with a computed leftover, the leftover total is their budgets minus their spending |
| Dashboard.GetContext | tareas_proyecto/finanzas/views/dashboard_views/FinanzasDashboardView.py:150-228 | the page shows the pending days of the pending-days view and their number, today's food, products, savings and leftover as integers and its completion flag (zeros and the budget when there is no row), and the two totals |
| Orden.InsertByFecha | tareas_proyecto/finanzas/utils/reparador.py:71 | inserting a row makes the sequence one longer |
| Orden.InsertAdds | tareas_proyecto/finanzas/utils/reparador.py:71 | inserting adds exactly the new row |
| Orden.InsertBound | tareas_proyecto/finanzas/utils/reparador.py:71 | inserting a row no earlier than a bound among rows no earlier than it keeps every date at or above it |
| Orden.InsertSorted | tareas_proyecto/finanzas/utils/reparador.py:71 | inserting into an ascending sequence keeps it ascending and adds exactly the new row |
| Orden.SortByFecha | tareas_proyecto/finanzas/utils/reparador.py:71 | the ascending order is sorted by date and is a permutation of the rows it was given |
| Orden.Reverse | tareas_proyecto/finanzas/views/registros_views/lista_registros.py:30 | reversing puts the last row first and the first row last |
| Orden.ReverseKeepsRows | tareas_proyecto/finanzas/views/registros_views/lista_registros.py:30 | reversing keeps the rows and turns ascending into descending |
| Orden.ReverseSameRows | tareas_proyecto/finanzas/views/registros_views/lista_registros.py:30 | reversing keeps the same rows as a multiset |
| Orden.SortByFechaDescSpec | tareas_proyecto/finanzas/views/registros_views/lista_registros.py:30 | `order_by("-fecha")` holds exactly the rows it was given, latest date first |
| Orden.SortSorted | tareas_proyecto/finanzas/utils/reparador.py:71 | rows already in ascending order are left as they are |
| Orden.InsertAtEnd | tareas_proyecto/finanzas/utils/reparador.py:71 | a row dated no earlier than every other goes to the end |
| Reparador.Target | tareas_proyecto/finanzas/utils/reparador.py:43-52 | a row is only ever moved forward, to a start date later than its own date |
| Reparador.Changed | tareas_proyecto/finanzas/utils/reparador.py:57 | the number of rows changed never exceeds the number of rows looked at |
| Reparador.MoveRow | tareas_proyecto/finanzas/utils/reparador.py:42-64 | one step of pass 1 changes at most the row it visits |
| Reparador.InsertVisit | tareas_proyecto/finanzas/models/RegistroFinanciero.py:69-70 | putting a row into a visiting order keeps it ordered latest date first and adds exactly that row |
| Reparador.VisitOrder | tareas_proyecto/finanzas/models/RegistroFinanciero.py:69-70 | `RegistroFinanciero.objects.all()` yields every row exactly once, latest date first |
| Reparador.VisitedEarlier | tareas_proyecto/finanzas/models/RegistroFinanciero.py:69-70 | a row dated later, or of the same date and earlier in the table, comes earlier in the visiting order |
| Reparador.FixDatesStep | tareas_proyecto/finanzas/utils/reparador.py:42-64 | one step of pass 1 keeps the loop state (only moves onto start dates, refused rows stay refused, at most one move per user, the first acceptable row of a user moves) and counts a move exactly when it makes one |
| Reparador.MovedAlone | tareas_proyecto/finanzas/utils/reparador.py:52-57 | a row that moves onto its start date is the only row of its user moved so far |
| Reparador.MovedFirst | tareas_proyecto/finanzas/utils/reparador.py:42-57 | a row that moves beats every row of its user visited before it, none of which `save` accepted on that date |
| Reparador.EarlierRowInvalid | tareas_proyecto/finanzas/utils/reparador.py:52-57 | a row of the same user visited before an accepted move was refused because `save` rejects it, not because the day was taken |
| Reparador.FixDates | tareas_proyecto/finanzas/utils/reparador.py:38-64 | pass 1 visits rows latest date first; it keeps the table size, changes a row only by moving a row in scope onto its start date, leaves a row in scope before its start date only when the move was refused, moves at most one row per user, moves the latest-dated row whose move `save` accepts, and counts exactly the rows moved |
| Reparador.LatestRowMovesFirst | tareas_proyecto/finanzas/utils/reparador.py:42-57 | with rows dated 5 and 7 and a start date of 10, the row dated 7 takes the start date and the row dated 5 is refused |
| Reparador.LaterDateFirst | tareas_proyecto/finanzas/models/RegistroFinanciero.py:69-70 | of two rows, the later-dated one is visited first whatever their table order |
| Reparador.LaterRowMoves | tareas_proyecto/finanzas/utils/reparador.py:52-57 | a row alone on its user's start date moves there when `save` accepts it |
| Reparador.EarlierRowRefused | tareas_proyecto/finanzas/utils/reparador.py:52-57 | a row is refused a start date another row of its user already holds |
| Reparador.StillBlocked | tareas_proyecto/finanzas/utils/reparador.py:52-57 | moving a row onto a start date never unblocks a row whose move was refused earlier |
| Reparador.BestOfIsBest | tareas_proyecto/finanzas/utils/reparador.py:69-97 | the row the scan holds for a key is its heaviest, and the earliest among equally heavy ones |
| Reparador.KeptPlusDropped | tareas_proyecto/finanzas/utils/reparador.py:89-99 | kept and deleted rows together account for every row visited |
| Reparador.KeptCount | tareas_proyecto/finanzas/utils/reparador.py:69-99 | among the rows kept, a key in scope keeps only its best row |
| Reparador.OneRowPerDay | tareas_proyecto/finanzas/utils/reparador.py:66-99 | after pass 2 a user in scope has at most one row per date, and still a row on every date that had one |
| Reparador.KeptIsHeaviest | tareas_proyecto/finanzas/utils/reparador.py:82-97 | the row kept for a key weighs at least as much as every row of that key, and strictly more than every earlier one |
| Reparador.OutOfScopeKept | tareas_proyecto/finanzas/utils/reparador.py:21-23 | the rows of users out of scope are all kept, in their order |
| Reparador.DictStep | tareas_proyecto/finanzas/utils/reparador.py:72-93 | visiting a row keeps the dictionary holding the best row of every key seen |
| Reparador.GoneStep | tareas_proyecto/finanzas/utils/reparador.py:74-97 | visiting a row keeps the set of deleted rows exact |
| Reparador.GoneCount | tareas_proyecto/finanzas/utils/reparador.py:78-99 | each clash deletes exactly one row |
| Reparador.GoneIsDropped | tareas_proyecto/finanzas/utils/reparador.py:69-99 | once every row is visited, the deleted rows are exactly those that are not the best of their key |
| Reparador.Deduplicate | tareas_proyecto/finanzas/utils/reparador.py:66-99 | pass 2 deletes exactly the rows in scope that are not the best of their key, and `duplicados_eliminados` is their number |
| Reparador.FixAmount | tareas_proyecto/finanzas/utils/reparador.py:108-119 | the zeroing of a negative amount never fires, since normalized amounts are never negative |
| Reparador.FixAmountSpec | tareas_proyecto/finanzas/utils/reparador.py:108-119 | an amount is replaced by its normal form exactly when Python's `!=` tells them apart, a finite non-negative amount is left alone, and the result reads as the normalized amount |
| Reparador.FixAmounts | tareas_proyecto/finanzas/utils/reparador.py:108-119 | the amount loop keeps the row's key, counts at most four corrections and never a negative one |
| Reparador.FixAmountsSpec | tareas_proyecto/finanzas/utils/reparador.py:108-119 | each of the four amounts ends equal, in Python's `==`, to its normal form, and `decimales_corregidos` is zero exactly when none was replaced |
| Reparador.Recomputed | tareas_proyecto/finanzas/utils/reparador.py:122-130 | the recomputed leftover is the calculator's clamped balance of the four amounts, as a Decimal |
| Reparador.Revise | tareas_proyecto/finanzas/utils/reparador.py:104-137 | pass 3 on one row keeps its key and counts at most four corrections and no negative one |
| Reparador.ReviseAsWritten | tareas_proyecto/finanzas/utils/reparador.py:122-130 | as written, every row whose leftover is not fixed raises the arity error; a fixed leftover is revised as under the four-argument reading |
| Reparador.ReviseSpec | tareas_proyecto/finanzas/utils/reparador.py:104-137 | a fixed leftover is kept; any other ends equal to the expected leftover in Python's `==`, and `sobrantes_recalculados` counts exactly the leftovers replaced |
| Reparador.ExpectedIsComputed | tareas_proyecto/finanzas/utils/reparador.py:122-130 | the leftover pass 3 expects is the one `save` computes for a completed day |
| Reparador.ReviseThenSave | tareas_proyecto/finanzas/utils/reparador.py:139-141 | saving a revised row stores what saving the row itself would store |
| Reparador.StoredRowUntouched | tareas_proyecto/finanzas/utils/reparador.py:104-141 | a row `save` stored completed, or with a fixed leftover, is not modified |
| Reparador.IncompleteDayRevisedEveryRun | tareas_proyecto/finanzas/utils/reparador.py:121-141 | a stored day not yet completed is revised exactly when its amounts leave a positive balance, and the save puts its leftover back to zero, so every run counts it again |
| Reparador.VisitRow | tareas_proyecto/finanzas/utils/reparador.py:104-141 | a visit keeps the row's key; a row out of scope is left alone |
| Reparador.VisitRowSpec | tareas_proyecto/finanzas/utils/reparador.py:139-141 | a visit fails exactly when the row changed and `save` refuses it; otherwise the row ends as it was or as `save` stores its revision, and counts as updated exactly when it changed |
| Reparador.VisitSaveable | tareas_proyecto/finanzas/utils/reparador.py:139-141 | a row in scope that `save` accepts is visited without error and ends as it was or as `save` stores it |
| Reparador.UpdatedBy | tareas_proyecto/finanzas/utils/reparador.py:139-141 | no more rows are updated than visited |
| Reparador.VisitAll | tareas_proyecto/finanzas/utils/reparador.py:104-141 | pass 3 keeps the table size, stores each visited row's result in place until a save raises, and counts no more recomputed leftovers than updated rows and at most four corrections per updated row |
| Reparador.GoneSize | tareas_proyecto/finanzas/utils/reparador.py:99 | `duplicados_eliminados` is the number of rows pass 2 removes |
| Reparador.OthersUntouched | tareas_proyecto/finanzas/utils/reparador.py:21-23 | the three passes keep the rows of users out of scope, in order |
| Reparador.RepararRegistrosFinancieros | tareas_proyecto/finanzas/utils/reparador.py:17-149 | the table never grows; rows of users out of scope are kept in order; every user in scope ends with at most one row per date; and the counters agree with the table: no negative corrections, the duplicates are the rows removed, and recomputed leftovers and corrections are bounded by the updated rows; after a run without exception every row in scope was either saved by pass 3 or needed no revision |
| Reparador.VisitedRowsSettled | tareas_proyecto/finanzas/utils/reparador.py:103-139 | when no `save()` of pass 3 raises, every row in scope afterwards is a saved row or one whose revision changed nothing |
| Verificador.UserRows | tareas_proyecto/finanzas/utils/verificador.py:20-24 | a user's rows come in ascending date order and are exactly that user's rows, with every date counted as in the table |
| Verificador.Duplicates | tareas_proyecto/finanzas/utils/verificador.py:29-35 | the first loop reports only duplicates, and only about the user |
| Verificador.ValoresOf | tareas_proyecto/finanzas/utils/verificador.py:49-57 | the five normalized amounts are never negative, so the "invalid data" entry is never produced |
| Verificador.AmountChecks | tareas_proyecto/finanzas/utils/verificador.py:62-89 | on normalized amounts the negative-amount checks never fire; only expenses above the budget are reported |
| Verificador.FlagChecks | tareas_proyecto/finanzas/utils/verificador.py:113-124 | the flag check never fires on normalized amounts |
| Verificador.Esperado | tareas_proyecto/finanzas/utils/verificador.py:94-102 | the expected leftover is the calculator's clamped balance of the normalized amounts |
| Verificador.RowProblems | tareas_proyecto/finanzas/utils/verificador.py:37-124 | a row only ever reports, about its own user and date, expenses above the budget or a wrong leftover |
| Verificador.RowsProblems | tareas_proyecto/finanzas/utils/verificador.py:37-124 | the rows loop only ever reports over-budget and wrong-leftover entries about the user |
| Verificador.UserProblems | tareas_proyecto/finanzas/utils/verificador.py:19-124 | a user's entries are all about that user |
| Verificador.Verificar | tareas_proyecto/finanzas/utils/verificador.py:10-137 | every entry is about a listed user and is a duplicate, an over-budget day or a wrong leftover |
| Verificador.ConcatMembers | tareas_proyecto/finanzas/utils/verificador.py:19-124 | the loops report exactly what their items report |
| Verificador.TryConcatSpec | tareas_proyecto/finanzas/utils/verificador.py:37-124 | a loop whose items can raise raises exactly when one does, with that exception, and otherwise is the plain loop |
| Verificador.DuplicatesCount | tareas_proyecto/finanzas/utils/verificador.py:29-35 | within one user's rows a date held by n rows is reported n - 1 times |
| Verificador.ConcatOwnBlock | tareas_proyecto/finanzas/utils/verificador.py:19-24 | over distinct users, a user's entries in the list are its own item's entries |
| Verificador.DuplicatesReported | tareas_proyecto/finanzas/utils/verificador.py:29-35 | each date of a listed user that n rows share is reported as a duplicate exactly n - 1 times; a date with one row or none, never |
| Verificador.UserDuplicates | tareas_proyecto/finanzas/utils/verificador.py:29-35 | among one user's entries a date held by n rows is reported n - 1 times |
| Verificador.RowProblemsExactly | tareas_proyecto/finanzas/utils/verificador.py:62-124 | a row reports one entry for expenses above the normalized budget, then one for a leftover that is not fixed and differs from the leftover its normalized amounts call for, and nothing else |
| Verificador.VerificarMembers | tareas_proyecto/finanzas/utils/verificador.py:19-124 | an entry other than a duplicate is in the list exactly when some row of a listed user reports it |
| Verificador.UserMembers | tareas_proyecto/finanzas/utils/verificador.py:37-124 | an entry other than a duplicate is among a user's entries exactly when one of the user's rows reports it |
| Verificador.OverBudgetReported | tareas_proyecto/finanzas/utils/verificador.py:79-89 | "expenses above the budget" is reported, with both amounts, for exactly the rows of listed users whose normalized expenses exceed their normalized budget |
| Verificador.WrongLeftoverReported | tareas_proyecto/finanzas/utils/verificador.py:94-108 | a wrong leftover is reported, with both amounts, for exactly the rows of listed users whose leftover is not fixed and differs from the expected one; a fixed leftover is never reported |
| Verificador.StoredRowProblems | tareas_proyecto/finanzas/utils/verificador.py:79-108 | a row `save` stored is within its budget and its leftover matches, except on a day not completed with a computed leftover and amounts that leave something over |
| Verificador.ReportedIffRepaired | tareas_proyecto/finanzas/utils/verificador.py:94-108 | on a stored row whose leftover is not fixed, the audit reports it exactly when the repair's third pass would rewrite its leftover |
| Verificador.Position | tareas_proyecto/finanzas/utils/verificador.py:17-19 | each listed user has a place in the users table |
| Verificador.AscendingBound | tareas_proyecto/finanzas/utils/verificador.py:20-24 | the dates of ascending rows are bounded by the last row's date |
| Verificador.ConcatByDate | tareas_proyecto/finanzas/utils/verificador.py:37-124 | a loop over ascending rows whose items report on their own date reports in date order |
| Verificador.DuplicatesByDate | tareas_proyecto/finanzas/utils/verificador.py:29-35 | duplicates of ascending rows come in date order |
| Verificador.UserProblemsOrdered | tareas_proyecto/finanzas/utils/verificador.py:29-124 | a user's duplicates come first, by date, then the row problems, by date |
| Verificador.ConcatOrdered | tareas_proyecto/finanzas/utils/verificador.py:19-124 | a loop over distinct users lists the entries grouped by user in the users' order |
| Verificador.VerificarOrdered | tareas_proyecto/finanzas/utils/verificador.py:10-137 | the list is grouped by user in the order of the users table, and within a user the duplicates come first, by date, then the row problems, by date |
| Verificador.RowAsWritten | tareas_proyecto/finanzas/utils/verificador.py:94-101 | as written a row raises the arity error exactly when its leftover is not fixed, and otherwise reports as corrected |
| Verificador.UserAsWrittenSpec | tareas_proyecto/finanzas/utils/verificador.py:19-124 | as written one user's check raises exactly when one of the user's rows has a leftover that is not fixed |
| Verificador.VerificarAsWrittenSpec | tareas_proyecto/finanzas/utils/verificador.py:10-137 | as written the audit raises TypeError as soon as a listed user has a row whose leftover is not fixed; otherwise it returns what the corrected audit returns |
| Diagnostico.Scope | tareas_proyecto/finanzas/utils/diagnostico.py:12-16 | with a user, exactly that user's records are in scope; without one, every record |
| Diagnostico.FieldErrors | tareas_proyecto/finanzas/utils/diagnostico.py:36-51 | one field adds at most two problems, and two only for a finite negative value with more than two decimal places |
| Diagnostico.FieldsErrors | tareas_proyecto/finanzas/utils/diagnostico.py:36-51 | the fields loop adds at most two problems per field |
| Diagnostico.FieldsErrorsOfFive | tareas_proyecto/finanzas/utils/diagnostico.py:21-27 | the five fields' problems are the sum of each field's |
| Diagnostico.LeftoverErrors | tareas_proyecto/finanzas/utils/diagnostico.py:53-58 | the leftover check raises InvalidOperation exactly for a NaN leftover and otherwise adds at most one problem |
| Diagnostico.RecordErrors | tareas_proyecto/finanzas/utils/diagnostico.py:29-58 | a record raises exactly when its leftover is NaN, and otherwise has at most twelve problems |
| Diagnostico.ErrorsStep | tareas_proyecto/finanzas/utils/diagnostico.py:29-58 | one more record adds its problems to the running count |
| Diagnostico.ErrorsOkIff | tareas_proyecto/finanzas/utils/diagnostico.py:29-58 | summing the records' problems succeeds exactly when no record has a NaN leftover |
| Diagnostico.CountErrors | tareas_proyecto/finanzas/utils/diagnostico.py:29-58 | the loop raises InvalidOperation exactly when a record has a NaN leftover; otherwise it sums the records' problems, at most twelve per record |
| Diagnostico.DiagnosticarRegistros | tareas_proyecto/finanzas/utils/diagnostico.py:6-63 | the diagnosis raises exactly when a record in scope has a NaN leftover; otherwise it reports the number of records in scope and the sum of their problems, at most twelve per record |
| Diagnostico.YearBefore2000 | tareas_proyecto/finanzas/utils/diagnostico.py:32 | a year before 2000 is exactly a date before 1 January 2000 |
| Diagnostico.DateErrorsExactly | tareas_proyecto/finanzas/utils/diagnostico.py:31-33 | a record dated from 1 January 2000 to today has no date problem; any other date has one |
| Diagnostico.ErrorsAppend | tareas_proyecto/finanzas/utils/diagnostico.py:29-58 | the count is additive over two parts of the table, and raises when either part raises |
| Diagnostico.NegativeLeftoverCountedTwice | tareas_proyecto/finanzas/utils/diagnostico.py:47-58 | a negative finite leftover counts twice more than a zero one, three times when it also has more than two decimal places |
| Diagnostico.InfiniteLeftover | tareas_proyecto/finanzas/utils/diagnostico.py:42-58 | a positive infinite leftover counts once more than a zero one, a negative infinite one twice more |
| Diagnostico.MoneyErrors | tareas_proyecto/finanzas/utils/diagnostico.py:42-51 | a finite non-negative amount gets the same count as check 2 gives it, and at most one problem |
| Diagnostico.StoredRecordErrors | tareas_proyecto/finanzas/utils/diagnostico.py:29-58 | a record whose amounts are finite and non-negative, as `save` leaves them, has no problem but its date and the amounts with more than two decimal places |
| Fantasmas.Ghosts | tareas_proyecto/finanzas/management/commands/limpiar_registros_fantasma.py:13-21 | the query finds only ghosts, never more rows than the table holds |
| Fantasmas.Remaining | tareas_proyecto/finanzas/management/commands/limpiar_registros_fantasma.py:53-57 | the deletion leaves no ghost and removes exactly as many rows as the query found |
| Fantasmas.GhostsMembers | tareas_proyecto/finanzas/management/commands/limpiar_registros_fantasma.py:13-21 | the query finds every ghost of the table and nothing else |
| Fantasmas.RemainingMembers | tareas_proyecto/finanzas/management/commands/limpiar_registros_fantasma.py:53-57 | the deletion keeps every row that is not a ghost and nothing else |
| Fantasmas.ConfirmsExactly | tareas_proyecto/finanzas/management/commands/limpiar_registros_fantasma.py:43-47 | only "s" and "S" confirm the deletion |
| Fantasmas.Limpiar | tareas_proyecto/finanzas/management/commands/limpiar_registros_fantasma.py:10-59 | nothing is found exactly when the table has no ghost; the count reported is the number of ghosts; rows are deleted exactly when there are ghosts and the answer is "s" or "S", and then exactly the ghosts go; otherwise the table is unchanged |
| Fantasmas.GhostsPartition | tareas_proyecto/finanzas/management/commands/limpiar_registros_fantasma.py:13-57 | ghosts and remaining rows together make up the whole table |
| Fantasmas.RemainingAppend | tareas_proyecto/finanzas/management/commands/limpiar_registros_fantasma.py:53-57 | deletion keeps the table order |
| Fantasmas.RemainingWithoutGhosts | tareas_proyecto/finanzas/management/commands/limpiar_registros_fantasma.py:53-57 | a table without ghosts is left as it is |
| Fantasmas.RunTwice | tareas_proyecto/finanzas/management/commands/limpiar_registros_fantasma.py:10-59 | after a deletion a second run finds nothing; after a cancellation it finds the same ghosts |
| Fantasmas.StoredIsNoGhost | tareas_proyecto/finanzas/management/commands/limpiar_registros_fantasma.py:13-21 | a record written through `save` is never a ghost |
| Fantasmas.StoredTableClean | tareas_proyecto/finanzas/management/commands/limpiar_registros_fantasma.py:10-29 | a table whose every record went through `save` has no ghosts, whatever is answered |
| Api.CampoNamed | tareas_proyecto/finanzas/views/api/fijar_valor.py:25-44 | a field is accepted exactly when it is `alimento`, `productos` or `ahorro_y_deuda` |
| Api.SetPair | tareas_proyecto/finanzas/views/api/fijar_valor.py:46-75 | the mapped default and its flag take the new values and every other setting of the configuration is kept |
| Api.NewDefault | tareas_proyecto/finanzas/views/api/fijar_valor.py:55-70 | the default the endpoint would store is always a finite non-negative amount |
| Api.FijarValorDefault | tareas_proyecto/finanzas/views/api/fijar_valor.py:11-83 | an unknown field answers 400 and changes nothing; the negative-value answer is never given; a known field fetches or creates the user's configuration, stores the new default and the flag `fijo == "true"` in it, and reports both |
| Api.Stored | tareas_proyecto/finanzas/views/api/fijar_valor.py:75-83 | saving after the two assignments stores exactly the pair that was set and keeps every configuration saved |
| Api.SetPairTwice | tareas_proyecto/finanzas/views/api/fijar_valor.py:70-75 | setting the same pair twice is setting it once |
| Api.OnlyMappedPairChanges | tareas_proyecto/finanzas/views/api/fijar_valor.py:46-76 | only the mapped pair of the requesting user changes: the other categories, the budget, the leftover default, the start date and every other user's configuration stay as they were |
| Api.MissingValueKeepsDefault | tareas_proyecto/finanzas/views/api/fijar_valor.py:55-83 | a missing or empty `valor` keeps the stored default and only sets the flag |
| Api.PostedValueStored | tareas_proyecto/finanzas/views/api/fijar_valor.py:55-70 | a posted value that reads as a finite non-negative decimal is stored; an unreadable, non-finite or negative one leaves the current default |
| Api.NewDefaultIdempotent | tareas_proyecto/finanzas/views/api/fijar_valor.py:55-70 | posting the same `valor` against the default it produced leaves that default |
| Api.RepeatIsIdempotent | tareas_proyecto/finanzas/views/api/fijar_valor.py:11-83 | the flag is set, not toggled: repeating a call changes nothing more |

## Left out

- Input/output: messages, redirects, templates, JSON rendering, pagination and the management command's console output are not modelled. Each view answers with an outcome datatype plus the new tables.
- The clock: `date.today()` and `now().date()` become the parameter `hoy`.
- The operator's console answer: `input()` in the ghost clean-up becomes the parameter `answer`. End of input is not modelled, and lower-casing is ASCII only.
- Python floats and the static JavaScript are not modelled, because floating point is out of scope. For the same reason `editar_registro`, which converts input with `float()`, is not part of this model.
- The Python `Decimal` string parser is modelled for optional signs, digits with an optional point, and `inf`, `infinity` and `nan` in any case. Exponents, surrounding whitespace, underscores, signalling NaN and NaN payloads are not modelled. Only the ASCII digits `0`-`9` are modelled; Python also accepts every other Unicode decimal digit.
- Django's own field handling is not modelled: `DecimalField` `max_digits`/`decimal_places` validation and rounding on read-back. The one `transaction.atomic` block, in the backfill of `calendario/services.py`, is modelled as all or nothing: when a step raises, the backfill returns no table. No other request runs in a transaction, so the views return both tables as they stood when an exception was raised. Of `unique_together`, the `validate_unique` check that `full_clean` runs is modelled. The database's own UNIQUE constraint, which would also stop writes that skip validation, is not.
- Reparador.RepararRegistrosFinancieros: pass 3 is modelled on fresh rows read after pass 2. The code loops over `registros` again (reparador.py:104), and that queryset still holds the row objects pass 1 loaded. Pass 2 iterates a fresh `order_by("fecha")` query and is modelled as such. Three consequences of the cached objects are not modelled:
  - rows pass 2 deleted are visited again, and their `save()` raises on the kept row of the same date when they need changes;
  - a row pass 1 moved already holds amounts that `save()` normalized in memory, so pass 3 counts no decimal corrections for it, while the database keeps its raw amounts;
  - a row whose move was refused keeps the start date in memory, so a later `save()` either writes it or raises.
- Reparador.VisitAll: pass 3 visits rows in table order; the code visits them latest date first. The two differ only in which rows are already saved when a `save()` raises.
- Exact decimal arithmetic: the model computes on exact reals. Python's default `Decimal` context keeps 28 significant digits, so `/` rounds beyond that, and `round(..., 2)` and `quantize` raise `InvalidOperation` when their result needs more digits. The record and configuration amounts have `max_digits=10` and the goal amounts `max_digits=12`, so the results for values the forms store never need that many digits.
- Objetivo.Progreso: rounds the exact quotient to cents. The code rounds a quotient already cut to 28 digits (ObjetivoFinanciero.py:56), so the two can differ when that cut lands on a half cent. The `InvalidOperation` that `round` raises past 28 digits is not modelled.
- Diagnostico.FieldErrors: compares a value with its exact rounding to cents. The `InvalidOperation` that `quantize` raises on a value with more than 26 integer digits (diagnostico.py:50) is not modelled.
- Rows with equal dates: the database promises no order among them, and the model fixes one per read, as follows.
  - `.first()` on `filter(user, fecha)` in `completar_pendientes.py` and the dashboard: the first row in table order (`Almacen.FirstOn`).
  - The date-keyed dicts of `dias/views.py` and `calendario_ver.py`: the last row in table order wins (`Almacen.LastOn`).
  - `order_by("fecha")` in `Verificador.UserRows` and in pass 2 of the repair: ascending, equal dates in table order (`Orden.SortByFecha`).
  - `order_by("-fecha")` of the record list (`Listas.ListaRegistros`): the reverse of that ascending sort, so equal dates come out in reverse table order (`Orden.SortByFechaDesc`).
  - Pass 1 of the repair (`Meta.ordering = ["-fecha"]`): latest date first, equal dates in table order (`Reparador.VisitOrder`).
  - Pass 3 of the repair: table order (see `Reparador.VisitAll` above).
- `int()` of a query parameter accepts an optional sign and decimal digits. Surrounding whitespace and underscores are not modelled. Only the ASCII digits `0`-`9` are modelled; Python also accepts every other Unicode decimal digit.
- `date.fromisoformat` is modelled for the `YYYY-MM-DD` form only; the other ISO forms Python accepts are not modelled. `strptime` is modelled on ASCII digits; its `\d` patterns also match other Unicode decimal digits.
- The order of the users table, which `verificar_registros_financieros` iterates, is a parameter.
- `reparar_config_financiera_sql`, `reparar_finanzas.py` and `reparador_global.py` (raw SQL and command plumbing) are not part of this model.
- The single-file modules `models.py`, `views/dashboard_views.py`, `views/calendario_views.py` and `views/registros_views.py` are not part of this model. Same-named packages shadow them, and imports resolve to those packages.
- `detalle_dia.py`, `crear_registro.py`, `objetivos_views.py`, `urls.py`, the settings, the app configuration and the signal that creates a configuration per user are not part of this model. They are thin views, routing or framework configuration.
- Api.FijarValorDefault: requires that every stored configuration was written by `ConfigFinanciera.save`, so that its amounts are finite and non-negative. A configuration written by raw SQL is not modelled.
- Dashboard.Post: requires, like the endpoint, that every stored configuration was written by `ConfigFinanciera.save`.
- Registro.CleanFields: models `clean_fields()` as `save` calls it, after the four amounts are normalized. A direct call on raw amounts is not modelled.
- Registro.FullClean: models `full_clean()` as `save` calls it, after the four amounts are normalized.
- Api.FijarValorDefault: the response's `valor` is the stored `Decimal`, not its `str()` text.

## Findings

| source | as written | input that shows it | evidently intended | confidence | as-written member | corrected member |
|---|---|---|---|---|---|---|
| tareas_proyecto/finanzas/calculo_sobrante/calculadora.py:6 | `calcular_sobrante` takes three parameters, but `RegistroFinanciero.save` (models/RegistroFinanciero.py:183-188), the repair pass and the verifier each call it with four, which raises TypeError | saving a completed day with a non-fixed leftover, budget 100, food 30, savings 10, products 20 | the leftover is the budget minus all three expenses, clamped at zero: 40 here | not executed | Registro.SaveAsWritten, Registro.ScenarioSave, Calculadora.FourArgumentCallRaises, Reparador.ReviseAsWritten, Verificador.VerificarAsWrittenSpec | Registro.Save, Calculadora.CalcularSobrante4, Reparador.Revise, Verificador.Verificar |
| tareas_proyecto/finanzas/dias/views.py:11 | `lista_dias` calls `render`, which the module never imports, so every request raises NameError | any request, with or without a start date | the day list is rendered: one entry per date from the start to today, latest first | not executed | Listas.ListaDiasAsWritten | Listas.ListaDias |
