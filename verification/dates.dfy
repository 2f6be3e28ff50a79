/**
 * Calendar dates.  A date is its proleptic Gregorian ordinal, as Python's
 * `date.toordinal()` numbers it (0001-01-01 is day 1), so `timedelta(days=1)`
 * is `+ 1` and date comparison is integer comparison.  The year/month/day
 * view, the ISO text forms the views parse, and the month arithmetic of the
 * calendar view live here too.
 */
module Dates {
  import opened Wrappers
  import opened Decimals

  type Date = int

  const MinYear: int := 1
  const MaxYear: int := 9999

  datatype Ymd = Ymd(year: int, month: int, day: int)

  predicate IsLeap(y: int) {
    y % 4 == 0 && (y % 100 != 0 || y % 400 == 0)
  }

  function DaysInMonth(y: int, m: int): (r: int)
    requires 1 <= m <= 12
    ensures 28 <= r <= 31
  {
    if m == 2 then (if IsLeap(y) then 29 else 28)
    else if m == 4 || m == 6 || m == 9 || m == 11 then 30
    else 31
  }

  function DaysInYear(y: int): int {
    if IsLeap(y) then 366 else 365
  }

  /** Days of year `y` before the first of month `m`. */
  function DaysBeforeMonth(y: int, m: int): (r: int)
    requires 1 <= m <= 12
    ensures 0 <= r
  {
    var table := [0, 31, 59, 90, 120, 151, 181, 212, 243, 273, 304, 334];
    table[m - 1] + (if m > 2 && IsLeap(y) then 1 else 0)
  }

  /** Days before January 1st of year `y`, counted from 0001-01-01. */
  function DaysBeforeYear(y: int): (r: int)
    requires y >= MinYear
    ensures r >= 0
  {
    if y == MinYear then 0 else DaysBeforeYear(y - 1) + DaysInYear(y - 1)
  }

  predicate ValidYmd(t: Ymd) {
    MinYear <= t.year <= MaxYear && 1 <= t.month <= 12 && 1 <= t.day <= DaysInMonth(t.year, t.month)
  }

  /** `date(y, m, d).toordinal()`. */
  function Ordinal(t: Ymd): (n: Date)
    requires ValidYmd(t)
    ensures n >= 1
  {
    DaysBeforeYear(t.year) + DaysBeforeMonth(t.year, t.month) + t.day
  }

  /** The first and last representable dates. */
  const MinDate: Date := 1
  function MaxDate(): Date {
    Ordinal(Ymd(MaxYear, 12, 31))
  }

  predicate ValidDate(n: Date) {
    MinDate <= n <= MaxDate()
  }

  lemma MonthTable(y: int, m: int)
    requires 1 <= m <= 12
    ensures m < 12 ==> DaysBeforeMonth(y, m + 1) == DaysBeforeMonth(y, m) + DaysInMonth(y, m)
    ensures m == 12 ==> DaysBeforeMonth(y, m) + DaysInMonth(y, m) == DaysInYear(y)
  {
  }

  /** The year an ordinal day falls in, counting from year `y`, and its day of that year. */
  function YearAndDay(n: int, y: int): (r: (int, int))
    requires n >= 1 && y >= MinYear
    ensures r.0 >= y && 1 <= r.1 <= DaysInYear(r.0)
    ensures DaysBeforeYear(r.0) + r.1 == DaysBeforeYear(y) + n
    decreases n
  {
    if n <= DaysInYear(y) then (y, n) else YearAndDay(n - DaysInYear(y), y + 1)
  }

  /** The month and day of day `k` of year `y`, counting from month `m`. */
  function MonthAndDay(y: int, m: int, k: int): (r: (int, int))
    requires 1 <= m <= 12 && 1 <= k <= DaysInYear(y) - DaysBeforeMonth(y, m)
    ensures m <= r.0 <= 12 && 1 <= r.1 <= DaysInMonth(y, r.0)
    ensures DaysBeforeMonth(y, r.0) + r.1 == DaysBeforeMonth(y, m) + k
    decreases 12 - m
  {
    MonthTable(y, m);
    if k <= DaysInMonth(y, m) then (m, k) else MonthAndDay(y, m + 1, k - DaysInMonth(y, m))
  }

  /** `date.fromordinal(n)` as year, month and day. */
  function FromOrdinal(n: Date): (t: Ymd)
    requires n >= 1
    ensures t.year >= MinYear && 1 <= t.month <= 12 && 1 <= t.day <= DaysInMonth(t.year, t.month)
  {
    var (y, k) := YearAndDay(n, MinYear);
    MonthTable(y, 1);
    var (m, d) := MonthAndDay(y, 1, k);
    Ymd(y, m, d)
  }

  function YearOf(n: Date): int
    requires n >= 1
  {
    FromOrdinal(n).year
  }

  // ---------------------------------------------------------------
  // Ordinal and year/month/day are inverse
  // ---------------------------------------------------------------

  lemma DaysBeforeYearMonotone(a: int, b: int)
    requires MinYear <= a <= b
    ensures DaysBeforeYear(a) + (b - a) * 365 <= DaysBeforeYear(b)
    decreases b - a
  {
    if a < b {
      DaysBeforeYearMonotone(a, b - 1);
    }
  }

  /** Reading back the ordinal of a date gives the date. */
  lemma {:induction false} OrdinalRoundTrip(n: Date)
    requires n >= 1 && FromOrdinal(n).year <= MaxYear
    ensures ValidYmd(FromOrdinal(n)) && Ordinal(FromOrdinal(n)) == n
  {
  }

  lemma {:induction false} YearAndDayOfOrdinal(y0: int, y: int, k: int)
    requires MinYear <= y0 <= y && 1 <= k <= DaysInYear(y)
    requires DaysBeforeYear(y0) <= DaysBeforeYear(y)
    ensures YearAndDay(DaysBeforeYear(y) - DaysBeforeYear(y0) + k, y0) == (y, k)
    decreases y - y0
  {
    hide IsLeap;
    if y0 < y {
      DaysBeforeYearMonotone(y0 + 1, y);
      assert DaysBeforeYear(y0 + 1) == DaysBeforeYear(y0) + DaysInYear(y0);
      YearAndDayOfOrdinal(y0 + 1, y, k);
    }
  }

  lemma {:induction false} MonthAndDayOfDay(y: int, m0: int, m: int, d: int)
    requires 1 <= m0 <= m <= 12 && 1 <= d <= DaysInMonth(y, m)
    ensures 1 <= DaysBeforeMonth(y, m) - DaysBeforeMonth(y, m0) + d <= DaysInYear(y) - DaysBeforeMonth(y, m0)
    ensures MonthAndDay(y, m0, DaysBeforeMonth(y, m) - DaysBeforeMonth(y, m0) + d) == (m, d)
    decreases m - m0
  {
    MonthTable(y, m0);
    MonthTable(y, m);
    if m0 < m {
      MonthAndDayOfDay(y, m0 + 1, m, d);
    }
  }

  /** The year/month/day of a valid date's ordinal is that date. */
  lemma YmdRoundTrip(t: Ymd)
    requires ValidYmd(t)
    ensures FromOrdinal(Ordinal(t)) == t
  {
    MonthAndDayOfDay(t.year, 1, t.month, t.day);
    var k := DaysBeforeMonth(t.year, t.month) + t.day;
    YearAndDayOfOrdinal(MinYear, t.year, k);
  }

  /** Within one month the ordinals are consecutive. */
  lemma OrdinalWithinMonth(y: int, m: int, d: int)
    requires ValidYmd(Ymd(y, m, d))
    ensures Ordinal(Ymd(y, m, d)) == Ordinal(Ymd(y, m, 1)) + d - 1
  {
  }

  // ---------------------------------------------------------------
  // Text forms
  // ---------------------------------------------------------------

  /** `w` decimal digits of `x`, zero padded. */
  function Pad(x: nat, w: nat): (s: string)
    ensures |s| == w && AllDigits(s)
  {
    if w == 0 then [] else Pad(x / 10, w - 1) + [DigitChar(x % 10)]
  }

  /** `date.isoformat()`: YYYY-MM-DD. */
  function FormatIso(t: Ymd): string
    requires ValidYmd(t)
  {
    Pad(t.year, 4) + "-" + Pad(t.month, 2) + "-" + Pad(t.day, 2)
  }

  /**
   * `date.fromisoformat(s)` for the YYYY-MM-DD form: exactly ten characters,
   * zero-padded fields, and a day that exists in its month.
   */
  function ParseIso(s: string): (r: Option<Ymd>)
    ensures r.Some? ==> ValidYmd(r.value)
  {
    if |s| == 10 && s[4] == '-' && s[7] == '-'
       && AllDigits(s[..4]) && AllDigits(s[5..7]) && AllDigits(s[8..]) then
      var t := Ymd(DigitsValue(s[..4]), DigitsValue(s[5..7]), DigitsValue(s[8..]));
      if ValidYmd(t) then Some(t) else None
    else None
  }

  lemma {:induction false} PadValue(x: nat, w: nat)
    requires x < Pow10(w)
    ensures DigitsValue(Pad(x, w)) == x
  {
    if w > 0 {
      assert x / 10 < Pow10(w - 1);
      PadValue(x / 10, w - 1);
      var s := Pad(x, w);
      assert s[..|s| - 1] == Pad(x / 10, w - 1);
    }
  }

  /** An ISO-formatted date parses back to itself. */
  lemma IsoRoundTrip(t: Ymd)
    requires ValidYmd(t)
    ensures ParseIso(FormatIso(t)) == Some(t)
  {
    var s := FormatIso(t);
    assert s[..4] == Pad(t.year, 4);
    assert s[5..7] == Pad(t.month, 2);
    assert s[8..] == Pad(t.day, 2);
    assert Pow10(4) == 10000 && Pow10(2) == 100;
    PadValue(t.year, 4);
    PadValue(t.month, 2);
    PadValue(t.day, 2);
  }

  /** A run of one or two digits, as `%m` and `%d` of `strptime` accept. */
  function ShortNumber(s: string): Option<int> {
    if 1 <= |s| <= 2 && AllDigits(s) then Some(DigitsValue(s))
    else if |s| == 2 && s[0] == ' ' && IsDigit(s[1]) && s[1] != '0' then Some(DigitValue(s[1]))
    else None
  }

  /**
   * `datetime.strptime(s, "%Y-%m-%d").date()`: four year digits, then month
   * and day of one or two digits (the day may also be a space and a digit).
   */
  function ParseStrptime(s: string): (r: Option<Ymd>)
    ensures r.Some? ==> ValidYmd(r.value)
  {
    if |s| >= 8 && s[4] == '-' && AllDigits(s[..4]) then
      var rest := s[5..];
      var k := IndexOf(rest, '-');
      if k < |rest| then
        match (ShortNumber(rest[..k]), ShortNumber(rest[k + 1..]))
        case (Some(m), Some(d)) =>
          var t := Ymd(DigitsValue(s[..4]), m, d);
          if ValidYmd(t) && (rest[..k][0] != ' ') then Some(t) else None
        case _ => None
      else None
    else None
  }

  /** Every string `fromisoformat` accepts, `strptime` reads the same way. */
  lemma StrptimeAcceptsIso(s: string)
    requires ParseIso(s).Some?
    ensures ParseStrptime(s) == ParseIso(s)
  {
    var rest := s[5..];
    assert rest[2] == '-';
    assert rest[..2] == s[5..7];
    assert rest[3..] == s[8..];
    assert IndexOf(rest, '-') == 2;
  }

  // ---------------------------------------------------------------
  // Month arithmetic of the calendar view
  // ---------------------------------------------------------------

  /** The month before `(y, m)`. */
  function PrevMonth(y: int, m: int): (r: (int, int))
    requires 1 <= m <= 12
    ensures 1 <= r.1 <= 12
    ensures r.0 * 12 + r.1 == y * 12 + m - 1
  {
    if m == 1 then (y - 1, 12) else (y, m - 1)
  }

  /** The month after `(y, m)`. */
  function NextMonth(y: int, m: int): (r: (int, int))
    requires 1 <= m <= 12
    ensures 1 <= r.1 <= 12
    ensures r.0 * 12 + r.1 == y * 12 + m + 1
  {
    if m == 12 then (y + 1, 1) else (y, m + 1)
  }

  /** Stepping forward and back returns to the same month. */
  lemma PrevNextInverse(y: int, m: int)
    requires 1 <= m <= 12
    ensures PrevMonth(NextMonth(y, m).0, NextMonth(y, m).1) == (y, m)
    ensures NextMonth(PrevMonth(y, m).0, PrevMonth(y, m).1) == (y, m)
  {
  }

  /**
   * The one-step month fix of the calendar view: below 1 becomes December
   * of the year before, above 12 becomes January of the year after.
   */
  function WrapMonth(y: int, m: int): (r: (int, int))
    ensures 1 <= r.1 <= 12
    ensures 1 <= m <= 12 ==> r == (y, m)
    ensures m < 1 ==> r == (y - 1, 12)
    ensures m > 12 ==> r == (y + 1, 1)
  {
    if m < 1 then (y - 1, 12) else if m > 12 then (y + 1, 1) else (y, m)
  }

  /** The wrap is a single step, not a modulo: month 15 becomes January, not March. */
  lemma WrapIsSingleStep()
    ensures WrapMonth(2024, 15) == (2025, 1)
    ensures WrapMonth(2024, 0) == (2023, 12)
    ensures WrapMonth(2024, -7) == (2023, 12)
  {
  }

  /** `date(y, m, 1)` exists, so the view does not raise. */
  predicate YearRepresentable(y: int) {
    MinYear <= y <= MaxYear
  }

  /** The ordinals of the whole month `(y, m)`. */
  function MonthFirst(y: int, m: int): Date
    requires YearRepresentable(y) && 1 <= m <= 12
  {
    Ordinal(Ymd(y, m, 1))
  }

  function MonthLast(y: int, m: int): Date
    requires YearRepresentable(y) && 1 <= m <= 12
  {
    Ordinal(Ymd(y, m, DaysInMonth(y, m)))
  }

  /** The months tile the calendar: one month ends the day before the next begins. */
  lemma MonthsAreAdjacent(y: int, m: int)
    requires YearRepresentable(y) && 1 <= m <= 12 && (m < 12 || y < MaxYear)
    ensures MonthFirst(NextMonth(y, m).0, NextMonth(y, m).1) == MonthLast(y, m) + 1
  {
    MonthTable(y, m);
  }
}
