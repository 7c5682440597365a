/** Local civil dates and the overflow normalisation of JavaScript's `Date`
    (`new Date(y, m, d)`, `setDate`, `setMonth`, `setFullYear`). */
module CivilDate {

  const MsPerDay: int := 86400000

  /** A local date-time: month is 0..11 as `getMonth()` returns it, day is 1-based,
      time is the milliseconds elapsed since local midnight. */
  datatype Date = Date(year: int, month: int, day: int, time: int)

  predicate IsLeapYear(y: int) {
    y % 4 == 0 && (y % 100 != 0 || y % 400 == 0)
  }

  function DaysInMonth(y: int, m: int): (n: int)
    requires 0 <= m < 12
    ensures 28 <= n <= 31
    ensures m == 1 ==> (n == 29 <==> IsLeapYear(y))
  {
    if m == 1 then (if IsLeapYear(y) then 29 else 28)
    else if m == 3 || m == 5 || m == 8 || m == 10 then 30
    else 31
  }

  predicate ValidDate(d: Date) {
    0 <= d.month < 12 && 1 <= d.day <= DaysInMonth(d.year, d.month) && 0 <= d.time < MsPerDay
  }

  /** The calendar month after (y, m), rolling December into January of y + 1. */
  function NextMonth(y: int, m: int): (r: (int, int))
    requires 0 <= m < 12
    ensures 0 <= r.1 < 12
  {
    if m == 11 then (y + 1, 0) else (y, m + 1)
  }

  /** The calendar month before (y, m), rolling January back to December of y - 1. */
  function PrevMonth(y: int, m: int): (r: (int, int))
    requires 0 <= m < 12
    ensures 0 <= r.1 < 12
    ensures NextMonth(r.0, r.1) == (y, m)
  {
    if m == 0 then (y - 1, 11) else (y, m - 1)
  }

  function YearLength(y: int): int {
    if IsLeapYear(y) then 366 else 365
  }

  /** Days from 1 January of year 0 to 1 January of year y (proleptic Gregorian,
      negative before year 0). */
  function YearStart(y: int): int
    decreases if y < 0 then -y else y
  {
    if y == 0 then 0
    else if y > 0 then YearStart(y - 1) + YearLength(y - 1)
    else YearStart(y + 1) - YearLength(y)
  }

  lemma YearStartStep(y: int)
    ensures YearStart(y + 1) == YearStart(y) + YearLength(y)
  {
  }

  /** Days from 1 January of year y to the first of month m. */
  function MonthStart(y: int, m: int): int
    requires 0 <= m < 12
  {
    (if m == 0 then 0 else if m == 1 then 31 else if m == 2 then 59 else if m == 3 then 90
     else if m == 4 then 120 else if m == 5 then 151 else if m == 6 then 181
     else if m == 7 then 212 else if m == 8 then 243 else if m == 9 then 273
     else if m == 10 then 304 else 334)
    + (if m >= 2 && IsLeapYear(y) then 1 else 0)
  }

  /** Consecutive months: month m + 1 starts DaysInMonth(y, m) days after month m,
      and the year ends DaysInMonth(y, 11) days after December starts. */
  lemma MonthStartStep(y: int, m: int)
    requires 0 <= m < 12
    ensures m < 11 ==> MonthStart(y, m + 1) == MonthStart(y, m) + DaysInMonth(y, m)
    ensures m == 11 ==> MonthStart(y, m) + DaysInMonth(y, m) == YearLength(y)
  {
  }

  /** The day after the last of month (y, m) is the first of the next month. */
  lemma NextMonthDay(y: int, m: int, d: int)
    requires 0 <= m < 12
    ensures DayInYear(NextMonth(y, m).0, NextMonth(y, m).1, d) == DayInYear(y, m, d + DaysInMonth(y, m))
  {
    MonthStartStep(y, m);
    if m == 11 { YearStartStep(y); }
  }

  lemma RawInRange(y: int, m: int, d: int)
    requires 0 <= m < 12
    ensures RawDayNumber(y, m, d) == DayInYear(y, m, d)
  {
    assert m / 12 == 0 && m % 12 == m;
  }

  /** The day number JavaScript's MakeDay gives to (y, m, d) for any integers:
      the month first rolls into the year, then the day counts from the first of that month. */
  function RawDayNumber(y: int, m: int, d: int): int {
    DayInYear(y + m / 12, m % 12, d)
  }

  /** Day number of day d (any integer) counted from the first of month m of year y. */
  function DayInYear(y: int, m: int, d: int): int
    requires 0 <= m < 12
  {
    YearStart(y) + MonthStart(y, m) + d - 1
  }

  function DayNumber(d: Date): int {
    RawDayNumber(d.year, d.month, d.day)
  }

  /** The point in time a date stands for (`getTime()`, up to a constant offset). */
  function Instant(d: Date): int {
    DayNumber(d) * MsPerDay + d.time
  }

  /** `a <= b` on JavaScript dates, as a Mongo `$lte` query or a comparison compares them. */
  predicate Le(a: Date, b: Date) {
    Instant(a) <= Instant(b)
  }

  predicate Lt(a: Date, b: Date) {
    Instant(a) < Instant(b)
  }

  /** Day overflow and underflow of a JavaScript date in month (y, m): a day past the
      end of the month rolls into the next month, a day below 1 into the previous one. */
  function NormalizeDay(y: int, m: int, d: int, t: int): (r: Date)
    requires 0 <= m < 12
    ensures 0 <= r.month < 12 && r.time == t
    decreases if d < 1 then 1 else 0, if d < 1 then -d else d
  {
    if d < 1 then
      var (py, pm) := PrevMonth(y, m);
      NormalizeDay(py, pm, d + DaysInMonth(py, pm), t)
    else if d > DaysInMonth(y, m) then
      var (ny, nm) := NextMonth(y, m);
      NormalizeDay(ny, nm, d - DaysInMonth(y, m), t)
    else
      Date(y, m, d, t)
  }

  /** The rolled day lies inside its month and is the same day as the one asked for. */
  lemma {:induction false} NormalizeDayFacts(y: int, m: int, d: int, t: int)
    requires 0 <= m < 12
    ensures var r := NormalizeDay(y, m, d, t);
      1 <= r.day <= DaysInMonth(r.year, r.month) && DayInYear(r.year, r.month, r.day) == DayInYear(y, m, d)
    decreases if d < 1 then 1 else 0, if d < 1 then -d else d
  {
    if d < 1 {
      var (py, pm) := PrevMonth(y, m);
      NextMonthDay(py, pm, d);
      NormalizeDayFacts(py, pm, d + DaysInMonth(py, pm), t);
    } else if d > DaysInMonth(y, m) {
      var (ny, nm) := NextMonth(y, m);
      NextMonthDay(y, m, d - DaysInMonth(y, m));
      NormalizeDayFacts(ny, nm, d - DaysInMonth(y, m), t);
    }
  }

  /** `new Date(y, m, d)` at time of day t: the month rolls into the year, then the day
      rolls across months. */
  function Normalize(y: int, m: int, d: int, t: int): (r: Date)
    ensures 0 <= r.month < 12 && r.time == t
  {
    NormalizeDay(y + m / 12, m % 12, d, t)
  }

  /** The normalised date is valid, names the day MakeDay computes for (y, m, d), and is
      (y, m, d) itself when that is already a valid date. */
  lemma NormalizeFacts(y: int, m: int, d: int, t: int)
    ensures 0 <= t < MsPerDay ==> ValidDate(Normalize(y, m, d, t))
    ensures DayNumber(Normalize(y, m, d, t)) == RawDayNumber(y, m, d)
    ensures ValidDate(Date(y, m, d, t)) ==> Normalize(y, m, d, t) == Date(y, m, d, t)
  {
    var r := Normalize(y, m, d, t);
    NormalizeDayFacts(y + m / 12, m % 12, d, t);
    RawInRange(r.year, r.month, r.day);
    NormalizeDayValid(y, m, d, t);
  }

  /** A valid date is a fixed point of the normalisation. */
  lemma NormalizeDayValid(y: int, m: int, d: int, t: int)
    ensures ValidDate(Date(y, m, d, t)) ==> NormalizeDay(y + m / 12, m % 12, d, t) == Date(y, m, d, t)
  {
    if ValidDate(Date(y, m, d, t)) {
      assert m / 12 == 0 && m % 12 == m;
    }
  }

  /** `date.setDate(date.getDate() + k)`. */
  function AddDays(d: Date, k: int): Date {
    Normalize(d.year, d.month, d.day + k, d.time)
  }

  /** Advancing by k days moves the day number by k. */
  lemma AddDaysLength(d: Date, k: int)
    ensures DayNumber(AddDays(d, k)) == DayNumber(d) + k
    ensures 0 <= d.time < MsPerDay ==> ValidDate(AddDays(d, k))
  {
    NormalizeFacts(d.year, d.month, d.day + k, d.time);
  }

  /** `date.setMonth(date.getMonth() + k)`. */
  function AddMonths(d: Date, k: int): Date {
    Normalize(d.year, d.month + k, d.day, d.time)
  }

  /** `date.setFullYear(date.getFullYear() + k)`. */
  function AddYears(d: Date, k: int): Date {
    Normalize(d.year + k, d.month, d.day, d.time)
  }

  /** Advancing by one month moves the date forward by the length of its month. */
  lemma AddOneMonthLength(d: Date)
    requires 0 <= d.month < 12
    ensures DayNumber(AddMonths(d, 1)) == DayNumber(d) + DaysInMonth(d.year, d.month)
    ensures 0 <= d.time < MsPerDay ==> ValidDate(AddMonths(d, 1))
  {
    NormalizeFacts(d.year, d.month + 1, d.day, d.time);
    RawInRange(d.year, d.month, d.day);
    NextMonthDay(d.year, d.month, d.day);
    var (ny, nm) := NextMonth(d.year, d.month);
    RawInRange(ny, nm, d.day);
    assert RawDayNumber(d.year, d.month + 1, d.day) == RawDayNumber(ny, nm, d.day);
  }

  /** Advancing by one year moves the date forward by 365 or 366 days. */
  lemma AddOneYearLength(d: Date)
    requires 0 <= d.month < 12
    ensures 365 <= DayNumber(AddYears(d, 1)) - DayNumber(d) <= 366
    ensures 0 <= d.time < MsPerDay ==> ValidDate(AddYears(d, 1))
  {
    NormalizeFacts(d.year + 1, d.month, d.day, d.time);
    RawInRange(d.year, d.month, d.day);
    RawInRange(d.year + 1, d.month, d.day);
    YearStartStep(d.year);
  }

  /** Where `setMonth(getMonth() + 1)` lands: the same day of the next month when that
      month has it, otherwise the overflow days into the month after. */
  lemma AddOneMonthExact(d: Date)
    requires ValidDate(d)
    ensures var (ny, nm) := NextMonth(d.year, d.month);
      if d.day <= DaysInMonth(ny, nm) then AddMonths(d, 1) == Date(ny, nm, d.day, d.time)
      else AddMonths(d, 1) == Date(NextMonth(ny, nm).0, NextMonth(ny, nm).1, d.day - DaysInMonth(ny, nm), d.time)
  {
    var (ny, nm) := NextMonth(d.year, d.month);
    assert (d.year + (d.month + 1) / 12, (d.month + 1) % 12) == (ny, nm);
    assert AddMonths(d, 1) == NormalizeDay(ny, nm, d.day, d.time);
    if d.day > DaysInMonth(ny, nm) {
      var (ay, am) := NextMonth(ny, nm);
      assert NormalizeDay(ny, nm, d.day, d.time) == NormalizeDay(ay, am, d.day - DaysInMonth(ny, nm), d.time);
    }
  }

  /** Where `setFullYear(getFullYear() + 1)` lands: 29 February becomes 1 March,
      every other date keeps its month and day. */
  lemma AddOneYearExact(d: Date)
    requires ValidDate(d)
    ensures if d.month == 1 && d.day == 29 then AddYears(d, 1) == Date(d.year + 1, 2, 1, d.time)
      else AddYears(d, 1) == Date(d.year + 1, d.month, d.day, d.time)
  {
  }

  /** `new Date(y, m + 1, 0).getDate()` is the number of days in month m. */
  lemma DayZeroIsLastDay(y: int, m: int, t: int)
    requires 0 <= m < 12
    ensures Normalize(y, m + 1, 0, t) == Date(y, m, DaysInMonth(y, m), t)
  {
    var (ny, nm) := NextMonth(y, m);
    assert (y + (m + 1) / 12, (m + 1) % 12) == (ny, nm);
    assert PrevMonth(ny, nm) == (y, m);
    assert NormalizeDay(ny, nm, 0, t) == NormalizeDay(y, m, DaysInMonth(y, m), t);
  }
}
