/** Local civil timestamps as a JavaScript `Date` decodes them, the
    proleptic Gregorian calendar, the normalisation the `Date(year, month,
    day)` constructor performs, and the calendar-month window of
    `getMonthRange` (src/utils/dateUtils.ts). Months are numbered 0-11 as
    `getMonth()` returns them. */
module Dates {

  /** A decoded local timestamp with millisecond precision. */
  datatype DateTime = DateTime(
    year: int, month: int, day: int,
    hour: int, minute: int, second: int, millis: int)

  /** The Gregorian leap rule. */
  predicate IsLeapYear(y: int) {
    (y % 4 == 0 && y % 100 != 0) || y % 400 == 0
  }

  function DaysInMonth(y: int, m: int): (n: int)
    requires 0 <= m < 12
    ensures 28 <= n <= 31
  {
    if m == 1 then (if IsLeapYear(y) then 29 else 28)
    else if m == 3 || m == 5 || m == 8 || m == 10 then 30
    else 31
  }

  /** The fields name an existing instant of the calendar. */
  predicate Valid(d: DateTime) {
    && 0 <= d.month < 12
    && 1 <= d.day <= DaysInMonth(d.year, d.month)
    && 0 <= d.hour < 24
    && 0 <= d.minute < 60
    && 0 <= d.second < 60
    && 0 <= d.millis < 1000
  }

  /** `a` is strictly earlier than `b`: civil times compare field by field,
      the most significant first. */
  predicate Before(a: DateTime, b: DateTime) {
    if a.year != b.year then a.year < b.year
    else if a.month != b.month then a.month < b.month
    else if a.day != b.day then a.day < b.day
    else if a.hour != b.hour then a.hour < b.hour
    else if a.minute != b.minute then a.minute < b.minute
    else if a.second != b.second then a.second < b.second
    else a.millis < b.millis
  }

  /** `a <= b` on the instants, as JavaScript compares two `Date`s. */
  predicate NotAfter(a: DateTime, b: DateTime) {
    !Before(b, a)
  }

  /** `NotAfter` is a total order on timestamps. */
  lemma NotAfterIsTotalOrder(a: DateTime, b: DateTime, c: DateTime)
    ensures NotAfter(a, a)
    ensures NotAfter(a, b) || NotAfter(b, a)
    ensures NotAfter(a, b) && NotAfter(b, a) ==> a == b
    ensures NotAfter(a, b) && NotAfter(b, c) ==> NotAfter(a, c)
  {
  }

  /** The calendar month after (y, m), carrying December into January. */
  function NextMonth(y: int, m: int): (r: (int, int))
    requires 0 <= m < 12
    ensures 0 <= r.1 < 12
    ensures 12 * r.0 + r.1 == 12 * y + m + 1
  {
    if m == 11 then (y + 1, 0) else (y, m + 1)
  }

  /** The calendar month before (y, m), carrying January into December. */
  function PrevMonth(y: int, m: int): (r: (int, int))
    requires 0 <= m < 12
    ensures 0 <= r.1 < 12
    ensures 12 * r.0 + r.1 == 12 * y + m - 1
  {
    if m == 0 then (y - 1, 11) else (y, m - 1)
  }

  /** Midnight of day `d` of month (y, m), where `d` may lie outside the
      month: 0 is the previous month's last day, one past the last day is
      the next month's first, and so on, as the `Date` constructor counts. */
  function NormalizeDay(y: int, m: int, d: int): (r: DateTime)
    requires 0 <= m < 12
    ensures Valid(r)
    ensures r.hour == 0 && r.minute == 0 && r.second == 0 && r.millis == 0
    ensures 1 <= d <= DaysInMonth(y, m) ==> r.year == y && r.month == m && r.day == d
    ensures d == 0 ==> (r.year, r.month) == PrevMonth(y, m)
                       && r.day == DaysInMonth(r.year, r.month)
    ensures d == DaysInMonth(y, m) + 1 ==> (r.year, r.month) == NextMonth(y, m) && r.day == 1
    decreases if d < 1 then 1 else 0, if d < 1 then 1 - d else d
  {
    if d < 1 then
      var (py, pm) := PrevMonth(y, m);
      NormalizeDay(py, pm, d + DaysInMonth(py, pm))
    else if d > DaysInMonth(y, m) then
      var (ny, nm) := NextMonth(y, m);
      NormalizeDay(ny, nm, d - DaysInMonth(y, m))
    else
      DateTime(y, m, d, 0, 0, 0, 0)
  }

  /** The year the `Date` constructor uses for a year argument: 0 to 99
      stand for 1900 to 1999 (MakeFullYear), any other year is taken as
      given. The result is never a two-digit year, so applying the rule
      again changes nothing. */
  function FullYear(year: int): (r: int)
    ensures 0 <= year <= 99 ==> r == 1900 + year
    ensures !(0 <= year <= 99) ==> r == year
    ensures !(0 <= r <= 99)
  {
    if 0 <= year <= 99 then 1900 + year else year
  }

  /** `new Date(year, month, day)` in local time: the year argument is
      widened by `FullYear`, the month is taken modulo 12 with its overflow
      (or underflow) carried into the year, and the day is normalised
      against that month. */
  function LocalDate(year: int, month: int, day: int): (r: DateTime)
    ensures Valid(r)
    ensures 1 <= day <= 28 ==> 12 * r.year + r.month == 12 * FullYear(year) + month && r.day == day
  {
    NormalizeDay(FullYear(year) + month / 12, month % 12, day)
  }

  /** The first and last instant of a calendar month. */
  datatype Range = Range(start: DateTime, end: DateTime)

  /** `getMonthRange`: midnight of day 1 of the reference month, and
      23:59:59.999 of its day 0 of the following month, i.e. of its own last
      day. The reference's year goes back through the constructor, so a
      reference in the years 0 to 99 gets the window of the same month in
      1900 to 1999, which lies wholly after the reference. */
  function MonthRange(date: DateTime): (r: Range)
    requires Valid(date)
    ensures var y := FullYear(date.year);
            && r.start == DateTime(y, date.month, 1, 0, 0, 0, 0)
            && r.end == DateTime(y, date.month, DaysInMonth(y, date.month), 23, 59, 59, 999)
    ensures Valid(r.start) && Valid(r.end) && Before(r.start, r.end)
    ensures FullYear(date.year) == date.year ==> NotAfter(r.start, date) && NotAfter(date, r.end)
    ensures FullYear(date.year) != date.year ==> Before(date, r.start)
  {
    var y := FullYear(date.year);
    MonthEnds(date.year, date.month);
    var start := LocalDate(date.year, date.month, 1).(hour := 0, minute := 0, second := 0, millis := 0);
    var end := LocalDate(date.year, date.month + 1, 0).(hour := 23, minute := 59, second := 59, millis := 999);
    WindowBounds(date, y);
    Range(start, end)
  }

  /** Day 1 of month `m` and day 0 of month `m + 1` are the first and the
      last day of month `m` of the constructor's year. */
  lemma MonthEnds(year: int, m: int)
    requires 0 <= m < 12
    ensures var first := LocalDate(year, m, 1);
            first.year == FullYear(year) && first.month == m && first.day == 1
    ensures var last := LocalDate(year, m + 1, 0);
            && last.year == FullYear(year) && last.month == m
            && last.day == DaysInMonth(FullYear(year), m)
  {
    if m == 11 {
      assert (m + 1) / 12 == 1 && (m + 1) % 12 == 0;
    } else {
      assert (m + 1) / 12 == 0 && (m + 1) % 12 == m + 1;
    }
  }

  /** The month (y, date.month), from day 1 at midnight to its last
      millisecond, is non-empty; it holds `date` when y is its year and
      lies after it when y is a later year. */
  lemma WindowBounds(date: DateTime, y: int)
    requires Valid(date)
    ensures var start := DateTime(y, date.month, 1, 0, 0, 0, 0);
            var end := DateTime(y, date.month, DaysInMonth(y, date.month), 23, 59, 59, 999);
            && Valid(start) && Valid(end) && Before(start, end)
            && (y == date.year ==> NotAfter(start, date) && NotAfter(date, end))
            && (y > date.year ==> Before(date, start))
  {
  }

  /** `date` lies in the window `[start, end]` of `ref`'s month. */
  predicate InMonth(date: DateTime, ref: DateTime)
    requires Valid(ref)
  {
    var r := MonthRange(ref);
    NotAfter(r.start, date) && NotAfter(date, r.end)
  }

  /** The window is exactly one calendar month: a valid timestamp lies in
      it iff it has the reference's month and the reference's year as the
      constructor reads it, so the month's first and last millisecond are
      inside and the instants just outside are not. */
  lemma InMonthIffSameMonth(date: DateTime, ref: DateTime)
    requires Valid(date) && Valid(ref)
    ensures InMonth(date, ref) <==> date.year == FullYear(ref.year) && date.month == ref.month
  {
  }

  /** A reference in the years 0 to 99 is not in its own window, which
      covers the same month 1900 years later. */
  lemma TwoDigitYearWindow(date: DateTime, ref: DateTime)
    requires Valid(date) && Valid(ref) && 0 <= ref.year <= 99
    ensures !InMonth(ref, ref)
    ensures InMonth(date, ref) <==> date.year == 1900 + ref.year && date.month == ref.month
  {
    InMonthIffSameMonth(ref, ref);
    InMonthIffSameMonth(date, ref);
  }

  /** The previous-month reference of `getRecurringExpenses`,
      `new Date(year, month - 1)`, falls on day 1 of the calendar month
      before the reference's (widened) month, December of the year before
      for a January reference. */
  lemma PreviousMonthReference(today: DateTime)
    requires Valid(today)
    ensures var p := LocalDate(today.year, today.month - 1, 1);
            (p.year, p.month) == PrevMonth(FullYear(today.year), today.month) && p.day == 1
  {
    var p := LocalDate(today.year, today.month - 1, 1);
    if today.month == 0 {
      assert (today.month - 1) / 12 == -1 && (today.month - 1) % 12 == 11;
    } else {
      assert (today.month - 1) / 12 == 0 && (today.month - 1) % 12 == today.month - 1;
    }
  }
}
