/**
 * The proleptic Gregorian calendar on day numbers (days since 1970-01-01),
 * as ECMAScript's `Date` computes it: `MakeDay`, `YearFromTime`,
 * `MonthFromTime`, `DateFromTime` and the day of the week.
 *
 * Local time is taken to be UTC: a `Date` built from year, month and day is
 * midnight of that day.
 */
module Calendar {
  import opened Js

  const MsPerDay: int := 86_400_000

  // ---------------------------------------------------------------------------
  // Years
  // ---------------------------------------------------------------------------

  predicate IsLeap(y: int) {
    y % 4 == 0 && (y % 100 != 0 || y % 400 == 0)
  }

  function DaysInYear(y: int): int {
    if IsLeap(y) then 366 else 365
  }

  /** Leap years among 1 .. y - 1 (shifted by a constant for y <= 0). */
  function Leaps(y: int): int {
    (y - 1) / 4 - (y - 1) / 100 + (y - 1) / 400
  }

  /** Day number of January 1st of year `y`. */
  function DaysBeforeYear(y: int): int {
    365 * (y - 1970) + Leaps(y) - Leaps(1970)
  }

  lemma FloorStep4(y: int)
    ensures y / 4 - (y - 1) / 4 == if y % 4 == 0 then 1 else 0
  {
  }

  lemma FloorStep100(y: int)
    ensures y / 100 - (y - 1) / 100 == if y % 100 == 0 then 1 else 0
  {
  }

  lemma FloorStep400(y: int)
    ensures y / 400 - (y - 1) / 400 == if y % 400 == 0 then 1 else 0
  {
  }

  lemma Mod400(y: int)
    requires y % 400 == 0
    ensures y % 100 == 0 && y % 4 == 0
  {
    var q := y / 400;
    assert y == 400 * q;
  }

  lemma Mod100(y: int)
    requires y % 100 == 0
    ensures y % 4 == 0
  {
    var q := y / 100;
    assert y == 100 * q;
  }

  lemma DaysBeforeYearStep(y: int)
    ensures DaysBeforeYear(y + 1) == DaysBeforeYear(y) + DaysInYear(y)
  {
    FloorStep4(y);
    FloorStep100(y);
    FloorStep400(y);
    if y % 400 == 0 {
      Mod400(y);
    } else if y % 100 == 0 {
      Mod100(y);
    }
  }

  lemma {:induction false} DaysBeforeYearMono(a: int, b: int)
    requires a < b
    ensures DaysBeforeYear(a + 1) <= DaysBeforeYear(b)
    decreases b - a
  {
    DaysBeforeYearStep(a);
    if a + 1 < b {
      DaysBeforeYearMono(a + 1, b);
      DaysBeforeYearStep(a + 1);
    }
  }

  function YearUp(n: int, y: int): (r: int)
    requires DaysBeforeYear(y) <= n
    ensures DaysBeforeYear(r) <= n < DaysBeforeYear(r + 1)
    decreases n - DaysBeforeYear(y)
  {
    DaysBeforeYearStep(y);
    if n < DaysBeforeYear(y + 1) then y else YearUp(n, y + 1)
  }

  function YearDown(n: int, y: int): (r: int)
    requires n < DaysBeforeYear(y + 1)
    ensures DaysBeforeYear(r) <= n < DaysBeforeYear(r + 1)
    decreases DaysBeforeYear(y + 1) - n
  {
    DaysBeforeYearStep(y);
    if DaysBeforeYear(y) <= n then y else YearDown(n, y - 1)
  }

  /** The year that day number `n` falls in (`YearFromTime`). */
  function YearOfDay(n: int): (y: int)
    ensures DaysBeforeYear(y) <= n < DaysBeforeYear(y + 1)
  {
    if n >= 0 then YearUp(n, 1970) else YearDown(n, 1969)
  }

  lemma YearUnique(n: int, y: int, z: int)
    requires DaysBeforeYear(y) <= n < DaysBeforeYear(y + 1)
    requires DaysBeforeYear(z) <= n < DaysBeforeYear(z + 1)
    ensures y == z
  {
    if y < z {
      DaysBeforeYearMono(y, z);
    } else if z < y {
      DaysBeforeYearMono(z, y);
    }
  }

  // ---------------------------------------------------------------------------
  // Months
  // ---------------------------------------------------------------------------

  function DaysInMonth(y: int, m: int): int
    requires 1 <= m <= 12
  {
    if m == 2 then (if IsLeap(y) then 29 else 28)
    else if m == 4 || m == 6 || m == 9 || m == 11 then 30
    else 31
  }

  /** Days of year `y` before the first of month `m` (month 13 stands for the year's end). */
  function DaysBeforeMonth(y: int, m: int): int
    requires 1 <= m <= 13
  {
    [0, 31, 59, 90, 120, 151, 181, 212, 243, 273, 304, 334, 365][m - 1]
    + (if m > 2 && IsLeap(y) then 1 else 0)
  }

  lemma DaysBeforeMonthStep(y: int, m: int)
    requires 1 <= m <= 12
    ensures DaysBeforeMonth(y, m + 1) == DaysBeforeMonth(y, m) + DaysInMonth(y, m)
  {
  }

  lemma {:induction false} DaysBeforeMonthMono(y: int, a: int, b: int)
    requires 1 <= a < b <= 13
    ensures DaysBeforeMonth(y, a + 1) <= DaysBeforeMonth(y, b)
    decreases b - a
  {
    if a + 1 < b {
      DaysBeforeMonthMono(y, a + 1, b);
      DaysBeforeMonthStep(y, a + 1);
    }
  }

  function MonthFrom(y: int, doy: int, m: int): (r: int)
    requires 1 <= m <= 12
    requires DaysBeforeMonth(y, m) <= doy < DaysInYear(y)
    ensures m <= r <= 12
    ensures DaysBeforeMonth(y, r) <= doy < DaysBeforeMonth(y, r + 1)
    decreases 12 - m
  {
    if doy < DaysBeforeMonth(y, m + 1) then m else MonthFrom(y, doy, m + 1)
  }

  // ---------------------------------------------------------------------------
  // Dates
  // ---------------------------------------------------------------------------

  /** A calendar date: year, month 1..12, day of month. */
  datatype Ymd = Ymd(year: int, month: int, day: int)

  predicate ValidDate(d: Ymd) {
    1 <= d.month <= 12 && 1 <= d.day <= DaysInMonth(d.year, d.month)
  }

  /** The day number of a valid calendar date. */
  function DayNumber(d: Ymd): int
    requires ValidDate(d)
  {
    DaysBeforeYear(d.year) + DaysBeforeMonth(d.year, d.month) + d.day - 1
  }

  /**
   * ECMAScript `MakeDay(year, monthIndex, date)`: the month index may fall
   * outside 0..11 and the date outside the month; both carry over.
   */
  function MakeDay(year: int, monthIndex: int, date: int): int {
    var ym := year + monthIndex / 12;
    var mn := monthIndex % 12;
    DaysBeforeYear(ym) + DaysBeforeMonth(ym, mn + 1) + date - 1
  }

  /** The calendar date of day number `n` (`YearFromTime`, `MonthFromTime + 1`, `DateFromTime`). */
  function Fields(n: int): (r: Ymd)
    ensures ValidDate(r) && DayNumber(r) == n
  {
    var y := YearOfDay(n);
    DaysBeforeYearStep(y);
    var doy := n - DaysBeforeYear(y);
    var m := MonthFrom(y, doy, 1);
    DaysBeforeMonthStep(y, m);
    Ymd(y, m, doy - DaysBeforeMonth(y, m) + 1)
  }

  lemma FieldsYear(n: int)
    ensures Fields(n).year == YearOfDay(n)
  {
  }

  /** A valid date's day number falls inside its own year. */
  lemma DayNumberInYear(d: Ymd)
    requires ValidDate(d)
    ensures DaysBeforeYear(d.year) <= DayNumber(d) < DaysBeforeYear(d.year + 1)
  {
    DaysBeforeMonthStep(d.year, d.month);
    if d.month < 12 {
      DaysBeforeMonthMono(d.year, d.month, 13);
    }
    DaysBeforeYearStep(d.year);
  }

  /** At most one month of a year holds a given day of that year. */
  lemma MonthUnique(y: int, doy: int, a: int, b: int)
    requires 1 <= a <= 12 && 1 <= b <= 12
    requires DaysBeforeMonth(y, a) <= doy < DaysBeforeMonth(y, a + 1)
    requires DaysBeforeMonth(y, b) <= doy < DaysBeforeMonth(y, b + 1)
    ensures a == b
  {
    if a < b {
      DaysBeforeMonthMono(y, a, b);
    } else if b < a {
      DaysBeforeMonthMono(y, b, a);
    }
  }

  /** `Fields` inverts `DayNumber`: reading a date back gives the same year, month and day. */
  lemma FieldsOfDayNumber(d: Ymd)
    requires ValidDate(d)
    ensures Fields(DayNumber(d)) == d
  {
    var n := DayNumber(d);
    var r := Fields(n);
    DayNumberInYear(d);
    DayNumberInYear(r);
    YearUnique(n, d.year, r.year);
    var doy := n - DaysBeforeYear(d.year);
    DaysBeforeMonthStep(d.year, d.month);
    DaysBeforeMonthStep(d.year, r.month);
    MonthUnique(d.year, doy, d.month, r.month);
  }

  lemma DayNumberInjective(a: Ymd, b: Ymd)
    requires ValidDate(a) && ValidDate(b) && DayNumber(a) == DayNumber(b)
    ensures a == b
  {
    FieldsOfDayNumber(a);
    FieldsOfDayNumber(b);
  }

  /** For an in-range month index and day, `MakeDay` is the day number of that date. */
  lemma MakeDayOfValid(d: Ymd)
    requires ValidDate(d)
    ensures MakeDay(d.year, d.month - 1, d.day) == DayNumber(d)
  {
    assert (d.month - 1) / 12 == 0 && (d.month - 1) % 12 == d.month - 1;
  }

  // ---------------------------------------------------------------------------
  // Time values
  // ---------------------------------------------------------------------------

  /** The day number of a time value (`Day(t)`). */
  function DayOf(t: Time): int {
    t / MsPerDay
  }

  /** `getFullYear()` of a time value. */
  function YearOfTime(t: Time): int {
    YearOfDay(DayOf(t))
  }

  /** Day of the week, Monday = 0 .. Sunday = 6 (1970-01-01 was a Thursday). */
  function Weekday(n: int): (r: int)
    ensures 0 <= r < 7
  {
    (n + 3) % 7
  }

  lemma WeekdayNextWeek(n: int)
    ensures Weekday(n + 7) == Weekday(n)
  {
  }
}
