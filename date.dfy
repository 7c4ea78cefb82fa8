/**
 * `parseLooseDate` from src/lib/utils/date.ts: best-effort reading of a
 * spreadsheet cell as a date, trying in order a `Date` object, a spreadsheet
 * serial number, an ISO `yyyy-M-d` string, a numeric `d/M/y` or `M/d/y`
 * string, a list of date-fns formats, and a serial number written as a
 * string. Every accepted date must pass a year window and an optional date
 * window.
 *
 * The current year and date-fns `parse` are parameters: `dateFnsParse(text,
 * format)` is `None` where date-fns gives an Invalid Date.
 */
module LooseDate {
  import opened Wrappers
  import opened Text
  import opened Js
  import opened Calendar

  datatype ParseOptions = ParseOptions(
    minYear: Option<int>,
    maxYear: Option<int>,
    minDate: Option<Time>,
    maxDate: Option<Time>)

  /** `opts` left out. */
  const NoOptions: ParseOptions := ParseOptions(None, None, None, None)

  const DefaultMinYear: int := 2018

  predicate IsReasonableYear(t: Time, opts: ParseOptions, currentYear: int) {
    var year := YearOfTime(t);
    opts.minYear.GetOr(DefaultMinYear) <= year <= opts.maxYear.GetOr(currentYear + 1)
  }

  predicate IsWithinDateRange(t: Time, opts: ParseOptions) {
    && (opts.minDate.Some? ==> t >= opts.minDate.value)
    && (opts.maxDate.Some? ==> t <= opts.maxDate.value)
  }

  /** The two window checks every branch applies before returning a date. */
  predicate Accept(t: Time, opts: ParseOptions, currentYear: int) {
    IsReasonableYear(t, opts, currentYear) && IsWithinDateRange(t, opts)
  }

  function Window(d: Option<Time>, opts: ParseOptions, currentYear: int): (r: Option<Time>)
    ensures r.Some? <==> d.Some? && Accept(d.value, opts, currentYear)
    ensures r.Some? ==> r == d
  {
    if d.Some? && Accept(d.value, opts, currentYear) then d else None
  }

  // ---------------------------------------------------------------------------
  // Date construction
  // ---------------------------------------------------------------------------

  /** `new Date(year, monthIndex, day)` at (UTC) midnight; years 0..99 mean 1900..1999. */
  function NewDate(year: int, monthIndex: int, day: int): Option<Time> {
    var y := if 0 <= year <= 99 then 1900 + year else year;
    var t := MakeDay(y, monthIndex, day) * MsPerDay;
    if ValidTime(t) then Some(t) else None
  }

  /** `d.getFullYear() === year && d.getMonth() === month - 1 && d.getDate() === day` */
  predicate RoundTrips(t: Time, f: Ymd) {
    Fields(DayOf(t)) == f
  }

  /** `new Date(Math.round((x - 25569) * 86400 * 1000))`: serial day 25569 is 1970-01-01. */
  function FromSerial(x: real): Option<Time> {
    var t := Round((x - 25569.0) * 86400.0 * 1000.0);
    if ValidTime(t) then Some(t) else None
  }

  // ---------------------------------------------------------------------------
  // The two regular expressions
  // ---------------------------------------------------------------------------

  predicate IsLineTerminator(c: char) {
    c == '\n' || c == '\r' || c == '\U{2028}' || c == '\U{2029}'
  }

  /** `(?:[T ].*)?$` */
  predicate TimeSuffix(t: string) {
    t == [] || ((t[0] == 'T' || t[0] == ' ') && forall i | 1 <= i < |t| :: !IsLineTerminator(t[i]))
  }

  /**
   * A group `(\d{lo,hi})` that must be followed by a non-digit or the end:
   * it matches exactly the leading run of digits when its length is in range.
   */
  function DigitGroup(s: string, lo: nat, hi: nat): (r: Option<(nat, string)>)
    ensures r.Some? ==> lo <= |s| - |r.value.1| <= hi && r.value.1 == s[|s| - |r.value.1|..]
    ensures r.Some? ==> r.value.0 < Pow10(hi)
  {
    var k := DigitRun(s);
    DigitsValueBound(s[..k]);
    if lo <= k <= hi then
      Pow10Mono(k, hi);
      Some((DigitsValue(s[..k]), s[k..]))
    else None
  }

  predicate StartsWithSep(s: string, seps: set<char>) {
    s != [] && s[0] in seps
  }

  /** `^(\d{4})-(\d{1,2})-(\d{1,2})(?:[T ].*)?$` as (year, month, day), not yet validated. */
  function IsoMatch(s: string): (r: Option<Ymd>)
    ensures r.Some? ==> 0 <= r.value.year < 10000
  {
    Pow10Small(4);
    match DigitGroup(s, 4, 4)
    case None => None
    case Some((y, r1)) =>
      if !StartsWithSep(r1, {'-'}) then None else
      match DigitGroup(r1[1..], 1, 2)
      case None => None
      case Some((m, r2)) =>
        if !StartsWithSep(r2, {'-'}) then None else
        match DigitGroup(r2[1..], 1, 2)
        case None => None
        case Some((d, r3)) => if TimeSuffix(r3) then Some(Ymd(y, m, d)) else None
  }

  /** `^(\d{1,2})[\/-](\d{1,2})[\/-](\d{2,4})(?:[ T].*)?$` as (a, b, year). */
  function NumericMatch(s: string): (r: Option<(nat, nat, nat)>)
    ensures r.Some? ==> r.value.2 < 10000
  {
    Pow10Small(4);
    match DigitGroup(s, 1, 2)
    case None => None
    case Some((a, r1)) =>
      if !StartsWithSep(r1, {'/', '-'}) then None else
      match DigitGroup(r1[1..], 1, 2)
      case None => None
      case Some((b, r2)) =>
        if !StartsWithSep(r2, {'/', '-'}) then None else
        match DigitGroup(r2[1..], 2, 4)
        case None => None
        case Some((y, r3)) => if TimeSuffix(r3) then Some((a, b, y)) else None
  }

  // ---------------------------------------------------------------------------
  // The branches
  // ---------------------------------------------------------------------------

  /** `new Date(y, m - 1, d)`, kept only when it reads back as the same year, month and day. */
  function FromFields(f: Ymd): Option<Time> {
    var d := NewDate(f.year, f.month - 1, f.day);
    if d.Some? && RoundTrips(d.value, f) then d else None
  }

  /** The ISO branch: a date when the pattern matches and the fields round-trip. */
  function IsoCandidate(s: string): Option<Time> {
    match IsoMatch(s)
    case None => None
    case Some(f) => FromFields(f)
  }

  /** Two-digit years are read as 20yy. */
  function NumericYear(y: nat): nat {
    if y < 100 then y + 2000 else y
  }

  /** Day first, unless the first field can only be a month (`a <= 12 < b`). */
  function NumericFields(a: nat, b: nat, y: nat): Ymd {
    if a <= 12 && b > 12 then Ymd(NumericYear(y), a, b) else Ymd(NumericYear(y), b, a)
  }

  /** The numeric branch: a date when the pattern matches and the fields round-trip. */
  function NumericCandidate(s: string): Option<Time> {
    match NumericMatch(s)
    case None => None
    case Some((a, b, y)) => FromFields(NumericFields(a, b, y))
  }

  const Formats: seq<string> :=
    ["dd-MM-yyyy", "dd/MM/yyyy", "d/M/yyyy", "yyyy-MM-dd", "dd-MM-yy", "dd/MM/yy", "d/M/yy"]

  /** `s.split(/[T ]/)[0]` */
  function DatePart(s: string): (r: string)
    ensures |r| <= |s| && r == s[..|r|]
  {
    if s == [] || s[0] == 'T' || s[0] == ' ' then [] else [s[0]] + DatePart(s[1..])
  }

  /** The first date-fns format whose parse is valid and inside the windows. */
  function Fallback(part: string, formats: seq<string>, opts: ParseOptions, currentYear: int,
                    dateFnsParse: (string, string) -> Option<Time>): (r: Option<Time>)
    ensures r.Some? ==> Accept(r.value, opts, currentYear)
    ensures r.Some? ==> exists i | 0 <= i < |formats| :: dateFnsParse(part, formats[i]) == r
  {
    if formats == [] then None
    else
      var p := dateFnsParse(part, formats[0]);
      if p.Some? && Accept(p.value, opts, currentYear) then p
      else Fallback(part, formats[1..], opts, currentYear, dateFnsParse)
  }

  /** The serial-number-as-string branch. */
  function SerialString(s: string, opts: ParseOptions, currentYear: int): Option<Time> {
    match ParseNumber(s)
    case Finite(x) => if 10000.0 < x < 100000.0 then Window(FromSerial(x), opts, currentYear) else None
    case _ => None
  }

  /** The string branches, in order, on the trimmed text. */
  function ParseText(s: string, opts: ParseOptions, currentYear: int,
                     dateFnsParse: (string, string) -> Option<Time>): (r: Option<Time>)
    ensures r.Some? ==> Accept(r.value, opts, currentYear)
  {
    if s == [] then None
    else if IsoCandidate(s).Some? then Window(IsoCandidate(s), opts, currentYear)
    else if NumericCandidate(s).Some? then Window(NumericCandidate(s), opts, currentYear)
    else
      var fb := Fallback(DatePart(s), Formats, opts, currentYear, dateFnsParse);
      if fb.Some? then fb else SerialString(s, opts, currentYear)
  }

  /** `parseLooseDate(value, opts)` */
  function ParseLooseDate(value: Value, opts: ParseOptions, currentYear: int,
                          dateFnsParse: (string, string) -> Option<Time>): (r: Option<Time>)
    ensures !Truthy(value) ==> r == None
    ensures !(value.DateV? || value.Num? || value.Str?) ==> r == None
    ensures r.Some? ==> Accept(r.value, opts, currentYear)
    ensures value.DateV? ==> r == (if Accept(value.t, opts, currentYear) then Some(value.t) else None)
  {
    if !Truthy(value) then None
    else match value
      case DateV(t) => if Accept(t, opts, currentYear) then Some(t) else None
      case Num(n) => if n.Finite? then Window(FromSerial(n.value), opts, currentYear) else None
      case Str(s) => ParseText(Trim(s), opts, currentYear, dateFnsParse)
      case _ => None
  }

  // ---------------------------------------------------------------------------
  // Properties
  // ---------------------------------------------------------------------------

  lemma {:induction false} DigitsValueBound(s: string)
    requires AllDigits(s)
    ensures DigitsValue(s) < Pow10(|s|)
  {
    if s != [] {
      var p := s[..|s| - 1];
      DigitsValueBound(p);
      assert Pow10(|s|) == 10 * Pow10(|p|);
    }
  }

  lemma Pow10Mono(a: nat, b: nat)
    requires a <= b
    ensures Pow10(a) <= Pow10(b)
  {
    if a < b {
      Pow10Mono(a, b - 1);
    }
  }

  lemma Pow10Small(k: nat)
    requires k <= 4
    ensures Pow10(k) <= 10000
  {
    if k > 0 {
      Pow10Small(k - 1);
    }
  }

  lemma RoundInt(n: int)
    ensures Round(n as real) == n
  {
  }

  lemma MsPerDayExact(n: int)
    ensures DayOf(n * MsPerDay) == n
  {
  }

  /** A spreadsheet serial `25569 + k` is the date `k` days after 1970-01-01. */
  lemma SerialIsDayCount(k: int, opts: ParseOptions, currentYear: int,
                         dateFnsParse: (string, string) -> Option<Time>)
    requires k != -25569 && ValidTime(k * MsPerDay)
    ensures ParseLooseDate(Num(Finite(25569.0 + k as real)), opts, currentYear, dateFnsParse)
            == (if Accept(k * MsPerDay, opts, currentYear) then Some(k * MsPerDay) else None)
  {
    var x := 25569.0 + k as real;
    assert Truthy(Num(Finite(x)));
    assert (x - 25569.0) * 86400.0 * 1000.0 == (k * MsPerDay) as real;
    RoundInt(k * MsPerDay);
    assert FromSerial(x) == Some(k * MsPerDay);
  }

  lemma DaysBeforeYearRange(y: int)
    requires 0 <= y <= 10000
    ensures DaysBeforeYear(0) <= DaysBeforeYear(y) <= DaysBeforeYear(10000)
  {
    if 0 < y {
      DaysBeforeYearMono(0, y);
      DaysBeforeYearStep(0);
    }
    if y < 10000 {
      DaysBeforeYearMono(y, 10000);
      DaysBeforeYearStep(y);
    }
  }

  /** A valid date of a four-digit year is a valid `Date` at its day number. */
  lemma NewDateOfValid(f: Ymd)
    requires ValidDate(f) && 100 <= f.year < 10000
    ensures NewDate(f.year, f.month - 1, f.day) == Some(DayNumber(f) * MsPerDay)
  {
    MakeDayOfValid(f);
    DaysBeforeYearRange(f.year);
    DaysBeforeMonthStep(f.year, f.month);
    if f.month < 12 {
      DaysBeforeMonthMono(f.year, f.month, 13);
    }
  }

  /** A valid date of years 0..99, built by `new Date`, lands in 1900..1999. */
  lemma CenturyShiftYear(f: Ymd)
    requires ValidDate(f) && 0 <= f.year <= 99
    ensures YearOfDay(MakeDay(1900 + f.year, f.month - 1, f.day)) == 1900 + f.year
  {
    var y := 1900 + f.year;
    var n := MakeDay(y, f.month - 1, f.day);
    assert (f.month - 1) / 12 == 0 && (f.month - 1) % 12 == f.month - 1;
    assert n == DaysBeforeYear(y) + DaysBeforeMonth(y, f.month) + f.day - 1;
    DaysBeforeMonthStep(y, f.month);
    if f.month < 12 {
      DaysBeforeMonthMono(y, f.month, 13);
    }
    assert n - DaysBeforeYear(y) < DaysInYear(y);
    DaysBeforeYearStep(y);
    YearUnique(n, y, YearOfDay(n));
  }

  /** So a year 0..99 never round-trips. */
  lemma CenturyShiftFails(f: Ymd)
    requires 0 <= f.year <= 99
    ensures FromFields(f) == None
  {
    var d := NewDate(f.year, f.month - 1, f.day);
    if d.Some? && ValidDate(f) {
      var n := MakeDay(1900 + f.year, f.month - 1, f.day);
      assert d.value == n * MsPerDay;
      MsPerDayExact(n);
      CenturyShiftYear(f);
      FieldsYear(n);
      assert Fields(DayOf(d.value)).year != f.year;
    }
  }

  /** A real calendar date of years 100..9999 round-trips, at its own midnight. */
  lemma FromFieldsOfValid(f: Ymd)
    requires ValidDate(f) && 100 <= f.year < 10000
    ensures FromFields(f) == Some(DayNumber(f) * MsPerDay)
  {
    NewDateOfValid(f);
    MsPerDayExact(DayNumber(f));
    FieldsOfDayNumber(f);
  }

  /** What reads back is always a real calendar date. */
  lemma FromFieldsOfInvalid(f: Ymd)
    requires !ValidDate(f)
    ensures FromFields(f) == None
  {
  }

  /**
   * The ISO branch answers exactly for the real calendar dates of years
   * 100..9999, with that date's midnight.
   */
  lemma IsoCandidateIff(s: string, f: Ymd)
    requires IsoMatch(s) == Some(f)
    ensures IsoCandidate(s).Some? <==> ValidDate(f) && f.year >= 100
    ensures IsoCandidate(s).Some? ==> IsoCandidate(s) == Some(DayNumber(f) * MsPerDay)
  {
    assert IsoCandidate(s) == FromFields(f);
    if f.year < 100 {
      CenturyShiftFails(f);
    } else if ValidDate(f) {
      FromFieldsOfValid(f);
    } else {
      FromFieldsOfInvalid(f);
    }
  }

  /**
   * Once the ISO pattern yields a real calendar date, only the windows decide:
   * an out-of-window date is `None` without trying the later branches.
   */
  lemma IsoDecides(s: string, f: Ymd, opts: ParseOptions, currentYear: int,
                   dateFnsParse: (string, string) -> Option<Time>)
    requires IsoMatch(s) == Some(f) && ValidDate(f) && f.year >= 100
    ensures var t := DayNumber(f) * MsPerDay;
            ParseText(s, opts, currentYear, dateFnsParse)
            == (if Accept(t, opts, currentYear) then Some(t) else None)
  {
    IsoCandidateIff(s, f);
  }

  /** A numeric-pattern string never matches the ISO pattern (its first group has at most two digits). */
  lemma NumericIsNotIso(s: string)
    requires NumericMatch(s).Some?
    ensures IsoMatch(s) == None
  {
  }

  /**
   * The numeric branch: two-digit years get 2000 added, the first field is
   * the month only when it is at most 12 and the second exceeds 12, and a real
   * calendar date is then decided by the windows alone.
   */
  lemma NumericDecides(s: string, a: nat, b: nat, y: nat, opts: ParseOptions, currentYear: int,
                       dateFnsParse: (string, string) -> Option<Time>)
    requires NumericMatch(s) == Some((a, b, y))
    requires ValidDate(NumericFields(a, b, y))
    ensures var f := NumericFields(a, b, y);
            && f.year == (if y < 100 then y + 2000 else y)
            && (a <= 12 && b > 12 ==> f.month == a && f.day == b)
            && (!(a <= 12 && b > 12) ==> f.month == b && f.day == a)
            && var t := DayNumber(f) * MsPerDay;
               ParseText(s, opts, currentYear, dateFnsParse)
               == (if Accept(t, opts, currentYear) then Some(t) else None)
  {
    var f := NumericFields(a, b, y);
    NumericIsNotIso(s);
    assert NumericCandidate(s) == FromFields(f);
    FromFieldsOfValid(f);
  }

  /**
   * When neither pattern nor any date-fns format applies, a date comes only
   * from a number strictly between 10000 and 100000, read as a serial.
   */
  lemma SerialStringOnlyInRange(s: string, opts: ParseOptions, currentYear: int,
                                dateFnsParse: (string, string) -> Option<Time>)
    requires IsoCandidate(s) == None && NumericCandidate(s) == None
    requires Fallback(DatePart(s), Formats, opts, currentYear, dateFnsParse) == None
    requires ParseText(s, opts, currentYear, dateFnsParse).Some?
    ensures ParseNumber(s).Finite?
    ensures 10000.0 < ParseNumber(s).value < 100000.0
    ensures ParseText(s, opts, currentYear, dateFnsParse) == FromSerial(ParseNumber(s).value)
  {
  }
}
