/**
 * Week labels (src/lib/utils/semana.ts): "Semana N" labels, the week number
 * of a management date counted in Monday-to-Sunday weeks from the week of
 * 2025-08-11, the choice between a computed and a typed label, and the
 * order in which labels are listed.
 *
 * Dates are time values read in UTC (see `Calendar`); a `Date` that is
 * missing or invalid is `None`. `localeCompare` is the code-point order
 * `Text.Compare`.
 */
module Semana {
  import opened Wrappers
  import opened Text
  import opened Js
  import opened Calendar

  // ---------------------------------------------------------------------------
  // Labels and their numbers
  // ---------------------------------------------------------------------------

  /** The first run of digits in `s` (`s.match(/(\d+)/)`). */
  function FirstDigitRun(s: string): (r: Option<string>)
    ensures r.Some? ==> r.value != [] && AllDigits(r.value)
  {
    if s == [] then None
    else if IsDigit(s[0]) then Some(s[..DigitRun(s)])
    else FirstDigitRun(s[1..])
  }

  /** `parseSemanaNumber(value)` */
  function ParseSemanaNumber(value: Option<string>): (r: Option<nat>)
    ensures r.Some? ==> r.value > 0
  {
    var s := Trim(value.GetOr(""));
    if s == [] then None
    else match FirstDigitRun(s)
      case None => None
      case Some(m) => var n := DigitsValue(m); if n > 0 then Some(n) else None
  }

  /** `formatSemanaLabel(weekNumber)` */
  function FormatSemanaLabel(weekNumber: int): string {
    "Semana " + IntToString(weekNumber)
  }

  lemma {:induction false} FirstDigitRunAfter(p: string, d: string)
    requires forall i | 0 <= i < |p| :: !IsDigit(p[i])
    requires d != [] && AllDigits(d)
    ensures FirstDigitRun(p + d) == Some(d)
  {
    if p == [] {
      assert p + d == d;
      DigitRunAll(d);
      assert d[..|d|] == d;
    } else {
      assert (p + d)[0] == p[0];
      assert (p + d)[1..] == p[1..] + d;
      FirstDigitRunAfter(p[1..], d);
    }
  }

  /** Reading back a formatted label gives its number: `parseSemanaNumber(formatSemanaLabel(n)) == n`. */
  lemma ParseFormatRoundTrip(n: nat)
    requires n > 0
    ensures ParseSemanaNumber(Some(FormatSemanaLabel(n))) == Some(n)
  {
    var d := NatToString(n);
    assert FormatSemanaLabel(n) == "Semana " + d;
    assert forall i | 0 <= i < |"Semana "| :: !IsDigit("Semana "[i]);
    LabelPieces("Semana ", d);
    DigitsValueOfNatToString(n);
  }

  lemma LabelPieces(p: string, d: string)
    requires p != [] && !IsWhite(p[0]) && forall i | 0 <= i < |p| :: !IsDigit(p[i])
    requires d != [] && AllDigits(d)
    ensures Trim(p + d) == p + d
    ensures FirstDigitRun(p + d) == Some(d)
  {
    assert Trim(p + d) == p + d by {
      assert (p + d)[0] == p[0] && (p + d)[|p + d| - 1] == d[|d| - 1];
      TrimNonWhiteEnds(p + d);
    }
    FirstDigitRunAfter(p, d);
  }

  /** A blank label, or one without digits, has no number. */
  lemma NoDigitsNoNumber(s: string)
    requires forall i | 0 <= i < |s| :: !IsDigit(s[i])
    ensures ParseSemanaNumber(Some(s)) == None
  {
    var k := TrimSlice(s);
    var t := Trim(s);
    forall i | 0 <= i < |t|
      ensures !IsDigit(t[i])
    {
      assert t[i] == s[k + i];
    }
    NoDigitsNoRun(t);
  }

  lemma {:induction false} NoDigitsNoRun(s: string)
    requires forall i | 0 <= i < |s| :: !IsDigit(s[i])
    ensures FirstDigitRun(s) == None
  {
    if s != [] {
      NoDigitsNoRun(s[1..]);
    }
  }

  // ---------------------------------------------------------------------------
  // Week numbers of dates
  // ---------------------------------------------------------------------------

  /** `SEMANA_CORRELATIVA_START`, the day number of 2025-08-11 (see `BaseDayValue`). */
  const BaseDay: int := 20311

  /** `BaseDay` is `new Date(2025, 7, 11)`, a Monday. */
  lemma BaseDayValue()
    ensures BaseDay == MakeDay(2025, 7, 11) && Weekday(BaseDay) == 0
  {
    assert Leaps(2025) == 506 - 20 + 5 && Leaps(1970) == 492 - 19 + 4;
    assert DaysBeforeYear(2025) == 20089;
    assert 7 / 12 == 0 && 7 % 12 == 7;
    assert DaysBeforeMonth(2025, 8) == 212;
  }

  /** `startOfWeek(day, { weekStartsOn: 1 })`: the Monday on or before day number `n`. */
  function WeekStart(n: int): (r: int)
    ensures r <= n < r + 7 && Weekday(r) == 0
  {
    n - Weekday(n)
  }

  /** `getSemanaCorrelativaNumber(fechaGestion)` */
  function SemanaNumber(fechaGestion: Option<Time>): Option<int> {
    match fechaGestion
    case None => None
    case Some(t) =>
      var diff := (WeekStart(DayOf(t)) - WeekStart(BaseDay)) / 7;
      if diff < 0 then None else Some(diff + 1)
  }

  /** The week number counts whole weeks from 2025-08-11; earlier dates have none. */
  lemma SemanaNumberClosedForm(t: Time)
    ensures DayOf(t) < BaseDay ==> SemanaNumber(Some(t)) == None
    ensures DayOf(t) >= BaseDay ==> SemanaNumber(Some(t)) == Some((DayOf(t) - BaseDay) / 7 + 1)
  {
    BaseDayValue();
    var n := DayOf(t);
    var m := n - BaseDay;
    assert Weekday(n) == m % 7;
    assert WeekStart(n) - WeekStart(BaseDay) == m - m % 7;
    assert (m - m % 7) / 7 == m / 7;
    if m < 0 {
      assert m / 7 < 0;
    }
  }

  /** Every day of the week that holds 2025-08-11 is in week 1. */
  lemma FirstWeek(t: Time)
    requires BaseDay <= DayOf(t) < BaseDay + 7
    ensures SemanaNumber(Some(t)) == Some(1)
  {
    SemanaNumberClosedForm(t);
  }

  /** Days of one Monday-to-Sunday week share a number. */
  lemma SameWeekSameNumber(t1: Time, t2: Time)
    requires WeekStart(DayOf(t1)) == WeekStart(DayOf(t2))
    ensures SemanaNumber(Some(t1)) == SemanaNumber(Some(t2))
  {
  }

  /** The same weekday one week later has the next number. */
  lemma NextWeekNextNumber(t: Time)
    requires SemanaNumber(Some(t)).Some?
    ensures SemanaNumber(Some(t + 7 * MsPerDay)) == Some(SemanaNumber(Some(t)).value + 1)
  {
    var t' := t + 7 * MsPerDay;
    var m := DayOf(t) - BaseDay;
    assert m >= 0 && SemanaNumber(Some(t)) == Some(m / 7 + 1) by {
      SemanaNumberClosedForm(t);
    }
    assert SemanaNumber(Some(t')) == Some((m + 7) / 7 + 1) by {
      DayOfShift(t, 7);
      SemanaNumberClosedForm(t');
    }
    WeekDivStep(m);
  }

  lemma DayOfShift(t: Time, k: int)
    ensures DayOf(t + k * MsPerDay) == DayOf(t) + k
  {
    assert t + k * MsPerDay == (t / MsPerDay + k) * MsPerDay + t % MsPerDay;
  }

  lemma WeekDivStep(m: int)
    ensures (m + 7) / 7 == m / 7 + 1
  {
  }

  /** `getSemanaCorrelativaLabel(fechaGestion)` */
  function SemanaLabel(fechaGestion: Option<Time>): (r: Option<string>)
    ensures r.Some? ==> ParseSemanaNumber(r) == SemanaNumber(fechaGestion)
  {
    match SemanaNumber(fechaGestion)
    case Some(n) =>
      if n != 0 then
        ParseFormatRoundTrip(n);
        Some(FormatSemanaLabel(n))
      else None
    case None => None
  }

  /** `resolveSemanaLabel(fechaGestion, rawSemana)` */
  function ResolveSemanaLabel(fechaGestion: Option<Time>, rawSemana: Option<string>): (r: Option<string>)
    ensures SemanaLabel(fechaGestion).Some? ==> r == SemanaLabel(fechaGestion)
    ensures SemanaLabel(fechaGestion).None? && IsBlank(rawSemana.GetOr("")) ==> r == None
    ensures SemanaLabel(fechaGestion).None? && !IsBlank(rawSemana.GetOr("")) ==> r == Some(Trim(rawSemana.value))
  {
    match SemanaLabel(fechaGestion)
    case Some(l) => Some(l)
    case None =>
      var fallback := Trim(rawSemana.GetOr(""));
      if |fallback| > 0 then Some(fallback) else None
  }

  /** A computed label is never empty, so the typed label is consulted only when no week number exists. */
  lemma ComputedLabelWins(fechaGestion: Option<Time>, rawSemana: Option<string>)
    requires SemanaNumber(fechaGestion).Some?
    ensures ResolveSemanaLabel(fechaGestion, rawSemana) == Some(FormatSemanaLabel(SemanaNumber(fechaGestion).value))
  {
    var n := SemanaNumber(fechaGestion).value;
    assert n >= 1 by {
      var t := fechaGestion.value;
      SemanaNumberClosedForm(t);
    }
  }

  // ---------------------------------------------------------------------------
  // Ordering of labels
  // ---------------------------------------------------------------------------

  /** `compareSemanaLabels(a, b)` */
  function CompareSemanaLabels(a: string, b: string): int {
    var na := ParseSemanaNumber(Some(a));
    var nb := ParseSemanaNumber(Some(b));
    if na.Some? && nb.Some? && na.value != nb.value then na.value - nb.value
    else if na.Some? && nb.None? then -1
    else if na.None? && nb.Some? then 1
    else Compare(a, b)
  }

  /** The order the comparator defines: numbered before un-numbered, by number, then by text. */
  predicate SemanaBefore(a: string, b: string) {
    var na := ParseSemanaNumber(Some(a));
    var nb := ParseSemanaNumber(Some(b));
    if na.Some? && nb.Some? then na.value < nb.value || (na.value == nb.value && StrLt(a, b))
    else if na.Some? then true
    else if nb.Some? then false
    else StrLt(a, b)
  }

  /** The comparator's sign is that order: negative before, zero for equal labels, positive after. */
  lemma CompareIsSemanaBefore(a: string, b: string)
    ensures CompareSemanaLabels(a, b) < 0 <==> SemanaBefore(a, b)
    ensures CompareSemanaLabels(a, b) > 0 <==> SemanaBefore(b, a)
    ensures CompareSemanaLabels(a, b) == 0 <==> a == b
  {
  }

  /** The order is a strict total order, so sorting by it is well defined. */
  lemma SemanaBeforeIsOrder(a: string, b: string, c: string)
    ensures !SemanaBefore(a, a)
    ensures a != b ==> SemanaBefore(a, b) || SemanaBefore(b, a)
    ensures SemanaBefore(a, b) ==> !SemanaBefore(b, a)
    ensures SemanaBefore(a, b) && SemanaBefore(b, c) ==> SemanaBefore(a, c)
  {
    StrLtIrreflexive(a);
    if a != b {
      StrLtTotal(a, b);
    }
    if SemanaBefore(a, b) && StrLt(a, b) {
      StrLtAsymmetric(a, b);
    }
    if SemanaBefore(b, a) && StrLt(b, a) {
      StrLtAsymmetric(b, a);
    }
    if StrLt(a, b) && StrLt(b, c) {
      StrLtTransitive(a, b, c);
    }
  }

  /** Numbered labels come before every label without a number. */
  lemma NumberedFirst(a: string, b: string)
    requires ParseSemanaNumber(Some(a)).Some? && ParseSemanaNumber(Some(b)).None?
    ensures CompareSemanaLabels(a, b) < 0 && CompareSemanaLabels(b, a) > 0
  {
  }

  /** Two formatted labels compare by their numbers: "Semana 2" before "Semana 10". */
  lemma FormattedByNumber(m: nat, n: nat)
    requires 0 < m < n
    ensures CompareSemanaLabels(FormatSemanaLabel(m), FormatSemanaLabel(n)) < 0
  {
    ParseFormatRoundTrip(m);
    ParseFormatRoundTrip(n);
  }
}
