/**
 * The analytics page (src/app/analytics/page.tsx): the per-row KPI of each
 * metric, the month/day/week selection that narrows the rows, the four
 * charts (monthly, daily, weekly and the monthly conversion rates), the
 * summary KPIs, and the two toggle rules of its selectors.
 *
 * The page is a React component; here each `useMemo` is a function of the
 * rows and the selections, and each `useState` setter is the function that
 * computes the next selection.
 */
module Analytics {
  import opened Wrappers
  import opened Text
  import opened Rows
  import opened Ordering
  import opened Grouping
  import opened Metrics
  import FilterOptions
  import Js

  // ---------------------------------------------------------------------------
  // computeRowKPI
  // ---------------------------------------------------------------------------

  datatype Metric = Cargada | Recorrido | Contactado | Citas | Af | Mc

  /** `ALL_METRICS`, in the order of the summary cards. */
  const AllMetrics: seq<Metric> := [Cargada, Recorrido, Contactado, Citas, Af, Mc]

  /** The metrics selected when the page opens. */
  const InitialMetrics: seq<Metric> := [Recorrido, Contactado, Citas, Af, Mc]

  /** `computeRowKPI(row, metric)`: whether the row counts for the metric, as 0 or 1. */
  function RowKpi(r: DataRow, m: Metric): (k: nat)
    ensures k <= 1
    ensures m == Cargada ==> k == 1
    ensures m == Citas ==> (k == 1 <==> Lower(Trim(r.interesa.GetOr(""))) == "viene")
  {
    match m
    case Cargada => 1
    case Recorrido =>
      var v := Lower(Trim(r.conecta.GetOr("")));
      if v == "conecta" || v == "no conecta" then 1 else 0
    case Contactado => if r.conecta.Some? && Lower(Trim(r.conecta.value)) == "conecta" then 1 else 0
    case Citas => if r.interesa.Some? && Lower(Trim(r.interesa.value)) == "viene" then 1 else 0
    case Af =>
      var v := Upper(Trim(r.af.GetOr("")));
      if v == "A" || v == "MC" || v == "M" then 1 else 0
    case Mc =>
      var v := Upper(Trim(r.mc.GetOr("")));
      if v == "M" || v == "MC" then 1 else 0
  }

  /** The dashboard's row predicate behind each metric; `cargada` counts every row. */
  function Counts(m: Metric): DataRow -> bool {
    match m
    case Cargada => AnyRow
    case Recorrido => IsRecorrido
    case Contactado => IsContactado
    case Citas => IsCita
    case Af => IsAfluencia
    case Mc => IsMatricula
  }

  predicate AnyRow(r: DataRow) {
    true
  }

  /** The dashboard's counter for each metric. */
  function Field(f: Funnel, m: Metric): nat {
    match m
    case Cargada => f.cargada
    case Recorrido => f.recorrido
    case Contactado => f.contactado
    case Citas => f.citas
    case Af => f.af
    case Mc => f.mc
  }

  /** The page's per-row test agrees with the dashboard's row predicates. */
  lemma RowKpiAgrees(r: DataRow, m: Metric)
    ensures RowKpi(r, m) == (if Counts(m)(r) then 1 else 0)
  {
    assert Trim([]) == [] && Lower([]) == [];
  }

  /** `rows.reduce((sum, r) => sum + computeRowKPI(r, metric), 0)` */
  function KpiSum(rows: seq<DataRow>, m: Metric): nat {
    if rows == [] then 0 else KpiSum(Init(rows), m) + RowKpi(Last(rows), m)
  }

  /** The sum of a metric's KPI counts the rows its predicate accepts. */
  lemma {:induction false} KpiSumCounts(rows: seq<DataRow>, m: Metric)
    ensures KpiSum(rows, m) == Count(rows, Counts(m))
  {
    if rows != [] {
      KpiSumCounts(Init(rows), m);
      RowKpiAgrees(Last(rows), m);
    }
  }

  /** Every metric's sum is the matching counter of `computeTotals` on the same rows. */
  lemma KpiSumIsFunnel(rows: seq<DataRow>, m: Metric)
    ensures KpiSum(rows, m) == Field(FunnelOf(rows), m)
  {
    KpiSumCounts(rows, m);
    match m
    case Cargada => CountAll(rows, AnyRow);
    case _ =>
  }

  // ---------------------------------------------------------------------------
  // filteredRows
  // ---------------------------------------------------------------------------

  /** The month, day and week pills that are selected; months are held as `String(mes)`. */
  datatype Selection = Selection(months: seq<string>, days: seq<string>, weeks: seq<string>)

  const NoSelection: Selection := Selection([], [], [])

  function InMonths(months: seq<string>): DataRow -> bool {
    (r: DataRow) => r.mes.Some? && IntToString(r.mes.value) in months
  }

  function OnDays(days: seq<string>): DataRow -> bool {
    (r: DataRow) => r.diaSemana.Some? && r.diaSemana.value in days
  }

  function InWeeks(weeks: seq<string>): DataRow -> bool {
    (r: DataRow) => r.semana.Some? && r.semana.value in weeks
  }

  /** A filter that is applied only when its selection is not empty. */
  function When(selected: seq<string>, p: DataRow -> bool): DataRow -> bool {
    (r: DataRow) => |selected| > 0 ==> p(r)
  }

  /** `filteredRows`: the month, day and week filters, one after the other, each skipped when nothing is selected. */
  function FilteredRows(rows: seq<DataRow>, sel: Selection): (kept: seq<DataRow>)
    ensures |kept| <= |rows|
    ensures sel == NoSelection ==> kept == rows
  {
    var byMonth := if |sel.months| > 0 then Filter(rows, InMonths(sel.months)) else rows;
    var byDay := if |sel.days| > 0 then Filter(byMonth, OnDays(sel.days)) else byMonth;
    if |sel.weeks| > 0 then Filter(byDay, InWeeks(sel.weeks)) else byDay
  }

  /** A row passes the selection: every non-empty selection holds its (non-null) month, day and week. */
  predicate Passes(sel: Selection, r: DataRow) {
    && When(sel.months, InMonths(sel.months))(r)
    && When(sel.days, OnDays(sel.days))(r)
    && When(sel.weeks, InWeeks(sel.weeks))(r)
  }

  function PassesFn(sel: Selection): DataRow -> bool {
    (r: DataRow) => Passes(sel, r)
  }

  /** A filter that is skipped is a filter that passes everything. */
  lemma SkipIsFilter(rows: seq<DataRow>, selected: seq<string>, p: DataRow -> bool)
    ensures (if |selected| > 0 then Filter(rows, p) else rows) == Filter(rows, When(selected, p))
  {
    if |selected| == 0 {
      FilterAll(rows, When(selected, p));
    } else {
      FilterTwice(rows, p, When(selected, p), When(selected, p));
      FilterAll(Filter(rows, p), When(selected, p));
    }
  }

  /**
   * The three filters in a row are one filter by `Passes`: the rows kept
   * are exactly the rows that pass, in their input order.
   */
  lemma FilteredRowsIsFilter(rows: seq<DataRow>, sel: Selection)
    ensures FilteredRows(rows, sel) == Filter(rows, PassesFn(sel))
  {
    var m := When(sel.months, InMonths(sel.months));
    var d := When(sel.days, OnDays(sel.days));
    var w := When(sel.weeks, InWeeks(sel.weeks));
    var md: DataRow -> bool := r => m(r) && d(r);
    SkipIsFilter(rows, sel.months, InMonths(sel.months));
    var byMonth := Filter(rows, m);
    SkipIsFilter(byMonth, sel.days, OnDays(sel.days));
    FilterTwice(rows, m, d, md);
    SkipIsFilter(Filter(rows, md), sel.weeks, InWeeks(sel.weeks));
    FilterTwice(rows, md, w, PassesFn(sel));
  }

  /**
   * A row is kept exactly when it is a row that passes; in particular a
   * row whose month, day or week is null is dropped while that selection
   * is not empty.
   */
  lemma FilteredRowsMembers(rows: seq<DataRow>, sel: Selection, r: DataRow)
    ensures r in FilteredRows(rows, sel) <==> r in rows && Passes(sel, r)
    ensures |sel.months| > 0 && r.mes.None? ==> r !in FilteredRows(rows, sel)
    ensures |sel.days| > 0 && r.diaSemana.None? ==> r !in FilteredRows(rows, sel)
    ensures |sel.weeks| > 0 && r.semana.None? ==> r !in FilteredRows(rows, sel)
  {
    FilteredRowsIsFilter(rows, sel);
  }

  /**
   * Months are compared as `String(mes)`, which names one month only: the
   * pill "m" keeps exactly the rows of month m.
   */
  lemma MonthPillKeepsMonth(rows: seq<DataRow>, m: int, r: DataRow)
    ensures r in FilteredRows(rows, Selection([IntToString(m)], [], [])) <==> r in rows && r.mes == Some(m)
  {
    FilteredRowsMembers(rows, Selection([IntToString(m)], [], []), r);
    if r.mes.Some? && IntToString(r.mes.value) in [IntToString(m)] {
      IntToStringInjective(r.mes.value, m);
    }
  }

  // ---------------------------------------------------------------------------
  // Available options
  // ---------------------------------------------------------------------------

  /** `availableMonths`: the distinct non-null months, ascending. */
  function AvailableMonths(rows: seq<DataRow>): seq<int> {
    FilterOptions.OptionsOf(rows).meses
  }

  function DiaSemanaOf(r: DataRow): Option<string> {
    r.diaSemana
  }

  /** `availableDays`: the distinct non-empty days, by their place in the week; unknown labels first. */
  function AvailableDays(rows: seq<DataRow>): seq<string> {
    SortByKey(Distinct(FilterOptions.Kept(rows, DiaSemanaOf, FilterOptions.Truthy)), DayIndex)
  }

  /** `availableWeeks`: the distinct non-empty weeks, by the number their digits form. */
  function AvailableWeeks(rows: seq<DataRow>): seq<string> {
    SortByKey(Distinct(FilterOptions.Kept(rows, FilterOptions.SemanaOf, FilterOptions.Truthy)), DigitsNumber)
  }

  /** The options of a day or week selector: each present label once, in the selector's order. */
  lemma LabelOptions(rows: seq<DataRow>, field: DataRow -> Option<string>, order: string -> int, s: string)
    ensures var o := SortByKey(Distinct(FilterOptions.Kept(rows, field, FilterOptions.Truthy)), order);
      && SortedByKey(o, order) && NoDup(o)
      && (s in o <==> s != [] && exists i | 0 <= i < |rows| :: field(rows[i]) == Some(s))
  {
    var seen := Distinct(FilterOptions.Kept(rows, field, FilterOptions.Truthy));
    SortByKeyCorrect(seen, order);
    PermutationNoDup(SortByKey(seen, order), seen);
    FilterOptions.KeptMembers(rows, field, FilterOptions.Truthy, s);
    assert s in SortByKey(seen, order) <==> s in multiset(SortByKey(seen, order));
    assert s in seen <==> s in multiset(seen);
  }

  // ---------------------------------------------------------------------------
  // The charts
  // ---------------------------------------------------------------------------

  /** An option whose pill value is selected. */
  function Picked<K>(selected: seq<string>, show: K -> string): K -> bool {
    k => show(k) in selected
  }

  /** The labels a selection keeps, in the order of `options` (`options.filter((o) => selected.includes(...))`). */
  function Chosen<K(!new)>(options: seq<K>, selected: seq<string>, show: K -> string): seq<K> {
    if |selected| > 0 then Filter(options, Picked(selected, show)) else options
  }

  function Same(s: string): string {
    s
  }

  /**
   * One bar or line series per selected metric, one value per category:
   * the metric's sum over the rows whose `key` is that category.
   */
  function Series<K(==)>(rows: seq<DataRow>, key: DataRow -> Option<K>, groups: seq<K>, metrics: seq<Metric>)
    : (s: seq<seq<nat>>)
    ensures |s| == |metrics|
    ensures forall i | 0 <= i < |s| :: |s[i]| == |groups|
  {
    seq(|metrics|, i requires 0 <= i < |metrics| =>
      seq(|groups|, j requires 0 <= j < |groups| => KpiSum(Select(rows, key, groups[j]), metrics[i])))
  }

  /** Each value of a series is the dashboard's counter for that metric over that category's rows. */
  lemma SeriesValue<K>(rows: seq<DataRow>, key: DataRow -> Option<K>, groups: seq<K>, metrics: seq<Metric>,
                           i: nat, j: nat)
    requires i < |metrics| && j < |groups|
    ensures Series(rows, key, groups, metrics)[i][j] == Field(FunnelOf(Select(rows, key, groups[j])), metrics[i])
  {
    KpiSumIsFunnel(Select(rows, key, groups[j]), metrics[i]);
  }

  datatype Chart<K> = Chart(categories: seq<K>, series: seq<seq<nat>>)

  /** `months`: the available months, or those selected. */
  function ChartMonths(rows: seq<DataRow>, sel: Selection): seq<int> {
    Chosen(AvailableMonths(rows), sel.months, IntToString)
  }

  /** CHART 1: every row of each month, whatever days or weeks are selected. */
  function MonthlyChart(rows: seq<DataRow>, sel: Selection, metrics: seq<Metric>): Chart<string> {
    var months := ChartMonths(rows, sel);
    Chart(MapSeq(months, MonthLabel), Series(rows, FilterOptions.MesOf, months, metrics))
  }

  /** `days`: the selected days in Lun..Dom order, or the available days. */
  function ChartDays(rows: seq<DataRow>, sel: Selection): seq<string> {
    if |sel.days| > 0 then Chosen(DayOrder, sel.days, Same) else AvailableDays(rows)
  }

  /** CHART 2: the filtered rows of each day. */
  function DailyChart(rows: seq<DataRow>, sel: Selection, metrics: seq<Metric>): Chart<string> {
    var days := ChartDays(rows, sel);
    Chart(days, Series(FilteredRows(rows, sel), DiaSemanaOf, days, metrics))
  }

  /** `weeks`: the available weeks, or those selected. */
  function ChartWeeks(rows: seq<DataRow>, sel: Selection): seq<string> {
    Chosen(AvailableWeeks(rows), sel.weeks, Same)
  }

  /** CHART 3: every row of each week. */
  function WeeklyTrend(rows: seq<DataRow>, sel: Selection, metrics: seq<Metric>): Chart<string> {
    var weeks := ChartWeeks(rows, sel);
    Chart(weeks, Series(rows, FilterOptions.SemanaOf, weeks, metrics))
  }

  /**
   * The months shown are the selected months some row carries, ascending;
   * with nothing selected, every month some row carries.
   */
  lemma ChartMonthsMembers(rows: seq<DataRow>, sel: Selection, m: int)
    ensures StrictlySorted(ChartMonths(rows, sel), IntLt)
    ensures m in ChartMonths(rows, sel) <==>
      (exists i | 0 <= i < |rows| :: rows[i].mes == Some(m)) && (|sel.months| > 0 ==> IntToString(m) in sel.months)
  {
    FilterOptions.NumericOptions(rows);
    IntLtIsOrder();
    if |sel.months| > 0 {
      FilterSorted(AvailableMonths(rows), Picked(sel.months, IntToString), IntLt);
    }
  }

  /**
   * With days selected, the days shown are the selected ones among the
   * seven, in week order; a selected label that is not a day is never shown.
   */
  lemma ChartDaysSelected(rows: seq<DataRow>, sel: Selection, d: string)
    requires |sel.days| > 0
    ensures NoDup(ChartDays(rows, sel))
    ensures d in ChartDays(rows, sel) <==> d in DayOrder && d in sel.days
    ensures forall i, j | 0 <= i < j < |ChartDays(rows, sel)| ::
      DayIndex(ChartDays(rows, sel)[i]) < DayIndex(ChartDays(rows, sel)[j])
  {
    var c := Filter(DayOrder, Picked(sel.days, Same));
    assert ChartDays(rows, sel) == c;
    DayOrderSorted();
    PickedInOrder(DayOrder, sel.days, d);
    assert forall i, j | 0 <= i < j < |c| :: DayBefore(c[i], c[j]);
  }

  /** Picking labels out of an ordered list without repeats keeps its order and repeats nothing. */
  lemma PickedInOrder(order: seq<string>, days: seq<string>, d: string)
    requires StrictlySorted(order, DayBefore) && NoDup(order)
    ensures var c := Filter(order, Picked(days, Same));
      && StrictlySorted(c, DayBefore) && NoDup(c)
      && (d in c <==> d in order && d in days)
  {
    FilterSorted(order, Picked(days, Same), DayBefore);
    FilterNoDup(order, Picked(days, Same));
    assert Same(d) == d && Picked(days, Same)(d) == (Same(d) in days);
  }

  /**
   * The monthly chart and the weekly trend count every row of their
   * category; the daily chart counts only the filtered rows of its day.
   */
  lemma ChartsCount(rows: seq<DataRow>, sel: Selection, metrics: seq<Metric>, i: nat, j: nat)
    requires i < |metrics|
    ensures var c := MonthlyChart(rows, sel, metrics);
      j < |c.categories| ==>
        (j < |ChartMonths(rows, sel)| &&
         c.series[i][j] == Field(FunnelOf(Select(rows, FilterOptions.MesOf, ChartMonths(rows, sel)[j])), metrics[i]))
    ensures var c := DailyChart(rows, sel, metrics);
      j < |c.categories| ==>
        c.series[i][j] == Field(FunnelOf(Select(FilteredRows(rows, sel), DiaSemanaOf, c.categories[j])), metrics[i])
    ensures var c := WeeklyTrend(rows, sel, metrics);
      j < |c.categories| ==>
        c.series[i][j] == Field(FunnelOf(Select(rows, FilterOptions.SemanaOf, c.categories[j])), metrics[i])
  {
    var months := ChartMonths(rows, sel);
    if j < |months| {
      SeriesValue(rows, FilterOptions.MesOf, months, metrics, i, j);
    }
    var days := ChartDays(rows, sel);
    if j < |days| {
      SeriesValue(FilteredRows(rows, sel), DiaSemanaOf, days, metrics, i, j);
    }
    var weeks := ChartWeeks(rows, sel);
    if j < |weeks| {
      SeriesValue(rows, FilterOptions.SemanaOf, weeks, metrics, i, j);
    }
  }

  // ---------------------------------------------------------------------------
  // CHART 4: conversion rates
  // ---------------------------------------------------------------------------

  /** The six monthly rates, in percent. */
  datatype Rates = Rates(tcLlaLeads: real, tcContLla: real, cCitasCon: real, tcAfCitas: real, tcMcAf: real,
                         cMcLeads: real)

  /** `den > 0 ? (num / den * 100) : 0` */
  function Pct(num: nat, den: nat): real {
    if den > 0 then num as real / den as real * 100.0 else 0.0
  }

  /** The six KPI sums of a set of rows. */
  function KpiSums(rows: seq<DataRow>): Funnel {
    Funnel(KpiSum(rows, Cargada), KpiSum(rows, Recorrido), KpiSum(rows, Contactado), KpiSum(rows, Citas),
           KpiSum(rows, Af), KpiSum(rows, Mc))
  }

  /** The six sums are the dashboard's counters. */
  lemma KpiSumsAreFunnel(rows: seq<DataRow>)
    ensures KpiSums(rows) == FunnelOf(rows)
  {
    KpiSumIsFunnel(rows, Cargada);
    KpiSumIsFunnel(rows, Recorrido);
    KpiSumIsFunnel(rows, Contactado);
    KpiSumIsFunnel(rows, Citas);
    KpiSumIsFunnel(rows, Af);
    KpiSumIsFunnel(rows, Mc);
  }

  /** The rates of the six sums. */
  function RatesOf(f: Funnel): Rates {
    Rates(Pct(f.recorrido, f.cargada), Pct(f.contactado, f.recorrido), Pct(f.citas, f.contactado),
          Pct(f.af, f.citas), Pct(f.mc, f.af), Pct(f.mc, f.cargada))
  }

  /** The rates of one month, over every row of that month. */
  function MonthRates(rows: seq<DataRow>, m: int): Rates {
    RatesOf(KpiSums(Select(rows, FilterOptions.MesOf, m)))
  }

  /** `Pct` is the dashboard's `Ratio` in percent, 0 where it is null. */
  lemma PctIsRatio(num: nat, den: nat)
    ensures Pct(num, den) == Percent(Js.Ratio(num, den))
  {
  }

  /** `rates`: one entry per month the monthly chart shows. */
  function ConversionRates(rows: seq<DataRow>, sel: Selection): (rates: seq<Rates>)
    ensures |rates| == |ChartMonths(rows, sel)|
  {
    MapSeq(ChartMonths(rows, sel), m => MonthRates(rows, m))
  }

  /** A dashboard rate in percent, with 0 where the dashboard has null. */
  function Percent(rate: Option<real>): real {
    if rate.Some? then rate.value * 100.0 else 0.0
  }

  /**
   * A month's rates are the rates `computeTotals` gives for that month's
   * rows, times 100, and 0 where it gives null (a zero denominator).
   */
  lemma MonthRatesAreTotals(rows: seq<DataRow>, m: int)
    ensures var r := MonthRates(rows, m);
      var t := TotalsOf(Select(rows, FilterOptions.MesOf, m));
      && r.tcLlaLeads == Percent(t.tcLlaLeads)
      && r.tcContLla == Percent(t.tcContLla)
      && r.cCitasCon == Percent(t.cCitasCon)
      && r.tcAfCitas == Percent(t.tcAfCitas)
      && r.tcMcAf == Percent(t.tcMcAf)
      && r.cMcLeads == Percent(t.cMcLeads)
  {
    var f := FunnelOf(Select(rows, FilterOptions.MesOf, m));
    KpiSumsAreFunnel(Select(rows, FilterOptions.MesOf, m));
    PctIsRatio(f.recorrido, f.cargada);
    PctIsRatio(f.contactado, f.recorrido);
    PctIsRatio(f.citas, f.contactado);
    PctIsRatio(f.af, f.citas);
    PctIsRatio(f.mc, f.af);
    PctIsRatio(f.mc, f.cargada);
  }

  /** Called-of-loaded, reached-of-called and enrolled-of-loaded are percentages between 0 and 100; none is negative. */
  lemma MonthRatesBounds(rows: seq<DataRow>, m: int)
    ensures var r := MonthRates(rows, m);
      && 0.0 <= r.tcLlaLeads <= 100.0
      && 0.0 <= r.tcContLla <= 100.0
      && 0.0 <= r.cMcLeads <= 100.0
      && 0.0 <= r.cCitasCon && 0.0 <= r.tcAfCitas && 0.0 <= r.tcMcAf
  {
    var mRows := Select(rows, FilterOptions.MesOf, m);
    var f := FunnelOf(mRows);
    KpiSumsAreFunnel(mRows);
    FunnelBounds(mRows, TotalsRules);
    TotalsRulesNarrow();
    PctInRange(f.recorrido, f.cargada);
    PctInRange(f.contactado, f.recorrido);
    PctInRange(f.mc, f.cargada);
    PctNonNegative(f.citas, f.contactado);
    PctNonNegative(f.af, f.citas);
    PctNonNegative(f.mc, f.af);
  }

  lemma PctInRange(num: nat, den: nat)
    requires num <= den
    ensures 0.0 <= Pct(num, den) <= 100.0
  {
    PctIsRatio(num, den);
    Js.RatioInUnit(num, den);
  }

  lemma PctNonNegative(num: nat, den: nat)
    ensures 0.0 <= Pct(num, den)
  {
    PctIsRatio(num, den);
    if den > 0 {
      assert Js.Ratio(num, den).value * den as real == num as real;
    }
  }

  // ---------------------------------------------------------------------------
  // Summary KPIs
  // ---------------------------------------------------------------------------

  /** `summaryKPIs`: each metric of `ALL_METRICS` summed over the filtered rows. */
  function SummaryKpis(rows: seq<DataRow>, sel: Selection): (values: seq<nat>)
    ensures |values| == |AllMetrics|
  {
    MapSeq(AllMetrics, m => KpiSum(FilteredRows(rows, sel), m))
  }

  /** The summary cards are the counters of `computeTotals` over the filtered rows. */
  lemma SummaryIsTotals(rows: seq<DataRow>, sel: Selection)
    ensures var t := TotalsOf(FilteredRows(rows, sel));
      SummaryKpis(rows, sel) == [t.cargada, t.recorrido, t.contactado, t.citas, t.af, t.mc]
  {
    var kept := FilteredRows(rows, sel);
    var s := SummaryKpis(rows, sel);
    var f := FunnelOf(kept);
    KpiSumsAreFunnel(kept);
    var e := [f.cargada, f.recorrido, f.contactado, f.citas, f.af, f.mc];
    forall i | 0 <= i < 6 ensures s[i] == e[i] {
      assert s[i] == KpiSum(kept, AllMetrics[i]);
      assert i == 0 || i == 1 || i == 2 || i == 3 || i == 4 || i == 5;
    }
    assert s == e;
    var t := TotalsOf(kept);
    assert t.cargada == f.cargada && t.recorrido == f.recorrido && t.contactado == f.contactado;
    assert t.citas == f.citas && t.af == f.af && t.mc == f.mc;
  }

  // ---------------------------------------------------------------------------
  // Toggles
  // ---------------------------------------------------------------------------

  function Other<T(==)>(v: T): T -> bool {
    x => x != v
  }

  /** `MultiSelect`'s `toggle(val)`: a selected value is removed, another appended. */
  function Toggle<T(==, !new)>(selected: seq<T>, v: T): seq<T> {
    if v in selected then Filter(selected, Other(v)) else selected + [v]
  }

  /** The metric toggle: like `Toggle`, but the only selected metric stays selected. */
  function ToggleMetric(selected: seq<Metric>, m: Metric): seq<Metric> {
    if m in selected then (if |selected| > 1 then Filter(selected, Other(m)) else selected)
    else selected + [m]
  }

  /** Toggling flips exactly the toggled value and leaves the others as they are. */
  lemma ToggleMembers<T(!new)>(selected: seq<T>, v: T, x: T)
    ensures x in Toggle(selected, v) <==> (if x == v then v !in selected else x in selected)
  {
  }

  /** Removing a value from a list without duplicates shortens it by one and keeps it free of duplicates. */
  lemma {:induction false} RemoveOne<T(!new)>(s: seq<T>, v: T)
    requires NoDup(s) && v in s
    ensures |Filter(s, Other(v))| == |s| - 1
  {
    InitLast(s);
    assert NoDup(Init(s));
    if Last(s) == v {
      assert v !in Init(s);
      FilterAll(Init(s), Other(v));
    } else {
      RemoveOne(Init(s), v);
    }
  }

  /** Selected metrics: at least one, none twice. */
  predicate ValidMetrics(selected: seq<Metric>) {
    |selected| > 0 && NoDup(selected)
  }

  /**
   * The metric toggle keeps at least one metric selected and never
   * selects one twice; it removes the toggled metric unless it is the
   * only one, and otherwise appends it.
   */
  lemma ToggleMetricValid(selected: seq<Metric>, m: Metric)
    requires ValidMetrics(selected)
    ensures ValidMetrics(ToggleMetric(selected, m))
    ensures m in ToggleMetric(selected, m) <==> m !in selected || selected == [m]
  {
    if m in selected {
      if |selected| > 1 {
        RemoveOne(selected, m);
        FilterNoDup(selected, Other(m));
      } else {
        assert selected == [m];
      }
    }
  }

  /** Selecting a metric and toggling it again restores the selection. */
  lemma ToggleMetricTwice(selected: seq<Metric>, m: Metric)
    requires ValidMetrics(selected) && m !in selected
    ensures ToggleMetric(ToggleMetric(selected, m), m) == selected
  {
    FilterSnoc(selected, m, Other(m));
    FilterAll(selected, Other(m));
  }

  lemma InitialMetricsValid()
    ensures ValidMetrics(InitialMetrics)
  {
  }
}
