/**
 * The aggregation inside the dashboard's chart widgets
 * (src/features/dashboard/components/widgets/): the weekly, daily and
 * monthly funnel charts, the afluencia/matrícula breakdown by campus or
 * régimen with its ranking, and the régimen and campus bar charts.
 *
 * Each widget's `useMemo` walks the rows once, creating a Map entry the
 * first time a key is seen and incrementing its counters; here that loop is
 * `Grouping.GroupFold`, and each widget method is proved against the
 * functions that say what every group holds.
 */
module Widgets {
  import opened Wrappers
  import opened Text
  import opened Rows
  import opened Ordering
  import opened Grouping
  import opened Metrics
  import FilterOptions
  import Rut
  import Campus

  /** The six series of a funnel chart, one value per category. */
  datatype Series = Series(cargada: seq<nat>, recorrido: seq<nat>, contactado: seq<nat>, citas: seq<nat>,
                           af: seq<nat>, mc: seq<nat>)

  /** `cats.map(c => groups.get(c)!.<counter>)` for each counter. */
  function SeriesOf(fs: seq<Funnel>): (s: Series)
    ensures |s.cargada| == |s.recorrido| == |s.contactado| == |s.citas| == |s.af| == |s.mc| == |fs|
  {
    Series(seq(|fs|, i requires 0 <= i < |fs| => fs[i].cargada),
           seq(|fs|, i requires 0 <= i < |fs| => fs[i].recorrido),
           seq(|fs|, i requires 0 <= i < |fs| => fs[i].contactado),
           seq(|fs|, i requires 0 <= i < |fs| => fs[i].citas),
           seq(|fs|, i requires 0 <= i < |fs| => fs[i].af),
           seq(|fs|, i requires 0 <= i < |fs| => fs[i].mc))
  }

  /** The counters of each listed group: what the chart should show for it. */
  function GroupFunnels<K(==)>(rows: seq<DataRow>, key: DataRow -> Option<K>, cats: seq<K>): (fs: seq<Funnel>)
    ensures |fs| == |cats|
    ensures forall i | 0 <= i < |cats| :: fs[i] == FunnelOf(Select(rows, key, cats[i]))
  {
    seq(|cats|, i requires 0 <= i < |cats| => FunnelOf(Select(rows, key, cats[i])))
  }

  /** The grouping loop with the `computeTotals` increments leaves each group's counters. */
  lemma GroupCounters<K(!new)>(rows: seq<DataRow>, key: DataRow -> Option<K>, groups: map<K, Funnel>, k: K)
    requires k in groups && groups[k] == Fold(Select(rows, key, k), NoCounts, StepBy(TotalsRules))
    ensures groups[k] == FunnelOf(Select(rows, key, k))
  {
    FoldIsFunnelBy(Select(rows, key, k), TotalsRules);
  }

  /** `cats.map(c => groups.get(c)!)` */
  function Lookup<K, V>(groups: map<K, V>, cats: seq<K>): (vs: seq<V>)
    requires forall k | k in cats :: k in groups
    ensures |vs| == |cats|
  {
    seq(|cats|, i requires 0 <= i < |cats| => groups[cats[i]])
  }

  /**
   * After the grouping loop with the `computeTotals` increments, the
   * records of any listing of the keys are the listed groups' counters.
   */
  lemma LookupFunnels<K(!new)>(rows: seq<DataRow>, key: DataRow -> Option<K>, keys: seq<K>, groups: map<K, Funnel>,
                               cats: seq<K>)
    requires forall k :: k in groups <==> k in keys
    requires forall k | k in groups :: groups[k] == Fold(Select(rows, key, k), NoCounts, StepBy(TotalsRules))
    requires forall k :: k in cats <==> k in keys
    ensures forall k | k in cats :: k in groups
    ensures Lookup(groups, cats) == GroupFunnels(rows, key, cats)
  {
    forall i | 0 <= i < |cats| ensures Lookup(groups, cats)[i] == GroupFunnels(rows, key, cats)[i] {
      GroupCounters(rows, key, groups, cats[i]);
    }
  }

  /** Every row of a group is loaded; reached rows were called, and no counter exceeds the loaded rows. */
  lemma GroupBounds<K>(rows: seq<DataRow>, key: DataRow -> Option<K>, k: K)
    ensures var f := FunnelOf(Select(rows, key, k));
      && f.cargada == |Select(rows, key, k)|
      && f.contactado <= f.recorrido <= f.cargada
      && f.citas <= f.cargada && f.af <= f.cargada && f.mc <= f.cargada
  {
    FunnelBounds(Select(rows, key, k), TotalsRules);
    TotalsRulesNarrow();
  }

  // ---------------------------------------------------------------------------
  // weekly-chart.tsx
  // ---------------------------------------------------------------------------

  /** `r.semana?.trim() || "Sin Semana"`: every row has a week. */
  function WeekKey(r: DataRow): Option<string> {
    var w := Trim(r.semana.GetOr(""));
    Some(if w == "" then "Sin Semana" else w)
  }

  /** `Array.from(groups.keys()).sort()`: code-unit order, not numeric. */
  function Weeks(rows: seq<DataRow>): seq<string> {
    SortDistinct(KeysOf(rows, WeekKey), StrLt)
  }

  datatype WeeklyData = WeeklyData(weeks: seq<string>, series: Series)

  /** The weekly chart's `chartData`. */
  method WeeklyChartData(rows: seq<DataRow>) returns (data: Option<WeeklyData>)
    ensures data.None? <==> rows == []
    ensures data.Some? ==> data.value == WeeklyData(Weeks(rows), SeriesOf(GroupFunnels(rows, WeekKey, Weeks(rows))))
  {
    if |rows| == 0 {
      return None;
    }
    var keys, groups := GroupFold(rows, WeekKey, NoCounts, StepBy(TotalsRules));
    var weeks := SortDistinct(keys, StrLt);
    StrLtIsOrder();
    SortDistinctCorrect(keys, StrLt);
    LookupFunnels(rows, WeekKey, keys, groups, weeks);
    data := Some(WeeklyData(weeks, SeriesOf(Lookup(groups, weeks))));
  }

  /**
   * The weeks are the distinct trimmed labels, blank ones as "Sin Semana",
   * in code-unit order; their row counts add up to every row.
   */
  lemma WeeksPartitionRows(rows: seq<DataRow>)
    ensures StrictlySorted(Weeks(rows), StrLt) && NoDup(Weeks(rows))
    ensures forall w :: w in Weeks(rows) <==> exists i | 0 <= i < |rows| :: WeekKey(rows[i]) == Some(w)
    ensures SumOver(Weeks(rows), Sizes(rows, WeekKey)) == |rows|
  {
    StrLtIsOrder();
    SortDistinctCorrect(KeysOf(rows, WeekKey), StrLt);
    StrictlySortedNoDup(Weeks(rows), StrLt);
    forall w ensures w in Weeks(rows) <==> exists i | 0 <= i < |rows| :: WeekKey(rows[i]) == Some(w) {
      SelectNonEmpty(rows, WeekKey, w);
    }
    PartitionAnyOrder(rows, WeekKey, Weeks(rows));
    CountAll(rows, HasKey(WeekKey));
  }

  /** A row with a blank or missing week is counted under "Sin Semana". */
  lemma BlankWeekIsSinSemana(r: DataRow)
    requires r.semana.None? || IsBlank(r.semana.value)
    ensures WeekKey(r) == Some("Sin Semana")
  {
    if r.semana.Some? {
      TrimBlankIffAllWhite(r.semana.value);
    }
  }

  /** The plain sort puts "Semana 10" before "Semana 2". */
  lemma WeekTenBeforeTwo()
    ensures StrLt("Semana 10", "Semana 2")
  {
    assert "Semana 10"[7..] == "10" && "Semana 2"[7..] == "2";
    assert StrLt("10", "2");
  }

  // ---------------------------------------------------------------------------
  // daily-chart.tsx
  // ---------------------------------------------------------------------------

  /** `r.diaSemana?.trim() || null`: rows with a blank day are skipped. */
  function DayKey(r: DataRow): Option<string> {
    var d := Trim(r.diaSemana.GetOr(""));
    if d == "" then None else Some(d)
  }

  /** A day's record: five counters and the set of RUTs with an appointment. */
  datatype DayAcc = DayAcc(cargada: nat, recorrido: nat, contactado: nat, citasRuts: set<string>, af: nat, mc: nat)

  const NoDay: DayAcc := DayAcc(0, 0, 0, {}, 0, 0)

  /** The RUT a row's appointment is counted under: `normalizeRut(r.rutBase)`, hyphen and all. */
  function RutOf(r: DataRow): string {
    Rut.NormalizeRut(Some(r.rutBase))
  }

  /** One row's increments in the daily chart's loop. */
  function AddDay(a: DayAcc, r: DataRow): DayAcc {
    DayAcc(a.cargada + 1, a.recorrido + Bump(IsRecorrido(r)), a.contactado + Bump(IsContactado(r)),
           if IsCita(r) then a.citasRuts + {RutOf(r)} else a.citasRuts,
           a.af + Bump(IsAfluencia(r)), a.mc + Bump(IsMatricula(r)))
  }

  /** The distinct keys of the rows that `keep` accepts. */
  function KeySet<R>(rows: seq<R>, keep: R -> bool, key: R -> string): set<string> {
    if rows == [] then {} else KeySet(Init(rows), keep, key) + (if keep(Last(rows)) then {key(Last(rows))} else {})
  }

  lemma {:induction false} KeySetMembers<R>(rows: seq<R>, keep: R -> bool, key: R -> string, u: string)
    ensures u in KeySet(rows, keep, key) <==> exists i | 0 <= i < |rows| :: keep(rows[i]) && key(rows[i]) == u
  {
    if rows != [] {
      KeySetMembers(Init(rows), keep, key, u);
      InitLast(rows);
      if exists i | 0 <= i < |rows| :: keep(rows[i]) && key(rows[i]) == u {
        var i :| 0 <= i < |rows| && keep(rows[i]) && key(rows[i]) == u;
        if i < |rows| - 1 {
          assert Init(rows)[i] == rows[i];
        }
      }
      if exists i | 0 <= i < |Init(rows)| :: keep(Init(rows)[i]) && key(Init(rows)[i]) == u {
        var i :| 0 <= i < |Init(rows)| && keep(Init(rows)[i]) && key(Init(rows)[i]) == u;
        assert rows[i] == Init(rows)[i];
      }
    }
  }

  lemma {:induction false} KeySetBound<R>(rows: seq<R>, keep: R -> bool, key: R -> string)
    ensures |KeySet(rows, keep, key)| <= Count(rows, keep)
  {
    if rows != [] {
      KeySetBound(Init(rows), keep, key);
    }
  }

  lemma KeySetPair<R>(r1: R, r2: R, keep: R -> bool, key: R -> string)
    requires keep(r1) && keep(r2)
    ensures KeySet([r1, r2], keep, key) == {key(r1), key(r2)}
  {
    assert Init([r1]) == [] && Last([r1]) == r1;
    assert KeySet([r1], keep, key) == {key(r1)};
    assert Init([r1, r2]) == [r1] && Last([r1, r2]) == r2;
    assert KeySet([r1, r2], keep, key) == KeySet([r1], keep, key) + {key(r2)};
  }

  /** The distinct RUTs of the rows with an appointment (`citasRuts`). */
  function CitaRuts(rows: seq<DataRow>): set<string> {
    KeySet(rows, IsCita, RutOf)
  }

  /** A RUT is listed exactly when some row with an appointment carries it. */
  lemma CitaRutsMembers(rows: seq<DataRow>, u: string)
    ensures u in CitaRuts(rows) <==> exists i | 0 <= i < |rows| :: IsCita(rows[i]) && RutOf(rows[i]) == u
  {
    KeySetMembers(rows, IsCita, RutOf, u);
  }

  /** Distinct RUTs are never more than the appointment rows. */
  lemma CitaRutsBound(rows: seq<DataRow>)
    ensures |CitaRuts(rows)| <= Count(rows, IsCita)
  {
    KeySetBound(rows, IsCita, RutOf);
  }

  /**
   * `normalizeRut` keeps the hyphen, so one RUT written with and without it
   * gives two keys: two appointment rows of the same person count twice.
   */
  lemma FormattedRutCountedTwice(r1: DataRow, r2: DataRow, a: string, b: string)
    requires IsCita(r1) && IsCita(r2)
    requires r1.rutBase == a + "-" + b && r2.rutBase == a + b
    requires a != [] && b != [] && !IsWhite(a[0]) && !IsWhite(b[|b| - 1])
    ensures CitaRuts([r1, r2]) == {RutOf(r1), RutOf(r2)}
    ensures DayFunnel([r1, r2]).citas == 2
  {
    KeySetPair(r1, r2, IsCita, RutOf);
    HyphenSplitsRutOf(r1, r2, a, b);
  }

  lemma HyphenSplitsRutOf(r1: DataRow, r2: DataRow, a: string, b: string)
    requires r1.rutBase == a + "-" + b && r2.rutBase == a + b
    requires a != [] && b != [] && !IsWhite(a[0]) && !IsWhite(b[|b| - 1])
    ensures RutOf(r1) != RutOf(r2)
  {
    Rut.HyphenSplitsKey(a, b);
  }

  /** The key the RUT class was evidently meant to give: dots, hyphens and white space removed. */
  function IntendedRutOf(r: DataRow): string {
    Rut.NormalizeRutIntended(Some(r.rutBase))
  }

  /** Under the intended key the same two appointment rows count once. */
  lemma FormattedRutCountedOnceIntended(r1: DataRow, r2: DataRow, a: string, b: string)
    requires IsCita(r1) && IsCita(r2)
    requires r1.rutBase == a + "-" + b && r2.rutBase == a + b
    ensures KeySet([r1, r2], IsCita, IntendedRutOf) == {IntendedRutOf(r2)}
    ensures |KeySet([r1, r2], IsCita, IntendedRutOf)| == 1
  {
    KeySetPair(r1, r2, IsCita, IntendedRutOf);
    IntendedSameRut(r1, r2, a, b);
  }

  lemma IntendedSameRut(r1: DataRow, r2: DataRow, a: string, b: string)
    requires r1.rutBase == a + "-" + b && r2.rutBase == a + b
    ensures IntendedRutOf(r1) == IntendedRutOf(r2)
  {
    Rut.IntendedIgnoresSeparator(a, '-', b);
    assert a + ['-'] + b == a + "-" + b;
  }

  /** What a day shows: the `computeTotals` counters, with citas as the number of distinct RUTs. */
  function DayFunnel(rows: seq<DataRow>): Funnel {
    FunnelOf(rows).(citas := |CitaRuts(rows)|)
  }

  lemma {:induction false} FoldDayRuts(rows: seq<DataRow>)
    ensures Fold(rows, NoDay, AddDay).citasRuts == CitaRuts(rows)
  {
    if rows != [] {
      FoldDayRuts(Init(rows));
    }
  }

  lemma {:induction false} FoldDayCounters(rows: seq<DataRow>)
    ensures var a := Fold(rows, NoDay, AddDay);
      && a.cargada == |rows| && a.recorrido == Count(rows, IsRecorrido) && a.contactado == Count(rows, IsContactado)
      && a.af == Count(rows, IsAfluencia) && a.mc == Count(rows, IsMatricula)
  {
    if rows != [] {
      FoldDayCounters(Init(rows));
    }
  }

  /** The daily loop's record for a day is its rows' counters and RUT set. */
  lemma FoldDay(rows: seq<DataRow>)
    ensures var a := Fold(rows, NoDay, AddDay);
      && a.citasRuts == CitaRuts(rows)
      && Funnel(a.cargada, a.recorrido, a.contactado, |a.citasRuts|, a.af, a.mc) == DayFunnel(rows)
  {
    FoldDayRuts(rows);
    FoldDayCounters(rows);
  }

  /** A day with some row: it appears in the map. */
  function Present(keys: seq<string>): string -> bool {
    d => d in keys
  }

  /** `DIAS_ORDER.filter(d => groups.has(d))` */
  function Days(rows: seq<DataRow>): seq<string> {
    Filter(DayOrder, Present(KeysOf(rows, DayKey)))
  }

  /** A day's counters as the chart reads them: `citasRuts.size` for citas. */
  function DayCounts(gs: seq<DayAcc>): (fs: seq<Funnel>)
    ensures |fs| == |gs|
  {
    seq(|gs|, i requires 0 <= i < |gs| =>
      Funnel(gs[i].cargada, gs[i].recorrido, gs[i].contactado, |gs[i].citasRuts|, gs[i].af, gs[i].mc))
  }

  /** After the daily loop, the records of the listed days read as their rows' `DayFunnel`. */
  lemma LookupDays(rows: seq<DataRow>, keys: seq<string>, groups: map<string, DayAcc>, days: seq<string>)
    requires forall k :: k in groups <==> k in keys
    requires forall k | k in groups :: groups[k] == Fold(Select(rows, DayKey, k), NoDay, AddDay)
    requires forall d | d in days :: d in keys
    ensures forall d | d in days :: d in groups
    ensures DayCounts(Lookup(groups, days)) == DayFunnels(rows, days)
  {
    forall i | 0 <= i < |days| ensures DayCounts(Lookup(groups, days))[i] == DayFunnels(rows, days)[i] {
      FoldDay(Select(rows, DayKey, days[i]));
    }
  }

  datatype DailyData = DailyData(days: seq<string>, series: Series)

  function DayFunnels(rows: seq<DataRow>, days: seq<string>): (fs: seq<Funnel>)
    ensures |fs| == |days|
    ensures forall i | 0 <= i < |days| :: fs[i] == DayFunnel(Select(rows, DayKey, days[i]))
  {
    seq(|days|, i requires 0 <= i < |days| => DayFunnel(Select(rows, DayKey, days[i])))
  }

  /** The daily chart's `chartData`. */
  method DailyChartData(rows: seq<DataRow>) returns (data: Option<DailyData>)
    ensures data.None? <==> rows == []
    ensures data.Some? ==> data.value == DailyData(Days(rows), SeriesOf(DayFunnels(rows, Days(rows))))
  {
    if |rows| == 0 {
      return None;
    }
    var keys, groups := GroupFold(rows, DayKey, NoDay, AddDay);
    var days := Filter(DayOrder, Present(keys));
    LookupDays(rows, keys, groups, days);
    data := Some(DailyData(days, SeriesOf(DayCounts(Lookup(groups, days)))));
  }

  /**
   * The days shown are the days of the week some row carries, Monday
   * first; a row whose day is not one of the seven labels is never shown.
   */
  lemma DaysShown(rows: seq<DataRow>, d: string)
    ensures d in Days(rows) <==> d in DayOrder && exists i | 0 <= i < |rows| :: DayKey(rows[i]) == Some(d)
    ensures NoDup(Days(rows))
    ensures forall i, j | 0 <= i < j < |Days(rows)| :: DayIndex(Days(rows)[i]) < DayIndex(Days(rows)[j])
  {
    DayOrderSorted();
    FilterSorted(DayOrder, Present(KeysOf(rows, DayKey)), DayBefore);
    FilterNoDup(DayOrder, Present(KeysOf(rows, DayKey)));
    SelectNonEmpty(rows, DayKey, d);
    assert Present(KeysOf(rows, DayKey))(d) == (d in KeysOf(rows, DayKey));
  }

  /**
   * A day's citas count distinct RUTs among its appointment rows, so they
   * never exceed those rows; the other counters narrow as in `computeTotals`.
   */
  lemma DayBounds(rows: seq<DataRow>, d: string)
    ensures var g := Select(rows, DayKey, d);
      && DayFunnel(g).citas <= Count(g, IsCita)
      && DayFunnel(g).cargada == |g|
      && DayFunnel(g).contactado <= DayFunnel(g).recorrido <= DayFunnel(g).cargada
  {
    CitaRutsBound(Select(rows, DayKey, d));
    GroupBounds(rows, DayKey, d);
  }

  // ---------------------------------------------------------------------------
  // evolution-chart.tsx
  // ---------------------------------------------------------------------------

  /** `Array.from(groups.keys()).sort((a, b) => a - b)`: every non-null month, 0 included. */
  function EvolutionMonths(rows: seq<DataRow>): seq<int> {
    SortDistinct(KeysOf(rows, FilterOptions.MesOf), IntLt)
  }

  datatype EvolutionData = EvolutionData(labels: seq<string>, recorrido: seq<nat>, contactado: seq<nat>,
                                         citas: seq<nat>, af: seq<nat>, mc: seq<nat>)

  /** The evolution chart's five series over the listed months. */
  function EvolutionOf(months: seq<int>, fs: seq<Funnel>): EvolutionData
    requires |fs| == |months|
  {
    var s := SeriesOf(fs);
    EvolutionData(MapSeq(months, MonthLabel), s.recorrido, s.contactado, s.citas, s.af, s.mc)
  }

  /** The evolution chart's `chartData`. */
  method EvolutionChartData(rows: seq<DataRow>) returns (data: Option<EvolutionData>)
    ensures data.None? <==> rows == []
    ensures data.Some? ==>
      var months := EvolutionMonths(rows);
      data.value == EvolutionOf(months, GroupFunnels(rows, FilterOptions.MesOf, months))
  {
    if |rows| == 0 {
      return None;
    }
    var keys, groups := GroupFold(rows, FilterOptions.MesOf, NoCounts, StepBy(TotalsRules));
    var months := SortDistinct(keys, IntLt);
    IntLtIsOrder();
    SortDistinctCorrect(keys, IntLt);
    LookupFunnels(rows, FilterOptions.MesOf, keys, groups, months);
    data := Some(EvolutionOf(months, Lookup(groups, months)));
  }

  /**
   * The months are ascending and are exactly the non-null months of the
   * rows; unlike `computeTrend`, month 0 is kept.
   */
  lemma EvolutionMonthsMembers(rows: seq<DataRow>, m: int)
    ensures StrictlySorted(EvolutionMonths(rows), IntLt)
    ensures m in EvolutionMonths(rows) <==> exists i | 0 <= i < |rows| :: rows[i].mes == Some(m)
    ensures (exists i | 0 <= i < |rows| :: rows[i].mes == Some(0)) ==>
              0 in EvolutionMonths(rows) && 0 !in TrendMonths(rows)
  {
    IntLtIsOrder();
    SortDistinctCorrect(KeysOf(rows, FilterOptions.MesOf), IntLt);
    SelectNonEmpty(rows, FilterOptions.MesOf, m);
    SelectNonEmpty(rows, FilterOptions.MesOf, 0);
    TrendMonthsSorted(rows);
  }

  /** Each label reads "Mes m" for its month, and in each month reached rows were called. */
  lemma EvolutionValues(rows: seq<DataRow>, i: nat)
    requires i < |EvolutionMonths(rows)|
    ensures var months := EvolutionMonths(rows);
      var e := EvolutionOf(months, GroupFunnels(rows, FilterOptions.MesOf, months));
      && e.labels[i] == MonthLabel(months[i])
      && e.contactado[i] <= e.recorrido[i] <= |Select(rows, FilterOptions.MesOf, months[i])|
  {
    GroupBounds(rows, FilterOptions.MesOf, EvolutionMonths(rows)[i]);
  }

  // ---------------------------------------------------------------------------
  // metric-breakdown-chart.tsx
  // ---------------------------------------------------------------------------

  datatype BreakdownMetric = AfMetric | McMetric

  datatype Dimension = CampusDimension | RegimenDimension

  /** `isAfluenciaRow` and `isMatriculaRow`: the same codes `computeTotals` counts. */
  function Qualifies(m: BreakdownMetric): DataRow -> bool {
    match m
    case AfMetric => IsAfluencia
    case McMetric => IsMatricula
  }

  /** `(metric === "af" ? row.afCampus : row.mcCampus) ?? row.sedeInteres` */
  function CampusField(m: BreakdownMetric, r: DataRow): Option<string> {
    var v := if m == AfMetric then r.afCampus else r.mcCampus;
    if v.Some? then v else r.sedeInteres
  }

  /** `(row.regimen?.trim() || "Sin Régimen").toUpperCase()` */
  function RegimenLabel(r: DataRow): string {
    var t := Trim(r.regimen.GetOr(""));
    Upper(if t == "" then "Sin R\U{00E9}gimen" else t)
  }

  function BreakdownLabel(m: BreakdownMetric, d: Dimension, r: DataRow): string {
    match d
    case CampusDimension => Campus.ToCampusFullName(CampusField(m, r))
    case RegimenDimension => RegimenLabel(r)
  }

  /** A counted row's label; rows failing the metric are skipped. */
  function BreakdownKey(m: BreakdownMetric, d: Dimension): DataRow -> Option<string> {
    r => if Qualifies(m)(r) then Some(BreakdownLabel(m, d, r)) else None
  }

  /** `grouped.set(label, (grouped.get(label) ?? 0) + 1)` */
  function Tally(n: nat, r: DataRow): nat {
    n + 1
  }

  lemma {:induction false} FoldTally(rows: seq<DataRow>)
    ensures Fold(rows, 0, Tally) == |rows|
  {
    if rows != [] {
      FoldTally(Init(rows));
    }
  }

  /** After the counting loop, the counts of any listing of the labels are their groups' sizes. */
  lemma LookupTallies(rows: seq<DataRow>, key: DataRow -> Option<string>, keys: seq<string>, grouped: map<string, nat>,
                      labels: seq<string>)
    requires forall k :: k in grouped <==> k in keys
    requires forall k | k in grouped :: grouped[k] == Fold(Select(rows, key, k), 0, Tally)
    requires forall k :: k in labels <==> k in keys
    ensures forall k | k in labels :: k in grouped
    ensures Lookup(grouped, labels) == MapSeq(labels, Sizes(rows, key))
  {
    forall i | 0 <= i < |labels| ensures Lookup(grouped, labels)[i] == MapSeq(labels, Sizes(rows, key))[i] {
      FoldTally(Select(rows, key, labels[i]));
    }
  }

  /** The entries' comparator: larger count first, then label order. */
  function RankBefore(count: string -> nat): (string, string) -> bool {
    (a, b) => count(a) > count(b) || (count(a) == count(b) && StrLt(a, b))
  }

  lemma RankIsOrder(count: string -> nat)
    ensures IsStrictTotalOrder(RankBefore(count))
  {
    StrLtIsOrder();
  }

  /** The labels in the chart's order. */
  function Ranked(rows: seq<DataRow>, m: BreakdownMetric, d: Dimension): seq<string> {
    var key := BreakdownKey(m, d);
    SortDistinct(KeysOf(rows, key), RankBefore(Sizes(rows, key)))
  }

  datatype Breakdown = Breakdown(labels: seq<string>, data: seq<nat>)

  /** The breakdown chart's `entries`, as labels and counts. */
  method MetricBreakdown(rows: seq<DataRow>, m: BreakdownMetric, d: Dimension) returns (b: Breakdown)
    ensures b.labels == Ranked(rows, m, d)
    ensures b.data == MapSeq(b.labels, Sizes(rows, BreakdownKey(m, d)))
  {
    var key := BreakdownKey(m, d);
    var keys, grouped := GroupFold(rows, key, 0, Tally);
    var labels := SortDistinct(keys, RankBefore(Sizes(rows, key)));
    RankIsOrder(Sizes(rows, key));
    SortDistinctCorrect(keys, RankBefore(Sizes(rows, key)));
    LookupTallies(rows, key, keys, grouped, labels);
    b := Breakdown(labels, Lookup(grouped, labels));
  }

  /**
   * The labels are distinct, each counts at least one row, larger counts
   * come first with ties in label order, and the counts add up to the rows
   * that satisfy the metric.
   */
  lemma BreakdownRanking(rows: seq<DataRow>, m: BreakdownMetric, d: Dimension)
    ensures var labels := Ranked(rows, m, d);
      var count := Sizes(rows, BreakdownKey(m, d));
      && NoDup(labels)
      && (forall i | 0 <= i < |labels| :: count(labels[i]) >= 1)
      && (forall i, j | 0 <= i < j < |labels| ::
            count(labels[i]) > count(labels[j]) || (count(labels[i]) == count(labels[j]) && StrLt(labels[i], labels[j])))
      && SumOver(labels, count) == Count(rows, Qualifies(m))
  {
    var key := BreakdownKey(m, d);
    var labels := Ranked(rows, m, d);
    RankIsOrder(Sizes(rows, key));
    SortDistinctCorrect(KeysOf(rows, key), RankBefore(Sizes(rows, key)));
    StrictlySortedNoDup(labels, RankBefore(Sizes(rows, key)));
    forall i | 0 <= i < |labels| ensures Sizes(rows, key)(labels[i]) >= 1 {
      assert labels[i] in KeysOf(rows, key);
    }
    PartitionAnyOrder(rows, key, labels);
    CountSameRows(rows, HasKey(key), Qualifies(m));
  }

  /** Two tests that agree on every row count the same rows. */
  lemma {:induction false} CountSameRows(rows: seq<DataRow>, p: DataRow -> bool, q: DataRow -> bool)
    requires forall r :: p(r) == q(r)
    ensures Count(rows, p) == Count(rows, q)
  {
    if rows != [] {
      CountSameRows(Init(rows), p, q);
    }
  }

  /** A campus field that is present, even blank, is used; only a missing one falls back to `sedeInteres`. */
  lemma CampusFallback(m: BreakdownMetric, r: DataRow)
    ensures (if m == AfMetric then r.afCampus else r.mcCampus).Some? ==>
              BreakdownLabel(m, CampusDimension, r) == Campus.ToCampusFullName(if m == AfMetric then r.afCampus else r.mcCampus)
    ensures (if m == AfMetric then r.afCampus else r.mcCampus).None? ==>
              BreakdownLabel(m, CampusDimension, r) == Campus.ToCampusFullName(r.sedeInteres)
  {
  }

  /** A blank or missing régimen is shown as "SIN RÉGIMEN". */
  lemma BlankRegimen(r: DataRow)
    requires r.regimen.None? || IsBlank(r.regimen.value)
    ensures RegimenLabel(r) == "SIN R\U{00C9}GIMEN"
  {
    if r.regimen.Some? {
      TrimBlankIffAllWhite(r.regimen.value);
    }
  }

  // ---------------------------------------------------------------------------
  // regimen-breakdown-chart.tsx and campus-breakdown-chart.tsx
  // ---------------------------------------------------------------------------

  /** Every row joins the group of its upper-cased régimen. */
  function RegimenKey(r: DataRow): Option<string> {
    Some(RegimenLabel(r))
  }

  /** `(row.sedeInteres?.trim() || "Sin Campus").toUpperCase()`, with no code-to-name mapping. */
  function SedeLabel(r: DataRow): string {
    var t := Trim(r.sedeInteres.GetOr(""));
    Upper(if t == "" then "Sin Campus" else t)
  }

  function SedeKey(r: DataRow): Option<string> {
    Some(SedeLabel(r))
  }

  datatype AfMc = AfMc(afluencias: nat, matriculas: nat)

  function AddAfMc(a: AfMc, r: DataRow): AfMc {
    AfMc(a.afluencias + Bump(IsAfluencia(r)), a.matriculas + Bump(IsMatricula(r)))
  }

  lemma {:induction false} FoldAfMc(rows: seq<DataRow>)
    ensures Fold(rows, AfMc(0, 0), AddAfMc) == AfMc(Count(rows, IsAfluencia), Count(rows, IsMatricula))
  {
    if rows != [] {
      FoldAfMc(Init(rows));
    }
  }

  datatype AfMcChart = AfMcChart(labels: seq<string>, afluencias: seq<nat>, matriculas: seq<nat>)

  /** The labels of a breakdown by `key`, in code-unit order. */
  function Labels(rows: seq<DataRow>, key: DataRow -> Option<string>): seq<string> {
    SortDistinct(KeysOf(rows, key), StrLt)
  }

  /** The chart the two breakdown widgets draw for their grouping. */
  function AfMcOf(rows: seq<DataRow>, key: DataRow -> Option<string>): (c: AfMcChart)
    ensures |c.labels| == |c.afluencias| == |c.matriculas|
  {
    var labels := Labels(rows, key);
    AfMcChart(labels,
              seq(|labels|, i requires 0 <= i < |labels| => Count(Select(rows, key, labels[i]), IsAfluencia)),
              seq(|labels|, i requires 0 <= i < |labels| => Count(Select(rows, key, labels[i]), IsMatricula)))
  }

  /** The loop and sort shared by the régimen and campus breakdown widgets. */
  method AfMcBreakdown(rows: seq<DataRow>, key: DataRow -> Option<string>) returns (c: AfMcChart)
    ensures c == AfMcOf(rows, key)
  {
    var keys, grouped := GroupFold(rows, key, AfMc(0, 0), AddAfMc);
    var labels := SortDistinct(keys, StrLt);
    StrLtIsOrder();
    SortDistinctCorrect(keys, StrLt);
    forall l | l in labels
      ensures l in grouped
      ensures grouped[l] == AfMc(Count(Select(rows, key, l), IsAfluencia), Count(Select(rows, key, l), IsMatricula))
    {
      FoldAfMc(Select(rows, key, l));
    }
    var af := seq(|labels|, i requires 0 <= i < |labels| => grouped[labels[i]].afluencias);
    var mc := seq(|labels|, i requires 0 <= i < |labels| => grouped[labels[i]].matriculas);
    c := AfMcChart(labels, af, mc);
  }

  /** `RegimenBreakdownChart`'s option data. */
  method RegimenBreakdown(rows: seq<DataRow>) returns (c: AfMcChart)
    ensures c == AfMcOf(rows, RegimenKey)
  {
    c := AfMcBreakdown(rows, RegimenKey);
  }

  /** `CampusBreakdownChart`'s option data. */
  method CampusBreakdown(rows: seq<DataRow>) returns (c: AfMcChart)
    ensures c == AfMcOf(rows, SedeKey)
  {
    c := AfMcBreakdown(rows, SedeKey);
  }

  /**
   * Every row creates or joins a group, so a label is listed exactly when
   * some row carries it, whether or not any row of it counts; the labels
   * are in code-unit order.
   */
  lemma AfMcGroups(rows: seq<DataRow>, labelOf: DataRow -> string, key: DataRow -> Option<string>, l: string)
    requires forall r :: key(r) == Some(labelOf(r))
    ensures var c := AfMcOf(rows, key);
      && StrictlySorted(c.labels, StrLt)
      && (l in c.labels <==> exists i | 0 <= i < |rows| :: labelOf(rows[i]) == l)
  {
    StrLtIsOrder();
    SortDistinctCorrect(KeysOf(rows, key), StrLt);
    SelectNonEmpty(rows, key, l);
  }

  /** A régimen whose rows have no AF or MC code still gets a bar pair, both zero. */
  lemma ZeroGroupShown(r: DataRow)
    requires !IsAfluencia(r) && !IsMatricula(r)
    ensures AfMcOf([r], RegimenKey) == AfMcChart([RegimenLabel(r)], [0], [0])
  {
    ZeroGroup(r, RegimenKey, RegimenLabel(r));
  }

  lemma ZeroGroup(r: DataRow, key: DataRow -> Option<string>, l: string)
    requires key(r) == Some(l) && !IsAfluencia(r) && !IsMatricula(r)
    ensures AfMcOf([r], key) == AfMcChart([l], [0], [0])
  {
    SingleRowGroup(r, key, l);
    var c := AfMcOf([r], key);
    assert c.labels == [l];
    assert Init([r]) == [] && Last([r]) == r;
    assert c.afluencias == [0] by {
      assert |c.afluencias| == 1 && c.afluencias[0] == Count([r], IsAfluencia);
    }
    assert c.matriculas == [0] by {
      assert |c.matriculas| == 1 && c.matriculas[0] == Count([r], IsMatricula);
    }
  }

  /** One row makes one group, labelled by its key, holding that row. */
  lemma SingleRowGroup(r: DataRow, key: DataRow -> Option<string>, l: string)
    requires key(r) == Some(l)
    ensures Labels([r], key) == [l]
    ensures Select([r], key, l) == [r]
  {
    assert Init([r]) == [] && Last([r]) == r;
    assert KeysOf([r], key) == [l];
    assert [l][..0] == [] && [l][0] == l;
    assert SortDistinct([l][..0], StrLt) == [];
    assert InsertSorted(l, [], StrLt) == [l];
  }
}
