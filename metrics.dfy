/**
 * Funnel metrics over contact rows (src/lib/data-processing/metrics.ts):
 * the row predicates every counter uses, `computeTotals` with its six core
 * rates and four legacy aliases, and the monthly stock/web `computeTrend`.
 *
 * Rates are exact reals (`Js.Ratio`); the source divides floating-point
 * numbers.
 */
module Metrics {
  import opened Wrappers
  import opened Text
  import opened Js
  import opened Rows
  import opened Ordering
  import opened Grouping

  // ---------------------------------------------------------------------------
  // Row predicates
  // ---------------------------------------------------------------------------

  /** `row.conecta?.trim().toLowerCase() ?? ""` */
  function ConectaKey(r: DataRow): string {
    Lower(Trim(r.conecta.GetOr("")))
  }

  /** Called: "Conecta" or "No Conecta". */
  predicate IsRecorrido(r: DataRow) {
    ConectaKey(r) == "conecta" || ConectaKey(r) == "no conecta"
  }

  /** Reached: "Conecta" only. */
  predicate IsContactado(r: DataRow) {
    ConectaKey(r) == "conecta"
  }

  /** An appointment: interesa is exactly "viene" once trimmed and lower-cased. */
  predicate IsCita(r: DataRow) {
    Lower(Trim(r.interesa.GetOr(""))) == "viene"
  }

  /** `row.af?.trim().toUpperCase() ?? ""` */
  function AfCode(r: DataRow): string {
    Upper(Trim(r.af.GetOr("")))
  }

  /** `row.mc?.trim().toUpperCase() ?? ""` */
  function McCode(r: DataRow): string {
    Upper(Trim(r.mc.GetOr("")))
  }

  /** A visit (afluencia): AF code A, MC or M. */
  predicate IsAfluencia(r: DataRow) {
    AfCode(r) == "A" || AfCode(r) == "MC" || AfCode(r) == "M"
  }

  /** An enrolment (matrícula): MC code M or MC. */
  predicate IsMatricula(r: DataRow) {
    McCode(r) == "M" || McCode(r) == "MC"
  }

  // ---------------------------------------------------------------------------
  // The six counters
  // ---------------------------------------------------------------------------

  /** The funnel counters the dashboard computes for a set of rows. */
  datatype Funnel = Funnel(cargada: nat, recorrido: nat, contactado: nat, citas: nat, af: nat, mc: nat)

  /**
   * Which rows each counter after `cargada` counts. `computeTotals` and the
   * charts use `TotalsRules`; the snapshot aggregation counts citas
   * differently.
   */
  datatype Rules = Rules(
    recorrido: DataRow -> bool,
    contactado: DataRow -> bool,
    cita: DataRow -> bool,
    afluencia: DataRow -> bool,
    matricula: DataRow -> bool)

  const TotalsRules: Rules := Rules(IsRecorrido, IsContactado, IsCita, IsAfluencia, IsMatricula)

  /** Rules under which every reached row was also called. */
  ghost predicate Narrowing(rules: Rules) {
    forall r :: rules.contactado(r) ==> rules.recorrido(r)
  }

  lemma TotalsRulesNarrow()
    ensures Narrowing(TotalsRules)
  {
  }

  /** What the counters mean: every row, and the rows each rule accepts. */
  function FunnelBy(rows: seq<DataRow>, rules: Rules): Funnel {
    Funnel(|rows|, Count(rows, rules.recorrido), Count(rows, rules.contactado), Count(rows, rules.cita),
           Count(rows, rules.afluencia), Count(rows, rules.matricula))
  }

  /** The counters of `computeTotals` and of every chart group. */
  function FunnelOf(rows: seq<DataRow>): Funnel {
    FunnelBy(rows, TotalsRules)
  }

  const NoCounts: Funnel := Funnel(0, 0, 0, 0, 0, 0)

  function Bump(b: bool): nat {
    if b then 1 else 0
  }

  /** One row's increments, as the counting loops apply them. */
  function AddBy(rules: Rules, f: Funnel, r: DataRow): Funnel {
    Funnel(f.cargada + 1, f.recorrido + Bump(rules.recorrido(r)), f.contactado + Bump(rules.contactado(r)),
           f.citas + Bump(rules.cita(r)), f.af + Bump(rules.afluencia(r)), f.mc + Bump(rules.matricula(r)))
  }

  /** `AddBy` as the step of a fold. */
  function StepBy(rules: Rules): (Funnel, DataRow) -> Funnel {
    (f, r) => AddBy(rules, f, r)
  }

  lemma FunnelBySnoc(rows: seq<DataRow>, r: DataRow, rules: Rules)
    ensures FunnelBy(rows + [r], rules) == AddBy(rules, FunnelBy(rows, rules), r)
  {
    CountSnoc(rows, r, rules.recorrido);
    CountSnoc(rows, r, rules.contactado);
    CountSnoc(rows, r, rules.cita);
    CountSnoc(rows, r, rules.afluencia);
    CountSnoc(rows, r, rules.matricula);
  }

  /** Incrementing row by row counts exactly the rows each rule accepts. */
  lemma {:induction false} FoldIsFunnelBy(rows: seq<DataRow>, rules: Rules)
    ensures Fold(rows, NoCounts, StepBy(rules)) == FunnelBy(rows, rules)
  {
    if rows != [] {
      FoldIsFunnelBy(Init(rows), rules);
      InitLast(rows);
      FunnelBySnoc(Init(rows), Last(rows), rules);
    }
  }

  /** The counting loop shared by `computeTotals` and the snapshot aggregation. */
  method CountFunnel(rows: seq<DataRow>, rules: Rules) returns (f: Funnel)
    ensures f == FunnelBy(rows, rules)
  {
    var cargada: nat, recorrido: nat, contactado: nat, citas: nat, af: nat, mc: nat := 0, 0, 0, 0, 0, 0;
    for i := 0 to |rows|
      invariant Funnel(cargada, recorrido, contactado, citas, af, mc) == FunnelBy(rows[..i], rules)
    {
      var row := rows[i];
      PrefixSnoc(rows, i);
      FunnelBySnoc(rows[..i], row, rules);
      cargada := cargada + 1;
      if rules.recorrido(row) {
        recorrido := recorrido + 1;
      }
      if rules.contactado(row) {
        contactado := contactado + 1;
      }
      if rules.cita(row) {
        citas := citas + 1;
      }
      if rules.afluencia(row) {
        af := af + 1;
      }
      if rules.matricula(row) {
        mc := mc + 1;
      }
    }
    assert rows[..|rows|] == rows;
    f := Funnel(cargada, recorrido, contactado, citas, af, mc);
  }

  /**
   * The funnel narrows: every row is loaded, no counter exceeds the number
   * of rows, and under narrowing rules reached rows were called.
   */
  lemma FunnelBounds(rows: seq<DataRow>, rules: Rules)
    ensures var f := FunnelBy(rows, rules);
            && f.cargada == |rows|
            && f.recorrido <= f.cargada && f.contactado <= f.cargada
            && f.citas <= f.cargada && f.af <= f.cargada && f.mc <= f.cargada
            && (Narrowing(rules) ==> f.contactado <= f.recorrido)
  {
    if Narrowing(rules) {
      CountMono(rows, rules.contactado, rules.recorrido);
    }
  }

  // ---------------------------------------------------------------------------
  // computeTotals
  // ---------------------------------------------------------------------------

  /** `Totals` */
  datatype Totals = Totals(
    cargada: nat,
    recorrido: nat,
    contactado: nat,
    citas: nat,
    af: nat,
    mc: nat,
    tcLlaLeads: Option<real>,
    tcContLla: Option<real>,
    cCitasCon: Option<real>,
    tcAfCitas: Option<real>,
    tcMcAf: Option<real>,
    cMcLeads: Option<real>,
    pctContactabilidad: Option<real>,
    pctEfectividad: Option<real>,
    tcAf: Option<real>,
    tcMc: Option<real>)

  /** The six core rates and the four legacy aliases, each `den > 0 ? num / den : null`. */
  function WithRates(f: Funnel): Totals {
    var tcContLla := Ratio(f.contactado, f.recorrido);
    var tcAfCitas := Ratio(f.af, f.citas);
    Totals(f.cargada, f.recorrido, f.contactado, f.citas, f.af, f.mc,
           Ratio(f.recorrido, f.cargada), tcContLla, Ratio(f.citas, f.contactado),
           tcAfCitas, Ratio(f.mc, f.af), Ratio(f.mc, f.cargada),
           tcContLla, Ratio(f.af + f.mc, f.citas), tcAfCitas, Ratio(f.mc, f.citas))
  }

  function TotalsOf(rows: seq<DataRow>): Totals {
    WithRates(FunnelOf(rows))
  }

  /** `computeTotals(rows)` */
  method ComputeTotals(rows: seq<DataRow>) returns (t: Totals)
    ensures t == TotalsOf(rows)
  {
    var counts := CountFunnel(rows, TotalsRules);
    t := WithRates(counts);
  }

  /** The counters of `computeTotals` are the row counts of the predicates, and the funnel narrows. */
  lemma TotalsCounts(rows: seq<DataRow>)
    ensures var t := TotalsOf(rows);
            && t.cargada == |rows|
            && t.recorrido == Count(rows, IsRecorrido)
            && t.contactado == Count(rows, IsContactado)
            && t.citas == Count(rows, IsCita)
            && t.af == Count(rows, IsAfluencia)
            && t.mc == Count(rows, IsMatricula)
            && t.contactado <= t.recorrido <= t.cargada
  {
    FunnelBounds(rows, TotalsRules);
    TotalsRulesNarrow();
  }

  /** Each rate is null exactly when its denominator is zero, and otherwise numerator over denominator. */
  lemma TotalsRates(f: Funnel)
    ensures var t := WithRates(f);
            && (t.tcLlaLeads.None? <==> t.cargada == 0)
            && (t.tcContLla.None? <==> t.recorrido == 0)
            && (t.cCitasCon.None? <==> t.contactado == 0)
            && (t.tcAfCitas.None? <==> t.citas == 0)
            && (t.tcMcAf.None? <==> t.af == 0)
            && (t.cMcLeads.None? <==> t.cargada == 0)
            && (t.tcLlaLeads.Some? ==> t.tcLlaLeads.value * t.cargada as real == t.recorrido as real)
            && (t.tcContLla.Some? ==> t.tcContLla.value * t.recorrido as real == t.contactado as real)
            && (t.cCitasCon.Some? ==> t.cCitasCon.value * t.contactado as real == t.citas as real)
            && (t.tcAfCitas.Some? ==> t.tcAfCitas.value * t.citas as real == t.af as real)
            && (t.tcMcAf.Some? ==> t.tcMcAf.value * t.af as real == t.mc as real)
            && (t.cMcLeads.Some? ==> t.cMcLeads.value * t.cargada as real == t.mc as real)
  {
  }

  /** Loaded-to-called, called-to-reached and enrolled-per-lead are fractions. */
  lemma RatesInUnit(rows: seq<DataRow>)
    ensures var t := TotalsOf(rows);
            && (t.tcLlaLeads.Some? ==> 0.0 <= t.tcLlaLeads.value <= 1.0)
            && (t.tcContLla.Some? ==> 0.0 <= t.tcContLla.value <= 1.0)
            && (t.cMcLeads.Some? ==> 0.0 <= t.cMcLeads.value <= 1.0)
  {
    var f := FunnelOf(rows);
    FunnelBounds(rows, TotalsRules);
    TotalsRulesNarrow();
    RatioInUnit(f.recorrido, f.cargada);
    RatioInUnit(f.contactado, f.recorrido);
    RatioInUnit(f.mc, f.cargada);
  }

  /** The legacy fields: two aliases, and two rates over citas that are null when citas is zero. */
  lemma LegacyAliases(f: Funnel)
    ensures var t := WithRates(f);
            && t.pctContactabilidad == t.tcContLla
            && t.tcAf == t.tcAfCitas
            && (t.pctEfectividad.None? <==> t.citas == 0)
            && (t.tcMc.None? <==> t.citas == 0)
            && (t.pctEfectividad.Some? ==> t.pctEfectividad.value * t.citas as real == (t.af + t.mc) as real)
            && (t.tcMc.Some? ==> t.tcMc.value * t.citas as real == t.mc as real)
  {
  }

  // ---------------------------------------------------------------------------
  // computeTrend
  // ---------------------------------------------------------------------------

  /** Rows with a truthy month are grouped by it; `null` and 0 are skipped. */
  function MonthKey(r: DataRow): Option<int> {
    if r.mes.Some? && r.mes.value != 0 then r.mes else None
  }

  /** `row.tipoBase?.toLowerCase().includes("web")` */
  predicate IsWeb(r: DataRow) {
    Contains(Lower(r.tipoBase), "web")
  }

  predicate IsStock(r: DataRow) {
    !IsWeb(r)
  }

  datatype StockWeb = StockWeb(stock: nat, web: nat)

  function AddTrend(a: StockWeb, r: DataRow): StockWeb {
    if IsWeb(r) then a.(web := a.web + 1) else a.(stock := a.stock + 1)
  }

  /** A month's record counts its web rows and all the others as stock. */
  lemma {:induction false} FoldTrend(rows: seq<DataRow>)
    ensures Fold(rows, StockWeb(0, 0), AddTrend) == StockWeb(Count(rows, IsStock), Count(rows, IsWeb))
  {
    if rows != [] {
      FoldTrend(Init(rows));
    }
  }

  /** The months shown, ascending. */
  function TrendMonths(rows: seq<DataRow>): seq<int> {
    SortDistinct(KeysOf(rows, MonthKey), IntLt)
  }

  function MonthLabel(m: int): string {
    "Mes " + IntToString(m)
  }

  datatype Trend = Trend(labels: seq<string>, dataStock: seq<nat>, dataWeb: seq<nat>)

  /** `computeTrend(rows)` */
  method ComputeTrend(rows: seq<DataRow>) returns (trend: Trend)
    ensures var months := TrendMonths(rows);
            && |trend.labels| == |trend.dataStock| == |trend.dataWeb| == |months|
            && forall i | 0 <= i < |months| ::
                 && trend.labels[i] == MonthLabel(months[i])
                 && trend.dataStock[i] == Count(Select(rows, MonthKey, months[i]), IsStock)
                 && trend.dataWeb[i] == Count(Select(rows, MonthKey, months[i]), IsWeb)
  {
    var keys, grouped := GroupFold(rows, MonthKey, StockWeb(0, 0), AddTrend);
    var months := SortDistinct(keys, IntLt);
    IntLtIsOrder();
    SortDistinctCorrect(keys, IntLt);
    forall m | m in months
      ensures m in grouped && grouped[m] == StockWeb(Count(Select(rows, MonthKey, m), IsStock), Count(Select(rows, MonthKey, m), IsWeb))
    {
      FoldTrend(Select(rows, MonthKey, m));
    }
    var labels := seq(|months|, i requires 0 <= i < |months| => MonthLabel(months[i]));
    var dataStock := seq(|months|, i requires 0 <= i < |months| => grouped[months[i]].stock);
    var dataWeb := seq(|months|, i requires 0 <= i < |months| => grouped[months[i]].web);
    trend := Trend(labels, dataStock, dataWeb);
  }

  /** The months are strictly ascending, and a month is listed exactly when some row has it and it is not 0. */
  lemma TrendMonthsSorted(rows: seq<DataRow>)
    ensures StrictlySorted(TrendMonths(rows), IntLt)
    ensures forall m :: m in TrendMonths(rows) <==> m != 0 && exists i | 0 <= i < |rows| :: rows[i].mes == Some(m)
  {
    IntLtIsOrder();
    SortDistinctCorrect(KeysOf(rows, MonthKey), IntLt);
    forall m ensures m in TrendMonths(rows) <==> m != 0 && exists i | 0 <= i < |rows| :: rows[i].mes == Some(m) {
      SelectNonEmpty(rows, MonthKey, m);
    }
  }

  /** Per month, stock plus web is the month's row count; over all months they add up to the rows with a month. */
  lemma TrendSplitsRows(rows: seq<DataRow>)
    ensures forall m ::
      Count(Select(rows, MonthKey, m), IsStock) + Count(Select(rows, MonthKey, m), IsWeb) == |Select(rows, MonthKey, m)|
    ensures SumOver(TrendMonths(rows), Sizes(rows, MonthKey)) == Count(rows, HasKey(MonthKey))
  {
    forall m ensures Count(Select(rows, MonthKey, m), IsStock) + Count(Select(rows, MonthKey, m), IsWeb) == |Select(rows, MonthKey, m)| {
      CountSplit(Select(rows, MonthKey, m), IsStock, IsWeb);
    }
    var ms := TrendMonths(rows);
    IntLtIsOrder();
    SortDistinctCorrect(KeysOf(rows, MonthKey), IntLt);
    StrictlySortedNoDup(ms, IntLt);
    PartitionAnyOrder(rows, MonthKey, ms);
  }
}
