/**
 * The weekly summary (src/lib/metrics/resumen-semanal.ts): appointments
 * ("citas") grouped by week, with the called, usable, visit and enrolment
 * counters of each week, their percentages, the "TOTALES" row and the rows
 * left out, plus the sanity check that compares the totals with the sum of
 * the week rows.
 *
 * Percentages are exact reals (`Js.RatioOrZero`); the source divides
 * floating-point numbers.
 */
module ResumenSemanal {
  import opened Wrappers
  import opened Text
  import opened Js
  import opened Rows
  import opened Ordering
  import opened Grouping
  import Metrics

  // ---------------------------------------------------------------------------
  // Row predicates
  // ---------------------------------------------------------------------------

  /** `norm(v)`: the trimmed text, or null when nothing is left. */
  function Norm(v: Option<string>): (r: Option<string>)
    ensures r.None? <==> IsBlank(v.GetOr(""))
    ensures r.Some? ==> r.value == Trim(v.value) && r.value != []
  {
    var s := Trim(v.GetOr(""));
    if |s| > 0 then Some(s) else None
  }

  /** `equalsCi(a, b)`: `a`, trimmed, equals `b` ignoring case. */
  predicate EqualsCi(a: Option<string>, b: string) {
    Lower(Trim(a.GetOr(""))) == Lower(b)
  }

  /** An appointment that can be counted: it has a RUT and a load date. */
  predicate IsValidCitaRow(r: DataRow) {
    Norm(Some(r.rutBase)).Some? && r.fechaCarga.Some?
  }

  /** The appointment was worked: it has a management date. */
  predicate IsRecorridoRow(r: DataRow) {
    r.fechaGestion.Some?
  }

  /** The call connected. */
  predicate IsUsableRow(r: DataRow) {
    EqualsCi(r.conecta, "Conecta")
  }

  /** The interest answer is one of `values`, both sides trimmed and lower-cased. */
  predicate IsAfluenciaRow(r: DataRow, values: set<string>) {
    var interesa := Lower(Trim(r.interesa.GetOr("")));
    interesa != [] && exists v | v in values :: interesa == Lower(Trim(v))
  }

  /** An enrolment: the MC column is not blank. */
  predicate IsMatriculaRow(r: DataRow) {
    Norm(r.mc).Some?
  }

  /** A visit of any kind: the AF column is not blank (`isAfTotalRow`). */
  predicate IsAfTotalRow(r: DataRow) {
    Norm(r.af).Some?
  }

  // ---------------------------------------------------------------------------
  // Week counters
  // ---------------------------------------------------------------------------

  /** The five counters of a week, or of the totals. */
  datatype Tally = Tally(citas: nat, recorrido: nat, usables: nat, afluencias: nat, matriculas: nat)

  const NoTally: Tally := Tally(0, 0, 0, 0, 0)

  /** Which rows each counter after `citas` counts. */
  datatype WeekRules = WeekRules(
    recorrido: DataRow -> bool,
    usable: DataRow -> bool,
    afluencia: DataRow -> bool,
    matricula: DataRow -> bool)

  function AfluenciaFor(values: set<string>): DataRow -> bool {
    r => IsAfluenciaRow(r, values)
  }

  function RulesFor(values: set<string>): WeekRules {
    WeekRules(IsRecorridoRow, IsUsableRow, AfluenciaFor(values), IsMatriculaRow)
  }

  /** What a week's counters mean: its rows, and those each rule accepts. */
  function TallyBy(rows: seq<DataRow>, rules: WeekRules): Tally {
    Tally(|rows|, Count(rows, rules.recorrido), Count(rows, rules.usable), Count(rows, rules.afluencia),
          Count(rows, rules.matricula))
  }

  function Bump(b: bool): nat {
    if b then 1 else 0
  }

  /** One row's increments, as the grouping loop applies them. */
  function AddRow(rules: WeekRules, g: Tally, r: DataRow): Tally {
    Tally(g.citas + 1, g.recorrido + Bump(rules.recorrido(r)), g.usables + Bump(rules.usable(r)),
          g.afluencias + Bump(rules.afluencia(r)), g.matriculas + Bump(rules.matricula(r)))
  }

  function RowStep(rules: WeekRules): (Tally, DataRow) -> Tally {
    (g, r) => AddRow(rules, g, r)
  }

  lemma TallyBySnoc(rows: seq<DataRow>, r: DataRow, rules: WeekRules)
    ensures TallyBy(rows + [r], rules) == AddRow(rules, TallyBy(rows, rules), r)
  {
    CountSnoc(rows, r, rules.recorrido);
    CountSnoc(rows, r, rules.usable);
    CountSnoc(rows, r, rules.afluencia);
    CountSnoc(rows, r, rules.matricula);
  }

  /** Incrementing row by row counts exactly the rows each rule accepts. */
  lemma {:induction false} FoldIsTallyBy(rows: seq<DataRow>, rules: WeekRules)
    ensures Fold(rows, NoTally, RowStep(rules)) == TallyBy(rows, rules)
  {
    if rows != [] {
      FoldIsTallyBy(Init(rows), rules);
      InitLast(rows);
      TallyBySnoc(Init(rows), Last(rows), rules);
    }
  }

  /** The counter updates of one row, written as the source's `if` statements. */
  method AddRowTo(g: Tally, r: DataRow, rules: WeekRules) returns (g': Tally)
    ensures g' == AddRow(rules, g, r)
  {
    g' := g.(citas := g.citas + 1);
    if rules.recorrido(r) { g' := g'.(recorrido := g'.recorrido + 1); }
    if rules.usable(r) { g' := g'.(usables := g'.usables + 1); }
    if rules.afluencia(r) { g' := g'.(afluencias := g'.afluencias + 1); }
    if rules.matricula(r) { g' := g'.(matriculas := g'.matriculas + 1); }
  }

  // ---------------------------------------------------------------------------
  // Options, classification and week keys
  // ---------------------------------------------------------------------------

  /** The optional second argument of `calcResumenSemanal`; `None` is an absent field. */
  datatype ResumenOptions = ResumenOptions(excludeMissingSemana: Option<bool>, afluenciaValues: Option<set<string>>)

  const DefaultAfluencia: set<string> := {"viene"}

  function Exclude(opts: ResumenOptions): bool {
    opts.excludeMissingSemana.GetOr(true)
  }

  function Values(opts: ResumenOptions): set<string> {
    opts.afluenciaValues.GetOr(DefaultAfluencia)
  }

  /** The group of a row without a week, when such rows are kept. */
  const NoSemana: string := "Semana N/A"

  /** The label of the totals row. */
  const Totales: string := "TOTALES"

  /**
   * How the loop reads a row: whether it is a valid appointment, its week
   * label, and the four counters. The summary and its properties are stated
   * for any classifier; `ClassifierFor` is the source's.
   */
  datatype Classifier = Classifier(valid: DataRow -> bool, semana: DataRow -> Option<string>, rules: WeekRules)

  function SemanaOf(r: DataRow): Option<string> {
    Norm(r.semana)
  }

  function ClassifierFor(values: set<string>): Classifier {
    Classifier(IsValidCitaRow, SemanaOf, RulesFor(values))
  }

  /** The week a row is counted under, or `None` when the loop skips it. */
  function KeyOf(c: Classifier, exclude: bool, r: DataRow): Option<string> {
    if !c.valid(r) then None
    else match c.semana(r)
      case Some(s) => Some(s)
      case None => if exclude then None else Some(NoSemana)
  }

  function WeekKey(c: Classifier, exclude: bool): DataRow -> Option<string> {
    r => KeyOf(c, exclude, r)
  }

  /** Rows counted in `excluded.invalidCitas`. */
  function Invalid(c: Classifier): DataRow -> bool {
    r => !c.valid(r)
  }

  /** Rows counted in `excluded.missingSemana`, whether or not they are then skipped. */
  function Missing(c: Classifier): DataRow -> bool {
    r => c.valid(r) && c.semana(r).None?
  }

  /** The rows the loop skips when rows without a week are excluded. */
  function Skipped(c: Classifier): DataRow -> bool {
    r => !c.valid(r) || c.semana(r).None?
  }

  // ---------------------------------------------------------------------------
  // Result rows
  // ---------------------------------------------------------------------------

  /** `ResumenSemanalRow` */
  datatype ResumenRow = ResumenRow(
    semana: string,
    citas: nat,
    recorrido: nat,
    usables: nat,
    afluencias: nat,
    matriculas: nat,
    pctRecorrido: real,
    pctUsables: real,
    pctAfluencia: real,
    pctMatriculas: real)

  /** `ResumenExclusion` */
  datatype Exclusion = Exclusion(invalidCitas: nat, missingSemana: nat)

  /** `ResumenSemanalResult` */
  datatype ResumenResult = ResumenResult(rows: seq<ResumenRow>, totals: ResumenRow, excluded: Exclusion)

  /** A row with its counters and the four `safeDiv` percentages. */
  function WithPcts(semana: string, g: Tally): ResumenRow {
    ResumenRow(semana, g.citas, g.recorrido, g.usables, g.afluencias, g.matriculas,
               RatioOrZero(g.recorrido, g.citas), RatioOrZero(g.usables, g.recorrido),
               RatioOrZero(g.afluencias, g.recorrido), RatioOrZero(g.matriculas, g.recorrido))
  }

  function TallyOf(r: ResumenRow): Tally {
    Tally(r.citas, r.recorrido, r.usables, r.afluencias, r.matriculas)
  }

  function Plus(a: Tally, b: Tally): Tally {
    Tally(a.citas + b.citas, a.recorrido + b.recorrido, a.usables + b.usables,
          a.afluencias + b.afluencias, a.matriculas + b.matriculas)
  }

  /** The counters of `rs` added field by field (the `reduce` of both functions). */
  function SumTallies(rs: seq<ResumenRow>): Tally {
    if rs == [] then NoTally else Plus(SumTallies(Init(rs)), TallyOf(Last(rs)))
  }

  // ---------------------------------------------------------------------------
  // Week order
  // ---------------------------------------------------------------------------

  /**
   * The comparator of `sortedWeeks`: by the number formed by a label's
   * digits (no digits reads as 0), then by the label itself.
   */
  predicate WeekLt(a: string, b: string) {
    DigitsNumber(a) < DigitsNumber(b) || (DigitsNumber(a) == DigitsNumber(b) && StrLt(a, b))
  }

  lemma WeekLtIsOrder()
    ensures IsStrictTotalOrder(WeekLt)
  {
    forall a ensures !WeekLt(a, a) {
      StrLtIrreflexive(a);
    }
    forall a, b, c | WeekLt(a, b) && WeekLt(b, c) ensures WeekLt(a, c) {
      if DigitsNumber(a) == DigitsNumber(b) == DigitsNumber(c) {
        StrLtTransitive(a, b, c);
      }
    }
    forall a, b | a != b ensures WeekLt(a, b) || WeekLt(b, a) {
      StrLtTotal(a, b);
    }
  }

  /** Labels "Semana n" sort by n, so "Semana 2" comes before "Semana 10". */
  lemma WeekLabelsByNumber(n: nat, m: nat)
    requires n != m
    ensures WeekLt("Semana " + NatToString(n), "Semana " + NatToString(m)) <==> n < m
  {
    DigitsNumberOfLabel("Semana ", n);
    DigitsNumberOfLabel("Semana ", m);
  }

  // ---------------------------------------------------------------------------
  // calcResumenSemanal
  // ---------------------------------------------------------------------------

  /** The weeks of the result, in order. */
  function SortedWeeks(rows: seq<DataRow>, c: Classifier, exclude: bool): seq<string> {
    SortDistinct(KeysOf(rows, WeekKey(c, exclude)), WeekLt)
  }

  /** The result row of week `w`. */
  function WeekRowFn(rows: seq<DataRow>, c: Classifier, exclude: bool): string -> ResumenRow {
    w => WithPcts(w, TallyBy(Select(rows, WeekKey(c, exclude), w), c.rules))
  }

  /** The summary of `rows` under classifier `c`. */
  function SummaryBy(rows: seq<DataRow>, c: Classifier, exclude: bool): ResumenResult {
    var weekRows := MapSeq(SortedWeeks(rows, c, exclude), WeekRowFn(rows, c, exclude));
    ResumenResult(weekRows, WithPcts(Totales, SumTallies(weekRows)),
                  Exclusion(Count(rows, Invalid(c)), Count(rows, Missing(c))))
  }

  /** What `calcResumenSemanal(rows, opts)` returns. */
  function ResumenOf(rows: seq<DataRow>, opts: ResumenOptions): ResumenResult {
    SummaryBy(rows, ClassifierFor(Values(opts)), Exclude(opts))
  }

  /** `calcResumenSemanal` */
  method CalcResumenSemanal(rows: seq<DataRow>, opts: ResumenOptions) returns (res: ResumenResult)
    ensures res == ResumenOf(rows, opts)
  {
    var excludeMissingSemana := opts.excludeMissingSemana.GetOr(true);
    var afluenciaValues := opts.afluenciaValues.GetOr(DefaultAfluencia);
    res := Summarize(rows, ClassifierFor(afluenciaValues), excludeMissingSemana);
  }

  /** The body of `calcResumenSemanal`: the counting pass, then the sort, the week rows and the totals. */
  method Summarize(rows: seq<DataRow>, c: Classifier, exclude: bool) returns (res: ResumenResult)
    ensures res == SummaryBy(rows, c, exclude)
  {
    var invalidCitas, missingSemana, keys, groups := CountWeeks(rows, c, exclude);
    var sortedWeeks := SortDistinct(keys, WeekLt);
    WeekLtIsOrder();
    SortDistinctCorrect(keys, WeekLt);
    var resumenRows := seq(|sortedWeeks|, j requires 0 <= j < |sortedWeeks| => WithPcts(sortedWeeks[j], groups[sortedWeeks[j]]));
    RowsFromGroups(rows, c, exclude, groups, sortedWeeks, resumenRows);
    var totalsCounts := AddUp(resumenRows);
    res := ResumenResult(resumenRows, WithPcts(Totales, totalsCounts), Exclusion(invalidCitas, missingSemana));
  }

  /** Week rows read from the groups the loop built are the specified week rows. */
  lemma RowsFromGroups(rows: seq<DataRow>, c: Classifier, exclude: bool, groups: map<string, Tally>,
                       ws: seq<string>, rs: seq<ResumenRow>)
    requires forall k | k in groups :: groups[k] == Fold(Select(rows, WeekKey(c, exclude), k), NoTally, RowStep(c.rules))
    requires |rs| == |ws|
    requires forall j | 0 <= j < |ws| :: ws[j] in groups && rs[j] == WithPcts(ws[j], groups[ws[j]])
    ensures rs == MapSeq(ws, WeekRowFn(rows, c, exclude))
  {
    forall j | 0 <= j < |ws|
      ensures rs[j] == WeekRowFn(rows, c, exclude)(ws[j])
    {
      FoldIsTallyBy(Select(rows, WeekKey(c, exclude), ws[j]), c.rules);
    }
  }

  /** What the loop of `calcResumenSemanal` has computed after the rows `done`. */
  ghost predicate Counted(done: seq<DataRow>, c: Classifier, exclude: bool, invalidCitas: nat, missingSemana: nat,
                          keys: seq<string>, groups: map<string, Tally>) {
    && invalidCitas == Count(done, Invalid(c))
    && missingSemana == Count(done, Missing(c))
    && Grouped(done, WeekKey(c, exclude), NoTally, RowStep(c.rules), keys, groups)
  }

  /** A row the loop skips: it bumps at most the exclusion counters. */
  lemma CountedSkip(done: seq<DataRow>, r: DataRow, c: Classifier, exclude: bool, invalidCitas: nat, missingSemana: nat,
                    keys: seq<string>, groups: map<string, Tally>)
    requires Counted(done, c, exclude, invalidCitas, missingSemana, keys, groups)
    requires KeyOf(c, exclude, r).None?
    ensures Counted(done + [r], c, exclude, invalidCitas + Bump(Invalid(c)(r)), missingSemana + Bump(Missing(c)(r)),
                    keys, groups)
  {
    CountSnoc(done, r, Invalid(c));
    CountSnoc(done, r, Missing(c));
    GroupedSkip(done, r, WeekKey(c, exclude), NoTally, RowStep(c.rules), keys, groups);
  }

  /** A row counted under week `key`: its group is created if needed and bumped. */
  lemma CountedEnter(done: seq<DataRow>, r: DataRow, c: Classifier, exclude: bool, invalidCitas: nat, missingSemana: nat,
                     keys: seq<string>, groups: map<string, Tally>, key: string)
    requires Counted(done, c, exclude, invalidCitas, missingSemana, keys, groups)
    requires KeyOf(c, exclude, r) == Some(key)
    ensures var g := if key in groups then groups[key] else NoTally;
      Counted(done + [r], c, exclude, invalidCitas, missingSemana + Bump(Missing(c)(r)),
              if key in groups then keys else keys + [key], groups[key := AddRow(c.rules, g, r)])
  {
    CountSnoc(done, r, Invalid(c));
    CountSnoc(done, r, Missing(c));
    GroupedEnter(done, r, WeekKey(c, exclude), NoTally, RowStep(c.rules), keys, groups, key);
  }

  /** The loop of `calcResumenSemanal`: the exclusion counters and the week groups in first-seen order. */
  method CountWeeks(rows: seq<DataRow>, c: Classifier, exclude: bool)
    returns (invalidCitas: nat, missingSemana: nat, keys: seq<string>, groups: map<string, Tally>)
    ensures invalidCitas == Count(rows, Invalid(c))
    ensures missingSemana == Count(rows, Missing(c))
    ensures keys == KeysOf(rows, WeekKey(c, exclude))
    ensures forall k :: k in groups <==> k in keys
    ensures forall k | k in groups :: groups[k] == Fold(Select(rows, WeekKey(c, exclude), k), NoTally, RowStep(c.rules))
  {
    invalidCitas, missingSemana := 0, 0;
    keys, groups := [], map[];
    for i := 0 to |rows|
      invariant Counted(rows[..i], c, exclude, invalidCitas, missingSemana, keys, groups)
    {
      var r := rows[i];
      PrefixSnoc(rows, i);
      ghost var missing0, groups0 := missingSemana, groups;
      if !c.valid(r) {
        CountedSkip(rows[..i], r, c, exclude, invalidCitas, missingSemana, keys, groups);
        invalidCitas := invalidCitas + 1;
        continue;
      }
      var semana := c.semana(r);
      if semana.None? {
        missingSemana := missingSemana + 1;
        if exclude {
          CountedSkip(rows[..i], r, c, exclude, invalidCitas, missing0, keys, groups);
          continue;
        }
      }
      var key := semana.GetOr(NoSemana);
      CountedEnter(rows[..i], r, c, exclude, invalidCitas, missing0, keys, groups, key);
      ghost var g0 := if key in groups then groups[key] else NoTally;
      if key !in groups {
        keys := keys + [key];
        groups := groups[key := NoTally];
      }
      assert groups[key] == g0;
      var g := AddRowTo(groups[key], r, c.rules);
      UpdateTwice(groups0, key, NoTally, g);
      groups := groups[key := g];
    }
    assert rows[..|rows|] == rows;
  }

  /** The `reduce` that adds up the week rows' counters. */
  method AddUp(rs: seq<ResumenRow>) returns (totals: Tally)
    ensures totals == SumTallies(rs)
  {
    totals := NoTally;
    for j := 0 to |rs|
      invariant totals == SumTallies(rs[..j])
    {
      PrefixSnoc(rs, j);
      assert Init(rs[..j + 1]) == rs[..j];
      totals := Plus(totals, TallyOf(rs[j]));
    }
    assert rs[..|rs|] == rs;
  }

  // ---------------------------------------------------------------------------
  // runResumenSemanalSanityChecks
  // ---------------------------------------------------------------------------

  datatype SanityReport = SanityReport(ok: bool, message: string)

  /** `JSON.stringify` of the five counters, in the source's key order. */
  function TallyJson(g: Tally): string {
    "{\"citas\":" + NatToString(g.citas) + ",\"recorrido\":" + NatToString(g.recorrido)
    + ",\"usables\":" + NatToString(g.usables) + ",\"afluencias\":" + NatToString(g.afluencias)
    + ",\"matriculas\":" + NatToString(g.matriculas) + "}"
  }

  /** `runResumenSemanalSanityChecks(res)` */
  function RunSanityChecks(res: ResumenResult): (report: SanityReport)
    ensures report.ok <==> SumTallies(res.rows) == TallyOf(res.totals)
    ensures report.ok ==> report.message == "ResumenSemanal sanity OK"
    ensures !report.ok ==>
      report.message == "ResumenSemanal mismatch: sum=" + TallyJson(SumTallies(res.rows))
                        + " totals=" + TallyJson(TallyOf(res.totals))
  {
    var sum := SumTallies(res.rows);
    var ok := sum == TallyOf(res.totals);
    SanityReport(ok, if ok then "ResumenSemanal sanity OK"
                     else "ResumenSemanal mismatch: sum=" + TallyJson(sum) + " totals=" + TallyJson(TallyOf(res.totals)))
  }

  // ---------------------------------------------------------------------------
  // Properties
  // ---------------------------------------------------------------------------

  /** The totals row is always the sum of the week rows: the sanity check passes. */
  lemma SanityCheckPasses(rows: seq<DataRow>, opts: ResumenOptions)
    ensures RunSanityChecks(ResumenOf(rows, opts)).ok
    ensures ResumenOf(rows, opts).totals.semana == Totales
  {
  }

  /** The week rows are strictly ordered by `WeekLt`, so no week appears twice. */
  lemma WeeksOrdered(rows: seq<DataRow>, c: Classifier, exclude: bool)
    ensures var res := SummaryBy(rows, c, exclude);
      forall i, j | 0 <= i < j < |res.rows| :: WeekLt(res.rows[i].semana, res.rows[j].semana)
  {
    WeekLtIsOrder();
    SortDistinctCorrect(KeysOf(rows, WeekKey(c, exclude)), WeekLt);
  }

  /** The week rows are labelled by the sorted weeks, one row each. */
  lemma SummaryLabels(rows: seq<DataRow>, c: Classifier, exclude: bool)
    ensures var res := SummaryBy(rows, c, exclude);
            var weeks := SortedWeeks(rows, c, exclude);
      |res.rows| == |weeks| && forall i | 0 <= i < |weeks| :: res.rows[i].semana == weeks[i]
  {
  }

  /** A week has a row exactly when some counted row carries it. */
  lemma WeekPresent(rows: seq<DataRow>, c: Classifier, exclude: bool, w: string)
    ensures var res := SummaryBy(rows, c, exclude);
      (exists i | 0 <= i < |res.rows| :: res.rows[i].semana == w)
      <==> (exists k | 0 <= k < |rows| :: KeyOf(c, exclude, rows[k]) == Some(w))
  {
    WeekRowIff(rows, c, exclude, w);
    SortedWeekIff(rows, c, exclude, w);
  }

  lemma WeekRowIff(rows: seq<DataRow>, c: Classifier, exclude: bool, w: string)
    ensures var res := SummaryBy(rows, c, exclude);
      (exists i | 0 <= i < |res.rows| :: res.rows[i].semana == w) <==> w in SortedWeeks(rows, c, exclude)
  {
    var weeks := SortedWeeks(rows, c, exclude);
    SummaryLabels(rows, c, exclude);
    if w in weeks {
      var i :| 0 <= i < |weeks| && weeks[i] == w;
      assert SummaryBy(rows, c, exclude).rows[i].semana == w;
    }
  }

  lemma SortedWeekIff(rows: seq<DataRow>, c: Classifier, exclude: bool, w: string)
    ensures w in SortedWeeks(rows, c, exclude) <==> exists k | 0 <= k < |rows| :: KeyOf(c, exclude, rows[k]) == Some(w)
  {
    WeekLtIsOrder();
    SortDistinctCorrect(KeysOf(rows, WeekKey(c, exclude)), WeekLt);
    SelectNonEmpty(rows, WeekKey(c, exclude), w);
    assert forall k | 0 <= k < |rows| :: WeekKey(c, exclude)(rows[k]) == KeyOf(c, exclude, rows[k]);
  }

  /**
   * Each week row counts at least one appointment, its other counters never
   * exceed its appointments, and its `pctRecorrido` lies in [0, 1].
   */
  lemma WeekRowBounds(rows: seq<DataRow>, c: Classifier, exclude: bool, i: nat)
    requires i < |SummaryBy(rows, c, exclude).rows|
    ensures var w := SummaryBy(rows, c, exclude).rows[i];
      && 1 <= w.citas
      && w.recorrido <= w.citas && w.usables <= w.citas && w.afluencias <= w.citas && w.matriculas <= w.citas
      && 0.0 <= w.pctRecorrido <= 1.0
  {
    var weeks := SortedWeeks(rows, c, exclude);
    WeekLtIsOrder();
    SortDistinctCorrect(KeysOf(rows, WeekKey(c, exclude)), WeekLt);
    assert weeks[i] in KeysOf(rows, WeekKey(c, exclude));
    var w := SummaryBy(rows, c, exclude).rows[i];
    RatioInUnit(w.recorrido, w.citas);
  }

  function CitasOf(f: string -> ResumenRow): string -> int {
    w => f(w).citas
  }

  lemma {:induction false} SumCitasOfMap(ws: seq<string>, f: string -> ResumenRow)
    ensures SumTallies(MapSeq(ws, f)).citas == SumOver(ws, CitasOf(f))
  {
    if ws != [] {
      SumCitasOfMap(Init(ws), f);
      assert Init(MapSeq(ws, f)) == MapSeq(Init(ws), f);
    }
  }

  /** The totals count the appointments of every week: the rows that have a week. */
  lemma TotalCitas(rows: seq<DataRow>, c: Classifier, exclude: bool)
    ensures SummaryBy(rows, c, exclude).totals.citas == Count(rows, HasKey(WeekKey(c, exclude)))
  {
    var key := WeekKey(c, exclude);
    var weeks := SortedWeeks(rows, c, exclude);
    var f := WeekRowFn(rows, c, exclude);
    WeekLtIsOrder();
    SortDistinctCorrect(KeysOf(rows, key), WeekLt);
    StrictlySortedNoDup(weeks, WeekLt);
    SumCitasOfMap(weeks, f);
    SumOverExt(weeks, CitasOf(f), Sizes(rows, key));
    PartitionAnyOrder(rows, key, weeks);
  }

  /**
   * Every input row is accounted for: when rows without a week are excluded
   * it is invalid, without a week, or counted in a week; when they are kept
   * it is invalid or counted.
   */
  lemma RowsAccounted(rows: seq<DataRow>, c: Classifier, exclude: bool)
    ensures var res := SummaryBy(rows, c, exclude);
      exclude ==> |rows| == res.excluded.invalidCitas + res.excluded.missingSemana + res.totals.citas
    ensures var res := SummaryBy(rows, c, exclude);
      !exclude ==> |rows| == res.excluded.invalidCitas + res.totals.citas
  {
    TotalCitas(rows, c, exclude);
    var key := WeekKey(c, exclude);
    if exclude {
      CountDisjoint(rows, Invalid(c), Missing(c), Skipped(c));
      CountSplit(rows, Skipped(c), HasKey(key));
    } else {
      CountSplit(rows, Invalid(c), HasKey(key));
    }
  }

  /**
   * When rows without a week are kept, they are all counted in the
   * "Semana N/A" row.
   */
  lemma MissingWeekKept(rows: seq<DataRow>, c: Classifier)
    ensures var res := SummaryBy(rows, c, false);
      res.excluded.missingSemana > 0 ==>
        exists i | 0 <= i < |res.rows| :: res.rows[i].semana == NoSemana && res.rows[i].citas >= res.excluded.missingSemana
  {
    var res := SummaryBy(rows, c, false);
    var key := WeekKey(c, false);
    CountWithinGroup(rows, Missing(c), key, NoSemana);
    if res.excluded.missingSemana > 0 {
      var weeks := SortedWeeks(rows, c, false);
      WeekLtIsOrder();
      SortDistinctCorrect(KeysOf(rows, key), WeekLt);
      assert NoSemana in weeks;
      var i :| 0 <= i < |weeks| && weeks[i] == NoSemana;
      assert res.rows[i].semana == NoSemana;
    }
  }

  /**
   * `calcResumenSemanal` with any options: sorted distinct weeks, bounded
   * week rows, and every row accounted for.
   */
  lemma ResumenProperties(rows: seq<DataRow>, opts: ResumenOptions)
    ensures var res := ResumenOf(rows, opts);
      forall i, j | 0 <= i < j < |res.rows| :: WeekLt(res.rows[i].semana, res.rows[j].semana)
    ensures var res := ResumenOf(rows, opts);
      forall i | 0 <= i < |res.rows| :: 1 <= res.rows[i].citas && res.rows[i].recorrido <= res.rows[i].citas
    ensures var res := ResumenOf(rows, opts);
      |rows| == res.excluded.invalidCitas + (if Exclude(opts) then res.excluded.missingSemana else 0) + res.totals.citas
  {
    var c := ClassifierFor(Values(opts));
    WeeksOrdered(rows, c, Exclude(opts));
    forall i | 0 <= i < |ResumenOf(rows, opts).rows|
      ensures 1 <= ResumenOf(rows, opts).rows[i].citas
      ensures ResumenOf(rows, opts).rows[i].recorrido <= ResumenOf(rows, opts).rows[i].citas
    {
      WeekRowBounds(rows, c, Exclude(opts), i);
    }
    RowsAccounted(rows, c, Exclude(opts));
  }

  /** The usable rows are the reached rows of the dashboard totals. */
  lemma UsableIsContactado(r: DataRow)
    ensures IsUsableRow(r) <==> Metrics.IsContactado(r)
  {
    assert Lower("Conecta") == "conecta";
  }

  /** With the default values, the visit rows are the appointments of the dashboard totals. */
  lemma DefaultAfluenciaIsCita(r: DataRow)
    ensures IsAfluenciaRow(r, DefaultAfluencia) <==> Metrics.IsCita(r)
  {
    DefaultValueMatch(Lower(Trim(r.interesa.GetOr(""))));
  }

  /** The only normalised value matching the default set is `"viene"`. */
  lemma DefaultValueMatch(s: string)
    ensures (s != [] && exists v | v in DefaultAfluencia :: s == Lower(Trim(v))) <==> s == "viene"
  {
    var x := "viene";
    assert DefaultAfluencia == {x};
    VieneNormalized();
    SingleValueMatch(s, x);
  }

  /** Against a one-value set whose value is already normalised, matching is equality. */
  lemma SingleValueMatch(s: string, x: string)
    requires Lower(Trim(x)) == x && x != []
    ensures (s != [] && exists v | v in {x} :: s == Lower(Trim(v))) <==> s == x
  {
    if s == x {
      assert x in {x};
    }
  }

  lemma VieneNormalized()
    ensures Lower(Trim("viene")) == "viene"
  {
    assert Trim("viene") == "viene";
  }

  /** A visit or an enrolment of the dashboard totals is also one here. */
  lemma TotalsCodesNotBlank(r: DataRow)
    ensures Metrics.IsAfluencia(r) ==> IsAfTotalRow(r)
    ensures Metrics.IsMatricula(r) ==> IsMatriculaRow(r)
  {
  }
}
