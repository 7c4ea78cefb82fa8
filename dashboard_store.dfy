/**
 * The dashboard's state (src/store/dashboard-store.ts): the filters, the
 * pure `applyFilters` and `computeFilteredTotals`, and the store whose
 * actions replace the dataset, merge partial filter updates and reset them.
 */
module DashboardStore {
  import opened Wrappers
  import opened Rows
  import opened Grouping
  import Metrics

  // ---------------------------------------------------------------------------
  // Filters
  // ---------------------------------------------------------------------------

  /**
   * A filter field: `All` is the source's `"All"` (no filter), `Only(v)` one
   * value rows must carry. The source's `"All"` string is always read as `All`,
   * so `Only` never holds `"All"`.
   */
  datatype Choice<T> = All | Only(value: T)

  /** `Filters`; an empty `semanas` list selects every week. */
  datatype Filters = Filters(tipo: Choice<string>, mes: Choice<int>, diaNumero: Choice<int>, semanas: seq<string>)

  /** `DEFAULT_FILTERS` */
  const DefaultFilters: Filters := Filters(All, All, All, [])

  /** `Partial<Filters>`: `None` is a field the update does not mention. */
  datatype FiltersPatch = FiltersPatch(
    tipo: Option<Choice<string>>,
    mes: Option<Choice<int>>,
    diaNumero: Option<Choice<int>>,
    semanas: Option<seq<string>>)

  const EmptyPatch: FiltersPatch := FiltersPatch(None, None, None, None)

  /** `{ ...filters, ...patch }` */
  function Merge(f: Filters, p: FiltersPatch): Filters {
    Filters(p.tipo.GetOr(f.tipo), p.mes.GetOr(f.mes), p.diaNumero.GetOr(f.diaNumero), p.semanas.GetOr(f.semanas))
  }

  /** `{ ...p, ...q }` on two patches. */
  function Then(p: FiltersPatch, q: FiltersPatch): FiltersPatch {
    FiltersPatch(if q.tipo.Some? then q.tipo else p.tipo, if q.mes.Some? then q.mes else p.mes,
                 if q.diaNumero.Some? then q.diaNumero else p.diaNumero,
                 if q.semanas.Some? then q.semanas else p.semanas)
  }

  /** Merging two updates one after the other is merging their combination; the empty update changes nothing. */
  lemma MergeThen(f: Filters, p: FiltersPatch, q: FiltersPatch)
    ensures Merge(Merge(f, p), q) == Merge(f, Then(p, q))
    ensures Merge(f, EmptyPatch) == f
    ensures Merge(Merge(f, p), p) == Merge(f, p)
  {
  }

  /** The test `applyFilters` applies to one row. */
  predicate Keep(f: Filters, r: DataRow) {
    && (f.tipo.Only? ==> r.tipoBase == f.tipo.value)
    && (f.mes.Only? ==> r.mes == Some(f.mes.value))
    && (f.diaNumero.Only? ==> r.diaNumero == Some(f.diaNumero.value))
    && (|f.semanas| > 0 ==> r.semana.GetOr("") in f.semanas)
  }

  function KeepFn(f: Filters): DataRow -> bool {
    r => Keep(f, r)
  }

  /** `applyFilters(rows, filters)` */
  function ApplyFilters(rows: seq<DataRow>, f: Filters): (kept: seq<DataRow>)
    ensures |kept| <= |rows|
    ensures forall i | 0 <= i < |kept| :: Keep(f, kept[i])
  {
    if rows == [] then []
    else ApplyFilters(Init(rows), f) + (if Keep(f, Last(rows)) then [Last(rows)] else [])
  }

  /** A row is kept exactly when it is an input row that passes every active filter. */
  lemma {:induction false} ApplyFiltersMembers(rows: seq<DataRow>, f: Filters)
    ensures forall r :: r in ApplyFilters(rows, f) <==> r in rows && Keep(f, r)
  {
    if rows != [] {
      ApplyFiltersMembers(Init(rows), f);
      InitLast(rows);
    }
  }

  /** Filtering distributes over concatenation, so kept rows stay in input order. */
  lemma {:induction false} ApplyFiltersAppend(a: seq<DataRow>, b: seq<DataRow>, f: Filters)
    ensures ApplyFilters(a + b, f) == ApplyFilters(a, f) + ApplyFilters(b, f)
    decreases |b|
  {
    if b == [] {
      assert a + b == a;
    } else {
      assert Init(a + b) == a + Init(b);
      assert Last(a + b) == Last(b);
      ApplyFiltersAppend(a, Init(b), f);
    }
  }

  /** The number of kept rows is the number of rows passing the filters. */
  lemma {:induction false} ApplyFiltersCount(rows: seq<DataRow>, f: Filters)
    ensures |ApplyFilters(rows, f)| == Count(rows, KeepFn(f))
  {
    if rows != [] {
      ApplyFiltersCount(Init(rows), f);
    }
  }

  /** When every row passes, every row is kept. */
  lemma {:induction false} ApplyFiltersKeepsAll(rows: seq<DataRow>, f: Filters)
    requires forall i | 0 <= i < |rows| :: Keep(f, rows[i])
    ensures ApplyFilters(rows, f) == rows
  {
    if rows != [] {
      ApplyFiltersKeepsAll(Init(rows), f);
      InitLast(rows);
    }
  }

  /** The default filters keep every row. */
  lemma DefaultKeepsAll(rows: seq<DataRow>)
    ensures ApplyFilters(rows, DefaultFilters) == rows
  {
    ApplyFiltersKeepsAll(rows, DefaultFilters);
  }

  /** Filtering twice with the same filters keeps the same rows. */
  lemma ApplyFiltersIdempotent(rows: seq<DataRow>, f: Filters)
    ensures ApplyFilters(ApplyFilters(rows, f), f) == ApplyFilters(rows, f)
  {
    ApplyFiltersKeepsAll(ApplyFilters(rows, f), f);
  }

  /** `computeFilteredTotals(dataset, filters)` */
  function ComputeFilteredTotals(dataset: Option<Dataset<DataRow>>, f: Filters): (t: Option<Metrics.Totals>)
    ensures t.None? <==> dataset.None?
    ensures t.Some? ==> t.value == Metrics.TotalsOf(ApplyFilters(dataset.value.rows, f))
  {
    match dataset
    case None => None
    case Some(d) => Some(Metrics.TotalsOf(ApplyFilters(d.rows, f)))
  }

  /** With the default filters the totals are those of the whole dataset. */
  lemma DefaultTotals(d: Dataset<DataRow>)
    ensures ComputeFilteredTotals(Some(d), DefaultFilters) == Some(Metrics.TotalsOf(d.rows))
  {
    DefaultKeepsAll(d.rows);
  }

  // ---------------------------------------------------------------------------
  // The store
  // ---------------------------------------------------------------------------

  datatype ComparisonMode = Week | Day

  datatype View = Overview | Analytics | Reports | Live

  const DefaultWidgetOrder: seq<string> :=
    ["kpi-1", "kpi-2", "kpi-3", "kpi-4", "chart-main", "gauge-group", "funnel", "table"]

  /** `useDashboardStore`: the state and its actions. */
  class Store {
    var dataset: Option<Dataset<DataRow>>
    var filters: Filters
    var comparisonMode: ComparisonMode
    var currentView: View
    var widgetOrder: seq<string>

    /** The initial state. */
    constructor()
      ensures dataset == None && filters == DefaultFilters
      ensures comparisonMode == Week && currentView == Overview && widgetOrder == DefaultWidgetOrder
    {
      dataset := None;
      filters := DefaultFilters;
      comparisonMode := Week;
      currentView := Overview;
      widgetOrder := DefaultWidgetOrder;
    }

    /** `setDataset`: a new dataset always starts unfiltered. */
    method SetDataset(d: Option<Dataset<DataRow>>)
      modifies this
      ensures dataset == d && filters == DefaultFilters
      ensures comparisonMode == old(comparisonMode) && currentView == old(currentView)
      ensures widgetOrder == old(widgetOrder)
    {
      dataset := d;
      filters := DefaultFilters;
    }

    /** `setFilters`: only the fields the update mentions change. */
    method SetFilters(p: FiltersPatch)
      modifies this
      ensures filters == Merge(old(filters), p)
      ensures dataset == old(dataset) && comparisonMode == old(comparisonMode)
      ensures currentView == old(currentView) && widgetOrder == old(widgetOrder)
    {
      filters := Merge(filters, p);
    }

    /** `resetFilters` */
    method ResetFilters()
      modifies this
      ensures filters == DefaultFilters
      ensures dataset == old(dataset) && comparisonMode == old(comparisonMode)
      ensures currentView == old(currentView) && widgetOrder == old(widgetOrder)
    {
      filters := DefaultFilters;
    }

    /** `setComparisonMode` */
    method SetComparisonMode(mode: ComparisonMode)
      modifies this
      ensures comparisonMode == mode
      ensures dataset == old(dataset) && filters == old(filters)
      ensures currentView == old(currentView) && widgetOrder == old(widgetOrder)
    {
      comparisonMode := mode;
    }

    /** `setCurrentView` */
    method SetCurrentView(view: View)
      modifies this
      ensures currentView == view
      ensures dataset == old(dataset) && filters == old(filters)
      ensures comparisonMode == old(comparisonMode) && widgetOrder == old(widgetOrder)
    {
      currentView := view;
    }

    /** `setWidgetOrder` */
    method SetWidgetOrder(order: seq<string>)
      modifies this
      ensures widgetOrder == order
      ensures dataset == old(dataset) && filters == old(filters)
      ensures comparisonMode == old(comparisonMode) && currentView == old(currentView)
    {
      widgetOrder := order;
    }
  }
}
