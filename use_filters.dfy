/**
 * The filter options offered by the dashboard
 * (src/features/dashboard/hooks/useFilters.ts): the distinct months, days,
 * base types, weeks, campuses and regimes present in the loaded rows, each
 * in its display order, and `set`, which hands a partial update to the
 * store.
 */
module FilterOptions {
  import opened Wrappers
  import opened Text
  import opened Rows
  import opened Ordering
  import opened Grouping
  import DashboardStore

  /** The values of `field` that pass `ok`, in row order (`rows.map(field).filter(...)`). */
  function Kept<R, T>(rows: seq<R>, field: R -> Option<T>, ok: T -> bool): seq<T> {
    if rows == [] then []
    else
      var v := field(Last(rows));
      Kept(Init(rows), field, ok) + (if v.Some? && ok(v.value) then [v.value] else [])
  }

  lemma {:induction false} KeptMembers<R, T>(rows: seq<R>, field: R -> Option<T>, ok: T -> bool, v: T)
    ensures v in Kept(rows, field, ok) <==> ok(v) && exists i | 0 <= i < |rows| :: field(rows[i]) == Some(v)
  {
    if rows != [] {
      KeptMembers(Init(rows), field, ok, v);
      InitLast(rows);
      if exists i | 0 <= i < |rows| :: field(rows[i]) == Some(v) {
        var i :| 0 <= i < |rows| && field(rows[i]) == Some(v);
        if i < |rows| - 1 {
          assert Init(rows)[i] == rows[i];
        }
      }
      if exists i | 0 <= i < |Init(rows)| :: field(Init(rows)[i]) == Some(v) {
        var i :| 0 <= i < |Init(rows)| && field(Init(rows)[i]) == Some(v);
        assert rows[i] == Init(rows)[i];
      }
    }
  }

  function MesOf(r: DataRow): Option<int> {
    r.mes
  }

  function DiaNumeroOf(r: DataRow): Option<int> {
    r.diaNumero
  }

  function TipoBaseOf(r: DataRow): Option<string> {
    Some(r.tipoBase)
  }

  function SemanaOf(r: DataRow): Option<string> {
    r.semana
  }

  function SedeInteresOf(r: DataRow): Option<string> {
    r.sedeInteres
  }

  function RegimenOf(r: DataRow): Option<string> {
    r.regimen
  }

  /** Every non-null number passes the `!== null` test. */
  predicate AnyNumber(v: int) {
    true
  }

  /** Every non-null label passes the `!== null && !== undefined` test, the empty one included. */
  predicate AnyLabel(v: string) {
    true
  }

  /** A JavaScript-truthy string: not empty. */
  predicate Truthy(v: string) {
    v != []
  }

  /** The options object of `useFilters`. */
  datatype Options = Options(
    meses: seq<int>,
    dias: seq<int>,
    tipos: seq<string>,
    semanas: seq<string>,
    campus: seq<string>,
    regimen: seq<string>)

  /** `Array.from(new Set(values)).sort()` with a numeric or the default comparator: distinct values, ascending. */
  function SortedSet<T(==)>(values: seq<T>, lt: (T, T) -> bool): seq<T> {
    SortDistinct(values, lt)
  }

  /** The week labels ordered by the number their digits form; equal numbers keep first-seen order. */
  function SemanaOrder(rows: seq<DataRow>): seq<string> {
    SortByKey(Distinct(Kept(rows, SemanaOf, AnyLabel)), DigitsNumber)
  }

  /** The body of the `useMemo` over `rows`. */
  function OptionsOf(rows: seq<DataRow>): Options {
    Options(
      SortedSet(Kept(rows, MesOf, AnyNumber), IntLt),
      SortedSet(Kept(rows, DiaNumeroOf, AnyNumber), IntLt),
      SortedSet(Kept(rows, TipoBaseOf, Truthy), StrLt),
      SemanaOrder(rows),
      SortedSet(Kept(rows, SedeInteresOf, Truthy), StrLt),
      SortedSet(Kept(rows, RegimenOf, Truthy), StrLt))
  }

  /** `options`, over `dataset?.rows ?? []`. */
  function OptionsFor(dataset: Option<Dataset<DataRow>>): (o: Options)
    ensures dataset.None? ==> o == Options([], [], [], [], [], [])
  {
    OptionsOf(if dataset.Some? then dataset.value.rows else [])
  }

  /**
   * A distinct, ascending option list holds exactly the values some row
   * carries in `field` that pass `ok`.
   */
  lemma SortedSetMembers<T(!new)>(rows: seq<DataRow>, field: DataRow -> Option<T>, ok: T -> bool,
                                  lt: (T, T) -> bool)
    requires IsStrictTotalOrder(lt)
    ensures StrictlySorted(SortedSet(Kept(rows, field, ok), lt), lt)
    ensures NoDup(SortedSet(Kept(rows, field, ok), lt))
    ensures forall v :: v in SortedSet(Kept(rows, field, ok), lt)
                      <==> ok(v) && exists i | 0 <= i < |rows| :: field(rows[i]) == Some(v)
  {
    SortDistinctCorrect(Kept(rows, field, ok), lt);
    StrictlySortedNoDup(SortedSet(Kept(rows, field, ok), lt), lt);
    forall v ensures v in Kept(rows, field, ok) <==> ok(v) && exists i | 0 <= i < |rows| :: field(rows[i]) == Some(v) {
      KeptMembers(rows, field, ok, v);
    }
  }

  /** `meses` and `dias`: the distinct non-null months and day numbers, ascending. */
  lemma NumericOptions(rows: seq<DataRow>)
    ensures var o := OptionsOf(rows);
      && StrictlySorted(o.meses, IntLt) && StrictlySorted(o.dias, IntLt)
      && (forall m :: m in o.meses <==> exists i | 0 <= i < |rows| :: rows[i].mes == Some(m))
      && (forall d :: d in o.dias <==> exists i | 0 <= i < |rows| :: rows[i].diaNumero == Some(d))
  {
    IntLtIsOrder();
    SortedSetMembers(rows, MesOf, AnyNumber, IntLt);
    SortedSetMembers(rows, DiaNumeroOf, AnyNumber, IntLt);
  }

  /** `tipos`: the distinct non-empty base types, in code-unit order. */
  lemma TipoOptions(rows: seq<DataRow>)
    ensures var tipos := OptionsOf(rows).tipos;
      && StrictlySorted(tipos, StrLt)
      && (forall t :: t in tipos <==> t != [] && exists i | 0 <= i < |rows| :: rows[i].tipoBase == t)
  {
    StrLtIsOrder();
    SortedSetMembers(rows, TipoBaseOf, Truthy, StrLt);
    forall t ensures (exists i | 0 <= i < |rows| :: TipoBaseOf(rows[i]) == Some(t))
                     <==> exists i | 0 <= i < |rows| :: rows[i].tipoBase == t {
      if exists i | 0 <= i < |rows| :: rows[i].tipoBase == t {
        var i :| 0 <= i < |rows| && rows[i].tipoBase == t;
        assert TipoBaseOf(rows[i]) == Some(t);
      }
    }
  }

  /** `campus`: the distinct non-empty campuses of interest, in code-unit order. */
  lemma CampusOptions(rows: seq<DataRow>)
    ensures var campus := OptionsOf(rows).campus;
      && StrictlySorted(campus, StrLt)
      && (forall s :: s in campus <==> s != [] && exists i | 0 <= i < |rows| :: rows[i].sedeInteres == Some(s))
  {
    StrLtIsOrder();
    SortedSetMembers(rows, SedeInteresOf, Truthy, StrLt);
  }

  /** `regimen`: the distinct non-empty regimes, in code-unit order. */
  lemma RegimenOptions(rows: seq<DataRow>)
    ensures var regimen := OptionsOf(rows).regimen;
      && StrictlySorted(regimen, StrLt)
      && (forall g :: g in regimen <==> g != [] && exists i | 0 <= i < |rows| :: rows[i].regimen == Some(g))
  {
    StrLtIsOrder();
    SortedSetMembers(rows, RegimenOf, Truthy, StrLt);
  }

  /**
   * `semanas`: every non-null label once, ordered by the number its digits
   * form; labels with the same number keep the order they first appear in.
   */
  lemma SemanaOptions(rows: seq<DataRow>)
    ensures var o := OptionsOf(rows);
      && SortedByKey(o.semanas, DigitsNumber)
      && NoDup(o.semanas)
      && (forall s :: s in o.semanas <==> exists i | 0 <= i < |rows| :: rows[i].semana == Some(s))
      && (forall n :: WithKey(o.semanas, DigitsNumber, n) == WithKey(Distinct(Kept(rows, SemanaOf, AnyLabel)), DigitsNumber, n))
  {
    var seen := Distinct(Kept(rows, SemanaOf, AnyLabel));
    SortByKeyCorrect(seen, DigitsNumber);
    PermutationNoDup(SortByKey(seen, DigitsNumber), seen);
    forall s ensures s in SortByKey(seen, DigitsNumber) <==> exists i | 0 <= i < |rows| :: rows[i].semana == Some(s) {
      KeptMembers(rows, SemanaOf, AnyLabel, s);
      assert s in SortByKey(seen, DigitsNumber) <==> s in multiset(SortByKey(seen, DigitsNumber));
      assert s in seen <==> s in multiset(seen);
    }
  }

  /** `set(partial)`: hands the partial update to the store's `setFilters`. */
  method Set(store: DashboardStore.Store, p: DashboardStore.FiltersPatch)
    modifies store
    ensures store.filters == DashboardStore.Merge(old(store.filters), p)
    ensures store.dataset == old(store.dataset) && store.comparisonMode == old(store.comparisonMode)
    ensures store.currentView == old(store.currentView) && store.widgetOrder == old(store.widgetOrder)
  {
    store.SetFilters(p);
  }
}
