/**
 * The snapshot conversions of src/lib/supabase/snapshot.ts: `toMeta`, the
 * placeholder row `AggregateToDataRows` builds from a stored aggregate, and
 * `aggregateDataRows`, which groups contact rows by base type, month and day
 * number into the rows stored for one version. The database calls around
 * them are not modelled.
 */
module Snapshot {
  import opened Wrappers
  import opened Text
  import opened Js
  import opened Rows
  import opened Ordering
  import opened Grouping
  import opened Metrics

  /** `SnapshotMetaRow` */
  datatype SnapshotMetaRow = SnapshotMetaRow(
    id: int,
    importedAt: string,
    sourceFileName: string,
    sheetName: string,
    rowCount: int,
    activeVersion: string)

  /** `SnapshotRow`: one stored aggregate. */
  datatype SnapshotRow = SnapshotRow(
    version: string,
    tipo: string,
    diaLabel: Option<string>,
    mes: Option<int>,
    diaNumero: Option<int>,
    cargada: nat,
    recorrido: nat,
    contactado: nat,
    citas: nat,
    af: nat,
    mc: nat,
    pctContactabilidad: real,
    pctEfectividad: real,
    tcAf: real,
    tcMc: real)

  /** `toMeta`: the meta row's four dataset columns; the id and the active version are dropped. */
  function ToMeta(row: SnapshotMetaRow): (meta: DatasetMeta)
    ensures meta.importedAtISO == row.importedAt && meta.sourceFileName == row.sourceFileName
    ensures meta.sheetName == row.sheetName && meta.rowCount == row.rowCount
  {
    DatasetMeta(row.importedAt, row.sourceFileName, row.sheetName, row.rowCount)
  }

  /** The label of the placeholder row's call type and RUT. */
  const Agregado: string := "Agregado"

  /**
   * `AggregateToDataRows`: a single placeholder row that keeps the base
   * type, month and day of the aggregate and none of its counters.
   */
  function AggregateToDataRows(s: SnapshotRow): (rows: seq<DataRow>)
    ensures |rows| == 1
    ensures rows[0].tipoLlamada == Agregado && rows[0].rutBase == Agregado
    ensures rows[0].tipoBase == s.tipo && rows[0].mes == s.mes && rows[0].diaNumero == s.diaNumero
    ensures rows[0].diaSemana == s.diaLabel
    ensures rows[0].fechaCarga.None? && rows[0].fechaGestion.None? && rows[0].conecta.None?
    ensures rows[0].interesa.None? && rows[0].af.None? && rows[0].mc.None? && rows[0].semana.None?
  {
    [DataRow(Agregado, None, Agregado, s.tipo, None, None, None, None, None, None, None, None, None, None, None,
             None, s.mes, s.diaNumero, s.diaLabel)]
  }

  // ---------------------------------------------------------------------------
  // aggregateDataRows
  // ---------------------------------------------------------------------------

  /** A number or `null` inside a template literal. */
  function ShowNumber(n: Option<int>): string {
    match n
    case None => "null"
    case Some(v) => IntToString(v)
  }

  /** The group key `${tipoBase}-${mes}-${diaNumero}`. */
  function GroupKey(r: DataRow): string {
    r.tipoBase + "-" + ShowNumber(r.mes) + "-" + ShowNumber(r.diaNumero)
  }

  function GroupKeyOf(r: DataRow): Option<string> {
    Some(GroupKey(r))
  }

  /** A row with an answer of any kind in Interesa. */
  predicate HasInteresa(r: DataRow) {
    |Trim(r.interesa.GetOr(""))| > 0
  }

  /** The counters of a stored aggregate: as `computeTotals`, except that any answer is a cita. */
  const SnapshotRules: Rules := Rules(IsRecorrido, IsContactado, HasInteresa, IsAfluencia, IsMatricula)

  /** The stored row of a group: the first row's fields, the counters and the four ratios, 0 when undefined. */
  function GroupRow(version: string, first: DataRow, f: Funnel): SnapshotRow {
    SnapshotRow(version, first.tipoBase, Some(first.diaSemana.GetOr("")), first.mes, first.diaNumero,
                f.cargada, f.recorrido, f.contactado, f.citas, f.af, f.mc,
                RatioOrZero(f.contactado, f.recorrido), RatioOrZero(f.af + f.mc, f.citas),
                RatioOrZero(f.af, f.citas), RatioOrZero(f.mc, f.citas))
  }

  /** The groups under `key`, in first-seen order, each from its first row and its counters. */
  function AggregateBy(version: string, rows: seq<DataRow>, key: DataRow -> Option<string>, rules: Rules)
    : seq<SnapshotRow>
  {
    var ks := KeysOf(rows, key);
    seq(|ks|, i requires 0 <= i < |ks| =>
      GroupRow(version, Select(rows, key, ks[i])[0], FunnelBy(Select(rows, key, ks[i]), rules)))
  }

  /** What `aggregateDataRows(version, rows)` returns. */
  function AggregateOf(version: string, rows: seq<DataRow>): seq<SnapshotRow> {
    AggregateBy(version, rows, GroupKeyOf, SnapshotRules)
  }

  /** `aggregateDataRows` */
  method AggregateDataRows(version: string, rows: seq<DataRow>) returns (out: seq<SnapshotRow>)
    ensures out == AggregateOf(version, rows)
  {
    out := Aggregate(version, rows, GroupKeyOf, SnapshotRules);
  }

  /** An entry of the source's group map: absent, or the group's first row and its counters so far. */
  datatype Entry = Absent | Entry(first: DataRow, counts: Funnel)

  /** One row folded into its entry: a new entry keeps the row as its first, then the counters go up. */
  function Enter(rules: Rules, e: Entry, r: DataRow): Entry {
    match e
    case Absent => Entry(r, AddBy(rules, NoCounts, r))
    case Entry(first, counts) => Entry(first, AddBy(rules, counts, r))
  }

  function EnterBy(rules: Rules): (Entry, DataRow) -> Entry {
    (e, r) => Enter(rules, e, r)
  }

  /** Folding a non-empty group gives its first row and its counters. */
  lemma {:induction false} FoldEntries(g: seq<DataRow>, rules: Rules)
    requires g != []
    ensures Fold(g, Absent, EnterBy(rules)) == Entry(g[0], FunnelBy(g, rules))
  {
    InitLast(g);
    FunnelBySnoc(Init(g), Last(g), rules);
    if Init(g) != [] {
      FoldEntries(Init(g), rules);
    } else {
      assert FunnelBy(Init(g), rules) == NoCounts;
    }
  }

  /** The counter updates of one row, written as the source's `if` statements. */
  method Bump(f: Funnel, r: DataRow, rules: Rules) returns (f': Funnel)
    ensures f' == AddBy(rules, f, r)
  {
    f' := f.(cargada := f.cargada + 1);
    if rules.recorrido(r) { f' := f'.(recorrido := f'.recorrido + 1); }
    if rules.contactado(r) { f' := f'.(contactado := f'.contactado + 1); }
    if rules.cita(r) { f' := f'.(citas := f'.citas + 1); }
    if rules.afluencia(r) { f' := f'.(af := f'.af + 1); }
    if rules.matricula(r) { f' := f'.(mc := f'.mc + 1); }
  }

  /** The two loops of `aggregateDataRows`, for any key and counting rules. */
  method Aggregate(version: string, rows: seq<DataRow>, key: DataRow -> Option<string>, rules: Rules)
    returns (out: seq<SnapshotRow>)
    requires forall r :: key(r).Some?
    ensures out == AggregateBy(version, rows, key, rules)
  {
    var keys, groups := CollectGroups(rows, key, rules);
    out := StoreGroups(version, keys, groups);
    EntriesToRows(version, rows, key, rules, keys, groups, out);
  }

  /** The first loop: one map entry per key, in first-seen order, holding its first row and counters. */
  method CollectGroups(rows: seq<DataRow>, key: DataRow -> Option<string>, rules: Rules)
    returns (keys: seq<string>, groups: map<string, Entry>)
    requires forall r :: key(r).Some?
    ensures Grouped(rows, key, Absent, EnterBy(rules), keys, groups)
    ensures forall k | k in groups :: groups[k].Entry?
  {
    keys := [];
    groups := map[];
    for i := 0 to |rows|
      invariant Grouped(rows[..i], key, Absent, EnterBy(rules), keys, groups)
      invariant forall k | k in groups :: groups[k].Entry?
    {
      var r := rows[i];
      PrefixSnoc(rows, i);
      var k := key(r).value;
      GroupedEnter(rows[..i], r, key, Absent, EnterBy(rules), keys, groups, k);
      ghost var g0 := if k in groups then groups[k] else Absent;
      ghost var keys1 := if k in groups then keys else keys + [k];
      ghost var groups1 := groups[k := EnterBy(rules)(g0, r)];
      var e := if k in groups then groups[k] else Entry(r, NoCounts);
      if k !in groups {
        keys := keys + [k];
      }
      var counts := Bump(e.counts, r, rules);
      assert EnterBy(rules)(g0, r) == Entry(e.first, counts);
      groups := groups[k := Entry(e.first, counts)];
      assert keys == keys1 && groups == groups1;
    }
    assert rows[..|rows|] == rows;
  }

  /** The second loop: each entry, in key order, becomes a stored row with its ratios. */
  method StoreGroups(version: string, keys: seq<string>, groups: map<string, Entry>) returns (out: seq<SnapshotRow>)
    requires forall k | k in keys :: k in groups && groups[k].Entry?
    ensures |out| == |keys|
    ensures forall t | 0 <= t < |keys| :: out[t] == GroupRow(version, groups[keys[t]].first, groups[keys[t]].counts)
  {
    out := [];
    for j := 0 to |keys|
      invariant |out| == j
      invariant forall t | 0 <= t < j :: out[t] == GroupRow(version, groups[keys[t]].first, groups[keys[t]].counts)
    {
      var e := groups[keys[j]];
      var row := GroupRow(version, e.first, e.counts);
      ghost var out0 := out;
      out := out + [row];
      assert forall t | 0 <= t < j :: out[t] == out0[t];
    }
  }

  /** The rows the second loop builds from the finished map are the groups' stored rows. */
  lemma EntriesToRows(version: string, rows: seq<DataRow>, key: DataRow -> Option<string>, rules: Rules,
                      keys: seq<string>, groups: map<string, Entry>, out: seq<SnapshotRow>)
    requires Grouped(rows, key, Absent, EnterBy(rules), keys, groups)
    requires |out| == |keys|
    requires forall t | 0 <= t < |keys| :: out[t] == GroupRow(version, groups[keys[t]].first, groups[keys[t]].counts)
    ensures out == AggregateBy(version, rows, key, rules)
  {
    var expected := AggregateBy(version, rows, key, rules);
    forall t | 0 <= t < |keys| ensures out[t] == expected[t] {
      assert keys[t] in keys;
      FoldEntries(Select(rows, key, keys[t]), rules);
    }
  }

  // ---------------------------------------------------------------------------
  // Properties
  // ---------------------------------------------------------------------------

  /** The stored rows of `AggregateBy` are exactly the groups, in first-seen order. */
  lemma AggregateByGroups(version: string, rows: seq<DataRow>, key: DataRow -> Option<string>, rules: Rules, i: nat)
    requires i < |AggregateBy(version, rows, key, rules)|
    ensures var ks := KeysOf(rows, key);
      && |AggregateBy(version, rows, key, rules)| == |ks|
      && Select(rows, key, ks[i]) != []
      && AggregateBy(version, rows, key, rules)[i]
         == GroupRow(version, Select(rows, key, ks[i])[0], FunnelBy(Select(rows, key, ks[i]), rules))
  {
    var ks := KeysOf(rows, key);
    assert ks[i] in ks;
  }

  /** Every stored row carries the version, and its fields come from the first row of its group. */
  lemma AggregateRowsFromFirst(version: string, rows: seq<DataRow>, i: nat)
    requires i < |AggregateOf(version, rows)|
    ensures var s := AggregateOf(version, rows)[i];
      exists j | 0 <= j < |rows| ::
        && s.version == version && s.tipo == rows[j].tipoBase && s.mes == rows[j].mes
        && s.diaNumero == rows[j].diaNumero && s.diaLabel == Some(rows[j].diaSemana.GetOr(""))
        && (forall j' | 0 <= j' < j :: GroupKey(rows[j']) != GroupKey(rows[j]))
  {
    AggregateByGroups(version, rows, GroupKeyOf, SnapshotRules, i);
    var k := KeysOf(rows, GroupKeyOf)[i];
    var j := FirstOfGroup(rows, GroupKeyOf, k);
    forall j' | 0 <= j' < j ensures GroupKey(rows[j']) != GroupKey(rows[j]) {
      assert GroupKeyOf(rows[j']) != Some(k);
    }
  }

  /** The first row of a non-empty group: its position, before which no row has the key. */
  lemma {:induction false} FirstOfGroup(rows: seq<DataRow>, key: DataRow -> Option<string>, k: string) returns (j: nat)
    requires Select(rows, key, k) != []
    ensures j < |rows| && rows[j] == Select(rows, key, k)[0] && key(rows[j]) == Some(k)
    ensures forall j' | 0 <= j' < j :: key(rows[j']) != Some(k)
  {
    if Select(Init(rows), key, k) != [] {
      j := FirstOfGroup(Init(rows), key, k);
      assert rows[j] == Init(rows)[j];
      forall j' | 0 <= j' < j ensures key(rows[j']) != Some(k) {
        assert rows[j'] == Init(rows)[j'];
      }
    } else {
      j := |rows| - 1;
      SelectNonEmpty(Init(rows), key, k);
      forall j' | 0 <= j' < j ensures key(rows[j']) != Some(k) {
        assert rows[j'] == Init(rows)[j'];
      }
    }
  }

  /** The key a stored row was grouped under, rebuilt from its fields. */
  function KeyOfStored(s: SnapshotRow): string {
    s.tipo + "-" + ShowNumber(s.mes) + "-" + ShowNumber(s.diaNumero)
  }

  /** Each stored row sits under the key it was grouped by. */
  lemma StoredKey(version: string, rows: seq<DataRow>, i: nat)
    requires i < |AggregateOf(version, rows)|
    ensures KeyOfStored(AggregateOf(version, rows)[i]) == KeysOf(rows, GroupKeyOf)[i]
  {
    AggregateByGroups(version, rows, GroupKeyOf, SnapshotRules, i);
    var ks := KeysOf(rows, GroupKeyOf);
    assert GroupKeyOf(Select(rows, GroupKeyOf, ks[i])[0]) == Some(ks[i]);
  }

  /** The stored rows have distinct keys: one row per `${tipoBase}-${mes}-${diaNumero}` present. */
  lemma AggregateKeysDistinct(version: string, rows: seq<DataRow>)
    ensures var out := AggregateOf(version, rows);
      forall i, j | 0 <= i < j < |out| :: KeyOfStored(out[i]) != KeyOfStored(out[j])
  {
    var out := AggregateOf(version, rows);
    forall i, j | 0 <= i < j < |out| ensures KeyOfStored(out[i]) != KeyOfStored(out[j]) {
      StoredKey(version, rows, i);
      StoredKey(version, rows, j);
    }
  }

  /** Every key some row carries has its stored row, and every stored row's key is carried by some row. */
  lemma AggregateKeysPresent(version: string, rows: seq<DataRow>, k: string)
    ensures var out := AggregateOf(version, rows);
      (exists i | 0 <= i < |out| :: KeyOfStored(out[i]) == k)
      <==> (exists j | 0 <= j < |rows| :: GroupKey(rows[j]) == k)
  {
    var out := AggregateOf(version, rows);
    var ks := KeysOf(rows, GroupKeyOf);
    SelectNonEmpty(rows, GroupKeyOf, k);
    if exists j | 0 <= j < |rows| :: GroupKey(rows[j]) == k {
      var j :| 0 <= j < |rows| && GroupKey(rows[j]) == k;
      assert GroupKeyOf(rows[j]) == Some(k);
      assert k in ks;
      var i :| 0 <= i < |ks| && ks[i] == k;
      StoredKey(version, rows, i);
    }
    if exists i | 0 <= i < |out| :: KeyOfStored(out[i]) == k {
      var i :| 0 <= i < |out| && KeyOfStored(out[i]) == k;
      StoredKey(version, rows, i);
      assert ks[i] in ks;
    }
  }

  function SumCargada(out: seq<SnapshotRow>): int {
    if out == [] then 0 else SumCargada(Init(out)) + Last(out).cargada
  }

  lemma {:induction false} SumCargadaOver(out: seq<SnapshotRow>, ks: seq<string>, f: string -> int)
    requires |out| == |ks|
    requires forall i | 0 <= i < |ks| :: out[i].cargada == f(ks[i])
    ensures SumCargada(out) == SumOver(ks, f)
  {
    if out != [] {
      SumCargadaOver(Init(out), Init(ks), f);
    }
  }

  /** Under a key every row has, each row is loaded into exactly one stored row. */
  lemma AggregateByCovers(version: string, rows: seq<DataRow>, key: DataRow -> Option<string>, rules: Rules)
    requires forall r :: key(r).Some?
    ensures SumCargada(AggregateBy(version, rows, key, rules)) == |rows|
  {
    var out := AggregateBy(version, rows, key, rules);
    var ks := KeysOf(rows, key);
    forall i | 0 <= i < |ks| ensures out[i].cargada == Sizes(rows, key)(ks[i]) {
      AggregateByGroups(version, rows, key, rules, i);
    }
    SumCargadaOver(out, ks, Sizes(rows, key));
    Partition(rows, key);
    CountAll(rows, HasKey(key));
  }

  /** Every input row is loaded into exactly one stored row: the `cargada` counters add up to the row count. */
  lemma AggregateCoversRows(version: string, rows: seq<DataRow>)
    ensures SumCargada(AggregateOf(version, rows)) == |rows|
  {
    AggregateByCovers(version, rows, GroupKeyOf, SnapshotRules);
  }

  /**
   * A stored row whose funnel narrows (contactado <= recorrido <= cargada,
   * the other counters at most cargada, cargada at least 1) and whose ratios
   * are their quotients, or 0 when the denominator is 0; the contact rate is
   * a fraction.
   */
  predicate Sound(s: SnapshotRow) {
    && 1 <= s.cargada
    && s.contactado <= s.recorrido <= s.cargada
    && s.citas <= s.cargada && s.af <= s.cargada && s.mc <= s.cargada
    && s.pctContactabilidad == RatioOrZero(s.contactado, s.recorrido)
    && s.pctEfectividad == RatioOrZero(s.af + s.mc, s.citas)
    && s.tcAf == RatioOrZero(s.af, s.citas) && s.tcMc == RatioOrZero(s.mc, s.citas)
    && 0.0 <= s.pctContactabilidad <= 1.0
  }

  /** The stored row of a non-empty group: counters within the group size, ratios their quotients or 0. */
  lemma GroupRowBounds(version: string, g: seq<DataRow>, rules: Rules)
    requires g != [] && Narrowing(rules)
    ensures Sound(GroupRow(version, g[0], FunnelBy(g, rules)))
  {
    var f := FunnelBy(g, rules);
    FunnelBounds(g, rules);
    RatioInUnit(f.contactado, f.recorrido);
  }

  lemma SnapshotRulesNarrow()
    ensures Narrowing(SnapshotRules)
  {
    TotalsRulesNarrow();
    assert SnapshotRules.contactado == TotalsRules.contactado && SnapshotRules.recorrido == TotalsRules.recorrido;
  }

  /** `AggregateRowBounds`, under any key and any rules where reached rows were called. */
  lemma AggregateByRowBounds(version: string, rows: seq<DataRow>, key: DataRow -> Option<string>, rules: Rules, i: nat)
    requires Narrowing(rules) && i < |AggregateBy(version, rows, key, rules)|
    ensures Sound(AggregateBy(version, rows, key, rules)[i])
  {
    AggregateByGroups(version, rows, key, rules, i);
    GroupRowBounds(version, Select(rows, key, KeysOf(rows, key)[i]), rules);
  }

  /** Every row `aggregateDataRows` stores is `Sound`. */
  lemma AggregateRowBounds(version: string, rows: seq<DataRow>, i: nat)
    requires i < |AggregateOf(version, rows)|
    ensures Sound(AggregateOf(version, rows)[i])
  {
    SnapshotRulesNarrow();
    AggregateByRowBounds(version, rows, GroupKeyOf, SnapshotRules, i);
  }

  /** Every appointment of `computeTotals` is a stored cita, but any answer counts here. */
  lemma SnapshotCitasWider(rows: seq<DataRow>)
    ensures FunnelOf(rows).citas <= FunnelBy(rows, SnapshotRules).citas
  {
    CountMono(rows, IsCita, HasInteresa);
  }

  /** A single row makes a single group. */
  lemma AggregateSingle(version: string, r: DataRow, key: DataRow -> Option<string>, rules: Rules)
    requires key(r).Some?
    ensures AggregateBy(version, [r], key, rules) == [GroupRow(version, r, AddBy(rules, NoCounts, r))]
  {
    assert Init([r]) == [];
    assert KeysOf([r], key) == [key(r).value];
    assert Select([r], key, key(r).value) == [r];
  }

  /** A row with no call outcome, answer or codes bumps no counter after `cargada`. */
  lemma BlankRowCountsNothing(r: DataRow)
    requires r.conecta.None? && r.interesa.None? && r.af.None? && r.mc.None?
    ensures !IsRecorrido(r) && !IsContactado(r) && !HasInteresa(r) && !IsAfluencia(r) && !IsMatricula(r)
  {
    assert Trim("") == [];
    assert Lower([]) == [] && Upper([]) == [];
  }

  /** Reading a stored row back and storing it again counts one loaded row and nothing else. */
  lemma PlaceholderCountsOne(version: string, s: SnapshotRow)
    ensures var out := AggregateOf(version, AggregateToDataRows(s));
      && |out| == 1
      && out[0].cargada == 1 && out[0].recorrido == 0 && out[0].contactado == 0
      && out[0].citas == 0 && out[0].af == 0 && out[0].mc == 0
      && out[0].tipo == s.tipo && out[0].mes == s.mes && out[0].diaNumero == s.diaNumero
  {
    var rows := AggregateToDataRows(s);
    assert rows == [rows[0]];
    AggregateSingle(version, rows[0], GroupKeyOf, SnapshotRules);
    BlankRowCountsNothing(rows[0]);
  }
}
