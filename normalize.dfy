/**
 * `normalizeRow` (src/lib/data-processing/normalize.ts): validates one row of
 * the aggregate schema, collects an issue per invalid field, and builds the
 * normalised row only when there is none.
 */
module Normalize {
  import opened Wrappers
  import opened Text
  import opened Js
  import opened Numbers
  import opened Rows

  const TipoInvalido: string := "Tipo inv\U{00E1}lido"
  const NumeroInvalido: string := "N\U{00FA}mero inv\U{00E1}lido"

  /** `normalizeTipo(value)` */
  function NormalizeTipo(value: Value): (r: Option<string>)
    ensures !value.Str? ==> r == None
    ensures r.Some? ==> r.value == "Stock" || r.value == "Web"
  {
    match value
    case Str(s) => TipoOfKey(Lower(Trim(s)))
    case _ => None
  }

  /** The base type a trimmed, lower-cased cell names. */
  function TipoOfKey(v: string): (r: Option<string>)
    ensures r.Some? ==> r.value == "Stock" || r.value == "Web"
  {
    if v == "stock" then Some("Stock")
    else if v == "web" then Some("Web")
    else None
  }

  /** The base type is read case-insensitively and around white space. */
  lemma TipoCaseInsensitive(s: string)
    ensures NormalizeTipo(Str(Upper(s))) == NormalizeTipo(Str(s))
    ensures NormalizeTipo(Str(Trim(s))) == NormalizeTipo(Str(s))
  {
    TipoKeyOfUpper(s);
    TrimIdempotent(s);
  }

  lemma TipoKeyOfUpper(s: string)
    ensures Lower(Trim(Upper(s))) == Lower(Trim(s))
  {
    TrimUpperCommute(s);
    LowerOfUpper(Trim(s));
  }

  /** `toNonNegativeInt(value)` */
  function ToNonNegativeInt(value: Value): (r: Option<int>)
    ensures r.Some? ==> r.value >= 0
    ensures r.Some? <==> ToFiniteNumber(value).Some? && ToFiniteNumber(value).value >= 0.0
    ensures r.Some? ==> r.value as real - 0.5 <= ToFiniteNumber(value).value < r.value as real + 0.5
  {
    match ToFiniteNumber(value)
    case None => None
    case Some(n) => if n < 0.0 then None else Some(Round(n))
  }

  /** A count written as a number or as its decimal digits is read back exactly. */
  lemma CountRoundTrip(n: nat)
    ensures ToNonNegativeInt(Num(Finite(n as real))) == Some(n)
    ensures ToNonNegativeInt(Str(NatToString(n))) == Some(n)
  {
    RoundInt(n);
    NatRoundTrip(n);
    ReadNonNegative(Num(Finite(n as real)), n as real);
    ReadNonNegative(Str(NatToString(n)), n as real);
  }

  lemma ReadNonNegative(v: Value, x: real)
    requires ToFiniteNumber(v) == Some(x) && x >= 0.0
    ensures ToNonNegativeInt(v) == Some(Round(x))
  {
  }

  lemma RoundInt(n: int)
    ensures Round(n as real) == n
  {
  }

  /** The count columns, in the order they are checked. */
  const CountColumns: seq<string> := ["Cargada", "Recorrido", "Contactado", "Citas", "AF", "MC"]

  /** The six counts of a row, in `CountColumns` order. */
  function Counts(raw: CleanRow): (r: seq<Option<int>>)
    ensures |r| == |CountColumns|
    ensures forall k | 0 <= k < |r| :: r[k] == ToNonNegativeInt(Cell(raw, CountColumns[k]))
  {
    seq(|CountColumns|, k requires 0 <= k < |CountColumns| => ToNonNegativeInt(Cell(raw, CountColumns[k])))
  }

  function TipoIssues(tipo: Option<string>, rowIndex: int): seq<ParseIssue> {
    if tipo.None? then [ParseIssue(Some(rowIndex), Some("Tipo"), TipoInvalido)] else []
  }

  /** One "Número inválido" issue per invalid value, in column order. */
  function NumberIssues(cols: seq<string>, vals: seq<Option<int>>, rowIndex: int): (r: seq<ParseIssue>)
    requires |cols| == |vals|
    ensures |r| <= |vals|
  {
    if cols == [] then []
    else
      NumberIssues(cols[..|cols| - 1], vals[..|vals| - 1], rowIndex)
      + (if vals[|vals| - 1].None? then [ParseIssue(Some(rowIndex), Some(cols[|cols| - 1]), NumeroInvalido)] else [])
  }

  /** `a ?? b` */
  function OrElse(a: Option<real>, b: Option<real>): Option<real> {
    if a.Some? then a else b
  }

  /** `typeof raw["Día"] === "string" && raw["Día"].trim() ? raw["Día"].trim() : null` */
  function DiaLabel(v: Value): Option<string> {
    if v.Str? && Trim(v.s) != [] then Some(Trim(v.s)) else None
  }

  datatype RowOutcome = RowOutcome(row: Option<NormalizedRow>, issues: seq<ParseIssue>)

  predicate AllPresent(vals: seq<Option<int>>) {
    forall k | 0 <= k < |vals| :: vals[k].Some?
  }

  /** The four percentage cells as `toPercent` reads them. */
  datatype FilePercents = FilePercents(contactabilidad: Option<real>, efectividad: Option<real>,
                                       tcAf: Option<real>, tcMc: Option<real>)

  function FilePercentsOf(raw: CleanRow): FilePercents {
    FilePercents(ToPercent(Cell(raw, "% Contactabilidad")), ToPercent(Cell(raw, "% Efectividad")),
                 ToPercent(Cell(raw, "Tc% AF / Citas")), ToPercent(Cell(raw, "Tc% MC / Citas")))
  }

  /** The row built once the type and all six counts are valid, given the file's percentages. */
  function BuildRow(raw: CleanRow, tipo: string, c: seq<Option<int>>, p: FilePercents): NormalizedRow
    requires |c| == 6 && AllPresent(c)
  {
    var recorrido := c[1].value;
    var contactado := c[2].value;
    var citas := c[3].value;
    var af := c[4].value;
    var mc := c[5].value;
    NormalizedRow(
      tipo,
      DiaLabel(Cell(raw, "D\U{00ED}a")),
      ToNonNegativeInt(Cell(raw, "Mes")),
      ToNonNegativeInt(Cell(raw, "D\U{00ED}a num\U{00E9}rico")),
      c[0].value, recorrido, contactado, citas, af, mc,
      OrElse(p.contactabilidad, Ratio(contactado, recorrido)),
      OrElse(p.efectividad, Ratio(af + mc, citas)),
      OrElse(p.tcAf, Ratio(af, citas)),
      OrElse(p.tcMc, Ratio(mc, citas)))
  }

  /** What `normalizeRow(raw, rowIndex)` returns. */
  function RowResult(raw: CleanRow, rowIndex: int): RowOutcome {
    var tipo := NormalizeTipo(Cell(raw, "Tipo"));
    var c := Counts(raw);
    var issues := TipoIssues(tipo, rowIndex) + NumberIssues(CountColumns, c, rowIndex);
    if tipo.None? || !AllPresent(c) then RowOutcome(None, issues)
    else RowOutcome(Some(BuildRow(raw, tipo.value, c, FilePercentsOf(raw))), issues)
  }

  /** `normalizeRow(raw, rowIndex)` */
  method NormalizeRow(raw: CleanRow, rowIndex: int) returns (row: Option<NormalizedRow>, issues: seq<ParseIssue>)
    ensures RowOutcome(row, issues) == RowResult(raw, rowIndex)
  {
    issues := [];
    var tipo := NormalizeTipo(Cell(raw, "Tipo"));
    if tipo.None? {
      issues := issues + [ParseIssue(Some(rowIndex), Some("Tipo"), TipoInvalido)];
    }
    var c := Counts(raw);
    var numberIssues := CollectNumberIssues(CountColumns, c, rowIndex);
    issues := issues + numberIssues;
    if tipo.None? || !AllPresent(c) {
      row := None;
    } else {
      row := Some(BuildRow(raw, tipo.value, c, FilePercentsOf(raw)));
    }
  }

  /** The loop over `requiredNumbers`: one issue per missing value, in column order. */
  method CollectNumberIssues(cols: seq<string>, vals: seq<Option<int>>, rowIndex: int) returns (issues: seq<ParseIssue>)
    requires |cols| == |vals|
    ensures issues == NumberIssues(cols, vals, rowIndex)
  {
    issues := [];
    var i := 0;
    while i < |cols|
      invariant 0 <= i <= |cols|
      invariant issues == NumberIssues(cols[..i], vals[..i], rowIndex)
    {
      if vals[i].None? {
        issues := issues + [ParseIssue(Some(rowIndex), Some(cols[i]), NumeroInvalido)];
      }
      assert cols[..i + 1][..i] == cols[..i];
      assert vals[..i + 1][..i] == vals[..i];
      i := i + 1;
    }
    assert cols[..i] == cols && vals[..i] == vals;
  }

  // ---------------------------------------------------------------------------
  // Properties
  // ---------------------------------------------------------------------------

  lemma {:induction false} NumberIssuesEmpty(cols: seq<string>, vals: seq<Option<int>>, rowIndex: int)
    requires |cols| == |vals|
    ensures NumberIssues(cols, vals, rowIndex) == [] <==> AllPresent(vals)
  {
    if cols != [] {
      var p := vals[..|vals| - 1];
      NumberIssuesEmpty(cols[..|cols| - 1], p, rowIndex);
      assert AllPresent(vals) <==> AllPresent(p) && vals[|vals| - 1].Some? by {
        if AllPresent(p) && vals[|vals| - 1].Some? {
          forall k | 0 <= k < |vals| ensures vals[k].Some? {
            if k < |vals| - 1 {
              assert vals[k] == p[k];
            }
          }
        }
        if AllPresent(vals) {
          forall k | 0 <= k < |p| ensures p[k].Some? {
            assert p[k] == vals[k];
          }
        }
      }
    }
  }

  /** The row is missing exactly when some issue was raised. */
  lemma RowIffNoIssues(raw: CleanRow, rowIndex: int)
    ensures RowResult(raw, rowIndex).row.None? <==> |RowResult(raw, rowIndex).issues| > 0
  {
    NumberIssuesEmpty(CountColumns, Counts(raw), rowIndex);
  }

  /** Every issue names the row and a column; the type issue, when present, comes first. */
  lemma IssuesNameRowAndColumn(raw: CleanRow, rowIndex: int)
    ensures forall k | 0 <= k < |RowResult(raw, rowIndex).issues| ::
      && RowResult(raw, rowIndex).issues[k].rowIndex == Some(rowIndex)
      && RowResult(raw, rowIndex).issues[k].column.Some?
    ensures NormalizeTipo(Cell(raw, "Tipo")).None? <==>
      (|RowResult(raw, rowIndex).issues| > 0 && RowResult(raw, rowIndex).issues[0].message == TipoInvalido)
  {
    NumberIssuesShape(CountColumns, Counts(raw), rowIndex);
    assert TipoInvalido != NumeroInvalido by {
      assert TipoInvalido[0] != NumeroInvalido[0];
    }
  }

  lemma {:induction false} NumberIssuesShape(cols: seq<string>, vals: seq<Option<int>>, rowIndex: int)
    requires |cols| == |vals|
    ensures forall k | 0 <= k < |NumberIssues(cols, vals, rowIndex)| ::
      && NumberIssues(cols, vals, rowIndex)[k].rowIndex == Some(rowIndex)
      && NumberIssues(cols, vals, rowIndex)[k].column.Some?
      && NumberIssues(cols, vals, rowIndex)[k].message == NumeroInvalido
  {
    if cols != [] {
      NumberIssuesShape(cols[..|cols| - 1], vals[..|vals| - 1], rowIndex);
    }
  }

  /** Exactly one issue per invalid count, and one for an invalid type. */
  lemma {:induction false} NumberIssuesCount(cols: seq<string>, vals: seq<Option<int>>, rowIndex: int)
    requires |cols| == |vals|
    ensures |NumberIssues(cols, vals, rowIndex)| == Missing(vals)
  {
    if cols != [] {
      NumberIssuesCount(cols[..|cols| - 1], vals[..|vals| - 1], rowIndex);
    }
  }

  /** The number of absent values. */
  function Missing(vals: seq<Option<int>>): nat {
    if vals == [] then 0 else Missing(vals[..|vals| - 1]) + (if vals[|vals| - 1].None? then 1 else 0)
  }

  /** A cell that fails to read produces the issue for its own column, after those of earlier columns. */
  lemma {:induction false} IssueForColumn(cols: seq<string>, vals: seq<Option<int>>, rowIndex: int, k: int)
    requires |cols| == |vals| && 0 <= k < |vals| && vals[k].None?
    ensures ParseIssue(Some(rowIndex), Some(cols[k]), NumeroInvalido) in NumberIssues(cols, vals, rowIndex)
    ensures |NumberIssues(cols[..k], vals[..k], rowIndex)| < |NumberIssues(cols, vals, rowIndex)|
    ensures NumberIssues(cols, vals, rowIndex)[|NumberIssues(cols[..k], vals[..k], rowIndex)|]
            == ParseIssue(Some(rowIndex), Some(cols[k]), NumeroInvalido)
    decreases |cols|
  {
    var n := |cols|;
    if k == n - 1 {
      assert cols[..k] == cols[..n - 1] && vals[..k] == vals[..n - 1];
    } else {
      IssueForColumn(cols[..n - 1], vals[..n - 1], rowIndex, k);
      assert cols[..n - 1][..k] == cols[..k] && vals[..n - 1][..k] == vals[..k];
    }
  }

  /** The count of issues: one for the type when invalid, one per invalid count. */
  lemma IssueCount(raw: CleanRow, rowIndex: int)
    ensures |RowResult(raw, rowIndex).issues|
            == (if NormalizeTipo(Cell(raw, "Tipo")).None? then 1 else 0) + Missing(Counts(raw))
  {
    NumberIssuesCount(CountColumns, Counts(raw), rowIndex);
  }

  /** `pct ?? ratio`: the percentage when present, else `num / den`, absent when `den` is 0. */
  lemma OrElseRatio(p: Option<real>, num: int, den: int)
    ensures p.Some? ==> OrElse(p, Ratio(num, den)) == p
    ensures p.None? && den > 0 ==> OrElse(p, Ratio(num, den)) == Some(num as real / den as real)
    ensures p.None? && den <= 0 ==> OrElse(p, Ratio(num, den)) == None
  {
  }

  /** `pctContactabilidad`: the file's percentage when it has one, otherwise contactado / recorrido, absent when recorrido is 0. */
  lemma RatiosFallBack(raw: CleanRow, tipo: string, c: seq<Option<int>>, p: FilePercents)
    requires |c| == 6 && AllPresent(c)
    ensures var r := BuildRow(raw, tipo, c, p);
      && (p.contactabilidad.Some? ==> r.pctContactabilidad == p.contactabilidad)
      && (p.contactabilidad.None? && r.recorrido > 0 ==> r.pctContactabilidad == Some(r.contactado as real / r.recorrido as real))
      && (p.contactabilidad.None? && r.recorrido == 0 ==> r.pctContactabilidad == None)
  {
    OrElseRatio(p.contactabilidad, c[2].value, c[1].value);
  }

  /** `pctEfectividad`: the file's percentage when it has one, otherwise (af + mc) / citas, absent when citas is 0. */
  lemma EfectividadFallBack(raw: CleanRow, tipo: string, c: seq<Option<int>>, p: FilePercents)
    requires |c| == 6 && AllPresent(c)
    ensures var r := BuildRow(raw, tipo, c, p);
      && (p.efectividad.Some? ==> r.pctEfectividad == p.efectividad)
      && (p.efectividad.None? && r.citas > 0 ==> r.pctEfectividad == Some((r.af + r.mc) as real / r.citas as real))
      && (p.efectividad.None? && r.citas == 0 ==> r.pctEfectividad == None)
  {
    OrElseRatio(p.efectividad, c[4].value + c[5].value, c[3].value);
  }

  /** `tcAf` and `tcMc`: the file's percentages when present, otherwise af / citas and mc / citas, absent when citas is 0. */
  lemma AfMcRatiosFallBack(raw: CleanRow, tipo: string, c: seq<Option<int>>, p: FilePercents)
    requires |c| == 6 && AllPresent(c)
    ensures var r := BuildRow(raw, tipo, c, p);
      && (p.tcAf.Some? ==> r.tcAf == p.tcAf)
      && (p.tcAf.None? && r.citas > 0 ==> r.tcAf == Some(r.af as real / r.citas as real))
      && (p.tcAf.None? && r.citas == 0 ==> r.tcAf == None)
      && (p.tcMc.Some? ==> r.tcMc == p.tcMc)
      && (p.tcMc.None? && r.citas > 0 ==> r.tcMc == Some(r.mc as real / r.citas as real))
      && (p.tcMc.None? && r.citas == 0 ==> r.tcMc == None)
  {
    OrElseRatio(p.tcAf, c[4].value, c[3].value);
    OrElseRatio(p.tcMc, c[5].value, c[3].value);
  }

  /** An unreadable month or day number is dropped without an issue. */
  lemma OptionalFieldsRaiseNoIssue(raw: CleanRow, rowIndex: int, v: Value, w: Value, d: Value)
    ensures RowResult(raw["Mes" := v]["D\U{00ED}a num\U{00E9}rico" := w]["D\U{00ED}a" := d], rowIndex).issues
            == RowResult(raw, rowIndex).issues
  {
    var raw' := raw["Mes" := v]["D\U{00ED}a num\U{00E9}rico" := w]["D\U{00ED}a" := d];
    assert Cell(raw', "Tipo") == Cell(raw, "Tipo");
    assert Counts(raw') == Counts(raw) by {
      forall k | 0 <= k < |CountColumns|
        ensures Cell(raw', CountColumns[k]) == Cell(raw, CountColumns[k])
      {
      }
    }
  }
}
