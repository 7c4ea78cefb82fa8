/**
 * `parseXlsxFile` (src/lib/data-processing/parse-xlsx.ts) once the workbook
 * is decoded: the sheets are given as a list of named row lists. Keys are
 * cleaned, each sheet is scored against `REQUIRED_COLUMNS`
 * (src/lib/data-processing/columns.ts), the best sheet is picked, and its rows
 * are normalised; any issue rejects the whole file.
 */
module ParseXlsx {
  import opened Wrappers
  import opened Text
  import opened Js
  import opened Rows
  import opened Normalize
  import opened Ordering

  /** A row as the sheet reader yields it: its entries in column order. */
  type RawRow = seq<(string, Value)>

  /** A sheet name with its rows, or `None` when the workbook has no sheet under that name. */
  datatype Sheet = Sheet(name: string, rows: Option<seq<RawRow>>)

  /** `REQUIRED_COLUMNS` */
  const RequiredColumns: seq<string> := [
    "Tipo", "D\U{00ED}a", "Mes", "D\U{00ED}a num\U{00E9}rico", "Cargada", "Recorrido", "Contactado",
    "% Contactabilidad", "Citas", "AF", "MC", "% Efectividad", "Tc% AF / Citas", "Tc% MC / Citas"]

  // ---------------------------------------------------------------------------
  // Keys
  // ---------------------------------------------------------------------------

  /** `cleanKey(key)`: every run of white space becomes one space, then the ends are trimmed. */
  function CleanKey(key: string): string {
    Trim(CollapseWhite(key))
  }

  /** A cleaned key has single spaces between words and none at either end. */
  lemma CleanKeyIsClean(key: string)
    ensures Collapsed(CleanKey(key)) && Trim(CleanKey(key)) == CleanKey(key)
  {
    var c := CollapseWhite(key);
    TrimKeepsCollapsed(c);
    TrimIdempotent(c);
  }

  /** Cleaning a clean key changes nothing. */
  lemma CleanKeyIdempotent(key: string)
    ensures CleanKey(CleanKey(key)) == CleanKey(key)
  {
    CleanKeyIsClean(key);
    CleanKeyFixed(CleanKey(key));
  }

  /** The clean keys are exactly the collapsed, trimmed strings. */
  lemma CleanKeyFixed(key: string)
    requires Collapsed(key) && Trim(key) == key
    ensures CleanKey(key) == key
  {
    CollapseFixed(key);
  }

  /** The object built by assigning each entry under its key `f(k)`, in order: a later entry overwrites an earlier one. */
  function Rekeyed(entries: RawRow, f: string -> string): CleanRow {
    if entries == [] then map[]
    else
      var last := entries[|entries| - 1];
      Rekeyed(entries[..|entries| - 1], f)[f(last.0) := last.1]
  }

  /** The object `cleanRowKeys(row)` builds. */
  function CleanedRow(entries: RawRow): CleanRow {
    Rekeyed(entries, CleanKey)
  }

  /** `cleanRowKeys(row)` */
  method CleanRowKeys(row: RawRow) returns (next: CleanRow)
    ensures next == CleanedRow(row)
  {
    next := map[];
    for i := 0 to |row|
      invariant next == Rekeyed(row[..i], CleanKey)
    {
      var key := CleanKey(row[i].0);
      RekeyedStep(row, CleanKey, i);
      next := next[key := row[i].1];
    }
    RekeyedAll(row, CleanKey);
  }

  lemma RekeyedAll(entries: RawRow, f: string -> string)
    ensures Rekeyed(entries[..|entries|], f) == Rekeyed(entries, f)
  {
    assert entries[..|entries|] == entries;
  }

  lemma RekeyedStep(entries: RawRow, f: string -> string, i: int)
    requires 0 <= i < |entries|
    ensures Rekeyed(entries[..i + 1], f) == Rekeyed(entries[..i], f)[f(entries[i].0) := entries[i].1]
  {
    assert entries[..i + 1][..i] == entries[..i];
  }

  /** The object has a key exactly for the new key of each entry. */
  lemma {:induction false} RekeyedKeys(entries: RawRow, f: string -> string, k: string)
    ensures k in Rekeyed(entries, f) <==> exists i | 0 <= i < |entries| :: f(entries[i].0) == k
  {
    if entries != [] {
      var p := entries[..|entries| - 1];
      RekeyedKeys(p, f, k);
      if k in Rekeyed(p, f) {
        var i :| 0 <= i < |p| && f(p[i].0) == k;
        assert entries[i] == p[i];
      }
      if exists i | 0 <= i < |entries| :: f(entries[i].0) == k {
        var i :| 0 <= i < |entries| && f(entries[i].0) == k;
        if i < |p| {
          assert p[i] == entries[i];
        }
      }
    }
  }

  /** A key keeps the value of the last entry that maps to it. */
  lemma {:induction false} LastEntryWins(entries: RawRow, f: string -> string, i: int)
    requires 0 <= i < |entries|
    requires forall j | i < j < |entries| :: f(entries[j].0) != f(entries[i].0)
    ensures f(entries[i].0) in Rekeyed(entries, f)
    ensures Rekeyed(entries, f)[f(entries[i].0)] == entries[i].1
  {
    if i < |entries| - 1 {
      var p := entries[..|entries| - 1];
      assert p[i] == entries[i];
      forall j | i < j < |p| ensures f(p[j].0) != f(p[i].0) {
        assert p[j] == entries[j];
      }
      LastEntryWins(p, f, i);
    }
  }

  /** The keys of a cleaned row are the cleaned original keys; each keeps the value of the last entry cleaning to it. */
  lemma CleanedRowContents(entries: RawRow, i: int)
    requires 0 <= i < |entries|
    requires forall j | i < j < |entries| :: CleanKey(entries[j].0) != CleanKey(entries[i].0)
    ensures forall k :: k in CleanedRow(entries) <==> exists j | 0 <= j < |entries| :: CleanKey(entries[j].0) == k
    ensures CleanedRow(entries)[CleanKey(entries[i].0)] == entries[i].1
  {
    forall k ensures k in CleanedRow(entries) <==> exists j | 0 <= j < |entries| :: CleanKey(entries[j].0) == k {
      RekeyedKeys(entries, CleanKey, k);
    }
    LastEntryWins(entries, CleanKey, i);
  }

  // ---------------------------------------------------------------------------
  // Scoring
  // ---------------------------------------------------------------------------

  /** The keys that occur in some row. */
  function Present(rows: seq<CleanRow>): set<string> {
    if rows == [] then {} else Present(rows[..|rows| - 1]) + rows[|rows| - 1].Keys
  }

  lemma {:induction false} PresentIff(rows: seq<CleanRow>, k: string)
    ensures k in Present(rows) <==> exists i | 0 <= i < |rows| :: k in rows[i]
  {
    if rows != [] {
      var p := rows[..|rows| - 1];
      PresentIff(p, k);
      if k in Present(p) {
        var i :| 0 <= i < |p| && k in p[i];
        assert rows[i] == p[i];
      }
      if exists i | 0 <= i < |rows| :: k in rows[i] {
        var i :| 0 <= i < |rows| && k in rows[i];
        if i < |p| {
          assert p[i] == rows[i];
        }
      }
    }
  }

  /** `getPresentColumns(rows)` */
  method GetPresentColumns(rows: seq<CleanRow>) returns (present: set<string>)
    ensures present == Present(rows)
  {
    present := {};
    var i := 0;
    while i < |rows|
      invariant 0 <= i <= |rows|
      invariant present == Present(rows[..i])
    {
      var keys := rows[i].Keys;
      var added: set<string> := {};
      while keys != {}
        invariant added + keys == rows[i].Keys
        invariant present == Present(rows[..i]) + added
        decreases keys
      {
        var k :| k in keys;
        present := present + {k};
        added := added + {k};
        keys := keys - {k};
      }
      assert rows[..i + 1][..i] == rows[..i];
      i := i + 1;
    }
    assert rows[..i] == rows;
  }

  /** `required.filter((c) => !present.has(c))` */
  function MissingColumns(required: seq<string>, present: set<string>): (r: seq<string>)
    ensures |r| <= |required|
    ensures forall c :: c in r <==> c in required && c !in present
  {
    if required == [] then []
    else (if required[0] in present then [] else [required[0]]) + MissingColumns(required[1..], present)
  }

  /** The filter keeps the order of the required list. */
  lemma {:induction false} MissingColumnsAppend(a: seq<string>, b: seq<string>, present: set<string>)
    ensures MissingColumns(a + b, present) == MissingColumns(a, present) + MissingColumns(b, present)
  {
    if a == [] {
      assert a + b == b;
    } else {
      assert (a + b)[0] == a[0];
      assert (a + b)[1..] == a[1..] + b;
      MissingColumnsAppend(a[1..], b, present);
    }
  }

  datatype Scored = Scored(missing: seq<string>, hasAllRequired: bool, score: int)

  /** `scoreSheet(present, rowCount)` */
  function ScoreSheet(present: set<string>, rowCount: int): (r: Scored)
    ensures forall c :: c in r.missing <==> c in RequiredColumns && c !in present
    ensures r.hasAllRequired <==> forall c | c in RequiredColumns :: c in present
    ensures r.hasAllRequired ==> r.score == 1_000_000 + rowCount
    ensures !r.hasAllRequired ==> r.score == rowCount
  {
    var missing := MissingColumns(RequiredColumns, present);
    var hasAll := |missing| == 0;
    assert !hasAll ==> missing[0] in missing;
    Scored(missing, hasAll, (if hasAll then 1_000_000 else 0) + rowCount)
  }

  /** A sheet with every required column beats one without, unless the latter has a million more rows. */
  lemma CompleteSheetWins(p1: set<string>, n1: nat, p2: set<string>, n2: nat)
    requires ScoreSheet(p1, n1).hasAllRequired && !ScoreSheet(p2, n2).hasAllRequired
    requires n2 < 1_000_000 + n1
    ensures ScoreSheet(p1, n1).score > ScoreSheet(p2, n2).score
  {
  }

  // ---------------------------------------------------------------------------
  // Choosing the sheet
  // ---------------------------------------------------------------------------

  datatype Candidate = Candidate(sheetName: string, cleanedRows: seq<CleanRow>, missing: seq<string>, score: int)

  /** `rows.map(cleanRowKeys)` */
  function CleanedRows(rows: seq<RawRow>): (r: seq<CleanRow>)
    ensures |r| == |rows|
    ensures forall i | 0 <= i < |rows| :: r[i] == CleanedRow(rows[i])
  {
    seq(|rows|, i requires 0 <= i < |rows| => CleanedRow(rows[i]))
  }

  /** The candidate a sheet yields. */
  function CandidateOf(name: string, rows: seq<RawRow>): (r: Candidate)
    ensures forall c :: c in r.missing <==> c in RequiredColumns && c !in Present(r.cleanedRows)
  {
    var cleaned := CleanedRows(rows);
    var scored := ScoreSheet(Present(cleaned), |cleaned|);
    Candidate(name, cleaned, scored.missing, scored.score)
  }

  /** The candidates of the sheets that exist, in workbook order. */
  function Candidates(wb: seq<Sheet>): (r: seq<Candidate>)
    ensures |r| <= |wb|
    ensures r == [] <==> forall i | 0 <= i < |wb| :: wb[i].rows.None?
    ensures forall i, c | 0 <= i < |r| && c in r[i].missing :: c in RequiredColumns
  {
    if wb == [] then []
    else
      var last := wb[|wb| - 1];
      Candidates(wb[..|wb| - 1]) + (if last.rows.Some? then [CandidateOf(last.name, last.rows.value)] else [])
  }

  /** The candidate of one sheet, as the `map` callback builds it. */
  method BuildCandidate(sheet: Sheet) returns (c: Option<Candidate>)
    ensures sheet.rows.None? ==> c == None
    ensures sheet.rows.Some? ==> c == Some(CandidateOf(sheet.name, sheet.rows.value))
  {
    if sheet.rows.None? {
      return None;
    }
    var rows := sheet.rows.value;
    var cleaned: seq<CleanRow> := [];
    var i := 0;
    while i < |rows|
      invariant 0 <= i <= |rows|
      invariant cleaned == CleanedRows(rows[..i])
    {
      var r := CleanRowKeys(rows[i]);
      cleaned := cleaned + [r];
      i := i + 1;
    }
    assert rows[..i] == rows;
    var present := GetPresentColumns(cleaned);
    var scored := ScoreSheet(present, |cleaned|);
    c := Some(Candidate(sheet.name, cleaned, scored.missing, scored.score));
  }

  function NegScore(c: Candidate): int {
    -c.score
  }

  /** `candidates.sort((a, b) => b.score - a.score)[0] ?? null`: a stable sort by descending score. */
  function Best(cands: seq<Candidate>): Option<Candidate> {
    var sorted := SortByKey(cands, NegScore);
    if sorted == [] then None else Some(sorted[0])
  }

  /** `k` holds the highest score, and every earlier candidate a lower one. */
  predicate IsFirstMax(cands: seq<Candidate>, k: int) {
    && 0 <= k < |cands|
    && (forall j | 0 <= j < |cands| :: cands[j].score <= cands[k].score)
    && (forall j | 0 <= j < k :: cands[j].score < cands[k].score)
  }

  /** The position of the first candidate with the highest score. */
  function FirstMaxIndex(cands: seq<Candidate>): (k: int)
    requires cands != []
    ensures IsFirstMax(cands, k)
  {
    if |cands| == 1 then 0
    else
      var p := cands[..|cands| - 1];
      var k := FirstMaxIndex(p);
      assert forall j | 0 <= j < |p| :: cands[j] == p[j];
      if cands[|cands| - 1].score > cands[k].score then |cands| - 1 else k
  }

  /** The sheet chosen is the first one with the highest score: the stable sort keeps ties in sheet order. */
  lemma BestIsFirstMax(cands: seq<Candidate>)
    ensures cands == [] <==> Best(cands) == None
    ensures cands != [] ==> Best(cands) == Some(cands[FirstMaxIndex(cands)])
  {
    var sorted := SortByKey(cands, NegScore);
    SortByKeyCorrect(cands, NegScore);
    if cands == [] {
      assert |multiset(sorted)| == 0;
    } else {
      var k := FirstMaxIndex(cands);
      var v := NegScore(cands[k]);
      assert cands[k] in multiset(sorted);
      var m :| 0 <= m < |sorted| && sorted[m] == cands[k];
      assert sorted[0] in multiset(cands);
      var z :| 0 <= z < |cands| && cands[z] == sorted[0];
      assert NegScore(sorted[0]) == v;
      WithKeyHead(sorted, NegScore, v);
      WithKeyFirst(cands, NegScore, v, k);
    }
  }

  lemma WithKeyHead<T>(s: seq<T>, key: T -> int, v: int)
    requires s != [] && key(s[0]) == v
    ensures WithKey(s, key, v) != [] && WithKey(s, key, v)[0] == s[0]
  {
  }

  lemma {:induction false} WithKeyFirst<T>(s: seq<T>, key: T -> int, v: int, k: int)
    requires 0 <= k < |s| && key(s[k]) == v
    requires forall j | 0 <= j < k :: key(s[j]) != v
    ensures WithKey(s, key, v) != [] && WithKey(s, key, v)[0] == s[k]
  {
    if k > 0 {
      WithKeyFirst(s[1..], key, v, k - 1);
    }
  }

  // ---------------------------------------------------------------------------
  // The result
  // ---------------------------------------------------------------------------

  /** `ParseResult`, over the normalised rows the parser collects. */
  datatype ParseResult =
    | Failure(issues: seq<ParseIssue>, preview: seq<CleanRow>)
    | Success(dataset: Dataset<NormalizedRow>, preview: seq<CleanRow>)

  const NoSheetMessage: string := "No se encontr\U{00F3} ninguna hoja en el Excel."
  const NoRowsMessage: string := "El archivo no contiene filas de datos."
  const PreviewSize: nat := 25

  /** `cleanedRows.slice(0, 25)` */
  function Preview(rows: seq<CleanRow>): (r: seq<CleanRow>)
    ensures |r| == if |rows| < PreviewSize then |rows| else PreviewSize
    ensures r <= rows
  {
    if |rows| < PreviewSize then rows else rows[..PreviewSize]
  }

  /** The issues for the missing columns, in order. */
  function MissingIssues(cols: seq<string>): (r: seq<ParseIssue>)
    ensures |r| == |cols|
    ensures forall i | 0 <= i < |cols| ::
      r[i] == ParseIssue(None, Some(cols[i]), "Falta la columna requerida: " + cols[i])
  {
    seq(|cols|, i requires 0 <= i < |cols| => ParseIssue(None, Some(cols[i]), "Falta la columna requerida: " + cols[i]))
  }

  /** What `normalizeRow(rows[i], i)` returns for each row. */
  function Outcomes(rows: seq<CleanRow>): (r: seq<RowOutcome>)
    ensures |r| == |rows|
    ensures forall i | 0 <= i < |rows| :: r[i] == RowResult(rows[i], i)
  {
    seq(|rows|, i requires 0 <= i < |rows| => RowResult(rows[i], i))
  }

  /** The issues of the outcomes, in order. */
  function IssuesOf(outs: seq<RowOutcome>): seq<ParseIssue> {
    if outs == [] then [] else IssuesOf(outs[..|outs| - 1]) + outs[|outs| - 1].issues
  }

  /** The rows of the outcomes that have one, in order. */
  function KeptOf(outs: seq<RowOutcome>): seq<NormalizedRow> {
    if outs == [] then []
    else
      var last := outs[|outs| - 1].row;
      KeptOf(outs[..|outs| - 1]) + (if last.Some? then [last.value] else [])
  }

  /** The issues of the rows, in row order (`rowIndex` is the position). */
  function RowsIssues(rows: seq<CleanRow>): seq<ParseIssue> {
    IssuesOf(Outcomes(rows))
  }

  /** The rows that normalised, in row order. */
  function RowsKept(rows: seq<CleanRow>): seq<NormalizedRow> {
    KeptOf(Outcomes(rows))
  }

  /** What `parseXlsxFile` returns for a workbook, a file name and an import time. */
  function ParseWorkbook(wb: seq<Sheet>, fileName: string, importedAt: string): ParseResult {
    match Best(Candidates(wb))
    case None => Failure([ParseIssue(None, None, NoSheetMessage)], [])
    case Some(best) =>
      var rows := best.cleanedRows;
      if |rows| == 0 then Failure([ParseIssue(None, None, NoRowsMessage)], Preview(rows))
      else
        var issues := MissingIssues(best.missing) + RowsIssues(rows);
        if |issues| > 0 then Failure(issues, Preview(rows))
        else
          var kept := RowsKept(rows);
          Success(Dataset(DatasetMeta(importedAt, fileName, best.sheetName, |kept|), kept), Preview(rows))
  }

  /** `workbook.SheetNames.map(…).filter(…)` */
  method CollectCandidates(wb: seq<Sheet>) returns (cands: seq<Candidate>)
    ensures cands == Candidates(wb)
  {
    cands := [];
    for s := 0 to |wb|
      invariant cands == Candidates(wb[..s])
    {
      var c := BuildCandidate(wb[s]);
      CandidatesSnoc(wb, s);
      if c.Some? {
        cands := cands + [c.value];
      }
    }
    assert wb[..|wb|] == wb;
  }

  lemma CandidatesSnoc(wb: seq<Sheet>, s: nat)
    requires s < |wb|
    ensures Candidates(wb[..s + 1])
            == Candidates(wb[..s]) + (if wb[s].rows.Some? then [CandidateOf(wb[s].name, wb[s].rows.value)] else [])
  {
    assert wb[..s + 1][..s] == wb[..s];
  }

  /** The row loop: each row's issues are appended and each valid row is kept. */
  method NormalizeRows(rows: seq<CleanRow>) returns (issues: seq<ParseIssue>, kept: seq<NormalizedRow>)
    ensures issues == RowsIssues(rows)
    ensures kept == RowsKept(rows)
  {
    ghost var outs := Outcomes(rows);
    issues := [];
    kept := [];
    var i := 0;
    while i < |rows|
      invariant 0 <= i <= |rows|
      invariant issues == IssuesOf(outs[..i])
      invariant kept == KeptOf(outs[..i])
    {
      var row, rowIssues := NormalizeRow(rows[i], i);
      assert outs[..i + 1][..i] == outs[..i];
      assert outs[i] == RowOutcome(row, rowIssues);
      issues := issues + rowIssues;
      if row.Some? {
        kept := kept + [row.value];
      }
      i := i + 1;
    }
    assert outs[..i] == outs;
  }

  /** `parseXlsxFile(file)` once the workbook is decoded. */
  method ParseXlsxFile(wb: seq<Sheet>, fileName: string, importedAt: string) returns (result: ParseResult)
    ensures result == ParseWorkbook(wb, fileName, importedAt)
  {
    var cands := CollectCandidates(wb);
    var best := Best(cands);
    if best.None? {
      return Failure([ParseIssue(None, None, NoSheetMessage)], []);
    }
    var rows := best.value.cleanedRows;
    var preview := Preview(rows);
    if |rows| == 0 {
      return Failure([ParseIssue(None, None, NoRowsMessage)], preview);
    }
    var issues := MissingIssues(best.value.missing);
    var rowIssues, kept := NormalizeRows(rows);
    issues := issues + rowIssues;
    if |issues| > 0 {
      return Failure(issues, preview);
    }
    result := Success(Dataset(DatasetMeta(importedAt, fileName, best.value.sheetName, |kept|), kept), preview);
  }

  // ---------------------------------------------------------------------------
  // Properties
  // ---------------------------------------------------------------------------

  /** A workbook without sheets is rejected with one issue and an empty preview. */
  lemma NoSheetRejected(wb: seq<Sheet>, fileName: string, importedAt: string)
    requires forall i | 0 <= i < |wb| :: wb[i].rows.None?
    ensures ParseWorkbook(wb, fileName, importedAt) == Failure([ParseIssue(None, None, NoSheetMessage)], [])
  {
    BestIsFirstMax(Candidates(wb));
  }

  /** The chosen sheet: the first existing sheet with the highest score. */
  function Chosen(wb: seq<Sheet>): (c: Option<Candidate>)
    ensures c.None? <==> forall i | 0 <= i < |wb| :: wb[i].rows.None?
  {
    if Candidates(wb) == [] then None else Some(Candidates(wb)[FirstMaxIndex(Candidates(wb))])
  }

  /** The preview is the first 25 cleaned rows of the chosen sheet (all of them when fewer). */
  lemma PreviewOfChosen(wb: seq<Sheet>, fileName: string, importedAt: string)
    requires Chosen(wb).Some?
    ensures ParseWorkbook(wb, fileName, importedAt).preview == Preview(Chosen(wb).value.cleanedRows)
  {
    BestIsFirstMax(Candidates(wb));
  }

  /** An empty chosen sheet is rejected with the "no rows" issue alone. */
  lemma EmptySheetRejected(wb: seq<Sheet>, fileName: string, importedAt: string)
    requires Chosen(wb).Some? && Chosen(wb).value.cleanedRows == []
    ensures ParseWorkbook(wb, fileName, importedAt) == Failure([ParseIssue(None, None, NoRowsMessage)], [])
  {
    BestIsFirstMax(Candidates(wb));
  }

  /** Outcome `i` reports its issues under row `i`. */
  predicate IssuesNamePosition(outs: seq<RowOutcome>) {
    forall i, a | 0 <= i < |outs| && 0 <= a < |outs[i].issues| :: outs[i].issues[a].rowIndex == Some(i)
  }

  lemma {:induction false} IssuesOfOrdered(outs: seq<RowOutcome>)
    requires IssuesNamePosition(outs)
    ensures forall a | 0 <= a < |IssuesOf(outs)| ::
      IssuesOf(outs)[a].rowIndex.Some? && 0 <= IssuesOf(outs)[a].rowIndex.value < |outs|
    ensures forall a, b | 0 <= a < b < |IssuesOf(outs)| ::
      IssuesOf(outs)[a].rowIndex.value <= IssuesOf(outs)[b].rowIndex.value
  {
    if outs != [] {
      var n := |outs| - 1;
      var p := outs[..n];
      assert IssuesNamePosition(p) by {
        forall i, a | 0 <= i < |p| && 0 <= a < |p[i].issues| ensures p[i].issues[a].rowIndex == Some(i) {
          assert p[i] == outs[i];
        }
      }
      IssuesOfOrdered(p);
      assert IssuesOf(outs) == IssuesOf(p) + outs[n].issues;
    }
  }

  /** Every row issue names a row of the sheet, and row issues come in row order. */
  lemma RowsIssuesOrdered(rows: seq<CleanRow>)
    ensures forall a | 0 <= a < |RowsIssues(rows)| ::
      RowsIssues(rows)[a].rowIndex.Some? && 0 <= RowsIssues(rows)[a].rowIndex.value < |rows|
    ensures forall a, b | 0 <= a < b < |RowsIssues(rows)| ::
      RowsIssues(rows)[a].rowIndex.value <= RowsIssues(rows)[b].rowIndex.value
  {
    var outs := Outcomes(rows);
    forall i | 0 <= i < |rows| ensures forall a | 0 <= a < |outs[i].issues| :: outs[i].issues[a].rowIndex == Some(i) {
      IssuesNameRowAndColumn(rows[i], i);
    }
    IssuesOfOrdered(outs);
  }

  /** On failure after the checks, missing-column issues (with no row) come first, then the row issues in row order. */
  lemma IssueOrder(wb: seq<Sheet>, fileName: string, importedAt: string)
    requires Chosen(wb).Some? && Chosen(wb).value.cleanedRows != []
    requires ParseWorkbook(wb, fileName, importedAt).Failure?
    ensures var issues := ParseWorkbook(wb, fileName, importedAt).issues;
      var m := |Chosen(wb).value.missing|;
      && m <= |issues|
      && (forall a | 0 <= a < m :: issues[a].rowIndex.None? && issues[a].column.Some? && issues[a].column.value in RequiredColumns)
      && (forall a | m <= a < |issues| :: issues[a].rowIndex.Some?)
      && (forall a, b | m <= a < b < |issues| :: issues[a].rowIndex.value <= issues[b].rowIndex.value)
  {
    BestIsFirstMax(Candidates(wb));
    var best := Chosen(wb).value;
    RowsIssuesOrdered(best.cleanedRows);
    var issues := ParseWorkbook(wb, fileName, importedAt).issues;
    var p := MissingIssues(best.missing);
    var q := RowsIssues(best.cleanedRows);
    assert issues == p + q;
    forall a | |p| <= a < |issues| ensures issues[a] == q[a - |p|] {
    }
  }

  /** Every outcome has a row exactly when it has no issue. */
  predicate RowIffNone(outs: seq<RowOutcome>) {
    forall i | 0 <= i < |outs| :: outs[i].row.None? <==> |outs[i].issues| > 0
  }

  lemma {:induction false} KeptOfAll(outs: seq<RowOutcome>)
    requires RowIffNone(outs) && IssuesOf(outs) == []
    ensures |KeptOf(outs)| == |outs|
    ensures forall i | 0 <= i < |outs| :: outs[i].row == Some(KeptOf(outs)[i])
  {
    if outs != [] {
      var n := |outs| - 1;
      var p := outs[..n];
      assert IssuesOf(outs) == IssuesOf(p) + outs[n].issues;
      assert RowIffNone(p) by {
        forall i | 0 <= i < |p| ensures p[i] == outs[i] {
        }
      }
      KeptOfAll(p);
      assert KeptOf(outs) == KeptOf(p) + [outs[n].row.value];
      forall i | 0 <= i < n ensures p[i] == outs[i] {
      }
    }
  }

  lemma RowsKeptAll(rows: seq<CleanRow>)
    requires RowsIssues(rows) == []
    ensures |RowsKept(rows)| == |rows|
    ensures forall i | 0 <= i < |rows| :: RowResult(rows[i], i).row == Some(RowsKept(rows)[i])
  {
    var outs := Outcomes(rows);
    forall i | 0 <= i < |rows| ensures outs[i].row.None? <==> |outs[i].issues| > 0 {
      RowIffNoIssues(rows[i], i);
    }
    KeptOfAll(outs);
  }

  /** A file is accepted exactly when there is a non-empty chosen sheet with every required column and every row is valid; then every row is kept, in order. */
  lemma AcceptedIff(wb: seq<Sheet>, fileName: string, importedAt: string)
    ensures ParseWorkbook(wb, fileName, importedAt).Success? <==>
      && Chosen(wb).Some?
      && Chosen(wb).value.cleanedRows != []
      && Chosen(wb).value.missing == []
      && RowsIssues(Chosen(wb).value.cleanedRows) == []
    ensures ParseWorkbook(wb, fileName, importedAt).Success? ==>
      var d := ParseWorkbook(wb, fileName, importedAt).dataset;
      var rows := Chosen(wb).value.cleanedRows;
      && d.meta.rowCount == |d.rows| == |rows|
      && d.meta.sheetName == Chosen(wb).value.sheetName
      && d.meta.sourceFileName == fileName
      && (forall i | 0 <= i < |rows| :: RowResult(rows[i], i).row == Some(d.rows[i]))
  {
    BestIsFirstMax(Candidates(wb));
    if ParseWorkbook(wb, fileName, importedAt).Success? {
      RowsKeptAll(Chosen(wb).value.cleanedRows);
    }
  }
}
