/**
 * The acceptance rules of the snapshot upload route
 * (src/app/api/snapshot/route.ts): the admin-key check, the upload mode,
 * the `x-replace-bases` header and the "missing / extra Tipo Base" checks
 * that run before the snapshot is written. The HTTP plumbing (form data,
 * JSON responses, the catch-all 500) and `applySnapshotUpdate` itself are
 * not modelled: an accepted upload is the update handed to it.
 */
module SnapshotRoute {
  import opened Wrappers
  import opened Text
  import opened Rows
  import opened Ordering
  import opened Grouping
  import opened ParseXlsx

  // ---------------------------------------------------------------------------
  // assertAdmin
  // ---------------------------------------------------------------------------

  const DefaultAdminKey: string := "admin123"

  /** `process.env.DASHBOARD_ADMIN_KEY || "admin123"`: an unset or empty variable falls back to the default. */
  function ExpectedKey(env: Option<string>): (k: string)
    ensures k != []
    ensures env.Some? && env.value != [] ==> k == env.value
  {
    if env.Some? && env.value != [] then env.value else DefaultAdminKey
  }

  /** Why a request is refused; `Message` gives the text the JSON body carries. */
  datatype Refusal =
    | Unauthorized
    | Misconfigured
    | NotMultipart
    | NoFiles
    | BasesNotFound(bases: seq<string>, missing: seq<string>)
    | BasesNotSelected(extra: seq<string>)

  datatype Auth = Authorized | Denied(status: int, reason: Refusal)

  /**
   * `assertAdmin`: the request passes exactly when its `x-admin-key` is the
   * expected key. The expected key is never empty, so the 500 branch is
   * never taken and every refusal is a 401.
   */
  function AssertAdmin(env: Option<string>, got: Option<string>): (a: Auth)
    ensures a.Authorized? <==> got == Some(ExpectedKey(env))
    ensures a.Denied? ==> a == Denied(401, Unauthorized)
  {
    var expected := ExpectedKey(env);
    if expected == [] then Denied(500, Misconfigured)
    else if got.None? || got.value == [] || got.value != expected then Denied(401, Unauthorized)
    else Authorized
  }

  // ---------------------------------------------------------------------------
  // Headers
  // ---------------------------------------------------------------------------

  datatype Mode = Append | Replace

  /** `x-upload-mode`: "append" only when the header is exactly "append". */
  function UploadMode(header: Option<string>): (m: Mode)
    ensures m == Append <==> header == Some("append")
  {
    if header == Some("append") then Append else Replace
  }

  /** `parts.join(sep)` */
  function Join(parts: seq<string>, sep: string): string {
    if parts == [] then []
    else if |parts| == 1 then parts[0]
    else Join(Init(parts), sep) + sep + Last(parts)
  }

  /** Appending to the last part appends to the joined text. */
  lemma JoinExtendLast(parts: seq<string>, sep: string, c: char)
    requires parts != []
    ensures Join(Init(parts) + [Last(parts) + [c]], sep) == Join(parts, sep) + [c]
  {
    var parts' := Init(parts) + [Last(parts) + [c]];
    assert Init(parts') == Init(parts) && Last(parts') == Last(parts) + [c];
  }

  /** `s.split(sep)`: the pieces between separators, at least one; joined back they give `s`. */
  function Split(s: string, sep: char): (parts: seq<string>)
    ensures |parts| >= 1
    ensures forall i | 0 <= i < |parts| :: sep !in parts[i]
    ensures Join(parts, [sep]) == s
  {
    if s == [] then [[]]
    else
      var p := Split(Init(s), sep);
      var c := Last(s);
      InitLast(s);
      if c == sep then
        assert Init(p + [[]]) == p;
        p + [[]]
      else
        JoinExtendLast(p, [sep], c);
        Init(p) + [Last(p) + [c]]
  }

  predicate NonEmpty(s: string) {
    s != []
  }

  /** `(header ?? "").split(",").map((s) => s.trim()).filter(Boolean)` */
  function ReplaceBases(header: Option<string>): seq<string> {
    Filter(MapSeq(Split(header.GetOr(""), ','), Trim), NonEmpty)
  }

  /** Trimming a piece without commas leaves no comma. */
  lemma TrimNoComma(p: string)
    requires ',' !in p
    ensures ',' !in Trim(p)
  {
    var k := TrimSlice(p);
  }

  /** The trimmed pieces hold exactly the trimmed forms of the pieces. */
  lemma TrimmedMembers(parts: seq<string>, b: string)
    ensures b in MapSeq(parts, Trim) <==> exists p | p in parts :: Trim(p) == b
  {
    var trimmed := MapSeq(parts, Trim);
    if b in trimmed {
      var i :| 0 <= i < |trimmed| && trimmed[i] == b;
      assert parts[i] in parts;
    }
    if exists p | p in parts :: Trim(p) == b {
      var p :| p in parts && Trim(p) == b;
      var i :| 0 <= i < |parts| && parts[i] == p;
      assert trimmed[i] == b;
    }
  }

  /** Of pieces without commas, the non-empty trimmed ones are trimmed and hold no comma. */
  lemma TrimmedPieces(parts: seq<string>, b: string)
    requires forall p | p in parts :: ',' !in p
    ensures b in Filter(MapSeq(parts, Trim), NonEmpty) <==> b != [] && exists p | p in parts :: Trim(p) == b
    ensures b in Filter(MapSeq(parts, Trim), NonEmpty) ==> Trim(b) == b && ',' !in b
  {
    TrimmedMembers(parts, b);
    if b in Filter(MapSeq(parts, Trim), NonEmpty) {
      var p :| p in parts && Trim(p) == b;
      TrimIdempotent(p);
      TrimNoComma(p);
    }
  }

  /** No piece of a split holds the separator. */
  lemma SplitPieces(s: string, sep: char)
    ensures forall p | p in Split(s, sep) :: sep !in p
  {
    var parts := Split(s, sep);
    forall p | p in parts ensures sep !in p {
      var i :| 0 <= i < |parts| && parts[i] == p;
    }
  }

  /**
   * The selected bases are exactly the non-empty trimmed pieces between
   * commas: each is non-empty, already trimmed and holds no comma.
   */
  lemma ReplaceBasesPieces(header: Option<string>, b: string)
    ensures b in ReplaceBases(header) <==> b != [] && exists p | p in Split(header.GetOr(""), ',') :: Trim(p) == b
    ensures b in ReplaceBases(header) ==> Trim(b) == b && ',' !in b
  {
    SplitPieces(header.GetOr(""), ',');
    TrimmedPieces(Split(header.GetOr(""), ','), b);
  }

  // ---------------------------------------------------------------------------
  // The replace-bases check
  // ---------------------------------------------------------------------------

  /** `String(r.tipoBase ?? "").trim()`, lower-cased, when it is not empty: the base a row brings. */
  function FoundKey<R>(tipoOf: R -> Option<string>, r: R): Option<string> {
    var t := Trim(tipoOf(r).GetOr(""));
    if t != [] then Some(Lower(t)) else None
  }

  /** The bases the rows of one dataset bring, in row order. */
  function RowKeys<R>(rows: seq<R>, tipoOf: R -> Option<string>): seq<string> {
    if rows == [] then []
    else
      var k := FoundKey(tipoOf, Last(rows));
      RowKeys(Init(rows), tipoOf) + (if k.Some? then [k.value] else [])
  }

  /** The bases all datasets bring, file by file. */
  function FoundKeys<R>(ds: seq<seq<R>>, tipoOf: R -> Option<string>): seq<string> {
    if ds == [] then [] else FoundKeys(Init(ds), tipoOf) + RowKeys(Last(ds), tipoOf)
  }

  lemma {:induction false} RowKeysMembers<R>(rows: seq<R>, tipoOf: R -> Option<string>, k: string)
    ensures k in RowKeys(rows, tipoOf) <==> exists j | 0 <= j < |rows| :: FoundKey(tipoOf, rows[j]) == Some(k)
  {
    if rows != [] {
      RowKeysMembers(Init(rows), tipoOf, k);
      InitLast(rows);
      if exists j | 0 <= j < |rows| :: FoundKey(tipoOf, rows[j]) == Some(k) {
        var j :| 0 <= j < |rows| && FoundKey(tipoOf, rows[j]) == Some(k);
        if j < |rows| - 1 {
          assert Init(rows)[j] == rows[j];
        }
      }
      if exists j | 0 <= j < |Init(rows)| :: FoundKey(tipoOf, Init(rows)[j]) == Some(k) {
        var j :| 0 <= j < |Init(rows)| && FoundKey(tipoOf, Init(rows)[j]) == Some(k);
        assert rows[j] == Init(rows)[j];
      }
    }
  }

  /** A base is found exactly when some row of some file brings it. */
  lemma {:induction false} FoundKeysMembers<R>(ds: seq<seq<R>>, tipoOf: R -> Option<string>, k: string)
    ensures k in FoundKeys(ds, tipoOf) <==>
      exists i, j | 0 <= i < |ds| && 0 <= j < |ds[i]| :: FoundKey(tipoOf, ds[i][j]) == Some(k)
  {
    if ds != [] {
      FoundKeysMembers(Init(ds), tipoOf, k);
      RowKeysMembers(Last(ds), tipoOf, k);
      InitLast(ds);
      if exists i, j | 0 <= i < |ds| && 0 <= j < |ds[i]| :: FoundKey(tipoOf, ds[i][j]) == Some(k) {
        var i, j :| 0 <= i < |ds| && 0 <= j < |ds[i]| && FoundKey(tipoOf, ds[i][j]) == Some(k);
        if i < |ds| - 1 {
          assert Init(ds)[i] == ds[i];
        }
      }
      if exists i, j | 0 <= i < |Init(ds)| && 0 <= j < |Init(ds)[i]| :: FoundKey(tipoOf, Init(ds)[i][j]) == Some(k) {
        var i, j :| 0 <= i < |Init(ds)| && 0 <= j < |Init(ds)[i]| && FoundKey(tipoOf, Init(ds)[i][j]) == Some(k);
        assert ds[i] == Init(ds)[i];
      }
    }
  }

  lemma DistinctSnoc<T>(s: seq<T>, x: T)
    ensures Distinct(s + [x]) == if x in Distinct(s) then Distinct(s) else Distinct(s) + [x]
  {
    assert (s + [x])[..|s|] == s;
  }

  /** One more row adds its base, if it brings one, after the bases already listed. */
  lemma RowKeysSnoc<R>(before: seq<string>, rows: seq<R>, r: R, tipoOf: R -> Option<string>)
    ensures before + RowKeys(rows + [r], tipoOf)
            == (before + RowKeys(rows, tipoOf)) + (if FoundKey(tipoOf, r).Some? then [FoundKey(tipoOf, r).value] else [])
  {
    assert Init(rows + [r]) == rows;
  }

  /** `if (t) found.add(t)` */
  function AddFound(found: seq<string>, t: Option<string>): seq<string> {
    if t.Some? && t.value !in found then found + [t.value] else found
  }

  /** One step of the inner loop: a new base is appended, a known one or none leaves `found` as it is. */
  lemma CollectStep<R>(found: seq<string>, before: seq<string>, rows: seq<R>, j: nat, tipoOf: R -> Option<string>)
    requires j < |rows| && found == Distinct(before + RowKeys(rows[..j], tipoOf))
    ensures AddFound(found, FoundKey(tipoOf, rows[j])) == Distinct(before + RowKeys(rows[..j + 1], tipoOf))
  {
    PrefixSnoc(rows, j);
    RowKeysSnoc(before, rows[..j], rows[j], tipoOf);
    var keys := before + RowKeys(rows[..j], tipoOf);
    var t := FoundKey(tipoOf, rows[j]);
    if t.Some? {
      assert before + RowKeys(rows[..j + 1], tipoOf) == keys + [t.value];
      DistinctSnoc(keys, t.value);
    } else {
      assert before + RowKeys(rows[..j + 1], tipoOf) == keys + [];
      assert keys + [] == keys;
    }
  }

  /**
   * The outer loop that fills `found`, a JavaScript `Set` kept here as its
   * elements in insertion order: every dataset in turn.
   */
  method CollectFound<R>(ds: seq<seq<R>>, tipoOf: R -> Option<string>) returns (found: seq<string>)
    ensures found == Distinct(FoundKeys(ds, tipoOf))
  {
    found := [];
    for i := 0 to |ds|
      invariant found == Distinct(FoundKeys(ds[..i], tipoOf))
    {
      found := CollectRows(found, FoundKeys(ds[..i], tipoOf), ds[i], tipoOf);
      PrefixSnoc(ds, i);
      assert Init(ds[..i + 1]) == ds[..i] && Last(ds[..i + 1]) == ds[i];
    }
    assert ds[..|ds|] == ds;
  }

  /** The inner loop: adds the bases one dataset's rows bring to `found`, the set of the bases in `before`. */
  method CollectRows<R>(found: seq<string>, ghost before: seq<string>, rows: seq<R>, tipoOf: R -> Option<string>)
    returns (found': seq<string>)
    requires found == Distinct(before)
    ensures found' == Distinct(before + RowKeys(rows, tipoOf))
  {
    found' := found;
    assert rows[..0] == [] && before + [] == before;
    for j := 0 to |rows|
      invariant found' == Distinct(before + RowKeys(rows[..j], tipoOf))
    {
      CollectStep(found', before, rows, j, tipoOf);
      found' := AddFound(found', FoundKey(tipoOf, rows[j]));
    }
    assert rows[..|rows|] == rows;
  }

  /** The outcome of the replace-bases check. */
  datatype BaseCheck = BasesOk | MissingBases(missing: seq<string>) | ExtraBases(extra: seq<string>)

  /** A selected base no row brings. */
  function Unfound(found: seq<string>): string -> bool {
    b => Lower(b) !in found
  }

  /** A found base that was not selected. */
  function Unselected(selected: seq<string>): string -> bool {
    k => k !in selected
  }

  /** The selected bases lower-cased (`new Set(replaceBases.map((b) => b.toLowerCase()))`). */
  function Selected(bases: seq<string>): seq<string> {
    MapSeq(bases, Lower)
  }

  /** The bases in `found` that were not selected, sorted (`foundArr.filter(...)`). */
  function Extra(bases: seq<string>, found: seq<string>): seq<string> {
    Filter(SortDistinct(found, StrLt), Unselected(Selected(bases)))
  }

  /**
   * `missing`, then `extra`: selected bases (as written, compared
   * lower-cased) that no row brings come first; otherwise the found bases,
   * sorted, that were not selected.
   */
  function CheckBases(bases: seq<string>, found: seq<string>): BaseCheck {
    var missing := Filter(bases, Unfound(found));
    if |missing| > 0 then MissingBases(missing)
    else if |Extra(bases, found)| > 0 then ExtraBases(Extra(bases, found))
    else BasesOk
  }

  /** `Selected(bases)` holds exactly the lower-cased bases. */
  lemma SelectedMembers(bases: seq<string>, k: string)
    ensures k in Selected(bases) <==> exists b | b in bases :: Lower(b) == k
  {
    var lowered := Selected(bases);
    if k in lowered {
      var i :| 0 <= i < |lowered| && lowered[i] == k;
      assert bases[i] in bases;
    }
    if exists b | b in bases :: Lower(b) == k {
      var b :| b in bases && Lower(b) == k;
      var i :| 0 <= i < |bases| && bases[i] == b;
      assert lowered[i] == k;
    }
  }

  /** The extra bases: sorted, and exactly the found bases no selected base lower-cases to. */
  lemma ExtraMembers(bases: seq<string>, found: seq<string>)
    ensures StrictlySorted(Extra(bases, found), StrLt)
    ensures forall k :: k in Extra(bases, found) <==> k in found && k !in Selected(bases)
  {
    StrLtIsOrder();
    SortDistinctCorrect(found, StrLt);
    FilterSorted(SortDistinct(found, StrLt), Unselected(Selected(bases)), StrLt);
  }

  /** A selected base that no row brings is reported, before any extra base, with every other such base. */
  lemma CheckMissingFirst(bases: seq<string>, found: seq<string>)
    ensures CheckBases(bases, found).MissingBases? <==> exists b | b in bases :: Lower(b) !in found
    ensures CheckBases(bases, found).MissingBases? ==>
      forall b :: b in CheckBases(bases, found).missing <==> b in bases && Lower(b) !in found
  {
    var missing := Filter(bases, Unfound(found));
    MissingMembers(bases, found);
    assert CheckBases(bases, found).MissingBases? <==> |missing| > 0;
    assert (exists b | b in bases :: Lower(b) !in found) <==> |missing| > 0 by {
      if exists b | b in bases :: Lower(b) !in found {
        var b :| b in bases && Lower(b) !in found;
        assert b in missing;
      }
      if |missing| > 0 {
        assert missing[0] in missing;
      }
    }
  }

  lemma MissingMembers(bases: seq<string>, found: seq<string>)
    ensures forall b :: b in Filter(bases, Unfound(found)) <==> b in bases && Lower(b) !in found
  {
    forall b ensures b in Filter(bases, Unfound(found)) <==> b in bases && Lower(b) !in found {
      assert Unfound(found)(b) == (Lower(b) !in found);
    }
  }

  /**
   * The check passes exactly when the selection and the found bases agree,
   * up to case: every selected base is found and every found base was
   * selected. Extra bases are reported sorted, and are exactly the found
   * bases no selected base names.
   */
  lemma CheckBasesSound(bases: seq<string>, found: seq<string>)
    ensures CheckBases(bases, found).BasesOk? <==>
      && (forall b | b in bases :: Lower(b) in found)
      && (forall k | k in found :: exists b | b in bases :: Lower(b) == k)
    ensures CheckBases(bases, found).ExtraBases? ==>
      && StrictlySorted(CheckBases(bases, found).extra, StrLt)
      && forall k :: k in CheckBases(bases, found).extra <==> k in found && forall b | b in bases :: Lower(b) != k
  {
    CheckMissingFirst(bases, found);
    ExtraMembers(bases, found);
    forall k ensures k in Selected(bases) <==> exists b | b in bases :: Lower(b) == k {
      SelectedMembers(bases, k);
    }
    if |Extra(bases, found)| > 0 {
      assert Extra(bases, found)[0] in Extra(bases, found);
    }
  }

  // ---------------------------------------------------------------------------
  // POST
  // ---------------------------------------------------------------------------

  /** The headers and environment the handler reads. */
  datatype Request = Request(
    envAdminKey: Option<string>,
    adminKey: Option<string>,
    contentType: Option<string>,
    uploadMode: Option<string>,
    replaceBases: Option<string>)

  /** One `file` field: its name and what `parseXlsxFile` returned for it. */
  datatype Upload = Upload(name: string, parsed: ParseResult)

  /** An upload whose workbook decoded to `wb`, parsed at `importedAt`. */
  function UploadOf(name: string, wb: seq<Sheet>, importedAt: string): Upload {
    Upload(name, ParseWorkbook(wb, name, importedAt))
  }

  /** The arguments of `applySnapshotUpdate`. */
  datatype Update = Update(
    mode: Mode,
    datasets: seq<Dataset<NormalizedRow>>,
    fileNames: seq<string>,
    replaceBases: Option<seq<string>>)

  /** What the handler does: refuse with a status and message, return a failed parse, or apply an update. */
  datatype Response =
    | Refused(status: int, reason: Refusal)
    | InvalidFile(result: ParseResult)
    | Applied(update: Update)

  const Multipart: string := "multipart/form-data"

  /** `content-type` names a multipart body. */
  predicate IsMultipart(contentType: Option<string>) {
    Contains(contentType.GetOr(""), Multipart)
  }

  /** The `error` text of each refusal. */
  function Message(r: Refusal): string {
    match r
    case Unauthorized => "Unauthorized."
    case Misconfigured => "Server misconfigured."
    case NotMultipart => "Expected multipart/form-data with a file field."
    case NoFiles => "Missing file field(s)."
    case BasesNotFound(bases, missing) =>
      "Reemplazo inv\U{00E1}lido: seleccionaste " + Join(bases, ", ") + " pero el/los archivo(s) no traen filas para "
      + Join(missing, ", ") + "."
    case BasesNotSelected(extra) =>
      "Reemplazo inv\U{00E1}lido: el/los archivo(s) contienen Tipo Base adicional (" + Join(extra, ", ")
      + "). Selecciona esas bases tambi\U{00E9}n o usa Agregar."
  }

  /** The index of the first failed parse, if any (`parsedResults.find((r) => !r.ok)`). */
  function FirstFailure(files: seq<Upload>): (i: Option<nat>)
    ensures i.Some? ==> i.value < |files| && files[i.value].parsed.Failure?
    ensures i.Some? ==> forall j | 0 <= j < i.value :: files[j].parsed.Success?
    ensures i.None? ==> forall j | 0 <= j < |files| :: files[j].parsed.Success?
  {
    if files == [] then None
    else if files[0].parsed.Failure? then Some(0)
    else
      var rest := FirstFailure(files[1..]);
      if rest.Some? then Some(rest.value + 1) else None
  }

  predicate AllParsed(files: seq<Upload>) {
    forall j | 0 <= j < |files| :: files[j].parsed.Success?
  }

  function DatasetsOf(files: seq<Upload>): (ds: seq<Dataset<NormalizedRow>>)
    requires AllParsed(files)
    ensures |ds| == |files| && forall j | 0 <= j < |files| :: ds[j] == files[j].parsed.dataset
  {
    seq(|files|, j requires 0 <= j < |files| => files[j].parsed.dataset)
  }

  function RowsOf(ds: seq<Dataset<NormalizedRow>>): (rows: seq<seq<NormalizedRow>>)
    ensures |rows| == |ds| && forall i | 0 <= i < |ds| :: rows[i] == ds[i].rows
  {
    seq(|ds|, i requires 0 <= i < |ds| => ds[i].rows)
  }

  function NamesOf(files: seq<Upload>): (names: seq<string>)
    ensures |names| == |files| && forall i | 0 <= i < |files| :: names[i] == files[i].name
  {
    seq(|files|, i requires 0 <= i < |files| => files[i].name)
  }

  /** The bases the parsed files bring, as the `found` set, in insertion order. */
  function Found(files: seq<Upload>, tipoOf: NormalizedRow -> Option<string>): seq<string>
    requires AllParsed(files)
  {
    Distinct(FoundKeys(RowsOf(DatasetsOf(files)), tipoOf))
  }

  /** The replace-bases check of a request whose files all parsed; appending or selecting nothing skips it. */
  function BasesCheckOf(req: Request, files: seq<Upload>, tipoOf: NormalizedRow -> Option<string>): BaseCheck
    requires AllParsed(files)
  {
    var bases := ReplaceBases(req.replaceBases);
    if UploadMode(req.uploadMode) == Replace && |bases| > 0 then CheckBases(bases, Found(files, tipoOf))
    else BasesOk
  }

  /** The answer once the check has run: a refusal naming what is wrong, or the update. */
  function Decide(mode: Mode, bases: seq<string>, check: BaseCheck, files: seq<Upload>): Response
    requires AllParsed(files)
  {
    match check
    case MissingBases(missing) => Refused(400, BasesNotFound(bases, missing))
    case ExtraBases(extra) => Refused(400, BasesNotSelected(extra))
    case BasesOk => Applied(Update(mode, DatasetsOf(files), NamesOf(files), if mode == Replace then Some(bases) else None))
  }

  /** What follows a successful parse of every file: the replace-bases check, then the update. */
  function Accept(req: Request, files: seq<Upload>, tipoOf: NormalizedRow -> Option<string>): Response
    requires AllParsed(files)
  {
    Decide(UploadMode(req.uploadMode), ReplaceBases(req.replaceBases), BasesCheckOf(req, files, tipoOf), files)
  }

  /**
   * `POST` as a decision on the request and the parsed files, given how a
   * row's Tipo Base is read (`tipoOf`). The checks run in the source's
   * order and every refusal comes before the update.
   */
  function Post(req: Request, files: seq<Upload>, tipoOf: NormalizedRow -> Option<string>): Response {
    var auth := AssertAdmin(req.envAdminKey, req.adminKey);
    if auth.Denied? then Refused(auth.status, auth.reason)
    else if !IsMultipart(req.contentType) then Refused(400, NotMultipart)
    else if |files| == 0 then Refused(400, NoFiles)
    else
      var bad := FirstFailure(files);
      if bad.Some? then InvalidFile(files[bad.value].parsed)
      else Accept(req, files, tipoOf)
  }

  /** The handler, written as the source's sequence of early returns. */
  method HandlePost(req: Request, files: seq<Upload>, tipoOf: NormalizedRow -> Option<string>)
    returns (resp: Response)
    ensures resp == Post(req, files, tipoOf)
  {
    var auth := AssertAdmin(req.envAdminKey, req.adminKey);
    if auth.Denied? {
      return Refused(auth.status, auth.reason);
    }
    if !IsMultipart(req.contentType) {
      return Refused(400, NotMultipart);
    }
    if |files| == 0 {
      return Refused(400, NoFiles);
    }
    var bad := FirstFailure(files);
    if bad.Some? {
      return InvalidFile(files[bad.value].parsed);
    }
    resp := HandleParsed(req, files, tipoOf);
  }

  /** The rest of the handler once every file parsed: the nested loops, the two rejections, the update. */
  method HandleParsed(req: Request, files: seq<Upload>, tipoOf: NormalizedRow -> Option<string>)
    returns (resp: Response)
    requires AllParsed(files)
    ensures resp == Accept(req, files, tipoOf)
  {
    var mode := UploadMode(req.uploadMode);
    var bases := ReplaceBases(req.replaceBases);
    var check := BasesOk;
    if mode == Replace && |bases| > 0 {
      var found := CollectFound(RowsOf(DatasetsOf(files)), tipoOf);
      check := CheckBases(bases, found);
    }
    assert check == BasesCheckOf(req, files, tipoOf);
    if check.MissingBases? {
      return Refused(400, BasesNotFound(bases, check.missing));
    }
    if check.ExtraBases? {
      return Refused(400, BasesNotSelected(check.extra));
    }
    resp := Applied(Update(mode, DatasetsOf(files), NamesOf(files), if mode == Replace then Some(bases) else None));
  }

  /**
   * An update is applied exactly when the key matches, the body is
   * multipart, there is a file, every file parsed, and the replace-bases
   * check passes.
   */
  lemma PostApplies(req: Request, files: seq<Upload>, tipoOf: NormalizedRow -> Option<string>)
    ensures Post(req, files, tipoOf).Applied? <==>
      && req.adminKey == Some(ExpectedKey(req.envAdminKey))
      && IsMultipart(req.contentType)
      && |files| > 0
      && AllParsed(files)
      && BasesCheckOf(req, files, tipoOf).BasesOk?
  {
    var auth := AssertAdmin(req.envAdminKey, req.adminKey);
    if auth.Denied? {
      assert Post(req, files, tipoOf) == Refused(auth.status, auth.reason);
    } else if !IsMultipart(req.contentType) {
      assert Post(req, files, tipoOf) == Refused(400, NotMultipart);
    } else if |files| == 0 {
      assert Post(req, files, tipoOf) == Refused(400, NoFiles);
    } else if FirstFailure(files).Some? {
      assert Post(req, files, tipoOf).InvalidFile?;
      assert !AllParsed(files);
    } else {
      assert Post(req, files, tipoOf) == Accept(req, files, tipoOf);
      DecideApplied(UploadMode(req.uploadMode), ReplaceBases(req.replaceBases), BasesCheckOf(req, files, tipoOf), files);
    }
  }

  /** A request with the right key, a multipart body and files that all parsed reaches the replace-bases check. */
  lemma PostAccepts(req: Request, files: seq<Upload>, tipoOf: NormalizedRow -> Option<string>)
    requires req.adminKey == Some(ExpectedKey(req.envAdminKey)) && IsMultipart(req.contentType)
    requires |files| > 0 && AllParsed(files)
    ensures Post(req, files, tipoOf) == Accept(req, files, tipoOf)
  {
    assert FirstFailure(files).None?;
  }

  lemma DecideApplied(mode: Mode, bases: seq<string>, check: BaseCheck, files: seq<Upload>)
    requires AllParsed(files)
    ensures Decide(mode, bases, check, files).Applied? <==> check.BasesOk?
  {
  }

  /**
   * An applied update carries every file's dataset and name, in order, the
   * mode, and the selected bases exactly in replace mode.
   */
  lemma AppliedUpdate(req: Request, files: seq<Upload>, tipoOf: NormalizedRow -> Option<string>)
    requires Post(req, files, tipoOf).Applied?
    ensures var u := Post(req, files, tipoOf).update;
      && |u.datasets| == |files| && |u.fileNames| == |files|
      && (forall j | 0 <= j < |files| :: u.datasets[j] == files[j].parsed.dataset && u.fileNames[j] == files[j].name)
      && u.mode == UploadMode(req.uploadMode)
      && u.replaceBases == (if u.mode == Replace then Some(ReplaceBases(req.replaceBases)) else None)
  {
    PostApplies(req, files, tipoOf);
    assert Post(req, files, tipoOf) == Accept(req, files, tipoOf);
  }

  /** Once the key and the body are accepted, a failed parse is answered with the first failing result. */
  lemma PostFirstFailure(req: Request, files: seq<Upload>, tipoOf: NormalizedRow -> Option<string>, i: nat)
    requires req.adminKey == Some(ExpectedKey(req.envAdminKey)) && IsMultipart(req.contentType)
    requires i < |files| && files[i].parsed.Failure?
    requires forall j | 0 <= j < i :: files[j].parsed.Success?
    ensures Post(req, files, tipoOf) == InvalidFile(files[i].parsed)
  {
    var bad := FirstFailure(files);
  }

  /** A wrong or absent key is refused with 401 before anything else is looked at. */
  lemma PostAuthFirst(req: Request, files: seq<Upload>, tipoOf: NormalizedRow -> Option<string>)
    requires req.adminKey != Some(ExpectedKey(req.envAdminKey))
    ensures Post(req, files, tipoOf) == Refused(401, Unauthorized)
  {
  }

  // ---------------------------------------------------------------------------
  // The Tipo Base the route reads
  // ---------------------------------------------------------------------------

  /**
   * `r.tipoBase` on the rows `parseXlsxFile` returns: those rows are
   * `NormalizedRow` values, which have no `tipoBase`, so it is always
   * `undefined`.
   */
  function TipoBaseAsWritten(r: NormalizedRow): Option<string> {
    None
  }

  /** The base type a parsed row does carry, `tipo` ("Stock" or "Web"). */
  function TipoOfRow(r: NormalizedRow): Option<string> {
    Some(r.tipo)
  }

  lemma {:induction false} NoRowKeysAsWritten(rows: seq<NormalizedRow>)
    ensures RowKeys(rows, TipoBaseAsWritten) == []
  {
    if rows != [] {
      NoRowKeysAsWritten(Init(rows));
      assert Trim("") == [];
    }
  }

  /** As written, the route finds no base in any upload. */
  lemma {:induction false} NothingFoundAsWritten(ds: seq<seq<NormalizedRow>>)
    ensures FoundKeys(ds, TipoBaseAsWritten) == []
  {
    if ds != [] {
      NothingFoundAsWritten(Init(ds));
      NoRowKeysAsWritten(Last(ds));
    }
  }

  /** With nothing found, every selected base is missing. */
  lemma AllMissing(bases: seq<string>)
    requires |bases| > 0
    ensures CheckBases(bases, []) == MissingBases(bases)
  {
    FilterAll(bases, Unfound([]));
  }

  /**
   * As written, every replace upload that selects bases is refused, naming
   * every selected base as missing, whatever the files contain.
   */
  lemma ReplaceAlwaysRefusedAsWritten(req: Request, files: seq<Upload>)
    requires AllParsed(files)
    requires UploadMode(req.uploadMode) == Replace && |ReplaceBases(req.replaceBases)| > 0
    ensures var bases := ReplaceBases(req.replaceBases);
      Accept(req, files, TipoBaseAsWritten) == Refused(400, BasesNotFound(bases, bases))
  {
    NothingFoundAsWritten(RowsOf(DatasetsOf(files)));
    AllMissing(ReplaceBases(req.replaceBases));
  }

  /**
   * Read through `tipo`, a replace upload passes the check exactly when
   * the selected bases, lower-cased, are the files' base types,
   * lower-cased: every selected base occurs in some row and every row's
   * base was selected.
   */
  lemma ReplaceCheckIntended(bases: seq<string>, ds: seq<seq<NormalizedRow>>)
    ensures CheckBases(bases, Distinct(FoundKeys(ds, TipoOfRow))).BasesOk? <==>
      && (forall b | b in bases :: exists i, j | 0 <= i < |ds| && 0 <= j < |ds[i]| ::
            FoundKey(TipoOfRow, ds[i][j]) == Some(Lower(b)))
      && (forall i, j | 0 <= i < |ds| && 0 <= j < |ds[i]| && FoundKey(TipoOfRow, ds[i][j]).Some? ::
            exists b | b in bases :: Lower(b) == FoundKey(TipoOfRow, ds[i][j]).value)
  {
    var found := Distinct(FoundKeys(ds, TipoOfRow));
    CheckBasesSound(bases, found);
    forall k ensures k in found <==> exists i, j | 0 <= i < |ds| && 0 <= j < |ds[i]| :: FoundKey(TipoOfRow, ds[i][j]) == Some(k) {
      FoundKeysMembers(ds, TipoOfRow, k);
    }
  }

  /** The route with the Tipo Base read from the parsed rows' `tipo`. */
  function PostIntended(req: Request, files: seq<Upload>): Response {
    Post(req, files, TipoOfRow)
  }

  /** Every row of these datasets has base type `t`, and some row exists. */
  predicate AllOfTipo(ds: seq<seq<NormalizedRow>>, t: string) {
    && (exists i | 0 <= i < |ds| :: |ds[i]| > 0)
    && forall i, j | 0 <= i < |ds| && 0 <= j < |ds[i]| :: ds[i][j].tipo == t
  }

  /** Every row of base type `t`, trimmed and non-empty, brings `t` lower-cased. */
  lemma AllKeysAre(ds: seq<seq<NormalizedRow>>, t: string)
    requires AllOfTipo(ds, t) && t != [] && Trim(t) == t
    ensures forall i, j | 0 <= i < |ds| && 0 <= j < |ds[i]| :: FoundKey(TipoOfRow, ds[i][j]) == Some(Lower(t))
  {
  }

  /** With the intended reading, files of one trimmed base type pass when exactly that base is selected. */
  lemma SingleBaseIntended(ds: seq<seq<NormalizedRow>>, t: string)
    requires AllOfTipo(ds, t) && t != [] && Trim(t) == t
    ensures CheckBases([t], Distinct(FoundKeys(ds, TipoOfRow))).BasesOk?
  {
    var found := Distinct(FoundKeys(ds, TipoOfRow));
    OnlyKey(ds, t);
    CheckBasesSound([t], found);
    assert t in [t];
  }

  /** Files of one trimmed base type bring that base, lower-cased, and nothing else. */
  lemma OnlyKey(ds: seq<seq<NormalizedRow>>, t: string)
    requires AllOfTipo(ds, t) && t != [] && Trim(t) == t
    ensures forall k :: k in Distinct(FoundKeys(ds, TipoOfRow)) <==> k == Lower(t)
  {
    KeyFound(ds, t);
    KeysOnly(ds, t);
  }

  lemma KeyFound(ds: seq<seq<NormalizedRow>>, t: string)
    requires AllOfTipo(ds, t) && t != [] && Trim(t) == t
    ensures Lower(t) in FoundKeys(ds, TipoOfRow)
  {
    var i :| 0 <= i < |ds| && |ds[i]| > 0;
    assert FoundKey(TipoOfRow, ds[i][0]) == Some(Lower(t));
    FoundKeysMembers(ds, TipoOfRow, Lower(t));
  }

  lemma KeysOnly(ds: seq<seq<NormalizedRow>>, t: string)
    requires AllOfTipo(ds, t) && t != [] && Trim(t) == t
    ensures forall k | k in FoundKeys(ds, TipoOfRow) :: k == Lower(t)
  {
    AllKeysAre(ds, t);
    forall k | k in FoundKeys(ds, TipoOfRow) ensures k == Lower(t) {
      FoundKeysMembers(ds, TipoOfRow, k);
    }
  }

  lemma TrimStock()
    ensures Trim("Stock") == "Stock"
  {
    TrimNonWhiteEnds("Stock");
  }

  /**
   * A replace upload of Stock rows that selects "Stock" is applied with the
   * intended reading, where the route as written refuses it.
   */
  lemma StockReplaceAccepted(req: Request, files: seq<Upload>)
    requires req.adminKey == Some(ExpectedKey(req.envAdminKey)) && IsMultipart(req.contentType)
    requires |files| > 0 && AllParsed(files)
    requires UploadMode(req.uploadMode) == Replace && ReplaceBases(req.replaceBases) == ["Stock"]
    requires AllOfTipo(RowsOf(DatasetsOf(files)), "Stock")
    ensures PostIntended(req, files).Applied?
    ensures Post(req, files, TipoBaseAsWritten).Refused?
  {
    PostAccepts(req, files, TipoBaseAsWritten);
    ReplaceAlwaysRefusedAsWritten(req, files);
    PostAccepts(req, files, TipoOfRow);
    TrimStock();
    SingleBaseIntended(RowsOf(DatasetsOf(files)), "Stock");
    assert BasesCheckOf(req, files, TipoOfRow).BasesOk?;
  }
}
