/**
 * The records that flow through the dashboard (src/lib/data-processing/types.ts):
 * parse issues, the contact-level `DataRow`, the aggregate row that
 * `normalizeRow` produces, and dataset metadata.
 */
module Rows {
  import opened Wrappers
  import opened Js

  /** `ParseIssue` */
  datatype ParseIssue = ParseIssue(rowIndex: Option<int>, column: Option<string>, message: string)

  /** A spreadsheet row once its keys are cleaned: column name to cell value. */
  type CleanRow = map<string, Value>

  /** `row[key]`: a missing key reads as `undefined`. */
  function Cell(row: CleanRow, key: string): (v: Value)
    ensures key !in row ==> v == Undefined
  {
    if key in row then row[key] else Undefined
  }

  /**
   * The row `normalizeRow` returns (the aggregate schema: Tipo, Cargada, …).
   * The counts are non-negative integers and the four ratios are reals.
   */
  datatype NormalizedRow = NormalizedRow(
    tipo: string,
    diaLabel: Option<string>,
    mes: Option<int>,
    diaNumero: Option<int>,
    cargada: int,
    recorrido: int,
    contactado: int,
    citas: int,
    af: int,
    mc: int,
    pctContactabilidad: Option<real>,
    pctEfectividad: Option<real>,
    tcAf: Option<real>,
    tcMc: Option<real>)

  /** `DataRow`: one contact record. */
  datatype DataRow = DataRow(
    tipoLlamada: string,
    fechaCarga: Option<Time>,
    rutBase: string,
    tipoBase: string,
    fechaGestion: Option<Time>,
    conecta: Option<string>,
    interesa: Option<string>,
    regimen: Option<string>,
    sedeInteres: Option<string>,
    afCampus: Option<string>,
    mcCampus: Option<string>,
    semana: Option<string>,
    af: Option<string>,
    fechaAf: Option<Time>,
    mc: Option<string>,
    fechaMc: Option<Time>,
    mes: Option<int>,
    diaNumero: Option<int>,
    diaSemana: Option<string>)

  /** `DatasetMeta` */
  datatype DatasetMeta = DatasetMeta(
    importedAtISO: string,
    sourceFileName: string,
    sheetName: string,
    rowCount: int)

  /** `Dataset`, over the kind of row it carries. */
  datatype Dataset<R> = Dataset(meta: DatasetMeta, rows: seq<R>)
}
