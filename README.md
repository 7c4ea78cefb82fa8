# Enrolment-funnel dashboard: ingestion and metrics, in Dafny

This project models the data path of a spreadsheet-driven enrolment-funnel
dashboard. Contact records ("base cargada") are loaded from an Excel
workbook. Each record is a lead that may be called ("recorrido"), reached
("contactado"), given an appointment ("cita"), may visit a campus
("afluencia", AF) and may enrol ("matrícula", MC). The dashboard counts these
stages, divides them into conversion rates, and shows them by week, day,
month, campus and régimen.

The modules follow the source files:

- **Cell parsers.**
  - `LooseDate` (with `Calendar`): `parseLooseDate`.
  - `Numbers` (with `Js`): `toFiniteNumber` and `toPercent`.
  - `Campus`: `toCampusFullName`.
  - `Interesa`: `isInteresaViene`.
  - `Rut`: `normalizeRut`.
  - `Semana`: week numbers and labels.
- **Row normalisation and sheet selection.**
  - `Normalize`: `normalizeRow`.
  - `ParseXlsx`: `parseXlsxFile` once the workbook is decoded.
- **Funnel metrics.**
  - `Metrics`: `computeTotals` and `computeTrend`.
  - `ResumenSemanal`: the weekly summary and its sanity check.
  - `Snapshot`: `aggregateDataRows`, `AggregateToDataRows` and `toMeta`.
  - `Widgets`: the chart widgets' `useMemo` aggregations.
  - `Analytics`: the analytics page.
- **Filter state.**
  - `DashboardStore`: `applyFilters`, `computeFilteredTotals` and the store, as a class.
  - `FilterOptions`: the option lists of `useFilters`.
- **Upload route.**
  - `SnapshotRoute`: the acceptance rules of `POST /api/snapshot`.

`Text`, `Ordering`, `Grouping`, `Js` and `Wrappers` hold the JavaScript
built-ins these files lean on:

- `trim`, case mapping, `Number(string)`;
- `Array.prototype.sort`, `new Set`;
- the `Map`-of-accumulators loop.

Loops in the source are Dafny methods. Each method is proved equal to a
specification function, and the properties are lemmas about those functions.

## Model

| member | source | states |
|---|---|---|
| Rut.NormalizeRut | src/lib/utils/rut.ts:1-6 | the key holds no '.', no lower-case ASCII letter, and is no longer than the input; a missing value gives the empty key |
| Rut.LetterSInert | src/lib/utils/rut.ts:3-5 | because upper-casing comes first, the letter 's' of the as-written class never matches: only '.' and backslash are removed |
| Rut.HyphenAndSpaceSurvive | src/lib/utils/rut.ts:5 | a hyphen or inner space of the trimmed input is still in the key |
| Rut.KeyOfTrimmed | src/lib/utils/rut.ts:2-5 | for a string that trimming leaves alone, the key is the upper-cased string with the as-written class removed |
| Rut.HyphenSplitsKey | src/lib/utils/rut.ts:5 | "a-b" and "ab" (non-blank ends) get different keys as written: the hyphen stays |
| Rut.NormalizeRutIntended | src/lib/utils/rut.ts:1-6 | the corrected key holds no '.', '-', white space or lower-case ASCII letter, and is no longer than the input |
| Rut.IntendedIgnoresTrim | src/lib/utils/rut.ts:3 | with the corrected class, trimming first changes nothing |
| Rut.IntendedIgnoresSeparator | src/lib/utils/rut.ts:5 | with the corrected class, a '.', '-' or white-space character anywhere does not change the key |
| Campus.ToCampusFullName | src/lib/utils/campus.ts:19-32 | the name is never empty |
| Campus.TableNames | src/lib/utils/campus.ts:1-11 | every table name is non-empty and differs from "Sin Campus", and every code is 2-3 upper-case letters |
| Campus.BlankIsSinCampus | src/lib/utils/campus.ts:20-21 | a missing or blank value gives "Sin Campus" |
| Campus.Outcomes | src/lib/utils/campus.ts:23-31 | for non-blank input, with u the trimmed upper-cased text: "SIN CAMPUS" gives "Sin Campus", a table code gives its name, another 2-3 letter token gives "SEDE inválida (u)", anything else gives the trimmed original |
| Campus.CodeCaseInsensitive | src/lib/utils/campus.ts:23-26 | for a table code, lower-casing or upper-casing the input does not change the name |
| Campus.SameCodeSameName | src/lib/utils/campus.ts:20-26 | two inputs with the same trimmed upper-cased code get the same name |
| Campus.InvalidCodeFlagged | src/lib/utils/campus.ts:29 | an unknown code-like token is flagged, and the flag ends with the upper-cased token and ")" |
| Campus.FreeTextKept | src/lib/utils/campus.ts:31 | free text comes back trimmed with its case kept |
| Interesa.StripDiacritics | src/lib/utils/interesa.ts:5-6 | stripping never lengthens the text |
| Interesa.Squash | src/lib/utils/interesa.ts:8 | the result holds only [a-z0-9] and single spaces each followed by [a-z0-9], and keeps a leading [a-z0-9] character |
| Interesa.CollapseAfterSquash | src/lib/utils/interesa.ts:8-9 | after squashing, collapsing white space changes nothing |
| Interesa.TrimKeepsSquashed | src/lib/utils/interesa.ts:8-10 | trimming a squashed text leaves words of [a-z0-9] separated by single spaces |
| Interesa.Normalize | src/lib/utils/interesa.ts:1-11 | the normal form is words of [a-z0-9] separated by single spaces, with no space at either end |
| Interesa.IsInteresaViene | src/lib/utils/interesa.ts:13-22 | "yes" only when "viene" occurs as a word, and never when "no viene" does |
| Interesa.BlankIsNotViene | src/lib/utils/interesa.ts:14-15 | a missing or blank answer normalises to "" and is not a "viene" |
| Interesa.VieneDecides | src/lib/utils/interesa.ts:18-21 | without "no viene", the answer is "yes" exactly when "viene" occurs as a word |
| Interesa.NoVieneRejected | src/lib/utils/interesa.ts:18 | "no viene" as words anywhere in the normal form makes the answer "no" |
| Interesa.VieneAccepted | src/lib/utils/interesa.ts:21 | "viene" as a word, with no "no viene", makes the answer "yes" |
| Interesa.InsideWordIgnored | src/lib/utils/interesa.ts:21 | "viene" preceded by a word character, as in "conviene", is not a match there |
| Interesa.CaseInsensitive | src/lib/utils/interesa.ts:4 | upper-cased, lower-cased and original answers normalise alike |
| Interesa.DiacriticsIgnored | src/lib/utils/interesa.ts:5-6 | an accented letter normalises as its base letter |
| Interesa.PunctuationIsSpace | src/lib/utils/interesa.ts:7-8 | a punctuation character or underscore between non-blank ends normalises as a space |
| Interesa.SeparatorSwap | src/lib/utils/interesa.ts:8 | swapping one separator character for another does not change the normal form |
| Numbers.ReadNumber | src/lib/utils/number.ts:8 | a value comes back exactly when the number is finite, and it is that number |
| Numbers.ToFiniteNumber | src/lib/utils/number.ts:1-9 | a finite number is returned unchanged; NaN, infinities and non-number non-string values give null; blank strings give null |
| Numbers.ReadNonBlank | src/lib/utils/number.ts:4-8 | a non-blank string reads as `Number` of its trimmed text with '.' removed and ',' turned into '.' |
| Numbers.ReadOfTrim | src/lib/utils/number.ts:4 | surrounding white space does not change the value read |
| Numbers.DotGroupsThousands | src/lib/utils/number.ts:6 | a '.' between non-blank parts is dropped: "1.5" reads as 15 |
| Numbers.CommaToPoint | src/lib/utils/number.ts:6 | a ',' between digit runs becomes the decimal point |
| Numbers.ParseNumberOfDecimal | src/lib/utils/number.ts:7 | `Number("a.b")` of digit runs is a plus the fraction 0.b |
| Numbers.DigitsRead | src/lib/utils/number.ts:4-8 | a digit string reads as its decimal value |
| Numbers.NatRoundTrip | src/lib/utils/number.ts:1-9 | `toFiniteNumber(String(n)) == n` for every natural n |
| Numbers.Scale | src/lib/utils/number.ts:14 | values up to 1 are kept; values above 1 are divided by 100 |
| Numbers.ToPercent | src/lib/utils/number.ts:11-25 | non-number non-string values and blank strings give null |
| Numbers.PercentIsScaledNumber | src/lib/utils/number.ts:12-24 | for numbers and strings without a trailing '%', the percent is the scaled `toFiniteNumber` |
| Numbers.PercentSignIgnored | src/lib/utils/number.ts:19-24 | a trailing '%' changes nothing: "45%" reads as "45", that is 0.45 |
| Numbers.PercentOfSymbol | src/lib/utils/number.ts:19-24 | a trimmed text ending in '%' is read without it, then scaled |
| Js.Ratio | src/lib/data-processing/metrics.ts:66-77 | a ratio exists exactly when the denominator is positive, and ratio × denominator = numerator |
| Js.RatioOrZero | src/lib/metrics/resumen-semanal.ts:27-29 | with a positive denominator ratio × denominator = numerator; otherwise 0 |
| Js.RatioInUnit | src/lib/data-processing/metrics.ts:67-69 | a count out of a larger count gives a ratio in [0, 1] |
| Js.Round | src/lib/data-processing/normalize.ts:18 | `Math.round`: the result is within half of the input, halves rounded up |
| Js.ParseNumber | src/lib/utils/number.ts:7 | `Number` of a blank string is 0 |
| Js.ParseNumberOfDigits | src/lib/utils/number.ts:7 | `Number` of a digit string is its decimal value |
| Js.ParseNumberOfNatToString | src/lib/utils/number.ts:7 | `Number(String(n)) == n` for every natural n |
| Interesa.NoVieneWitness | src/lib/utils/interesa.ts:18 | "no viene" between word boundaries (start or space on each side) is a match of the negative pattern |
| Interesa.VieneWitness | src/lib/utils/interesa.ts:21 | "viene" between word boundaries is a match of the positive pattern |
| Interesa.VieneNeedsText | src/lib/utils/interesa.ts:15-21 | a match of the positive pattern needs at least five characters |
| Rut.HyphenKey | src/lib/utils/rut.ts:5 | as written, the hyphen between two non-blank parts stays in the key |
| Rut.PlainKey | src/lib/utils/rut.ts:2-5 | two non-blank parts without a separator give the concatenation of their keys |
| LooseDate.Window | src/lib/utils/date.ts:10-24 | a date passes exactly when its year lies in [minYear (default 2018), maxYear (default current year + 1)] and it lies inside the optional minDate/maxDate; a passing date is returned unchanged |
| LooseDate.ParseLooseDate | src/lib/utils/date.ts:33-48 | a falsy value and any value that is neither a Date, a number nor a string give null; every result passes both windows; a Date input is returned exactly when it passes them |
| LooseDate.ParseText | src/lib/utils/date.ts:47-107 | every date the string branches return passes both windows |
| LooseDate.SerialIsDayCount | src/lib/utils/date.ts:40-43 | the number 25569 + k is the date k days after 1970-01-01, returned exactly when it passes the windows |
| LooseDate.DigitGroup | src/lib/utils/date.ts:51 | a matched digit group has between lo and hi digits and a value below 10^hi |
| LooseDate.IsoMatch | src/lib/utils/date.ts:51 | a matched ISO year has four digits |
| LooseDate.NumericMatch | src/lib/utils/date.ts:63 | a matched numeric year has at most four digits |
| LooseDate.NumericIsNotIso | src/lib/utils/date.ts:51-63 | a string matching the numeric pattern never matches the ISO pattern |
| LooseDate.NewDateOfValid | src/lib/utils/date.ts:56 | `new Date(y, m - 1, d)` of a real calendar date of years 100..9999 is that date's midnight |
| LooseDate.CenturyShiftYear | src/lib/utils/date.ts:56 | `new Date` reads years 0..99 as 1900..1999 |
| LooseDate.CenturyShiftFails | src/lib/utils/date.ts:56-57 | so fields with a year 0..99 never round-trip |
| LooseDate.FromFieldsOfValid | src/lib/utils/date.ts:56-57 | a real calendar date of years 100..9999 round-trips to its midnight |
| LooseDate.FromFieldsOfInvalid | src/lib/utils/date.ts:56-57 | fields that are not a real calendar date (such as 2024-02-30) never round-trip |
| LooseDate.IsoCandidateIff | src/lib/utils/date.ts:51-57 | the ISO branch yields a date exactly when its fields are a real calendar date of a year >= 100, and then it is that date's midnight |
| LooseDate.IsoDecides | src/lib/utils/date.ts:52-59 | once the ISO fields are a real date, only the windows decide; an out-of-window date is null without trying later branches |
| LooseDate.NumericDecides | src/lib/utils/date.ts:63-81 | two-digit years get 2000 added; the first field is the month exactly when it is <= 12 and the second > 12, otherwise the day; a real date is then decided by the windows alone |
| LooseDate.DatePart | src/lib/utils/date.ts:85 | the date part is a prefix of the trimmed text |
| LooseDate.Fallback | src/lib/utils/date.ts:86-98 | a fallback date is one of the formats' parses and passes both windows |
| LooseDate.SerialStringOnlyInRange | src/lib/utils/date.ts:100-107 | when no pattern or format applies, a date comes only from a number strictly between 10000 and 100000, read as a serial |
| Calendar.Fields | src/lib/utils/date.ts:57 | `getFullYear`, `getMonth` + 1 and `getDate` of a day number form a real calendar date whose day number is that day |
| Calendar.FieldsOfDayNumber | src/lib/utils/date.ts:57 | reading a real date's day number back gives the same year, month and day |
| Calendar.DayNumberInjective | src/lib/utils/date.ts:57 | two real dates with the same day number are the same date |
| Calendar.MakeDayOfValid | src/lib/utils/date.ts:56 | `MakeDay` of an in-range month and day is that date's day number |
| Calendar.YearOfDay | src/lib/utils/date.ts:11 | the year of a day number is the one whose first day is at or before it and whose successor's first day is after it |
| Calendar.Weekday | src/lib/utils/semana.ts:27 | the weekday of a day number lies in 0..6, Monday first |
| Calendar.WeekdayNextWeek | src/lib/utils/semana.ts:27 | seven days later is the same weekday |
| Normalize.NormalizeTipo | src/lib/data-processing/normalize.ts:6-12 | a non-string gives null, and any result is "Stock" or "Web" |
| Normalize.TipoOfKey | src/lib/data-processing/normalize.ts:9-11 | a trimmed, lower-cased key names "Stock", "Web" or nothing |
| Normalize.TipoCaseInsensitive | src/lib/data-processing/normalize.ts:8 | upper-casing or trimming the cell does not change the base type |
| Normalize.ToNonNegativeInt | src/lib/data-processing/normalize.ts:14-19 | a count exists exactly when the cell reads as a number >= 0, and it is that number rounded to the nearest integer |
| Normalize.ReadNonNegative | src/lib/data-processing/normalize.ts:15-18 | a cell reading as x >= 0 gives `Math.round(x)` |
| Normalize.CountRoundTrip | src/lib/data-processing/normalize.ts:14-19 | a count written as a number or as its decimal digits reads back exactly |
| Normalize.Counts | src/lib/data-processing/normalize.ts:35-49 | the six counts are read from Cargada, Recorrido, Contactado, Citas, AF, MC in that order |
| Normalize.NumberIssues | src/lib/data-processing/normalize.ts:51-53 | there are never more issues than values |
| Normalize.NormalizeRow | src/lib/data-processing/normalize.ts:21-89 | the method's row and issues are those of the row specification `RowResult` |
| Normalize.CollectNumberIssues | src/lib/data-processing/normalize.ts:51-53 | the loop pushes exactly the issues of `NumberIssues`, in column order |
| Normalize.NumberIssuesEmpty | src/lib/data-processing/normalize.ts:51-60 | no number issue exactly when every count is present |
| Normalize.RowIffNoIssues | src/lib/data-processing/normalize.ts:27-62 | the row is null exactly when the issue list is non-empty |
| Normalize.IssuesNameRowAndColumn | src/lib/data-processing/normalize.ts:28-52 | every issue carries `rowIndex` and a column; the type is invalid exactly when the first issue is "Tipo inválido" |
| Normalize.NumberIssuesShape | src/lib/data-processing/normalize.ts:52 | every number issue carries `rowIndex`, a column and "Número inválido" |
| Normalize.NumberIssuesCount | src/lib/data-processing/normalize.ts:51-53 | exactly one number issue per invalid count |
| Normalize.IssueForColumn | src/lib/data-processing/normalize.ts:42-53 | an invalid count raises the issue for its own column, placed after the issues of earlier columns |
| Normalize.IssueCount | src/lib/data-processing/normalize.ts:27-53 | the issue count is one for an invalid type plus one per invalid count |
| Normalize.RatiosFallBack | src/lib/data-processing/normalize.ts:55-82 | `pctContactabilidad` is the file's percentage when present, otherwise contactado/recorrido, and null when recorrido is 0 |
| Normalize.EfectividadFallBack | src/lib/data-processing/normalize.ts:56-83 | `pctEfectividad` is the file's percentage when present, otherwise (af + mc)/citas, and null when citas is 0 |
| Normalize.AfMcRatiosFallBack | src/lib/data-processing/normalize.ts:57-85 | `tcAf` and `tcMc` are the file's percentages when present, otherwise af/citas and mc/citas, and null when citas is 0 |
| Normalize.OptionalFieldsRaiseNoIssue | src/lib/data-processing/normalize.ts:30-33 | changing Mes, Día numérico or Día never changes the issues |
| ParseXlsx.CleanKeyIsClean | src/lib/data-processing/parse-xlsx.ts:7-9 | a cleaned key has single spaces between words and none at either end |
| ParseXlsx.CleanKeyIdempotent | src/lib/data-processing/parse-xlsx.ts:7-9 | cleaning a cleaned key changes nothing |
| ParseXlsx.CleanKeyFixed | src/lib/data-processing/parse-xlsx.ts:7-9 | every collapsed, trimmed string is its own cleaned key |
| ParseXlsx.CleanRowKeys | src/lib/data-processing/parse-xlsx.ts:11-15 | the loop builds the object `CleanedRow` describes: each entry assigned under its cleaned key, in order |
| ParseXlsx.RekeyedKeys | src/lib/data-processing/parse-xlsx.ts:13 | the object has a key exactly for the new key of some entry |
| ParseXlsx.LastEntryWins | src/lib/data-processing/parse-xlsx.ts:13 | a key holds the value of the last entry mapped to it |
| ParseXlsx.CleanedRowContents | src/lib/data-processing/parse-xlsx.ts:11-15 | the keys of a cleaned row are exactly the cleaned original keys, each with the value of the last entry cleaning to it |
| ParseXlsx.GetPresentColumns | src/lib/data-processing/parse-xlsx.ts:17-21 | the loops collect exactly `Present(rows)` |
| ParseXlsx.PresentIff | src/lib/data-processing/parse-xlsx.ts:17-21 | a key is present exactly when some row has it |
| ParseXlsx.MissingColumns | src/lib/data-processing/parse-xlsx.ts:24 | a column is missing exactly when it is required and absent; never more than the required list |
| ParseXlsx.MissingColumnsAppend | src/lib/data-processing/parse-xlsx.ts:24 | the filter keeps the order of the required list |
| ParseXlsx.ScoreSheet | src/lib/data-processing/parse-xlsx.ts:23-32 | missing lists exactly the absent required columns; hasAllRequired exactly when none is absent; score is 1,000,000 + rowCount then, rowCount otherwise |
| ParseXlsx.CompleteSheetWins | src/lib/data-processing/parse-xlsx.ts:30 | a complete sheet outscores an incomplete one unless the latter has a million more rows |
| ParseXlsx.CleanedRows | src/lib/data-processing/parse-xlsx.ts:54 | row i of the result is the cleaned row i |
| ParseXlsx.CandidateOf | src/lib/data-processing/parse-xlsx.ts:54-65 | a candidate's missing list is exactly the required columns absent from its cleaned rows |
| ParseXlsx.Candidates | src/lib/data-processing/parse-xlsx.ts:44-67 | there are no candidates exactly when no sheet exists, and each missing column is a required one |
| ParseXlsx.BuildCandidate | src/lib/data-processing/parse-xlsx.ts:45-66 | an absent sheet gives null, any other its candidate |
| ParseXlsx.CollectCandidates | src/lib/data-processing/parse-xlsx.ts:44-67 | the loop yields exactly `Candidates(wb)`, in workbook order |
| ParseXlsx.FirstMaxIndex | src/lib/data-processing/parse-xlsx.ts:69 | the position holds the highest score and every earlier candidate scores lower |
| ParseXlsx.BestIsFirstMax | src/lib/data-processing/parse-xlsx.ts:69 | the chosen sheet is the first one with the highest score (the sort is stable); there is none exactly when there are no candidates |
| ParseXlsx.Chosen | src/lib/data-processing/parse-xlsx.ts:69 | no sheet is chosen exactly when the workbook has none |
| ParseXlsx.NoSheetRejected | src/lib/data-processing/parse-xlsx.ts:71-77 | a workbook without sheets fails with the one "no sheet" issue and an empty preview |
| ParseXlsx.Preview | src/lib/data-processing/parse-xlsx.ts:80 | the preview is the first min(25, n) rows |
| ParseXlsx.PreviewOfChosen | src/lib/data-processing/parse-xlsx.ts:79-115 | whenever a sheet is chosen, the preview is the first 25 cleaned rows of that sheet |
| ParseXlsx.EmptySheetRejected | src/lib/data-processing/parse-xlsx.ts:82-88 | an empty chosen sheet fails with the "no rows" issue alone |
| ParseXlsx.MissingIssues | src/lib/data-processing/parse-xlsx.ts:90-92 | one issue per missing column, in order, naming that column |
| ParseXlsx.Outcomes | src/lib/data-processing/parse-xlsx.ts:95-96 | outcome i is `normalizeRow(rows[i], i)` |
| ParseXlsx.NormalizeRows | src/lib/data-processing/parse-xlsx.ts:94-99 | the loop's issues are all row issues in row order, and its rows are the valid rows in row order |
| ParseXlsx.ParseXlsxFile | src/lib/data-processing/parse-xlsx.ts:34-116 | the method returns exactly the result the specification `ParseWorkbook` gives |
| ParseXlsx.RowsIssuesOrdered | src/lib/data-processing/parse-xlsx.ts:95-97 | every row issue names a row of the sheet, and row issues come in row order |
| ParseXlsx.IssueOrder | src/lib/data-processing/parse-xlsx.ts:90-103 | on failure of a non-empty sheet, missing-column issues (no row, a required column) come first, then row issues in row order |
| ParseXlsx.RowsKeptAll | src/lib/data-processing/parse-xlsx.ts:94-99 | without row issues every row is kept, in order |
| ParseXlsx.AcceptedIff | src/lib/data-processing/parse-xlsx.ts:71-115 | success exactly when a non-empty sheet is chosen, no required column is missing and every row is valid; then rowCount equals the number of rows, the sheet name is the chosen one, and row i is row i normalised |
| Semana.FirstDigitRun | src/lib/utils/semana.ts:16 | a match is a non-empty run of digits |
| Semana.FirstDigitRunAfter | src/lib/utils/semana.ts:16 | after a digit-free prefix, the first run is the digits that follow |
| Semana.ParseSemanaNumber | src/lib/utils/semana.ts:13-20 | a week number, when there is one, is positive |
| Semana.NoDigitsNoNumber | src/lib/utils/semana.ts:14-17 | a label without digits (a blank one included) has no number |
| Semana.ParseFormatRoundTrip | src/lib/utils/semana.ts:13-24 | `parseSemanaNumber(formatSemanaLabel(n)) == n` for every n > 0 |
| Semana.BaseDayValue | src/lib/utils/semana.ts:11 | the base day is `new Date(2025, 7, 11)`, and it is a Monday |
| Semana.WeekStart | src/lib/utils/semana.ts:29-30 | the week start is the Monday on or before the day, at most six days earlier |
| Semana.SemanaNumberClosedForm | src/lib/utils/semana.ts:26-36 | dates before 2025-08-11 have no week number; later ones get the count of whole weeks since that day, plus 1 |
| Semana.FirstWeek | src/lib/utils/semana.ts:11-36 | every day of the week starting 2025-08-11 is week 1 |
| Semana.SameWeekSameNumber | src/lib/utils/semana.ts:29-35 | days of the same Monday-to-Sunday week get the same number |
| Semana.NextWeekNextNumber | src/lib/utils/semana.ts:29-35 | a date seven days later gets the next number |
| Semana.SemanaLabel | src/lib/utils/semana.ts:38-41 | a computed label reads back as the week number |
| Semana.ResolveSemanaLabel | src/lib/utils/semana.ts:43-51 | the label computed from fechaGestion wins; only without it the trimmed raw label is used, and a blank one gives null |
| Semana.ComputedLabelWins | src/lib/utils/semana.ts:43-48 | when a week number exists the resolved label is "Semana n", whatever was typed |
| Semana.CompareIsSemanaBefore | src/lib/utils/semana.ts:53-62 | the comparator is negative, zero or positive exactly when the first label comes before, equals, or comes after the second in the numbered-first, by-number, then by-text order |
| Semana.SemanaBeforeIsOrder | src/lib/utils/semana.ts:53-62 | that order is a strict total order |
| Semana.NumberedFirst | src/lib/utils/semana.ts:58-59 | a numbered label sorts before an un-numbered one, in both argument orders |
| Semana.FormattedByNumber | src/lib/utils/semana.ts:57 | formatted labels compare by number: "Semana 2" before "Semana 10" |
| Metrics.TotalsRulesNarrow | src/lib/data-processing/metrics.ts:38-45 | every row counted as contactado ("conecta") is also counted as recorrido |
| Metrics.FunnelBySnoc | src/lib/data-processing/metrics.ts:32-64 | appending a row applies exactly that row's increments |
| Metrics.FoldIsFunnelBy | src/lib/data-processing/metrics.ts:32-64 | incrementing row by row counts exactly the rows each predicate accepts |
| Metrics.CountFunnel | src/lib/data-processing/metrics.ts:25-64 | the counting loop ends with the row counts of the predicates (`FunnelBy`) |
| Metrics.FunnelBounds | src/lib/data-processing/metrics.ts:32-64 | cargada is the number of rows, no counter exceeds it, and contactado <= recorrido whenever reached implies called |
| Metrics.ComputeTotals | src/lib/data-processing/metrics.ts:24-105 | the method returns the totals of the specification `TotalsOf` |
| Metrics.TotalsCounts | src/lib/data-processing/metrics.ts:32-64 | cargada is rows.length; recorrido, contactado, citas, af and mc count the rows of their predicates ("viene" exactly for citas; A/MC/M for af; M/MC for mc); contactado <= recorrido <= cargada |
| Metrics.TotalsRates | src/lib/data-processing/metrics.ts:66-77 | each of the six rates is null exactly when its denominator is 0, and otherwise numerator/denominator |
| Metrics.RatesInUnit | src/lib/data-processing/metrics.ts:67-77 | tcLlaLeads, tcContLla and cMcLeads lie in [0, 1] when present |
| Metrics.LegacyAliases | src/lib/data-processing/metrics.ts:79-83 | pctContactabilidad equals tcContLla, tcAf equals tcAfCitas, pctEfectividad is (af + mc)/citas and tcMc is mc/citas, both null exactly when citas is 0 |
| Metrics.FoldTrend | src/lib/data-processing/metrics.ts:113-120 | a month's record counts its rows whose tipoBase contains "web" as web and all others as stock |
| Metrics.ComputeTrend | src/lib/data-processing/metrics.ts:107-137 | labels and both series have one entry per month; entry i is "Mes m" with the stock and web counts of the rows of month m |
| Metrics.TrendMonthsSorted | src/lib/data-processing/metrics.ts:112-125 | months are strictly ascending, and a month is listed exactly when some row has it and it is not 0 |
| Metrics.TrendSplitsRows | src/lib/data-processing/metrics.ts:114-120 | per month stock + web equals the month's row count, and over all months they add up to the rows with a truthy month |
| ResumenSemanal.Norm | src/lib/metrics/resumen-semanal.ts:31-34 | null exactly for a missing or blank value; otherwise the non-empty trimmed text |
| ResumenSemanal.UsableIsContactado | src/lib/metrics/resumen-semanal.ts:52-54 | a usable row (conecta equals "Conecta" ignoring case) is exactly a reached row of the dashboard totals |
| ResumenSemanal.DefaultAfluenciaIsCita | src/lib/metrics/resumen-semanal.ts:56-81 | with the default set {"viene"}, a visit row is exactly an appointment of the dashboard totals (trimmed, lower-cased interesa equal to "viene") |
| ResumenSemanal.DefaultValueMatch | src/lib/metrics/resumen-semanal.ts:59-81 | the only normalised answer matching the default set is "viene" |
| ResumenSemanal.SingleValueMatch | src/lib/metrics/resumen-semanal.ts:59-61 | against a one-value set whose value is already trimmed and lower-cased, matching is equality |
| ResumenSemanal.TotalsCodesNotBlank | src/lib/metrics/resumen-semanal.ts:65-71 | a visit or enrolment code of the dashboard totals is non-blank, so it counts here too |
| ResumenSemanal.TallyBySnoc | src/lib/metrics/resumen-semanal.ts:103-108 | appending a row applies exactly that row's increments |
| ResumenSemanal.FoldIsTallyBy | src/lib/metrics/resumen-semanal.ts:103-108 | incrementing row by row counts exactly the rows each predicate accepts |
| ResumenSemanal.AddRowTo | src/lib/metrics/resumen-semanal.ts:103-108 | one row's `if` statements apply exactly that row's increments |
| ResumenSemanal.WeekLtIsOrder | src/lib/metrics/resumen-semanal.ts:111-118 | the week comparator (number of all digits, 0 when none, then text) is a strict total order |
| ResumenSemanal.WeekLabelsByNumber | src/lib/metrics/resumen-semanal.ts:111-116 | "Semana n" sorts before "Semana m" exactly when n < m |
| ResumenSemanal.CountWeeks | src/lib/metrics/resumen-semanal.ts:83-109 | the loop's invalidCitas and missingSemana count the rows of their kind, its keys are the weeks in first-seen order, and each group counts the rows of its week |
| ResumenSemanal.CountedSkip | src/lib/metrics/resumen-semanal.ts:87-95 | a skipped row bumps at most the exclusion counters |
| ResumenSemanal.CountedEnter | src/lib/metrics/resumen-semanal.ts:92-108 | a counted row creates its week's group if needed and bumps it |
| ResumenSemanal.RowsFromGroups | src/lib/metrics/resumen-semanal.ts:120-134 | week rows read from the loop's groups are the specified week rows |
| ResumenSemanal.AddUp | src/lib/metrics/resumen-semanal.ts:136-146 | the `reduce` adds up the five counters of the week rows |
| ResumenSemanal.Summarize | src/lib/metrics/resumen-semanal.ts:83-157 | the counting pass, sort, week rows and totals return exactly `SummaryBy` |
| ResumenSemanal.CalcResumenSemanal | src/lib/metrics/resumen-semanal.ts:73-158 | the method returns exactly `ResumenOf(rows, opts)` |
| ResumenSemanal.RunSanityChecks | src/lib/metrics/resumen-semanal.ts:160-192 | ok exactly when the sum of the week rows equals the totals' counters, with the success or mismatch message |
| ResumenSemanal.SanityCheckPasses | src/lib/metrics/resumen-semanal.ts:136-178 | for every input and options the sanity check passes, and the totals row is labelled "TOTALES" |
| ResumenSemanal.WeeksOrdered | src/lib/metrics/resumen-semanal.ts:111-118 | week rows are strictly ordered by the week comparator, so no week appears twice |
| ResumenSemanal.SummaryLabels | src/lib/metrics/resumen-semanal.ts:120-123 | one week row per sorted week, labelled with it |
| ResumenSemanal.WeekPresent | src/lib/metrics/resumen-semanal.ts:98-120 | a week has a row exactly when some counted row carries it |
| ResumenSemanal.WeekRowIff | src/lib/metrics/resumen-semanal.ts:111-120 | a week has a row exactly when it is among the sorted weeks |
| ResumenSemanal.SortedWeekIff | src/lib/metrics/resumen-semanal.ts:98-111 | a week is sorted in exactly when some counted row carries it |
| ResumenSemanal.WeekRowBounds | src/lib/metrics/resumen-semanal.ts:103-129 | each week row counts at least one appointment, its other counters never exceed citas, and pctRecorrido lies in [0, 1] |
| ResumenSemanal.TotalCitas | src/lib/metrics/resumen-semanal.ts:136-146 | totals.citas is the number of rows counted under some week |
| ResumenSemanal.RowsAccounted | src/lib/metrics/resumen-semanal.ts:86-109 | excluding rows without a week, rows.length = invalidCitas + missingSemana + totals.citas; keeping them, rows.length = invalidCitas + totals.citas |
| ResumenSemanal.MissingWeekKept | src/lib/metrics/resumen-semanal.ts:92-98 | with excludeMissingSemana false, rows without a week are still counted in missingSemana and form a "Semana N/A" row counting at least as many citas |
| ResumenSemanal.ResumenProperties | src/lib/metrics/resumen-semanal.ts:73-158 | for any options: weeks strictly ordered, each week with citas >= 1 and recorrido <= citas, and every row accounted for |
| DashboardStore.ApplyFilters | src/store/dashboard-store.ts:34-47 | keeps no more rows than it is given, and every kept row passes each active filter |
| DashboardStore.ApplyFiltersMembers | src/store/dashboard-store.ts:34-47 | a row is kept exactly when it is an input row that passes every active filter: tipo, mes, diaNumero, and (when weeks are selected) its week, with null read as "" |
| DashboardStore.ApplyFiltersAppend | src/store/dashboard-store.ts:35 | filtering distributes over concatenation, so kept rows stay in input order |
| DashboardStore.ApplyFiltersCount | src/store/dashboard-store.ts:35-46 | the number of kept rows is the number of rows passing the filters |
| DashboardStore.ApplyFiltersKeepsAll | src/store/dashboard-store.ts:35-46 | when every row passes, the rows come back unchanged |
| DashboardStore.DefaultKeepsAll | src/store/dashboard-store.ts:27-47 | `DEFAULT_FILTERS` keep every row |
| DashboardStore.ApplyFiltersIdempotent | src/store/dashboard-store.ts:34-47 | filtering twice with the same filters equals filtering once |
| DashboardStore.ComputeFilteredTotals | src/store/dashboard-store.ts:49-53 | null exactly when there is no dataset; otherwise the totals of the filtered rows |
| DashboardStore.DefaultTotals | src/store/dashboard-store.ts:27-53 | with the default filters the totals are those of the whole dataset |
| DashboardStore.MergeThen | src/store/dashboard-store.ts:66-69 | two partial updates in a row equal their combined update; the empty update changes nothing; repeating an update changes nothing more |
| DashboardStore.Store.constructor | src/store/dashboard-store.ts:55-65 | starts with no dataset, the default filters, week comparison, the overview and the default widget order |
| DashboardStore.Store.SetDataset | src/store/dashboard-store.ts:58-62 | sets the dataset and resets the filters to the defaults; nothing else changes |
| DashboardStore.Store.SetFilters | src/store/dashboard-store.ts:66-69 | only the filter fields the update mentions change; nothing else changes |
| DashboardStore.Store.SetComparisonMode | src/store/dashboard-store.ts:70 | sets the comparison mode; nothing else changes |
| DashboardStore.Store.SetCurrentView | src/store/dashboard-store.ts:71 | sets the current view; nothing else changes |
| DashboardStore.Store.SetWidgetOrder | src/store/dashboard-store.ts:72 | sets the widget order; nothing else changes |
| DashboardStore.Store.ResetFilters | src/store/dashboard-store.ts:73 | restores the default filters; nothing else changes |
| FilterOptions.KeptMembers | src/features/dashboard/hooks/useFilters.ts:17-42 | `rows.map(field).filter(ok)` holds exactly the values that pass `ok` and that some row carries |
| FilterOptions.OptionsFor | src/features/dashboard/hooks/useFilters.ts:14-45 | with no dataset every option list is empty |
| FilterOptions.SortedSetMembers | src/features/dashboard/hooks/useFilters.ts:16-43 | `Array.from(new Set(...)).sort(...)` is strictly ascending, has no duplicates, and holds exactly the accepted values some row carries |
| FilterOptions.NumericOptions | src/features/dashboard/hooks/useFilters.ts:16-23 | `meses` and `dias` are strictly ascending and hold exactly the non-null months and day numbers of the rows |
| FilterOptions.TipoOptions | src/features/dashboard/hooks/useFilters.ts:25-27 | `tipos` is strictly ascending in code-unit order and holds exactly the non-empty base types of the rows |
| FilterOptions.SemanaOptions | src/features/dashboard/hooks/useFilters.ts:29-35 | `semanas` holds each non-null week once, sorted by the number its digits form (0 when none), and labels with the same number keep first-seen order |
| FilterOptions.CampusOptions | src/features/dashboard/hooks/useFilters.ts:37-39 | `campus` is strictly ascending and holds exactly the non-empty campuses of interest of the rows |
| FilterOptions.RegimenOptions | src/features/dashboard/hooks/useFilters.ts:41-43 | `regimen` is strictly ascending and holds exactly the non-empty regimes of the rows |
| FilterOptions.Set | src/features/dashboard/hooks/useFilters.ts:48 | `set(partial)` merges the partial update into the store's filters and changes nothing else |
| Snapshot.ToMeta | src/lib/supabase/snapshot.ts:36-43 | the four dataset columns are copied field for field |
| Snapshot.AggregateToDataRows | src/lib/supabase/snapshot.ts:85-112 | one placeholder row: call type and RUT "Agregado", the stored base type, month, day number and day label, every other field null |
| Snapshot.AggregateDataRows | src/lib/supabase/snapshot.ts:124-182 | the two loops return exactly the groups in first-seen key order, each with its first row's fields, its counters and its ratios |
| Snapshot.Aggregate | src/lib/supabase/snapshot.ts:124-182 | for any key every row has and any counting rules, the two loops return `AggregateBy` |
| Snapshot.CollectGroups | src/lib/supabase/snapshot.ts:125-171 | the first loop's keys are the distinct keys in first-seen order, and each map entry holds its group's first row and counters |
| Snapshot.StoreGroups | src/lib/supabase/snapshot.ts:173-181 | the second loop turns each entry, in key order, into its stored row with the four ratios |
| Snapshot.Bump | src/lib/supabase/snapshot.ts:151-170 | the `if` statements of one row apply exactly that row's increments |
| Snapshot.FoldEntries | src/lib/supabase/snapshot.ts:130-151 | folding a non-empty group gives its first row and its counters |
| Snapshot.EntriesToRows | src/lib/supabase/snapshot.ts:173-181 | the rows built from the finished map are the groups' stored rows |
| Snapshot.AggregateByGroups | src/lib/supabase/snapshot.ts:125-181 | one stored row per distinct key, in first-seen order, each from a non-empty group |
| Snapshot.AggregateRowsFromFirst | src/lib/supabase/snapshot.ts:130-148 | each stored row carries the version and the fields of the first row with its key |
| Snapshot.FirstOfGroup | src/lib/supabase/snapshot.ts:130 | a non-empty group's first row sits at a position before which no row has the key |
| Snapshot.StoredKey | src/lib/supabase/snapshot.ts:128-135 | each stored row's fields rebuild the key it was grouped under |
| Snapshot.AggregateKeysDistinct | src/lib/supabase/snapshot.ts:125-181 | no two stored rows share a `${tipoBase}-${mes}-${diaNumero}` key |
| Snapshot.AggregateKeysPresent | src/lib/supabase/snapshot.ts:125-181 | a key has a stored row exactly when some input row carries it |
| Snapshot.SumCargadaOver | src/lib/supabase/snapshot.ts:151 | summing `cargada` over the stored rows sums the per-key counts |
| Snapshot.AggregateByCovers | src/lib/supabase/snapshot.ts:127-151 | under any key every row has, the `cargada` counters add up to the row count |
| Snapshot.AggregateCoversRows | src/lib/supabase/snapshot.ts:127-181 | every input row is loaded into exactly one stored row: the `cargada` counters add up to the number of rows |
| Snapshot.GroupRowBounds | src/lib/supabase/snapshot.ts:151-179 | a non-empty group's row has cargada >= 1, contactado <= recorrido <= cargada, other counters <= cargada, and each ratio its quotient, or 0 when the denominator is 0 |
| Snapshot.SnapshotRulesNarrow | src/lib/supabase/snapshot.ts:153-170 | a reached row was called, and every counter's rows are loaded rows |
| Snapshot.AggregateByRowBounds | src/lib/supabase/snapshot.ts:124-182 | under any key and narrowing rules every stored row is sound |
| Snapshot.AggregateRowBounds | src/lib/supabase/snapshot.ts:124-182 | every stored row is sound, with contactability in [0, 1] |
| Snapshot.SnapshotCitasWider | src/lib/supabase/snapshot.ts:160-162 | the stored citas count (any Interesa answer) is at least the dashboard's appointment count |
| Snapshot.AggregateSingle | src/lib/supabase/snapshot.ts:124-182 | a single row makes a single group |
| Snapshot.BlankRowCountsNothing | src/lib/supabase/snapshot.ts:153-170 | a row with no call outcome, answer or codes bumps only `cargada` |
| Snapshot.PlaceholderCountsOne | src/lib/supabase/snapshot.ts:85-182 | storing a read-back placeholder again gives one row counting one load and nothing else, with the same base type, month and day |
| SnapshotRoute.ExpectedKey | src/app/api/snapshot/route.ts:24-27 | the expected key is never empty (so the 500 branch is unreachable) and is the variable's value when that is set and non-empty |
| SnapshotRoute.AssertAdmin | src/app/api/snapshot/route.ts:23-33 | the request passes exactly when `x-admin-key` equals the expected key; otherwise it is refused with 401 "Unauthorized." |
| SnapshotRoute.UploadMode | src/app/api/snapshot/route.ts:69 | append exactly when the header is the text "append"; replace otherwise, including when it is absent |
| SnapshotRoute.JoinExtendLast | src/app/api/snapshot/route.ts:71-72 | appending a character to the last piece appends it to the joined text |
| SnapshotRoute.Split | src/app/api/snapshot/route.ts:71-72 | `split(",")` gives at least one piece, no piece holds a comma, and joining the pieces with commas gives back the header |
| SnapshotRoute.TrimNoComma | src/app/api/snapshot/route.ts:73 | trimming a piece without commas leaves no comma |
| SnapshotRoute.TrimmedMembers | src/app/api/snapshot/route.ts:73 | the trimmed pieces hold exactly the trimmed forms of the pieces |
| SnapshotRoute.TrimmedPieces | src/app/api/snapshot/route.ts:73-74 | of comma-free pieces, the kept ones are exactly the non-empty trimmed forms, each trimmed and comma-free |
| SnapshotRoute.SplitPieces | src/app/api/snapshot/route.ts:72 | no piece of a split holds the separator |
| SnapshotRoute.ReplaceBasesPieces | src/app/api/snapshot/route.ts:70-74 | a base is selected exactly when it is the non-empty trimmed form of a piece between commas; it is trimmed and holds no comma |
| SnapshotRoute.RowKeysMembers | src/app/api/snapshot/route.ts:80-83 | a base is brought by a file's rows exactly when some row's trimmed, non-empty Tipo Base lower-cases to it |
| SnapshotRoute.FoundKeysMembers | src/app/api/snapshot/route.ts:79-84 | a base is found exactly when some row of some file brings it |
| SnapshotRoute.DistinctSnoc | src/app/api/snapshot/route.ts:82 | adding a value to a set in insertion order appends it only when it is new |
| SnapshotRoute.RowKeysSnoc | src/app/api/snapshot/route.ts:80-83 | one more row adds its base, if it brings one, after the bases already listed |
| SnapshotRoute.CollectStep | src/app/api/snapshot/route.ts:81-82 | one step of the inner loop adds a new base, and leaves `found` alone for a known base or none |
| SnapshotRoute.CollectFound | src/app/api/snapshot/route.ts:78-84 | the nested loops leave `found` holding each base some row brings, once, in first-seen order |
| SnapshotRoute.CollectRows | src/app/api/snapshot/route.ts:80-83 | the inner loop adds the bases of one file's rows to `found` |
| SnapshotRoute.SelectedMembers | src/app/api/snapshot/route.ts:77 | `selected` holds exactly the lower-cased selected bases |
| SnapshotRoute.MissingMembers | src/app/api/snapshot/route.ts:87 | `missing` holds exactly the selected bases whose lower-cased form was not found |
| SnapshotRoute.ExtraMembers | src/app/api/snapshot/route.ts:86-88 | `extra` is strictly sorted and holds exactly the found bases that were not selected |
| SnapshotRoute.CheckMissingFirst | src/app/api/snapshot/route.ts:87-98 | missing bases are reported, before any extra base, exactly when some selected base is not found, and the report names every such base |
| SnapshotRoute.CheckBasesSound | src/app/api/snapshot/route.ts:86-109 | the check passes exactly when every selected base is found and every found base is selected; an extra-base refusal lists the unselected found bases, sorted |
| SnapshotRoute.FirstFailure | src/app/api/snapshot/route.ts:63-64 | the first failed parse: it failed and every earlier file parsed; none when every file parsed |
| SnapshotRoute.DatasetsOf | src/app/api/snapshot/route.ts:68 | one dataset per file, in order, each from that file's parse |
| SnapshotRoute.RowsOf | src/app/api/snapshot/route.ts:80 | one row list per dataset, in order |
| SnapshotRoute.NamesOf | src/app/api/snapshot/route.ts:114 | one name per file, in order |
| SnapshotRoute.HandlePost | src/app/api/snapshot/route.ts:35-121 | the handler's early returns give exactly the decision `Post` |
| SnapshotRoute.HandleParsed | src/app/api/snapshot/route.ts:68-116 | once every file parsed, the loops and the two refusals give exactly the decision `Accept` |
| SnapshotRoute.PostApplies | src/app/api/snapshot/route.ts:35-116 | an update is applied exactly when the key matches, the body is multipart, there are files, each parsed, and the replace-bases check passes |
| SnapshotRoute.PostAccepts | src/app/api/snapshot/route.ts:37-68 | with the right key, a multipart body and files that all parsed, the request reaches the replace-bases check |
| SnapshotRoute.DecideApplied | src/app/api/snapshot/route.ts:90-116 | the update is applied exactly when the check passes |
| SnapshotRoute.AppliedUpdate | src/app/api/snapshot/route.ts:111-116 | an applied update carries every file's dataset and name in order, the upload mode, and the selected bases only in replace mode |
| SnapshotRoute.PostFirstFailure | src/app/api/snapshot/route.ts:62-66 | once the key and body are accepted, a failed parse is answered with the first failing result |
| SnapshotRoute.PostAuthFirst | src/app/api/snapshot/route.ts:37-43 | a wrong or absent key is refused with 401 before anything else is looked at |
| SnapshotRoute.NoRowKeysAsWritten | src/app/api/snapshot/route.ts:80-83 | as written, the parsed rows carry no `tipoBase`, so no row brings a base |
| SnapshotRoute.NothingFoundAsWritten | src/app/api/snapshot/route.ts:78-84 | as written, no upload brings any base |
| SnapshotRoute.AllMissing | src/app/api/snapshot/route.ts:87-98 | with nothing found, every selected base is reported missing |
| SnapshotRoute.ReplaceAlwaysRefusedAsWritten | src/app/api/snapshot/route.ts:76-98 | as written, every replace upload that selects bases is refused with 400, naming every selected base as missing |
| SnapshotRoute.ReplaceCheckIntended | src/app/api/snapshot/route.ts:76-109 | reading the base from the rows' `tipo`, the check passes exactly when every selected base is brought by some row and every row's base is selected |
| SnapshotRoute.AllKeysAre | src/app/api/snapshot/route.ts:81-82 | every row of a trimmed base type brings that type lower-cased |
| SnapshotRoute.SingleBaseIntended | src/app/api/snapshot/route.ts:76-109 | with the intended reading, files of one base type pass when exactly that base is selected |
| SnapshotRoute.OnlyKey | src/app/api/snapshot/route.ts:78-84 | files of one base type bring that base, lower-cased, and nothing else |
| SnapshotRoute.KeyFound | src/app/api/snapshot/route.ts:78-84 | some row of such files brings the base |
| SnapshotRoute.KeysOnly | src/app/api/snapshot/route.ts:78-84 | no row of such files brings another base |
| SnapshotRoute.StockReplaceAccepted | src/app/api/snapshot/route.ts:35-116 | a replace upload of Stock rows that selects "Stock" is applied with the intended reading and refused as written |
| Analytics.RowKpi | src/app/analytics/page.tsx:26-44 | each row counts 0 or 1; every row counts once as loaded; a row counts as a cita exactly when its trimmed, lower-cased Interesa is "viene" |
| Analytics.RowKpiAgrees | src/app/analytics/page.tsx:26-44 | the page's per-row test equals the dashboard's row predicate for each metric |
| Analytics.KpiSumCounts | src/app/analytics/page.tsx:300-305 | the `reduce` of a metric's KPI counts the rows its predicate accepts |
| Analytics.KpiSumIsFunnel | src/app/analytics/page.tsx:300-305 | every metric's sum is the matching counter of `computeTotals` on the same rows |
| Analytics.FilteredRows | src/app/analytics/page.tsx:154-160 | never more rows than given, and with nothing selected every row is kept |
| Analytics.SkipIsFilter | src/app/analytics/page.tsx:156-158 | a filter skipped for an empty selection is a filter that passes everything |
| Analytics.FilteredRowsIsFilter | src/app/analytics/page.tsx:154-160 | the three filters one after the other are a single filter by `Passes` |
| Analytics.FilteredRowsMembers | src/app/analytics/page.tsx:154-160 | a row is kept exactly when it passes every non-empty selection; a row with no month, day or week is dropped once that selection is non-empty |
| Analytics.MonthPillKeepsMonth | src/app/analytics/page.tsx:156 | selecting the pill `String(m)` keeps exactly the rows of month m |
| Analytics.LabelOptions | src/app/analytics/page.tsx:136-145 | the day and week selectors list each present non-empty label once, in the selector's order |
| Analytics.SeriesValue | src/app/analytics/page.tsx:169-230 | each value of a series is the dashboard's counter for that metric over that category's rows |
| Analytics.ChartMonthsMembers | src/app/analytics/page.tsx:132-166 | the months shown are ascending and are exactly the months some row carries that are selected (or all of them when none is) |
| Analytics.ChartDaysSelected | src/app/analytics/page.tsx:193-194 | with days selected, the days shown are the selected ones among Lun..Dom, once each, in week order |
| Analytics.PickedInOrder | src/app/analytics/page.tsx:194 | picking labels out of the week order keeps its order and repeats nothing |
| Analytics.ChartsCount | src/app/analytics/page.tsx:163-247 | the monthly and weekly charts count every row of each month or week, the daily chart the filtered rows of each day |
| Analytics.KpiSumsAreFunnel | src/app/analytics/page.tsx:257-263 | the six sums of a month are the counters of `computeTotals` |
| Analytics.PctIsRatio | src/app/analytics/page.tsx:265-270 | `den > 0 ? num / den * 100 : 0` is the dashboard's ratio in percent, 0 where it is null |
| Analytics.ConversionRates | src/app/analytics/page.tsx:250-272 | one entry of rates per month the chart shows |
| Analytics.MonthRatesAreTotals | src/app/analytics/page.tsx:256-271 | a month's six rates are the rates `computeTotals` gives for that month's rows, in percent |
| Analytics.MonthRatesBounds | src/app/analytics/page.tsx:265-270 | called-of-loaded, reached-of-called and enrolled-of-loaded lie in [0, 100]; no rate is negative |
| Analytics.PctInRange | src/app/analytics/page.tsx:265-270 | a part of a whole is between 0 and 100 percent |
| Analytics.PctNonNegative | src/app/analytics/page.tsx:265-270 | no rate is negative |
| Analytics.SummaryKpis | src/app/analytics/page.tsx:299-305 | one summary value per metric of `ALL_METRICS` |
| Analytics.SummaryIsTotals | src/app/analytics/page.tsx:299-305 | the summary cards are the counters of `computeTotals` over the filtered rows |
| Analytics.ToggleMembers | src/app/analytics/page.tsx:71-77 | toggling a pill flips exactly that value and leaves the others as they are |
| Analytics.RemoveOne | src/app/analytics/page.tsx:398-406 | removing a value from a list without duplicates shortens it by one |
| Analytics.ToggleMetricValid | src/app/analytics/page.tsx:398-406 | the metric toggle keeps at least one metric selected, never repeats one, and flips the toggled metric unless it is the only one |
| Analytics.ToggleMetricTwice | src/app/analytics/page.tsx:398-406 | selecting a metric and toggling it again restores the selection |
| Analytics.InitialMetricsValid | src/app/analytics/page.tsx:148 | the initial selection is valid |
| Widgets.SeriesOf | src/features/dashboard/components/widgets/weekly-chart.tsx:41-46 | six series, one value per category each |
| Widgets.GroupFunnels | src/features/dashboard/components/widgets/weekly-chart.tsx:21-46 | one counter set per listed category, each the `computeTotals` counters of that category's rows |
| Widgets.GroupCounters | src/features/dashboard/components/widgets/weekly-chart.tsx:26-35 | the grouping loop's increments leave each group with the `computeTotals` counters of its rows |
| Widgets.Lookup | src/features/dashboard/components/widgets/weekly-chart.tsx:41 | one looked-up value per category |
| Widgets.LookupFunnels | src/features/dashboard/components/widgets/weekly-chart.tsx:21-46 | after the grouping loop every listed category is in the map and reads as its rows' counters |
| Widgets.GroupBounds | src/features/dashboard/components/widgets/weekly-chart.tsx:26-35 | a group's cargada is its size, contactado <= recorrido <= cargada, and no counter exceeds cargada |
| Widgets.WeeklyChartData | src/features/dashboard/components/widgets/weekly-chart.tsx:13-48 | null exactly for no rows; otherwise the weeks in code-unit order, each with its rows' six counters |
| Widgets.WeeksPartitionRows | src/features/dashboard/components/widgets/weekly-chart.tsx:21-38 | the weeks are sorted and distinct, are exactly the trimmed labels (blank ones as "Sin Semana"), and their groups hold every row once |
| Widgets.BlankWeekIsSinSemana | src/features/dashboard/components/widgets/weekly-chart.tsx:22 | a row with a blank or missing week is counted under "Sin Semana" |
| Widgets.WeekTenBeforeTwo | src/features/dashboard/components/widgets/weekly-chart.tsx:38 | the plain sort puts "Semana 10" before "Semana 2" |
| Widgets.CitaRutsMembers | src/features/dashboard/components/widgets/daily-chart.tsx:35 | a key is in a day's set exactly when some appointment row of that day has it as `normalizeRut(rutBase)`, the as-written key |
| Widgets.FormattedRutCountedTwice | src/features/dashboard/components/widgets/daily-chart.tsx:35 | two appointment rows with RUT "a-b" and "ab" give two keys, so the day's citas is 2: a consequence of the rut.ts:5 finding |
| Widgets.FormattedRutCountedOnceIntended | src/features/dashboard/components/widgets/daily-chart.tsx:35 | under the corrected key of the rut.ts:5 finding, the same two rows give one key |
| Widgets.CitaRutsBound | src/features/dashboard/components/widgets/daily-chart.tsx:35-48 | a day's distinct RUTs are never more than its appointment rows |
| Widgets.FoldDayRuts | src/features/dashboard/components/widgets/daily-chart.tsx:24-40 | the loop's RUT set is the set of the appointment rows' RUTs |
| Widgets.FoldDayCounters | src/features/dashboard/components/widgets/daily-chart.tsx:31-39 | the loop's five counters count the loaded, called, reached, AF and MC rows |
| Widgets.FoldDay | src/features/dashboard/components/widgets/daily-chart.tsx:24-48 | a day's record reads as its rows' counters, with citas the number of distinct RUTs |
| Widgets.DayCounts | src/features/dashboard/components/widgets/daily-chart.tsx:45-50 | one counter set per record |
| Widgets.LookupDays | src/features/dashboard/components/widgets/daily-chart.tsx:24-50 | after the daily loop, the listed days are in the map and read as their rows' counters |
| Widgets.DayFunnels | src/features/dashboard/components/widgets/daily-chart.tsx:42-50 | one counter set per listed day, from that day's rows |
| Widgets.DailyChartData | src/features/dashboard/components/widgets/daily-chart.tsx:16-52 | null exactly for no rows; otherwise the present days in Lun..Dom order, each with its rows' counters and citas as the number of distinct `normalizeRut` keys |
| Widgets.DaysShown | src/features/dashboard/components/widgets/daily-chart.tsx:8-42 | a day is shown exactly when it is a day of the week some row carries (trimmed); once each, Monday first |
| Widgets.DayBounds | src/features/dashboard/components/widgets/daily-chart.tsx:31-48 | a day's citas never exceed its appointment rows, its cargada is its size, and contactado <= recorrido <= cargada |
| Widgets.EvolutionChartData | src/features/dashboard/components/widgets/evolution-chart.tsx:14-50 | null exactly for no rows; otherwise the months ascending, labelled, each with its rows' five counters |
| Widgets.EvolutionMonthsMembers | src/features/dashboard/components/widgets/evolution-chart.tsx:23-39 | the months are ascending and are exactly the non-null months of the rows, month 0 included |
| Widgets.EvolutionValues | src/features/dashboard/components/widgets/evolution-chart.tsx:40-48 | each label is "Mes m" for its month, and in each month reached rows were called and none exceeds the month's rows |
| Widgets.FoldTally | src/features/dashboard/components/widgets/metric-breakdown-chart.tsx:47 | counting a group's rows one by one gives its size |
| Widgets.LookupTallies | src/features/dashboard/components/widgets/metric-breakdown-chart.tsx:34-57 | after the counting loop each label's count is the size of its group |
| Widgets.RankIsOrder | src/features/dashboard/components/widgets/metric-breakdown-chart.tsx:50-54 | larger count first, then label order, is a strict total order |
| Widgets.MetricBreakdown | src/features/dashboard/components/widgets/metric-breakdown-chart.tsx:31-57 | the labels are the counted groups in rank order, and each value is its group's size |
| Widgets.BreakdownRanking | src/features/dashboard/components/widgets/metric-breakdown-chart.tsx:31-57 | the labels are distinct, each counts at least one row, larger counts come first (ties by label), and the counts add up to the rows the metric counts |
| Widgets.CountSameRows | src/features/dashboard/components/widgets/metric-breakdown-chart.tsx:12-20 | two tests that agree on every row count the same rows |
| Widgets.CampusFallback | src/features/dashboard/components/widgets/metric-breakdown-chart.tsx:39-44 | a campus field that is present, even blank, is used; only a missing one falls back to the campus of interest |
| Widgets.BlankRegimen | src/features/dashboard/components/widgets/metric-breakdown-chart.tsx:45 | a blank or missing regime is shown as "SIN RÉGIMEN" |
| Widgets.FoldAfMc | src/features/dashboard/components/widgets/regimen-breakdown-chart.tsx:14-33 | a group's two counters count its AF and MC rows |
| Widgets.AfMcOf | src/features/dashboard/components/widgets/regimen-breakdown-chart.tsx:35-37 | one AF and one MC value per label |
| Widgets.AfMcBreakdown | src/features/dashboard/components/widgets/regimen-breakdown-chart.tsx:10-37 | the shared loop and sort return the labels in code-unit order, each with its group's AF and MC counts |
| Widgets.RegimenBreakdown | src/features/dashboard/components/widgets/regimen-breakdown-chart.tsx:10-37 | grouped by the upper-cased regime, "SIN RÉGIMEN" when blank |
| Widgets.CampusBreakdown | src/features/dashboard/components/widgets/campus-breakdown-chart.tsx:10-37 | grouped by the upper-cased campus of interest, "SIN CAMPUS" when blank |
| Widgets.AfMcGroups | src/features/dashboard/components/widgets/regimen-breakdown-chart.tsx:14-35 | the labels are strictly sorted, and a label is listed exactly when some row carries it |
| Widgets.ZeroGroupShown | src/features/dashboard/components/widgets/regimen-breakdown-chart.tsx:15-18 | a regime whose rows have no AF or MC code still gets a bar pair, both zero |
| Widgets.ZeroGroup | src/features/dashboard/components/widgets/campus-breakdown-chart.tsx:15-18 | a row with no AF or MC code makes a group with both counts zero |
| Widgets.SingleRowGroup | src/features/dashboard/components/widgets/regimen-breakdown-chart.tsx:14-18 | one row makes one group, labelled by its key, holding that row |

## Left out

- Numbers are exact reals. Binary floating-point rounding in the rates, `Math.round` and `toFixed(1)` is not modelled. The conversion chart's display rounding is part of rendering.
- `Number(string)` covers decimal text only: an optional sign, digits, and an optional fraction. Exponents, hexadecimal and "Infinity" read as NaN.
- `localeCompare("es")` and the default `sort` order are both code-point order (`Text.Compare`/`StrLt`). Spanish collation is not modelled, and neither is the difference between UTF-16 code units and code points.
- Case mapping covers ASCII and the Latin-1 letters À–Þ and à–þ. `toUpperCase` of ß (to "SS", which also changes the length), ÿ (to U+0178) and µ (to U+039C) is not modelled: `Text.Upper` leaves them unchanged. Other scripts are unchanged too. These letters can reach `Campus.ToCampusFullName`, `Widgets.RegimenLabel` and `Widgets.SedeLabel`, which then keep them in lower case.
- NFD diacritic stripping covers the accented Latin-1 letters. Other scripts pass through unchanged.
- Dates are millisecond time values read in UTC. Local time zones and daylight saving are left out.
- date-fns `parse` (the fallback formats of `parseLooseDate`) is a function parameter.
- The current year in `isReasonableYear` is a parameter.
- date-fns `startOfWeek` and `differenceInCalendarWeeks` are computed on day numbers with Monday as the week start.
- Semana.BaseDay is the numeral 20311. `Semana.BaseDayValue` proves it is `new Date(2025, 7, 11)` and a Monday.
- Workbook decoding (`XLSX.read`, `sheet_to_json`) is left out: a workbook is a list of named sheets of string-keyed rows.
- The HTTP plumbing of the snapshot route is left out: form data, `NextResponse`, the `GET` handler and the catch-all 500.
- `applySnapshotUpdate` is not part of this model: an accepted upload is the update handed to it. The Supabase calls of `getActiveSnapshot`, `replaceSnapshot` and `insertRowsInBatches` are left out too.
- The route reads each parsed dataset's rows through a function parameter for the Tipo Base. As written that reading gives nothing (see Findings).
- React rendering, ECharts option objects, IndexedDB and localStorage persistence, and the `useData`/`useMetrics` hooks are left out. Those hooks only compose the store, `applyFilters` and `computeTotals`.
- The evolution chart's accumulator also carries `cargada`. The chart never reads it, and the five series it shows are those of the source.
- Numbers: there is no single lemma reading "1.234,5" end to end as 1234.5. The rewrite (`DotGroupsThousands`, `CommaToPoint`) and the value of a decimal (`ParseNumberOfDecimal`) are separate lemmas.

## Findings

| source | as written | input that shows it | evidently intended | confidence | as-written member | corrected member |
|---|---|---|---|---|---|---|
| src/lib/utils/rut.ts:5 | the class `[.\\-\\s]` holds '.', backslash and 's' only: hyphens and white space stay in the key | "12.345.678-9" gives "12345678-9", while "123456789" gives "123456789": the same RUT gets two keys, and the daily chart counts its two appointments as two citas | remove dots, hyphens and white space, so that formatting does not change the key | not executed | Rut.HyphenSplitsKey | Rut.IntendedIgnoresSeparator |
| src/app/api/snapshot/route.ts:81 | the base is read from `r.tipoBase`, but the rows `parseXlsxFile` returns carry it as `tipo`, so `found` stays empty | a replace upload with `x-replace-bases: Stock` of a workbook whose rows are all Stock is refused with "no traen filas para Stock" | read the row's `tipo`, so that an upload of exactly the selected bases is accepted | not executed | SnapshotRoute.ReplaceAlwaysRefusedAsWritten | SnapshotRoute.StockReplaceAccepted |
