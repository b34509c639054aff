/**
 * The tabular data every component passes around: a pandas DataFrame seen as
 * a set of column names and a sequence of rows, each row a map from those
 * column names to cell values. Missing cells (NaN, None, NaT) are `Null`.
 */
module Tables {
  import opened Options
  import opened Dates

  datatype Value = Null | Text(s: string) | Num(n: int) | Day(d: ValidDate)

  type Row = map<string, Value>

  /** `columns` is `df.columns`; every row carries exactly those columns. */
  datatype Batch = Batch(columns: set<string>, rows: seq<Row>)

  ghost predicate WellFormed(b: Batch) {
    forall i :: 0 <= i < |b.rows| ==> b.rows[i].Keys == b.columns
  }

  /** pandas' `df.empty`: no rows, or no columns at all. */
  predicate Empty(b: Batch) {
    |b.rows| == 0 || b.columns == {}
  }

  /** The cell of column `c`, or `Null` when the row has no such column. */
  function Get(r: Row, c: string): Value {
    if c in r then r[c] else Null
  }

  /** `len(df)` summed over a sequence of frames. */
  function TotalRows(bs: seq<Batch>): nat {
    if bs == [] then 0 else TotalRows(bs[..|bs| - 1]) + |bs[|bs| - 1].rows|
  }

  /** `pd.DataFrame()`. */
  const EmptyFrame: Batch := Batch({}, [])

  // ---- column names of the CDC case data ----

  const CaseMonth := "case_month"
  const ResState := "res_state"
  const StateFips := "state_fips_code"
  const AgeGroup := "age_group"
  const Sex := "sex"
  const Race := "race"
  const Ethnicity := "ethnicity"
  const SpecimenInterval := "case_positive_specimen_interval"
  const OnsetInterval := "case_onset_interval"
  const Process := "process"
  const Exposure := "exposure_yn"
  const CurrentStatus := "current_status"
  const SymptomStatus := "symptom_status"
  const Death := "death_yn"
  const Hosp := "hosp_yn"
  const Icu := "icu_yn"
  const Underlying := "underlying_conditions_yn"

  const Unknown := "Unknown"

  // ---- parsing, as pandas does it ----

  /**
   * What pandas makes of values it has not parsed itself: `dateOf` is
   * `pd.to_datetime(..., errors='coerce')` on one raw cell, `numOf` is
   * `pd.to_numeric(..., errors='coerce')` followed by `astype(int)`, and
   * `show` is `astype(str)` on a non-text cell.
   */
  datatype Parsers = Parsers(
    dateOf: Value -> Option<ValidDate>,
    numOf: Value -> Option<int>,
    show: Value -> string)

  /** `pd.to_datetime` on one cell: a missing cell stays missing, a date stays itself. */
  function ToDate(p: Parsers, v: Value): Option<ValidDate> {
    match v
    case Null => None
    case Day(d) => Some(d)
    case _ => p.dateOf(v)
  }

  /** `pd.to_numeric` on one cell: a missing cell stays missing, an integer stays itself. */
  function ToInt(p: Parsers, v: Value): Option<int> {
    match v
    case Null => None
    case Num(n) => Some(n)
    case _ => p.numOf(v)
  }

  /** The cell as the date column holds it after the rewrite with `pd.to_datetime`. */
  function AsDateCell(p: Parsers, v: Value): Value {
    match ToDate(p, v)
    case Some(d) => Day(d)
    case None => Null
  }
}
