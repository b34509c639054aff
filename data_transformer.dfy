/**
 * The batch cleaner (`DataTransformer.clean_and_transform`): a fixed
 * pipeline of column rewrites and row drops over one batch.
 *
 * Each pandas step is a whole-batch function; the method runs them in the
 * source's order, with its `for col` loops. The pipeline is then shown to
 * equal a row-by-row definition: a row survives when its date parses (if
 * the batch has dates) and its FIPS code is present (if the batch has one),
 * and every surviving cell is rewritten according to its column alone.
 */
module DataTransformer {
  import opened Options
  import opened Tables

  // ---- whitespace ----

  /** The characters Python's `str.strip()` removes: those for which `str.isspace()` holds. */
  predicate IsSpace(c: char) {
    c == ' ' || ('\t' <= c <= '\r') || ('\U{1C}' <= c <= '\U{1F}')
    || c == '\U{85}' || c == '\U{A0}' || c == '\U{1680}'
    || ('\U{2000}' <= c <= '\U{200A}') || c == '\U{2028}' || c == '\U{2029}'
    || c == '\U{202F}' || c == '\U{205F}' || c == '\U{3000}'
  }

  function TrimStart(s: string): (t: string)
    ensures |t| <= |s| && t == s[|s| - |t|..]
    ensures t == [] || !IsSpace(t[0])
    ensures forall i :: 0 <= i < |s| - |t| ==> IsSpace(s[i])
  {
    if s != [] && IsSpace(s[0]) then TrimStart(s[1..]) else s
  }

  function TrimEnd(s: string): (t: string)
    ensures |t| <= |s| && t == s[..|t|]
    ensures t == [] || !IsSpace(t[|t| - 1])
    ensures forall i :: |t| <= i < |s| ==> IsSpace(s[i])
  {
    if s != [] && IsSpace(s[|s| - 1]) then TrimEnd(s[..|s| - 1]) else s
  }

  /** `t` is `s` with `i` whitespace characters cut from its start and only whitespace cut from its end. */
  ghost predicate CutAt(s: string, t: string, i: int) {
    0 <= i <= |s| - |t| && t == s[i..i + |t|]
    && (forall j :: 0 <= j < i ==> IsSpace(s[j]))
    && (forall j :: i + |t| <= j < |s| ==> IsSpace(s[j]))
  }

  /** `str.strip()`: the string without its leading and trailing whitespace. */
  function Trim(s: string): (t: string)
    ensures t == [] || (!IsSpace(t[0]) && !IsSpace(t[|t| - 1]))
  {
    var a := TrimStart(s);
    var t := TrimEnd(a);
    assert t != [] ==> t[0] == a[0];
    t
  }

  lemma CutFromParts(s: string, a: string, t: string)
    requires |a| <= |s| && a == s[|s| - |a|..] && forall j :: 0 <= j < |s| - |a| ==> IsSpace(s[j])
    requires |t| <= |a| && t == a[..|t|] && forall k :: |t| <= k < |a| ==> IsSpace(a[k])
    ensures CutAt(s, t, |s| - |a|)
  {
    var i := |s| - |a|;
    forall j | i + |t| <= j < |s|
      ensures IsSpace(s[j])
    {
      assert s[j] == a[j - i];
    }
  }

  /** What `str.strip()` removes is whitespace, from the two ends only: the result is a slice of the input. */
  lemma TrimIsCut(s: string)
    ensures CutAt(s, Trim(s), |s| - |TrimStart(s)|)
  {
    var a := TrimStart(s);
    assert Trim(s) == TrimEnd(a);
    CutFromParts(s, a, TrimEnd(a));
  }

  /** Stripping a string with no whitespace at either end changes nothing. */
  lemma TrimmedIsFixed(t: string)
    requires t == [] || (!IsSpace(t[0]) && !IsSpace(t[|t| - 1]))
    ensures Trim(t) == t
  {
    assert TrimStart(t) == t;
  }

  /** `str.strip()` is idempotent. */
  lemma TrimIdempotent(s: string)
    ensures Trim(Trim(s)) == Trim(s)
  {
    TrimmedIsFixed(Trim(s));
  }

  // ---- one cell ----

  /** `fillna('Unknown').astype(str)` on one cell. */
  function Shown(p: Parsers, v: Value): string {
    match v
    case Null => Unknown
    case Text(s) => s
    case _ => p.show(v)
  }

  /** The three column rewrites of the pipeline. */
  datatype Rewrite =
    | AsDate  // pd.to_datetime(..., errors='coerce')
    | AsInt   // pd.to_numeric(..., errors='coerce').fillna(0).astype(int)
    | AsText  // fillna('Unknown').astype(str).str.strip()

  function Rewritten(p: Parsers, rw: Rewrite, v: Value): (w: Value)
    ensures rw.AsDate? ==> (w.Null? || w.Day?) && (w.Null? <==> ToDate(p, v).None?)
    ensures rw.AsInt? ==> w.Num? && (ToInt(p, v).None? ==> w.n == 0)
    ensures rw.AsText? ==> w.Text?
  {
    match rw
    case AsDate => AsDateCell(p, v)
    case AsInt => Num(ToInt(p, v).GetOr(0))
    case AsText => Text(Trim(Shown(p, v)))
  }

  /** A missing text cell becomes `'Unknown'`, which stripping leaves as it is. */
  lemma MissingTextIsUnknown(p: Parsers)
    ensures Rewritten(p, AsText, Null) == Text(Unknown)
  {
    TrimmedIsFixed(Unknown);
  }

  /** A rewritten cell is left alone by the same rewrite. */
  lemma RewrittenIdempotent(p: Parsers, rw: Rewrite, v: Value)
    ensures Rewritten(p, rw, Rewritten(p, rw, v)) == Rewritten(p, rw, v)
  {
    match rw
    case AsDate =>
      assert ToDate(p, AsDateCell(p, v)) == ToDate(p, v);
    case AsInt =>
      assert ToInt(p, Num(ToInt(p, v).GetOr(0))) == Some(ToInt(p, v).GetOr(0));
    case AsText =>
      TextRewriteIdempotent(p, v);
  }

  lemma TextRewriteIdempotent(p: Parsers, v: Value)
    ensures Rewritten(p, AsText, Rewritten(p, AsText, v)) == Rewritten(p, AsText, v)
  {
    var s := Trim(Shown(p, v));
    assert Rewritten(p, AsText, v) == Text(s);
    assert Shown(p, Text(s)) == s;
    TrimIdempotent(Shown(p, v));
  }

  // ---- whole-batch steps ----

  /** Every row with the cell of `col` rewritten. */
  function MapColumn(p: Parsers, rows: seq<Row>, col: string, rw: Rewrite): (out: seq<Row>)
    ensures |out| == |rows|
  {
    seq(|rows|, i requires 0 <= i < |rows| => rows[i][col := Rewritten(p, rw, Get(rows[i], col))])
  }

  /** `dropna(subset=[col])` on the rows: those whose cell of `col` is missing go, the rest keep their order. */
  function DropNull(rows: seq<Row>, col: string): (out: seq<Row>)
    ensures |out| <= |rows|
    ensures forall i :: 0 <= i < |out| ==> Get(out[i], col) != Null
  {
    if rows == [] then []
    else (if Get(rows[0], col) != Null then [rows[0]] else []) + DropNull(rows[1..], col)
  }

  /** `df[col] = <rewrite of df[col]>`, when `col in df.columns`. */
  function RewriteColumn(p: Parsers, b: Batch, col: string, rw: Rewrite): (r: Batch)
    ensures r.columns == b.columns && |r.rows| == |b.rows|
  {
    if col in b.columns then Batch(b.columns, MapColumn(p, b.rows, col, rw)) else b
  }

  /** A `for col in cols` loop of `RewriteColumn`. */
  function RewriteColumns(p: Parsers, b: Batch, cols: seq<string>, rw: Rewrite): (r: Batch)
    ensures r.columns == b.columns && |r.rows| == |b.rows|
  {
    if cols == [] then b
    else RewriteColumn(p, RewriteColumns(p, b, cols[..|cols| - 1], rw), cols[|cols| - 1], rw)
  }

  /** `df.dropna(subset=[col])`, when `col in df.columns`. */
  function DropMissing(b: Batch, col: string): (r: Batch)
    ensures r.columns == b.columns && |r.rows| <= |b.rows|
  {
    if col in b.columns then Batch(b.columns, DropNull(b.rows, col)) else b
  }

  /** A `for col in cols` loop of `DropMissing`. */
  function DropMissings(b: Batch, cols: seq<string>): (r: Batch)
    ensures r.columns == b.columns && |r.rows| <= |b.rows|
  {
    if cols == [] then b
    else DropMissing(DropMissings(b, cols[..|cols| - 1]), cols[|cols| - 1])
  }

  /** Lines 28-30: dates parsed, and rows whose date is missing or does not parse dropped. */
  function ParseDates(p: Parsers, b: Batch): (r: Batch)
    ensures r.columns == b.columns && |r.rows| <= |b.rows|
  {
    if CaseMonth in b.columns then Batch(b.columns, DropNull(MapColumn(p, b.rows, CaseMonth, AsDate), CaseMonth))
    else b
  }

  /** Lines 51-52: a `process` column of `'Unknown'` when there is none. */
  function AddProcess(b: Batch): (r: Batch)
    ensures Process in r.columns && r.columns == b.columns + {Process} && |r.rows| == |b.rows|
  {
    if Process in b.columns then b
    else Batch(b.columns + {Process},
               seq(|b.rows|, i requires 0 <= i < |b.rows| => b.rows[i][Process := Text(Unknown)]))
  }

  const IntervalCols := [SpecimenInterval, OnsetInterval]

  const TextCols := [ResState, AgeGroup, Sex, Race, Ethnicity, Exposure, CurrentStatus,
                     SymptomStatus, Death, Hosp, Icu, Underlying]

  const LocationCols := [ResState, StateFips]

  /** The steps of lines 28-52, in order, on a batch that is not empty. */
  function Pipeline(p: Parsers, b: Batch): Batch {
    var dated := ParseDates(p, b);
    var counted := RewriteColumns(p, dated, IntervalCols, AsInt);
    var texted := RewriteColumns(p, counted, TextCols, AsText);
    AddProcess(DropMissings(texted, LocationCols))
  }

  /** What `clean_and_transform` returns: an empty frame as it came, anything else through the pipeline. */
  function Transform(p: Parsers, b: Batch): Batch {
    if Empty(b) then b else Pipeline(p, b)
  }

  /** The `for col in cols` loops of lines 34-36 and 40-42. */
  method RewriteEach(p: Parsers, input: Batch, cols: seq<string>, rw: Rewrite) returns (df: Batch)
    ensures df == RewriteColumns(p, input, cols, rw)
  {
    df := input;
    for i := 0 to |cols|
      invariant df == RewriteColumns(p, input, cols[..i], rw)
    {
      var col := cols[i];
      assert cols[..i + 1][..i] == cols[..i];
      if col in df.columns {
        df := Batch(df.columns, MapColumn(p, df.rows, col, rw));
      }
    }
    assert cols[..|cols|] == cols;
  }

  /** The `for col in location_cols` loop of lines 46-48. */
  method DropEach(input: Batch, cols: seq<string>) returns (df: Batch)
    ensures df == DropMissings(input, cols)
  {
    df := input;
    for i := 0 to |cols|
      invariant df == DropMissings(input, cols[..i])
    {
      var col := cols[i];
      assert cols[..i + 1][..i] == cols[..i];
      if col in df.columns {
        df := Batch(df.columns, DropNull(df.rows, col));
      }
    }
    assert cols[..|cols|] == cols;
  }

  /** `DataTransformer.clean_and_transform`. */
  method CleanAndTransform(p: Parsers, input: Batch) returns (df: Batch)
    ensures df == Transform(p, input)
  {
    df := input;
    if Empty(df) {
      return;
    }
    if CaseMonth in df.columns {
      df := Batch(df.columns, MapColumn(p, df.rows, CaseMonth, AsDate));
      df := Batch(df.columns, DropNull(df.rows, CaseMonth));
    }
    df := RewriteEach(p, df, IntervalCols, AsInt);
    df := RewriteEach(p, df, TextCols, AsText);
    df := DropEach(df, LocationCols);
    if Process !in df.columns {
      df := Batch(df.columns + {Process}, seq(|df.rows|, i requires 0 <= i < |df.rows| => df.rows[i][Process := Text(Unknown)]));
    }
  }

  // ---- every step treats each row on its own ----

  lemma MapColumnAppend(p: Parsers, x: seq<Row>, y: seq<Row>, col: string, rw: Rewrite)
    ensures MapColumn(p, x + y, col, rw) == MapColumn(p, x, col, rw) + MapColumn(p, y, col, rw)
  {
    var whole, parts := MapColumn(p, x + y, col, rw), MapColumn(p, x, col, rw) + MapColumn(p, y, col, rw);
    forall i | 0 <= i < |whole|
      ensures whole[i] == parts[i]
    {
      MapColumnAppendAt(p, x, y, col, rw, i);
    }
  }

  lemma MapColumnAppendAt(p: Parsers, x: seq<Row>, y: seq<Row>, col: string, rw: Rewrite, i: nat)
    requires i < |x| + |y|
    ensures MapColumn(p, x + y, col, rw)[i] == (MapColumn(p, x, col, rw) + MapColumn(p, y, col, rw))[i]
  {
    if i < |x| {
      assert (x + y)[i] == x[i];
    } else {
      assert (x + y)[i] == y[i - |x|];
    }
  }

  lemma {:induction false} DropNullAppend(x: seq<Row>, y: seq<Row>, col: string)
    ensures DropNull(x + y, col) == DropNull(x, col) + DropNull(y, col)
  {
    if x == [] {
      assert x + y == y;
    } else {
      assert (x + y)[0] == x[0] && (x + y)[1..] == x[1..] + y;
      DropNullAppend(x[1..], y, col);
      var head := if Get(x[0], col) != Null then [x[0]] else [];
      assert head + (DropNull(x[1..], col) + DropNull(y, col)) == (head + DropNull(x[1..], col)) + DropNull(y, col);
    }
  }

  lemma {:induction false} RewriteColumnsAppend(p: Parsers, c: set<string>, x: seq<Row>, y: seq<Row>,
                                                names: seq<string>, rw: Rewrite)
    ensures RewriteColumns(p, Batch(c, x + y), names, rw).rows
         == RewriteColumns(p, Batch(c, x), names, rw).rows + RewriteColumns(p, Batch(c, y), names, rw).rows
    decreases |names|
  {
    if names != [] {
      var init := names[..|names| - 1];
      RewriteColumnsAppend(p, c, x, y, init, rw);
      var bx := RewriteColumns(p, Batch(c, x), init, rw);
      var yb := RewriteColumns(p, Batch(c, y), init, rw);
      MapColumnAppend(p, bx.rows, yb.rows, names[|names| - 1], rw);
    }
  }

  lemma {:induction false} DropMissingsAppend(c: set<string>, x: seq<Row>, y: seq<Row>, names: seq<string>)
    ensures DropMissings(Batch(c, x + y), names).rows
         == DropMissings(Batch(c, x), names).rows + DropMissings(Batch(c, y), names).rows
    decreases |names|
  {
    if names != [] {
      var init := names[..|names| - 1];
      DropMissingsAppend(c, x, y, init);
      var bx := DropMissings(Batch(c, x), init);
      var yb := DropMissings(Batch(c, y), init);
      DropNullAppend(bx.rows, yb.rows, names[|names| - 1]);
    }
  }

  lemma ParseDatesAppend(p: Parsers, c: set<string>, x: seq<Row>, y: seq<Row>)
    ensures ParseDates(p, Batch(c, x + y)) == Batch(c, ParseDates(p, Batch(c, x)).rows + ParseDates(p, Batch(c, y)).rows)
  {
    if CaseMonth in c {
      MapColumnAppend(p, x, y, CaseMonth, AsDate);
      DropNullAppend(MapColumn(p, x, CaseMonth, AsDate), MapColumn(p, y, CaseMonth, AsDate), CaseMonth);
    }
  }

  lemma PipelineAppend(p: Parsers, c: set<string>, x: seq<Row>, y: seq<Row>)
    ensures Pipeline(p, Batch(c, x + y)).rows == Pipeline(p, Batch(c, x)).rows + Pipeline(p, Batch(c, y)).rows
  {
    var dx, dy := ParseDates(p, Batch(c, x)), ParseDates(p, Batch(c, y));
    ParseDatesAppend(p, c, x, y);
    RewriteColumnsAppend(p, c, dx.rows, dy.rows, IntervalCols, AsInt);
    var ix, iy := RewriteColumns(p, dx, IntervalCols, AsInt), RewriteColumns(p, dy, IntervalCols, AsInt);
    RewriteColumnsAppend(p, c, ix.rows, iy.rows, TextCols, AsText);
    var tx, ty := RewriteColumns(p, ix, TextCols, AsText), RewriteColumns(p, iy, TextCols, AsText);
    DropMissingsAppend(c, tx.rows, ty.rows, LocationCols);
  }

  // ---- one row through the pipeline ----

  /** A row with the cells of every column in `names` rewritten. */
  function RewriteAll(p: Parsers, r: Row, names: seq<string>, rw: Rewrite): Row {
    map k | k in r :: if k in names then Rewritten(p, rw, r[k]) else r[k]
  }

  /** One cell of a rewritten row. */
  lemma RewriteAllAt(p: Parsers, r: Row, names: seq<string>, rw: Rewrite, k: string)
    requires k in r
    ensures k in RewriteAll(p, r, names, rw)
    ensures RewriteAll(p, r, names, rw)[k] == if k in names then Rewritten(p, rw, r[k]) else r[k]
  {
  }

  /** Rewriting one more column of a row whose columns in `init` are rewritten. */
  lemma RewriteAllSnoc(p: Parsers, r: Row, init: seq<string>, last: string, rw: Rewrite)
    requires last in r
    ensures var before := RewriteAll(p, r, init, rw);
      before[last := Rewritten(p, rw, before[last])] == RewriteAll(p, r, init + [last], rw)
  {
    var before := RewriteAll(p, r, init, rw);
    var after := RewriteAll(p, r, init + [last], rw);
    RewriteAllAt(p, r, init, rw, last);
    var upd := before[last := Rewritten(p, rw, before[last])];
    forall k | k in r
      ensures k in upd && k in after && upd[k] == after[k]
    {
      RewriteAllSnocAt(p, r, init, last, rw, k, before, upd, after);
    }
    assert upd.Keys == after.Keys;
  }

  lemma RewriteAllSnocAt(p: Parsers, r: Row, init: seq<string>, last: string, rw: Rewrite, k: string,
                         before: Row, upd: Row, after: Row)
    requires last in r && k in r
    requires before == RewriteAll(p, r, init, rw) && after == RewriteAll(p, r, init + [last], rw)
    requires last in before && upd == before[last := Rewritten(p, rw, before[last])]
    ensures k in upd && k in after && upd[k] == after[k]
  {
    RewriteAllAt(p, r, init, rw, k);
    RewriteAllAt(p, r, init + [last], rw, k);
    if k == last {
      RewriteAllAt(p, r, init, rw, last);
      RewrittenIdempotent(p, rw, r[last]);
    } else {
      assert k in init + [last] <==> k in init;
    }
  }

  lemma {:induction false} RewriteColumnsOne(p: Parsers, c: set<string>, r: Row, names: seq<string>, rw: Rewrite)
    requires r.Keys == c
    ensures RewriteColumns(p, Batch(c, [r]), names, rw) == Batch(c, [RewriteAll(p, r, names, rw)])
    decreases |names|
  {
    if names == [] {
      assert RewriteAll(p, r, names, rw) == r;
    } else {
      var init, last := names[..|names| - 1], names[|names| - 1];
      assert names == init + [last];
      RewriteColumnsOne(p, c, r, init, rw);
      var before := RewriteAll(p, r, init, rw);
      if last in c {
        RewriteAllSnoc(p, r, init, last, rw);
        assert MapColumn(p, [before], last, rw) == [before[last := Rewritten(p, rw, before[last])]];
      } else {
        assert before == RewriteAll(p, r, names, rw) by {
          forall k | k in r ensures before[k] == RewriteAll(p, r, names, rw)[k] {
            assert k in names <==> k in init || k == last;
          }
        }
      }
    }
  }

  /** No column of `names` that the row has is missing in it. */
  predicate NoneMissing(r: Row, names: seq<string>) {
    forall i :: 0 <= i < |names| && names[i] in r ==> r[names[i]] != Null
  }

  lemma {:induction false} DropMissingsOne(c: set<string>, r: Row, names: seq<string>)
    requires r.Keys == c
    ensures DropMissings(Batch(c, [r]), names) == Batch(c, if NoneMissing(r, names) then [r] else [])
    decreases |names|
  {
    if names != [] {
      var init, last := names[..|names| - 1], names[|names| - 1];
      DropMissingsOne(c, r, init);
      assert NoneMissing(r, names) <==> NoneMissing(r, init) && (last in r ==> r[last] != Null) by {
        assert forall i :: 0 <= i < |init| ==> names[i] == init[i];
      }
      assert [r][1..] == [];
    }
  }

  lemma ParseDatesOne(p: Parsers, c: set<string>, r: Row)
    requires r.Keys == c
    ensures ParseDates(p, Batch(c, [r])) == Batch(c,
      if CaseMonth !in c then [r]
      else if ToDate(p, r[CaseMonth]).Some? then [r[CaseMonth := Rewritten(p, AsDate, r[CaseMonth])]]
      else [])
  {
    if CaseMonth in c {
      var m := MapColumn(p, [r], CaseMonth, AsDate);
      assert m == [r[CaseMonth := Rewritten(p, AsDate, r[CaseMonth])]];
      assert m[1..] == [];
    }
  }

  // ---- the row-by-row definition ----

  /** What the pipeline makes of the cell of column `c` in a row that survives. */
  function CleanCell(p: Parsers, c: string, v: Value): Value {
    if c == CaseMonth then Rewritten(p, AsDate, v)
    else if c in IntervalCols then Rewritten(p, AsInt, v)
    else if c in TextCols then Rewritten(p, AsText, v)
    else v
  }

  /** A surviving row: each cell cleaned by its column alone, and `process` set to `'Unknown'` when the batch has none. */
  function CleanRow(p: Parsers, cols: set<string>, r: Row): Row {
    map c | c in cols + {Process} :: if c in cols then CleanCell(p, c, Get(r, c)) else Text(Unknown)
  }

  /**
   * Whether a row survives: its date parses, when the batch has dates, and
   * its FIPS code is present, when the batch has that column. A missing
   * `res_state` drops nothing, as it is filled before the drop.
   */
  predicate Keep(p: Parsers, cols: set<string>, r: Row) {
    (CaseMonth in cols ==> ToDate(p, Get(r, CaseMonth)).Some?)
    && (StateFips in cols ==> Get(r, StateFips) != Null)
  }

  /** The surviving rows, cleaned, in their original order. */
  function CleanRows(p: Parsers, cols: set<string>, rows: seq<Row>): (out: seq<Row>)
    ensures |out| <= |rows|
  {
    if rows == [] then []
    else (if Keep(p, cols, rows[0]) then [CleanRow(p, cols, rows[0])] else []) + CleanRows(p, cols, rows[1..])
  }

  /** The row after the date rewrite of lines 28-30. */
  function DateRow(p: Parsers, cols: set<string>, r: Row): Row
    requires r.Keys == cols
  {
    if CaseMonth in cols then r[CaseMonth := Rewritten(p, AsDate, r[CaseMonth])] else r
  }

  /** The column lists are disjoint, and `state_fips_code` and `process` are in none of them. */
  lemma ColumnClasses()
    ensures CaseMonth !in IntervalCols && CaseMonth !in TextCols
    ensures forall k :: k in IntervalCols ==> k !in TextCols
    ensures StateFips !in IntervalCols && StateFips !in TextCols && StateFips != CaseMonth
    ensures Process !in IntervalCols && Process !in TextCols && Process != CaseMonth
    ensures ResState in TextCols && LocationCols == [ResState, StateFips]
  {
  }

  /** The row after the rewrites of lines 28-42. */
  function RewrittenRow(p: Parsers, cols: set<string>, r: Row): Row
    requires r.Keys == cols
  {
    RewriteAll(p, RewriteAll(p, DateRow(p, cols, r), IntervalCols, AsInt), TextCols, AsText)
  }

  /** The row after line 52. */
  function WithProcess(cols: set<string>, r: Row): Row {
    if Process in cols then r else r[Process := Text(Unknown)]
  }

  /** One cell of a row through the rewrites of the pipeline. */
  lemma CellThroughSteps(p: Parsers, c: set<string>, r: Row, k: string)
    requires r.Keys == c && k in c
    ensures k in RewrittenRow(p, c, r) && RewrittenRow(p, c, r)[k] == CleanCell(p, k, r[k])
  {
    ColumnClasses();
  }

  /** The rewrites of the pipeline, one after another, give the cleaned row. */
  lemma StepsGiveCleanRow(p: Parsers, c: set<string>, r: Row)
    requires r.Keys == c
    ensures WithProcess(c, RewrittenRow(p, c, r)) == CleanRow(p, c, r)
  {
    var r4 := WithProcess(c, RewrittenRow(p, c, r));
    var clean := CleanRow(p, c, r);
    forall k | k in c
      ensures k in r4 && r4[k] == clean[k]
    {
      CellThroughSteps(p, c, r, k);
    }
    assert RewrittenRow(p, c, r).Keys == c;
    assert r4.Keys == clean.Keys;
  }

  /** The location drop keeps a rewritten row exactly when its FIPS code is present. */
  lemma StepsKeepFips(p: Parsers, c: set<string>, r: Row)
    requires r.Keys == c
    ensures NoneMissing(RewrittenRow(p, c, r), LocationCols) <==> (StateFips in c ==> r[StateFips] != Null)
  {
    ColumnClasses();
    var r3 := RewrittenRow(p, c, r);
    assert r3.Keys == c;
    if ResState in c {
      CellThroughSteps(p, c, r, ResState);
      assert CleanCell(p, ResState, r[ResState]).Text?;
    }
    if StateFips in c {
      CellThroughSteps(p, c, r, StateFips);
    }
    assert NoneMissing(r3, LocationCols) <==>
      (ResState in r3 ==> r3[ResState] != Null) && (StateFips in r3 ==> r3[StateFips] != Null) by {
      assert LocationCols[0] == ResState && LocationCols[1] == StateFips && |LocationCols| == 2;
    }
  }

  /** One row through the pipeline: the cleaned row when it survives, nothing otherwise. */
  lemma PipelineOne(p: Parsers, c: set<string>, r: Row)
    requires r.Keys == c
    ensures Pipeline(p, Batch(c, [r])).rows == if Keep(p, c, r) then [CleanRow(p, c, r)] else []
  {
    ParseDatesOne(p, c, r);
    var dated := ParseDates(p, Batch(c, [r]));
    if dated.rows != [] {
      var r1 := DateRow(p, c, r);
      assert dated == Batch(c, [r1]);
      RewriteColumnsOne(p, c, r1, IntervalCols, AsInt);
      var r2 := RewriteAll(p, r1, IntervalCols, AsInt);
      assert r2.Keys == c;
      RewriteColumnsOne(p, c, r2, TextCols, AsText);
      var r3 := RewrittenRow(p, c, r);
      assert r3.Keys == c;
      DropMissingsOne(c, r3, LocationCols);
      StepsKeepFips(p, c, r);
      StepsGiveCleanRow(p, c, r);
      if NoneMissing(r3, LocationCols) {
        assert AddProcess(Batch(c, [r3])).rows == [WithProcess(c, r3)];
      }
    }
  }

  /** The pipeline, on rows that all carry exactly the batch's columns, is the row-by-row definition. */
  lemma {:induction false} PipelineRowWise(p: Parsers, c: set<string>, rows: seq<Row>)
    requires forall i :: 0 <= i < |rows| ==> rows[i].Keys == c
    ensures Pipeline(p, Batch(c, rows)) == Batch(c + {Process}, CleanRows(p, c, rows))
  {
    if rows != [] {
      assert rows == [rows[0]] + rows[1..];
      PipelineAppend(p, c, [rows[0]], rows[1..]);
      PipelineOne(p, c, rows[0]);
      PipelineRowWise(p, c, rows[1..]);
    }
  }

  /**
   * `clean_and_transform` on a well-formed batch that is not empty: the
   * columns gain `process` and lose nothing, and the rows are the surviving
   * rows, cleaned cell by cell, in their original order.
   */
  lemma TransformRowWise(p: Parsers, b: Batch)
    requires WellFormed(b) && !Empty(b)
    ensures Transform(p, b) == Batch(b.columns + {Process}, CleanRows(p, b.columns, b.rows))
  {
    PipelineRowWise(p, b.columns, b.rows);
  }

  // ---- what the cleaning promises ----

  /** A cleaned row carries the batch's columns and `process`, which keeps its value or becomes `'Unknown'`. */
  lemma CleanRowColumns(p: Parsers, cols: set<string>, r: Row)
    ensures CleanRow(p, cols, r).Keys == cols + {Process}
    ensures CleanRow(p, cols, r)[Process] == if Process in cols then Get(r, Process) else Text(Unknown)
  {
    ColumnClasses();
  }

  /**
   * One cell of a cleaned row: a parsed date; an integer interval, 0 where
   * missing or unparsable; stripped text in a listed text column,
   * `'Unknown'` where missing, so `res_state` is never missing; a present
   * FIPS code; and any unlisted column as it was.
   */
  lemma CleanRowCell(p: Parsers, cols: set<string>, r: Row, c: string)
    requires Keep(p, cols, r) && c in cols
    ensures var o := CleanRow(p, cols, r);
      && (c == CaseMonth ==> o[c] == Day(ToDate(p, Get(r, c)).value))
      && (c in IntervalCols ==> o[c].Num? && o[c].n == ToInt(p, Get(r, c)).GetOr(0))
      && (c in TextCols ==> o[c] == Text(Trim(Shown(p, Get(r, c)))))
      && (c in TextCols && Get(r, c) == Null ==> o[c] == Text(Unknown))
      && (c == ResState ==> o[c].Text?)
      && (c == StateFips ==> o[c] == Get(r, c) != Null)
      && (c != CaseMonth && c !in IntervalCols && c !in TextCols ==> o[c] == Get(r, c))
  {
    ColumnClasses();
    var o := CleanRow(p, cols, r);
    var v := Get(r, c);
    assert o[c] == CleanCell(p, c, v);
    if c == CaseMonth {
      assert o[c] == Rewritten(p, AsDate, v);
    } else if c in IntervalCols {
      assert o[c] == Rewritten(p, AsInt, v);
    } else if c in TextCols {
      assert o[c] == Rewritten(p, AsText, v);
      if v == Null {
        MissingTextIsUnknown(p);
      }
    } else {
      assert o[c] == v;
    }
  }

  /** The rows that come out are exactly the cleaned surviving rows: each comes from one, and each one comes out. */
  lemma {:induction false} CleanRowsMembers(p: Parsers, cols: set<string>, rows: seq<Row>)
    ensures forall o :: o in CleanRows(p, cols, rows) ==>
      exists i :: 0 <= i < |rows| && Keep(p, cols, rows[i]) && o == CleanRow(p, cols, rows[i])
    ensures forall i :: 0 <= i < |rows| && Keep(p, cols, rows[i]) ==> CleanRow(p, cols, rows[i]) in CleanRows(p, cols, rows)
  {
    if rows != [] {
      CleanRowsMembers(p, cols, rows[1..]);
      var out := CleanRows(p, cols, rows);
      forall o | o in out
        ensures exists i :: 0 <= i < |rows| && Keep(p, cols, rows[i]) && o == CleanRow(p, cols, rows[i])
      {
        if o !in CleanRows(p, cols, rows[1..]) {
          assert Keep(p, cols, rows[0]) && o == CleanRow(p, cols, rows[0]);
        } else {
          var i :| 0 <= i < |rows[1..]| && Keep(p, cols, rows[1..][i]) && o == CleanRow(p, cols, rows[1..][i]);
          assert rows[1..][i] == rows[i + 1];
        }
      }
      forall i | 0 <= i < |rows| && Keep(p, cols, rows[i])
        ensures CleanRow(p, cols, rows[i]) in out
      {
        if i > 0 {
          assert rows[1..][i - 1] == rows[i];
        }
      }
    }
  }

  /** With no row dropped, the rows come out one for one, each cleaned in place. */
  lemma {:induction false} CleanRowsAllKept(p: Parsers, cols: set<string>, rows: seq<Row>)
    requires forall i :: 0 <= i < |rows| ==> Keep(p, cols, rows[i])
    ensures |CleanRows(p, cols, rows)| == |rows|
    ensures forall i :: 0 <= i < |rows| ==> CleanRows(p, cols, rows)[i] == CleanRow(p, cols, rows[i])
  {
    if rows != [] {
      CleanRowsAllKept(p, cols, rows[1..]);
      assert forall i :: 1 <= i < |rows| ==> rows[1..][i - 1] == rows[i];
    }
  }

  /** A cleaned row survives a second cleaning, unchanged. */
  lemma CleanRowIdempotent(p: Parsers, cols: set<string>, r: Row)
    requires Keep(p, cols, r)
    ensures Keep(p, cols + {Process}, CleanRow(p, cols, r))
    ensures CleanRow(p, cols + {Process}, CleanRow(p, cols, r)) == CleanRow(p, cols, r)
  {
    var o := CleanRow(p, cols, r);
    var o2 := CleanRow(p, cols + {Process}, o);
    forall k | k in o.Keys
      ensures k in o2 && o2[k] == o[k]
    {
      if k in cols {
        CleanCellIdempotent(p, k, Get(r, k));
      } else {
        ColumnClasses();
      }
    }
    if CaseMonth in cols {
      CleanCellIdempotent(p, CaseMonth, Get(r, CaseMonth));
    }
    if StateFips in cols {
      CleanCellIdempotent(p, StateFips, Get(r, StateFips));
    }
    assert o2.Keys == o.Keys;
  }

  /** Cleaning a cell twice is cleaning it once; a parsed date stays parsed, a present FIPS code stays present. */
  lemma CleanCellIdempotent(p: Parsers, c: string, v: Value)
    ensures CleanCell(p, c, CleanCell(p, c, v)) == CleanCell(p, c, v)
    ensures c == CaseMonth ==> ToDate(p, CleanCell(p, c, v)) == ToDate(p, v)
    ensures c == StateFips ==> CleanCell(p, c, v) == v
  {
    ColumnClasses();
    if c == CaseMonth {
      RewrittenIdempotent(p, AsDate, v);
      assert ToDate(p, AsDateCell(p, v)) == ToDate(p, v);
    } else if c in IntervalCols {
      RewrittenIdempotent(p, AsInt, v);
    } else if c in TextCols {
      RewrittenIdempotent(p, AsText, v);
    }
  }

  lemma {:induction false} CleanRowsIdempotent(p: Parsers, cols: set<string>, rows: seq<Row>)
    ensures CleanRows(p, cols + {Process}, CleanRows(p, cols, rows)) == CleanRows(p, cols, rows)
  {
    if rows != [] {
      CleanRowsIdempotent(p, cols, rows[1..]);
      var rest := CleanRows(p, cols, rows[1..]);
      var out := CleanRows(p, cols, rows);
      if Keep(p, cols, rows[0]) {
        CleanRowIdempotent(p, cols, rows[0]);
        var o := CleanRow(p, cols, rows[0]);
        assert out == [o] + rest;
        assert out[0] == o && out[1..] == rest;
        assert CleanRows(p, cols + {Process}, out) == [CleanRow(p, cols + {Process}, o)] + CleanRows(p, cols + {Process}, rest);
      } else {
        assert out == rest;
      }
    }
  }

  /** Every cleaned row carries exactly the output columns. */
  lemma {:induction false} CleanRowsWellFormed(p: Parsers, cols: set<string>, rows: seq<Row>)
    ensures forall i :: 0 <= i < |CleanRows(p, cols, rows)| ==> CleanRows(p, cols, rows)[i].Keys == cols + {Process}
  {
    if rows != [] {
      CleanRowsWellFormed(p, cols, rows[1..]);
    }
  }

  /**
   * `clean_and_transform` returns an empty frame as it came; otherwise a
   * well-formed frame whose columns are the input's plus `process`, with no
   * more rows than the input.
   */
  lemma TransformShape(p: Parsers, b: Batch)
    requires WellFormed(b)
    ensures Empty(b) ==> Transform(p, b) == b
    ensures !Empty(b) ==> Transform(p, b).columns == b.columns + {Process}
    ensures |Transform(p, b).rows| <= |b.rows| && WellFormed(Transform(p, b))
  {
    if !Empty(b) {
      TransformRowWise(p, b);
      CleanRowsWellFormed(p, b.columns, b.rows);
    }
  }

  /** Cleaning a cleaned batch changes nothing. */
  lemma TransformIdempotent(p: Parsers, b: Batch)
    requires WellFormed(b)
    ensures Transform(p, Transform(p, b)) == Transform(p, b)
  {
    if !Empty(b) {
      var t := Transform(p, b);
      TransformShape(p, b);
      TransformRowWise(p, b);
      if !Empty(t) {
        TransformRowWise(p, t);
        CleanRowsIdempotent(p, b.columns, b.rows);
        assert t.columns + {Process} == t.columns;
      }
    }
  }
}
