/**
 * The MySQL side (`MySQLHandler`): building the 17-value INSERT tuple of
 * each row, the `INSERT ... ON DUPLICATE KEY UPDATE` upsert into
 * `cdc_covid_cases`, and the three group-by-count queries.
 *
 * The table is the sequence of its rows in `id` (AUTO_INCREMENT) order.
 */
module MySqlHandler {
  import opened Options
  import opened Dates
  import opened Tables

  // ---- building the INSERT tuple ----

  /** One row of `cdc_covid_cases`, as the INSERT supplies it; its `id` is its place in the table. */
  datatype Record = Record(
    caseMonth: Value,
    resState: Value,
    stateFips: Value,
    ageGroup: Value,
    sex: Value,
    race: Value,
    ethnicity: Value,
    specimenInterval: Value,
    onsetInterval: Value,
    process: Value,
    exposure: Value,
    currentStatus: Value,
    symptomStatus: Value,
    hosp: Value,
    icu: Value,
    death: Value,
    underlying: Value)

  /** The column list of the INSERT statement, in order. */
  const InsertColumns: seq<string> :=
    [CaseMonth, ResState, StateFips, AgeGroup, Sex, Race, Ethnicity, SpecimenInterval, OnsetInterval,
     Process, Exposure, CurrentStatus, SymptomStatus, Hosp, Icu, Death, Underlying]

  /** The `%s` parameters bound for one record, in the order of `InsertColumns`. */
  function Tuple(rec: Record): (t: seq<Value>)
    ensures |t| == |InsertColumns|
  {
    [rec.caseMonth, rec.resState, rec.stateFips, rec.ageGroup, rec.sex, rec.race, rec.ethnicity,
     rec.specimenInterval, rec.onsetInterval, rec.process, rec.exposure, rec.currentStatus,
     rec.symptomStatus, rec.hosp, rec.icu, rec.death, rec.underlying]
  }

  /** `expected_cols`: the value a column takes when the row lacks it. */
  function Default(col: string): Value {
    if col == CaseMonth then Null
    else if col == StateFips || col == SpecimenInterval || col == OnsetInterval then Num(0)
    else Text(Unknown)
  }

  /** `row[col] if col in row else default_val`: a present cell is taken as it is, even when missing. */
  function RowValue(r: Row, col: string): Value {
    if col in r then r[col] else Default(col)
  }

  /**
   * Line 107: a date is written `YYYY-MM-DD`, a missing one becomes `None`;
   * any other value has no `strftime`, and the call raises (`None` here).
   */
  function SerializeDate(v: Value): (r: Option<Value>)
    ensures r.Some? <==> v.Null? || v.Day?
  {
    match v
    case Null => Some(Null)
    case Day(d) => Some(Text(FormatIso(d)))
    case _ => None
  }

  /** The record built for one row by lines 104-127, or `None` when line 107 raises. */
  function BuildRow(r: Row): Option<Record> {
    match SerializeDate(RowValue(r, CaseMonth))
    case None => None
    case Some(month) =>
      Some(Record(month, RowValue(r, ResState), RowValue(r, StateFips), RowValue(r, AgeGroup),
                  RowValue(r, Sex), RowValue(r, Race), RowValue(r, Ethnicity),
                  RowValue(r, SpecimenInterval), RowValue(r, OnsetInterval), RowValue(r, Process),
                  RowValue(r, Exposure), RowValue(r, CurrentStatus), RowValue(r, SymptomStatus),
                  RowValue(r, Hosp), RowValue(r, Icu), RowValue(r, Death), RowValue(r, Underlying)))
  }

  /**
   * The tuple of a built row binds, at each later place of the column list,
   * the row's own cell when the row has that column and the column's
   * default otherwise; the first place holds the serialised date.
   */
  lemma BuildRowTuple(r: Row)
    requires BuildRow(r).Some?
    ensures Tuple(BuildRow(r).value)[0] == SerializeDate(RowValue(r, CaseMonth)).value
    ensures forall i :: 1 <= i < |InsertColumns| ==>
      Tuple(BuildRow(r).value)[i] == RowValue(r, InsertColumns[i])
  {
    var t, rec := Tuple(BuildRow(r).value), BuildRow(r).value;
    assert t == [rec.caseMonth, rec.resState, rec.stateFips, rec.ageGroup, rec.sex, rec.race, rec.ethnicity,
     rec.specimenInterval, rec.onsetInterval, rec.process, rec.exposure, rec.currentStatus,
     rec.symptomStatus, rec.hosp, rec.icu, rec.death, rec.underlying];
  }

  /** The defaults of the columns after the date: 0 for the FIPS code and both intervals, `'Unknown'` for the rest. */
  lemma DefaultsOfColumns(i: nat)
    requires 1 <= i < |InsertColumns|
    ensures Default(InsertColumns[i]) == if i in {2, 7, 8} then Num(0) else Text(Unknown)
  {
  }

  /** Building raises exactly when the row's `case_month` is present, not missing, and not a date. */
  lemma BuildRowRaises(r: Row)
    ensures BuildRow(r).None? <==> CaseMonth in r && !r[CaseMonth].Null? && !r[CaseMonth].Day?
  {
  }

  /** The `DATE` column reads back the row's date from the string bound for it. */
  lemma BuildRowDate(r: Row, d: ValidDate)
    requires CaseMonth in r && r[CaseMonth] == Day(d)
    ensures BuildRow(r).Some? && BuildRow(r).value.caseMonth.Text?
    ensures ParseIso(BuildRow(r).value.caseMonth.s) == Some(d)
  {
    FormatThenParse(d);
  }

  /** The records of lines 102-127 for all rows, in order; `None` when some row raises. */
  function BuildAll(rows: seq<Row>): (r: Option<seq<Record>>)
    ensures r.Some? ==> |r.value| == |rows|
  {
    if rows == [] then Some([])
    else match BuildAll(rows[..|rows| - 1])
      case None => None
      case Some(recs) =>
        match BuildRow(rows[|rows| - 1])
        case None => None
        case Some(rec) => Some(recs + [rec])
  }

  /** All rows build exactly when none raises, and then the `i`-th record is the `i`-th row's. */
  lemma {:induction false} BuildAllRows(rows: seq<Row>)
    ensures BuildAll(rows).Some? <==> forall i :: 0 <= i < |rows| ==> BuildRow(rows[i]).Some?
    ensures BuildAll(rows).Some? ==> forall i :: 0 <= i < |rows| ==> BuildAll(rows).value[i] == BuildRow(rows[i]).value
  {
    if rows != [] {
      var init := rows[..|rows| - 1];
      BuildAllRows(init);
      assert forall i :: 0 <= i < |init| ==> init[i] == rows[i];
    }
  }

  // ---- the unique key and the upsert ----

  /** The six columns of the `unique_case` key. */
  datatype Key = Key(caseMonth: Value, resState: Value, ageGroup: Value, sex: Value, race: Value, ethnicity: Value)

  /** A record's `unique_case` key; `None` when a part of it is NULL, for a key holding NULL never conflicts. */
  function KeyOf(rec: Record): Option<Key> {
    if rec.caseMonth.Null? || rec.resState.Null? || rec.ageGroup.Null? || rec.sex.Null?
       || rec.race.Null? || rec.ethnicity.Null?
    then None
    else Some(Key(rec.caseMonth, rec.resState, rec.ageGroup, rec.sex, rec.race, rec.ethnicity))
  }

  /** No two rows of the table share a key (the `unique_case` constraint). */
  ghost predicate UniqueKeys(t: seq<Record>) {
    forall i, j :: 0 <= i < j < |t| && KeyOf(t[i]).Some? ==> KeyOf(t[i]) != KeyOf(t[j])
  }

  /** `ON DUPLICATE KEY UPDATE`: the stored row takes the new row's four flags and keeps everything else. */
  function Refresh(stored: Record, x: Record): (r: Record)
    ensures KeyOf(r) == KeyOf(stored)
    ensures r.death == x.death && r.hosp == x.hosp && r.icu == x.icu && r.underlying == x.underlying
    ensures r.caseMonth == stored.caseMonth && r.resState == stored.resState && r.ageGroup == stored.ageGroup
         && r.sex == stored.sex && r.race == stored.race && r.ethnicity == stored.ethnicity
    ensures r.stateFips == stored.stateFips && r.specimenInterval == stored.specimenInterval
         && r.onsetInterval == stored.onsetInterval && r.process == stored.process
         && r.exposure == stored.exposure && r.currentStatus == stored.currentStatus
         && r.symptomStatus == stored.symptomStatus
  {
    stored.(death := x.death, hosp := x.hosp, icu := x.icu, underlying := x.underlying)
  }

  /** The place of a row with key `k`, if the table has one. */
  function FindKey(t: seq<Record>, k: Key): (r: Option<nat>)
    ensures r.Some? ==> r.value < |t| && KeyOf(t[r.value]) == Some(k)
    ensures r.None? ==> forall i :: 0 <= i < |t| ==> KeyOf(t[i]) != Some(k)
  {
    if t == [] then None
    else if KeyOf(t[|t| - 1]) == Some(k) then Some(|t| - 1)
    else FindKey(t[..|t| - 1], k)
  }

  /** Under the key constraint, the row with key `k` is the only one. */
  lemma FindKeyUnique(t: seq<Record>, k: Key, i: nat)
    requires UniqueKeys(t) && i < |t| && KeyOf(t[i]) == Some(k)
    ensures FindKey(t, k) == Some(i)
  {
  }

  /** One row of the `executemany`: insert it, or update the row that already has its key. */
  function Upsert(t: seq<Record>, x: Record): seq<Record> {
    match KeyOf(x)
    case None => t + [x]
    case Some(k) =>
      match FindKey(t, k)
      case None => t + [x]
      case Some(i) => t[i := Refresh(t[i], x)]
  }

  /** The whole `executemany`, row after row. */
  function UpsertAll(t: seq<Record>, batch: seq<Record>): seq<Record> {
    if batch == [] then t else Upsert(UpsertAll(t, batch[..|batch| - 1]), batch[|batch| - 1])
  }

  /**
   * A row whose key is new, or holds NULL, is appended as a new `id`; a row
   * whose key is stored changes only that row's four flags.
   */
  lemma UpsertEffect(t: seq<Record>, x: Record)
    requires UniqueKeys(t)
    ensures (KeyOf(x).None? || forall i :: 0 <= i < |t| ==> KeyOf(t[i]) != KeyOf(x)) ==> Upsert(t, x) == t + [x]
    ensures forall i :: 0 <= i < |t| && KeyOf(x).Some? && KeyOf(t[i]) == KeyOf(x) ==>
      Upsert(t, x) == t[i := Refresh(t[i], x)]
  {
    forall i | 0 <= i < |t| && KeyOf(x).Some? && KeyOf(t[i]) == KeyOf(x)
      ensures Upsert(t, x) == t[i := Refresh(t[i], x)]
    {
      FindKeyUnique(t, KeyOf(x).value, i);
    }
  }

  /** Every row keeps its key and place through an upsert, and the key constraint still holds. */
  lemma UpsertKeepsKeys(t: seq<Record>, x: Record)
    requires UniqueKeys(t)
    ensures |t| <= |Upsert(t, x)| <= |t| + 1
    ensures forall j :: 0 <= j < |t| ==> KeyOf(Upsert(t, x)[j]) == KeyOf(t[j])
    ensures UniqueKeys(Upsert(t, x))
  {
  }

  /** An update overwrites the flags an earlier update wrote. */
  lemma RefreshTwice(a: Record, y: Record, x: Record)
    ensures Refresh(Refresh(a, y), x) == Refresh(a, x)
    ensures Refresh(x, x) == x
  {
  }

  /** Every row of the batch has a key without NULL. */
  predicate Keyed(batch: seq<Record>) {
    forall i :: 0 <= i < |batch| ==> KeyOf(batch[i]).Some?
  }

  /** The last row of the batch with key `k`. */
  function LastFor(batch: seq<Record>, k: Key): (r: Option<Record>)
    ensures r.Some? ==> KeyOf(r.value) == Some(k)
  {
    if batch == [] then None
    else if KeyOf(batch[|batch| - 1]) == Some(k) then Some(batch[|batch| - 1])
    else LastFor(batch[..|batch| - 1], k)
  }

  /** A stored row as the batch leaves it: with the flags of the batch's last row of the same key. */
  function Absorb(rec: Record, batch: seq<Record>): Record {
    match KeyOf(rec)
    case None => rec
    case Some(k) =>
      match LastFor(batch, k)
      case None => rec
      case Some(y) => Refresh(rec, y)
  }

  function AbsorbAll(t: seq<Record>, batch: seq<Record>): (r: seq<Record>)
    ensures |r| == |t|
  {
    seq(|t|, i requires 0 <= i < |t| => Absorb(t[i], batch))
  }

  /** Every key of the batch is stored in the table. */
  ghost predicate Holds(t: seq<Record>, batch: seq<Record>) {
    forall i :: 0 <= i < |batch| ==> KeyOf(batch[i]).Some? && FindKey(t, KeyOf(batch[i]).value).Some?
  }

  /** Adding a row of another key leaves the last row of key `k` as it was. */
  lemma LastForOther(batch: seq<Record>, k: Key)
    requires batch != [] && KeyOf(batch[|batch| - 1]) != Some(k)
    ensures LastFor(batch, k) == LastFor(batch[..|batch| - 1], k)
  {
  }

  /** One more row of the batch refreshes the stored row of its key and leaves the others as they were. */
  lemma AbsorbSnoc(rec: Record, batch: seq<Record>)
    requires batch != [] && KeyOf(batch[|batch| - 1]).Some?
    ensures var init, x := batch[..|batch| - 1], batch[|batch| - 1];
      Absorb(rec, batch) == if KeyOf(rec) == KeyOf(x) then Refresh(Absorb(rec, init), x) else Absorb(rec, init)
  {
    var init, x := batch[..|batch| - 1], batch[|batch| - 1];
    if KeyOf(rec) == KeyOf(x) {
      var y := LastFor(init, KeyOf(x).value);
      RefreshTwice(rec, if y.Some? then y.value else x, x);
    } else if KeyOf(rec).Some? {
      LastForOther(batch, KeyOf(rec).value);
    }
  }

  /** A batch whose keys are all stored only refreshes flags: each stored row takes its key's last flags. */
  lemma {:induction false} UpsertAllStored(t: seq<Record>, batch: seq<Record>)
    requires UniqueKeys(t) && Holds(t, batch)
    ensures UpsertAll(t, batch) == AbsorbAll(t, batch)
  {
    if batch == [] {
      assert AbsorbAll(t, batch) == t;
    } else {
      var init, x := batch[..|batch| - 1], batch[|batch| - 1];
      assert Holds(t, init) by {
        forall i | 0 <= i < |init| ensures init[i] == batch[i] { }
      }
      UpsertAllStored(t, init);
      var s := AbsorbAll(t, init);
      var k := KeyOf(x).value;
      var i := FindKey(t, k).value;
      assert UniqueKeys(s) by {
        assert forall j :: 0 <= j < |t| ==> KeyOf(s[j]) == KeyOf(t[j]);
      }
      FindKeyUnique(s, k, i);
      assert Upsert(s, x) == s[i := Refresh(s[i], x)];
      forall j | 0 <= j < |t|
        ensures Upsert(s, x)[j] == AbsorbAll(t, batch)[j]
      {
        AbsorbSnoc(t[j], batch);
      }
    }
  }

  /**
   * After a batch whose keys hold no NULL, each of its keys is stored once,
   * with the flags of the batch's last row of that key.
   */
  lemma {:induction false} UpsertAllAbsorbs(t0: seq<Record>, batch: seq<Record>)
    requires UniqueKeys(t0) && Keyed(batch)
    ensures UniqueKeys(UpsertAll(t0, batch))
    ensures Holds(UpsertAll(t0, batch), batch)
    ensures AbsorbAll(UpsertAll(t0, batch), batch) == UpsertAll(t0, batch)
  {
    if batch != [] {
      var init := batch[..|batch| - 1];
      assert Keyed(init) by {
        forall i | 0 <= i < |init| ensures init[i] == batch[i] { }
      }
      UpsertAllAbsorbs(t0, init);
      var s := UpsertAll(t0, init);
      UpsertKeepsKeys(s, batch[|batch| - 1]);
      AbsorbStepHolds(batch, s);
      AbsorbStepAbsorbs(batch, s);
    }
  }

  /** The place where the upsert of `x` leaves the row of its key. */
  lemma UpsertPlace(s: seq<Record>, x: Record) returns (p: nat)
    requires UniqueKeys(s) && KeyOf(x).Some?
    ensures p < |Upsert(s, x)| && Upsert(s, x)[p] == Refresh(if p < |s| then s[p] else x, x)
    ensures KeyOf(Upsert(s, x)[p]) == KeyOf(x)
    ensures forall j :: 0 <= j < |Upsert(s, x)| && j != p ==> j < |s| && Upsert(s, x)[j] == s[j]
    ensures forall j :: 0 <= j < |s| && j != p ==> KeyOf(s[j]) != KeyOf(x)
  {
    var k := KeyOf(x).value;
    p := if FindKey(s, k).Some? then FindKey(s, k).value else |s|;
  }

  /** The batch's keys stored before the upsert of its last row are stored after it, and so is that row's key. */
  lemma AbsorbStepHolds(batch: seq<Record>, s: seq<Record>)
    requires batch != [] && UniqueKeys(s) && KeyOf(batch[|batch| - 1]).Some?
    requires Holds(s, batch[..|batch| - 1])
    ensures Holds(Upsert(s, batch[|batch| - 1]), batch)
  {
    var init, x := batch[..|batch| - 1], batch[|batch| - 1];
    var t := Upsert(s, x);
    UpsertKeepsKeys(s, x);
    var p := UpsertPlace(s, x);
    forall i | 0 <= i < |batch|
      ensures KeyOf(batch[i]).Some? && FindKey(t, KeyOf(batch[i]).value).Some?
    {
      if i < |init| {
        assert init[i] == batch[i];
        var q := FindKey(s, KeyOf(batch[i]).value).value;
        assert KeyOf(t[q]) == KeyOf(batch[i]);
      } else {
        assert KeyOf(t[p]) == KeyOf(x);
      }
    }
  }

  /** Rows the batch had absorbed before the upsert of its last row stay absorbed after it. */
  lemma AbsorbStepAbsorbs(batch: seq<Record>, s: seq<Record>)
    requires batch != [] && UniqueKeys(s) && KeyOf(batch[|batch| - 1]).Some?
    requires AbsorbAll(s, batch[..|batch| - 1]) == s
    ensures AbsorbAll(Upsert(s, batch[|batch| - 1]), batch) == Upsert(s, batch[|batch| - 1])
  {
    var init, x := batch[..|batch| - 1], batch[|batch| - 1];
    var t := Upsert(s, x);
    var p := UpsertPlace(s, x);
    RefreshTwice(if p < |s| then s[p] else x, x, x);
    forall j | 0 <= j < |t|
      ensures Absorb(t[j], batch) == t[j]
    {
      if j == p {
        assert KeyOf(t[j]) == KeyOf(x);
      } else if KeyOf(t[j]).Some? {
        assert t[j] == s[j];
        assert Absorb(s[j], init) == AbsorbAll(s, init)[j];
        LastForOther(batch, KeyOf(t[j]).value);
      }
    }
  }

  /** Loading the same batch again, when none of its keys holds NULL, leaves the table as the first load left it. */
  lemma UpsertAllIdempotent(t0: seq<Record>, batch: seq<Record>)
    requires UniqueKeys(t0) && Keyed(batch)
    ensures UpsertAll(UpsertAll(t0, batch), batch) == UpsertAll(t0, batch)
  {
    UpsertAllAbsorbs(t0, batch);
    UpsertAllStored(UpsertAll(t0, batch), batch);
  }

  /** A row whose key holds NULL is inserted again by every load. */
  lemma NullKeyAppends(t: seq<Record>, x: Record)
    requires KeyOf(x).None?
    ensures UpsertAll(UpsertAll(t, [x]), [x]) == t + [x, x]
  {
    assert UpsertAll(t, [x]) == Upsert(t, x);
    assert UpsertAll(t + [x], [x]) == Upsert(t + [x], x);
  }

  // ---- the group-by-count queries ----

  /** One row of a query's result: a group and its `COUNT(*) AS total_cases`. */
  datatype GroupCount = GroupCount(group: Value, total: nat)

  /** The number of rows whose grouped column holds `g`. */
  function Count(vals: seq<Value>, g: Value): nat {
    if vals == [] then 0 else Count(vals[..|vals| - 1], g) + (if vals[|vals| - 1] == g then 1 else 0)
  }

  /**
   * What `GROUP BY ... ORDER BY total_cases DESC` returns for a column whose
   * cells are `vals`: one row per value present (NULL forms a group of its
   * own), with the number of rows holding it, largest first.
   */
  ghost predicate CountsOf(res: seq<GroupCount>, vals: seq<Value>) {
    && (forall i :: 0 <= i < |res| ==> res[i].group in vals && res[i].total == Count(vals, res[i].group))
    && (forall v :: v in vals ==> exists i :: 0 <= i < |res| && res[i].group == v)
    && Distinct(res)
    && Descending(res)
  }

  /** The groups with their counts, in order of first appearance. */
  function Tally(vals: seq<Value>): seq<GroupCount> {
    if vals == [] then [] else Bump(Tally(vals[..|vals| - 1]), vals[|vals| - 1])
  }

  /** Counts one more row of group `v`. */
  function Bump(res: seq<GroupCount>, v: Value): seq<GroupCount> {
    if res == [] then [GroupCount(v, 1)]
    else if res[0].group == v then [res[0].(total := res[0].total + 1)] + res[1..]
    else [res[0]] + Bump(res[1..], v)
  }

  /**
   * `r` is `res` with one more row of group `v`: the other groups keep their
   * counts, `v` is listed, one above its former count, and no group is listed twice.
   */
  ghost predicate Bumped(res: seq<GroupCount>, v: Value, r: seq<GroupCount>) {
    && (forall e :: e in r ==> e in res || e.group == v)
    && (forall e :: e in res && e.group != v ==> e in r)
    && (Distinct(res) ==> forall e :: e in r && e.group == v ==> e.total == 1 + Total(res, v))
    && (exists e :: e in r && e.group == v)
    && (Distinct(res) ==> Distinct(r))
  }

  /** Counting one more row of group `v` bumps that group alone. */
  lemma {:induction false} BumpFacts(res: seq<GroupCount>, v: Value)
    ensures Bumped(res, v, Bump(res, v))
  {
    if res == [] {
      assert Bump(res, v)[0] == GroupCount(v, 1);
    } else if res[0].group == v {
      BumpHead(res, v);
    } else {
      BumpFacts(res[1..], v);
      BumpPass(res, v, Bump(res[1..], v));
    }
  }

  /** The first group is the one bumped. */
  lemma BumpHead(res: seq<GroupCount>, v: Value)
    requires res != [] && res[0].group == v
    ensures Bumped(res, v, [res[0].(total := res[0].total + 1)] + res[1..])
  {
    var h, r := res[0].(total := res[0].total + 1), [res[0].(total := res[0].total + 1)] + res[1..];
    assert res == [res[0]] + res[1..];
    assert r[0] == h;
    if Distinct(res) {
      forall e | e in res[1..] ensures e.group != v {
        var i :| 0 <= i < |res[1..]| && res[1..][i] == e;
        assert res[i + 1] == e;
      }
      ConsDistinct(h, res[1..]);
    }
  }

  /** The first group is another one: it is kept in front of the bumped rest. */
  lemma BumpPass(res: seq<GroupCount>, v: Value, rest: seq<GroupCount>)
    requires res != [] && res[0].group != v && Bumped(res[1..], v, rest)
    ensures Bumped(res, v, [res[0]] + rest)
  {
    var r := [res[0]] + rest;
    assert res == [res[0]] + res[1..];
    if Distinct(res) {
      assert Distinct(res[1..]);
      forall e | e in rest ensures e.group != res[0].group {
        if e !in res[1..] {
          assert e.group == v;
        } else {
          var i :| 0 <= i < |res[1..]| && res[1..][i] == e;
          assert res[i + 1] == e;
        }
      }
      ConsDistinct(res[0], rest);
    }
  }

  /** The count stored for group `v`, 0 when the group is absent. */
  function Total(res: seq<GroupCount>, v: Value): (t: nat)
    ensures (forall e :: e in res ==> e.group != v) ==> t == 0
    ensures (exists e :: e in res && e.group == v) ==> GroupCount(v, t) in res
  {
    if res == [] then 0 else if res[0].group == v then res[0].total else Total(res[1..], v)
  }

  /** No group is listed twice. */
  ghost predicate Distinct(res: seq<GroupCount>) {
    forall i, j :: 0 <= i < j < |res| ==> res[i].group != res[j].group
  }

  /** Largest count first. */
  ghost predicate Descending(res: seq<GroupCount>) {
    forall i, j :: 0 <= i < j < |res| ==> res[i].total >= res[j].total
  }

  /** Puts `x` after every entry with a larger or equal count. */
  function InsertDesc(x: GroupCount, s: seq<GroupCount>): (r: seq<GroupCount>)
    ensures |r| == |s| + 1
    ensures forall e :: e in r <==> e == x || e in s
  {
    if s == [] || x.total > s[0].total then [x] + s
    else [s[0]] + InsertDesc(x, s[1..])
  }

  /** `ORDER BY total_cases DESC`, by insertion. */
  function SortDesc(s: seq<GroupCount>): (r: seq<GroupCount>)
    ensures |r| == |s|
    ensures forall e :: e in r <==> e in s
  {
    if s == [] then [] else InsertDesc(s[0], SortDesc(s[1..]))
  }

  lemma ConsDescending(a: GroupCount, rest: seq<GroupCount>)
    requires Descending(rest) && forall e :: e in rest ==> e.total <= a.total
    ensures Descending([a] + rest)
  {
    forall i, j | 0 <= i < j < |[a] + rest|
      ensures ([a] + rest)[i].total >= ([a] + rest)[j].total
    {
      assert ([a] + rest)[j] == rest[j - 1];
      if i > 0 {
        assert ([a] + rest)[i] == rest[i - 1];
      }
    }
  }

  lemma ConsDistinct(a: GroupCount, rest: seq<GroupCount>)
    requires Distinct(rest) && forall e :: e in rest ==> e.group != a.group
    ensures Distinct([a] + rest)
  {
    forall i, j | 0 <= i < j < |[a] + rest|
      ensures ([a] + rest)[i].group != ([a] + rest)[j].group
    {
      assert ([a] + rest)[j] == rest[j - 1];
      if i > 0 {
        assert ([a] + rest)[i] == rest[i - 1];
      }
    }
  }

  /** Inserting into a list sorted by descending count keeps it sorted. */
  lemma {:induction false} InsertDescSorted(x: GroupCount, s: seq<GroupCount>)
    requires Descending(s)
    ensures Descending(InsertDesc(x, s))
  {
    if s == [] || x.total > s[0].total {
      if s != [] {
        assert forall e :: e in s ==> e.total <= s[0].total;
      }
      ConsDescending(x, s);
    } else {
      InsertDescSorted(x, s[1..]);
      assert forall e :: e in s[1..] ==> e.total <= s[0].total;
      ConsDescending(s[0], InsertDesc(x, s[1..]));
    }
  }

  /** Inserting an entry of a new group keeps the groups distinct. */
  lemma {:induction false} InsertDescDistinct(x: GroupCount, s: seq<GroupCount>)
    requires Distinct(s) && forall e :: e in s ==> e.group != x.group
    ensures Distinct(InsertDesc(x, s))
  {
    if s == [] || x.total > s[0].total {
      ConsDistinct(x, s);
    } else {
      InsertDescDistinct(x, s[1..]);
      assert forall e :: e in s[1..] ==> e.group != s[0].group;
      ConsDistinct(s[0], InsertDesc(x, s[1..]));
    }
  }

  /** The sort yields descending counts, and keeps distinct groups distinct. */
  lemma {:induction false} SortDescFacts(s: seq<GroupCount>)
    ensures Descending(SortDesc(s))
    ensures Distinct(s) ==> Distinct(SortDesc(s))
  {
    if s != [] {
      SortDescFacts(s[1..]);
      InsertDescSorted(s[0], SortDesc(s[1..]));
      if Distinct(s) {
        assert Distinct(s[1..]);
        assert forall e :: e in s[1..] ==> e.group != s[0].group;
        InsertDescDistinct(s[0], SortDesc(s[1..]));
      }
    }
  }

  /** The result of grouping the cells `vals` by value and counting. */
  function GroupCounts(vals: seq<Value>): seq<GroupCount> {
    SortDesc(Tally(vals))
  }

  /** A value absent from the cells is counted 0 times. */
  lemma {:induction false} CountAbsent(vals: seq<Value>, g: Value)
    requires g !in vals
    ensures Count(vals, g) == 0
  {
    if vals != [] {
      CountAbsent(vals[..|vals| - 1], g);
    }
  }

  /** The tally lists each value present once, with the number of cells holding it. */
  lemma {:induction false} TallyCounts(vals: seq<Value>)
    ensures Distinct(Tally(vals))
    ensures forall e :: e in Tally(vals) ==> e.group in vals && e.total == Count(vals, e.group)
    ensures forall v :: v in vals ==> exists e :: e in Tally(vals) && e.group == v
  {
    if vals != [] {
      var init, v := vals[..|vals| - 1], vals[|vals| - 1];
      TallyCounts(init);
      var res := Tally(init);
      BumpFacts(res, v);
      assert vals == init + [v];
      if v !in init {
        CountAbsent(init, v);
      }
      forall e | e in Tally(vals)
        ensures e.group in vals && e.total == Count(vals, e.group)
      {
        if e.group == v {
          assert e.total == 1 + Total(res, v);
        } else {
          assert e in res;
        }
      }
    }
  }

  /** `GROUP BY` with `COUNT(*)` and `ORDER BY total_cases DESC` as promised, for any column's cells. */
  lemma GroupCountsCorrect(vals: seq<Value>)
    ensures CountsOf(GroupCounts(vals), vals)
  {
    TallyCounts(vals);
    SortDescFacts(Tally(vals));
    var res := GroupCounts(vals);
    forall v | v in vals
      ensures exists i :: 0 <= i < |res| && res[i].group == v
    {
      var e :| e in Tally(vals) && e.group == v;
      assert e in res;
    }
  }

  /** The column a query groups by. */
  datatype GroupBy = ByState | ByAgeGroup | BySex

  function Grouped(rec: Record, g: GroupBy): Value {
    match g
    case ByState => rec.resState
    case ByAgeGroup => rec.ageGroup
    case BySex => rec.sex
  }

  /** The cells of the grouped column, row by row. */
  function Column(t: seq<Record>, g: GroupBy): (c: seq<Value>)
    ensures |c| == |t|
  {
    seq(|t|, i requires 0 <= i < |t| => Grouped(t[i], g))
  }

  /** `WHERE res_state = %s`: the rows of that state (a NULL state equals nothing). */
  function InState(t: seq<Record>, code: string): (r: seq<Record>)
    ensures forall rec :: rec in r <==> rec in t && rec.resState == Text(code)
  {
    if t == [] then []
    else InState(t[..|t| - 1], code) + (if t[|t| - 1].resState == Text(code) then [t[|t| - 1]] else [])
  }

  /** `if state_code:` — the filter applies only to a code given and non-empty. */
  function StateFilter(t: seq<Record>, stateCode: Option<string>): seq<Record> {
    if stateCode.Some? && stateCode.value != "" then InState(t, stateCode.value) else t
  }

  /** The filtered rows hold the state's rows, each with that state. */
  lemma InStateColumn(t: seq<Record>, code: string)
    ensures forall v :: v in Column(InState(t, code), ByState) ==> v == Text(code)
    ensures Count(Column(InState(t, code), ByState), Text(code)) == Count(Column(t, ByState), Text(code))
  {
    var c := Column(InState(t, code), ByState);
    forall v | v in c ensures v == Text(code) {
      var i :| 0 <= i < |c| && c[i] == v;
      assert InState(t, code)[i] in InState(t, code);
    }
    InStateCount(t, code);
  }

  /** The filter keeps every row of the state, so their number is unchanged. */
  lemma {:induction false} InStateCount(t: seq<Record>, code: string)
    ensures Count(Column(InState(t, code), ByState), Text(code)) == Count(Column(t, ByState), Text(code))
  {
    if t != [] {
      var init, x := t[..|t| - 1], t[|t| - 1];
      InStateCount(init, code);
      assert t == init + [x];
      ColumnSnoc(init, x, ByState);
      CountSnoc(Column(init, ByState), x.resState, Text(code));
      var f := InState(init, code);
      if x.resState == Text(code) {
        assert InState(t, code) == f + [x];
        ColumnSnoc(f, x, ByState);
        CountSnoc(Column(f, ByState), x.resState, Text(code));
      } else {
        assert InState(t, code) == f + [];
        assert f + [] == f;
      }
    }
  }

  /** The grouped column of one more row is one cell longer. */
  lemma ColumnSnoc(t: seq<Record>, x: Record, g: GroupBy)
    ensures Column(t + [x], g) == Column(t, g) + [Grouped(x, g)]
  {
    assert forall i :: 0 <= i < |t| ==> (t + [x])[i] == t[i];
  }

  /** One more cell counts once more when it holds `g`. */
  lemma CountSnoc(s: seq<Value>, v: Value, g: Value)
    ensures Count(s + [v], g) == Count(s, g) + (if v == g then 1 else 0)
  {
    assert (s + [v])[..|s|] == s;
  }

  /**
   * With a state code given, the by-state query has at most one row: that
   * state, with as many cases as the whole table holds for it.
   */
  lemma StateQueryIsThatState(t: seq<Record>, code: string, res: seq<GroupCount>)
    requires code != "" && CountsOf(res, Column(StateFilter(t, Some(code)), ByState))
    ensures |res| <= 1
    ensures forall i :: 0 <= i < |res| ==> res[i] == GroupCount(Text(code), Count(Column(t, ByState), Text(code)))
  {
    InStateColumn(t, code);
    assert forall i :: 0 <= i < |res| ==> res[i].group == Text(code);
    FirstTwoDiffer(res);
  }

  lemma FirstTwoDiffer(res: seq<GroupCount>)
    requires Distinct(res)
    ensures |res| >= 2 ==> res[0].group != res[1].group
  {
  }

  /** Upserts keep the key constraint. */
  lemma {:induction false} UpsertAllKeepsUnique(t: seq<Record>, batch: seq<Record>)
    requires UniqueKeys(t)
    ensures UniqueKeys(UpsertAll(t, batch))
  {
    if batch != [] {
      UpsertAllKeepsUnique(t, batch[..|batch| - 1]);
      UpsertKeepsKeys(UpsertAll(t, batch[..|batch| - 1]), batch[|batch| - 1]);
    }
  }

  // ---- the handler ----

  /**
   * A `MySQLHandler` and the database behind it. `connected` says whether
   * `conn` holds a connection; each `fails` parameter stands for a
   * `mysql.connector.Error` raised by the server, after which the handler
   * rolls back.
   */
  class MySQLHandler {
    var connected: bool
    /** Whether `cdc_covid_cases` exists. */
    var tableExists: bool
    /** The rows of `cdc_covid_cases`, in `id` order. */
    var table: seq<Record>

    ghost predicate Valid()
      reads this
    {
      UniqueKeys(table) && (!tableExists ==> table == [])
    }

    /** A handler on a database in the given state. */
    constructor (connected: bool, tableExists: bool, table: seq<Record>)
      requires UniqueKeys(table) && (!tableExists ==> table == [])
      ensures Valid()
      ensures this.connected == connected && this.tableExists == tableExists && this.table == table
    {
      this.connected := connected;
      this.tableExists := tableExists;
      this.table := table;
    }

    /** `CREATE TABLE IF NOT EXISTS`: an existing table is left as it is. */
    method CreateTables(fails: bool)
      requires Valid()
      modifies this
      ensures Valid()
      ensures connected == old(connected) && table == old(table)
      ensures tableExists == (old(tableExists) || (connected && !fails))
    {
      if !connected {
        return;
      }
      if !fails {
        tableExists := true;
      }
    }

    /**
     * `load_cdc_data`: builds every row's tuple, raising at the first row
     * whose `case_month` is neither a date nor missing, then upserts the
     * whole batch in one transaction, which a failure (or a missing table)
     * rolls back.
     */
    method LoadCdcData(df: Batch, fails: bool) returns (raised: bool)
      requires Valid()
      modifies this
      ensures Valid()
      ensures connected == old(connected) && tableExists == old(tableExists)
      ensures raised <==> connected && BuildAll(df.rows).None?
      ensures table == if connected && !raised && tableExists && !fails
                       then UpsertAll(old(table), BuildAll(df.rows).value)
                       else old(table)
    {
      raised := false;
      if !connected {
        return;
      }
      var recs: seq<Record> := [];
      for i := 0 to |df.rows|
        invariant BuildAll(df.rows[..i]) == Some(recs)
      {
        var built := BuildRow(df.rows[i]);
        if built.None? {
          BuildAllRows(df.rows);
          raised := true;
          return;
        }
        assert df.rows[..i + 1][..i] == df.rows[..i];
        recs := recs + [built.value];
      }
      assert df.rows[..|df.rows|] == df.rows;
      if tableExists && !fails {
        UpsertAllKeepsUnique(table, recs);
        table := UpsertAll(table, recs);
      }
    }

    /**
     * `query_total_cases_by_state`: cases per state, largest first, optionally
     * for one state only; empty without a connection, or when the server errs
     * (`fails`, or a missing table).
     */
    method QueryTotalCasesByState(stateCode: Option<string>, fails: bool) returns (res: seq<GroupCount>)
      ensures connected && tableExists && !fails ==> CountsOf(res, Column(StateFilter(table, stateCode), ByState))
      ensures !(connected && tableExists) || fails ==> res == []
    {
      res := Query(Column(StateFilter(table, stateCode), ByState), fails);
    }

    /** `query_cases_by_age_group`: cases per age group, largest first; empty as above. */
    method QueryCasesByAgeGroup(fails: bool) returns (res: seq<GroupCount>)
      ensures connected && tableExists && !fails ==> CountsOf(res, Column(table, ByAgeGroup))
      ensures !(connected && tableExists) || fails ==> res == []
    {
      res := Query(Column(table, ByAgeGroup), fails);
    }

    /** `query_cases_by_sex`: cases per sex, largest first; empty as above. */
    method QueryCasesBySex(fails: bool) returns (res: seq<GroupCount>)
      ensures connected && tableExists && !fails ==> CountsOf(res, Column(table, BySex))
      ensures !(connected && tableExists) || fails ==> res == []
    {
      res := Query(Column(table, BySex), fails);
    }

    /**
     * A group-by-count query on the cells `vals`: empty without a connection,
     * or when the server errs and the error is caught.
     */
    method Query(vals: seq<Value>, fails: bool) returns (res: seq<GroupCount>)
      ensures connected && tableExists && !fails ==> CountsOf(res, vals)
      ensures !(connected && tableExists) || fails ==> res == []
    {
      if !connected || !tableExists || fails {
        return [];
      }
      GroupCountsCorrect(vals);
      res := GroupCounts(vals);
    }
  }
}
