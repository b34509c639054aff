/**
 * `CLIManager`: the `fetch` command's fetch-transform-load loop with its row
 * total, and the `query_data` command's dispatch to the three queries.
 */
module Cli {
  import opened Options
  import opened Tables
  import opened DataTransformer
  import opened MySqlHandler
  import ApiClient

  // ---- fetch ----

  /** The place of the first empty chunk, where the loop breaks; `|chunks|` when there is none. */
  function FirstEmpty(chunks: seq<Batch>): (n: nat)
    ensures n <= |chunks|
    ensures forall i :: 0 <= i < n ==> !Empty(chunks[i])
    ensures n < |chunks| ==> Empty(chunks[n])
  {
    if chunks == [] || Empty(chunks[0]) then 0 else 1 + FirstEmpty(chunks[1..])
  }

  /** The loop stops at `i` when all chunks before it are non-empty and `i` is the end or an empty chunk. */
  lemma {:induction false} FirstEmptyAt(chunks: seq<Batch>, i: nat)
    requires i <= |chunks| && forall k :: 0 <= k < i ==> !Empty(chunks[k])
    requires i == |chunks| || Empty(chunks[i])
    ensures FirstEmpty(chunks) == i
  {
    if i > 0 {
      FirstEmptyAt(chunks[1..], i - 1);
    }
  }

  lemma NonEmptyStep(chunks: seq<Batch>, i: nat)
    requires i < |chunks| && !Empty(chunks[i]) && forall k :: 0 <= k < i ==> !Empty(chunks[k])
    ensures forall k :: 0 <= k < i + 1 ==> !Empty(chunks[k])
  {
  }

  /** The transformed chunks that are not empty, in chunk order: those handed to the loader. */
  function Loaded(clean: Batch -> Batch, chunks: seq<Batch>): seq<Batch> {
    if chunks == [] then []
    else
      var t := clean(chunks[|chunks| - 1]);
      Loaded(clean, chunks[..|chunks| - 1]) + (if Empty(t) then [] else [t])
  }

  /** `clean_and_transform`, as the function the fetch loop applies to each chunk. */
  function Cleaner(p: Parsers): Batch -> Batch {
    b => Transform(p, b)
  }

  /** The table after one `load_cdc_data` of `b` on a connected handler with the table in place. */
  function Load(t: seq<Record>, b: Batch, fail: bool): seq<Record> {
    match BuildAll(b.rows)
    case Some(recs) => if fail then t else UpsertAll(t, recs)
    case None => t
  }

  /** The table after loading `loads` in order, the `j`-th load failing on the server when `fails(j)`. */
  function Stored(t: seq<Record>, loads: seq<Batch>, fails: nat -> bool): seq<Record> {
    if loads == [] then t
    else Load(Stored(t, loads[..|loads| - 1], fails), loads[|loads| - 1], fails(|loads| - 1))
  }

  /** A surviving row, cleaned, has a date or no `case_month` at all, so building it never raises. */
  lemma CleanRowBuilds(p: Parsers, cols: set<string>, r: Row)
    requires Keep(p, cols, r)
    ensures BuildRow(CleanRow(p, cols, r)).Some?
  {
    CleanRowColumns(p, cols, r);
    if CaseMonth in cols {
      CleanRowCell(p, cols, r, CaseMonth);
    }
  }

  /** Loading what a transform lets out never raises. */
  lemma TransformedBuilds(p: Parsers, b: Batch)
    requires WellFormed(b)
    ensures BuildAll(Transform(p, b).rows).Some?
  {
    var out := Transform(p, b).rows;
    if !Empty(b) {
      TransformRowWise(p, b);
      CleanRowsMembers(p, b.columns, b.rows);
      forall k | 0 <= k < |out|
        ensures BuildRow(out[k]).Some?
      {
        assert out[k] in out;
        var i :| 0 <= i < |b.rows| && Keep(p, b.columns, b.rows[i]) && out[k] == CleanRow(p, b.columns, b.rows[i]);
        CleanRowBuilds(p, b.columns, b.rows[i]);
      }
    }
    BuildAllRows(out);
  }

  /** One more chunk consumed. */
  lemma LoadedSnoc(clean: Batch -> Batch, chunks: seq<Batch>, i: nat)
    requires i < |chunks|
    ensures Loaded(clean, chunks[..i + 1]) ==
      if Empty(clean(chunks[i])) then Loaded(clean, chunks[..i]) else Loaded(clean, chunks[..i]) + [clean(chunks[i])]
  {
    assert chunks[..i + 1][..i] == chunks[..i];
  }

  /** One more load. */
  lemma StoredSnoc(t: seq<Record>, loads: seq<Batch>, x: Batch, fails: nat -> bool)
    ensures Stored(t, loads + [x], fails) == Load(Stored(t, loads, fails), x, fails(|loads|))
  {
    assert (loads + [x])[..|loads|] == loads;
  }

  lemma TotalRowsSnoc(loads: seq<Batch>, x: Batch)
    ensures TotalRows(loads + [x]) == TotalRows(loads) + |x.rows|
  {
    assert (loads + [x])[..|loads|] == loads;
  }

  /**
   * The body of the fetch loop for the `i`-th chunk, when it is not empty:
   * transform it, and unless the result is empty, load it and add its rows
   * to the total.
   */
  method ProcessChunk(p: Parsers, chunks: seq<Batch>, i: nat, db: MySQLHandler, fails: nat -> bool,
                      ghost start: seq<Record>, loads: seq<Batch>, total: nat)
    returns (loads': seq<Batch>, total': nat)
    requires i < |chunks| && WellFormed(chunks[i]) && db.Valid()
    requires loads == Loaded(Cleaner(p), chunks[..i]) && total == TotalRows(loads)
    requires db.table == if db.connected && db.tableExists then Stored(start, loads, fails) else start
    modifies db
    ensures db.Valid() && db.connected == old(db.connected) && db.tableExists == old(db.tableExists)
    ensures loads' == Loaded(Cleaner(p), chunks[..i + 1]) && total' == TotalRows(loads')
    ensures db.table == if db.connected && db.tableExists then Stored(start, loads', fails) else start
  {
    LoadedSnoc(Cleaner(p), chunks, i);
    var transformed := CleanAndTransform(p, chunks[i]);
    assert Cleaner(p)(chunks[i]) == transformed;
    loads', total' := loads, total;
    if !Empty(transformed) {
      TransformedBuilds(p, chunks[i]);
      StoredSnoc(start, loads, transformed, fails);
      TotalRowsSnoc(loads, transformed);
      var raised := db.LoadCdcData(transformed, fails(|loads|));
      loads' := loads + [transformed];
      total' := total + |transformed.rows|;
    }
  }

  /**
   * `_handle_fetch`: each chunk up to the first empty one is transformed;
   * each transformed chunk that is not empty is loaded, in order, and its
   * rows added to the total; a chunk that transforms to nothing is skipped.
   */
  method HandleFetch(p: Parsers, chunks: seq<Batch>, db: MySQLHandler, fails: nat -> bool)
    returns (total: nat, loads: seq<Batch>)
    requires db.Valid() && forall i :: 0 <= i < |chunks| ==> WellFormed(chunks[i])
    modifies db
    ensures db.Valid()
    ensures loads == Loaded(Cleaner(p), chunks[..FirstEmpty(chunks)])
    ensures total == TotalRows(loads)
    ensures db.connected == old(db.connected) && db.tableExists == old(db.tableExists)
    ensures db.table == if db.connected && db.tableExists then Stored(old(db.table), loads, fails) else old(db.table)
  {
    total, loads := 0, [];
    var i := 0;
    while i < |chunks|
      invariant i <= |chunks| && forall k :: 0 <= k < i ==> !Empty(chunks[k])
      invariant loads == Loaded(Cleaner(p), chunks[..i]) && total == TotalRows(loads)
      invariant db.Valid() && db.connected == old(db.connected) && db.tableExists == old(db.tableExists)
      invariant db.table == if db.connected && db.tableExists then Stored(old(db.table), loads, fails) else old(db.table)
    {
      if Empty(chunks[i]) {
        break;
      }
      loads, total := ProcessChunk(p, chunks, i, db, fails, old(db.table), loads, total);
      NonEmptyStep(chunks, i);
      i := i + 1;
    }
    FirstEmptyAt(chunks, i);
  }

  /** The loaded chunks are the non-empty transforms of the chunks before the first empty one, in order. */
  lemma {:induction false} LoadedMembers(clean: Batch -> Batch, chunks: seq<Batch>)
    ensures |Loaded(clean, chunks)| <= |chunks|
    ensures forall b :: b in Loaded(clean, chunks) ==> !Empty(b) && exists i :: 0 <= i < |chunks| && b == clean(chunks[i])
    ensures forall i :: 0 <= i < |chunks| && !Empty(clean(chunks[i])) ==> clean(chunks[i]) in Loaded(clean, chunks)
  {
    if chunks != [] {
      var init, last := chunks[..|chunks| - 1], chunks[|chunks| - 1];
      LoadedMembers(clean, init);
      var before, out := Loaded(clean, init), Loaded(clean, chunks);
      var t := clean(last);
      assert out == before + (if Empty(t) then [] else [t]);
      forall b | b in out
        ensures !Empty(b) && exists i :: 0 <= i < |chunks| && b == clean(chunks[i])
      {
        if b in before {
          var i :| 0 <= i < |init| && b == clean(init[i]);
          assert init[i] == chunks[i];
        } else {
          assert b == clean(chunks[|chunks| - 1]);
        }
      }
      forall i | 0 <= i < |chunks| && !Empty(clean(chunks[i]))
        ensures clean(chunks[i]) in out
      {
        if i < |init| {
          assert init[i] == chunks[i];
          assert clean(init[i]) in before;
        }
      }
    }
  }

  /** The generator never yields an empty chunk, so the loop consumes all it yields. */
  lemma FetchConsumesAll(src: Batch, cfg: ApiClient.FetchParams, p: Parsers, up: (nat, nat) -> bool, r: ApiClient.Run)
    requires r == ApiClient.Chunks(src, cfg, p, up)
    ensures FirstEmpty(r.chunks) == |r.chunks|
  {
    var n := FirstEmpty(r.chunks);
    if n < |r.chunks| {
      ApiClient.ChunksYield(src, cfg, p, up, r, n);
    }
  }

  // ---- query_data ----

  /** What `_handle_query_data` shows. */
  datatype Shown = Results(rows: seq<GroupCount>) | NoResults | UnknownQuery

  /** The query types the dispatch knows. */
  const TotalCases := "total_cases"
  const CasesByAgeGroup := "cases_by_age_group"
  const CasesBySex := "cases_by_sex"

  /** The cells the chosen query groups and counts. */
  function Selected(t: seq<Record>, queryType: string, state: Option<string>): seq<Value> {
    if queryType == TotalCases then Column(StateFilter(t, state), ByState)
    else if queryType == CasesByAgeGroup then Column(t, ByAgeGroup)
    else Column(t, BySex)
  }

  /** A query's result is empty exactly when there are no cells to count. */
  lemma CountsEmpty(res: seq<GroupCount>, vals: seq<Value>)
    requires CountsOf(res, vals)
    ensures res == [] <==> vals == []
  {
    if vals != [] {
      assert vals[0] in vals;
    }
    if res != [] {
      assert res[0].group in vals;
    }
  }

  /**
   * `_handle_query_data`: runs the query named by `queryType` (the state
   * filter only for `total_cases`) and shows its rows, or says that nothing
   * was found; an unknown type runs nothing. `fails` is a server error in
   * the query, which the handler catches.
   */
  method HandleQueryData(db: MySQLHandler, queryType: string, state: Option<string>, fails: bool)
    returns (shown: Shown)
    ensures queryType !in {TotalCases, CasesByAgeGroup, CasesBySex} ==> shown == UnknownQuery
    ensures queryType in {TotalCases, CasesByAgeGroup, CasesBySex} ==>
      (shown == NoResults <==>
         !(db.connected && db.tableExists) || fails || Selected(db.table, queryType, state) == [])
    ensures shown.Results? ==> CountsOf(shown.rows, Selected(db.table, queryType, state))
    ensures queryType in {TotalCases, CasesByAgeGroup, CasesBySex} ==> shown.Results? || shown.NoResults?
  {
    var res: seq<GroupCount>;
    if queryType == TotalCases {
      res := db.QueryTotalCasesByState(state, fails);
    } else if queryType == CasesByAgeGroup {
      res := db.QueryCasesByAgeGroup(fails);
    } else if queryType == CasesBySex {
      res := db.QueryCasesBySex(fails);
    } else {
      return UnknownQuery;
    }
    if db.connected && db.tableExists && !fails {
      CountsEmpty(res, Selected(db.table, queryType, state));
    }
    if res != [] {
      shown := Results(res);
    } else {
      shown := NoResults;
    }
  }
}
