/**
 * The remote data source client (`APIClient`): one page fetch with bounded
 * retries, and the chunk generator that walks the source by offset.
 *
 * The HTTP CSV endpoint is a finite table `src`; a request for `limit` rows at
 * `offset` returns the slice of `src.rows` starting there. Whether attempt
 * `a` of the `k`-th request reaches the endpoint is the oracle `up(k, a)`.
 */
module ApiClient {
  import opened Options
  import opened Dates
  import opened Tables

  function Min(a: int, b: int): int {
    if a <= b then a else b
  }

  /** What the endpoint answers to `$limit=limit&$offset=offset`. */
  function Page(src: Batch, limit: int, offset: nat): (b: Batch)
    ensures b.columns == src.columns
    ensures |b.rows| <= if limit > 0 then limit else 0
    ensures !Empty(b) ==> 0 < limit && offset < |src.rows|
  {
    if limit <= 0 || offset >= |src.rows| then Batch(src.columns, [])
    else Batch(src.columns, src.rows[offset .. Min(offset + limit, |src.rows|)])
  }

  // ---- fetch_data ----

  /** The first attempt among `a, a+1, .., retries-1` that reaches the endpoint. */
  function FirstSuccessFrom(up: (nat, nat) -> bool, call: nat, a: nat, retries: int): Option<nat>
    decreases retries - a
  {
    if a >= retries then None
    else if up(call, a) then Some(a)
    else FirstSuccessFrom(up, call, a + 1, retries)
  }

  function FirstSuccess(up: (nat, nat) -> bool, call: nat, retries: int): Option<nat> {
    FirstSuccessFrom(up, call, 0, retries)
  }

  /** `FirstSuccess` names the least attempt below `retries` that succeeds, and `None` means all failed. */
  lemma {:induction false} FirstSuccessFromIsLeast(up: (nat, nat) -> bool, call: nat, a: nat, retries: int)
    requires forall j :: 0 <= j < a ==> !up(call, j)
    ensures FirstSuccessFrom(up, call, a, retries).Some? <==> exists j :: 0 <= j < retries && up(call, j)
    ensures FirstSuccessFrom(up, call, a, retries).Some? ==>
      var k := FirstSuccessFrom(up, call, a, retries).value;
      k < retries && up(call, k) && forall j :: 0 <= j < k ==> !up(call, j)
    decreases retries - a
  {
    if a < retries && !up(call, a) {
      FirstSuccessFromIsLeast(up, call, a + 1, retries);
    }
  }

  /** The frame `fetch_data` returns: the page on the first successful attempt, else an empty frame. */
  function FetchResult(src: Batch, limit: int, offset: nat, retries: int, up: (nat, nat) -> bool, call: nat): (b: Batch)
    ensures |b.rows| <= if limit > 0 then limit else 0
    ensures !Empty(b) ==> 0 < limit && offset < |src.rows| && b.columns == src.columns
  {
    if FirstSuccess(up, call, retries).Some? then Page(src, limit, offset) else EmptyFrame
  }

  /**
   * `APIClient.fetch_data`: at most `retries` attempts; the page from the first
   * one that succeeds, unchanged; a sleep of `wait` seconds after each failed
   * attempt except the last; an empty frame when every attempt fails.
   */
  method FetchData(src: Batch, limit: int, offset: nat, retries: int, up: (nat, nat) -> bool, call: nat)
    returns (df: Batch, attempts: nat, sleeps: nat)
    ensures df == FetchResult(src, limit, offset, retries, up, call)
    ensures match FirstSuccess(up, call, retries)
      case Some(k) => attempts == k + 1 && sleeps == k
      case None => attempts == (if retries > 0 then retries else 0)
                   && sleeps == (if retries > 0 then retries - 1 else 0)
  {
    attempts, sleeps := 0, 0;
    var attempt: nat := 0;
    while attempt < retries
      invariant attempt <= retries || attempt == 0
      invariant attempts == attempt
      invariant sleeps == if 0 < attempt == retries then attempt - 1 else attempt
      invariant FirstSuccess(up, call, retries) == FirstSuccessFrom(up, call, attempt, retries)
    {
      attempts := attempts + 1;
      if up(call, attempt) {
        df := Page(src, limit, offset);
        return;
      }
      if attempt < retries - 1 {
        sleeps := sleeps + 1;
      }
      attempt := attempt + 1;
    }
    df := EmptyFrame;
  }

  /** With no attempt allowed, nothing is fetched and nothing is slept. */
  lemma NoRetriesNoAttempts(src: Batch, limit: int, offset: nat, retries: int, up: (nat, nat) -> bool, call: nat)
    requires retries <= 0
    ensures FirstSuccess(up, call, retries) == None
    ensures FetchResult(src, limit, offset, retries, up, call) == EmptyFrame
  {
  }

  // ---- fetch_data_chunked ----

  /** The number of attempts `fetch_data_chunked` leaves to `fetch_data` (its default). */
  const Retries := 3

  /** The arguments of `fetch_data_chunked`. */
  datatype FetchParams = FetchParams(
    chunkSize: int,
    maxRows: Option<int>,
    startDate: Option<ValidDate>,
    endDate: Option<ValidDate>)

  /** `if start_date or end_date` (a `datetime.date` is always truthy). */
  predicate Filtering(cfg: FetchParams) {
    cfg.startDate.Some? || cfg.endDate.Some?
  }

  /** `max_rows is not None and total_rows >= max_rows`. */
  predicate BudgetSpent(cfg: FetchParams, total: int) {
    cfg.maxRows.Some? && total >= cfg.maxRows.value
  }

  /** `min(chunk_size, max_rows - total_rows) if max_rows else chunk_size`. */
  function LimitFor(cfg: FetchParams, total: int): (limit: int)
    ensures limit <= cfg.chunkSize
    ensures cfg.maxRows.Some? && cfg.maxRows.value != 0 ==> limit <= cfg.maxRows.value - total
    ensures cfg.maxRows.None? || cfg.maxRows.value == 0 ==> limit == cfg.chunkSize
    ensures cfg.maxRows.Some? && cfg.maxRows.value != 0 ==>
      limit == cfg.chunkSize || limit == cfg.maxRows.value - total
  {
    if cfg.maxRows.Some? && cfg.maxRows.value != 0 then Min(cfg.chunkSize, cfg.maxRows.value - total)
    else cfg.chunkSize
  }

  predicate InWindow(d: Date, start: Option<ValidDate>, end: Option<ValidDate>) {
    (start.None? || NotAfter(start.value, d)) && (end.None? || NotAfter(d, end.value))
  }

  /** What the date filter leaves of one row: the row with its parsed date when that date is in the window. */
  function KeepOne(p: Parsers, r: Row, start: Option<ValidDate>, end: Option<ValidDate>): (kept: seq<Row>)
    ensures |kept| <= 1
    ensures |kept| == 1 ==> CaseMonth in kept[0] && kept[0][CaseMonth].Day? && InWindow(kept[0][CaseMonth].d, start, end)
  {
    match ToDate(p, Get(r, CaseMonth))
    case Some(d) => if InWindow(d, start, end) then [r[CaseMonth := Day(d)]] else []
    case None => []
  }

  /**
   * The rows that survive the date filter, in order, with `case_month`
   * rewritten to the parsed date; a date that does not parse (NaT) fails
   * every comparison and is dropped.
   */
  function KeepInWindow(p: Parsers, rows: seq<Row>, start: Option<ValidDate>, end: Option<ValidDate>): (kept: seq<Row>)
    ensures |kept| <= |rows|
    ensures forall j :: 0 <= j < |kept| ==>
      CaseMonth in kept[j] && kept[j][CaseMonth].Day? && InWindow(kept[j][CaseMonth].d, start, end)
  {
    if rows == [] then [] else KeepOne(p, rows[0], start, end) + KeepInWindow(p, rows[1..], start, end)
  }

  /** A row passes the date filter: its `case_month` parses to a date inside the window. */
  predicate Survives(p: Parsers, r: Row, start: Option<ValidDate>, end: Option<ValidDate>) {
    ToDate(p, Get(r, CaseMonth)).Some? && InWindow(ToDate(p, Get(r, CaseMonth)).value, start, end)
  }

  /** A surviving row as the filter leaves it: `case_month` holds the parsed date, every other cell is as it was. */
  function Dated(p: Parsers, r: Row): Row
    requires ToDate(p, Get(r, CaseMonth)).Some?
  {
    r[CaseMonth := Day(ToDate(p, Get(r, CaseMonth)).value)]
  }

  /**
   * The filter on one row: the row with its parsed date when it survives,
   * nothing otherwise. With `KeepInWindowAppend` this fixes the output of
   * every batch, in order.
   */
  lemma KeepInWindowOne(p: Parsers, r: Row, start: Option<ValidDate>, end: Option<ValidDate>)
    ensures KeepInWindow(p, [r], start, end) == if Survives(p, r, start, end) then [Dated(p, r)] else []
  {
    assert [r][1..] == [];
  }

  /**
   * The filter keeps exactly the surviving rows: every row it leaves is a
   * surviving row with its parsed date, and every surviving row is left.
   */
  lemma {:induction false} KeepInWindowMembers(p: Parsers, rows: seq<Row>, start: Option<ValidDate>, end: Option<ValidDate>)
    ensures forall o :: o in KeepInWindow(p, rows, start, end) ==>
      exists i :: 0 <= i < |rows| && Survives(p, rows[i], start, end) && o == Dated(p, rows[i])
    ensures forall i :: 0 <= i < |rows| && Survives(p, rows[i], start, end) ==>
      Dated(p, rows[i]) in KeepInWindow(p, rows, start, end)
  {
    if rows != [] {
      var head := KeepOne(p, rows[0], start, end);
      var tail := rows[1..];
      var out := KeepInWindow(p, rows, start, end);
      assert out == head + KeepInWindow(p, tail, start, end);
      KeepInWindowMembers(p, tail, start, end);
      forall o | o in out
        ensures exists i :: 0 <= i < |rows| && Survives(p, rows[i], start, end) && o == Dated(p, rows[i])
      {
        if o in head {
          assert Survives(p, rows[0], start, end) && o == Dated(p, rows[0]);
        } else {
          assert o in KeepInWindow(p, tail, start, end);
          var i :| 0 <= i < |tail| && Survives(p, tail[i], start, end) && o == Dated(p, tail[i]);
          assert rows[i + 1] == tail[i];
        }
      }
      forall i | 0 <= i < |rows| && Survives(p, rows[i], start, end)
        ensures Dated(p, rows[i]) in out
      {
        if i == 0 {
          assert head == [Dated(p, rows[0])];
        } else {
          assert tail[i - 1] == rows[i];
          assert Dated(p, tail[i - 1]) in KeepInWindow(p, tail, start, end);
        }
      }
    }
  }

  /** The date filter of `fetch_data_chunked`, applied when a start or end date is given. */
  function FilterByDate(p: Parsers, chunk: Batch, start: Option<ValidDate>, end: Option<ValidDate>): (r: Batch)
    ensures r.columns == chunk.columns
    ensures CaseMonth !in chunk.columns ==> r == chunk
    ensures |r.rows| <= |chunk.rows|
  {
    if CaseMonth in chunk.columns then Batch(chunk.columns, KeepInWindow(p, chunk.rows, start, end))
    else chunk
  }

  /**
   * On a chunk with `case_month`, the filter keeps exactly the rows whose
   * date parses into the window, each with its parsed date and otherwise
   * unchanged.
   */
  lemma FilterByDateMembers(p: Parsers, chunk: Batch, start: Option<ValidDate>, end: Option<ValidDate>)
    requires CaseMonth in chunk.columns
    ensures forall o :: o in FilterByDate(p, chunk, start, end).rows ==>
      exists i :: 0 <= i < |chunk.rows| && Survives(p, chunk.rows[i], start, end) && o == Dated(p, chunk.rows[i])
    ensures forall i :: 0 <= i < |chunk.rows| && Survives(p, chunk.rows[i], start, end) ==>
      Dated(p, chunk.rows[i]) in FilterByDate(p, chunk, start, end).rows
  {
    KeepInWindowMembers(p, chunk.rows, start, end);
  }

  /** The date filter treats each row on its own: filtering a concatenation concatenates the results. */
  lemma {:induction false} KeepInWindowAppend(p: Parsers, a: seq<Row>, b: seq<Row>, start: Option<ValidDate>, end: Option<ValidDate>)
    ensures KeepInWindow(p, a + b, start, end) == KeepInWindow(p, a, start, end) + KeepInWindow(p, b, start, end)
  {
    if a == [] {
      assert a + b == b;
    } else {
      var head := KeepOne(p, a[0], start, end);
      var ab := a + b;
      assert ab != [] && ab[0] == a[0] && ab[1..] == a[1..] + b;
      assert KeepInWindow(p, ab, start, end) == head + KeepInWindow(p, a[1..] + b, start, end);
      assert KeepInWindow(p, a, start, end) == head + KeepInWindow(p, a[1..], start, end);
      KeepInWindowAppend(p, a[1..], b, start, end);
      ConcatAssoc(head, KeepInWindow(p, a[1..], start, end), KeepInWindow(p, b, start, end));
    }
  }

  lemma ConcatAssoc<T>(x: seq<T>, y: seq<T>, z: seq<T>)
    ensures x + (y + z) == (x + y) + z
  {
  }

  /** A request the generator makes to `fetch_data`. */
  datatype Request = Request(limit: int, offset: nat)

  /** Everything one run of the generator does: the requests it makes and the chunks it yields, in order. */
  datatype Run = Run(requests: seq<Request>, chunks: seq<Batch>)

  function Then(a: Run, b: Run): Run {
    Run(a.requests + b.requests, a.chunks + b.chunks)
  }

  lemma ThenAssoc(a: Run, b: Run, c: Run)
    ensures Then(Then(a, b), c) == Then(a, Then(b, c))
  {
    assert (a.requests + b.requests) + c.requests == a.requests + (b.requests + c.requests);
    assert (a.chunks + b.chunks) + c.chunks == a.chunks + (b.chunks + c.chunks);
  }

  lemma StopHere(before: Run, rest: Run, req: Request)
    requires rest == Run([req], [])
    ensures Then(before, rest) == before.(requests := before.requests + [req])
  {
    assert before.chunks + [] == before.chunks;
  }

  lemma YieldThenStop(before: Run, rest: Run, req: Request, chunk: Batch)
    requires rest == Run([req], [chunk])
    ensures Then(before, rest) == Run(before.requests + [req], before.chunks + [chunk])
  {
  }

  lemma YieldThenGoOn(before: Run, rest: Run, req: Request, chunk: Batch, next: Run)
    requires rest == Then(Run([req], [chunk]), next)
    ensures Then(before, rest) == Then(Run(before.requests + [req], before.chunks + [chunk]), next)
  {
    ThenAssoc(before, Run([req], [chunk]), next);
  }


  /** How one turn of the generator's loop ends, once the row budget allows a request. */
  datatype Turn =
    | Stop              // empty page, or a date filter left nothing: stop without yielding
    | Last(chunk: Batch) // yield, then stop: fewer rows than requested
    | More(chunk: Batch) // yield and go on

  /** The chunk the loop yields from a fetched frame: date-filtered only when a start or end date is given. */
  function Filtered(cfg: FetchParams, p: Parsers, raw: Batch): (chunk: Batch)
    ensures chunk.columns == raw.columns && |chunk.rows| <= |raw.rows|
    ensures !Filtering(cfg) ==> chunk == raw
  {
    if Filtering(cfg) then FilterByDate(p, raw, cfg.startDate, cfg.endDate) else raw
  }

  /** The turn of the loop that requests `LimitFor(cfg, total)` rows at `offset` as the `k`-th request. */
  function TurnAt(src: Batch, cfg: FetchParams, p: Parsers, up: (nat, nat) -> bool,
                  k: nat, offset: nat, total: int): (t: Turn)
    ensures t.More? ==> 0 < cfg.chunkSize && offset < |src.rows|
    ensures (t.Last? || t.More?) ==> !Empty(t.chunk) && |t.chunk.rows| <= LimitFor(cfg, total)
    ensures t.Last? ==> |t.chunk.rows| < LimitFor(cfg, total)
    ensures t.More? ==> |t.chunk.rows| == LimitFor(cfg, total)
  {
    var limit := LimitFor(cfg, total);
    var raw := FetchResult(src, limit, offset, Retries, up, k);
    if Empty(raw) then Stop
    else
      var chunk := Filtered(cfg, p, raw);
      if Empty(chunk) && Filtering(cfg) then Stop
      else if |chunk.rows| < limit then Last(chunk)
      else More(chunk)
  }

  /** The turn the loop takes for its `k`-th request, at `offset`, with `total` rows yielded before it. */
  type Turns = (nat, nat, int) -> Turn

  /** A turn that goes on was taken inside the source and steps forward, so the walk ends. */
  ghost predicate Progressive(turns: Turns, cfg: FetchParams, n: nat) {
    forall k: nat, offset: nat, total: int ::
      turns(k, offset, total).More? ==> 0 < cfg.chunkSize && offset < n
  }

  /** Every chunk a turn yields is non-empty and within its limit, and one that goes on is full. */
  ghost predicate Sized(turns: Turns, cfg: FetchParams) {
    forall k: nat, offset: nat, total: int ::
      && ((turns(k, offset, total).Last? || turns(k, offset, total).More?) ==>
            !Empty(turns(k, offset, total).chunk) && |turns(k, offset, total).chunk.rows| <= LimitFor(cfg, total))
      && (turns(k, offset, total).More? ==> |turns(k, offset, total).chunk.rows| == LimitFor(cfg, total))
  }

  /** The turns of `fetch_data_chunked` over the source `src`. */
  function TurnsOf(src: Batch, cfg: FetchParams, p: Parsers, up: (nat, nat) -> bool): (turns: Turns)
    ensures Progressive(turns, cfg, |src.rows|) && Sized(turns, cfg)
  {
    (k: nat, offset: nat, total: int) => TurnAt(src, cfg, p, up, k, offset, total)
  }

  /**
   * The run of the generator from its `k`-th request on, with the current
   * `offset` and `total_rows`, over a source of `n` rows.
   */
  function Generate(turns: Turns, cfg: FetchParams, n: nat, k: nat, offset: nat, total: int): Run
    requires Progressive(turns, cfg, n)
    decreases if offset < n then n - offset else 0
  {
    if BudgetSpent(cfg, total) then Run([], [])
    else
      var req := Request(LimitFor(cfg, total), offset);
      match turns(k, offset, total)
      case Stop => Run([req], [])
      case Last(chunk) => Run([req], [chunk])
      case More(chunk) =>
        Then(Run([req], [chunk]), Generate(turns, cfg, n, k + 1, offset + cfg.chunkSize, total + |chunk.rows|))
  }

  /** A run whose first turn goes on is that turn's request and chunk, then the run from the next request. */
  lemma GenerateFirstMore(turns: Turns, cfg: FetchParams, n: nat, k: nat, offset: nat, total: int, r: Run)
    requires Progressive(turns, cfg, n)
    requires r == Generate(turns, cfg, n, k, offset, total)
    requires |r.requests| >= 2 || (!BudgetSpent(cfg, total) && turns(k, offset, total).More?)
    ensures !BudgetSpent(cfg, total) && turns(k, offset, total).More?
    ensures var c := turns(k, offset, total).chunk;
      var next := Generate(turns, cfg, n, k + 1, offset + cfg.chunkSize, total + |c.rows|);
      r.requests == [Request(LimitFor(cfg, total), offset)] + next.requests && r.chunks == [c] + next.chunks
  {
  }

  /** A run that makes a request makes it first at its own offset, while the budget is not spent. */
  lemma GenerateFirstRequest(turns: Turns, cfg: FetchParams, n: nat, k: nat, offset: nat, total: int, r: Run)
    requires Progressive(turns, cfg, n)
    requires r == Generate(turns, cfg, n, k, offset, total)
    requires |r.requests| > 0
    ensures !BudgetSpent(cfg, total) && r.requests[0] == Request(LimitFor(cfg, total), offset)
  {
  }

  /** The turn the loop takes, given the frame that `fetch_data` returned. */
  lemma TurnFrom(src: Batch, cfg: FetchParams, p: Parsers, up: (nat, nat) -> bool,
                 k: nat, offset: nat, total: int, raw: Batch)
    requires raw == FetchResult(src, LimitFor(cfg, total), offset, Retries, up, k)
    ensures TurnsOf(src, cfg, p, up)(k, offset, total) ==
      if Empty(raw) then Stop
      else if Empty(Filtered(cfg, p, raw)) && Filtering(cfg) then Stop
      else if |Filtered(cfg, p, raw).rows| < LimitFor(cfg, total) then Last(Filtered(cfg, p, raw))
      else More(Filtered(cfg, p, raw))
  {
  }

  /** The run from a turn that yields and goes on, after what the loop has done so far. */
  lemma GenerateMore(turns: Turns, cfg: FetchParams, n: nat,
                     k: nat, offset: nat, total: int, chunk: Batch, before: Run,
                     after: Run, k': nat, offset': nat, total': int)
    requires Progressive(turns, cfg, n)
    requires !BudgetSpent(cfg, total)
    requires turns(k, offset, total) == More(chunk)
    requires after == Run(before.requests + [Request(LimitFor(cfg, total), offset)], before.chunks + [chunk])
    requires k' == k + 1 && offset' == offset + cfg.chunkSize && total' == total + |chunk.rows|
    ensures Then(after, Generate(turns, cfg, n, k', offset', total')) ==
            Then(before, Generate(turns, cfg, n, k, offset, total))
  {
    var next := Generate(turns, cfg, n, k', offset', total');
    YieldThenGoOn(before, Generate(turns, cfg, n, k, offset, total), Request(LimitFor(cfg, total), offset), chunk, next);
  }

  /** The whole run of `fetch_data_chunked`: offset 0, nothing fetched yet. */
  function Chunks(src: Batch, cfg: FetchParams, p: Parsers, up: (nat, nat) -> bool): Run {
    Generate(TurnsOf(src, cfg, p, up), cfg, |src.rows|, 0, 0, 0)
  }

  /**
   * `APIClient.fetch_data_chunked`, with its yields collected in order into
   * `run.chunks` and its calls to `fetch_data` recorded in `run.requests`.
   */
  method FetchDataChunked(src: Batch, cfg: FetchParams, p: Parsers, up: (nat, nat) -> bool)
    returns (run: Run)
    ensures run == Chunks(src, cfg, p, up)
  {
    var offset: nat := 0;
    var total := 0;
    var k: nat := 0;
    run := Run([], []);
    ghost var turns := TurnsOf(src, cfg, p, up);
    ghost var whole := Chunks(src, cfg, p, up);
    ghost var rest := whole;
    assert Then(run, rest) == whole by {
      assert [] + whole.requests == whole.requests && [] + whole.chunks == whole.chunks;
    }
    while true
      invariant rest == Generate(turns, cfg, |src.rows|, k, offset, total)
      invariant Then(run, rest) == whole
      decreases if offset < |src.rows| then |src.rows| - offset else 0
    {
      if cfg.maxRows.Some? && total >= cfg.maxRows.value {
        assert rest == Run([], []);
        assert run == Then(run, rest) by {
          assert run.requests + [] == run.requests && run.chunks + [] == run.chunks;
        }
        break;
      }
      ghost var before := run;
      var limit := LimitFor(cfg, total);
      var chunk, _, _ := FetchData(src, limit, offset, Retries, up, k);
      var req := Request(limit, offset);
      run := run.(requests := run.requests + [req]);
      ghost var turn := turns(k, offset, total);
      TurnFrom(src, cfg, p, up, k, offset, total, chunk);
      if Empty(chunk) {
        assert turn == Stop;
        StopHere(before, rest, req);
        break;
      }
      if cfg.startDate.Some? || cfg.endDate.Some? {
        if CaseMonth in chunk.columns {
          chunk := Batch(chunk.columns, KeepInWindow(p, chunk.rows, cfg.startDate, cfg.endDate));
        }
      }
      if Empty(chunk) && (cfg.startDate.Some? || cfg.endDate.Some?) {
        assert turn == Stop;
        StopHere(before, rest, req);
        break;
      }
      run := run.(chunks := run.chunks + [chunk]);
      assert run == Run(before.requests + [req], before.chunks + [chunk]);
      var fetched := |chunk.rows|;
      if fetched < limit {
        assert turn == Last(chunk);
        YieldThenStop(before, rest, req, chunk);
        total, offset, k := total + fetched, offset + cfg.chunkSize, k + 1;
        break;
      }
      assert turn == More(chunk);
      ghost var (k0, offset0, total0) := (k, offset, total);
      total, offset, k := total + fetched, offset + cfg.chunkSize, k + 1;
      GenerateMore(turns, cfg, |src.rows|, k0, offset0, total0, chunk, before, run, k, offset, total);
      rest := Generate(turns, cfg, |src.rows|, k, offset, total);
    }
  }

  // ---- what a run of the generator does ----

  lemma {:induction false} TotalRowsCons(c: Batch, cs: seq<Batch>)
    ensures TotalRows([c] + cs) == |c.rows| + TotalRows(cs)
    decreases |cs|
  {
    if cs != [] {
      var init := cs[..|cs| - 1];
      assert ([c] + cs)[..|cs|] == [c] + init;
      TotalRowsCons(c, init);
    } else {
      assert [c][..0] == [];
    }
  }

  /** The rows yielded before the `j`-th request of a run that started at `total`. */
  function Before(total: int, r: Run, j: nat): int
    requires j <= |r.chunks|
  {
    total + TotalRows(r.chunks[..j])
  }

  /** A run that starts with one chunk: everything after it counts from the rows it added. */
  lemma BeforeShift(total: int, c: Batch, next: Run, r: Run, j: nat)
    requires r.chunks == [c] + next.chunks
    requires 1 <= j <= |r.chunks|
    ensures Before(total, r, j) == Before(total + |c.rows|, next, j - 1)
  {
    assert r.chunks[..j] == [c] + next.chunks[..j - 1];
    TotalRowsCons(c, next.chunks[..j - 1]);
  }

  /**
   * A run makes at most one request more than it yields chunks, and makes
   * none exactly when the row budget is spent at the start.
   */
  lemma {:induction false} GenerateCounts(turns: Turns, cfg: FetchParams, n: nat,
                                          k: nat, offset: nat, total: int, r: Run)
    requires Progressive(turns, cfg, n)
    requires r == Generate(turns, cfg, n, k, offset, total)
    ensures |r.chunks| <= |r.requests| <= |r.chunks| + 1
    ensures |r.requests| == 0 <==> BudgetSpent(cfg, total)
    decreases if offset < n then n - offset else 0
  {
    if !BudgetSpent(cfg, total) {
      var t := turns(k, offset, total);
      if t.More? {
        var next := Generate(turns, cfg, n, k + 1, offset + cfg.chunkSize, total + |t.chunk.rows|);
        GenerateCounts(turns, cfg, n, k + 1, offset + cfg.chunkSize, total + |t.chunk.rows|, next);
      }
    }
  }

  /** A run without its first chunk counts its rows on from the rows that chunk added. */
  lemma BeforeSnoc(total: int, r: Run, j: nat)
    requires j < |r.chunks|
    ensures Before(total, r, j + 1) == Before(total, r, j) + |r.chunks[j].rows|
  {
    assert r.chunks[..j + 1][..j] == r.chunks[..j];
  }

  /**
   * What is left of a run from its `j`-th request on is itself a run: the
   * one the generator makes from that request's offset, `j` requests later,
   * with the rows yielded before it.
   */
  lemma {:induction false} GenerateSuffix(turns: Turns, cfg: FetchParams, n: nat,
                                          k: nat, offset: nat, total: int, r: Run, j: nat,
                                          k': nat, offset': nat, total': int)
    requires Progressive(turns, cfg, n)
    requires r == Generate(turns, cfg, n, k, offset, total)
    requires j < |r.requests| && j <= |r.chunks|
    requires k' == k + j && offset' == r.requests[j].offset && total' == Before(total, r, j)
    ensures Run(r.requests[j..], r.chunks[j..]) == Generate(turns, cfg, n, k', offset', total')
    decreases j
  {
    if j == 0 {
      GenerateSuffixZero(turns, cfg, n, k, offset, total, r, k', offset', total');
    } else {
      GenerateFirstGoesOn(turns, cfg, n, k, offset, total, r);
      var c := turns(k, offset, total).chunk;
      var next := Generate(turns, cfg, n, k + 1, offset + cfg.chunkSize, total + |c.rows|);
      GenerateTail(turns, cfg, n, k, offset, total, r, j, c, next);
      GenerateSuffix(turns, cfg, n, k + 1, offset + cfg.chunkSize, total + |c.rows|, next, j - 1, k', offset', total');
    }
  }

  /** From its `j`-th request on (`j > 0`), a run is the run after its first request, from one request less. */
  lemma GenerateTail(turns: Turns, cfg: FetchParams, n: nat, k: nat, offset: nat, total: int, r: Run, j: nat,
                     c: Batch, next: Run)
    requires Progressive(turns, cfg, n)
    requires r == Generate(turns, cfg, n, k, offset, total)
    requires 0 < j < |r.requests| && j <= |r.chunks|
    requires turns(k, offset, total) == More(c)
    requires next == Generate(turns, cfg, n, k + 1, offset + cfg.chunkSize, total + |c.rows|)
    ensures j - 1 < |next.requests| && j - 1 <= |next.chunks|
    ensures Run(r.requests[j..], r.chunks[j..]) == Run(next.requests[j - 1..], next.chunks[j - 1..])
    ensures r.requests[j] == next.requests[j - 1]
    ensures Before(total, r, j) == Before(total + |c.rows|, next, j - 1)
  {
    GenerateFirstMore(turns, cfg, n, k, offset, total, r);
    DropCons(Request(LimitFor(cfg, total), offset), next.requests, j);
    DropCons(c, next.chunks, j);
    BeforeShift(total, c, next, r, j);
  }

  /** A run of two requests or more went on after its first. */
  lemma GenerateFirstGoesOn(turns: Turns, cfg: FetchParams, n: nat, k: nat, offset: nat, total: int, r: Run)
    requires Progressive(turns, cfg, n)
    requires r == Generate(turns, cfg, n, k, offset, total)
    requires |r.requests| >= 2
    ensures turns(k, offset, total).More?
  {
  }

  /** A whole run is its own suffix from request 0. */
  lemma GenerateSuffixZero(turns: Turns, cfg: FetchParams, n: nat, k: nat, offset: nat, total: int, r: Run,
                           k': nat, offset': nat, total': int)
    requires Progressive(turns, cfg, n)
    requires r == Generate(turns, cfg, n, k, offset, total)
    requires 0 < |r.requests|
    requires k' == k && offset' == r.requests[0].offset && total' == Before(total, r, 0)
    ensures Run(r.requests[0..], r.chunks[0..]) == Generate(turns, cfg, n, k', offset', total')
  {
    GenerateFirstRequest(turns, cfg, n, k, offset, total, r);
    assert r.chunks[..0] == [];
    assert r.requests[0..] == r.requests && r.chunks[0..] == r.chunks;
  }

  lemma DropCons<T>(x: T, s: seq<T>, j: nat)
    requires 1 <= j <= |s| + 1
    ensures ([x] + s)[j..] == s[j - 1..]
    ensures j <= |s| ==> ([x] + s)[j] == s[j - 1]
  {
  }

  /**
   * The `j`-th request of a run asks for the limit formula applied to the
   * rows yielded before it, whatever the chunks before it held, and is made
   * only while the row budget is not spent.
   */
  lemma GenerateRequestAt(turns: Turns, cfg: FetchParams, n: nat,
                          k: nat, offset: nat, total: int, r: Run, j: nat)
    requires Progressive(turns, cfg, n)
    requires r == Generate(turns, cfg, n, k, offset, total)
    requires j < |r.requests| && j <= |r.chunks|
    ensures r.requests[j].limit == LimitFor(cfg, Before(total, r, j))
    ensures !BudgetSpent(cfg, Before(total, r, j))
  {
    GenerateSuffix(turns, cfg, n, k, offset, total, r, j, k + j, r.requests[j].offset, Before(total, r, j));
    assert r.requests[j..][0] == r.requests[j];
  }

  /** The `j`-th request of a run is made `j` chunk sizes past the run's first offset. */
  lemma {:induction false} GenerateOffsetAt(turns: Turns, cfg: FetchParams, n: nat,
                                            k: nat, offset: nat, total: int, r: Run, j: nat)
    requires Progressive(turns, cfg, n)
    requires r == Generate(turns, cfg, n, k, offset, total)
    requires j < |r.requests|
    ensures r.requests[j].offset == offset + j * cfg.chunkSize
    decreases j
  {
    if j > 0 {
      GenerateCounts(turns, cfg, n, k, offset, total, r);
      GenerateFirstMore(turns, cfg, n, k, offset, total, r);
      var c := turns(k, offset, total).chunk;
      var next := Generate(turns, cfg, n, k + 1, offset + cfg.chunkSize, total + |c.rows|);
      GenerateOffsetAt(turns, cfg, n, k + 1, offset + cfg.chunkSize, total + |c.rows|, next, j - 1);
      assert r.requests[j] == next.requests[j - 1];
      StepOffset(offset, cfg.chunkSize, j);
    }
  }

  lemma StepOffset(offset: int, size: int, j: int)
    ensures offset + size + (j - 1) * size == offset + j * size
  {
  }


  /** Every request of a run but the last was a turn that yielded its chunk and went on. */
  lemma GenerateGoesOn(turns: Turns, cfg: FetchParams, n: nat,
                       k: nat, offset: nat, total: int, r: Run, j: nat)
    requires Progressive(turns, cfg, n)
    requires r == Generate(turns, cfg, n, k, offset, total)
    requires j < |r.chunks| <= |r.requests| && j < |r.requests| - 1
    ensures turns(k + j, r.requests[j].offset, Before(total, r, j)) == More(r.chunks[j])
  {
    GenerateSuffix(turns, cfg, n, k, offset, total, r, j, k + j, r.requests[j].offset, Before(total, r, j));
    var s := Run(r.requests[j..], r.chunks[j..]);
    GenerateFirstMore(turns, cfg, n, k + j, r.requests[j].offset, Before(total, r, j), s);
    assert s.chunks[0] == r.chunks[j];
  }

  /** A run whose last request yielded no chunk ended with a turn that stopped. */
  lemma GenerateStops(turns: Turns, cfg: FetchParams, n: nat,
                      k: nat, offset: nat, total: int, r: Run)
    requires Progressive(turns, cfg, n)
    requires r == Generate(turns, cfg, n, k, offset, total)
    requires |r.requests| == |r.chunks| + 1
    ensures turns(k + |r.chunks|, r.requests[|r.chunks|].offset, Before(total, r, |r.chunks|)) == Stop
  {
    var m := |r.chunks|;
    GenerateSuffix(turns, cfg, n, k, offset, total, r, m, k + m, r.requests[m].offset, Before(total, r, m));
    assert |r.requests[m..]| == 1 && r.chunks[m..] == [];
  }

  /**
   * A run whose last request yielded a chunk ended with a turn that yielded
   * it and stopped, or went on and then found the row budget spent.
   */
  lemma GenerateLastChunk(turns: Turns, cfg: FetchParams, n: nat,
                          k: nat, offset: nat, total: int, r: Run)
    requires Progressive(turns, cfg, n)
    requires r == Generate(turns, cfg, n, k, offset, total)
    requires 0 < |r.chunks| == |r.requests|
    ensures
      var j := |r.chunks| - 1;
      var t := turns(k + j, r.requests[j].offset, Before(total, r, j));
      t == Last(r.chunks[j]) || (t == More(r.chunks[j]) && BudgetSpent(cfg, Before(total, r, j + 1)))
  {
    var j := |r.chunks| - 1;
    GenerateSuffix(turns, cfg, n, k, offset, total, r, j, k + j, r.requests[j].offset, Before(total, r, j));
    BeforeSnoc(total, r, j);
    var s := Run(r.requests[j..], r.chunks[j..]);
    assert |s.requests| == 1 && s.chunks == [r.chunks[j]];
    var t := turns(k + j, r.requests[j].offset, Before(total, r, j));
    if t.More? {
      var next := Generate(turns, cfg, n, k + j + 1, r.requests[j].offset + cfg.chunkSize, Before(total, r, j) + |t.chunk.rows|);
      assert |next.requests| == 0;
      GenerateCounts(turns, cfg, n, k + j + 1, r.requests[j].offset + cfg.chunkSize, Before(total, r, j) + |t.chunk.rows|, next);
    }
  }

  /**
   * With a row budget `max_rows`, the rows yielded never exceed it: each
   * limit is at most what is left of the budget.
   */
  lemma {:induction false} GenerateWithinBudget(turns: Turns, cfg: FetchParams, n: nat,
                                                k: nat, offset: nat, total: int, r: Run)
    requires Progressive(turns, cfg, n) && Sized(turns, cfg)
    requires r == Generate(turns, cfg, n, k, offset, total)
    requires cfg.maxRows.Some? && 0 <= total
    ensures total + TotalRows(r.chunks) <= if total <= cfg.maxRows.value then cfg.maxRows.value else total
    decreases if offset < n then n - offset else 0
  {
    if !BudgetSpent(cfg, total) {
      var t := turns(k, offset, total);
      if t.Last? {
        assert r.chunks == [] + [t.chunk];
      } else if t.More? {
        var total' := total + |t.chunk.rows|;
        var next := Generate(turns, cfg, n, k + 1, offset + cfg.chunkSize, total');
        GenerateWithinBudget(turns, cfg, n, k + 1, offset + cfg.chunkSize, total', next);
        assert r.chunks == [t.chunk] + next.chunks;
        TotalRowsCons(t.chunk, next.chunks);
      }
    }
  }

  // ---- what a run of fetch_data_chunked does ----

  /**
   * The `j`-th call of `fetch_data` asks for the limit formula applied to the
   * rows yielded so far, at offset `j * chunk_size`, and is made only while
   * the row budget is not spent.
   */
  lemma ChunksRequest(src: Batch, cfg: FetchParams, p: Parsers, up: (nat, nat) -> bool, r: Run, j: nat)
    requires r == Chunks(src, cfg, p, up)
    requires j < |r.requests|
    ensures j <= |r.chunks|
    ensures r.requests[j] == Request(LimitFor(cfg, TotalRows(r.chunks[..j])), j * cfg.chunkSize)
    ensures !BudgetSpent(cfg, TotalRows(r.chunks[..j]))
  {
    var turns := TurnsOf(src, cfg, p, up);
    GenerateCounts(turns, cfg, |src.rows|, 0, 0, 0, r);
    GenerateRequestAt(turns, cfg, |src.rows|, 0, 0, 0, r, j);
    GenerateOffsetAt(turns, cfg, |src.rows|, 0, 0, 0, r, j);
  }

  /** The turn behind the `j`-th chunk of a run yields that chunk, and goes on unless it was the last request. */
  lemma GenerateYields(turns: Turns, cfg: FetchParams, n: nat, k: nat, offset: nat, total: int, r: Run, j: nat)
    requires Progressive(turns, cfg, n)
    requires r == Generate(turns, cfg, n, k, offset, total)
    requires j < |r.chunks|
    ensures j < |r.requests|
    ensures var t := turns(k + j, r.requests[j].offset, Before(total, r, j));
      (t.Last? || t.More?) && t.chunk == r.chunks[j] && (j < |r.requests| - 1 ==> t.More?)
  {
    GenerateCounts(turns, cfg, n, k, offset, total, r);
    if j < |r.requests| - 1 {
      GenerateGoesOn(turns, cfg, n, k, offset, total, r, j);
    } else {
      GenerateLastChunk(turns, cfg, n, k, offset, total, r);
    }
  }

  /** A turn that yields, yields what `fetch_data` returned, date-filtered when a date is given. */
  lemma YieldedChunk(src: Batch, cfg: FetchParams, p: Parsers, up: (nat, nat) -> bool,
                     k: nat, offset: nat, total: int)
    requires !TurnAt(src, cfg, p, up, k, offset, total).Stop?
    ensures TurnAt(src, cfg, p, up, k, offset, total).chunk
         == Filtered(cfg, p, FetchResult(src, LimitFor(cfg, total), offset, Retries, up, k))
  {
  }

  /**
   * The `j`-th chunk yielded is what the `j`-th call of `fetch_data`
   * returned, date-filtered when a start or end date is given; it is never
   * empty, never longer than the limit asked for, and exactly that long
   * unless it is the last request made.
   */
  lemma ChunksYield(src: Batch, cfg: FetchParams, p: Parsers, up: (nat, nat) -> bool, r: Run, j: nat)
    requires r == Chunks(src, cfg, p, up)
    requires j < |r.chunks|
    ensures j < |r.requests|
    ensures r.chunks[j] == Filtered(cfg, p, FetchResult(src, r.requests[j].limit, r.requests[j].offset, Retries, up, j))
    ensures !Empty(r.chunks[j]) && |r.chunks[j].rows| <= r.requests[j].limit
    ensures j < |r.requests| - 1 ==> |r.chunks[j].rows| == r.requests[j].limit
  {
    var turns := TurnsOf(src, cfg, p, up);
    GenerateYields(turns, cfg, |src.rows|, 0, 0, 0, r, j);
    GenerateRequestAt(turns, cfg, |src.rows|, 0, 0, 0, r, j);
    var t := turns(j, r.requests[j].offset, Before(0, r, j));
    assert t == TurnAt(src, cfg, p, up, j, r.requests[j].offset, Before(0, r, j));
    YieldedChunk(src, cfg, p, up, j, r.requests[j].offset, Before(0, r, j));
  }

  /**
   * A run that ends without yielding on its last request ended because that
   * call of `fetch_data` returned an empty frame (no rows left, or every
   * attempt failed), or because the date filter left nothing of it.
   */
  lemma ChunksStopped(src: Batch, cfg: FetchParams, p: Parsers, up: (nat, nat) -> bool, r: Run)
    requires r == Chunks(src, cfg, p, up)
    requires |r.requests| == |r.chunks| + 1
    ensures
      var m := |r.chunks|;
      var raw := FetchResult(src, r.requests[m].limit, r.requests[m].offset, Retries, up, m);
      Empty(raw) || (Filtering(cfg) && Empty(FilterByDate(p, raw, cfg.startDate, cfg.endDate)))
  {
    var turns := TurnsOf(src, cfg, p, up);
    var m := |r.chunks|;
    GenerateRequestAt(turns, cfg, |src.rows|, 0, 0, 0, r, m);
    GenerateStops(turns, cfg, |src.rows|, 0, 0, 0, r);
    assert turns(m, r.requests[m].offset, Before(0, r, m))
        == TurnAt(src, cfg, p, up, m, r.requests[m].offset, Before(0, r, m));
  }

  /**
   * A run whose last request yielded a chunk ended because that chunk was
   * shorter than asked for, or because it spent the row budget.
   */
  lemma ChunksLast(src: Batch, cfg: FetchParams, p: Parsers, up: (nat, nat) -> bool, r: Run)
    requires r == Chunks(src, cfg, p, up)
    requires 0 < |r.chunks| == |r.requests|
    ensures
      var j := |r.chunks| - 1;
      |r.chunks[j].rows| < r.requests[j].limit || BudgetSpent(cfg, TotalRows(r.chunks))
  {
    var turns := TurnsOf(src, cfg, p, up);
    var j := |r.chunks| - 1;
    GenerateRequestAt(turns, cfg, |src.rows|, 0, 0, 0, r, j);
    GenerateLastChunk(turns, cfg, |src.rows|, 0, 0, 0, r);
    if turns(j, r.requests[j].offset, Before(0, r, j)) == Last(r.chunks[j]) {
      TurnLastShort(src, cfg, p, up, j, r.requests[j].offset, Before(0, r, j), r.chunks[j]);
    } else {
      BeforeAll(0, r);
    }
  }

  /** A turn that yields its chunk and stops got fewer rows than it asked for. */
  lemma TurnLastShort(src: Batch, cfg: FetchParams, p: Parsers, up: (nat, nat) -> bool,
                      k: nat, offset: nat, total: int, c: Batch)
    requires TurnsOf(src, cfg, p, up)(k, offset, total) == Last(c)
    ensures |c.rows| < LimitFor(cfg, total)
  {
    TurnFrom(src, cfg, p, up, k, offset, total, FetchResult(src, LimitFor(cfg, total), offset, Retries, up, k));
  }

  /** The rows before the end of a run are all its rows. */
  lemma BeforeAll(total: int, r: Run)
    ensures Before(total, r, |r.chunks|) == total + TotalRows(r.chunks)
  {
    assert r.chunks[..|r.chunks|] == r.chunks;
  }

  /** No call at all is made exactly when `max_rows` is given and at most 0. */
  lemma ChunksNone(src: Batch, cfg: FetchParams, p: Parsers, up: (nat, nat) -> bool, r: Run)
    requires r == Chunks(src, cfg, p, up)
    ensures |r.requests| == 0 <==> cfg.maxRows.Some? && cfg.maxRows.value <= 0
  {
    GenerateCounts(TurnsOf(src, cfg, p, up), cfg, |src.rows|, 0, 0, 0, r);
  }

  /** With `max_rows` given, the chunks together hold at most that many rows. */
  lemma ChunksWithinBudget(src: Batch, cfg: FetchParams, p: Parsers, up: (nat, nat) -> bool, r: Run)
    requires r == Chunks(src, cfg, p, up)
    requires cfg.maxRows.Some?
    ensures TotalRows(r.chunks) <= if cfg.maxRows.value < 0 then 0 else cfg.maxRows.value
  {
    GenerateWithinBudget(TurnsOf(src, cfg, p, up), cfg, |src.rows|, 0, 0, 0, r);
  }

  /**
   * `max_rows=150` with `chunk_size=100` over a source of at least 150 rows,
   * every first attempt succeeding: a full chunk of 100, then a request
   * trimmed to the 50 rows left of the budget, then the budget stops the run.
   */
  lemma MaxRowsTrimsLastRequest(src: Batch, p: Parsers, up: (nat, nat) -> bool, r: Run)
    requires |src.rows| >= 150 && src.columns != {}
    requires up(0, 0) && up(1, 0)
    requires r == Chunks(src, FetchParams(100, Some(150), None, None), p, up)
    ensures r.requests == [Request(100, 0), Request(50, 100)]
    ensures |r.chunks| == 2 && TotalRows(r.chunks) == 150
    ensures r.chunks == [Batch(src.columns, src.rows[..100]), Batch(src.columns, src.rows[100..150])]
  {
    var cfg := FetchParams(100, Some(150), None, None);
    var turns := TurnsOf(src, cfg, p, up);
    var n := |src.rows|;
    var c0 := Batch(src.columns, src.rows[..100]);
    var c1 := Batch(src.columns, src.rows[100..150]);
    assert FirstSuccess(up, 0, Retries) == Some(0) && FirstSuccess(up, 1, Retries) == Some(0);
    assert turns(0, 0, 0) == More(c0);
    assert turns(1, 100, 100) == More(c1);
    var r1 := Generate(turns, cfg, n, 1, 100, 100);
    assert Generate(turns, cfg, n, 2, 200, 150) == Run([], []);
    assert r1 == Run([Request(50, 100)], [c1]);
    assert r == Then(Run([Request(100, 0)], [c0]), r1);
    assert TotalRows(r.chunks) == TotalRows([c0]) + 50;
    assert [c0][..0] == [];
  }

  // ---- the shape of the chunks ----

  /** The endpoint's page has the source's columns in every row. */
  lemma PageWellFormed(src: Batch, limit: int, offset: nat)
    requires WellFormed(src)
    ensures WellFormed(Page(src, limit, offset))
  {
    var b := Page(src, limit, offset);
    if 0 < limit && offset < |src.rows| {
      forall i | 0 <= i < |b.rows|
        ensures b.rows[i].Keys == b.columns
      {
        assert b.rows[i] == src.rows[offset + i];
      }
    }
  }

  /** The date filter keeps every row's columns: it only rewrites `case_month` of rows that have it. */
  lemma FilteredWellFormed(cfg: FetchParams, p: Parsers, raw: Batch)
    requires WellFormed(raw)
    ensures WellFormed(Filtered(cfg, p, raw))
  {
    if Filtering(cfg) && CaseMonth in raw.columns {
      var kept := KeepInWindow(p, raw.rows, cfg.startDate, cfg.endDate);
      KeepInWindowMembers(p, raw.rows, cfg.startDate, cfg.endDate);
      forall j | 0 <= j < |kept|
        ensures kept[j].Keys == raw.columns
      {
        assert kept[j] in kept;
        var i :| 0 <= i < |raw.rows| && Survives(p, raw.rows[i], cfg.startDate, cfg.endDate)
                 && kept[j] == Dated(p, raw.rows[i]);
        assert raw.rows[i].Keys == raw.columns;
      }
    }
  }

  /** Every chunk the generator yields from a well-formed source is well-formed. */
  lemma ChunksWellFormed(src: Batch, cfg: FetchParams, p: Parsers, up: (nat, nat) -> bool, r: Run)
    requires WellFormed(src)
    requires r == Chunks(src, cfg, p, up)
    ensures forall j :: 0 <= j < |r.chunks| ==> WellFormed(r.chunks[j])
  {
    forall j | 0 <= j < |r.chunks|
      ensures WellFormed(r.chunks[j])
    {
      ChunksYield(src, cfg, p, up, r, j);
      var raw := FetchResult(src, r.requests[j].limit, r.requests[j].offset, Retries, up, j);
      PageWellFormed(src, r.requests[j].limit, r.requests[j].offset);
      FilteredWellFormed(cfg, p, raw);
    }
  }
}
