# CDC COVID case ETL, modelled in Dafny

This project models the core of a small extract-transform-load command-line
tool for CDC COVID-19 case surveillance data. It has four parts:

- `APIClient` pulls the data from an HTTP CSV endpoint. It fetches in pages by
  `$limit` and `$offset`, retries each page a bounded number of times, and can
  apply a row cap and a date window.
- `DataTransformer.clean_and_transform` cleans one batch. It parses dates,
  coerces the two interval columns to integers, fills and strips the text
  columns, drops rows with a missing location, and adds a default `process`
  column.
- `MySQLHandler` stores batches in `cdc_covid_cases`. It builds one 17-value
  tuple per row and applies an `INSERT ... ON DUPLICATE KEY UPDATE` keyed on
  the six-column `unique_case` key. It also answers three group-by-count
  queries.
- `CLIManager` drives the `fetch` command: it loops over the chunks,
  transforming and loading each one and keeping a row total. It also
  dispatches the `query_data` sub-commands.

The project has seven modules, one per file:

- `Options` (`options.dfy`): the `Option` type, used for `None`, NaN and NaT.
- `Dates` (`dates.dfy`): calendar dates and their `YYYY-MM-DD` form, an
  ISO 8601 calendar date in extended format (section 4.1.2.2 of ISO 8601:2004).
  It proves that formatting and parsing invert each other.
- `Tables` (`tables.dfy`): a DataFrame as a column set and a sequence of rows,
  each row a map from column name to cell. Missing cells are `Null`, and
  pandas' parsing is a set of oracles.
- `ApiClient` (`api_client.dfy`): `fetch_data`, and `fetch_data_chunked` as a
  method proved equal to a run of the generator (`Generate`). The properties
  of the generator are proved per request and per chunk.
- `DataTransformer` (`data_transformer.dfy`): `clean_and_transform` as a method
  that follows the source step by step. It is proved equal to the composition
  of the steps (`Transform`), and that composition is proved equal to a
  row-by-row definition (`CleanRows`). Properties are stated about the
  row-by-row definition.
- `MySqlHandler` (`mysql_handler.dfy`):
  - building the tuples;
  - the upsert, over a table that is the sequence of its rows in `id` order;
  - the group-by counts;
  - the `MySQLHandler` class, whose fields are the connection state, whether
    the table exists, and its rows.
- `Cli` (`cli.dfy`): the fetch loop, as a method over the chunks the
  generator yields, and the query dispatch.

The source's I/O and library calls become parameters:

- The HTTP endpoint is a finite source table, `src`.
- Whether attempt `a` of the `k`-th request reaches the endpoint is an oracle,
  `up(k, a)`.
- `pd.to_datetime`, `pd.to_numeric` and `astype(str)` on raw cells are the
  oracles of `Parsers`.
- A server-side `mysql.connector.Error` is a boolean, `fails`.

Some of what the code does is easy to misread; the model follows the code:

- The end-of-data test of `fetch_data_chunked` compares the length of the
  chunk *after* the date filter with the limit, not the raw page length. With a
  date window, a page that loses any row to the filter therefore ends the
  fetch once it has been yielded (`ApiClient.ChunksLast`, `ApiClient.TurnAt`).
- `res_state` is filled with `'Unknown'` before the location `dropna`. A
  missing `res_state` therefore never drops a row; only a missing
  `state_fips_code` does (`DataTransformer.StepsKeepFips`,
  `DataTransformer.CleanRowCell`).
- When every attempt of `fetch_data` fails, it sleeps `retries - 1` times, not
  once after every attempt (`ApiClient.FetchData`).
- `load_cdc_data` swallows only `mysql.connector.Error`. A present
  `case_month` that is neither a date nor missing makes `strftime` raise, and
  that error reaches the caller (`MySqlHandler.BuildRowRaises`,
  `MySqlHandler.MySQLHandler.LoadCdcData`). After `clean_and_transform` this
  cannot happen (`Cli.TransformedBuilds`).
- A default fills a column only when the row lacks it. A present but missing
  cell is bound as it is (`MySqlHandler.BuildRowTuple`).

## Model

| member | source | states |
|---|---|---|
| `ApiClient.FetchData` | Project2_CDC_ETL_CLI/api_client.py:15-36 | returns the page of the first attempt that succeeds, unchanged, after that many attempts plus one and one sleep per failed attempt; when all `retries` attempts fail it returns an empty frame after `retries` attempts and `retries - 1` sleeps (none for `retries <= 0`) |
| `ApiClient.FirstSuccessFromIsLeast` | Project2_CDC_ETL_CLI/api_client.py:20-24 | an attempt is taken exactly when some attempt below `retries` succeeds, and the one taken is the least that does |
| `ApiClient.NoRetriesNoAttempts` | Project2_CDC_ETL_CLI/api_client.py:20-36 | with `retries <= 0` no attempt succeeds and the result is the empty frame |
| `ApiClient.LimitFor` | Project2_CDC_ETL_CLI/api_client.py:53 | the limit is at most `chunk_size`; with a truthy `max_rows` it is at most what is left of the budget and equals one of the two; otherwise it is `chunk_size` |
| `ApiClient.KeepInWindow` | Project2_CDC_ETL_CLI/api_client.py:59-65 | keeps no more rows than it is given, and every row kept has a parsed `case_month` inside the window |
| `ApiClient.KeepInWindowMembers` | Project2_CDC_ETL_CLI/api_client.py:61-65 | the filter keeps exactly the rows whose `case_month` parses to a date inside the window: every row it leaves is such a row with `case_month` set to its parsed date and no other cell changed, and every such row is left |
| `ApiClient.KeepInWindowOne` | Project2_CDC_ETL_CLI/api_client.py:61-65 | on one row the filter gives that row with its parsed date when the date is in the window, and nothing otherwise; with `ApiClient.KeepInWindowAppend` this fixes the output of any batch, in order |
| `ApiClient.FilterByDate` | Project2_CDC_ETL_CLI/api_client.py:59-67 | keeps the columns, never adds rows, and leaves a chunk without `case_month` unchanged |
| `ApiClient.FilterByDateMembers` | Project2_CDC_ETL_CLI/api_client.py:60-65 | on a chunk with `case_month`, the rows left are exactly the rows whose date parses into the window, each with its parsed date and otherwise unchanged |
| `ApiClient.KeepInWindowAppend` | Project2_CDC_ETL_CLI/api_client.py:61-65 | the date filter treats each row on its own: filtering a concatenation concatenates the filtered parts |
| `ApiClient.TurnAt` | Project2_CDC_ETL_CLI/api_client.py:51-81 | a turn that goes on got a full page inside the source; a yielded chunk is never empty and never longer than the limit; a chunk that ends the run is shorter than the limit |
| `ApiClient.FetchDataChunked` | Project2_CDC_ETL_CLI/api_client.py:38-81 | the loop's yields and its calls to `fetch_data` are exactly the run of the generator from offset 0 and total 0 |
| `ApiClient.ChunksRequest` | Project2_CDC_ETL_CLI/api_client.py:47-77 | the `j`-th call asks for the limit formula applied to the rows yielded before it, at offset `j * chunk_size`, and is made only while the budget is not spent |
| `ApiClient.ChunksYield` | Project2_CDC_ETL_CLI/api_client.py:54-73 | the `j`-th chunk is what the `j`-th `fetch_data` call returned, date-filtered when a date is given; it is non-empty, within the limit, and full unless its call was the last |
| `ApiClient.ChunksStopped` | Project2_CDC_ETL_CLI/api_client.py:54-71 | a run whose last call yields nothing ended on an empty frame, or on a date filter that left nothing |
| `ApiClient.ChunksLast` | Project2_CDC_ETL_CLI/api_client.py:75-81 | a run whose last call yielded ended because that chunk was shorter than its limit after filtering, or because the budget is spent |
| `ApiClient.ChunksNone` | Project2_CDC_ETL_CLI/api_client.py:50-53 | no call is made exactly when `max_rows` is given and at most 0 |
| `ApiClient.ChunksWithinBudget` | Project2_CDC_ETL_CLI/api_client.py:51-76 | with `max_rows` given, the rows yielded never exceed it (0 for a negative cap) |
| `ApiClient.ChunksWellFormed` | Project2_CDC_ETL_CLI/api_client.py:54-73 | every chunk the generator yields from a source whose rows all carry its columns carries those columns in every row, so it meets what `_handle_fetch` hands to the transformer |
| `ApiClient.MaxRowsTrimsLastRequest` | Project2_CDC_ETL_CLI/api_client.py:51-81 | `max_rows=150`, `chunk_size=100`: the calls ask for 100 rows at offset 0 and then 50 at offset 100, and the two chunks hold the first 150 rows |
| `Dates.FormatThenParse` | Project2_CDC_ETL_CLI/mysql_handler.py:107 | the `YYYY-MM-DD` string of a date reads back as that date |
| `Dates.ParseThenFormat` | Project2_CDC_ETL_CLI/main.py:53-54 | a string that reads as a date is exactly the `YYYY-MM-DD` form of that date |
| `Dates.PaddedRoundTrip` | Project2_CDC_ETL_CLI/mysql_handler.py:107 | a zero-padded field reads back as its number when the number fits the width |
| `DataTransformer.Trim` | Project2_CDC_ETL_CLI/data_transformer.py:42 | the stripped string starts and ends with a character that is not whitespace |
| `DataTransformer.TrimIsCut` | Project2_CDC_ETL_CLI/data_transformer.py:42 | stripping only cuts whitespace from the two ends: the result is a slice of the input |
| `DataTransformer.TrimIdempotent` | Project2_CDC_ETL_CLI/data_transformer.py:42 | stripping twice is stripping once |
| `DataTransformer.Rewritten` | Project2_CDC_ETL_CLI/data_transformer.py:29-42 | a date cell becomes a date, or missing exactly when it does not parse; an interval cell always becomes an integer, 0 when it does not parse; a text cell always becomes text |
| `DataTransformer.MissingTextIsUnknown` | Project2_CDC_ETL_CLI/data_transformer.py:42 | a missing text cell becomes `'Unknown'` |
| `DataTransformer.RewrittenIdempotent` | Project2_CDC_ETL_CLI/data_transformer.py:28-42 | each column rewrite leaves a rewritten cell as it is |
| `DataTransformer.DropNull` | Project2_CDC_ETL_CLI/data_transformer.py:30 | `dropna` never adds rows, and no row it keeps is missing the column |
| `DataTransformer.AddProcess` | Project2_CDC_ETL_CLI/data_transformer.py:51-52 | the batch then has a `process` column, its columns are the old ones plus `process`, and no row is dropped |
| `DataTransformer.RewriteEach` | Project2_CDC_ETL_CLI/data_transformer.py:34-42 | the `for col` loop rewrites, in list order, each listed column the batch has |
| `DataTransformer.DropEach` | Project2_CDC_ETL_CLI/data_transformer.py:46-48 | the `for col` loop drops, in list order, the rows missing each listed column the batch has |
| `DataTransformer.CleanAndTransform` | Project2_CDC_ETL_CLI/data_transformer.py:15-56 | the method returns an empty frame as it came, and otherwise the steps of lines 28-52 in order |
| `DataTransformer.PipelineAppend` | Project2_CDC_ETL_CLI/data_transformer.py:28-52 | every step treats each row on its own: the rows of a concatenation come out as the concatenated outputs |
| `DataTransformer.PipelineOne` | Project2_CDC_ETL_CLI/data_transformer.py:28-52 | one row comes out as its cleaned form when its date parses (if dated) and its FIPS code is present (if that column exists), and otherwise not at all |
| `DataTransformer.PipelineRowWise` | Project2_CDC_ETL_CLI/data_transformer.py:28-52 | the steps on rows that carry the batch's columns give the row-by-row definition |
| `DataTransformer.TransformRowWise` | Project2_CDC_ETL_CLI/data_transformer.py:22-52 | a non-empty well-formed batch comes out with `process` added to its columns and its surviving rows cleaned, in their original order |
| `DataTransformer.StepsKeepFips` | Project2_CDC_ETL_CLI/data_transformer.py:38-48 | the location drop keeps a rewritten row exactly when its FIPS code is present; a missing `res_state` has already become `'Unknown'` |
| `DataTransformer.CleanRowColumns` | Project2_CDC_ETL_CLI/data_transformer.py:51-52 | a cleaned row has the batch's columns plus `process`, which keeps its value when present and is `'Unknown'` otherwise |
| `DataTransformer.CleanRowCell` | Project2_CDC_ETL_CLI/data_transformer.py:28-48 | each cell of a surviving row after cleaning:<br>- `case_month` is its parsed date;<br>- an interval is its integer, or 0;<br>- a text column is its stripped text, `'Unknown'` when missing, so `res_state` is always text;<br>- the FIPS code is present;<br>- any other column is unchanged |
| `DataTransformer.CleanRowsMembers` | Project2_CDC_ETL_CLI/data_transformer.py:28-52 | every output row is the cleaned form of an input row that survives, and every input row that survives comes out cleaned |
| `DataTransformer.CleanRowsAllKept` | Project2_CDC_ETL_CLI/data_transformer.py:28-52 | when no row is dropped, the output has one cleaned row per input row, in place |
| `DataTransformer.CleanRowIdempotent` | Project2_CDC_ETL_CLI/data_transformer.py:28-52 | a cleaned row survives a second cleaning and is left unchanged by it |
| `DataTransformer.TransformShape` | Project2_CDC_ETL_CLI/data_transformer.py:22-56 | an empty batch is returned as it came; otherwise the columns gain `process` and lose none, no rows are added, and every row carries the new columns |
| `DataTransformer.TransformIdempotent` | Project2_CDC_ETL_CLI/data_transformer.py:28-52 | cleaning a cleaned batch changes nothing |
| `MySqlHandler.SerializeDate` | Project2_CDC_ETL_CLI/mysql_handler.py:107 | serialising succeeds exactly for a date or a missing cell |
| `MySqlHandler.BuildRowTuple` | Project2_CDC_ETL_CLI/mysql_handler.py:104-127 | the tuple holds the serialised date first; every later place of the INSERT column list holds the row's own cell when the row has that column, missing or not, and the column's default otherwise |
| `MySqlHandler.DefaultsOfColumns` | Project2_CDC_ETL_CLI/mysql_handler.py:83-101 | the defaults after `case_month` are 0 for `state_fips_code` and both intervals and `'Unknown'` for the rest |
| `MySqlHandler.BuildRowRaises` | Project2_CDC_ETL_CLI/mysql_handler.py:104-107 | building a row raises exactly when its `case_month` is present, not missing, and not a date |
| `MySqlHandler.BuildRowDate` | Project2_CDC_ETL_CLI/mysql_handler.py:107 | a dated row binds a `YYYY-MM-DD` string that reads back as its date |
| `MySqlHandler.BuildAllRows` | Project2_CDC_ETL_CLI/mysql_handler.py:102-127 | all rows build exactly when none raises, and then the `i`-th tuple is the `i`-th row's |
| `MySqlHandler.Refresh` | Project2_CDC_ETL_CLI/mysql_handler.py:75-79 | an update takes the new row's `death_yn`, `hosp_yn`, `icu_yn` and `underlying_conditions_yn`, and keeps every other stored column (the six key columns included) as it was |
| `MySqlHandler.UpsertEffect` | Project2_CDC_ETL_CLI/mysql_handler.py:75-79 | a row with a new key, or a key holding NULL, is appended; a row with a stored key changes only that row's four flags |
| `MySqlHandler.UpsertKeepsKeys` | Project2_CDC_ETL_CLI/mysql_handler.py:47 | an upsert adds at most one row, keeps every row's key in its place, and keeps `unique_case` |
| `MySqlHandler.UpsertAllKeepsUnique` | Project2_CDC_ETL_CLI/mysql_handler.py:129-131 | a whole `executemany` keeps `unique_case` |
| `MySqlHandler.UpsertAllAbsorbs` | Project2_CDC_ETL_CLI/mysql_handler.py:75-79 | after a batch whose keys hold no NULL, every key of the batch is stored once, with the flags of the batch's last row of that key |
| `MySqlHandler.UpsertAllStored` | Project2_CDC_ETL_CLI/mysql_handler.py:75-79 | a batch whose keys are all stored only refreshes flags, each stored row taking its key's last flags |
| `MySqlHandler.UpsertAllIdempotent` | Project2_CDC_ETL_CLI/mysql_handler.py:129-131 | loading the same batch twice, when none of its keys holds NULL, leaves the table as one load left it |
| `MySqlHandler.NullKeyAppends` | Project2_CDC_ETL_CLI/mysql_handler.py:47 | a row whose key holds NULL is inserted again by every load |
| `MySqlHandler.TallyCounts` | Project2_CDC_ETL_CLI/mysql_handler.py:147-154 | the tally lists each value present once, with the number of rows holding it, and nothing else |
| `MySqlHandler.SortDescFacts` | Project2_CDC_ETL_CLI/mysql_handler.py:154 | the sort orders the groups by descending count and keeps distinct groups distinct |
| `MySqlHandler.GroupCountsCorrect` | Project2_CDC_ETL_CLI/mysql_handler.py:173-178 | `GROUP BY` with `COUNT(*)` and `ORDER BY total_cases DESC`: one row per value present (NULL included), with its count, largest first |
| `MySqlHandler.InStateColumn` | Project2_CDC_ETL_CLI/mysql_handler.py:150-153 | `WHERE res_state = %s` keeps only that state's rows, and all of them |
| `MySqlHandler.StateQueryIsThatState` | Project2_CDC_ETL_CLI/mysql_handler.py:146-154 | with a state code given, the by-state query has at most one row: that state with all its cases |
| `MySqlHandler.MySQLHandler.constructor` | Project2_CDC_ETL_CLI/mysql_handler.py:10-19 | a handler on a database in the given state, with the key constraint holding |
| `MySqlHandler.MySQLHandler.CreateTables` | Project2_CDC_ETL_CLI/mysql_handler.py:21-59 | without a connection nothing changes; otherwise the table exists afterwards unless the server errs, and an existing table keeps its rows |
| `MySqlHandler.MySQLHandler.LoadCdcData` | Project2_CDC_ETL_CLI/mysql_handler.py:61-137 | without a connection nothing changes; a row that cannot be built raises and nothing changes; otherwise the whole batch is upserted in order, or nothing changes on a server error; `unique_case` holds throughout |
| `MySqlHandler.MySQLHandler.QueryTotalCasesByState` | Project2_CDC_ETL_CLI/mysql_handler.py:139-165 | cases per state, largest first, filtered to one state when a non-empty code is given; empty without a connection, and empty on a server error (`fails`, or a missing table), which is caught |
| `MySqlHandler.MySQLHandler.QueryCasesByAgeGroup` | Project2_CDC_ETL_CLI/mysql_handler.py:167-189 | cases per age group, largest first; empty without a connection, and empty on a server error (`fails`, or a missing table), which is caught |
| `MySqlHandler.MySQLHandler.QueryCasesBySex` | Project2_CDC_ETL_CLI/mysql_handler.py:191-213 | cases per sex, largest first; empty without a connection, and empty on a server error (`fails`, or a missing table), which is caught |
| `Cli.FirstEmpty` | Project2_CDC_ETL_CLI/main.py:64-73 | the loop breaks at the first empty chunk: all chunks before it are non-empty |
| `Cli.ProcessChunk` | Project2_CDC_ETL_CLI/main.py:64-70 | one chunk transformed; the transformed chunk is loaded and its rows added to the total exactly when it is not empty |
| `Cli.HandleFetch` | Project2_CDC_ETL_CLI/main.py:50-74 | the chunks before the first empty one are transformed; the non-empty results are loaded in order; the total is their row count; the table is as those loads leave it |
| `Cli.LoadedMembers` | Project2_CDC_ETL_CLI/main.py:64-68 | the loader gets only non-empty transformed chunks, and gets every one of them |
| `Cli.TransformedBuilds` | Project2_CDC_ETL_CLI/main.py:65-67 | loading what the transformer let out never raises |
| `Cli.FetchConsumesAll` | Project2_CDC_ETL_CLI/main.py:57-73 | the generator never yields an empty chunk, so the loop consumes every chunk it yields |
| `Cli.CountsEmpty` | Project2_CDC_ETL_CLI/main.py:90-94 | a query result is empty exactly when there is nothing to count |
| `Cli.HandleQueryData` | Project2_CDC_ETL_CLI/main.py:76-94 | dispatches `total_cases`, `cases_by_age_group` and `cases_by_sex` to their queries (the state filter only for the first) and shows their rows, or "no results" exactly when there is no connection or table, the query fails on the server, or nothing was found; any other type runs nothing |

## Left out

- HTTP, CSV parsing and `requests`: the endpoint is a finite table `src`, and a page is the slice at `offset` of at most `limit` rows. A non-positive limit is taken to return nothing. This assumption also makes `Generate` terminate when `chunk_size <= 0`: with `chunk_size = 0` and no `max_rows`, the source never advances `offset` (`api_client.py` line 77), so an endpoint that answered `$limit=0` with rows would keep `fetch_data_chunked` in its loop forever. The URL template and `api_key` are not modelled.
- `fetch_data` handles `requests.RequestException` and any other exception in the same way, so both are one oracle, `up(k, a)`.
- `time.sleep`: only the number of sleeps is counted; their duration `wait` is not modelled.
- `ApiClient.FetchDataChunked`: the generator's laziness is not modelled; its yields are collected in order into a sequence. The fetch loop of `_handle_fetch` never breaks early on a chunk the generator yields (`Cli.FetchConsumesAll`), so running the generator to completion first yields the same chunks.
- `Cli.HandleFetch` takes the yielded chunks as input rather than calling the generator. The interleaving of fetches and loads is therefore not modelled. The transformer assigns columns of the very frame the generator still holds (`data_transformer.py` lines 29, 36 and 42, before any rebinding), but the generator reads only `len(chunk)` of it afterwards, and those assignments leave the length unchanged; this aliasing is not modelled.
- Parsing `--start-date` and `--end-date` with `strptime`: the fetch parameters carry dates directly. `Dates.ParseIso` accepts only the zero-padded form, which `strptime('%Y-%m-%d')` also accepts along with unpadded fields.
- pandas parsing: the date formats `pd.to_datetime` understands, the floats `pd.to_numeric` produces, and the truncation and overflow of `astype(int)` are oracles in `Parsers`. Dates carry four-digit years, wider than pandas' Timestamp range.
- `DataTransformer.Rewritten`: the integer oracle `numOf` is assumed never to meet a non-finite value. In the source, an interval cell holding `inf`, `-inf` or `Infinity` becomes the float infinity, either in `pd.to_numeric` or already in `read_csv`. `fillna(0)` keeps it, and `astype(int)` (`data_transformer.py` line 36) then raises. That error escapes `clean_and_transform` and `_handle_fetch`: `main.py` line 65 has no handler. So the fetch stops after the chunks already loaded. The model always rewrites such a cell to a number, so `Cli.HandleFetch` goes on with the later chunks.
- `pd.to_datetime` on a whole column: the date oracle `dateOf` parses each cell on its own, but `pd.to_datetime(..., errors='coerce')` without `format` (`api_client.py` line 61, `data_transformer.py` line 29) infers one format for the whole column from its first non-null value and turns cells that do not match it into NaT. In the program, whether a cell parses can therefore depend on the other rows of the chunk. The row-independence lemmas `ApiClient.KeepInWindowAppend`, `DataTransformer.PipelineAppend`, `DataTransformer.PipelineOne` and `DataTransformer.PipelineRowWise` are facts about the model under this per-cell abstraction, not about pandas' column-wide inference.
- pandas column dtypes and the DataFrame index: a frame is a column set and a sequence of rows.
- The `expected_schema` parameter of `clean_and_transform`: it is never used.
- MySQL's type coercion of the bound values (VARCHAR widths, INT conversion, the DATE string) is not modelled. Collation is not modelled either: keys and `WHERE res_state = %s` compare values exactly, whereas MySQL 8's default collation, `utf8mb4_0900_ai_ci`, ignores case and accents (it is a NO PAD collation, so trailing spaces do count).
- `MySqlHandler.MySQLHandler.QueryTotalCasesByState`, `MySqlHandler.MySQLHandler.QueryCasesByAgeGroup` and `MySqlHandler.MySQLHandler.QueryCasesBySex` fix the order of rows with equal counts no more tightly than `ORDER BY total_cases DESC` does.
- The table is the sequence of its rows in `id` order, not a map from key to row. Rows whose key holds NULL never conflict, so several of them can share a key (`MySqlHandler.NullKeyAppends`).
- A server-side `mysql.connector.Error` is a `fails` parameter of each statement's method (`CreateTables`, `LoadCdcData` and the three queries). Commit, rollback, cursors and `cursor.rowcount` become "the whole batch or nothing".
- Connecting: a failed `connect` raises out of `__init__`, so the `not self.conn` guards see a handler whose connection flag is given to the constructor.
- `close()` and `is_connected()`, logging, `argparse` setup and `run()`, and `main()` with its `config.ini` reading are not modelled. The `--limit` argument is parsed but never used.
- Printing query results: `_handle_query_data` returns what it would show (`Results`, `NoResults` or `UnknownQuery`) instead of printing it.
