# spotify-etl-api in Dafny

This project models the logic of the spotify-etl-api catalogue service and proves properties about it. The service has three parts:

- A read-only HTTP API over a `tracks` table. It lists tracks with filters, sorting and paging, and reports the top artists and a summary.
- A CSV loader. It normalises a Spotify export and appends the rows to that table in batches of 500, truncating the table first when asked.
- Request validation. The FastAPI `Query(...)` constraints either reject a request or forward it unchanged.

The database table is an in-memory sequence of rows, and every query is a function over that sequence. The loader works on a `TrackTable` object, whose `Truncate` method empties its rows and keeps its identity counter, and whose `Append` method adds rows and advances the counter, both in place. The batch loop of `load_csv` is a method with loop invariants. It is proved against the functional description `Appended` / `AfterLoad`.

Modules, one per file:

| file | module | contents |
|---|---|---|
| `wrappers.dfy` | `Wrappers` | `Option`, `Result` |
| `text.dfy` | `Text` | the string operations: ASCII lowering, `str.strip` with a character set, `str.replace`, `str.split(sep)[0]`, substring search and lexicographic order |
| `seqs.dfy` | `Seqs` | filter, map, a generic insertion sort under a total preorder, and their lemmas |
| `models.dfy` | `Models` | rows, result shapes, table states and the `TrackTable` class (app/db/models.py, app/api/schemas.py) |
| `crud.dfy` | `Crud` | `get_tracks`, `get_top_artists`, `get_summary`, `_track_to_dict` (app/db/crud.py) |
| `loader.dfy` | `Loader` | `_read_csv`, `_normalize`, `load_csv` (app/etl/load_csv.py) |
| `api.dfy` | `Api` | the `/tracks` and `/stats/top-artists` routes (app/api/tracks.py) |

Behaviour of the code worth knowing, each with the member that shows it:

- The loader appends rows; it does not upsert by (track_name, artist, album). The table has no unique key, and `to_sql(if_exists="append")` inserts. So loading a file twice stores its rows twice (`Loader.LoadTwiceDuplicates`).
- `"['Drake', 'Rihanna']"` normalises to `Drake'`, not `Drake`. This is because the brackets and quotes are stripped from the ends of the whole cell before it is split on `,` (`Loader.ListedArtistsKeepTrailingQuote`).
- Nothing rejects `tempo_min > tempo_max`. The request is accepted and returns an empty page with total 0 (`Api.InvertedTempoRangeAccepted`).
- Under PostgreSQL, `TRUNCATE TABLE tracks` without `RESTART IDENTITY` keeps the identity counter, so ids after a replace continue from the old counter (`Models.TrackTable.Truncate`). The model assumes PostgreSQL here; see "## Left out".
- A missing album cell is stored as the text `"nan"` (through `astype(str)`), not as NULL (`Loader.MissingCellsReadAsNan`).
- Each 500-row batch is its own `to_sql` call, not one transaction for the whole run.

## Model

| member | source | states |
|---|---|---|
| Models.Stored | app/db/models.py:7 | the stored rows of a batch keep its order and take consecutive ids from the identity counter |
| Models.StoredAt | app/db/models.py:5-12 | the k-th stored row, without its id, is exactly the k-th inserted row |
| Models.StoredAppend | app/db/models.py:7 | storing a + b is storing a, then storing b from the counter a left behind |
| Models.Truncated | app/etl/load_csv.py:62-64 | TRUNCATE empties the table and keeps the identity counter |
| Models.Appended | app/etl/load_csv.py:69-74 | an append grows the table by the batch, keeps every earlier row in place and advances the counter by the batch size |
| Models.AppendedWellFormed | app/db/models.py:7 | appending keeps ids increasing in row order and below the counter |
| Models.AppendedTwice | app/etl/load_csv.py:68-74 | appending a then b equals appending a + b, which lets a load be split into batches |
| Models.TrackTable.constructor | app/db/models.py:5-12 | a new table is empty and its counter starts at 1 |
| Models.TrackTable.Truncate | app/etl/load_csv.py:62-64 | the table state after the call is the truncated state, still well formed |
| Models.TrackTable.Append | app/etl/load_csv.py:69-74 | the table state after the call is the old state with the batch appended under fresh ids |
| Crud.Matches | app/db/crud.py:32-49 | defines the WHERE clauses: each present, non-empty text filter and each present numeric bound must hold |
| Crud.Filtered | app/db/crud.py:32-49 | every filtered row is a table row that passes every active filter, and there are no more of them than table rows |
| Crud.UnfilteredKeepsRows | app/db/crud.py:32-49 | with no active filter the WHERE clauses keep the whole table, in order |
| Crud.FilteredRows | app/db/crud.py:32-49 | the filtered rows are the matching rows, each as often as in the table, and no others |
| Crud.SortKeyOf | app/db/crud.py:55-59 | the listing falls back to id order exactly when sort is absent or not one of danceability, tempo, track_name |
| Crud.Descending | app/db/crud.py:55-57 | defines the direction: descending exactly for a sortable column with order "desc" |
| Crud.Ordering | app/db/crud.py:54-59 | the ORDER BY relation for the requested key and direction is a total preorder |
| Crud.NullableLe | app/db/crud.py:55-57 | defines ascending order on a nullable number, NULL after every value |
| Crud.KeyLe | app/db/crud.py:55-59 | defines the per-key comparison: id, danceability, tempo or track name |
| Crud.KeyLeTotalPreorder | app/db/crud.py:55-59 | each sort key, ascending and descending, is a total preorder, so ORDER BY on it is meaningful |
| Crud.Ordered | app/db/crud.py:54-59 | the ordered rows are a permutation of the filtered rows |
| Crud.OrderedSorted | app/db/crud.py:55-59 | the ordered rows are sorted by the requested column and direction, or by id when the column is not sortable |
| Text.ContainsIgnoringCase | app/db/crud.py:37-43 | defines ILIKE '%pat%': the lowercased pattern occurs in the lowercased text |
| Text.ReplaceChar | app/etl/load_csv.py:35 | every occurrence of the character is replaced and nothing else changes |
| Text.FirstField | app/etl/load_csv.py:36 | split(sep)[0]: a prefix without the separator, ended by the separator or the end of the text |
| Text.Strip | app/etl/load_csv.py:34 | str.strip(chars): the result is the slice of the input between the first and after the last character outside the set; it neither starts nor ends with a character of the set, and every character cut off is in the set |
| Text.Trim | app/etl/load_csv.py:30 | str.strip(): the result is the input with its leading and trailing whitespace removed: the slice between the first and after the last non-whitespace character, everything cut off being whitespace |
| Text.IsSpace | app/etl/load_csv.py:30 | defines the whitespace set of str.strip(): the characters str.isspace holds of |
| Text.Lower | app/etl/load_csv.py:42-43 | str.lower on ASCII: same length, each character lowered on its own |
| Text.StrLe | app/db/crud.py:56-57 | defines ORDER BY track_name: code-point lexicographic order, a prefix first |
| Crud.TrackToDict | app/db/crud.py:7-15 | every column of the row is copied to the output unchanged |
| Crud.Window | app/db/crud.py:62 | OFFSET/LIMIT returns min(limit, max(0, n - offset)) elements, starting at position offset |
| Crud.Page | app/db/crud.py:62 | the page holds min(limit, max(0, total - offset)) rows, the ordered rows from position offset on |
| Crud.Dicts | app/db/crud.py:63 | one output item per page row, in page order |
| Crud.GetTracks | app/db/crud.py:18-66 | total counts every filtered row; items are the window [offset, offset + limit) of the ordered rows; next_offset is offset + limit exactly when offset + limit < total |
| Crud.ItemsComeFromMatchingRows | app/db/crud.py:32-49 | every listed item is a table row that passes every active filter |
| Crud.ItemsWithinNumericBounds | app/db/crud.py:44-49 | min_danceability, tempo_min and tempo_max are inclusive bounds, and a NULL value never passes them |
| Crud.ItemsMatchTextFilters | app/db/crud.py:33-43 | a non-empty q occurs, ignoring case, in the name, the artist or a non-NULL album; a non-empty artist filter occurs in the artist |
| Crud.TotalIgnoresPagingAndSorting | app/db/crud.py:51-52 | the total depends only on the filters, not on limit, offset, sort or order |
| Crud.UnfilteredTotalIsTableSize | app/db/crud.py:33-52 | with no active filter (an empty q or artist counts as none) the total is the table size |
| Crud.InvertedTempoRangeIsEmpty | app/db/crud.py:46-49 | tempo_min > tempo_max gives no items, total 0 and no next offset |
| Crud.InListedOrder | app/db/crud.py:54-63 | defines the order the client sees between two items for a sort column and direction |
| Crud.OrderingIsListedOrder | app/db/crud.py:55-59 | two rows in sort order appear in the order the client expects for the sort column and direction |
| Crud.ItemsInListedOrder | app/db/crud.py:54-63 | the items of a page are ordered by the sort column, descending exactly for order "desc", and by ascending id otherwise |
| Crud.DefaultOrderIsInsertionOrder | app/db/crud.py:58-59 | with ids increasing in table order, the default id order is the order the rows were inserted |
| Crud.ArtistColumn | app/db/crud.py:72 | the artist column, row by row |
| Crud.Occurrences | app/db/crud.py:72 | count(*) of an artist's group is the number of times the artist occurs in the artist column |
| Crud.Artists | app/db/crud.py:73 | the GROUP BY keys: every artist of the table, each exactly once |
| Crud.Groups | app/db/crud.py:72-73 | one (artist, count) pair per key, with the count being the number of rows of that artist |
| Crud.Ranked | app/db/crud.py:74 | the groups, permuted into descending order of count |
| Crud.GetTopArtists | app/db/crud.py:69-78 | the first min(limit, number of artists) ranked groups |
| Crud.OccurrencesPositive | app/db/crud.py:72-73 | an artist present in the table has a count of at least 1 |
| Crud.TopArtistsCounts | app/db/crud.py:72-78 | every reported count is the number of rows of that artist, and at least 1 |
| Crud.TopArtistsDistinct | app/db/crud.py:73 | no artist is reported twice |
| Crud.TopArtistsNonIncreasing | app/db/crud.py:74 | counts never increase along the report |
| Crud.TopArtistsAreTop | app/db/crud.py:74-75 | an artist missing from the report has no more rows than any reported artist |
| Crud.SumCountsInsert | app/db/crud.py:74 | inserting a group into the ranking adds its count to the sum |
| Crud.SumCountsSort | app/db/crud.py:74 | sorting the groups keeps the sum of the counts |
| Seqs.NoDupOnce | app/db/crud.py:73 | a key of a duplicate-free key list occurs in it exactly once |
| Crud.SumGroupsHead | app/db/crud.py:72-73 | one more row adds one to the count of its own artist's group only |
| Crud.SumGroupsEmpty | app/db/crud.py:72-73 | an empty table gives zero counts |
| Crud.SumGroupsCoversRows | app/db/crud.py:72-73 | counting every row under its artist's key accounts for every row exactly once |
| Crud.TopArtistsCountEveryRow | app/db/crud.py:69-78 | with a limit no smaller than the number of artists, every artist is reported and the counts add up to the row count |
| Crud.GetSummary | app/db/crud.py:81-90 | total_tracks is 0 for an empty table; a missing average reads as 0.0 |
| Crud.SummaryTotalAgrees | app/db/crud.py:83 | total_tracks equals the unfiltered listing's total and the sum of the complete artist report's counts |
| Loader.IsIndexColumn | app/etl/load_csv.py:15 | defines the index-column test: the lowercased name starts with "unnamed" |
| Loader.DropFirstColumn | app/etl/load_csv.py:16 | dropping a column keeps every row and leaves the frame rectangular |
| Loader.ReadCsv | app/etl/load_csv.py:13-17 | a frame with columns is read; the rows are kept and the frame stays rectangular |
| Loader.ReadCsvDropsOnlyIndexColumn | app/etl/load_csv.py:15-16 | exactly the first column is dropped, and only when its lowercased name starts with "unnamed"; the remaining columns and cells keep their order |
| Loader.FindColumn | app/etl/load_csv.py:21 | the dictionary keyed by lowercased names finds the last column with that lowercased name, or none when no column has it |
| Loader.LocateColumns | app/etl/load_csv.py:21-28 | succeeds exactly when all five required columns are present, ignoring case, each located column having that lowercased name; otherwise fails on a missing one, every column looked up before it being present |
| Loader.AsText | app/etl/load_csv.py:30-38 | defines astype(str): a missing cell becomes "nan", text stays as it is |
| Loader.ToNumber | app/etl/load_csv.py:26-27 | defines to_numeric(errors="coerce"): parsed text, NULL for a missing or unparseable cell |
| Loader.IsBracketOrQuote | app/etl/load_csv.py:34 | defines the character set of strip("[]'\"") |
| Loader.NormalizeArtist | app/etl/load_csv.py:31-37 | defines the artist clean-up: strip brackets and quotes, ';' to ',', first field, trim |
| Loader.NormalizeRow | app/etl/load_csv.py:22-38 | defines one normalised row: trimmed name, cleaned artist, trimmed album as text, parsed numbers |
| Loader.Keep | app/etl/load_csv.py:41-44 | defines the drop rule: name and artist non-empty and not "nan" in any case |
| Loader.AllNormalized | app/etl/load_csv.py:22-38 | one normalised row per input row, in order |
| Loader.Normalize | app/etl/load_csv.py:20-49 | fails exactly when a required column is missing; otherwise the result is the drop rule applied to every row normalised at the located columns, and kept plus dropped rows equal the input rows |
| Loader.Sift | app/etl/load_csv.py:40-45 | dropped plus kept equals the number of normalised rows |
| Loader.SiftKeepsPassingRows | app/etl/load_csv.py:40-45 | kept rows are exactly the rows passing the drop rule, in multiplicity; dropped is the number that fail it |
| Loader.SiftConcat | app/etl/load_csv.py:40-45 | the drop rule applied to two runs of rows is the drop rule applied to them together |
| Loader.NormalizeConcat | app/etl/load_csv.py:22-45 | at the same located columns, normalising two parts of a file separately and concatenating gives the same kept rows, in order, and the dropped counts add up |
| Loader.KeptRowsHaveNameAndArtist | app/etl/load_csv.py:30-44 | every kept row has a non-empty name without surrounding whitespace and a single artist name (no ',' or ';') without surrounding whitespace, neither "nan" in any letter case |
| Loader.KeepIgnoresNumbers | app/etl/load_csv.py:26-27 | the drop rule does not look at danceability or tempo, so an unparseable number never removes a row |
| Loader.MissingCellsReadAsNan | app/etl/load_csv.py:30-38 | a missing name or artist cell reads as "nan" and its row is dropped; a missing album is stored as "nan"; a missing number is NULL |
| Loader.BlankNameIsDropped | app/etl/load_csv.py:30 | a name of only whitespace trims to empty and the row is dropped |
| Loader.FirstArtistIsPrefix | app/etl/load_csv.py:35-36 | the first field after replacing ';' by ',' is a prefix of the text that holds neither separator |
| Loader.NormalizedArtistIsOneName | app/etl/load_csv.py:31-37 | the normalised artist contains no ',' or ';' and has no surrounding whitespace |
| Loader.NormalizedArtistOccursInCell | app/etl/load_csv.py:31-37 | the normalised artist is a contiguous part of the original cell |
| Loader.PlainArtistUnchanged | app/etl/load_csv.py:31-37 | a single name without separators, end quotes, brackets or end whitespace is left unchanged |
| Loader.StripListBrackets | app/etl/load_csv.py:34 | strip("[]'\"") on "['Drake', 'Rihanna']" removes only the outer brackets and quotes |
| Loader.FirstListedField | app/etl/load_csv.py:36 | split(",")[0] of "Drake', 'Rihanna" is "Drake'" |
| Loader.ListedArtistsKeepTrailingQuote | app/etl/load_csv.py:31-37 | "['Drake', 'Rihanna']" normalises to "Drake'", with the trailing quote kept |
| Loader.Batches | app/etl/load_csv.py:67-69 | defines the slices df.iloc[start:start + 500] for start in range(0, n, 500) |
| Loader.BatchesConcat | app/etl/load_csv.py:67-75 | the batches, concatenated, are exactly the rows in order |
| Loader.BatchesCount | app/etl/load_csv.py:67-68 | range(0, n, 500) gives ceil(n / 500) batches |
| Loader.BatchAt | app/etl/load_csv.py:68-69 | batch k is df.iloc[500 k:500 k + 500], starting inside the rows and holding 1 to 500 of them |
| Loader.BatchesShape | app/etl/load_csv.py:67-69 | there are ceil(n / 500) batches; batch k is the slice starting at 500 k and holds 1 to 500 rows |
| Loader.BatchStep | app/etl/load_csv.py:68-69 | the batches from a start offset are the slice at that offset followed by the batches after it |
| Loader.AppendedStep | app/etl/load_csv.py:68-74 | appending the next slice after the rows before it appends the rows up to the slice's end |
| Loader.Prepare | app/etl/load_csv.py:60 | _normalize(_read_csv(path)) fails exactly when the file has no column or lacks a required one; otherwise kept plus dropped rows equal the file's rows |
| Loader.AfterLoad | app/etl/load_csv.py:62-74 | defines the table after a load: truncated when replace is set, then the rows appended |
| Loader.LoadKeepsExistingRows | app/etl/load_csv.py:67-74 | a load without replace keeps every existing row in place and adds the new rows after them |
| Loader.LoadTwiceDuplicates | app/etl/load_csv.py:67-74 | loading the same rows twice without replace stores each of them twice |
| Loader.ReplaceForgetsPriorRows | app/etl/load_csv.py:62-74 | after a load with replace the table holds exactly the new rows, whatever it held before |
| Loader.AppendInBatches | app/etl/load_csv.py:67-75 | the insert loop appends all the rows in order, in ceil(n / 500) batches of at most 500 rows, and keeps the table well formed |
| Loader.LoadCsv | app/etl/load_csv.py:52-77 | a read or column error leaves the table untouched; otherwise the table is truncated when asked and then holds the normalised rows appended, and the report gives the loaded and dropped counts and the number of inserts |
| Api.WithDefaults | app/api/tracks.py:9-17 | defines the defaults: limit 50, offset 0, order "desc"; every other parameter as given |
| Api.ListErrors | app/api/tracks.py:9-17 | defines the broken constraints, in parameter order |
| Api.ValidateListTracks | app/api/tracks.py:7-18 | accepts exactly when limit (default 50) is in 1..500, offset (default 0) is at least 0, min_danceability is absent or in [0, 1], sort is absent or one of the three columns, and order (default "desc") is "asc" or "desc"; every broken constraint is reported; an accepted request is forwarded field by field unchanged |
| Api.ListTracks | app/api/tracks.py:19-29 | rejected with the validation errors exactly when validation fails; otherwise the page is get_tracks of the validated query, so at most limit (at most 500) items and the total of the filtered rows |
| Api.ListDefaults | app/api/tracks.py:9-18 | a request without parameters is accepted, its total is the table size, it lists min(50, total) items with a next offset exactly when the table has more than 50 rows, and in a table whose ids increase in row order those items are the first rows of the table |
| Api.InvertedTempoRangeAccepted | app/api/tracks.py:14-15 | tempo_min > tempo_max is not rejected and gives an empty page with total 0 and no next offset |
| Api.TopArtists | app/api/tracks.py:31-33 | accepts exactly a limit (default 10) in 1..100, reporting only BadLimit otherwise; an accepted limit is forwarded unchanged to get_top_artists, so the report is the first min(limit, number of artists) groups of the ranking |

## Left out

- The SQL engine, sessions and connections are replaced by a sequence of rows. Table creation (`Base.metadata.create_all`) is a no-op on an existing table and is not modelled.
- The database decides where NULLs go and how ties are broken. The model sorts with one deterministic insertion sort, with NULL last when ascending as PostgreSQL does. The ordering lemmas constrain only non-NULL keys and the listed column.
- `ILIKE` wildcards: a `%` or `_` inside `q` or `artist` is treated as a literal character, and matching is substring search.
- Python's `str.lower`, and the database's case folding, are modelled only for ASCII letters.
- Crud.KeyLe: `ORDER BY track_name` is modelled as code-point order (the C collation). Under a locale collation such as en_US.UTF-8 the database may order names differently, for example "apple" before "Banana"; `Crud.OrderedSorted`, `Crud.OrderingIsListedOrder` and `Crud.ItemsInListedOrder` state the code-point order.
- Models.Truncated: keeping the identity counter is PostgreSQL's `TRUNCATE` without `RESTART IDENTITY`. Other engines (MySQL resets AUTO_INCREMENT) would restart ids at 1; the source does not name its engine.
- Crud.Matches: `LIKE`/`ILIKE` treat a backslash in `q` or `artist` as an escape character; the model treats it as a literal character.
- Loader.LocateColumns: the code raises `KeyError: None` on the first missing column it looks up (`cols.get` returns None); the model reports that column by name as `MissingColumn`, a payload the code does not produce.
- Averages in `get_summary` are floating-point means computed by the database. They are parameters of `Crud.GetSummary`; only the total is modelled.
- Crud.GetSummary: states only that total_tracks is 0 on an empty table and that a missing average reads as 0.0. The rest of its promise is stated by `Crud.SummaryTotalAgrees`.
- CSV parsing is outside the model: a file is its header and cells, with None for a missing cell. Number parsing (`pd.to_numeric`) is the `parse` parameter.
- The printed progress messages are left out, except the counts `load_csv` prints, which `Loader.LoadCsv` returns as its report.
- The command-line entry point `main`, its argument parsing and its usage error are left out.
- A failure of the database in the middle of a load is left out. Each batch is modelled as succeeding.
- FastAPI's type coercion of query strings to `int`/`float`, and the HTTP 422 response format, are left out. Parameters arrive already typed, and errors are a list of the broken constraints.
- The `pattern` constraints on `sort` and `order` are modelled as exact membership in the allowed words. A regular-expression engine whose `$` accepts a trailing newline would also accept such a word followed by a newline.
- The `/stats/summary` route forwards to `get_summary` with no parameters. That route is `Crud.GetSummary`.
- `/health` in app/api/main.py is a constant response and is not part of this model.
- Crud.GetTracks: the count (app/db/crud.py:52) and the page (app/db/crud.py:62) are two statements, each with its own snapshot under READ COMMITTED; the model evaluates both on one table state, so it assumes no load commits between them.
- Crud.GetTracks: requires limit >= 0 and offset >= 0. The function is only ever called through validation that ensures this, and a negative OFFSET or LIMIT is a database error that is not modelled.
- Crud.GetTopArtists: requires limit >= 0 for the same reason.
