# AWS-Data-Paulina table transforms, modelled in Dafny

The repository is mostly Streamlit, boto3 and plotting code. Underneath that UI
are four small, deterministic table transforms. This project models each of
them with its state changes and proves what its outputs contain.

- **Server status monitor** (`semana_uno/app_raw.py`), module `ServerMetrics` in `server_metrics.dfy`.
  - The S3 fetch keeps only `.json` keys. It downloads them in listing order and concatenates their records.
  - Any failure yields an empty batch.
  - The status tally counts `OK`/`WARN`/`ERROR` per server, with missing columns back-filled with 0.
  - The page shows totals, the detail table and a 10-row preview.
  - The `last_update` session value serves as the cache key.
- **Serverless CSV transform** (`proyecto_final/lambda.py`), module `LambdaTransform` in `lambda_transform.dfy`.
  - The handler checks the event fields and reads the object.
  - It adds the weekly-minutes column and the half-open age segment column in place, projects 12 columns, derives the `processed/` key and returns 400/500/200.
- **Segmented player dashboard** (`app.py`), module `SegmentFilter` in `segment_filter.dfy`.
  - Mode, gender and inclusive age filtering.
  - Purchaser count.
  - The "active filters" caption.
  - The stop on an empty segment.
  - The most popular genre.
- **Anime KPIs** (`actividades_completas/app_crunchy.py`), module `AnimeKpis` in `anime_kpis.dfy`.
  - In-place cleaning: null defaults and the genre list split.
  - Explosion to one row per genre.
  - Genre and type tables grouped and sorted in descending order.
  - `head` and `nlargest` selection.
  - The 40-character name truncation.

Two shared modules support them:
- `wrappers.dfy` holds `Option`.
- `text.dfy` models the Python string operations the code relies on: `str` ordering, `split`/`join`, `replace`, `os.path.basename` and `str(int)`.

Where the code changes state step by step, the model does too:
- the download loop appending to `data_frames`;
- the column back-fill loop;
- the session's `last_update`;
- the lambda's `df` gaining columns (class `PlayerFrame`);
- `filtered_df` being reassigned filter by filter;
- the `filter_text` list;
- the anime table's columns being overwritten (class `AnimeFrame`).

Most such methods are proved equal to a specification function, and the properties are proved about those functions. The exceptions are `AddMissingStatusColumns` and `Session.KeyForThisRun`: their contracts state the new state directly.

External inputs become parameters:
- An S3 listing is a `Listing` value. Each listed object carries its key and either its decoded records or `None` when reading or parsing it raises.
- The lambda's `get_object` + `read_csv` is a function parameter `read`, returning an error message or the rows. The `put_object` call becomes the returned `Upload` value; the upload itself cannot fail in the model.
- The clock reading `datetime.now()` and the button press are parameters of `Session.KeyForThisRun`.

## Model

| member | source | states |
|---|---|---|
| Text.LessTotal | semana_uno/app_raw.py:75 | two different strings are ordered one way or the other by Python's code-point string comparison, the order of the grouped `server_id` index |
| Text.LessTransitive | semana_uno/app_raw.py:75 | Python string comparison is transitive |
| Text.JoinSplit | actividades_completas/app_crunchy.py:21 | joining the pieces of `str.split(sep)` with `sep` gives back the original text |
| Text.SplitFirstIsPrefix | actividades_completas/app_crunchy.py:21 | the first piece of `str.split(sep)` is a prefix of the text |
| Text.SplitPiecesAvoidSeparator | actividades_completas/app_crunchy.py:21 | no piece of `str.split(sep)` contains `sep`, so with the join property the pieces are the separator-free runs between cuts |
| Text.SplitWithoutSeparatorChar | actividades_completas/app_crunchy.py:21 | a text lacking the separator's first character splits into the one-element list of itself |
| Text.ReplaceIntroducesNothing | proyecto_final/lambda.py:75 | `str.replace` introduces no character absent from both the text and the replacement |
| Text.ReplaceFinalOccurrence | proyecto_final/lambda.py:75 | when the pattern occurs in `stem + pat` only at its end, `replace` changes just that ending into the replacement |
| Text.OnlyFinalOccurrence | proyecto_final/lambda.py:75 | a stem without the pattern's first character holds no occurrence of the pattern before the appended one |
| Text.Basename | proyecto_final/lambda.py:74 | `os.path.basename` returns a slash-free suffix of the path, preceded by `/` when it is not the whole path |
| Text.BasenameAfterSlash | proyecto_final/lambda.py:74 | the basename of `dir/name` is `name` when `name` has no slash |
| Text.BasenameOfFile | proyecto_final/lambda.py:74 | the basename of a slash-free name placed after a directory ending in `/`, or after nothing, is the name |
| Text.IntToStringRoundTrip | app.py:179 | `str(i)` of any integer parses back to `i` |
| ServerMetrics.JsonObjects | semana_uno/app_raw.py:41-43 | the `.json` selection never lengthens the listing |
| ServerMetrics.JsonObjectsMembers | semana_uno/app_raw.py:41-43 | an object is fetched if and only if it is listed and its key ends in `.json` |
| ServerMetrics.AllOrNothing | semana_uno/app_raw.py:29-64 | the downloads yield frames if and only if every selected file was read; the frames are then the files' records, one per file, in order |
| ServerMetrics.Concat | semana_uno/app_raw.py:52-53 | the concatenated batch's length is the sum of the per-file lengths, and it contains every record of every file |
| ServerMetrics.Fetch | semana_uno/app_raw.py:29-64 | a non-empty batch comes only from a listing with `Contents` and with no notice; the no-files warning appears exactly when the listing has no `Contents`; a failed listing gives the error notice |
| ServerMetrics.DownloadJsonFiles | semana_uno/app_raw.py:40-49 | the download loop over the listing returns exactly the all-or-nothing frames of its `.json` objects |
| ServerMetrics.FetchBatch | semana_uno/app_raw.py:29-64 | the fetch routine returns the batch and notice of the specification `Fetch`: a warning for no `Contents`, an error and empty batch on any failure, else the concatenation |
| ServerMetrics.JsonObjectsStep | semana_uno/app_raw.py:41-49 | each loop step appends the current object to the selection exactly when its key ends in `.json` |
| ServerMetrics.FailedFileAborts | semana_uno/app_raw.py:44-49 | a single unreadable `.json` file makes the whole download fail |
| ServerMetrics.JsonObjectsIdempotent | semana_uno/app_raw.py:43 | selecting `.json` keys twice selects the same files as once |
| ServerMetrics.FetchIgnoresOtherKeys | semana_uno/app_raw.py:41-44 | removing the non-`.json` objects from a listing does not change the fetch result |
| ServerMetrics.FetchedFilesInListingOrder | semana_uno/app_raw.py:41-49 | the files of a listing split in two are the first part's files followed by the second part's |
| ServerMetrics.FetchWithoutFilesIsEmpty | semana_uno/app_raw.py:34-60 | a listing without `Contents` (with a warning) or without `.json` keys (silently) yields an empty batch |
| ServerMetrics.FetchFailureEmptiesBatch | semana_uno/app_raw.py:29-64 | any unreadable `.json` file yields an empty batch with the error notice, never a partial merge |
| ServerMetrics.FetchConcatenatesFiles | semana_uno/app_raw.py:52-58 | when every `.json` file is read, the batch is the files' records concatenated in listing order, with the summed length |
| ServerMetrics.InsertId | semana_uno/app_raw.py:75 | inserting an id into the sorted, distinct index keeps it sorted and distinct and adds exactly that id |
| ServerMetrics.ServerIds | semana_uno/app_raw.py:75 | the group index is strictly ascending and holds exactly the server ids present in the batch |
| ServerMetrics.Unstack | semana_uno/app_raw.py:75-78 | `value_counts().unstack(fill_value=0)` has its rows indexed by the distinct servers in ascending order and one column per status present; each cell is the number of records with that server and status, and 0 when the server has no record of that status |
| ServerMetrics.CountOfAbsentStatus | semana_uno/app_raw.py:78-85 | a status absent from the batch counts 0 for every server, so a back-filled 0 column is its true count |
| ServerMetrics.AddMissingStatusColumns | semana_uno/app_raw.py:82-85 | the back-fill loop adds each missing `OK`/`WARN`/`ERROR` column as zeros and leaves existing columns and the index unchanged |
| ServerMetrics.GenerateStatusMetrics | semana_uno/app_raw.py:66-90 | the tally is the status-only frame if and only if the batch is empty, and otherwise the per-server table `StatusTally` |
| ServerMetrics.StatusTally | semana_uno/app_raw.py:75-78 | the tally rows are in strictly ascending `server_id` order and there is a row for a server if and only if it occurs in the batch |
| ServerMetrics.TallyCells | semana_uno/app_raw.py:75-85 | each `OK`/`WARN`/`ERROR` cell is the number of records with that server and status, and 0 when there are none |
| ServerMetrics.CountOfNoMatch | semana_uno/app_raw.py:78 | a server without records of a status counts 0 for it |
| ServerMetrics.TallyColumnTotals | semana_uno/app_raw.py:134-136 | the sum of a status column of the tally equals the number of records with that status in the batch |
| ServerMetrics.StatusesPartitionBatch | semana_uno/app_raw.py:82-87 | the three counted statuses plus the dropped other statuses account for every record of the batch |
| ServerMetrics.Tail | semana_uno/app_raw.py:158 | the preview is the last `min(10, len)` records of the batch, in order |
| ServerMetrics.Render | semana_uno/app_raw.py:125-161 | an empty batch shows only the warning; otherwise the page shows the three column totals, the tally and the 10-row tail |
| ServerMetrics.Session.constructor | semana_uno/app_raw.py:112-114 | a new session has no `last_update` |
| ServerMetrics.Session.KeyForThisRun | semana_uno/app_raw.py:104-117 | the button sets `last_update` to now; without it an absent value is initialised to now and a present one is kept; the cache key is the new value |
| ServerMetrics.RunOnce | semana_uno/app_raw.py:104-161 | one script run: the cache key is now after a button press or on the first run, else the kept `last_update`; the batch is the fetch result; the page is the warning exactly when the batch is empty, and otherwise shows the three status totals, the per-server tally and the 10-row tail |
| LambdaTransform.CutLeftClosed | proyecto_final/lambda.py:52-54 | `pd.cut(right=False)` gives bin `k` exactly when `bins[k] <= x < bins[k+1]`, and no bin when x is outside `[bins[0], bins[last])` |
| LambdaTransform.AgeSegmentOf | proyecto_final/lambda.py:52-54 | ages in [18,25), [25,35), [35,99) get the three labels in order; ages below 18 or from 99 up get none; each in both directions |
| LambdaTransform.AgeSegmentMonotone | proyecto_final/lambda.py:52-54 | an older player never gets an earlier segment |
| LambdaTransform.WeeklyMinutes | proyecto_final/lambda.py:48 | the new column has one value per row, `SessionsPerWeek * AvgSessionDurationMinutes` |
| LambdaTransform.AgeSegments | proyecto_final/lambda.py:54 | the segment column has one entry per row, the bucket of its age |
| LambdaTransform.PlayerFrame.constructor | proyecto_final/lambda.py:36 | the loaded frame holds the rows and neither derived column |
| LambdaTransform.PlayerFrame.AddWeeklyPlayTime | proyecto_final/lambda.py:48 | adding the column in place sets it to the per-row product and changes nothing else |
| LambdaTransform.PlayerFrame.AddAgeSegment | proyecto_final/lambda.py:54 | adding the column in place sets it to the per-row segment and changes nothing else |
| LambdaTransform.PlayerFrame.Processed | proyecto_final/lambda.py:57-62 | projecting the frame once both columns have been added gives exactly the specification `Transform` of its rows |
| LambdaTransform.Transform | proyecto_final/lambda.py:48-62 | the processed table keeps the row count and order; each row keeps `PlayerID` and the nine other carried columns unchanged, has the weekly product `SessionsPerWeek * AvgSessionDurationMinutes`, and has its age bucket, present exactly when 18 <= age < 99 |
| LambdaTransform.NewKey | proyecto_final/lambda.py:73-75 | the new key starts with `processed/` and has no further `/`, so the file lies directly in that folder |
| LambdaTransform.NewKeyOfCsvFile | proyecto_final/lambda.py:74-75 | a key `dir/stem.csv` or `stem.csv`, with `.csv` only at its end, maps to `processed/stem_processed.csv` |
| LambdaTransform.NewKeyOfStem | proyecto_final/lambda.py:73-75 | a file name `stem.csv` without a directory, whose stem has no `/` or `.`, maps to `processed/stem_processed.csv` (so `online_gaming_insights.csv`, the file the source names in its comment, maps to `processed/online_gaming_insights_processed.csv`) |
| LambdaTransform.NewKeyWithoutCsv | proyecto_final/lambda.py:74-75 | a basename without `.csv` is moved into `processed/` unchanged |
| LambdaTransform.Locate | proyecto_final/lambda.py:18-27 | the event points at an object exactly when `Records` is present and non-empty and its first record has a bucket name and a key, which are the ones used; an empty `Records` list is told apart from a missing field |
| LambdaTransform.LambdaHandler | proyecto_final/lambda.py:14-90 | a missing bucket or key answers 400 and nothing is uploaded; an empty `Records` list raises; a read failure answers 500 and nothing is uploaded; otherwise the transformed rows go to the same bucket under the new key and the answer is 200 naming it |
| SegmentFilter.Segment | app.py:56-89 | the reference segment is never longer than the table; every row of it is a row of the table that matches the gender (unless `Todos`) and the inclusive age range; a matching row occurs in it exactly as often as in the table, and a non-matching row not at all |
| SegmentFilter.KeepGender | app.py:83-84 | the gender filter keeps each row whose `Gender` equals the choice exactly as often as it occurs in the table and drops every other row, so it is never longer than the table |
| SegmentFilter.KeepAges | app.py:86-89 | the age filter keeps each row with `lo <= Age <= hi` (both ends inclusive) exactly as often as it occurs in the table and drops every other row, so it is never longer than the table |
| SegmentFilter.KeepAgesCons | app.py:86-89 | the age filter treats the rows one by one, in order |
| SegmentFilter.GenderThenAgesMakeSegment | app.py:83-89 | a gender filter followed by the age filter gives the reference segment |
| SegmentFilter.AgesMakeSegment | app.py:86-89 | with `Todos`, the age filter alone gives the reference segment |
| SegmentFilter.FilterRows | app.py:56-89 | in "Vista General" `filtered_df` is the whole table; in "Análisis Filtrado" it is the reference segment for the chosen gender and age range |
| SegmentFilter.SegmentMembers | app.py:83-89 | a row is in the segment if and only if it is in the table and matches the gender (unless `Todos`) and the inclusive age range |
| SegmentFilter.SegmentIsSubsequence | app.py:73-89 | the filtered table is a subsequence of the table, in original order |
| SegmentFilter.MinAge | app.py:73 | the slider minimum is at most every age and is some row's age |
| SegmentFilter.MaxAge | app.py:73 | the slider maximum is at least every age and is some row's age |
| SegmentFilter.SegmentOfEveryRow | app.py:83-89 | when every row matches, the segment is the whole table |
| SegmentFilter.DefaultFiltersKeepEverything | app.py:73-89 | with `Todos` and the default slider range the filtered table equals the table |
| SegmentFilter.Purchasers | app.py:102 | the purchaser count is at most the row count; it is 0 exactly when nobody buys and the row count exactly when everybody buys |
| SegmentFilter.GenreCount | app.py:234-235 | a genre's count is at most the row count |
| SegmentFilter.GenreCountPositive | app.py:234-235 | every present genre counts at least 1 |
| SegmentFilter.MostPopularFrom | app.py:234-235 | the chosen genre occurs among the rows searched and no genre there occurs more often |
| SegmentFilter.MostPopularGenre | app.py:234-235 | the most popular genre occurs in the segment; its count is its number of rows, between 1 and the row count; no genre has more rows |
| SegmentFilter.ActiveFiltersLabel | app.py:176-181 | the caption built by appending to `filter_text` and joining with a space-bar-space separator is the gender part `Género: g`, the separator and `Edad: lo-hi años` when g is not `Todos`, else `Edad: lo-hi años` alone |
| SegmentFilter.Dashboard | app.py:41-235 | an empty table stops the page. The general view shows the row and purchaser counts. An empty segment stops after the caption with 0 rows. Otherwise the KPIs are the segment's size, its purchasers and its most popular genre with its maximal count |
| AnimeKpis.FillNa | actividades_completas/app_crunchy.py:18-20 | `fillna` keeps the column length, puts the default in every missing cell and leaves present cells unchanged |
| AnimeKpis.SplitGenres | actividades_completas/app_crunchy.py:21 | `genre_list` has one list per row, that row's genre split on `, ` |
| AnimeKpis.AnimeFrame.constructor | actividades_completas/app_crunchy.py:12-15 | the loaded frame holds the read columns and no `genre_list` |
| AnimeKpis.AnimeFrame.Clean | actividades_completas/app_crunchy.py:18-21 | the cleaning overwrites `rating` with 0 and `genre`/`type` with `unknown` where missing, adds `genre_list`, leaves the other columns alone, and leaves no missing cell |
| AnimeKpis.AnimeFrame.Rows | actividades_completas/app_crunchy.py:18-21 | the cleaned frame read row by row has one record per row holding that row's cells, and each record's genre list is its genre text split on `, `, never empty |
| AnimeKpis.CleanedGenreList | actividades_completas/app_crunchy.py:19-21 | after cleaning, a missing genre has the list `["unknown"]`, and every genre list is non-empty and joins back to its genre text |
| AnimeKpis.Explode | actividades_completas/app_crunchy.py:24 | every exploded row is an anime of the table paired with one of the genres in its list |
| AnimeKpis.LoadAndExplode | actividades_completas/app_crunchy.py:12-24 | loading, cleaning in place and reading back gives one row per input row with its cells filled (`unknown` for a missing genre or type, 0 for a missing rating) and its genre list split from the filled genre; `genres_expanded` is the explosion of those rows, one row per genre of every list |
| AnimeKpis.ExplodeLength | actividades_completas/app_crunchy.py:21-24 | the exploded length is the sum of the list lengths |
| AnimeKpis.ExplodeMembers | actividades_completas/app_crunchy.py:24 | an exploded row is an anime of the table paired with one of its genres, and every such pair occurs |
| AnimeKpis.Keys | actividades_completas/app_crunchy.py:71 | the group keys are distinct and are exactly the keys that occur in the rows |
| AnimeKpis.GroupByKey | actividades_completas/app_crunchy.py:71-75 | the grouped table has distinct keys and a row for a key if and only if the key occurs; each row has that key's row count, at least 1, and its `members` sum |
| AnimeKpis.KeyCountPositive | actividades_completas/app_crunchy.py:71-75 | a key that occurs among the grouped rows is counted at least once |
| AnimeKpis.InsertDesc | actividades_completas/app_crunchy.py:75 | inserting into a sorted table adds exactly that row, leading with it or with the old first row |
| AnimeKpis.SortDesc | actividades_completas/app_crunchy.py:75 | the descending sort is a permutation of its input, ordered largest key first |
| AnimeKpis.Head | actividades_completas/app_crunchy.py:77 | `head(n)` is a prefix of length `min(n, len)` for n >= 0 and `max(0, len + n)` for negative n |
| AnimeKpis.GenreStats | actividades_completas/app_crunchy.py:71-75 | `genre_stats` is ordered by `members` descending and holds exactly the rows of the genre grouping of the exploded table |
| AnimeKpis.GenreStatsCorrect | actividades_completas/app_crunchy.py:71-75 | the genre table is ordered by `members` descending and has exactly one row per occurring genre, whose count is its number of exploded rows and whose `members` is their sum |
| AnimeKpis.GroupCountsCoverRows | actividades_completas/app_crunchy.py:71-75 | the counts over all groups add up to the number of rows grouped, so every exploded row is counted once |
| AnimeKpis.TopGenres | actividades_completas/app_crunchy.py:77 | `top_genres` has at most `top_n` rows (exactly `top_n` when there are enough) and is a prefix of the sorted genre table |
| AnimeKpis.Rated | actividades_completas/app_crunchy.py:34-37 | the rated rows are the rows with `rating > 0`, each as often as it occurs in the table, and no other row; they are no more than the table |
| AnimeKpis.RatingCounts | actividades_completas/app_crunchy.py:36-37 | `animes_con_rating <= total_animes`, with equality exactly when every anime has a positive rating |
| AnimeKpis.TypeStats | actividades_completas/app_crunchy.py:106-110 | `type_stats` is ordered by count descending and holds exactly the rows of the type grouping of the rated rows |
| AnimeKpis.TypeStatsCorrect | actividades_completas/app_crunchy.py:106-110 | the type table is ordered by count descending, has one row per type among the rated rows, and counts only rated rows |
| AnimeKpis.TopAnimes | actividades_completas/app_crunchy.py:143-149 | the ranking has `min(top_n, len)` rows for positive `top_n` and none otherwise; its rows are a sub-multiset of the table's `name`, `rating`, `members`, `type` projections, so no row is shown more often than it occurs; they are in descending `rating` order when `criterio == 'rating'`, else descending `members` order |
| AnimeKpis.TopRows | actividades_completas/app_crunchy.py:143-146 | the four-column projection keeps the row count and projects each row in place |
| AnimeKpis.TopRowsPermutation | actividades_completas/app_crunchy.py:143-146 | projecting two permutations of the same rows gives permutations of each other |
| AnimeKpis.LargestProjection | actividades_completas/app_crunchy.py:143-146 | the projected `nlargest` rows are a sub-multiset of the projected table |
| AnimeKpis.Largest | actividades_completas/app_crunchy.py:144-149 | `nlargest(n)` has `min(n, len)` rows for positive n and none otherwise |
| AnimeKpis.LargestAreLargest | actividades_completas/app_crunchy.py:144-149 | the ranked rows are a sub-multiset of the table (no row taken more often than it occurs) in descending order of `rating` (when `criterio == 'rating'`) or `members` (otherwise); no anime left out ranks above one shown |
| AnimeKpis.ShortName | actividades_completas/app_crunchy.py:156 | a name over 40 characters is shown as its first 37 and `...`, exactly 40; a name of 40 or fewer is shown unchanged |

## Left out

- Streamlit, matplotlib, seaborn and ipywidgets rendering, layout, toasts, `time.sleep(10)` and `st.rerun()`: UI plumbing with no table semantics.
- boto3 calls and the network: the listing, the per-object payloads, the lambda's read and its upload are inputs and outputs of the model.
- LambdaTransform.LambdaHandler: a failing `to_csv` or `put_object` (lambda.py lines 71-82, outside any `try`) raises out of the handler; the model does not represent that failure and answers 200 whenever the read succeeds.
- `st.cache_data(ttl=60)` memoisation: library behaviour. The model computes the cache key (`last_update`) but the fetch takes no key; every run fetches anew, which is what a cache miss does.
- `json.loads`, `pd.json_normalize`, `pd.read_csv`, `to_csv` and `urllib.parse.unquote_plus`: foreign parsers and encoders. Records and keys are taken as already decoded.
- `pd.to_datetime` in the fetch: a timestamp that fails to parse is folded into the per-file read failure. A non-empty set of files whose records are all empty leaves no `timestamp` column, so it takes the same error path.
- Timestamps and `datetime.now()` are integers, and there is no `strftime` formatting.
- Means, medians, percentages, deltas and `:.Nf` formatting (app.py lines 101-108 and 197-226; app_crunchy.py lines 34-35 and 72 and the `rating` mean of each group): floating-point numerics. `PlayTimeHours` is a `real` that only passes through.
- `json.dumps` of the response bodies: each body is the Python text before JSON quoting.
- `print` output and the KPI functions' `for` loops, which only print the rows they are given. The exception is the name truncation, which is `ShortName`.
- The highest-spending-genre insight and the charts after app.py line 236: floating-point means and plotting.
- A CSV missing a column the code reads (a `KeyError` inside the lambda's transform, which the handler does not catch): rows are typed records, so this cannot arise.
- The categorical dtype of `Gender`/`GameGenre` (app.py lines 32-33): it does not change which rows the filters keep.
- AnimeKpis.GenreStatsCorrect: groups with equal `members` have no prescribed order. pandas sorts the group keys and then sorts by a non-stable quicksort. The model orders groups by first appearance and sorts stably, and states only the descending order and the exact contents.
- AnimeKpis.TypeStatsCorrect: groups with equal counts have no prescribed order, for the same reason.
- SegmentFilter.MostPopularGenre: when several genres share the maximal count, `value_counts().index[0]` may name any of them. The model picks the first in row order and states only that the count is maximal.
- AnimeKpis.Largest: `nlargest` with n <= 0 is taken to give no rows. The dashboard's slider never passes such a value.
- LambdaTransform.Transform: `WeeklyPlayTimeMinutes` is an unbounded product; pandas computes it in int64 and would wrap around past 2^63, which the model does not show.
- AnimeKpis.GenreStats: the `members` sums are unbounded integers; pandas sums them in int64 and would wrap around past 2^63, which the model does not show.
- AnimeKpis.Explode: an element-free genre list is dropped, while pandas' `explode` keeps such a row with a NaN genre. After the cleaning every list has at least one element (`AnimeFrame.Rows`, `CleanedGenreList`), so the script never meets that input.
- ServerMetrics.StatusTally: the index order is Python code-point order on the decoded ids. pandas sorting of mixed-type ids is not modelled, since ids are strings.
