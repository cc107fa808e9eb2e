/**
 * The server-status dashboard that polls an S3 prefix (semana_uno/app_raw.py):
 * the fetch that merges every `.json` object into one batch, the per-server
 * status tally, the totals shown above the table, and the `last_update`
 * session value that keys the fetch.
 */
module ServerMetrics {
  import opened Wrappers
  import Text

  // ---------------------------------------------------------------------------
  // Data
  // ---------------------------------------------------------------------------

  /** One status observation, as `json_normalize` flattens it (the timestamp already parsed). */
  datatype Record = Record(serverId: string, status: string, timestamp: int)

  /**
   * One object listed under the prefix: its key, and what downloading and
   * parsing it yields (None when `get_object`, `json.loads`, `json_normalize`
   * or the timestamp conversion raises).
   */
  datatype StoredObject = StoredObject(key: string, payload: Option<seq<Record>>)

  /** What `list_objects_v2` gives: it raised, a response without `Contents`, or the listed objects in order. */
  datatype Listing = ListingFailed | NoContents | Contents(objects: seq<StoredObject>)

  /** The message shown beside the result: none, `st.warning` (no files) or `st.error` (an exception). */
  datatype Notice = Silent | NoFilesWarning | LoadError

  datatype FetchResult = FetchResult(batch: seq<Record>, notice: Notice)

  const JsonSuffix := ".json"

  predicate IsJsonKey(key: string)
  {
    Text.EndsWith(key, JsonSuffix)
  }

  // ---------------------------------------------------------------------------
  // Fetch (actualizar_datos_desde_s3)
  // ---------------------------------------------------------------------------

  /** The listed objects that are downloaded: the `.json` keys, in listing order. */
  function JsonObjects(objects: seq<StoredObject>): (files: seq<StoredObject>)
    ensures |files| <= |objects|
  {
    if objects == [] then []
    else
      var last := objects[|objects| - 1];
      JsonObjects(objects[..|objects| - 1]) + (if IsJsonKey(last.key) then [last] else [])
  }

  /** Exactly the listed objects with a `.json` key are downloaded. */
  lemma {:induction false} JsonObjectsMembers(objects: seq<StoredObject>)
    ensures forall o :: o in JsonObjects(objects) <==> o in objects && IsJsonKey(o.key)
  {
    if objects != [] {
      var front := objects[..|objects| - 1];
      JsonObjectsMembers(front);
      assert objects == front + [objects[|objects| - 1]];
    }
  }

  /** The per-file record lists in order, or None when any one file failed. */
  function AllOrNothing(files: seq<StoredObject>): (r: Option<seq<seq<Record>>>)
    ensures r.Some? <==> forall k :: 0 <= k < |files| ==> files[k].payload.Some?
    ensures r.Some? ==> |r.value| == |files|
    ensures r.Some? ==> forall k :: 0 <= k < |files| ==> r.value[k] == files[k].payload.value
  {
    if files == [] then Some([])
    else
      match AllOrNothing(files[..|files| - 1])
      case None => None
      case Some(frames) =>
        match files[|files| - 1].payload
        case None => None
        case Some(records) => Some(frames + [records])
  }

  /** Total number of records in a list of record lists. */
  function TotalLength(frames: seq<seq<Record>>): nat
  {
    if frames == [] then 0 else |frames[0]| + TotalLength(frames[1..])
  }

  /** `pd.concat(frames, ignore_index=True)`: the lists appended in order. */
  function Concat(frames: seq<seq<Record>>): (batch: seq<Record>)
    ensures |batch| == TotalLength(frames)
    ensures forall k :: 0 <= k < |frames| ==> forall r :: r in frames[k] ==> r in batch
  {
    if frames == [] then [] else frames[0] + Concat(frames[1..])
  }

  /**
   * What one call of the fetch returns. With files but no records at all the
   * concatenated frame has no `timestamp` column, so the conversion raises.
   */
  function Fetch(listing: Listing): (r: FetchResult)
    ensures r.batch != [] ==> r.notice == Silent && listing.Contents?
    ensures r.notice == NoFilesWarning <==> listing == NoContents
    ensures listing == ListingFailed ==> r.notice == LoadError
  {
    match listing
    case ListingFailed => FetchResult([], LoadError)
    case NoContents => FetchResult([], NoFilesWarning)
    case Contents(objects) =>
      match AllOrNothing(JsonObjects(objects))
      case None => FetchResult([], LoadError)
      case Some(frames) =>
        if frames == [] then FetchResult([], Silent)
        else if Concat(frames) == [] then FetchResult([], LoadError)
        else FetchResult(Concat(frames), Silent)
  }

  /** Extending the listing by one object extends the downloaded files by it exactly when it is a `.json` key. */
  lemma JsonObjectsStep(objects: seq<StoredObject>, i: nat)
    requires i < |objects|
    ensures JsonObjects(objects[..i + 1])
      == JsonObjects(objects[..i]) + (if IsJsonKey(objects[i].key) then [objects[i]] else [])
  {
    assert objects[..i + 1][..i] == objects[..i];
  }

  lemma AllOrNothingAppend(files: seq<StoredObject>, o: StoredObject)
    ensures AllOrNothing(files + [o])
      == if AllOrNothing(files).Some? && o.payload.Some? then Some(AllOrNothing(files).value + [o.payload.value]) else None
  {
    assert (files + [o])[..|files|] == files;
  }

  /** A `.json` object whose download fails makes the whole download fail. */
  lemma {:induction false} FailedFileAborts(objects: seq<StoredObject>, i: nat)
    requires i < |objects| && IsJsonKey(objects[i].key) && objects[i].payload.None?
    ensures AllOrNothing(JsonObjects(objects)).None?
  {
    var files := JsonObjects(objects);
    JsonObjectsMembers(objects);
    assert objects[i] in objects;
    assert objects[i] in files;
    var k :| 0 <= k < |files| && files[k] == objects[i];
    assert !files[k].payload.Some?;
  }

  /**
   * The download loop: one `get_object` per `.json` key, in listing order,
   * appending each file's records; the first failure ends the fetch.
   */
  method DownloadJsonFiles(objects: seq<StoredObject>) returns (frames: Option<seq<seq<Record>>>)
    ensures frames == AllOrNothing(JsonObjects(objects))
  {
    var collected: seq<seq<Record>> := [];
    var i := 0;
    while i < |objects|
      invariant 0 <= i <= |objects|
      invariant AllOrNothing(JsonObjects(objects[..i])) == Some(collected)
    {
      var obj := objects[i];
      JsonObjectsStep(objects, i);
      if !IsJsonKey(obj.key) {
        assert JsonObjects(objects[..i + 1]) == JsonObjects(objects[..i]);
      } else {
        if obj.payload.None? {
          FailedFileAborts(objects, i);
          return None;
        }
        AllOrNothingAppend(JsonObjects(objects[..i]), obj);
        collected := collected + [obj.payload.value];
      }
      i := i + 1;
    }
    assert objects[..i] == objects;
    return Some(collected);
  }

  /** The whole fetch: listing, downloads, concatenation, and the message for each failure. */
  method FetchBatch(listing: Listing) returns (result: FetchResult)
    ensures result == Fetch(listing)
  {
    if listing.ListingFailed? {
      return FetchResult([], LoadError);
    }
    if listing.NoContents? {
      return FetchResult([], NoFilesWarning);
    }
    var frames := DownloadJsonFiles(listing.objects);
    if frames.None? {
      return FetchResult([], LoadError);
    }
    if frames.value == [] {
      return FetchResult([], Silent);
    }
    var batch := Concat(frames.value);
    if batch == [] {
      return FetchResult([], LoadError);
    }
    return FetchResult(batch, Silent);
  }

  lemma {:induction false} JsonObjectsAppend(a: seq<StoredObject>, b: seq<StoredObject>)
    ensures JsonObjects(a + b) == JsonObjects(a) + JsonObjects(b)
    decreases |b|
  {
    if b == [] {
      assert a + b == a;
    } else {
      var front := b[..|b| - 1];
      assert (a + b)[..|a + b| - 1] == a + front;
      JsonObjectsAppend(a, front);
    }
  }

  lemma {:induction false} JsonObjectsIdempotent(objects: seq<StoredObject>)
    ensures JsonObjects(JsonObjects(objects)) == JsonObjects(objects)
  {
    if objects != [] {
      var front := objects[..|objects| - 1];
      var last := objects[|objects| - 1];
      JsonObjectsIdempotent(front);
      JsonObjectsAppend(JsonObjects(front), if IsJsonKey(last.key) then [last] else []);
    }
  }

  /** Keys that do not end in `.json` have no effect on the fetch. */
  lemma FetchIgnoresOtherKeys(objects: seq<StoredObject>)
    ensures Fetch(Contents(objects)) == Fetch(Contents(JsonObjects(objects)))
  {
    JsonObjectsIdempotent(objects);
  }

  /** The files are taken in listing order: listing more objects appends their files after the others. */
  lemma FetchedFilesInListingOrder(before: seq<StoredObject>, after: seq<StoredObject>)
    ensures JsonObjects(before + after) == JsonObjects(before) + JsonObjects(after)
  {
    JsonObjectsAppend(before, after);
  }

  /** No `Contents`, or no `.json` key among them: an empty batch. */
  lemma FetchWithoutFilesIsEmpty(listing: Listing)
    requires listing.NoContents? || (listing.Contents? && forall o :: o in listing.objects ==> !IsJsonKey(o.key))
    ensures Fetch(listing).batch == []
    ensures listing.NoContents? ==> Fetch(listing).notice == NoFilesWarning
    ensures listing.Contents? ==> Fetch(listing).notice == Silent
  {
    if listing.Contents? {
      var files := JsonObjects(listing.objects);
      JsonObjectsMembers(listing.objects);
    }
  }

  /** One failing `.json` file empties the whole batch: never a partial merge. */
  lemma FetchFailureEmptiesBatch(objects: seq<StoredObject>, k: nat)
    requires k < |objects| && IsJsonKey(objects[k].key) && objects[k].payload.None?
    ensures Fetch(Contents(objects)) == FetchResult([], LoadError)
  {
    FailedFileAborts(objects, k);
  }

  /**
   * When every `.json` file loads, the batch is their record lists appended in
   * listing order, and its length is the sum of their lengths.
   */
  lemma {:induction false} FetchConcatenatesFiles(objects: seq<StoredObject>)
    requires forall o :: o in objects && IsJsonKey(o.key) ==> o.payload.Some?
    ensures var files := JsonObjects(objects);
      AllOrNothing(files).Some? &&
      Fetch(Contents(objects)).batch == Concat(AllOrNothing(files).value) &&
      |Fetch(Contents(objects)).batch| == TotalLength(AllOrNothing(files).value)
  {
    var files := JsonObjects(objects);
    JsonObjectsMembers(objects);
    forall k | 0 <= k < |files| ensures files[k].payload.Some? {
      assert files[k] in files;
    }
  }

  // ---------------------------------------------------------------------------
  // Tally (generar_metricas_estado)
  // ---------------------------------------------------------------------------

  /** The three status columns the tally always has, in this order. */
  const StatusColumns: seq<string> := ["OK", "WARN", "ERROR"]

  /** Number of records of server `id` with status `status`. */
  function CountOf(batch: seq<Record>, id: string, status: string): nat
  {
    if batch == [] then 0
    else (if batch[0].serverId == id && batch[0].status == status then 1 else 0) + CountOf(batch[1..], id, status)
  }

  /** Number of records with status `status`, whatever the server. */
  function StatusCount(batch: seq<Record>, status: string): nat
  {
    if batch == [] then 0
    else (if batch[0].status == status then 1 else 0) + StatusCount(batch[1..], status)
  }

  /** Number of records whose status is none of the three known ones. */
  function UnknownCount(batch: seq<Record>): nat
  {
    if batch == [] then 0
    else (if batch[0].status in StatusColumns then 0 else 1) + UnknownCount(batch[1..])
  }

  predicate HasServer(batch: seq<Record>, id: string)
  {
    exists k :: 0 <= k < |batch| && batch[k].serverId == id
  }

  lemma AscendingCons(x: string, s: seq<string>)
    requires Text.StrictlyAscending(s)
    requires forall y :: y in s ==> Text.Less(x, y)
    ensures Text.StrictlyAscending([x] + s)
  {
    var t := [x] + s;
    forall i, j | 0 <= i < j < |t| ensures Text.Less(t[i], t[j]) {
      if i == 0 {
        assert t[j] == s[j - 1] && s[j - 1] in s;
      } else {
        assert t[i] == s[i - 1] && t[j] == s[j - 1];
      }
    }
  }

  /** Adds `x` to a strictly ascending list of ids, keeping it strictly ascending. */
  function InsertId(ids: seq<string>, x: string): (r: seq<string>)
    requires Text.StrictlyAscending(ids)
    ensures Text.StrictlyAscending(r)
    ensures forall y :: y in r <==> y in ids || y == x
  {
    if ids == [] then [x]
    else if x == ids[0] then ids
    else if Text.Less(x, ids[0]) then
      assert forall y :: y in ids ==> Text.Less(x, y) by {
        forall y | y in ids ensures Text.Less(x, y) {
          if y != ids[0] {
            var j :| 0 <= j < |ids| && ids[j] == y;
            Text.LessTransitive(x, ids[0], y);
          }
        }
      }
      AscendingCons(x, ids);
      [x] + ids
    else
      Text.LessTotal(x, ids[0]);
      assert Text.StrictlyAscending(ids[1..]) by {
        forall i, j | 0 <= i < j < |ids[1..]| ensures Text.Less(ids[1..][i], ids[1..][j]) {
          assert ids[1..][i] == ids[i + 1] && ids[1..][j] == ids[j + 1];
        }
      }
      var rest := InsertId(ids[1..], x);
      assert forall y :: y in rest ==> Text.Less(ids[0], y) by {
        forall y | y in rest ensures Text.Less(ids[0], y) {
          if y != x {
            var j :| 0 <= j < |ids[1..]| && ids[1..][j] == y;
            assert ids[j + 1] == y;
          }
        }
      }
      AscendingCons(ids[0], rest);
      assert ids == [ids[0]] + ids[1..];
      [ids[0]] + rest
  }

  /** The distinct server ids of the batch, sorted as `groupby` sorts its keys. */
  function ServerIds(batch: seq<Record>): (ids: seq<string>)
    ensures Text.StrictlyAscending(ids)
    ensures forall id :: id in ids <==> HasServer(batch, id)
  {
    if batch == [] then []
    else
      var ids := InsertId(ServerIds(batch[1..]), batch[0].serverId);
      assert forall id :: HasServer(batch, id) <==> id == batch[0].serverId || HasServer(batch[1..], id) by {
        forall id ensures HasServer(batch, id) <==> id == batch[0].serverId || HasServer(batch[1..], id) {
          if HasServer(batch[1..], id) {
            var k :| 0 <= k < |batch[1..]| && batch[1..][k].serverId == id;
            assert batch[k + 1].serverId == id;
          }
          if HasServer(batch, id) && id != batch[0].serverId {
            var k :| 0 <= k < |batch| && batch[k].serverId == id;
            assert batch[1..][k - 1].serverId == id;
          }
        }
      }
      ids
  }

  /** One row of the tally: a server and its three counts. */
  datatype TallyRow = TallyRow(serverId: string, ok: nat, warn: nat, error: nat)

  /** The cell of a tally row under one of the three status columns. */
  function Cell(row: TallyRow, column: string): nat
    requires column in StatusColumns
  {
    if column == "OK" then row.ok else if column == "WARN" then row.warn else row.error
  }

  /** The tally row of one server: its count for each of the three statuses, 0 where none. */
  function RowFor(batch: seq<Record>, id: string): (row: TallyRow)
    ensures row.serverId == id
    ensures forall c :: c in StatusColumns ==> Cell(row, c) == CountOf(batch, id, c)
  {
    TallyRow(id, CountOf(batch, id, "OK"), CountOf(batch, id, "WARN"), CountOf(batch, id, "ERROR"))
  }

  function RowsFor(batch: seq<Record>, ids: seq<string>): (rows: seq<TallyRow>)
    ensures |rows| == |ids|
    ensures forall i :: 0 <= i < |ids| ==> rows[i] == RowFor(batch, ids[i])
  {
    if ids == [] then [] else [RowFor(batch, ids[0])] + RowsFor(batch, ids[1..])
  }

  /** The tally of a non-empty batch: exactly one row per distinct server of the batch, in ascending id order. */
  function StatusTally(batch: seq<Record>): (rows: seq<TallyRow>)
    ensures forall i, j :: 0 <= i < j < |rows| ==> Text.Less(rows[i].serverId, rows[j].serverId)
    ensures forall id :: HasServer(batch, id) <==> exists i :: 0 <= i < |rows| && rows[i].serverId == id
  {
    var ids := ServerIds(batch);
    var rows := RowsFor(batch, ids);
    assert forall id :: HasServer(batch, id) ==> exists i :: 0 <= i < |rows| && rows[i].serverId == id by {
      forall id | HasServer(batch, id) ensures exists i :: 0 <= i < |rows| && rows[i].serverId == id {
        var i :| 0 <= i < |ids| && ids[i] == id;
        assert rows[i].serverId == id;
      }
    }
    rows
  }

  /** What the function returns: only a `status` column for an empty batch, else the table. */
  datatype Tally = StatusColumnOnly | Table(rows: seq<TallyRow>)

  /** A count table: row labels, and a column of counts per status label. */
  datatype CountFrame = CountFrame(index: seq<string>, columns: map<string, seq<nat>>)

  ghost predicate WellShaped(f: CountFrame)
  {
    forall c :: c in f.columns ==> |f.columns[c]| == |f.index|
  }

  function Statuses(batch: seq<Record>): set<string>
  {
    set r | r in batch :: r.status
  }

  /** `groupby('server_id')['status'].value_counts().unstack(fill_value=0)`. */
  function Unstack(batch: seq<Record>): (f: CountFrame)
    ensures WellShaped(f) && f.index == ServerIds(batch) && f.columns.Keys == Statuses(batch)
    ensures forall c, i :: c in f.columns && 0 <= i < |f.index| ==> f.columns[c][i] == CountOf(batch, f.index[i], c)
    ensures forall c, i :: c in f.columns && 0 <= i < |f.index| && !HasServerWithStatus(batch, f.index[i], c) ==>
      f.columns[c][i] == 0
  {
    var ids := ServerIds(batch);
    forall c, i | 0 <= i < |ids| && !HasServerWithStatus(batch, ids[i], c) ensures CountOf(batch, ids[i], c) == 0 {
      CountOfNoMatch(batch, ids[i], c);
    }
    CountFrame(ids, map c | c in Statuses(batch) :: seq(|ids|, i requires 0 <= i < |ids| => CountOf(batch, ids[i], c)))
  }

  /** Counts of a status nobody has are 0 in every row. */
  lemma {:induction false} CountOfAbsentStatus(batch: seq<Record>, id: string, status: string)
    requires status !in Statuses(batch)
    ensures CountOf(batch, id, status) == 0
  {
    if batch != [] {
      assert batch[0] in batch;
      assert Statuses(batch[1..]) <= Statuses(batch) by {
        forall s | s in Statuses(batch[1..]) ensures s in Statuses(batch) {
          var r :| r in batch[1..] && r.status == s;
          assert r in batch;
        }
      }
      CountOfAbsentStatus(batch[1..], id, status);
    }
  }

  /** The loop that adds each missing status column, filled with 0. */
  method AddMissingStatusColumns(f: CountFrame) returns (g: CountFrame)
    requires WellShaped(f)
    ensures WellShaped(g) && g.index == f.index
    ensures g.columns.Keys == f.columns.Keys + set c | c in StatusColumns
    ensures forall c :: c in f.columns ==> g.columns[c] == f.columns[c]
    ensures forall c, i :: c in StatusColumns && c !in f.columns && 0 <= i < |g.index| ==> g.columns[c][i] == 0
  {
    g := f;
    for k := 0 to |StatusColumns|
      invariant WellShaped(g) && g.index == f.index
      invariant g.columns.Keys == f.columns.Keys + set c | c in StatusColumns[..k]
      invariant forall c :: c in f.columns ==> g.columns[c] == f.columns[c]
      invariant forall c, i :: c in g.columns && c !in f.columns && 0 <= i < |g.index| ==> g.columns[c][i] == 0
    {
      var column := StatusColumns[k];
      assert StatusColumns[..k + 1] == StatusColumns[..k] + [column];
      if column !in g.columns {
        g := g.(columns := g.columns[column := seq(|g.index|, _ => 0)]);
      }
    }
    assert StatusColumns[..|StatusColumns|] == StatusColumns;
  }

  /** `result_df[status_columns]`: the three status columns, in order, one row per index label. */
  function SelectStatusColumns(f: CountFrame): (rows: seq<TallyRow>)
    requires WellShaped(f)
    requires forall c :: c in StatusColumns ==> c in f.columns
    ensures |rows| == |f.index|
    ensures forall i, c :: 0 <= i < |rows| && c in StatusColumns ==>
      rows[i].serverId == f.index[i] && Cell(rows[i], c) == f.columns[c][i]
  {
    seq(|f.index|, i requires 0 <= i < |f.index| =>
      TallyRow(f.index[i], f.columns["OK"][i], f.columns["WARN"][i], f.columns["ERROR"][i]))
  }

  /** After the back-fill, a status cell is the true count, whether the column was counted or added. */
  lemma FilledCell(batch: seq<Record>, counts: CountFrame, filled: CountFrame, i: nat, column: string)
    requires counts == Unstack(batch)
    requires WellShaped(filled) && filled.index == counts.index && i < |counts.index|
    requires column in StatusColumns && column in filled.columns
    requires column in counts.columns ==> filled.columns[column] == counts.columns[column]
    requires column !in counts.columns ==> filled.columns[column][i] == 0
    ensures filled.columns[column][i] == CountOf(batch, counts.index[i], column)
  {
    if column !in counts.columns {
      CountOfAbsentStatus(batch, counts.index[i], column);
    }
  }

  /** The whole of `generar_metricas_estado`. */
  method GenerateStatusMetrics(batch: seq<Record>) returns (t: Tally)
    ensures batch == [] <==> t == StatusColumnOnly
    ensures batch != [] ==> t == Table(StatusTally(batch))
  {
    if batch == [] {
      return StatusColumnOnly;
    }
    var counts := Unstack(batch);
    var filled := AddMissingStatusColumns(counts);
    var rows := SelectStatusColumns(filled);
    var expected := StatusTally(batch);
    assert |rows| == |expected|;
    forall i | 0 <= i < |rows| ensures rows[i] == expected[i] {
      FilledCell(batch, counts, filled, i, "OK");
      FilledCell(batch, counts, filled, i, "WARN");
      FilledCell(batch, counts, filled, i, "ERROR");
      assert rows[i].serverId == expected[i].serverId;
      assert rows[i].ok == Cell(rows[i], "OK") == Cell(expected[i], "OK") == expected[i].ok;
      assert rows[i].warn == Cell(rows[i], "WARN") == Cell(expected[i], "WARN") == expected[i].warn;
      assert rows[i].error == Cell(rows[i], "ERROR") == Cell(expected[i], "ERROR") == expected[i].error;
    }
    return Table(rows);
  }

  /** Each cell is the number of records with that server and status (0 when there are none). */
  lemma TallyCells(batch: seq<Record>, i: nat, column: string)
    requires i < |StatusTally(batch)| && column in StatusColumns
    ensures Cell(StatusTally(batch)[i], column) == CountOf(batch, StatusTally(batch)[i].serverId, column)
    ensures !HasServerWithStatus(batch, StatusTally(batch)[i].serverId, column) ==> Cell(StatusTally(batch)[i], column) == 0
  {
    var id := StatusTally(batch)[i].serverId;
    if !HasServerWithStatus(batch, id, column) {
      CountOfNoMatch(batch, id, column);
    }
  }

  predicate HasServerWithStatus(batch: seq<Record>, id: string, status: string)
  {
    exists k :: 0 <= k < |batch| && batch[k].serverId == id && batch[k].status == status
  }

  lemma {:induction false} CountOfNoMatch(batch: seq<Record>, id: string, status: string)
    requires !HasServerWithStatus(batch, id, status)
    ensures CountOf(batch, id, status) == 0
  {
    if batch != [] {
      assert !(batch[0].serverId == id && batch[0].status == status);
      assert !HasServerWithStatus(batch[1..], id, status);
      CountOfNoMatch(batch[1..], id, status);
    }
  }

  // ---------------------------------------------------------------------------
  // Column totals (total_ok, total_warn, total_error)
  // ---------------------------------------------------------------------------

  /** `metricas_df[column].sum()`. */
  function ColumnTotal(rows: seq<TallyRow>, column: string): nat
    requires column in StatusColumns
  {
    if rows == [] then 0 else Cell(rows[0], column) + ColumnTotal(rows[1..], column)
  }

  function SumCounts(batch: seq<Record>, ids: seq<string>, status: string): nat
  {
    if ids == [] then 0 else CountOf(batch, ids[0], status) + SumCounts(batch, ids[1..], status)
  }

  function Occurrences(ids: seq<string>, x: string): nat
  {
    if ids == [] then 0 else (if ids[0] == x then 1 else 0) + Occurrences(ids[1..], x)
  }

  ghost predicate Distinct(ids: seq<string>)
  {
    forall i, j :: 0 <= i < j < |ids| ==> ids[i] != ids[j]
  }

  lemma {:induction false} OccursOnce(ids: seq<string>, x: string)
    requires Distinct(ids) && x in ids
    ensures Occurrences(ids, x) == 1
  {
    if ids[0] == x {
      OccursNever(ids[1..], x);
    } else {
      OccursOnce(ids[1..], x);
    }
  }

  lemma {:induction false} OccursNever(ids: seq<string>, x: string)
    requires Distinct([x] + ids)
    ensures Occurrences(ids, x) == 0
  {
    if ids != [] {
      assert ([x] + ids)[0] != ([x] + ids)[1];
      assert Distinct([x] + ids[1..]) by {
        forall i, j | 0 <= i < j < |[x] + ids[1..]| ensures ([x] + ids[1..])[i] != ([x] + ids[1..])[j] {
          assert ([x] + ids[1..])[i] == ([x] + ids)[if i == 0 then 0 else i + 1];
          assert ([x] + ids[1..])[j] == ([x] + ids)[j + 1];
        }
      }
      OccursNever(ids[1..], x);
    }
  }

  lemma {:induction false} SumCountsOfEmpty(ids: seq<string>, status: string)
    ensures SumCounts([], ids, status) == 0
  {
    if ids != [] {
      SumCountsOfEmpty(ids[1..], status);
    }
  }

  lemma {:induction false} SumCountsCons(r: Record, rest: seq<Record>, ids: seq<string>, status: string)
    ensures SumCounts([r] + rest, ids, status)
      == (if r.status == status then Occurrences(ids, r.serverId) else 0) + SumCounts(rest, ids, status)
  {
    if ids != [] {
      assert ([r] + rest)[0] == r && ([r] + rest)[1..] == rest;
      SumCountsCons(r, rest, ids[1..], status);
    }
  }

  /** Summing one status's counts over distinct ids that cover every server gives the status's total. */
  lemma {:induction false} SumCountsIsStatusCount(batch: seq<Record>, ids: seq<string>, status: string)
    requires Distinct(ids)
    requires forall k :: 0 <= k < |batch| ==> batch[k].serverId in ids
    ensures SumCounts(batch, ids, status) == StatusCount(batch, status)
  {
    if batch == [] {
      SumCountsOfEmpty(ids, status);
    } else {
      var r := batch[0];
      assert batch == [r] + batch[1..];
      SumCountsCons(r, batch[1..], ids, status);
      OccursOnce(ids, r.serverId);
      assert forall k :: 0 <= k < |batch[1..]| ==> batch[1..][k] == batch[k + 1];
      SumCountsIsStatusCount(batch[1..], ids, status);
    }
  }

  lemma {:induction false} ColumnTotalOfRows(batch: seq<Record>, ids: seq<string>, column: string)
    requires column in StatusColumns
    ensures ColumnTotal(RowsFor(batch, ids), column) == SumCounts(batch, ids, column)
  {
    if ids != [] {
      var rows := RowsFor(batch, ids);
      assert rows[1..] == RowsFor(batch, ids[1..]);
      ColumnTotalOfRows(batch, ids[1..], column);
    }
  }

  /** The total shown for each status equals the number of records with that status. */
  lemma TallyColumnTotals(batch: seq<Record>, column: string)
    requires column in StatusColumns
    ensures ColumnTotal(StatusTally(batch), column) == StatusCount(batch, column)
  {
    var ids := ServerIds(batch);
    Text.LessIrreflexive("");
    assert Distinct(ids) by {
      forall i, j | 0 <= i < j < |ids| ensures ids[i] != ids[j] {
        Text.LessIrreflexive(ids[i]);
      }
    }
    forall k | 0 <= k < |batch| ensures batch[k].serverId in ids {
      assert HasServer(batch, batch[k].serverId);
    }
    ColumnTotalOfRows(batch, ids, column);
    SumCountsIsStatusCount(batch, ids, column);
  }

  /** Every record is counted under exactly one of the three columns, or dropped for an unknown status. */
  lemma {:induction false} StatusesPartitionBatch(batch: seq<Record>)
    ensures StatusCount(batch, "OK") + StatusCount(batch, "WARN") + StatusCount(batch, "ERROR") + UnknownCount(batch) == |batch|
  {
    if batch != [] {
      StatusesPartitionBatch(batch[1..]);
    }
  }

  // ---------------------------------------------------------------------------
  // The page: totals, detail table, raw preview; and the session value
  // ---------------------------------------------------------------------------

  /** `df.tail(n)`: the last n records (all of them when there are fewer). */
  function Tail(batch: seq<Record>, n: nat): (r: seq<Record>)
    ensures |r| == if |batch| < n then |batch| else n
    ensures forall k :: 0 <= k < |r| ==> r[k] == batch[|batch| - |r| + k]
  {
    if |batch| <= n then batch else batch[|batch| - n..]
  }

  const PreviewRows: nat := 10

  datatype View =
    | EmptyWarning
    | StatusView(totalOk: nat, totalWarn: nat, totalError: nat, detail: seq<TallyRow>, preview: seq<Record>)

  /** The page: a warning for an empty batch, otherwise the three totals, the tally and the last ten records. */
  method Render(batch: seq<Record>) returns (view: View)
    ensures batch == [] <==> view == EmptyWarning
    ensures batch != [] ==>
      && view.detail == StatusTally(batch)
      && view.totalOk == StatusCount(batch, "OK")
      && view.totalWarn == StatusCount(batch, "WARN")
      && view.totalError == StatusCount(batch, "ERROR")
      && view.preview == Tail(batch, PreviewRows)
  {
    if batch == [] {
      return EmptyWarning;
    }
    var tally := GenerateStatusMetrics(batch);
    var rows := tally.rows;
    TallyColumnTotals(batch, "OK");
    TallyColumnTotals(batch, "WARN");
    TallyColumnTotals(batch, "ERROR");
    view := StatusView(ColumnTotal(rows, "OK"), ColumnTotal(rows, "WARN"), ColumnTotal(rows, "ERROR"),
                       rows, Tail(batch, PreviewRows));
  }

  /** `st.session_state`: the instant of the last forced refresh, absent on the first run. */
  class Session {
    var lastUpdate: Option<int>

    constructor ()
      ensures lastUpdate == None
    {
      lastUpdate := None;
    }

    /**
     * The refresh button overwrites `last_update` with now; otherwise it is
     * set only when absent. Returns the value passed to the fetch as its cache key.
     */
    method KeyForThisRun(buttonPressed: bool, now: int) returns (cacheKey: int)
      modifies this
      ensures lastUpdate == Some(cacheKey)
      ensures buttonPressed ==> cacheKey == now
      ensures !buttonPressed && old(lastUpdate).Some? ==> lastUpdate == old(lastUpdate)
      ensures !buttonPressed && old(lastUpdate).None? ==> cacheKey == now
    {
      if buttonPressed {
        lastUpdate := Some(now);
      }
      if lastUpdate.None? {
        lastUpdate := Some(now);
      }
      cacheKey := lastUpdate.value;
    }
  }

  /**
   * One run of the script: the session update that yields the cache key, the
   * fetch, and the page shown for the fetched batch.
   */
  method RunOnce(session: Session, buttonPressed: bool, now: int, listing: Listing)
    returns (cacheKey: int, fetched: FetchResult, view: View)
    modifies session
    ensures session.lastUpdate == Some(cacheKey)
    ensures buttonPressed ==> cacheKey == now
    ensures !buttonPressed && old(session.lastUpdate).Some? ==> session.lastUpdate == old(session.lastUpdate)
    ensures !buttonPressed && old(session.lastUpdate).None? ==> cacheKey == now
    ensures fetched == Fetch(listing)
    ensures fetched.batch == [] <==> view == EmptyWarning
    ensures fetched.batch != [] ==>
      && view.detail == StatusTally(fetched.batch)
      && view.totalOk == StatusCount(fetched.batch, "OK")
      && view.totalWarn == StatusCount(fetched.batch, "WARN")
      && view.totalError == StatusCount(fetched.batch, "ERROR")
      && view.preview == Tail(fetched.batch, PreviewRows)
  {
    cacheKey := session.KeyForThisRun(buttonPressed, now);
    fetched := FetchBatch(listing);
    view := Render(fetched.batch);
  }
}
