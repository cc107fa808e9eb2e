/**
 * The S3-triggered transform (proyecto_final/lambda.py): read the event's
 * object, add `WeeklyPlayTimeMinutes` and `AgeSegment`, keep twelve columns,
 * and write the result under `processed/` in the same bucket.
 */
module LambdaTransform {
  import opened Wrappers
  import Text

  // ---------------------------------------------------------------------------
  // Data
  // ---------------------------------------------------------------------------

  /** The part of one S3 notification record the handler reads; a missing key is None. */
  datatype S3EventRecord = S3EventRecord(bucketName: Option<string>, objectKey: Option<string>)

  /** The event: its `Records` list, None when the key is absent. */
  datatype Event = Event(records: Option<seq<S3EventRecord>>)

  /** One row of the input CSV, as `pd.read_csv` types it. */
  datatype PlayerRow = PlayerRow(
    playerId: int, age: int, gender: string, location: string, gameGenre: string,
    playTimeHours: real, inGamePurchases: int, gameDifficulty: string,
    sessionsPerWeek: int, avgSessionDurationMinutes: int,
    playerLevel: int, achievementsUnlocked: int, engagementLevel: string)

  /** The three `pd.cut` buckets, labelled 'Joven (<25)', 'Adulto Joven (25-35)' and 'Adulto (>35)' in the output. */
  datatype AgeSegment = Young | YoungAdult | Adult

  /**
   * One row of the output CSV: the twelve kept columns, in the written order
   * PlayerID, AgeSegment, Gender, Location, GameGenre, PlayTimeHours,
   * WeeklyPlayTimeMinutes, InGamePurchases, GameDifficulty, PlayerLevel,
   * AchievementsUnlocked, EngagementLevel.
   */
  datatype ProcessedRow = ProcessedRow(
    playerId: int, ageSegment: Option<AgeSegment>, gender: string, location: string,
    gameGenre: string, playTimeHours: real, weeklyPlayTimeMinutes: int, inGamePurchases: int,
    gameDifficulty: string, playerLevel: int, achievementsUnlocked: int, engagementLevel: string)

  /** The result of `get_object` plus `read_csv` on one object: the exception's text, or the rows. */
  datatype ReadOutcome = ReadFailed(message: string) | Loaded(rows: seq<PlayerRow>)

  datatype Upload = Upload(bucket: string, key: string, rows: seq<ProcessedRow>)

  /** What the handler does: an exception escapes it, or it returns a status code and a body. */
  datatype Outcome = Raised | Response(statusCode: int, body: string)

  // ---------------------------------------------------------------------------
  // Age bucketing: pd.cut(age, bins=[18, 25, 35, 99], right=False)
  // ---------------------------------------------------------------------------

  const AgeBins: seq<int> := [18, 25, 35, 99]
  const AgeLabels: seq<AgeSegment> := [Young, YoungAdult, Adult]

  ghost predicate Increasing(bins: seq<int>)
  {
    forall i, j :: 0 <= i < j < |bins| ==> bins[i] < bins[j]
  }

  /** The bin [bins[i], bins[i+1]) that holds x, closed on the left; None outside all bins. */
  function CutLeftClosed(x: int, bins: seq<int>): (r: Option<nat>)
    requires Increasing(bins)
    ensures r.Some? ==> r.value + 1 < |bins| && bins[r.value] <= x < bins[r.value + 1]
    ensures r.None? <==> |bins| < 2 || x < bins[0] || bins[|bins| - 1] <= x
  {
    if |bins| < 2 || x < bins[0] then None
    else if x < bins[1] then Some(0)
    else
      match CutLeftClosed(x, bins[1..])
      case None => None
      case Some(i) => Some(i + 1)
  }

  /** `pd.cut(Age, [18, 25, 35, 99], right=False)`: three half-open buckets, none below 18 or from 99 on. */
  function AgeSegmentOf(age: int): (seg: Option<AgeSegment>)
    ensures seg == Some(Young) <==> 18 <= age < 25
    ensures seg == Some(YoungAdult) <==> 25 <= age < 35
    ensures seg == Some(Adult) <==> 35 <= age < 99
    ensures seg == None <==> age < 18 || 99 <= age
  {
    match CutLeftClosed(age, AgeBins)
    case None => None
    case Some(i) => Some(AgeLabels[i])
  }

  /** Older players never get an earlier segment. */
  lemma AgeSegmentMonotone(a: int, b: int)
    requires a <= b && AgeSegmentOf(a).Some? && AgeSegmentOf(b).Some?
    ensures CutLeftClosed(a, AgeBins).value <= CutLeftClosed(b, AgeBins).value
  {
  }

  // ---------------------------------------------------------------------------
  // The table the handler mutates
  // ---------------------------------------------------------------------------

  /** `sessionsPerWeek * avgSessionDurationMinutes` for every row. */
  function WeeklyMinutes(rows: seq<PlayerRow>): (w: seq<int>)
    ensures |w| == |rows|
    ensures forall i :: 0 <= i < |rows| ==> w[i] == rows[i].sessionsPerWeek * rows[i].avgSessionDurationMinutes
  {
    if rows == [] then []
    else [rows[0].sessionsPerWeek * rows[0].avgSessionDurationMinutes] + WeeklyMinutes(rows[1..])
  }

  function AgeSegments(rows: seq<PlayerRow>): (s: seq<Option<AgeSegment>>)
    ensures |s| == |rows|
    ensures forall i :: 0 <= i < |rows| ==> s[i] == AgeSegmentOf(rows[i].age)
  {
    if rows == [] then [] else [AgeSegmentOf(rows[0].age)] + AgeSegments(rows[1..])
  }

  /** The DataFrame read from the CSV, with the two columns the handler adds (None until added). */
  class PlayerFrame {
    var rows: seq<PlayerRow>
    var weeklyPlayTimeMinutes: Option<seq<int>>
    var ageSegment: Option<seq<Option<AgeSegment>>>

    constructor (rows: seq<PlayerRow>)
      ensures this.rows == rows && weeklyPlayTimeMinutes == None && ageSegment == None
    {
      this.rows := rows;
      weeklyPlayTimeMinutes := None;
      ageSegment := None;
    }

    /** Adds `WeeklyPlayTimeMinutes`, the product of sessions per week and minutes per session. */
    method AddWeeklyPlayTime()
      modifies this
      ensures rows == old(rows) && ageSegment == old(ageSegment)
      ensures weeklyPlayTimeMinutes == Some(WeeklyMinutes(rows))
    {
      weeklyPlayTimeMinutes := Some(WeeklyMinutes(rows));
    }

    /** Adds `AgeSegment`, the age bucket of each row (missing outside [18, 99)). */
    method AddAgeSegment()
      modifies this
      ensures rows == old(rows) && weeklyPlayTimeMinutes == old(weeklyPlayTimeMinutes)
      ensures ageSegment == Some(AgeSegments(rows))
    {
      ageSegment := Some(AgeSegments(rows));
    }

    /** Both added columns hold what the two assignments compute from the rows. */
    ghost predicate Enriched()
      reads this
    {
      weeklyPlayTimeMinutes == Some(WeeklyMinutes(rows)) && ageSegment == Some(AgeSegments(rows))
    }

    /** `df[columns_to_keep]`: Age, SessionsPerWeek and AvgSessionDurationMinutes are dropped. */
    function Processed(): (out: seq<ProcessedRow>)
      reads this
      requires Enriched()
      ensures out == Transform(rows)
    {
      var rs, segments, weekly := rows, ageSegment.value, weeklyPlayTimeMinutes.value;
      seq(|rs|, i requires 0 <= i < |rs| =>
        var r := rs[i];
        ProcessedRow(r.playerId, segments[i], r.gender, r.location, r.gameGenre,
                     r.playTimeHours, weekly[i], r.inGamePurchases,
                     r.gameDifficulty, r.playerLevel, r.achievementsUnlocked, r.engagementLevel))
    }
  }

  /** The processed row each input row turns into. */
  function Enrich(r: PlayerRow): ProcessedRow
  {
    ProcessedRow(r.playerId, AgeSegmentOf(r.age), r.gender, r.location, r.gameGenre,
                 r.playTimeHours, r.sessionsPerWeek * r.avgSessionDurationMinutes, r.inGamePurchases,
                 r.gameDifficulty, r.playerLevel, r.achievementsUnlocked, r.engagementLevel)
  }

  /**
   * The transform keeps the row count and the row order; each row keeps its
   * `PlayerID` and the nine other carried columns, gets the weekly product,
   * and gets the age bucket of its age, which is present exactly when 18 <= age < 99.
   */
  function Transform(rows: seq<PlayerRow>): (out: seq<ProcessedRow>)
    ensures |out| == |rows|
    ensures forall i :: 0 <= i < |rows| ==> out[i].playerId == rows[i].playerId
    ensures forall i :: 0 <= i < |rows| ==>
      out[i].weeklyPlayTimeMinutes == rows[i].sessionsPerWeek * rows[i].avgSessionDurationMinutes
    ensures forall i :: 0 <= i < |rows| ==> out[i].ageSegment == AgeSegmentOf(rows[i].age)
    ensures forall i :: 0 <= i < |rows| ==> (out[i].ageSegment.Some? <==> 18 <= rows[i].age < 99)
    ensures forall i :: 0 <= i < |rows| ==>
      && out[i].gender == rows[i].gender && out[i].location == rows[i].location
      && out[i].gameGenre == rows[i].gameGenre && out[i].playTimeHours == rows[i].playTimeHours
      && out[i].inGamePurchases == rows[i].inGamePurchases
      && out[i].gameDifficulty == rows[i].gameDifficulty && out[i].playerLevel == rows[i].playerLevel
      && out[i].achievementsUnlocked == rows[i].achievementsUnlocked
      && out[i].engagementLevel == rows[i].engagementLevel
  {
    seq(|rows|, i requires 0 <= i < |rows| => Enrich(rows[i]))
  }

  // ---------------------------------------------------------------------------
  // Output key: 'processed/' + basename(key).replace('.csv', '_processed.csv')
  // ---------------------------------------------------------------------------

  const ProcessedFolder := "processed/"

  /** The output key: it lies directly in `processed/`, since nothing after the folder contains '/'. */
  function NewKey(key: string): (newKey: string)
    ensures |newKey| >= |ProcessedFolder| && newKey[..|ProcessedFolder|] == ProcessedFolder
    ensures '/' !in newKey[|ProcessedFolder|..]
  {
    var name := Text.Basename(key);
    SuffixWithoutSlash();
    InFolder(ProcessedFolder, name, ".csv", "_processed.csv");
    ProcessedFolder + Text.Replace(name, ".csv", "_processed.csv")
  }

  lemma SuffixWithoutSlash()
    ensures '/' !in "_processed.csv"
  {
  }

  /** A folder followed by a replaced name without '/' has no '/' after the folder. */
  lemma InFolder(folder: string, name: string, pat: string, rep: string)
    requires pat != [] && '/' !in name && '/' !in rep
    ensures var k := folder + Text.Replace(name, pat, rep);
      |k| >= |folder| && k[..|folder|] == folder && '/' !in k[|folder|..]
  {
    Text.ReplaceIntroducesNothing(name, pat, rep, '/');
    var k := folder + Text.Replace(name, pat, rep);
    assert k[|folder|..] == Text.Replace(name, pat, rep);
  }

  /**
   * A key ending in `<stem>.csv`, with `stem` after the last '/' (or no '/'
   * at all) and `.csv` occurring only at the end, maps to `processed/<stem>_processed.csv`.
   */
  lemma NewKeyOfCsvFile(dir: string, stem: string)
    requires dir == [] || dir[|dir| - 1] == '/'
    requires '/' !in stem
    requires forall i: nat :: i < |stem| ==> !Text.OccursAt(stem + ".csv", ".csv", i)
    ensures NewKey(dir + stem + ".csv") == ProcessedFolder + stem + "_processed.csv"
  {
    var name := stem + ".csv";
    assert '/' !in name;
    var key := dir + stem + ".csv";
    assert key == dir + name;
    Text.BasenameOfFile(dir, name);
    assert Text.Basename(key) == name;
    Text.ReplaceFinalOccurrence(stem, ".csv", "_processed.csv");
    assert Text.Replace(name, ".csv", "_processed.csv") == stem + "_processed.csv";
    assert NewKey(key) == ProcessedFolder + Text.Replace(name, ".csv", "_processed.csv");
  }

  /**
   * A file name `<stem>.csv` without a directory, '/' or '.' in the stem, becomes
   * `processed/<stem>_processed.csv`: `online_gaming_insights.csv` becomes
   * `processed/online_gaming_insights_processed.csv`.
   */
  lemma NewKeyOfStem(stem: string)
    requires '/' !in stem && '.' !in stem
    ensures NewKey(stem + ".csv") == ProcessedFolder + stem + "_processed.csv"
  {
    Text.OnlyFinalOccurrence(stem, ".csv");
    NewKeyOfCsvFile("", stem);
    assert "" + stem + ".csv" == stem + ".csv";
  }

  /** A basename without `.csv` is kept as it is. */
  lemma NewKeyWithoutCsv(key: string)
    requires forall i: nat :: !Text.OccursAt(Text.Basename(key), ".csv", i)
    ensures NewKey(key) == ProcessedFolder + Text.Basename(key)
  {
    Text.ReplaceWithoutOccurrence(Text.Basename(key), ".csv", "_processed.csv");
  }

  // ---------------------------------------------------------------------------
  // The handler
  // ---------------------------------------------------------------------------

  /** Where the event points: a missing key (KeyError), an empty `Records` list (IndexError), or the object. */
  datatype Target = MissingField | NoRecord | Located(bucket: string, key: string)

  function Locate(event: Event): (target: Target)
    ensures target.NoRecord? <==> event.records == Some([])
    ensures target.Located? <==>
      event.records.Some? && event.records.value != [] &&
      event.records.value[0].bucketName.Some? && event.records.value[0].objectKey.Some?
    ensures target.Located? ==>
      target.bucket == event.records.value[0].bucketName.value &&
      target.key == event.records.value[0].objectKey.value
  {
    match event.records
    case None => MissingField
    case Some(records) =>
      if records == [] then NoRecord
      else if records[0].bucketName.None? || records[0].objectKey.None? then MissingField
      else Located(records[0].bucketName.value, records[0].objectKey.value)
  }

  const EventErrorBody := "Error de evento S3."

  function ReadErrorBody(message: string): string
  {
    "Error al procesar el archivo: " + message
  }

  function SuccessBody(newKey: string): string
  {
    "Procesamiento completado. Archivo guardado en " + newKey
  }

  /**
   * `lambda_handler`. `read` stands for `get_object` plus `read_csv` on a bucket
   * and key; `upload` is what `put_object` receives, None when nothing is written.
   */
  method LambdaHandler(event: Event, read: (string, string) -> ReadOutcome)
    returns (outcome: Outcome, upload: Option<Upload>)
    ensures Locate(event).MissingField? ==> outcome == Response(400, EventErrorBody) && upload == None
    ensures Locate(event).NoRecord? ==> outcome == Raised && upload == None
    ensures Locate(event).Located? && read(Locate(event).bucket, Locate(event).key).ReadFailed? ==>
      && outcome == Response(500, ReadErrorBody(read(Locate(event).bucket, Locate(event).key).message))
      && upload == None
    ensures Locate(event).Located? && read(Locate(event).bucket, Locate(event).key).Loaded? ==>
      var bucket, key := Locate(event).bucket, Locate(event).key;
      && upload == Some(Upload(bucket, NewKey(key), Transform(read(bucket, key).rows)))
      && outcome == Response(200, SuccessBody(NewKey(key)))
  {
    var target := Locate(event);
    if target.MissingField? {
      return Response(400, EventErrorBody), None;
    }
    if target.NoRecord? {
      return Raised, None;
    }
    var bucket, key := target.bucket, target.key;
    var loaded := read(bucket, key);
    if loaded.ReadFailed? {
      return Response(500, ReadErrorBody(loaded.message)), None;
    }
    var df := new PlayerFrame(loaded.rows);
    df.AddWeeklyPlayTime();
    df.AddAgeSegment();
    var processed := df.Processed();
    assert processed == Transform(loaded.rows);
    var newKey := NewKey(key);
    upload := Some(Upload(bucket, newKey, processed));
    outcome := Response(200, SuccessBody(newKey));
  }
}
