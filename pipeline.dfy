/** `DataCleaner.run`: read, deduplicate, transform, load both tables, then write
    the CSV backup of the raw duplicates and the JSON backup of the transformed
    clean rows. Any raised error ends the run where it happens. */
module Pipeline {
  import opened Values
  import opened Dates
  import opened Normalize
  import opened Dedup
  import opened Database
  import opened Backup

  /** What the run leaves behind, in order. */
  datatype Effect =
    | Inserted(table: string, report: InsertReport)
    | CsvWritten(file: string, frame: Frame)
    | JsonWritten(file: string, document: Document)

  datatype Outcome = Completed | Failed(error: Error)

  datatype Run = Run(effects: seq<Effect>, outcome: Outcome)

  /** Everything outside the program: the two database sessions, the file
      system, the timestamp in the file names and the fallback date parser. */
  datatype World = World(dataDb: Oracle, rejectDb: Oracle, storage: Storage, stamp: string,
                         fallback: string -> Option<CalendarDate>)

  function CsvName(stamp: string): string
  {
    "data_reject_" + stamp + ".csv"
  }

  function JsonName(stamp: string): string
  {
    "data_" + stamp + ".json"
  }

  /** Steps 5 and 6: the CSV backup of the raw duplicates when there are any,
      then the JSON backup of the transformed clean rows. */
  function BackupSpec(duplicates: Frame, cleanT: Frame, w: World, done: seq<Effect>): Run
  {
    var csv: Result<seq<Effect>> :=
      if duplicates.rows == [] then Ok(done)
      else
        match CsvSpec(duplicates, CsvName(w.stamp), w.storage)
        case Err(e) => Err(e)
        case Ok(frame) => Ok(done + [CsvWritten(CsvName(w.stamp), frame)]);
    match csv
    case Err(e) => Run(done, Failed(e))
    case Ok(effects) =>
      match JsonSpec(cleanT, JsonName(w.stamp), w.storage)
      case Err(e) => Run(effects, Failed(e))
      case Ok(doc) => Run(effects + [JsonWritten(JsonName(w.stamp), doc)], Completed)
  }

  /** Step 4: the clean rows into `data` unless there are none, then the
      duplicates into `data_reject` unless there are none. A failed insert ends
      the run; rows committed before stay committed. */
  function LoadSpec(cleanT: Frame, dupT: Frame, w: World): Run
    requires WellFormed(cleanT) && WellFormed(dupT)
  {
    var first: Run :=
      if cleanT.rows == [] then Run([], Completed)
      else
        match InsertSpec(cleanT, "data", false, w.dataDb)
        case Err(e) => Run([], Failed(e))
        case Ok(report) => Run([Inserted("data", report)], Completed);
    if first.outcome.Failed? || dupT.rows == [] then first
    else
      match InsertSpec(dupT, "data_reject", true, w.rejectDb)
      case Err(e) => Run(first.effects, Failed(e))
      case Ok(report) => Run(first.effects + [Inserted("data_reject", report)], Completed)
  }

  /** What `run` does on the frame `read_csv` returned. */
  function RunSpec(f: Frame, w: World): Run
    requires WellFormed(f)
  {
    CleanDataFacts(f);
    match CleanData(f)
    case Err(e) => Run([], Failed(e))
    case Ok(p) =>
      NormalizeFrameShape(p.clean, w.fallback);
      NormalizeFrameShape(p.duplicates, w.fallback);
      var cleanT := NormalizeFrame(p.clean, w.fallback);
      var dupT := NormalizeFrame(p.duplicates, w.fallback);
      var loaded := LoadSpec(cleanT, dupT, w);
      if loaded.outcome.Failed? then loaded
      else BackupSpec(p.duplicates, cleanT, w, loaded.effects)
  }

  /** Step 4 of `run`. */
  method Load(cleanT: Frame, dupT: Frame, w: World) returns (run: Run)
    requires WellFormed(cleanT) && WellFormed(dupT)
    ensures run == LoadSpec(cleanT, dupT, w)
  {
    var effects: seq<Effect> := [];
    if cleanT.rows != [] {
      var r := InsertToDatabase(cleanT, "data", false, w.dataDb);
      if r.Err? {
        return Run(effects, Failed(r.error));
      }
      effects := effects + [Inserted("data", r.value)];
    }
    if dupT.rows != [] {
      var r := InsertToDatabase(dupT, "data_reject", true, w.rejectDb);
      if r.Err? {
        return Run(effects, Failed(r.error));
      }
      effects := effects + [Inserted("data_reject", r.value)];
    }
    run := Run(effects, Completed);
  }

  /** Steps 5 and 6 of `run`. */
  method SaveBackups(duplicates: Frame, cleanT: Frame, w: World, done: seq<Effect>) returns (run: Run)
    ensures run == BackupSpec(duplicates, cleanT, w, done)
  {
    var effects := done;
    var csvName := CsvName(w.stamp);
    if duplicates.rows != [] {
      var c := CsvSpec(duplicates, csvName, w.storage);
      if c.Err? {
        return Run(effects, Failed(c.error));
      }
      effects := effects + [CsvWritten(csvName, c.value)];
    }
    var jsonName := JsonName(w.stamp);
    var doc := SaveToJson(cleanT, jsonName, w.storage);
    if doc.Err? {
      return Run(effects, Failed(doc.error));
    }
    run := Run(effects + [JsonWritten(jsonName, doc.value)], Completed);
  }

  /** `run`: the steps in order, each raised error ending the run. */
  method RunCleaner(f: Frame, w: World) returns (run: Run)
    requires WellFormed(f)
    ensures run == RunSpec(f, w)
  {
    CleanDataFacts(f);
    var split := CleanData(f);
    if split.Err? {
      return Run([], Failed(split.error));
    }
    var cleanData := split.value.clean;
    var duplicateData := split.value.duplicates;
    NormalizeFrameShape(cleanData, w.fallback);
    NormalizeFrameShape(duplicateData, w.fallback);
    var cleanT := TransformData(cleanData, w.fallback);
    var dupT := TransformData(duplicateData, w.fallback);
    run := Load(cleanT, dupT, w);
    if run.outcome.Completed? {
      run := SaveBackups(duplicateData, cleanT, w, run.effects);
    }
  }

  /** The integer fields of a record are exactly the numeric columns. */
  lemma IntKeysAreNumeric()
    ensures forall k :: 0 <= k < |RecordKeys| && KindOf(RecordKeys[k]) == IntKind ==>
      RuleFor(RecordKeys[k]) == Some(NumericRule)
  {
  }

  /** A transformed row with all thirteen columns always gives a record: its
      integer fields are the coerced numbers and its list fields the parsed lists. */
  lemma ShapeNormalizedRow(row: Row)
    requires forall k :: 0 <= k < |RecordKeys| ==> RecordKeys[k] in row && NormalizedCell(RecordKeys[k], row[RecordKeys[k]])
    ensures ShapeRecord(row).Ok?
    ensures forall k :: 0 <= k < |RecordKeys| && KindOf(RecordKeys[k]) == IntKind ==>
      row[RecordKeys[k]].Num? && ShapeRecord(row).value[k] == JInt(row[RecordKeys[k]].n)
    ensures forall k :: 0 <= k < |RecordKeys| && RuleFor(RecordKeys[k]) == Some(ArrayRule) ==>
      row[RecordKeys[k]].Items? && ShapeRecord(row).value[k] == JList(row[RecordKeys[k]].items)
  {
    forall k | 0 <= k < |RecordKeys|
      ensures FieldValue(RecordKeys[k], row[RecordKeys[k]]).Ok?
    {
      FieldOfNormalized(k, row[RecordKeys[k]]);
    }
    ShapeFieldsOk(row, RecordKeys);
    forall k | 0 <= k < |RecordKeys|
      ensures KindOf(RecordKeys[k]) == IntKind ==>
        row[RecordKeys[k]].Num? && ShapeRecord(row).value[k] == JInt(row[RecordKeys[k]].n)
      ensures RuleFor(RecordKeys[k]) == Some(ArrayRule) ==>
        row[RecordKeys[k]].Items? && ShapeRecord(row).value[k] == JList(row[RecordKeys[k]].items)
    {
      FieldOfNormalized(k, row[RecordKeys[k]]);
    }
  }

  /** One transformed cell of a record column converts: a number to itself, a
      list to itself. */
  lemma FieldOfNormalized(k: nat, v: Value)
    requires k < |RecordKeys| && NormalizedCell(RecordKeys[k], v)
    ensures FieldValue(RecordKeys[k], v).Ok?
    ensures KindOf(RecordKeys[k]) == IntKind ==> v.Num? && FieldValue(RecordKeys[k], v) == Ok(JInt(v.n))
    ensures RuleFor(RecordKeys[k]) == Some(ArrayRule) ==> v.Items? && FieldValue(RecordKeys[k], v) == Ok(JList(v.items))
  {
    IntKeysAreNumeric();
  }

  /** `save_to_json` on the transformed clean rows of a frame with all thirteen
      columns fails only on the file system. */
  lemma JsonOfNormalized(f: Frame, fallback: string -> Option<CalendarDate>)
    requires WellFormed(f) && forall k :: 0 <= k < |RecordKeys| ==> RecordKeys[k] in f.columns
    ensures ShapeRows(NormalizeFrame(f, fallback).rows).Ok?
  {
    NormalizeFrameFacts(f, fallback);
    var g := NormalizeFrame(f, fallback);
    forall i | 0 <= i < |g.rows| ensures ShapeRecord(g.rows[i]).Ok? {
      forall k | 0 <= k < |RecordKeys|
        ensures RecordKeys[k] in g.rows[i] && NormalizedCell(RecordKeys[k], g.rows[i][RecordKeys[k]])
      {
        assert RecordKeys[k] in ColumnSet(f);
      }
      ShapeNormalizedRow(g.rows[i]);
    }
    ShapeRowsOk(g.rows);
  }

  /** Without an `ids` column a frame with rows stops the run in `clean_data`,
      which leaves nothing behind. */
  lemma RunWithoutIds(f: Frame, w: World)
    requires WellFormed(f) && "ids" !in f.columns && f.rows != []
    ensures RunSpec(f, w) == Run([], Failed(MissingColumn("ids")))
  {
    CleanDataFacts(f);
  }

  /** A frame without rows, with or without an `ids` column, loads nothing,
      writes no CSV and ends with a JSON backup of `row_count` 0. */
  lemma RunEmptyFrame(f: Frame, w: World)
    requires WellFormed(f) && f.rows == []
    ensures w.storage.makedirs && w.storage.opens(JsonName(w.stamp)) ==>
      RunSpec(f, w) == Run([JsonWritten(JsonName(w.stamp), Document(0, []))], Completed)
    ensures !(w.storage.makedirs && w.storage.opens(JsonName(w.stamp))) ==>
      RunSpec(f, w) == Run([], Failed(WriteFailed(JsonName(w.stamp))))
  {
    CleanDataFacts(f);
    var p := CleanData(f).value;
    NormalizeFrameShape(p.clean, w.fallback);
    NormalizeFrameShape(p.duplicates, w.fallback);
    var cleanT := NormalizeFrame(p.clean, w.fallback);
    assert cleanT.rows == [];
    assert ShapeRows(cleanT.rows) == Ok([]);
  }

  /** A failed load of the clean rows ends the run before any backup file is written. */
  lemma DataLoadFailureStopsRun(f: Frame, w: World)
    requires WellFormed(f) && "ids" in f.columns
    ensures CleanData(f).Ok? && WellFormed(NormalizeFrame(CleanData(f).value.clean, w.fallback))
    ensures var p := CleanData(f).value;
      var cleanT := NormalizeFrame(p.clean, w.fallback);
      p.clean.rows != [] && InsertSpec(cleanT, "data", false, w.dataDb).Err? ==>
        RunSpec(f, w) == Run([], Failed(InsertSpec(cleanT, "data", false, w.dataDb).error))
  {
    CleanDataShape(f);
    var p := CleanData(f).value;
    NormalizeFrameShape(p.clean, w.fallback);
    NormalizeFrameShape(p.duplicates, w.fallback);
    var cleanT := NormalizeFrame(p.clean, w.fallback);
    var dupT := NormalizeFrame(p.duplicates, w.fallback);
    var r := InsertSpec(cleanT, "data", false, w.dataDb);
    if p.clean.rows != [] && r.Err? {
      assert LoadSpec(cleanT, dupT, w) == Run([], Failed(r.error));
    }
  }

  /** The effects of a completed load: the `data` insert of the given clean rows
      when there are any, then the `data_reject` insert of the given duplicates
      when there are any. */
  lemma LoadCompleted(cleanT: Frame, dupT: Frame, w: World)
    requires WellFormed(cleanT) && WellFormed(dupT)
    requires LoadSpec(cleanT, dupT, w).outcome == Completed
    ensures var effects := LoadSpec(cleanT, dupT, w).effects;
      var c := if cleanT.rows != [] then 1 else 0;
      var d := if dupT.rows != [] then 1 else 0;
      && |effects| == c + d
      && (c == 1 ==>
            effects[0].Inserted? && effects[0].table == "data"
            && effects[0].report.statements == Statements(cleanT, "data", false))
      && (d == 1 ==>
            effects[c].Inserted? && effects[c].table == "data_reject"
            && effects[c].report.statements == Statements(dupT, "data_reject", true))
  {
    InsertFacts(cleanT, "data", false, w.dataDb);
    InsertFacts(dupT, "data_reject", true, w.rejectDb);
  }

  /** The effects of completed backups: the CSV of the given duplicates when there
      are any, then the JSON document with one record per given clean row. */
  lemma BackupCompleted(duplicates: Frame, cleanT: Frame, w: World, done: seq<Effect>)
    requires BackupSpec(duplicates, cleanT, w, done).outcome == Completed
    ensures ShapeRows(cleanT.rows).Ok?
    ensures var effects := BackupSpec(duplicates, cleanT, w, done).effects;
      && effects[..|done|] == done
      && |effects| == |done| + (if duplicates.rows != [] then 2 else 1)
      && (duplicates.rows != [] ==> effects[|done|] == CsvWritten(CsvName(w.stamp), duplicates))
      && effects[|effects| - 1]
         == JsonWritten(JsonName(w.stamp), Document(|cleanT.rows|, ShapeRows(cleanT.rows).value))
  {
  }

  /** A run on a frame with `ids` is the load of the transformed halves,
      followed by the backups when the load completed. */
  lemma RunSteps(f: Frame, w: World)
    requires WellFormed(f) && "ids" in f.columns
    ensures CleanData(f).Ok?
    ensures var p := CleanData(f).value;
      && WellFormed(NormalizeFrame(p.clean, w.fallback))
      && WellFormed(NormalizeFrame(p.duplicates, w.fallback))
    ensures var p := CleanData(f).value;
      var loaded := LoadSpec(NormalizeFrame(p.clean, w.fallback), NormalizeFrame(p.duplicates, w.fallback), w);
      RunSpec(f, w)
        == if loaded.outcome.Failed? then loaded
           else BackupSpec(p.duplicates, NormalizeFrame(p.clean, w.fallback), w, loaded.effects)
  {
    CleanDataShape(f);
    var p := CleanData(f).value;
    NormalizeFrameShape(p.clean, w.fallback);
    NormalizeFrameShape(p.duplicates, w.fallback);
  }

  /** A completed run did, in order: the `data` load of the transformed clean
      rows when there were any, the `data_reject` load of the transformed
      duplicates when there were any, the CSV of the raw duplicates when there
      were any, and last the JSON of the transformed clean rows, whose
      `row_count` is the number of distinct ids. */
  lemma RunCompleted(f: Frame, w: World)
    requires WellFormed(f) && "ids" in f.columns
    requires RunSpec(f, w).outcome == Completed
    ensures CleanData(f).Ok?
    ensures var p := CleanData(f).value;
      && WellFormed(NormalizeFrame(p.clean, w.fallback))
      && WellFormed(NormalizeFrame(p.duplicates, w.fallback))
      && ShapeRows(NormalizeFrame(p.clean, w.fallback).rows).Ok?
    ensures var p := CleanData(f).value;
      var cleanT := NormalizeFrame(p.clean, w.fallback);
      var dupT := NormalizeFrame(p.duplicates, w.fallback);
      var effects := RunSpec(f, w).effects;
      var c := if p.clean.rows != [] then 1 else 0;
      var d := if p.duplicates.rows != [] then 1 else 0;
      && |effects| == c + 2 * d + 1
      && (c == 1 ==>
            effects[0].Inserted? && effects[0].table == "data"
            && effects[0].report.statements == Statements(cleanT, "data", false))
      && (d == 1 ==>
            effects[c].Inserted? && effects[c].table == "data_reject"
            && effects[c].report.statements == Statements(dupT, "data_reject", true)
            && effects[c + 1] == CsvWritten(CsvName(w.stamp), p.duplicates))
      && effects[|effects| - 1]
         == JsonWritten(JsonName(w.stamp), Document(|p.clean.rows|, ShapeRows(cleanT.rows).value))
      && |p.clean.rows| == |FirstOccurrences(Keys(f.rows))|
  {
    RunSteps(f, w);
    CleanDataShape(f);
    var p := CleanData(f).value;
    NormalizeFrameShape(p.clean, w.fallback);
    NormalizeFrameShape(p.duplicates, w.fallback);
    LoadThenBackup(NormalizeFrame(p.clean, w.fallback), NormalizeFrame(p.duplicates, w.fallback),
                   p.duplicates, w);
  }

  /** A completed load followed by completed backups: the inserts, the CSV and
      the JSON, in that order. */
  lemma LoadThenBackup(cleanT: Frame, dupT: Frame, duplicates: Frame, w: World)
    requires WellFormed(cleanT) && WellFormed(dupT) && |duplicates.rows| == |dupT.rows|
    requires LoadSpec(cleanT, dupT, w).outcome == Completed
    requires BackupSpec(duplicates, cleanT, w, LoadSpec(cleanT, dupT, w).effects).outcome == Completed
    ensures ShapeRows(cleanT.rows).Ok?
    ensures var effects := BackupSpec(duplicates, cleanT, w, LoadSpec(cleanT, dupT, w).effects).effects;
      var c := if cleanT.rows != [] then 1 else 0;
      var d := if dupT.rows != [] then 1 else 0;
      && |effects| == c + 2 * d + 1
      && (c == 1 ==>
            effects[0].Inserted? && effects[0].table == "data"
            && effects[0].report.statements == Statements(cleanT, "data", false))
      && (d == 1 ==>
            effects[c].Inserted? && effects[c].table == "data_reject"
            && effects[c].report.statements == Statements(dupT, "data_reject", true)
            && effects[c + 1] == CsvWritten(CsvName(w.stamp), duplicates))
      && effects[|effects| - 1]
         == JsonWritten(JsonName(w.stamp), Document(|cleanT.rows|, ShapeRows(cleanT.rows).value))
  {
    var loaded := LoadSpec(cleanT, dupT, w);
    LoadCompleted(cleanT, dupT, w);
    BackupCompleted(duplicates, cleanT, w, loaded.effects);
    var effects := BackupSpec(duplicates, cleanT, w, loaded.effects).effects;
    assert effects[..|loaded.effects|] == loaded.effects;
    assert forall k :: 0 <= k < |loaded.effects| ==> effects[k] == loaded.effects[k];
  }

  /** The outside world lets every step through: both databases connect within
      the retries and commit, and both backup files can be written. */
  predicate Accommodating(w: World)
  {
    && ConnectOutcome(w.dataDb.connect).Ok? && w.dataDb.commits
    && ConnectOutcome(w.rejectDb.connect).Ok? && w.rejectDb.commits
    && w.storage.makedirs && w.storage.opens(CsvName(w.stamp)) && w.storage.opens(JsonName(w.stamp))
  }

  /** A frame with all thirteen record columns, in a world that lets every step
      through, completes the run: no transformed row can make `save_to_json` raise. */
  lemma RunSucceeds(f: Frame, w: World)
    requires WellFormed(f) && forall k :: 0 <= k < |RecordKeys| ==> RecordKeys[k] in f.columns
    requires Accommodating(w)
    ensures RunSpec(f, w).outcome == Completed
  {
    assert RecordKeys[1] == "ids";
    CleanDataShape(f);
    var p := CleanData(f).value;
    NormalizeFrameShape(p.clean, w.fallback);
    NormalizeFrameShape(p.duplicates, w.fallback);
    var cleanT := NormalizeFrame(p.clean, w.fallback);
    var dupT := NormalizeFrame(p.duplicates, w.fallback);
    InsertFacts(cleanT, "data", false, w.dataDb);
    InsertFacts(dupT, "data_reject", true, w.rejectDb);
    assert LoadSpec(cleanT, dupT, w).outcome == Completed;
    JsonOfNormalized(p.clean, w.fallback);
    assert RunSpec(f, w) == BackupSpec(p.duplicates, cleanT, w, LoadSpec(cleanT, dupT, w).effects);
  }
}
