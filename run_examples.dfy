/** The three-row run: ids a, b, a, with all thirteen columns. */
module RunExamples {
  import opened Values
  import opened Normalize
  import opened Dedup
  import opened Database
  import opened Backup
  import opened Pipeline
  import FieldExamples

  /** A completed run that split off two clean rows and one duplicate leaves
      four effects. */
  lemma TwoCleanOneDuplicate(f: Frame, w: World)
    requires WellFormed(f) && "ids" in f.columns
    requires RunSpec(f, w).outcome == Completed
    requires CleanData(f).Ok?
    requires |CleanData(f).value.clean.rows| == 2 && |CleanData(f).value.duplicates.rows| == 1
    ensures var effects := RunSpec(f, w).effects;
      && |effects| == 4
      && effects[0].Inserted? && effects[0].table == "data" && |effects[0].report.statements| == 2
      && effects[1].Inserted? && effects[1].table == "data_reject" && |effects[1].report.statements| == 1
      && effects[2] == CsvWritten(CsvName(w.stamp), CleanData(f).value.duplicates)
      && effects[3].JsonWritten? && effects[3].document.rowCount == 2
      && |effects[3].document.data| == 2
  {
    RunCompleted(f, w);
    CleanDataShape(f);
    var p := CleanData(f).value;
    NormalizeFrameShape(p.clean, w.fallback);
    NormalizeFrameShape(p.duplicates, w.fallback);
    var cleanT := NormalizeFrame(p.clean, w.fallback);
    var dupT := NormalizeFrame(p.duplicates, w.fallback);
    var effects := RunSpec(f, w).effects;
    assert |effects| == 4;
    assert |Statements(cleanT, "data", false)| == 2;
    assert |Statements(dupT, "data_reject", true)| == 1;
    assert effects[3] == JsonWritten(JsonName(w.stamp), Document(2, ShapeRows(cleanT.rows).value));
  }

  /** Three rows with ids a, b, a, in a world where both databases connect and
      commit and both files can be written: the run completes with four effects.
      Two transformed clean rows go to `data`, the transformed duplicate goes to
      `data_reject`, the CSV holds the third row as read, and the JSON document
      holds two records. */
  lemma ThreeRowRun(r1: Row, r2: Row, r3: Row, w: World)
    requires WellFormed(Frame(RecordKeys, [r1, r2, r3]))
    requires "ids" in r1 && "ids" in r2 && "ids" in r3
    requires r1["ids"] == Str("a") && r2["ids"] == Str("b") && r3["ids"] == Str("a")
    requires Accommodating(w)
    ensures RunSpec(Frame(RecordKeys, [r1, r2, r3]), w).outcome == Completed
    ensures var effects := RunSpec(Frame(RecordKeys, [r1, r2, r3]), w).effects;
      && |effects| == 4
      && effects[0].Inserted? && effects[0].table == "data" && |effects[0].report.statements| == 2
      && effects[1].Inserted? && effects[1].table == "data_reject" && |effects[1].report.statements| == 1
      && effects[2] == CsvWritten(CsvName(w.stamp), Frame(RecordKeys, [r3]))
      && effects[3].JsonWritten? && effects[3].document.rowCount == 2
      && |effects[3].document.data| == 2
  {
    var f := Frame(RecordKeys, [r1, r2, r3]);
    assert "ids" in RecordKeys by { assert RecordKeys[1] == "ids"; }
    RunSucceeds(f, w);
    FieldExamples.CleanDataExample(RecordKeys, r1, r2, r3);
    TwoCleanOneDuplicate(f, w);
  }
}
