/** `DataCleaner.save_to_json` and `save_to_csv`: the backup files. The file
    system is an oracle: whether the target directory can be created, and which
    files can be opened for writing. The JSON and CSV text itself is not modelled;
    the model keeps the document and the frame that are written. */
module Backup {
  import opened Text
  import opened Values

  datatype Storage = Storage(makedirs: bool, opens: string -> bool)

  /** A JSON value of a record: a string, an integer or a list of strings. */
  datatype Json = JText(s: string) | JInt(n: int) | JList(xs: seq<string>)

  /** The values of one record, in the order of `RecordKeys`. */
  type Record = seq<Json>

  /** `{"row_count": ..., "data": [...]}`. */
  datatype Document = Document(rowCount: nat, data: seq<Record>)

  /** The keys of every record, in the order they are built. */
  const RecordKeys: seq<string> := [
    "dates", "ids", "names", "monthly_listeners", "popularity", "followers", "genres",
    "first_release", "last_release", "num_releases", "num_tracks", "playlists_found",
    "feat_track_ids"]

  datatype Kind = TextKind | OptionalTextKind | IntKind | ListKind | ReleaseKind

  /** How each key is converted. */
  function KindOf(key: string): Kind
  {
    if key == "ids" || key == "names" then TextKind
    else if key == "dates" || key == "playlists_found" then OptionalTextKind
    else if key == "genres" || key == "feat_track_ids" then ListKind
    else if key == "first_release" || key == "last_release" then ReleaseKind
    else IntKind
  }

  /** Python's `int(v)`: integers stay; a string must hold an optional sign and
      digits, blanks around allowed; anything else raises. */
  function ToInt(key: string, v: Value): Result<int>
  {
    match v
    case Num(n) => Ok(n)
    case Str(s) => (match ParseInteger(Strip(s)) case Some(n) => Ok(n) case None => Err(NotAnInteger(key)))
    case _ => Err(NotAnInteger(key))
  }

  /** One field of a record. `str(v) if pd.notna(v) else ""` for the optional
      texts; `int(v) if pd.notna(v) else 0`; the list or `[]`; the release text
      unless it is `nan`, `None` or empty. */
  function FieldValue(key: string, v: Value): (r: Result<Json>)
    ensures r.Err? ==> KindOf(key) == IntKind && !v.Missing? && !v.Num? && r.error == NotAnInteger(key)
    ensures KindOf(key) == IntKind ==>
      && (v.Missing? ==> r == Ok(JInt(0)))
      && (v.Num? ==> r == Ok(JInt(v.n)))
      && (v.Str? ==> (r.Ok? <==> ParseInteger(Strip(v.text)).Some?))
      && (v.Str? && r.Ok? ==> r == Ok(JInt(ParseInteger(Strip(v.text)).value)))
      && (v.Items? ==> r == Err(NotAnInteger(key)))
    ensures KindOf(key) == ListKind ==> r == Ok(JList(if v.Items? then v.items else []))
    ensures KindOf(key) == TextKind ==> r == Ok(JText(ToStr(v)))
    ensures KindOf(key) == OptionalTextKind ==> r == Ok(JText(if v.Missing? then "" else ToStr(v)))
    ensures KindOf(key) == ReleaseKind ==>
      && r.Ok? && r.value.JText?
      && (r.value.s == "" <==> v.Missing? || ToStr(v) == "nan" || ToStr(v) == "None" || ToStr(v) == "")
      && (r.value.s != "" ==> r.value.s == ToStr(v))
  {
    match KindOf(key)
    case TextKind => Ok(JText(ToStr(v)))
    case OptionalTextKind => Ok(JText(if v.Missing? then "" else ToStr(v)))
    case IntKind => if v.Missing? then Ok(JInt(0)) else (match ToInt(key, v) case Ok(n) => Ok(JInt(n)) case Err(e) => Err(e))
    case ListKind => Ok(JList(if v.Items? then v.items else []))
    case ReleaseKind =>
      var s := ToStr(v);
      Ok(JText(if v.Missing? || s == "nan" || s == "None" || s == "" then "" else s))
  }

  /** The fields for `keys`, built in order; the first missing column or failed
      conversion is raised. */
  function ShapeFields(row: Row, keys: seq<string>): (r: Result<Record>)
    ensures r.Ok? ==> |r.value| == |keys|
  {
    if keys == [] then Ok([])
    else if keys[0] !in row then Err(MissingColumn(keys[0]))
    else
      match FieldValue(keys[0], row[keys[0]])
      case Err(e) => Err(e)
      case Ok(j) =>
        match ShapeFields(row, keys[1..])
        case Err(e) => Err(e)
        case Ok(rest) => Ok([j] + rest)
  }

  function ShapeRecord(row: Row): Result<Record>
  {
    ShapeFields(row, RecordKeys)
  }

  /** The records of `rows` in order, or the error of the first row that fails. */
  function ShapeRows(rows: seq<Row>): (r: Result<seq<Record>>)
    ensures r.Ok? ==> |r.value| == |rows|
  {
    if rows == [] then Ok([])
    else
      var n := |rows| - 1;
      match ShapeRows(rows[..n])
      case Err(e) => Err(e)
      case Ok(rs) =>
        match ShapeRecord(rows[n])
        case Err(e) => Err(e)
        case Ok(x) => Ok(rs + [x])
  }

  /** What `save_to_json` writes to `file`, or what it raises. */
  function JsonSpec(f: Frame, file: string, storage: Storage): Result<Document>
  {
    if !storage.makedirs then Err(WriteFailed(file))
    else
      match ShapeRows(f.rows)
      case Err(e) => Err(e)
      case Ok(rs) => if storage.opens(file) then Ok(Document(|f.rows|, rs)) else Err(WriteFailed(file))
  }

  /** Once a prefix of the rows fails, the whole frame fails with the same error. */
  lemma {:induction false} ShapeRowsErrExtends(rows: seq<Row>, i: nat)
    requires i <= |rows| && ShapeRows(rows[..i]).Err?
    ensures ShapeRows(rows) == ShapeRows(rows[..i])
  {
    if i < |rows| {
      var n := |rows| - 1;
      assert rows[..n][..i] == rows[..i];
      ShapeRowsErrExtends(rows[..n], i);
      assert rows[..n] == rows[..|rows| - 1];
    } else {
      assert rows[..i] == rows;
    }
  }

  /** `save_to_json`: create the directory, build one record per row in order,
      then write `row_count` and the records. */
  method SaveToJson(f: Frame, file: string, storage: Storage) returns (r: Result<Document>)
    ensures r == JsonSpec(f, file, storage)
  {
    if !storage.makedirs {
      return Err(WriteFailed(file));
    }
    var data: seq<Record> := [];
    for i := 0 to |f.rows|
      invariant ShapeRows(f.rows[..i]) == Ok(data)
    {
      var record := ShapeRecord(f.rows[i]);
      assert f.rows[..i + 1][..i] == f.rows[..i];
      if record.Err? {
        ShapeRowsErrExtends(f.rows, i + 1);
        return Err(record.error);
      }
      data := data + [record.value];
    }
    assert f.rows[..|f.rows|] == f.rows;
    if !storage.opens(file) {
      return Err(WriteFailed(file));
    }
    r := Ok(Document(|f.rows|, data));
  }

  /** `save_to_csv`: the frame written to `file`, index left out. */
  function CsvSpec(f: Frame, file: string, storage: Storage): (r: Result<Frame>)
    ensures r.Ok? <==> storage.makedirs && storage.opens(file)
    ensures r.Ok? ==> r.value == f
    ensures r.Err? ==> r.error == WriteFailed(file)
  {
    if storage.makedirs && storage.opens(file) then Ok(f) else Err(WriteFailed(file))
  }

  /** A written document counts exactly its records, one per row. */
  lemma JsonRowCount(f: Frame, file: string, storage: Storage)
    ensures JsonSpec(f, file, storage).Ok? ==>
      JsonSpec(f, file, storage).value.rowCount == |f.rows| == |JsonSpec(f, file, storage).value.data|
    ensures f.rows == [] && storage.makedirs && storage.opens(file) ==>
      JsonSpec(f, file, storage) == Ok(Document(0, []))
  {
  }

  /** When every field converts, the record holds exactly the converted fields. */
  lemma {:induction false} ShapeFieldsOk(row: Row, keys: seq<string>)
    requires forall k :: 0 <= k < |keys| ==> keys[k] in row && FieldValue(keys[k], row[keys[k]]).Ok?
    ensures ShapeFields(row, keys).Ok?
    ensures forall k :: 0 <= k < |keys| ==> ShapeFields(row, keys).value[k] == FieldValue(keys[k], row[keys[k]]).value
  {
    if keys != [] {
      ShapeFieldsOk(row, keys[1..]);
    }
  }

  /** A row missing one of the keys fails, and the error names a key. */
  lemma {:induction false} ShapeFieldsMissing(row: Row, keys: seq<string>, k: nat)
    requires k < |keys| && keys[k] !in row
    ensures ShapeFields(row, keys).Err?
    ensures ShapeFields(row, keys).error.MissingColumn? ==> ShapeFields(row, keys).error.name in keys
  {
    if k > 0 {
      ShapeFieldsMissing(row, keys[1..], k - 1);
    }
  }

  /** When every row converts, so does the frame, record by record. */
  lemma {:induction false} ShapeRowsOk(rows: seq<Row>)
    requires forall i :: 0 <= i < |rows| ==> ShapeRecord(rows[i]).Ok?
    ensures ShapeRows(rows).Ok?
    ensures forall i :: 0 <= i < |rows| ==> ShapeRows(rows).value[i] == ShapeRecord(rows[i]).value
  {
    if rows != [] {
      ShapeRowsOk(rows[..|rows| - 1]);
    }
  }
}
