# CSV data cleanser — a Dafny model of `DataCleaner`

This project models the core of `DataCleaner` in `main.py`. The cleaner reads
a CSV of music-catalog rows and splits it on the `ids` column into first
occurrences (clean) and later repeats (duplicates). It normalises the fields
of both sets: dates, upper-cased names, numeric coercion, list columns and
release years. It loads the clean rows into the `data` table and the
duplicates, tagged `Duplicate ID`, into `data_reject`. It writes the raw
duplicates to `data_reject_<stamp>.csv` and the transformed clean rows to
`data_<stamp>.json`.

Modules, one per concern of the source:

- `Text` (`text.dfy`): the Python string methods the cleaner uses (`strip`,
  `strip(chars)`, `replace`, `split`, `join`, `upper`).
- `Values` (`values.dfy`): cells, rows, frames, errors, and decimal text of
  integers.
- `Dates` (`dates.dfy`): `_parse_date`. `datetime.strptime` is modelled as
  CPython's `_strptime` regular expressions with backtracking. Then the
  calendar check and `strftime('%Y-%m-%d')`.
- `Arrays` (`arrays.dfy`): `_parse_array`.
- `Normalize` (`transform.dfy`): `transform_data`, column by column, as an
  imperative method proved equal to a specification function.
- `Dedup` (`dedup.dfy`): `clean_data` and `duplicated(keep='first')`.
- `Database` (`database.dfy`): `get_db_connection` (the retry loop) and
  `insert_to_database`. Both are methods proved against specification
  functions.
- `Backup` (`backup.dfy`): `save_to_json` (a method) and `save_to_csv`.
- `Pipeline` (`pipeline.dfy`): `run`, its steps in order.
- `DateExamples`, `FieldExamples`, `RunExamples`: concrete cases.

Everything outside the program is a parameter:

- `connect` says how the k-th `psycopg2.connect` ends.
- `execute` says whether the k-th `INSERT` is accepted.
- `commits` says whether `conn.commit()` returns normally.
- `Storage` says whether the target directory can be created and which files
  can be opened.
- `stamp` is the `%Y%m%d%H%M%S` timestamp.
- `fallback` stands for `pd.to_datetime(..., dayfirst=True)`.
- The frame `read_csv` returned is the input of `run`.

Behaviour of `main.py` worth knowing, which the model follows:

- `"1,000,000"` coerces to `0`, not `1000000`. `pd.to_numeric(errors='coerce')`
  does not read thousands separators (`FieldExamples.ToNumericSeparators`).
- An unparsable date is kept as its stripped text; the row is not rejected.
- The only reject reason is `Duplicate ID`.
- Rows are deduplicated before they are normalised, and duplicates are
  detected on the raw `ids` cell.
- A header-only CSV runs to completion even without an `ids` column:
  `duplicated` returns an empty mask for an empty frame before it looks at
  `subset` (`Pipeline.RunEmptyFrame`).
- The four output steps are not independent. Any raised error ends `run`. A
  failed load of `data` means no backup file is written
  (`Pipeline.DataLoadFailureStopsRun`). A failed CSV write means no JSON is
  written.
- The retry count (5) and delay (3 s) are constants, not configuration.

## Model

| member | source | states |
|---|---|---|
| Text.StripTrimmed | main.py:96 | `strip()` leaves a string that neither starts nor ends with whitespace, and leaves such a string alone |
| Text.StripSetShape | main.py:160 | `strip('[]')` leaves a piece of its input that neither starts nor ends with a stripped character |
| Text.StripSetIdempotent | main.py:162 | stripping twice is stripping once |
| Text.RemoveAllChars | main.py:160 | `replace(c, '')`: a character is in the result exactly when it is in the input and is not a removed one |
| Text.Split | main.py:162 | `split(',')` gives at least one piece and no piece holds a comma |
| Text.SplitRejoins | main.py:162 | joining the pieces of `split(c)` with `c` gives the input back |
| Text.SplitChars | main.py:162 | every character of every piece comes from the split string |
| Text.SplitAfter | main.py:162 | a comma-free piece followed by a comma splits off whole |
| Text.UpperFacts | main.py:132 | `upper()` leaves no lower-case ASCII letter, keeps every other character, and upper-casing twice is upper-casing once |
| Values.DecimalRoundTrip | main.py:137 | reading back the decimal text of any integer gives the integer |
| Values.NatDigitsValue | main.py:137 | the digits of a natural number have that value |
| Dates.FirstParseFirstMatch | main.py:108-113 | the format loop finds nothing exactly when every format fails; otherwise the result comes from a format before which all failed |
| Dates.ParseDate | main.py:92-120 | `_parse_date` gives None exactly for NaN and the empty string |
| Dates.Strptime | main.py:110 | `strptime` returns a date exactly when the format's first regex match takes the whole text and its year, month and day form a valid calendar date; the date is then those fields |
| Dates.ParseDateOutcome | main.py:92-120 | `_parse_date` gives None exactly for NaN and `''`; otherwise the canonical text of a calendar date, or the stripped input when all seven formats and the fallback fail |
| Dates.ParseDateIdempotent | main.py:92-120 | an input that is neither missing nor blank gives a date text, and normalising that text again gives it back unchanged |
| Dates.ParseCanonical | main.py:101-111 | a `YYYY-MM-DD` string of a valid date comes back unchanged |
| Dates.FirstParseCanonical | main.py:98-111 | the first two formats reject a `YYYY-MM-DD` text and `%Y-%m-%d` reads its date |
| Dates.DayFirstWins | main.py:99-111 | any `DD/MM/YYYY` text of a date is read day first, even when it is also a valid `MM/DD/YYYY` |
| Dates.EachFormatReadsItsOwnOutput | main.py:98-110 | every format reads back the date it printed |
| Dates.StrptimeRender | main.py:110-111 | `strptime(strftime(d, fmt), fmt) == d` for a format naming year, month and day |
| Dates.RenderMatches | main.py:110 | a format matches its own printed text at the front of any string, through the first regex alternative of each directive |
| Dates.SeparatorMissing | main.py:99-100 | `%d/…` and `%m/…` find no match in a text starting with three digits |
| Dates.Pad4Value | main.py:111 | the four printed year digits read back as the year |
| Dates.FillFormats | main.py:98-106 | each of the seven formats sets year, month and day |
| DateExamples.ParseDateDayFirst | main.py:99 | `13/04/2024` becomes `2024-04-13` |
| DateExamples.ParseDateAmbiguous | main.py:99-100 | `01/02/2024` becomes `2024-02-01` |
| Arrays.ParseArray | main.py:155-164 | NaN, `''` and any non-string cell give `[]`; every returned item is non-empty, trimmed, and holds no comma or quote |
| Arrays.KeepItems | main.py:162 | kept items are non-empty and trimmed |
| Arrays.KeepItemsAvoid | main.py:162 | trimming keeps only characters the pieces had |
| Arrays.ParseArrayRepr | main.py:155-164 | `_parse_array` reads back Python's `repr` of a list of clean items whose characters are printable ASCII other than the backslash, which `repr` writes unescaped |
| Arrays.SplitJoined | main.py:162 | splitting `', '.join(xs)` at commas and trimming gives `xs` back |
| Arrays.UnquoteJoined | main.py:160 | deleting quotes from the quoted items leaves the plain items joined |
| Arrays.QuotedEnds | main.py:160 | the joined quoted items begin and end with a quote, so `strip('[]')` stops there |
| Arrays.StripBrackets | main.py:160 | stripping brackets off a list's `repr` leaves the joined quoted items |
| FieldExamples.ParseArrayExample | main.py:155-164 | `"['pop', 'rock']"` becomes `['pop', 'rock']` |
| FieldExamples.ToNumericSeparators | main.py:137 | `"1,000,000"` coerces to 0 |
| FieldExamples.UpperExample | main.py:132 | `daft punk` becomes `DAFT PUNK` |
| Normalize.TransformData | main.py:122-148 | the transformed copy equals the specification function `NormalizeFrame`: every cell of a ruled column normalised by its rule, every other cell kept |
| Normalize.TransformColumns | main.py:134-145 | one `for col in cols: if col in df.columns` loop applies its rule to exactly the listed columns |
| Normalize.MapColumnStep | main.py:126-145 | rewriting one more present column is the same as adding it to the transformed set; an absent column changes nothing |
| Normalize.PartialFrameNone | main.py:124 | before any rule the copy equals the input |
| Normalize.NormalizeFrameFacts | main.py:122-148 | same columns, rows and row keys; unruled cells kept; numeric cells are integers, list cells lists of clean items, release cells never `nan`/`None`, names without lower-case letters |
| Normalize.NormalizeFrameShape | main.py:122-148 | same columns, same number of rows, still well formed |
| Normalize.NormalizeCellNormalized | main.py:126-145 | each rule's output has the shape its column promises |
| Normalize.ToNumeric | main.py:137 | a non-zero coerced value comes only from an integer cell or from text that reads as that integer; everything else becomes 0 |
| Normalize.UpperCell | main.py:132 | `.str.upper()` keeps text as text of the same length with no lower-case letter, and turns anything else into NaN |
| Normalize.ReleaseText | main.py:145 | the release text is never `nan` or `None`, and NaN becomes `''` |
| Normalize.ToNumericKeeps | main.py:137 | integers and their decimal text coerce to themselves |
| Normalize.ReleaseTextFacts | main.py:145 | release text is never `nan` or `None`; NaN becomes `''`; an integer becomes its decimal text |
| Dedup.CleanData | main.py:75-90 | raises `KeyError('ids')` exactly when the frame has rows and no `ids` column; a frame without rows gives two frames without rows; both frames keep the input's columns |
| Dedup.CleanDataKeepsFirst | main.py:79-82 | the clean rows are exactly the rows whose id does not occur earlier and the duplicates exactly the rest, both in input order; every duplicate's id belongs to a clean row that comes before it |
| Dedup.MaskPositions | main.py:79 | the rows `duplicated(keep='first')` leaves unmarked are those whose id does not occur earlier, and every marked id first occurs at an earlier unmarked row |
| Dedup.SelectPositions | main.py:81-82 | `df[mask == keep]` is the frame read at the positions whose flag is `keep`, in order |
| Dedup.CleanDataFacts | main.py:75-87 | a frame with rows and without `ids` raises; a frame without rows comes back as the clean frame with no duplicates; with `ids` both frames keep the columns, together hold exactly the input rows (as a multiset), the clean ids are the first occurrences (distinct, covering every id), and every duplicate's id has a clean row |
| Dedup.CleanDataShape | main.py:79-82 | the split keeps one row per distinct id and the rest are duplicates |
| Dedup.CleanDataDistinct | main.py:79-82 | with distinct ids nothing is a duplicate and the clean frame is the input |
| Dedup.CleanDataIdempotent | main.py:79-82 | cleaning the clean frame again finds no duplicates |
| Dedup.SelectFirstOccurrences | main.py:79-81 | the unmarked keys of `duplicated(keep='first')` are the first occurrences, in order |
| Dedup.FirstOccurrencesFacts | main.py:79 | first occurrences are distinct and hold every key |
| Dedup.SelectSplits | main.py:81-82 | `df[~mask]` and `df[mask]` together hold every row as often as the input |
| Dedup.MarkedHaveFirst | main.py:79-82 | every duplicate key has a first occurrence |
| Dedup.DistinctUnmarked | main.py:79-82 | distinct keys mark nothing |
| Dedup.SelectKeys | main.py:79-82 | the ids of the selected rows are the selected ids |
| Dedup.MaskPrefix | main.py:79 | whether a row is a duplicate depends only on the rows before it |
| FieldExamples.CleanDataExample | main.py:79-82 | ids a, b, a, whatever the other columns: rows 1 and 2 clean, row 3 duplicate |
| Database.GetDbConnection | main.py:42-61 | returns the first of five attempts that connects, or raises the fifth attempt's error; the trace alternates attempts and three-second sleeps with no sleep after the last |
| Database.FirstConnectedFacts | main.py:46-53 | the search finds the earliest connecting attempt, or none when all are refused |
| Database.RetryBounds | main.py:42-61 | one to five attempts; success iff some attempt connects, stopping at the first; failure carries the last error |
| Database.RetryTraceShape | main.py:46-61 | attempt k at position 2k, a three-second sleep at every odd position, 2n-1 events |
| Database.RetryLastAttemptSucceeds | main.py:46-61 | four refusals then a connection: connected on the fifth attempt |
| Database.BuildStatement | main.py:175-190 | the inner loop builds the row's statement |
| Database.SqlValue | main.py:178-186 | a list column binds its list, or the empty list when the cell is not one; every other column binds the cell unchanged |
| Database.RowStatement | main.py:175-195 | the statement names the row's columns in frame order, binds one value per column, and adds one column for the reject table |
| Database.RowStatementShape | main.py:175-195 | as many columns as values, in frame column order; list columns bind their list, or `[]` for a cell that is not a list; other cells unchanged; the reject table appends `reject_reason = 'Duplicate ID'` |
| Database.SendRows | main.py:174-203 | the row loop sends one statement per row, in row order; the inserted count is the number of accepted statements and the two counts add up to the row count |
| Database.InsertToDatabase | main.py:166-214 | equals the specification function `InsertSpec`: connection error, commit error, or one statement per row with accepted and refused counts |
| Database.InsertFacts | main.py:166-214 | fails only on connect or commit; otherwise the statements are the frame's rows in order, each counted once as inserted or failed |
| Database.AcceptedPrefix | main.py:197-203 | the count of accepted statements depends only on the statements counted |
| Database.AcceptedAll | main.py:197-199 | when every statement is accepted every row counts as inserted |
| Backup.SaveToJson | main.py:226-262 | equals the specification function `JsonSpec`: the directory error, the first row's conversion error, the file error, or `row_count = len(df)` with one record per row |
| Backup.FieldValue | main.py:233-247 | only an integer field whose cell is neither NaN nor an integer (nor integer text) can fail, with `int()`'s error; a NaN integer field gives 0, an integer passes through, integer text gives its value; a list field gives the list or `[]`; `ids`/`names` give `str(v)`; `dates`/`playlists_found` give `""` for NaN and `str(v)` otherwise; a release field gives `""` exactly for NaN, `nan`, `None` or `''` and `str(v)` otherwise |
| Backup.ShapeFields | main.py:233-247 | a built record has one value per key |
| Backup.ShapeFieldsOk | main.py:233-247 | when every field converts the record holds exactly the converted fields |
| Backup.ShapeFieldsMissing | main.py:233-247 | a row missing a record key fails with an error naming a key |
| Backup.ShapeRows | main.py:232-248 | a successful conversion has one record per row |
| Backup.ShapeRowsOk | main.py:232-248 | when every row converts, the records are the rows' records in order |
| Backup.ShapeRowsErrExtends | main.py:232-248 | the first failing row decides the error |
| Backup.CsvSpec | main.py:216-224 | `save_to_csv` writes the frame unchanged exactly when the directory can be made and the file opened, and otherwise raises for that file |
| Pipeline.RunCleaner | main.py:277-309 | equals the specification function `RunSpec`: clean, transform both, load, back up, stopping at the first raised error |
| Pipeline.Load | main.py:293-298 | `data` insert if clean rows exist, then `data_reject` insert if duplicates exist, stopping at a failure |
| Pipeline.SaveBackups | main.py:300-309 | the CSV of the raw duplicates if any, then the JSON of the transformed clean rows |
| Pipeline.LoadCompleted | main.py:293-298 | a completed load made one insert per non-empty frame, in order, whose statements are exactly that frame's rows |
| Pipeline.BackupCompleted | main.py:300-309 | completed backups wrote the given duplicates' CSV when there are any, then the JSON holding one record per given clean row with `row_count` their number |
| Pipeline.LoadThenBackup | main.py:293-309 | a completed load and completed backups leave, in order, the two inserts, the CSV and the JSON |
| Pipeline.RunCompleted | main.py:277-309 | a completed run inserted the TRANSFORMED clean rows into `data` and the transformed duplicates into `data_reject`, wrote the RAW duplicates to CSV, and last wrote the records of the transformed clean rows to JSON, with `row_count` the number of distinct ids |
| Pipeline.RunSucceeds | main.py:277-309 | a frame with all thirteen record columns completes the run when both databases connect within the retries and commit and both files can be written |
| Pipeline.RunWithoutIds | main.py:79 | a frame with rows and without an `ids` column makes the run raise in `clean_data`, leaving nothing behind |
| Pipeline.RunEmptyFrame | main.py:277-309 | a frame without rows, with or without `ids`, inserts nothing, writes no CSV and writes the JSON with `row_count` 0 and no records, or raises the JSON write error |
| Pipeline.DataLoadFailureStopsRun | main.py:293-309 | a failed `data` load ends the run with no backup written |
| Pipeline.JsonOfNormalized | main.py:226-247 | on transformed rows with all thirteen columns the JSON records always build |
| Pipeline.FieldOfNormalized | main.py:233-247 | a transformed cell of a record column always converts; a numeric column's number and a list column's list pass through unchanged |
| Pipeline.ShapeNormalizedRow | main.py:233-247 | a transformed row gives a record whose integer fields are the coerced numbers and whose list fields are the parsed lists |
| Pipeline.IntKeysAreNumeric | main.py:134 | the integer fields of a record are exactly the numeric columns |
| RunExamples.ThreeRowRun | main.py:277-309 | three rows with all thirteen columns and ids a, b, a, in a world where every step succeeds: the run completes, with two rows loaded into `data`, one into `data_reject`, the third row as read in the CSV, and two records in the JSON |

## Left out

- `read_csv`: CSV parsing and pandas dtype inference are not modelled. The input of `run` is a well-formed frame of cells. pandas' `.empty` also holds for a frame with rows but no columns, which `read_csv` does not return; the model takes a frame to be empty when it has no rows.
- `get_table_count` (step 7 of `run`): it only reads and logs counts and never raises.
- Logging, `load_dotenv`, the environment configuration and `time.sleep`. A sleep is an event in the retry trace.
- The SQL text. The statement keeps its table, columns and values, not the f-string.
- The CSV text and the JSON text (`indent=2`). The model keeps the written frame and document.
- Floating-point cells. A numeric column that `read_csv` typed as float (`2015.0`, NaN mixed with numbers) is not modelled; `Value` has integers only.
- Normalize.ToNumeric: `pd.to_numeric` accepts decimals, exponents and surrounding blanks; the model reads only an optional sign and ASCII digits. There is no int64 overflow. Text such as `inf` or `Infinity` is read by pandas as a float infinity, on which `.astype(int)` raises, so `transform_data` and then `run` fail; the model has no error path in `transform_data` and gives 0 for such text.
- Normalize.UpperCell: `str.upper()` is ASCII only. An all-numeric `names` column, where pandas raises on `.str`, is not modelled.
- Text.Upper: Unicode case mapping, such as `ß` becoming `SS`, is not modelled.
- Dates.Alternatives: `\d` is ASCII digits only. The case-insensitive matching of `_strptime` does not matter for these formats.
- Dates.Render: years below 1000 are padded to four digits. CPython's `strftime` on some platforms does not pad them.
- Dates.ParseDate: `pd.to_datetime(..., dayfirst=True)` is an oracle parameter, not a model of pandas' date parser.
- Values.ToStr: `repr` of a list is modelled for items without quotes, backslashes or characters `repr` escapes (tab, newline, other non-printable characters); for such items the model's text differs from Python's.
- Arrays.ParseArrayRepr: stated for items of printable ASCII only; `repr` also leaves printable non-ASCII characters unescaped, but the model has no Unicode character categories to say which those are.
- Database.InsertToDatabase: `execute` is an oracle for each statement. PostgreSQL aborts a transaction after one failed statement, and a later commit then rolls back. The inserted count does not model that rollback.
- Closing the cursor and the connection, and errors from `conn.cursor()`, are not modelled.
- Backup.SaveToJson: `os.makedirs` and `open` are two oracle booleans; permissions and paths are not modelled.
- Arrays.ParseArray: `pd.isna` on a list (which raises) is not modelled; the raw cells are scalars.
