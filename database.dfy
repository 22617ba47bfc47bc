/** `DataCleaner.get_db_connection` and `insert_to_database`. The database is an
    oracle: `connect` says how the k-th `psycopg2.connect` call ends, `execute`
    whether the k-th `cursor.execute` is accepted, and `commits` whether
    `conn.commit()` returns normally. */
module Database {
  import opened Values

  const MaxRetries: nat := 5
  /** Seconds slept between two connection attempts. */
  const RetryDelay: nat := 3

  const RejectColumn: string := "reject_reason"
  const RejectReason: string := "Duplicate ID"

  /** How one `psycopg2.connect` call ends: a connection, or the raised error's text. */
  datatype Attempt = Connected(conn: nat) | Refused(reason: string)

  /** What the retry loop does, in order: try (numbered from 0), or sleep. */
  datatype Event = Try(attempt: nat) | Sleep(seconds: nat)

  /** `INSERT INTO table (columns) VALUES (%s, ...)` with its parameters. */
  datatype Statement = Statement(table: string, columns: seq<string>, values: seq<Value>)

  datatype Oracle = Oracle(connect: nat -> Attempt, execute: (nat, Statement) -> bool, commits: bool)

  /** The statements sent, how many the database accepted and how many it refused. */
  datatype InsertReport = InsertReport(statements: seq<Statement>, inserted: nat, failed: nat)

  /** The first of the attempts `0 .. k-1` that connects, if any. */
  function FirstConnected(connect: nat -> Attempt, k: nat): Option<nat>
  {
    if k == 0 then None
    else
      match FirstConnected(connect, k - 1)
      case Some(i) => Some(i)
      case None => if connect(k - 1).Connected? then Some(k - 1) else None
  }

  lemma {:induction false} FirstConnectedFacts(connect: nat -> Attempt, k: nat)
    ensures FirstConnected(connect, k).None? <==> forall j :: 0 <= j < k ==> connect(j).Refused?
    ensures FirstConnected(connect, k).Some? ==>
      var i := FirstConnected(connect, k).value;
      i < k && connect(i).Connected? && forall j :: 0 <= j < i ==> connect(j).Refused?
  {
    if k > 0 {
      FirstConnectedFacts(connect, k - 1);
    }
  }

  /** What `get_db_connection` returns or raises: the first connection among
      five attempts, or the error of the fifth. */
  function ConnectOutcome(connect: nat -> Attempt): Result<nat>
  {
    match FirstConnected(connect, MaxRetries)
    case Some(i) => Ok(connect(i).conn)
    case None => Err(ConnectionRefused(connect(MaxRetries - 1).reason))
  }

  /** How many times `get_db_connection` calls `psycopg2.connect`. */
  function AttemptsMade(connect: nat -> Attempt): (n: nat)
  {
    match FirstConnected(connect, MaxRetries)
    case Some(i) => i + 1
    case None => MaxRetries
  }

  /** `n` attempts with a sleep between two consecutive ones, none after the last. */
  function RetryTrace(n: nat): seq<Event>
    requires n >= 1
  {
    if n == 1 then [Try(0)] else RetryTrace(n - 1) + [Sleep(RetryDelay), Try(n - 1)]
  }

  /** `get_db_connection`: up to five attempts; after a failed attempt that is not
      the last it sleeps three seconds, after the last it re-raises. */
  method GetDbConnection(connect: nat -> Attempt) returns (r: Result<nat>, trace: seq<Event>)
    ensures r == ConnectOutcome(connect)
    ensures trace == RetryTrace(AttemptsMade(connect))
  {
    trace := [];
    var attempt := 0;
    while attempt < MaxRetries
      invariant attempt < MaxRetries
      invariant FirstConnected(connect, attempt) == None
      invariant trace == if attempt == 0 then [] else RetryTrace(attempt) + [Sleep(RetryDelay)]
    {
      trace := trace + [Try(attempt)];
      var outcome := connect(attempt);
      if outcome.Connected? {
        FirstConnectedFacts(connect, MaxRetries);
        r := Ok(outcome.conn);
        return;
      }
      if attempt < MaxRetries - 1 {
        trace := trace + [Sleep(RetryDelay)];
      } else {
        r := Err(ConnectionRefused(outcome.reason));
        return;
      }
      attempt := attempt + 1;
    }
    assert false;
  }

  /** The retry trace alternates attempts and sleeps: attempt `k` at position
      `2k`, a three-second sleep at every odd position, an attempt last. */
  lemma {:induction false} RetryTraceShape(n: nat)
    requires n >= 1
    ensures |RetryTrace(n)| == 2 * n - 1
    ensures forall p :: 0 <= p < |RetryTrace(n)| ==>
      RetryTrace(n)[p] == if p % 2 == 0 then Try(p / 2) else Sleep(RetryDelay)
  {
    if n > 1 {
      RetryTraceShape(n - 1);
    }
  }

  /** At most five attempts and at most twelve seconds of sleep; success stops at
      the first attempt that connects; failure means all five were refused. */
  lemma RetryBounds(connect: nat -> Attempt)
    ensures 1 <= AttemptsMade(connect) <= MaxRetries
    ensures ConnectOutcome(connect).Ok? <==> exists i :: 0 <= i < MaxRetries && connect(i).Connected?
    ensures ConnectOutcome(connect).Ok? ==>
      connect(AttemptsMade(connect) - 1) == Connected(ConnectOutcome(connect).value)
      && forall j :: 0 <= j < AttemptsMade(connect) - 1 ==> connect(j).Refused?
    ensures ConnectOutcome(connect).Err? ==>
      ConnectOutcome(connect).error == ConnectionRefused(connect(MaxRetries - 1).reason)
  {
    FirstConnectedFacts(connect, MaxRetries);
  }

  /** Four refusals and then a connection: the fifth attempt is made and its
      connection returned, after four sleeps. */
  lemma RetryLastAttemptSucceeds(connect: nat -> Attempt, conn: nat)
    requires forall j :: 0 <= j < MaxRetries - 1 ==> connect(j).Refused?
    requires connect(MaxRetries - 1) == Connected(conn)
    ensures ConnectOutcome(connect) == Ok(conn)
    ensures AttemptsMade(connect) == MaxRetries
    ensures |RetryTrace(AttemptsMade(connect))| == 2 * MaxRetries - 1
  {
    FirstConnectedFacts(connect, MaxRetries);
    RetryTraceShape(MaxRetries);
  }

  /** The value bound for one cell: the list columns send their list, or `[]`
      when the cell is not a list; every other column sends the cell. */
  function SqlValue(column: string, v: Value): (r: Value)
    ensures column == "genres" || column == "feat_track_ids" ==>
      r.Items? && (v.Items? ==> r == v) && (!v.Items? ==> r.items == [])
    ensures column != "genres" && column != "feat_track_ids" ==> r == v
  {
    if column == "genres" || column == "feat_track_ids" then
      (if v.Items? then v else Items([]))
    else v
  }

  /** The statement `insert_to_database` builds for one row. */
  function RowStatement(table: string, columns: seq<string>, row: Row, isReject: bool): (r: Statement)
    requires forall k :: 0 <= k < |columns| ==> columns[k] in row
    ensures r.table == table && |r.columns| == |r.values|
    ensures |r.columns| == |columns| + (if isReject then 1 else 0)
    ensures r.columns[..|columns|] == columns
  {
    var values := seq(|columns|, k requires 0 <= k < |columns| => SqlValue(columns[k], row[columns[k]]));
    if isReject then Statement(table, columns + [RejectColumn], values + [Str(RejectReason)])
    else Statement(table, columns, values)
  }

  /** The inner loop of `insert_to_database`: one value per column, then the
      reject reason for the reject table. */
  method BuildStatement(table: string, columns: seq<string>, row: Row, isReject: bool)
    returns (s: Statement)
    requires forall k :: 0 <= k < |columns| ==> columns[k] in row
    ensures s == RowStatement(table, columns, row, isReject)
  {
    var cols := columns;
    var values: seq<Value> := [];
    for k := 0 to |columns|
      invariant |values| == k
      invariant forall j :: 0 <= j < k ==> values[j] == SqlValue(columns[j], row[columns[j]])
    {
      var col := columns[k];
      values := values + [SqlValue(col, row[col])];
    }
    if isReject {
      cols := cols + [RejectColumn];
      values := values + [Str(RejectReason)];
    }
    s := Statement(table, cols, values);
  }

  /** How many of the first `n` statements the database accepts. */
  function Accepted(execute: (nat, Statement) -> bool, statements: seq<Statement>, n: nat): (c: nat)
    requires n <= |statements|
    ensures c <= n
  {
    if n == 0 then 0
    else Accepted(execute, statements, n - 1) + (if execute(n - 1, statements[n - 1]) then 1 else 0)
  }

  /** The count only looks at the statements it counts. */
  lemma {:induction false} AcceptedPrefix(execute: (nat, Statement) -> bool, a: seq<Statement>,
                                          b: seq<Statement>, n: nat)
    requires n <= |a| && n <= |b| && a[..n] == b[..n]
    ensures Accepted(execute, a, n) == Accepted(execute, b, n)
  {
    if n > 0 {
      assert a[n - 1] == a[..n][n - 1] == b[n - 1];
      AcceptedPrefix(execute, a, b, n - 1);
    }
  }

  /** One statement per row, in row order. */
  function Statements(f: Frame, table: string, isReject: bool): (r: seq<Statement>)
    requires WellFormed(f)
    ensures |r| == |f.rows|
  {
    seq(|f.rows|, i requires 0 <= i < |f.rows| =>
      assert forall k :: 0 <= k < |f.columns| ==> f.columns[k] in ColumnSet(f);
      RowStatement(table, f.columns, f.rows[i], isReject))
  }

  /** What `insert_to_database` does: the connection error, the commit error, or
      the statements it sent with the accepted and refused counts. */
  function InsertSpec(f: Frame, table: string, isReject: bool, db: Oracle): Result<InsertReport>
    requires WellFormed(f)
  {
    match ConnectOutcome(db.connect)
    case Err(e) => Err(e)
    case Ok(_) =>
      var statements := Statements(f, table, isReject);
      var inserted := Accepted(db.execute, statements, |statements|);
      if db.commits then Ok(InsertReport(statements, inserted, |statements| - inserted))
      else Err(CommitFailed)
  }

  /** The row loop of `insert_to_database`: one `INSERT` per row in order, a
      refused row counted and skipped, not stopping the loop. */
  method SendRows(f: Frame, table: string, isReject: bool, execute: (nat, Statement) -> bool)
    returns (statements: seq<Statement>, insertedCount: nat, errorCount: nat)
    requires WellFormed(f)
    ensures statements == Statements(f, table, isReject)
    ensures insertedCount == Accepted(execute, statements, |statements|)
    ensures insertedCount + errorCount == |statements|
  {
    statements := [];
    insertedCount := 0;
    errorCount := 0;
    ghost var all := Statements(f, table, isReject);
    for i := 0 to |f.rows|
      invariant statements == all[..i]
      invariant insertedCount == Accepted(execute, statements, i)
      invariant insertedCount + errorCount == i
    {
      assert forall k :: 0 <= k < |f.columns| ==> f.columns[k] in ColumnSet(f);
      var s := BuildStatement(table, f.columns, f.rows[i], isReject);
      ghost var before := statements;
      assert s == all[i];
      statements := statements + [s];
      assert statements == all[..i + 1];
      AcceptedPrefix(execute, before, statements, i);
      if execute(i, s) {
        insertedCount := insertedCount + 1;
      } else {
        errorCount := errorCount + 1;
      }
    }
    assert statements == all;
  }

  /** `insert_to_database`: connect, send the rows, then commit. */
  method InsertToDatabase(f: Frame, table: string, isReject: bool, db: Oracle)
    returns (r: Result<InsertReport>)
    requires WellFormed(f)
    ensures r == InsertSpec(f, table, isReject, db)
  {
    var conn, _ := GetDbConnection(db.connect);
    if conn.Err? {
      return Err(conn.error);
    }
    var statements, insertedCount, errorCount := SendRows(f, table, isReject, db.execute);
    if !db.commits {
      return Err(CommitFailed);
    }
    r := Ok(InsertReport(statements, insertedCount, errorCount));
  }

  /** Each statement names as many columns as it binds values, in the frame's
      column order; the list columns bind their list, or `[]` for a cell that
      is not a list; the reject table adds
      `reject_reason = 'Duplicate ID'` at the end; the other cells go through
      unchanged. */
  lemma RowStatementShape(table: string, columns: seq<string>, row: Row, isReject: bool)
    requires forall k :: 0 <= k < |columns| ==> columns[k] in row
    ensures var s := RowStatement(table, columns, row, isReject);
      && s.table == table
      && |s.columns| == |s.values|
      && s.columns[..|columns|] == columns
      && (forall k :: 0 <= k < |columns| && (columns[k] == "genres" || columns[k] == "feat_track_ids") ==>
            s.values[k].Items?
            && (row[columns[k]].Items? ==> s.values[k] == row[columns[k]])
            && (!row[columns[k]].Items? ==> s.values[k] == Items([])))
      && (forall k :: 0 <= k < |columns| && columns[k] != "genres" && columns[k] != "feat_track_ids" ==>
            s.values[k] == row[columns[k]])
      && (isReject ==>
            |s.columns| == |columns| + 1
            && s.columns[|columns|] == RejectColumn && s.values[|columns|] == Str(RejectReason))
      && (!isReject ==> |s.columns| == |columns|)
  {
  }

  /** `insert_to_database` fails only when the connection or the commit fails;
      otherwise every row was sent once, in order, and was counted exactly once,
      as inserted or as failed. */
  lemma InsertFacts(f: Frame, table: string, isReject: bool, db: Oracle)
    requires WellFormed(f)
    ensures var r := InsertSpec(f, table, isReject, db);
      && (ConnectOutcome(db.connect).Err? ==> r == Err(ConnectOutcome(db.connect).error))
      && (ConnectOutcome(db.connect).Ok? && !db.commits ==> r == Err(CommitFailed))
      && (ConnectOutcome(db.connect).Ok? && db.commits ==>
          r.Ok?
          && r.value.statements == Statements(f, table, isReject)
          && |r.value.statements| == |f.rows|
          && r.value.inserted + r.value.failed == |f.rows|
          && r.value.inserted == Accepted(db.execute, r.value.statements, |f.rows|)
          && (forall i :: 0 <= i < |f.rows| ==>
                r.value.statements[i].table == table
                && |r.value.statements[i].columns| == |r.value.statements[i].values|))
  {
    var statements := Statements(f, table, isReject);
    forall i | 0 <= i < |f.rows|
      ensures statements[i].table == table && |statements[i].columns| == |statements[i].values|
    {
      assert forall k :: 0 <= k < |f.columns| ==> f.columns[k] in ColumnSet(f);
      RowStatementShape(table, f.columns, f.rows[i], isReject);
    }
  }

  /** When the database accepts every statement, every row counts as inserted. */
  lemma {:induction false} AcceptedAll(execute: (nat, Statement) -> bool, statements: seq<Statement>, n: nat)
    requires n <= |statements| && forall i :: 0 <= i < n ==> execute(i, statements[i])
    ensures Accepted(execute, statements, n) == n
  {
    if n > 0 {
      AcceptedAll(execute, statements, n - 1);
    }
  }
}
