/** Cell values, rows and data frames as the cleaner sees them after `pd.read_csv`,
    and the conversions between numbers and their decimal text. */
module Values {
  import opened Text

  datatype Option<+T> = None | Some(value: T)

  /** What the cleaner raises. */
  datatype Error =
    | MissingColumn(name: string)     // KeyError on a row or frame lookup
    | ConnectionRefused(reason: string) // the last psycopg2.connect failure, re-raised
    | CommitFailed                    // conn.commit() raised
    | NotAnInteger(column: string)    // int(...) raised on a JSON field
    | WriteFailed(file: string)       // a backup file could not be written

  datatype Result<+T> = Ok(value: T) | Err(error: Error)

  /** One cell: NaN/None, a string, an integer, or (after `_parse_array`) a list of strings. */
  datatype Value = Missing | Str(text: string) | Num(n: int) | Items(items: seq<string>)

  /** A row maps each column name to its cell. */
  type Row = map<string, Value>

  /** A data frame: the column order and the rows in order. */
  datatype Frame = Frame(columns: seq<string>, rows: seq<Row>)

  function ColumnSet(f: Frame): set<string>
  {
    set c | c in f.columns
  }

  /** Distinct column names, and every row has exactly the frame's columns. */
  predicate WellFormed(f: Frame)
  {
    && (forall i, j :: 0 <= i < j < |f.columns| ==> f.columns[i] != f.columns[j])
    && (forall i :: 0 <= i < |f.rows| ==> f.rows[i].Keys == ColumnSet(f))
  }

  predicate IsDigit(c: char)
  {
    '0' <= c <= '9'
  }

  function DigitValue(c: char): nat
    requires IsDigit(c)
  {
    c as int - '0' as int
  }

  function DigitChar(n: nat): (c: char)
    requires n <= 9
    ensures IsDigit(c) && DigitValue(c) == n
  {
    (n + '0' as int) as char
  }

  predicate AllDigits(s: string)
  {
    forall k :: 0 <= k < |s| ==> IsDigit(s[k])
  }

  /** The value of a string of decimal digits. */
  function DigitsValue(s: string): nat
    requires AllDigits(s)
  {
    if s == [] then 0 else DigitsValue(s[..|s| - 1]) * 10 + DigitValue(s[|s| - 1])
  }

  /** The decimal digits of `n`, without leading zeros. */
  function NatDigits(n: nat): (r: string)
    ensures |r| >= 1 && AllDigits(r)
  {
    if n < 10 then [DigitChar(n)] else NatDigits(n / 10) + [DigitChar(n % 10)]
  }

  /** Python's `str(n)` for an integer. */
  function Decimal(n: int): string
  {
    if n < 0 then "-" + NatDigits(-n) else NatDigits(n)
  }

  /** An optional sign followed by one or more decimal digits. */
  function ParseInteger(s: string): Option<int>
  {
    if |s| > 1 && (s[0] == '-' || s[0] == '+') && AllDigits(s[1..]) then
      Some(if s[0] == '-' then 0 - DigitsValue(s[1..]) as int else DigitsValue(s[1..]))
    else if |s| > 0 && AllDigits(s) then Some(DigitsValue(s))
    else None
  }

  lemma {:induction false} NatDigitsValue(n: nat)
    ensures DigitsValue(NatDigits(n)) == n
  {
    if n >= 10 {
      var d := NatDigits(n / 10);
      var s := d + [DigitChar(n % 10)];
      assert s[..|s| - 1] == d;
      NatDigitsValue(n / 10);
    }
  }

  /** Reading back what `str(n)` printed gives `n`. */
  lemma DecimalRoundTrip(n: int)
    ensures ParseInteger(Decimal(n)) == Some(n)
  {
    if n < 0 {
      var d := NatDigits(-n);
      assert ("-" + d)[1..] == d;
      NatDigitsValue(-n);
    } else {
      NatDigitsValue(n);
    }
  }

  /** Python's `repr` of a list of strings, `['a', 'b']`, for strings without
      quotes, backslashes or characters `repr` escapes. */
  function ListRepr(xs: seq<string>): string
  {
    "[" + Join(Quoted(xs), ", ") + "]"
  }

  function Quoted(xs: seq<string>): (r: seq<string>)
    ensures |r| == |xs|
  {
    if xs == [] then [] else ["'" + xs[0] + "'"] + Quoted(xs[1..])
  }

  /** Python's `str(v)` (and `astype(str)`): NaN prints as `nan`. */
  function ToStr(v: Value): string
  {
    match v
    case Missing => "nan"
    case Str(s) => s
    case Num(n) => Decimal(n)
    case Items(xs) => ListRepr(xs)
  }
}
