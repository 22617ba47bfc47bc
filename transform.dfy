/** `DataCleaner.transform_data` and `_parse_array`: the per-column normalisation
    of a copied frame. Dates go through `_parse_date`, names are upper-cased,
    the numeric columns are coerced with `pd.to_numeric(errors='coerce')` and
    NaN becomes 0, the list columns go through `_parse_array`, and the release
    years are printed with `astype(str)` with `nan` and `None` blanked. */
module Normalize {
  import opened Text
  import opened Values
  import opened Dates
  import opened Arrays

  const NumericColumns: seq<string> :=
    ["monthly_listeners", "popularity", "followers", "num_releases", "num_tracks"]
  const ArrayColumns: seq<string> := ["genres", "feat_track_ids"]
  const ReleaseColumns: seq<string> := ["first_release", "last_release"]

  /** `pd.to_numeric(v, errors='coerce')` followed by `fillna(0).astype(int)`:
      an integer stays, a string of an optional sign and decimal digits gives its
      value, anything else gives 0. */
  function ToNumeric(v: Value): (r: int)
    ensures r != 0 ==> v.Num? || (v.Str? && ParseInteger(v.text) == Some(r))
  {
    match v
    case Num(n) => n
    case Str(s) => (match ParseInteger(s) case Some(n) => n case None => 0)
    case _ => 0
  }

  /** `Series.str.upper()`: strings are upper-cased; anything else becomes NaN. */
  function UpperCell(v: Value): (r: Value)
    ensures r.Str? <==> v.Str?
    ensures r.Str? ==> |r.text| == |v.text| && forall k :: 0 <= k < |r.text| ==> !('a' <= r.text[k] <= 'z')
  {
    if v.Str? then UpperFacts(v.text); Str(Upper(v.text)) else Missing
  }

  /** `astype(str).replace('nan', '').replace('None', '')`. */
  function ReleaseText(v: Value): (r: string)
    ensures r != "nan" && r != "None"
    ensures v.Missing? ==> r == ""
  {
    var s := ToStr(v);
    if s == "nan" || s == "None" then "" else s
  }

  /** Integers survive the coercion, and so does their decimal text. */
  lemma ToNumericKeeps(n: int)
    ensures ToNumeric(Num(n)) == n
    ensures ToNumeric(Str(Decimal(n))) == n
  {
    DecimalRoundTrip(n);
  }

  /** A string that is not an optional sign followed by digits coerces to 0. */
  lemma ToNumericRejects(s: string)
    requires ParseInteger(s) == None
    ensures ToNumeric(Str(s)) == 0 && ToNumeric(Missing) == 0
  {
  }

  /** The release text of an integer is its decimal text, and no release text
      is ever `nan` or `None`. */
  lemma ReleaseTextFacts(v: Value)
    ensures ReleaseText(v) != "nan" && ReleaseText(v) != "None"
    ensures v.Num? ==> ReleaseText(v) == Decimal(v.n)
    ensures ReleaseText(Missing) == ""
  {
    if v.Num? {
      var d := NatDigits(if v.n < 0 then -v.n else v.n);
      assert Decimal(v.n)[|Decimal(v.n)| - 1] == d[|d| - 1];
      assert IsDigit(d[|d| - 1]);
    }
  }

  datatype Rule = DateRule | NameRule | NumericRule | ArrayRule | ReleaseRule

  /** Which rule `transform_data` applies to a column, if any. */
  function RuleFor(c: string): Option<Rule>
  {
    if c == "dates" then Some(DateRule)
    else if c == "names" then Some(NameRule)
    else if c in NumericColumns then Some(NumericRule)
    else if c in ArrayColumns then Some(ArrayRule)
    else if c in ReleaseColumns then Some(ReleaseRule)
    else None
  }

  function ApplyRule(rule: Rule, v: Value, fallback: string -> Option<CalendarDate>): Value
  {
    match rule
    case DateRule => (match ParseDate(v, fallback) case Some(s) => Str(s) case None => Missing)
    case NameRule => UpperCell(v)
    case NumericRule => Num(ToNumeric(v))
    case ArrayRule => Items(ParseArray(v))
    case ReleaseRule => Str(ReleaseText(v))
  }

  /** The value a cell of column `c` has after `transform_data`. */
  function NormalizeCell(c: string, v: Value, fallback: string -> Option<CalendarDate>): Value
  {
    match RuleFor(c)
    case None => v
    case Some(rule) => ApplyRule(rule, v, fallback)
  }

  /** What a cell of column `c` looks like after `transform_data`: numbers in
      the numeric columns, lists of clean items in the list columns, release
      text without `nan`/`None`, names without lower-case letters. */
  predicate NormalizedCell(c: string, v: Value)
  {
    match RuleFor(c)
    case None => true
    case Some(rule) =>
      match rule
      case DateRule => v.Str? || v.Missing?
      case NameRule => v.Missing? || (v.Str? && forall k :: 0 <= k < |v.text| ==> !('a' <= v.text[k] <= 'z'))
      case NumericRule => v.Num?
      case ArrayRule => v.Items? && forall k :: 0 <= k < |v.items| ==> CleanItem(v.items[k])
      case ReleaseRule => v.Str? && v.text != "nan" && v.text != "None"
  }

  lemma NormalizeCellNormalized(c: string, v: Value, fallback: string -> Option<CalendarDate>)
    ensures NormalizedCell(c, NormalizeCell(c, v, fallback))
  {
    if RuleFor(c) == Some(ReleaseRule) {
      ReleaseTextFacts(v);
    }
  }

  /** A row after the columns listed in `done` have been transformed. */
  function PartialRow(r: Row, done: seq<string>, fallback: string -> Option<CalendarDate>): Row
  {
    map c | c in r :: if c in done then NormalizeCell(c, r[c], fallback) else r[c]
  }

  function PartialFrame(f: Frame, done: seq<string>, fallback: string -> Option<CalendarDate>): Frame
  {
    Frame(f.columns, seq(|f.rows|, i requires 0 <= i < |f.rows| => PartialRow(f.rows[i], done, fallback)))
  }

  /** Every column with a rule, in the order `transform_data` visits them. */
  const RuleColumns: seq<string> := ["dates", "names"] + NumericColumns + ArrayColumns + ReleaseColumns

  /** The frame `transform_data` returns: every cell normalised by its column's rule. */
  function NormalizeFrame(f: Frame, fallback: string -> Option<CalendarDate>): Frame
  {
    PartialFrame(f, RuleColumns, fallback)
  }

  /** `transform_data` keeps the columns, the number and order of rows and each
      row's keys; a column without a rule keeps its cells, and every cell of a
      ruled column is normalised by its rule. */
  lemma NormalizeFrameFacts(f: Frame, fallback: string -> Option<CalendarDate>)
    requires WellFormed(f)
    ensures var g := NormalizeFrame(f, fallback);
      && g.columns == f.columns && |g.rows| == |f.rows| && WellFormed(g)
      && (forall i, c :: 0 <= i < |f.rows| && c in f.rows[i] && RuleFor(c).None? ==>
            g.rows[i][c] == f.rows[i][c])
      && (forall i, c :: 0 <= i < |f.rows| && c in f.rows[i] ==>
            g.rows[i][c] == NormalizeCell(c, f.rows[i][c], fallback)
            && NormalizedCell(c, g.rows[i][c]))
  {
    var g := NormalizeFrame(f, fallback);
    forall i, c | 0 <= i < |f.rows| && c in f.rows[i]
      ensures g.rows[i][c] == NormalizeCell(c, f.rows[i][c], fallback)
      ensures NormalizedCell(c, g.rows[i][c])
    {
      assert c in RuleColumns <==> RuleFor(c).Some?;
      NormalizeCellNormalized(c, f.rows[i][c], fallback);
    }
  }

  /** The shape part of `NormalizeFrameFacts`: columns, row count and row keys. */
  lemma NormalizeFrameShape(f: Frame, fallback: string -> Option<CalendarDate>)
    requires WellFormed(f)
    ensures var g := NormalizeFrame(f, fallback);
      g.columns == f.columns && |g.rows| == |f.rows| && WellFormed(g)
  {
  }

  /** `df[col] = df[col].apply(...)`: one column rewritten by a rule. */
  function MapColumn(f: Frame, col: string, rule: Rule, fallback: string -> Option<CalendarDate>): Frame
  {
    Frame(f.columns, seq(|f.rows|, i requires 0 <= i < |f.rows| =>
      if col in f.rows[i] then f.rows[i][col := ApplyRule(rule, f.rows[i][col], fallback)] else f.rows[i]))
  }

  /** Rewriting one more column of a partly transformed frame with its rule. */
  lemma MapColumnStep(f: Frame, done: seq<string>, col: string, fallback: string -> Option<CalendarDate>)
    requires WellFormed(f) && col !in done && RuleFor(col).Some?
    ensures col in f.columns ==>
      MapColumn(PartialFrame(f, done, fallback), col, RuleFor(col).value, fallback)
      == PartialFrame(f, done + [col], fallback)
    ensures col !in f.columns ==>
      PartialFrame(f, done, fallback) == PartialFrame(f, done + [col], fallback)
  {
    var g := PartialFrame(f, done, fallback);
    var h := PartialFrame(f, done + [col], fallback);
    if col in f.columns {
      var m := MapColumn(g, col, RuleFor(col).value, fallback);
      assert |m.rows| == |h.rows|;
      forall i | 0 <= i < |f.rows| ensures m.rows[i] == h.rows[i] {
        assert col in ColumnSet(f);
      }
    } else {
      forall i | 0 <= i < |f.rows| ensures g.rows[i] == h.rows[i] {
        assert col !in f.rows[i];
      }
    }
  }

  /** Nothing has been transformed yet. */
  lemma PartialFrameNone(f: Frame, fallback: string -> Option<CalendarDate>)
    ensures PartialFrame(f, [], fallback) == f
  {
    forall i | 0 <= i < |f.rows| ensures PartialFrame(f, [], fallback).rows[i] == f.rows[i] { }
  }

  /** The rule columns are distinct, and each list of `transform_data` gets one rule. */
  lemma RuleColumnsFacts()
    ensures RuleFor("dates") == Some(DateRule) && RuleFor("names") == Some(NameRule)
    ensures "names" != "dates"
    ensures forall k :: 0 <= k < |NumericColumns| ==> RuleFor(NumericColumns[k]) == Some(NumericRule)
    ensures forall k :: 0 <= k < |ArrayColumns| ==> RuleFor(ArrayColumns[k]) == Some(ArrayRule)
    ensures forall k :: 0 <= k < |ReleaseColumns| ==> RuleFor(ReleaseColumns[k]) == Some(ReleaseRule)
    ensures forall i, j :: 0 <= i < j < |NumericColumns| ==> NumericColumns[i] != NumericColumns[j]
    ensures ArrayColumns[0] != ArrayColumns[1] && ReleaseColumns[0] != ReleaseColumns[1]
  {
  }

  /** `for col in cols: if col in df.columns: df[col] = ...`, one rule for every
      column of `cols`. */
  method TransformColumns(ghost f: Frame, g0: Frame, ghost done0: seq<string>, cols: seq<string>,
                          rule: Rule, fallback: string -> Option<CalendarDate>) returns (g: Frame)
    requires WellFormed(f) && g0 == PartialFrame(f, done0, fallback)
    requires forall k :: 0 <= k < |cols| ==> RuleFor(cols[k]) == Some(rule)
    requires forall k :: 0 <= k < |done0| ==> RuleFor(done0[k]) != Some(rule)
    requires forall i, j :: 0 <= i < j < |cols| ==> cols[i] != cols[j]
    ensures g == PartialFrame(f, done0 + cols, fallback)
  {
    g := g0;
    assert done0 + cols[..0] == done0;
    for k := 0 to |cols|
      invariant g == PartialFrame(f, done0 + cols[..k], fallback)
    {
      var col := cols[k];
      assert col !in done0 + cols[..k];
      MapColumnStep(f, done0 + cols[..k], col, fallback);
      if col in g.columns {
        g := MapColumn(g, col, rule, fallback);
      }
      assert done0 + cols[..k + 1] == done0 + cols[..k] + [col];
    }
    assert cols[..|cols|] == cols;
  }

  /** `transform_data`: a copy of the frame with each listed column that is
      present rewritten in turn. */
  method TransformData(f: Frame, fallback: string -> Option<CalendarDate>) returns (g: Frame)
    requires WellFormed(f)
    ensures g == NormalizeFrame(f, fallback)
  {
    RuleColumnsFacts();
    PartialFrameNone(f, fallback);
    g := f;
    MapColumnStep(f, [], "dates", fallback);
    if "dates" in g.columns {
      g := MapColumn(g, "dates", DateRule, fallback);
    }
    assert [] + ["dates"] == ["dates"];
    MapColumnStep(f, ["dates"], "names", fallback);
    if "names" in g.columns {
      g := MapColumn(g, "names", NameRule, fallback);
    }
    assert ["dates"] + ["names"] == ["dates", "names"];
    g := TransformColumns(f, g, ["dates", "names"], NumericColumns, NumericRule, fallback);
    g := TransformColumns(f, g, ["dates", "names"] + NumericColumns, ArrayColumns, ArrayRule, fallback);
    g := TransformColumns(f, g, ["dates", "names"] + NumericColumns + ArrayColumns, ReleaseColumns,
                          ReleaseRule, fallback);
  }
}
