/** `DataCleaner._parse_date`: a date string is tried against a fixed, ordered
    list of `strptime` formats; the first that parses wins and is printed as
    `%Y-%m-%d`. `datetime.strptime` is modelled as Python's `_strptime` does it:
    each directive is a regular expression (`%Y` four digits, `%m` and `%d`
    one or two digits with alternatives tried in order), the format is matched
    from the start of the string with backtracking, text left over is an error
    ("unconverted data remains"), and the date must exist in the calendar. */
module Dates {
  import opened Text
  import opened Values

  datatype Date = Date(year: int, month: int, day: int)

  predicate IsLeap(y: int)
  {
    y % 4 == 0 && (y % 100 != 0 || y % 400 == 0)
  }

  function DaysIn(y: int, m: int): int
  {
    if m == 2 then (if IsLeap(y) then 29 else 28)
    else if m == 4 || m == 6 || m == 9 || m == 11 then 30
    else 31
  }

  /** A date Python's `datetime` accepts: years 1 to 9999. */
  predicate Valid(d: Date)
  {
    1 <= d.year <= 9999 && 1 <= d.month <= 12 && 1 <= d.day <= DaysIn(d.year, d.month)
  }

  type CalendarDate = d: Date | Valid(d) witness Date(1970, 1, 1)

  /** One element of a format: `%d`, `%m`, `%Y`, or a literal character. */
  datatype Directive = Day | Month | Year | Lit(c: char)

  type Format = seq<Directive>

  /** The formats of `_parse_date`, in the order they are tried. */
  const DateFormats: seq<Format> := [
    [Day, Lit('/'), Month, Lit('/'), Year],    // %d/%m/%Y
    [Month, Lit('/'), Day, Lit('/'), Year],    // %m/%d/%Y
    [Year, Lit('-'), Month, Lit('-'), Day],    // %Y-%m-%d
    [Day, Lit('-'), Month, Lit('-'), Year],    // %d-%m-%Y
    [Year, Lit('/'), Month, Lit('/'), Day],    // %Y/%m/%d
    [Day, Lit('.'), Month, Lit('.'), Year],    // %d.%m.%Y
    [Year, Month, Day]                         // %Y%m%d
  ]

  /** The output format, `%Y-%m-%d`. */
  const IsoFormat: Format := DateFormats[2]

  /** One way a directive can match at the front of the input: the number it
      reads and how many characters it takes. */
  datatype Piece = Piece(value: int, width: nat)

  /** The ways a directive matches at the front of `s`, in the order the
      regular expression tries them:
      `%Y` is `\d\d\d\d`, `%m` is `1[0-2]|0[1-9]|[1-9]`,
      `%d` is `3[01]|[12]\d|0[1-9]|[1-9]| [1-9]`. */
  function Alternatives(d: Directive, s: string): (r: seq<Piece>)
    ensures forall k :: 0 <= k < |r| ==> 1 <= r[k].width <= |s|
  {
    match d
    case Year =>
      if |s| >= 4 && AllDigits(s[..4]) then [Piece(DigitsValue(s[..4]), 4)] else []
    case Month =>
      (if |s| >= 2 && s[0] == '1' && '0' <= s[1] <= '2' then [Piece(10 + DigitValue(s[1]), 2)] else [])
      + (if |s| >= 2 && s[0] == '0' && '1' <= s[1] <= '9' then [Piece(DigitValue(s[1]), 2)] else [])
      + (if |s| >= 1 && '1' <= s[0] <= '9' then [Piece(DigitValue(s[0]), 1)] else [])
    case Day =>
      (if |s| >= 2 && s[0] == '3' && '0' <= s[1] <= '1' then [Piece(30 + DigitValue(s[1]), 2)] else [])
      + (if |s| >= 2 && '1' <= s[0] <= '2' && IsDigit(s[1]) then [Piece(10 * DigitValue(s[0]) + DigitValue(s[1]), 2)] else [])
      + (if |s| >= 2 && s[0] == '0' && '1' <= s[1] <= '9' then [Piece(DigitValue(s[1]), 2)] else [])
      + (if |s| >= 1 && '1' <= s[0] <= '9' then [Piece(DigitValue(s[0]), 1)] else [])
      + (if |s| >= 2 && s[0] == ' ' && '1' <= s[1] <= '9' then [Piece(DigitValue(s[1]), 2)] else [])
    case Lit(c) =>
      if |s| >= 1 && s[0] == c then [Piece(0, 1)] else []
  }

  /** The year, month and day read so far. */
  datatype Fields = Fields(year: int, month: int, day: int)

  function Assign(acc: Fields, d: Directive, v: int): Fields
  {
    match d
    case Year => acc.(year := v)
    case Month => acc.(month := v)
    case Day => acc.(day := v)
    case Lit(_) => acc
  }

  /** A match of a whole format against a prefix of the input. */
  datatype Match = Match(fields: Fields, width: nat)

  /** The first match of `fmt` at the front of `s` in backtracking order. */
  function MatchPrefix(fmt: Format, s: string, acc: Fields): (r: Option<Match>)
    ensures r.Some? ==> r.value.width <= |s|
    decreases |fmt|, 1, 0
  {
    if fmt == [] then Some(Match(acc, 0))
    else TryAlternatives(fmt, s, acc, Alternatives(fmt[0], s))
  }

  /** Tries the alternatives of `fmt[0]` in order; the first one under which the
      rest of the format matches wins. */
  function TryAlternatives(fmt: Format, s: string, acc: Fields, alts: seq<Piece>): (r: Option<Match>)
    requires fmt != []
    requires forall k :: 0 <= k < |alts| ==> 1 <= alts[k].width <= |s|
    ensures r.Some? ==> r.value.width <= |s|
    decreases |fmt|, 0, |alts|
  {
    if alts == [] then None
    else
      var p := alts[0];
      match MatchPrefix(fmt[1..], s[p.width..], Assign(acc, fmt[0], p.value))
      case Some(m) => Some(Match(m.fields, p.width + m.width))
      case None => TryAlternatives(fmt, s, acc, alts[1..])
  }

  /** `datetime.strptime(s, fmt)`, or None where it raises ValueError: a date
      only when the format's first match takes the whole text (no data left
      unconverted) and its fields form a valid calendar date. */
  function Strptime(fmt: Format, s: string): (r: Option<CalendarDate>)
    ensures r.Some? ==> Valid(r.value)
    ensures var m := MatchPrefix(fmt, s, Fields(0, 0, 0));
      r.Some? <==> m.Some? && m.value.width == |s|
                   && Valid(Date(m.value.fields.year, m.value.fields.month, m.value.fields.day))
    ensures r.Some? ==>
      var m := MatchPrefix(fmt, s, Fields(0, 0, 0));
      m.Some? && r.value == Date(m.value.fields.year, m.value.fields.month, m.value.fields.day)
  {
    match MatchPrefix(fmt, s, Fields(0, 0, 0))
    case None => None
    case Some(m) =>
      var d := Date(m.fields.year, m.fields.month, m.fields.day);
      if m.width == |s| && Valid(d) then Some(d) else None
  }

  /** The date of the first format in `fmts` that parses `s`. */
  function FirstParse(fmts: seq<Format>, s: string): Option<CalendarDate>
  {
    if fmts == [] then None
    else if Strptime(fmts[0], s).Some? then Strptime(fmts[0], s)
    else FirstParse(fmts[1..], s)
  }

  /** The search finds nothing exactly when every format fails, and otherwise
      returns the date of a format that parses, all formats before it failing. */
  lemma {:induction false} FirstParseFirstMatch(fmts: seq<Format>, s: string)
    ensures FirstParse(fmts, s).None? <==> forall k :: 0 <= k < |fmts| ==> Strptime(fmts[k], s).None?
    ensures FirstParse(fmts, s).Some? ==>
      exists k :: 0 <= k < |fmts| && Strptime(fmts[k], s) == FirstParse(fmts, s)
                  && forall j :: 0 <= j < k ==> Strptime(fmts[j], s).None?
  {
    if fmts != [] && Strptime(fmts[0], s).None? {
      var r := FirstParse(fmts[1..], s);
      FirstParseFirstMatch(fmts[1..], s);
      if r.Some? {
        var k :| 0 <= k < |fmts| - 1 && Strptime(fmts[1..][k], s) == r
                 && forall j :: 0 <= j < k ==> Strptime(fmts[1..][j], s).None?;
        assert Strptime(fmts[k + 1], s) == r;
        forall j | 0 <= j < k + 1 ensures Strptime(fmts[j], s).None? {
          if j > 0 { assert fmts[j] == fmts[1..][j - 1]; }
        }
      } else {
        forall k | 0 <= k < |fmts| ensures Strptime(fmts[k], s).None? {
          if k > 0 { assert fmts[k] == fmts[1..][k - 1]; }
        }
      }
    }
  }

  /** Two digits with a leading zero, as `strftime` prints `%m` and `%d`. */
  function Pad2(n: nat): string
    requires n <= 99
  {
    [DigitChar(n / 10), DigitChar(n % 10)]
  }

  /** Four digits with leading zeros, as `strftime` prints `%Y`. */
  function Pad4(n: nat): string
    requires n <= 9999
  {
    Pad2(n / 100) + Pad2(n % 100)
  }

  /** The four printed digits read back as the year. */
  lemma Pad4Value(n: nat)
    requires n <= 9999
    ensures AllDigits(Pad4(n)) && DigitsValue(Pad4(n)) == n
  {
    var p := Pad4(n);
    var hi, lo := n / 100, n % 100;
    assert p == [DigitChar(hi / 10), DigitChar(hi % 10), DigitChar(lo / 10), DigitChar(lo % 10)];
    assert p[..3][..2] == p[..2] && p[..2][..1] == p[..1] && p[..1][..0] == [];
    assert DigitsValue(p[..1]) == hi / 10;
    assert DigitsValue(p[..2]) == hi;
    assert DigitsValue(p[..3]) == hi * 10 + lo / 10;
    assert DigitsValue(p) == hi * 100 + lo;
  }

  function RenderDirective(d: Directive, date: CalendarDate): string
  {
    match d
    case Year => Pad4(date.year)
    case Month => Pad2(date.month)
    case Day => Pad2(date.day)
    case Lit(c) => [c]
  }

  /** `date.strftime(fmt)`. */
  function Render(fmt: Format, date: CalendarDate): string
  {
    if fmt == [] then "" else RenderDirective(fmt[0], date) + Render(fmt[1..], date)
  }

  /** The canonical `YYYY-MM-DD` text of a date. */
  function Canonical(date: CalendarDate): string
  {
    Render(IsoFormat, date)
  }

  /** `_parse_date`: None for NaN/None and the empty string; otherwise the input is
      printed with `str`, stripped, and given to each format in turn; the first
      date found is printed as `YYYY-MM-DD`. When no format matches, the
      `pd.to_datetime(..., dayfirst=True)` fallback is asked (an oracle here),
      and when that fails too the stripped text is returned as it is. */
  function ParseDate(v: Value, fallback: string -> Option<CalendarDate>): (r: Option<string>)
    ensures r.None? <==> v.Missing? || v == Str("")
  {
    if v.Missing? || v == Str("") then None
    else
      var s := Strip(ToStr(v));
      match FirstParse(DateFormats, s)
      case Some(d) => Some(Canonical(d))
      case None =>
        match fallback(s)
        case Some(d) => Some(Canonical(d))
        case None => Some(s)
  }

  // ---------------------------------------------------------------------------
  // Printing and parsing agree.

  /** The first alternative of a directive, on the text `strftime` printed for it,
      reads back the printed number over the whole printed width. */
  lemma FirstAlternative(d: Directive, date: CalendarDate, u: string)
    requires !d.Lit?
    ensures var s := RenderDirective(d, date) + u;
      |Alternatives(d, s)| > 0
      && Alternatives(d, s)[0] == Piece(FieldOf(d, date), |RenderDirective(d, date)|)
  {
    var s := RenderDirective(d, date) + u;
    match d
    case Year =>
      var y := date.year;
      assert s[..4] == Pad4(y);
      Pad4Value(y);
    case Month =>
    case Day =>
  }

  function FieldOf(d: Directive, date: CalendarDate): int
  {
    match d
    case Year => date.year
    case Month => date.month
    case Day => date.day
    case Lit(_) => 0
  }

  /** The fields a format sets when it reads back what it printed. */
  function Fill(fmt: Format, date: CalendarDate, acc: Fields): Fields
  {
    if fmt == [] then acc else Fill(fmt[1..], date, Step(acc, fmt[0], date))
  }

  /** `Render` and `Fill` of a five-element format, element by element. */
  lemma Unfold5(fmt: Format, date: CalendarDate, acc: Fields)
    requires |fmt| == 5
    ensures Render(fmt, date) == RenderDirective(fmt[0], date) + (RenderDirective(fmt[1], date)
      + (RenderDirective(fmt[2], date) + (RenderDirective(fmt[3], date) + RenderDirective(fmt[4], date))))
    ensures Fill(fmt, date, acc) == Step(Step(Step(Step(Step(acc, fmt[0], date), fmt[1], date),
                                          fmt[2], date), fmt[3], date), fmt[4], date)
  {
    var f1 := fmt[1..];
    var f2 := f1[1..];
    var f3 := f2[1..];
    var f4 := f3[1..];
    assert f1[0] == fmt[1] && f2[0] == fmt[2] && f3[0] == fmt[3] && f4[0] == fmt[4];
    assert f4[1..] == [];
    assert Render(f4, date) == RenderDirective(fmt[4], date);
    assert Render(f3, date) == RenderDirective(fmt[3], date) + Render(f4, date);
    assert Render(f2, date) == RenderDirective(fmt[2], date) + Render(f3, date);
    assert Render(f1, date) == RenderDirective(fmt[1], date) + Render(f2, date);
    var a1 := Step(acc, fmt[0], date);
    var a2 := Step(a1, fmt[1], date);
    var a3 := Step(a2, fmt[2], date);
    var a4 := Step(a3, fmt[3], date);
    var a5 := Step(a4, fmt[4], date);
    assert Fill(f4, date, a4) == Fill(f4[1..], date, a5) == a5;
    assert Fill(f3, date, a3) == Fill(f4, date, a4);
    assert Fill(f2, date, a2) == Fill(f3, date, a3);
    assert Fill(f1, date, a1) == Fill(f2, date, a2);
  }

  function Step(acc: Fields, d: Directive, date: CalendarDate): Fields
  {
    Assign(acc, d, FieldOf(d, date))
  }

  /** Each format of the list sets the year, the month and the day. */
  lemma FillFormats(k: nat, date: CalendarDate)
    requires k < |DateFormats|
    ensures Fill(DateFormats[k], date, Fields(0, 0, 0)) == Fields(date.year, date.month, date.day)
  {
    var fmt := DateFormats[k];
    if k < 6 {
      Unfold5(fmt, date, Fields(0, 0, 0));
    } else {
      var a1 := Step(Fields(0, 0, 0), Year, date);
      var a2 := Step(a1, Month, date);
      var a3 := Step(a2, Day, date);
      assert fmt[1..][1..][1..] == [];
      assert Fill(fmt[1..][1..], date, a2) == Fill(fmt[1..][1..][1..], date, a3) == a3;
    }
  }

  /** Any format matches, at the front of any text, what it printed itself; the
      match is found by the first alternative of every directive. */
  lemma {:induction false} RenderMatches(fmt: Format, date: CalendarDate, t: string, acc: Fields)
    ensures MatchPrefix(fmt, Render(fmt, date) + t, acc)
            == Some(Match(Fill(fmt, date, acc), |Render(fmt, date)|))
  {
    if fmt != [] {
      var head := RenderDirective(fmt[0], date);
      var tail := Render(fmt[1..], date) + t;
      var s := Render(fmt, date) + t;
      assert s == head + tail;
      var alts := Alternatives(fmt[0], s);
      var p := Piece(FieldOf(fmt[0], date), |head|);
      if fmt[0].Lit? {
        assert alts == [Piece(0, 1)];
        assert Assign(acc, fmt[0], 0) == Assign(acc, fmt[0], FieldOf(fmt[0], date));
      } else {
        FirstAlternative(fmt[0], date, tail);
      }
      assert alts[0] == p;
      assert s[p.width..] == tail;
      RenderMatches(fmt[1..], date, t, Assign(acc, fmt[0], p.value));
    }
  }

  /** `strptime(strftime(date, fmt), fmt) == date` for a format that mentions the
      year, the month and the day. */
  lemma StrptimeRender(fmt: Format, date: CalendarDate)
    requires Fill(fmt, date, Fields(0, 0, 0)) == Fields(date.year, date.month, date.day)
    ensures Strptime(fmt, Render(fmt, date)) == Some(date)
  {
    assert date == Date(date.year, date.month, date.day);
    RenderMatches(fmt, date, "", Fields(0, 0, 0));
    assert Render(fmt, date) + "" == Render(fmt, date);
  }

  /** A format whose second element is a literal separator finds nothing in a text
      whose first three characters are digits. */
  lemma SeparatorMissing(fmt: Format, s: string)
    requires |fmt| >= 2 && (fmt[0] == Day || fmt[0] == Month) && fmt[1].Lit? && !IsDigit(fmt[1].c)
    requires |s| >= 3 && IsDigit(s[0]) && IsDigit(s[1]) && IsDigit(s[2])
    ensures MatchPrefix(fmt, s, Fields(0, 0, 0)) == None
  {
    var alts := Alternatives(fmt[0], s);
    forall k | 0 <= k < |alts|
      ensures MatchPrefix(fmt[1..], s[alts[k].width..], Assign(Fields(0, 0, 0), fmt[0], alts[k].value)) == None
    {
      var rest := s[alts[k].width..];
      assert IsDigit(rest[0]);
      assert Alternatives(fmt[1..][0], rest) == [];
    }
    NoAlternativeMatches(fmt, s, Fields(0, 0, 0), alts);
  }

  lemma {:induction false} NoAlternativeMatches(fmt: Format, s: string, acc: Fields, alts: seq<Piece>)
    requires fmt != []
    requires forall k :: 0 <= k < |alts| ==> 1 <= alts[k].width <= |s|
    requires forall k :: 0 <= k < |alts| ==>
      MatchPrefix(fmt[1..], s[alts[k].width..], Assign(acc, fmt[0], alts[k].value)) == None
    ensures TryAlternatives(fmt, s, acc, alts) == None
  {
    if alts != [] {
      NoAlternativeMatches(fmt, s, acc, alts[1..]);
    }
  }

  /** The canonical text of a date is read by `%Y-%m-%d`: the two formats before it
      both want a separator after at most two digits. */
  lemma FirstParseCanonical(date: CalendarDate)
    ensures FirstParse(DateFormats, Canonical(date)) == Some(date)
  {
    var s := Canonical(date);
    Unfold5(IsoFormat, date, Fields(0, 0, 0));
    FillFormats(2, date);
    assert IsDigit(s[0]) && IsDigit(s[1]) && IsDigit(s[2]) by {
      assert s[..4] == Pad4(date.year);
      Pad4Value(date.year);
    }
    SeparatorMissing(DateFormats[0], s);
    assert Strptime(DateFormats[0], s) == None;
    SeparatorMissing(DateFormats[1], s);
    assert Strptime(DateFormats[1], s) == None;
    StrptimeRender(DateFormats[2], date);
    var rest := DateFormats[1..];
    assert rest[0] == DateFormats[1] && rest[1..][0] == DateFormats[2];
    assert FirstParse(DateFormats, s) == FirstParse(rest, s);
    assert FirstParse(rest, s) == FirstParse(rest[1..], s);
  }

  /** The canonical text has no surrounding blanks. */
  lemma CanonicalStripped(date: CalendarDate)
    ensures Strip(Canonical(date)) == Canonical(date)
  {
    var s := Canonical(date);
    Unfold5(IsoFormat, date, Fields(0, 0, 0));
    StripSetUnchanged(s, Whitespace);
  }

  /** A canonical date string comes out of `_parse_date` as it went in. */
  lemma ParseCanonical(date: CalendarDate, fallback: string -> Option<CalendarDate>)
    ensures ParseDate(Str(Canonical(date)), fallback) == Some(Canonical(date))
  {
    CanonicalStripped(date);
    FirstParseCanonical(date);
  }

  /** What `_parse_date` returns is either the canonical text of a calendar date or,
      when no format and not the fallback could read it, the stripped input. */
  lemma ParseDateOutcome(v: Value, fallback: string -> Option<CalendarDate>)
    ensures ParseDate(v, fallback).None? <==> v.Missing? || v == Str("")
    ensures ParseDate(v, fallback).Some? ==>
      (exists d: CalendarDate :: ParseDate(v, fallback) == Some(Canonical(d)))
      || (ParseDate(v, fallback) == Some(Strip(ToStr(v)))
          && (forall k :: 0 <= k < |DateFormats| ==> Strptime(DateFormats[k], Strip(ToStr(v))).None?)
          && fallback(Strip(ToStr(v))).None?)
  {
    if !(v.Missing? || v == Str("")) {
      var s := Strip(ToStr(v));
      FirstParseFirstMatch(DateFormats, s);
      match FirstParse(DateFormats, s)
      case Some(d) =>
      case None =>
        match fallback(s)
        case Some(d) =>
        case None =>
    }
  }

  /** Normalising a date twice is normalising it once, for any input that is not
      missing and not blank. */
  lemma ParseDateIdempotent(v: Value, fallback: string -> Option<CalendarDate>)
    requires !v.Missing? && Strip(ToStr(v)) != ""
    ensures ParseDate(v, fallback).Some?
    ensures ParseDate(Str(ParseDate(v, fallback).value), fallback) == ParseDate(v, fallback)
  {
    var s := Strip(ToStr(v));
    assert Strip(ToStr(Str(""))) == "";
    assert v != Str("");
    match FirstParse(DateFormats, s)
    case Some(d) =>
      assert ParseDate(v, fallback) == Some(Canonical(d));
      ParseCanonical(d, fallback);
    case None =>
      match fallback(s)
      case Some(d) =>
        assert ParseDate(v, fallback) == Some(Canonical(d));
        ParseCanonical(d, fallback);
      case None =>
        assert ParseDate(v, fallback) == Some(s);
        var t := ToStr(v);
        StripSetIdempotent(t, Whitespace);
        assert Strip(s) == s;
        assert ToStr(Str(s)) == s;
  }

  /** Day first: any `DD/MM/YYYY` text is read as day, then month, so a string that
      is also a valid `MM/DD/YYYY` date (`01/02/2024`) still means the 1st of February. */
  lemma DayFirstWins(date: CalendarDate, s: string, fallback: string -> Option<CalendarDate>)
    requires s == Render(DateFormats[0], date)
    ensures ParseDate(Str(s), fallback) == Some(Canonical(date))
  {
    Unfold5(DateFormats[0], date, Fields(0, 0, 0));
    StripSetUnchanged(s, Whitespace);
    FillFormats(0, date);
    StrptimeRender(DateFormats[0], date);
  }

  /** Every format of the list reads back a date it printed, so none of them is
      shadowed entirely by an earlier one. */
  lemma EachFormatReadsItsOwnOutput(k: nat, date: CalendarDate)
    requires k < |DateFormats|
    ensures Strptime(DateFormats[k], Render(DateFormats[k], date)) == Some(date)
  {
    FillFormats(k, date);
    StrptimeRender(DateFormats[k], date);
  }
}
