/** `DataCleaner._parse_array`: the text of a list column, as `pd.read_csv`
    leaves it (`"['pop', 'rock']"`), turned back into a list of strings. */
module Arrays {
  import opened Text
  import opened Values

  const Brackets: set<char> := {'[', ']'}
  const Quotes: set<char> := {'\'', '"'}

  /** An item `_parse_array` can return: not empty, no surrounding blanks, and
      none of the separator or quote characters. */
  predicate CleanItem(x: string)
  {
    x != "" && Trimmed(x) && ',' !in x && '\'' !in x && '"' !in x
  }

  /** `[item.strip() for item in parts if item.strip()]`. */
  function KeepItems(parts: seq<string>): (r: seq<string>)
    ensures forall k :: 0 <= k < |r| ==> r[k] != "" && Trimmed(r[k])
  {
    if parts == [] then []
    else
      var x := Strip(parts[0]);
      var rest := KeepItems(parts[1..]);
      StripTrimmed(parts[0]);
      if x != "" then [x] + rest else rest
  }

  /** `_parse_array`: NaN, the empty string and anything that is not a string give
      `[]`; otherwise brackets are stripped from both ends, every quote is
      deleted, and the comma-separated items are trimmed, empty ones dropped. */
  function ParseArray(v: Value): (r: seq<string>)
    ensures !v.Str? || v == Str("") ==> r == []
    ensures forall k :: 0 <= k < |r| ==> CleanItem(r[k])
  {
    match v
    case Str(s) =>
      if s == "" then []
      else
        var t := RemoveAll(StripSet(s, Brackets), Quotes);
        if t == "" then []
        else
          var parts := Split(t, ',');
          RemoveAllChars(StripSet(s, Brackets), Quotes);
          SplitChars(t, ',');
          KeepItemsAvoid(parts, {',', '\'', '"'});
          KeepItems(parts)
    case _ => []
  }

  /** Trimming keeps only characters the pieces had. */
  lemma {:induction false} KeepItemsAvoid(parts: seq<string>, avoid: set<char>)
    requires forall j, ch :: 0 <= j < |parts| && ch in parts[j] ==> ch !in avoid
    ensures forall k, ch :: 0 <= k < |KeepItems(parts)| && ch in KeepItems(parts)[k] ==> ch !in avoid
  {
    if parts != [] {
      StripSetShape(parts[0], Whitespace);
      KeepItemsAvoid(parts[1..], avoid);
    }
  }

  /** A blank in front of the first piece is trimmed away. */
  lemma KeepItemsBlank(p: seq<string>)
    requires p != []
    ensures KeepItems([" " + p[0]] + p[1..]) == KeepItems(p)
  {
    StripSetCons(' ', p[0], Whitespace);
    assert ([" " + p[0]] + p[1..])[1..] == p[1..];
  }

  /** A piece starting with a blank splits off with the blank in front. */
  lemma SplitBlank(u: string)
    ensures var p := Split(u, ',');
      Split(" " + u, ',') == [" " + p[0]] + p[1..]
  {
    assert (" " + u)[1..] == u;
  }

  /** `', '.join` of two or more items, one item at a time. */
  lemma JoinComma(xs: seq<string>)
    requires |xs| > 1
    ensures Join(xs, ", ") == xs[0] + [','] + (" " + Join(xs[1..], ", "))
  {
  }

  /** A clean item is kept as it is. */
  lemma KeepItemsClean(x: string, rest: seq<string>)
    requires CleanItem(x)
    ensures KeepItems([x] + rest) == [x] + KeepItems(rest)
  {
    StripTrimmed(x);
    assert ([x] + rest)[1..] == rest;
  }

  /** One clean item, a comma and a blank: the item splits off, the blank is trimmed. */
  lemma SplitJoinedStep(x: string, u: string)
    requires CleanItem(x)
    ensures KeepItems(Split(x + [','] + (" " + u), ',')) == [x] + KeepItems(Split(u, ','))
  {
    SplitAfter(x, ',', " " + u);
    SplitBlank(u);
    var p := Split(u, ',');
    KeepItemsClean(x, [" " + p[0]] + p[1..]);
    KeepItemsBlank(p);
  }

  /** Splitting `', '.join(xs)` at the commas and trimming gives `xs` back. */
  lemma {:induction false} SplitJoined(xs: seq<string>)
    requires xs != [] && forall k :: 0 <= k < |xs| ==> CleanItem(xs[k])
    ensures KeepItems(Split(Join(xs, ", "), ',')) == xs
  {
    if |xs| == 1 {
      SplitNone(xs[0], ',');
      KeepItemsClean(xs[0], []);
    } else {
      JoinComma(xs);
      SplitJoinedStep(xs[0], Join(xs[1..], ", "));
      SplitJoined(xs[1..]);
    }
  }

  /** Deleting the quotes around one quoted item leaves the item. */
  lemma UnquoteOne(x: string)
    requires '\'' !in x && '"' !in x
    ensures RemoveAll("'" + x + "'", Quotes) == x
  {
    RemoveAllAppend("'" + x, "'", Quotes);
    RemoveAllAppend("'", x, Quotes);
    RemoveAllNone(x, Quotes);
  }

  /** Quote deletion goes through a `', '` join piece by piece. */
  lemma UnquoteStep(q: string, w: string)
    ensures RemoveAll(q + (", " + w), Quotes) == RemoveAll(q, Quotes) + (", " + RemoveAll(w, Quotes))
  {
    RemoveAllAppend(q, ", " + w, Quotes);
    RemoveAllAppend(", ", w, Quotes);
    RemoveAllNone(", ", Quotes);
  }

  /** Deleting the quotes from the quoted items leaves the plain items. */
  lemma {:induction false} UnquoteJoined(xs: seq<string>)
    requires forall k :: 0 <= k < |xs| ==> CleanItem(xs[k])
    ensures RemoveAll(Join(Quoted(xs), ", "), Quotes) == Join(xs, ", ")
  {
    if xs != [] {
      var qs := Quoted(xs);
      UnquoteOne(xs[0]);
      assert qs[0] == "'" + xs[0] + "'";
      if |xs| > 1 {
        assert qs[1..] == Quoted(xs[1..]);
        UnquoteJoined(xs[1..]);
        JoinSep(qs, ", ");
        JoinSep(xs, ", ");
        UnquoteStep(qs[0], Join(qs[1..], ", "));
      }
    }
  }

  /** The joined quoted items start and end with a quote. */
  lemma {:induction false} QuotedEnds(xs: seq<string>)
    requires xs != []
    ensures var b := Join(Quoted(xs), ", "); |b| >= 2 && b[0] == '\'' && b[|b| - 1] == '\''
  {
    if |xs| > 1 {
      assert Quoted(xs)[1..] == Quoted(xs[1..]);
      QuotedEnds(xs[1..]);
    }
  }

  /** Brackets around a text that starts and ends with a quote are stripped. */
  lemma StripAround(b: string)
    requires |b| >= 2 && b[0] == '\'' && b[|b| - 1] == '\''
    ensures StripSet("[" + b + "]", Brackets) == b
  {
    var s := "[" + b + "]";
    assert s[1..] == b + "]";
    assert (b + "]")[0] == b[0];
    assert StripLeft(s, Brackets) == b + "]";
    assert (b + "]")[..|b|] == b;
    assert StripRight(b + "]", Brackets) == b;
  }

  /** Stripping the brackets off a list's `repr` leaves the joined quoted items. */
  lemma StripBrackets(xs: seq<string>)
    ensures StripSet(ListRepr(xs), Brackets) == Join(Quoted(xs), ", ")
  {
    if xs == [] {
      assert ListRepr(xs) == "[]";
      assert StripLeft("[]", Brackets) == "";
    } else {
      QuotedEnds(xs);
      StripAround(Join(Quoted(xs), ", "));
    }
  }

  /** `', '.join` of clean items is empty only for no items. */
  lemma JoinedNonEmpty(xs: seq<string>)
    requires xs != [] && CleanItem(xs[0])
    ensures Join(xs, ", ") != ""
  {
    if |xs| > 1 {
      JoinSep(xs, ", ");
    }
  }

  /** A character `repr` writes as itself inside single quotes: printable
      ASCII other than the backslash (and, for a clean item, the quotes). */
  predicate ReprPlain(c: char)
  {
    ' ' <= c <= '~' && c != '\\'
  }

  /** `_parse_array` reads back Python's `repr` of a list of clean items that
      `repr` prints without escapes. */
  lemma ParseArrayRepr(xs: seq<string>)
    requires forall k :: 0 <= k < |xs| ==> CleanItem(xs[k])
    requires forall k, j :: 0 <= k < |xs| && 0 <= j < |xs[k]| ==> ReprPlain(xs[k][j])
    ensures ParseArray(Str(ListRepr(xs))) == xs
  {
    var s := ListRepr(xs);
    StripBrackets(xs);
    UnquoteJoined(xs);
    var t := RemoveAll(StripSet(s, Brackets), Quotes);
    assert t == Join(xs, ", ");
    assert s != "";
    if xs != [] {
      JoinedNonEmpty(xs);
      SplitJoined(xs);
      assert ParseArray(Str(s)) == KeepItems(Split(t, ','));
    } else {
      assert t == "";
    }
  }
}
