/** Concrete cases of the field conversions and of the duplicate split. */
module FieldExamples {
  import opened Text
  import opened Values
  import opened Arrays
  import opened Normalize
  import opened Dedup

  lemma PopRockText(text: string)
    requires text == "['pop', 'rock']"
    ensures ListRepr(["pop", "rock"]) == text
  {
    var xs := ["pop", "rock"];
    assert xs[1..] == ["rock"];
    assert "'" + "pop" + "'" == "'pop'" && "'" + "rock" + "'" == "'rock'";
    assert ["rock"][1..] == [];
    assert Quoted(["rock"]) == ["'rock'"];
    assert Quoted(xs) == ["'pop'"] + Quoted(["rock"]);
    assert Join(Quoted(xs), ", ") == "'pop', 'rock'";
  }

  /** A non-empty word of lower-case letters is a clean item. */
  lemma LowerWordClean(x: string)
    requires x != [] && forall k :: 0 <= k < |x| ==> 'a' <= x[k] <= 'z'
    ensures CleanItem(x)
  {
    assert x[0] !in Whitespace && x[|x| - 1] !in Whitespace;
  }

  lemma PopRockClean(a: string, b: string)
    requires a == "pop" && b == "rock"
    ensures CleanItem(a) && CleanItem(b)
  {
    LowerWordClean(a);
    LowerWordClean(b);
  }

  /** `"['pop', 'rock']"` becomes `['pop', 'rock']`. */
  lemma ParseArrayExample(text: string)
    requires text == "['pop', 'rock']"
    ensures ParseArray(Str(text)) == ["pop", "rock"]
  {
    PopRockText(text);
    PopRockClean("pop", "rock");
    ParseArrayRepr(["pop", "rock"]);
  }

  /** Thousands separators are not understood: `1,000,000` coerces to 0. */
  lemma ToNumericSeparators(text: string)
    requires text == "1,000,000"
    ensures ToNumeric(Str(text)) == 0
  {
    assert !IsDigit(text[1]);
  }

  /** Names are upper-cased. */
  lemma UpperExample(text: string)
    requires text == "daft punk"
    ensures UpperCell(Str(text)) == Str("DAFT PUNK")
  {
  }

  /** Three rows with ids a, b, a: the first two are clean, the third is the duplicate. */
  lemma CleanDataExample(cols: seq<string>, r1: Row, r2: Row, r3: Row)
    requires "ids" in cols && WellFormed(Frame(cols, [r1, r2, r3]))
    requires "ids" in r1 && "ids" in r2 && "ids" in r3
    requires r1["ids"] == Str("a") && r2["ids"] == Str("b") && r3["ids"] == Str("a")
    ensures CleanData(Frame(cols, [r1, r2, r3]))
      == Ok(Partition(Frame(cols, [r1, r2]), Frame(cols, [r3])))
  {
    var f := Frame(cols, [r1, r2, r3]);
    assert "ids" in ColumnSet(f);
    var keys := Keys(f.rows);
    assert keys == [Str("a"), Str("b"), Str("a")];
    assert Str("a") != Str("b");
    var mask := DuplicatedMask(keys);
    assert keys[..2] == [Str("a"), Str("b")];
    assert mask == [false, false, true];
    assert f.rows[..2] == [r1, r2] && f.rows[..2][..1] == [r1];
    assert mask[..2] == [false, false] && mask[..2][..1] == [false];
    assert [r1][..0] == [] && [false][..0] == [];
    assert Select(f.rows[..1], mask[..1], false) == [r1];
    assert Select(f.rows[..1], mask[..1], true) == [];
    assert Select(f.rows[..2], mask[..2], false) == [r1, r2];
    assert Select(f.rows[..2], mask[..2], true) == [];
    assert Select(f.rows, mask, false) == [r1, r2];
    assert Select(f.rows, mask, true) == [r3];
  }
}
