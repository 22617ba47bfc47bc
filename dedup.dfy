/** `DataCleaner.clean_data`: `df.duplicated(subset=['ids'], keep='first')`
    splits the frame into the first row of every id (clean) and every later
    row with an id seen before (duplicates), both in the original order. */
module Dedup {
  import opened Values

  /** The two frames `clean_data` returns. */
  datatype Partition = Partition(clean: Frame, duplicates: Frame)

  /** The `ids` cell of every row, in order. */
  function Keys(rows: seq<Row>): (r: seq<Value>)
    requires forall i :: 0 <= i < |rows| ==> "ids" in rows[i]
    ensures |r| == |rows|
  {
    seq(|rows|, i requires 0 <= i < |rows| => rows[i]["ids"])
  }

  /** `duplicated(keep='first')`: a row is marked when its key occurs earlier. */
  function DuplicatedMask<K(==)>(keys: seq<K>): (r: seq<bool>)
    ensures |r| == |keys|
  {
    seq(|keys|, i requires 0 <= i < |keys| => keys[i] in keys[..i])
  }

  /** `xs[mask == keep]`: the elements whose flag equals `keep`, in order. */
  function Select<T>(xs: seq<T>, mask: seq<bool>, keep: bool): seq<T>
    requires |xs| == |mask|
  {
    if xs == [] then []
    else
      var n := |xs| - 1;
      Select(xs[..n], mask[..n], keep) + (if mask[n] == keep then [xs[n]] else [])
  }

  /** Reference definition: the first occurrence of every key, in order. */
  function FirstOccurrences<K(==)>(keys: seq<K>): seq<K>
  {
    if keys == [] then []
    else
      var n := |keys| - 1;
      FirstOccurrences(keys[..n]) + (if keys[n] in keys[..n] then [] else [keys[n]])
  }

  predicate Distinct<K(==)>(keys: seq<K>)
  {
    forall i, j :: 0 <= i < j < |keys| ==> keys[i] != keys[j]
  }

  /** `clean_data`: `duplicated` answers an empty frame with an empty mask
      before it looks at `subset`, so only a frame with rows and without an
      `ids` column raises `KeyError`. */
  function CleanData(f: Frame): (r: Result<Partition>)
    requires WellFormed(f)
    ensures r.Err? <==> "ids" !in f.columns && f.rows != []
    ensures r.Err? ==> r.error == MissingColumn("ids")
    ensures r.Ok? ==> r.value.clean.columns == f.columns && r.value.duplicates.columns == f.columns
    ensures f.rows == [] ==> r.Ok? && r.value.clean.rows == [] && r.value.duplicates.rows == []
  {
    if f.rows == [] then Ok(Partition(f, Frame(f.columns, [])))
    else if "ids" !in f.columns then Err(MissingColumn("ids"))
    else
      assert "ids" in ColumnSet(f);
      var mask := DuplicatedMask(Keys(f.rows));
      Ok(Partition(Frame(f.columns, Select(f.rows, mask, false)),
                   Frame(f.columns, Select(f.rows, mask, true))))
  }

  lemma MaskPrefix<K>(keys: seq<K>, n: nat)
    requires n <= |keys|
    ensures DuplicatedMask(keys)[..n] == DuplicatedMask(keys[..n])
  {
    forall i | 0 <= i < n ensures DuplicatedMask(keys)[i] == DuplicatedMask(keys[..n])[i] {
      assert keys[..n][..i] == keys[..i];
    }
  }

  /** The selected keys are the keys of the selected rows. */
  lemma {:induction false} SelectKeys(rows: seq<Row>, mask: seq<bool>, keep: bool)
    requires |rows| == |mask| && forall i :: 0 <= i < |rows| ==> "ids" in rows[i]
    ensures var s := Select(rows, mask, keep);
      (forall i :: 0 <= i < |s| ==> "ids" in s[i]) && Keys(s) == Select(Keys(rows), mask, keep)
  {
    if rows != [] {
      var n := |rows| - 1;
      assert Keys(rows)[..n] == Keys(rows[..n]);
      SelectKeys(rows[..n], mask[..n], keep);
      SelectElements(rows, mask, keep);
    }
  }

  /** Every selected element comes from the input. */
  lemma {:induction false} SelectElements<T>(xs: seq<T>, mask: seq<bool>, keep: bool)
    requires |xs| == |mask|
    ensures forall x :: x in Select(xs, mask, keep) ==> x in xs
  {
    if xs != [] {
      var n := |xs| - 1;
      SelectElements(xs[..n], mask[..n], keep);
      assert forall x :: x in xs[..n] ==> x in xs;
    }
  }

  /** The two selections split the input: together they hold every element
      exactly as often as the input does. */
  lemma {:induction false} SelectSplits<T>(xs: seq<T>, mask: seq<bool>)
    requires |xs| == |mask|
    ensures multiset(Select(xs, mask, false)) + multiset(Select(xs, mask, true)) == multiset(xs)
  {
    if xs != [] {
      var n := |xs| - 1;
      SelectSplits(xs[..n], mask[..n]);
      assert xs == xs[..n] + [xs[n]];
    }
  }

  /** Keeping the unmarked keys of `duplicated(keep='first')` is taking first occurrences. */
  lemma {:induction false} SelectFirstOccurrences<K>(keys: seq<K>)
    ensures Select(keys, DuplicatedMask(keys), false) == FirstOccurrences(keys)
  {
    if keys != [] {
      var n := |keys| - 1;
      MaskPrefix(keys, n);
      SelectFirstOccurrences(keys[..n]);
    }
  }

  /** First occurrences are distinct and hold every key. */
  lemma {:induction false} FirstOccurrencesFacts<K>(keys: seq<K>)
    ensures Distinct(FirstOccurrences(keys))
    ensures forall k :: k in FirstOccurrences(keys) <==> k in keys
  {
    if keys != [] {
      var n := |keys| - 1;
      FirstOccurrencesFacts(keys[..n]);
      assert keys == keys[..n] + [keys[n]];
    }
  }

  /** Every marked key is an earlier key, so it has a first occurrence. */
  lemma {:induction false} MarkedHaveFirst<K>(keys: seq<K>)
    ensures forall k :: k in Select(keys, DuplicatedMask(keys), true) ==> k in FirstOccurrences(keys)
  {
    SelectElements(keys, DuplicatedMask(keys), true);
    FirstOccurrencesFacts(keys);
  }

  /** When no key repeats, nothing is marked and the unmarked selection is everything. */
  lemma {:induction false} DistinctUnmarked<T, K>(xs: seq<T>, keys: seq<K>)
    requires |xs| == |keys| && Distinct(keys)
    ensures Select(xs, DuplicatedMask(keys), false) == xs
    ensures Select(xs, DuplicatedMask(keys), true) == []
  {
    if xs != [] {
      var n := |xs| - 1;
      MaskPrefix(keys, n);
      assert keys[n] !in keys[..n];
      DistinctUnmarked(xs[..n], keys[..n]);
    }
  }

  lemma SelectWellFormed(f: Frame, mask: seq<bool>, keep: bool)
    requires WellFormed(f) && |mask| == |f.rows|
    ensures WellFormed(Frame(f.columns, Select(f.rows, mask, keep)))
  {
    SelectElements(f.rows, mask, keep);
    var s := Select(f.rows, mask, keep);
    forall i | 0 <= i < |s| ensures s[i].Keys == ColumnSet(f) {
      assert s[i] in f.rows;
    }
  }

  /** The positions whose flag equals `keep`. */
  function Positions(mask: seq<bool>, keep: bool): (r: seq<nat>)
    ensures forall j :: 0 <= j < |r| ==> r[j] < |mask| && mask[r[j]] == keep
  {
    if mask == [] then []
    else
      var n := |mask| - 1;
      var before := Positions(mask[..n], keep);
      assert forall j :: 0 <= j < |before| ==> mask[before[j]] == mask[..n][before[j]];
      before + (if mask[n] == keep then [n] else [])
  }

  predicate Increasing(s: seq<nat>)
  {
    forall a, b :: 0 <= a < b < |s| ==> s[a] < s[b]
  }

  /** The positions are listed in increasing order, and every position whose flag
      equals `keep` is listed. */
  lemma {:induction false} PositionsFacts(mask: seq<bool>, keep: bool)
    ensures Increasing(Positions(mask, keep))
    ensures forall i: nat :: i < |mask| && mask[i] == keep ==> i in Positions(mask, keep)
  {
    if mask != [] {
      var n := |mask| - 1;
      PositionsFacts(mask[..n], keep);
      var before := Positions(mask[..n], keep);
      assert forall j :: 0 <= j < |before| ==> before[j] < n;
      forall i: nat | i < |mask| && mask[i] == keep ensures i in Positions(mask, keep) {
        if i < n {
          assert mask[..n][i] == mask[i];
          assert i in before;
        }
      }
    }
  }

  /** `xs[mask == keep]` is `xs` read at the positions whose flag equals `keep`. */
  lemma {:induction false} SelectPositions<T>(xs: seq<T>, mask: seq<bool>, keep: bool)
    requires |xs| == |mask|
    ensures var ps := Positions(mask, keep);
      Select(xs, mask, keep) == seq(|ps|, j requires 0 <= j < |ps| => xs[ps[j]])
  {
    if xs != [] {
      var n := |xs| - 1;
      SelectPositions(xs[..n], mask[..n], keep);
      var before := Positions(mask[..n], keep);
      assert forall j :: 0 <= j < |before| ==> xs[..n][before[j]] == xs[before[j]];
    }
  }

  /** The position of the first occurrence of `k`. */
  function FirstIndex<K(==)>(keys: seq<K>, k: K): (i: nat)
    requires k in keys
    ensures i < |keys| && keys[i] == k && k !in keys[..i]
  {
    if keys[0] == k then 0
    else
      var i := FirstIndex(keys[1..], k);
      assert keys[..i + 1] == [keys[0]] + keys[1..][..i];
      i + 1
  }

  /** `duplicated(keep='first')` by position: the unmarked positions are those
      whose key does not occur earlier, the marked ones the rest, and every
      marked key first occurs at an earlier unmarked position. */
  lemma MaskPositions<K>(keys: seq<K>)
    ensures var firsts := Positions(DuplicatedMask(keys), false);
      && (forall i: nat :: i in firsts <==> i < |keys| && keys[i] !in keys[..i])
      && (forall i :: 0 <= i < |keys| && keys[i] in keys[..i] ==>
            exists e: nat :: e < i && keys[e] == keys[i] && e in firsts)
    ensures forall i: nat :: i in Positions(DuplicatedMask(keys), true) <==> i < |keys| && keys[i] in keys[..i]
  {
    var mask := DuplicatedMask(keys);
    PositionsFacts(mask, false);
    PositionsFacts(mask, true);
    var firsts := Positions(mask, false);
    forall i | 0 <= i < |keys| && keys[i] in keys[..i]
      ensures exists e: nat :: e < i && keys[e] == keys[i] && e in firsts
    {
      var e := FirstIndex(keys[..i], keys[i]);
      assert keys[..i][..e] == keys[..e];
      assert !mask[e];
      assert keys[e] == keys[i] && e in firsts;
    }
  }

  /** `clean_data` by position: the clean rows are the rows whose id does not
      occur earlier and the duplicates are the rest, both in input order; and the
      id of every duplicate belongs to a clean row that comes before it. */
  lemma CleanDataKeepsFirst(f: Frame)
    requires WellFormed(f) && "ids" in f.columns
    ensures CleanData(f).Ok? && forall i :: 0 <= i < |f.rows| ==> "ids" in f.rows[i]
    ensures var keys := Keys(f.rows);
      var p := CleanData(f).value;
      var firsts := Positions(DuplicatedMask(keys), false);
      var repeats := Positions(DuplicatedMask(keys), true);
      && Increasing(firsts) && Increasing(repeats)
      && (forall i: nat :: i in firsts <==> i < |keys| && keys[i] !in keys[..i])
      && (forall i: nat :: i in repeats <==> i < |keys| && keys[i] in keys[..i])
      && p.clean.rows == seq(|firsts|, j requires 0 <= j < |firsts| => f.rows[firsts[j]])
      && p.duplicates.rows == seq(|repeats|, j requires 0 <= j < |repeats| => f.rows[repeats[j]])
      && (forall i :: 0 <= i < |keys| && keys[i] in keys[..i] ==>
            exists e: nat :: e < i && keys[e] == keys[i] && e in firsts)
  {
    assert "ids" in ColumnSet(f);
    var keys := Keys(f.rows);
    var mask := DuplicatedMask(keys);
    PositionsFacts(mask, false);
    PositionsFacts(mask, true);
    SelectPositions(f.rows, mask, false);
    SelectPositions(f.rows, mask, true);
    MaskPositions(keys);
  }

  /** `clean_data` on a frame with an `ids` column: both frames keep the columns;
      together they hold exactly the input rows; the clean ids are the first
      occurrences of the ids, hence distinct and covering every id; and every
      duplicate's id has a clean row. Without an `ids` column it raises. */
  lemma CleanDataFacts(f: Frame)
    requires WellFormed(f)
    ensures "ids" !in f.columns && f.rows != [] ==> CleanData(f) == Err(MissingColumn("ids"))
    ensures f.rows == [] ==> CleanData(f) == Ok(Partition(f, Frame(f.columns, [])))
    ensures "ids" in f.columns ==> (CleanData(f).Ok? &&
      var p := CleanData(f).value;
      && p.clean.columns == f.columns && p.duplicates.columns == f.columns
      && WellFormed(p.clean) && WellFormed(p.duplicates)
      && |p.clean.rows| + |p.duplicates.rows| == |f.rows|
      && multiset(p.clean.rows) + multiset(p.duplicates.rows) == multiset(f.rows)
      && Keys(p.clean.rows) == FirstOccurrences(Keys(f.rows))
      && Distinct(Keys(p.clean.rows))
      && (forall k :: k in Keys(p.clean.rows) <==> k in Keys(f.rows))
      && (forall j :: 0 <= j < |p.duplicates.rows| ==> p.duplicates.rows[j]["ids"] in Keys(p.clean.rows)))
  {
    if "ids" in f.columns {
      assert "ids" in ColumnSet(f);
      var keys := Keys(f.rows);
      var mask := DuplicatedMask(keys);
      var p := CleanData(f).value;
      SelectWellFormed(f, mask, false);
      SelectWellFormed(f, mask, true);
      SelectSplits(f.rows, mask);
      assert |multiset(p.clean.rows)| + |multiset(p.duplicates.rows)| == |multiset(f.rows)|;
      SelectKeys(f.rows, mask, false);
      SelectKeys(f.rows, mask, true);
      SelectFirstOccurrences(keys);
      FirstOccurrencesFacts(keys);
      MarkedHaveFirst(keys);
      forall j | 0 <= j < |p.duplicates.rows|
        ensures p.duplicates.rows[j]["ids"] in Keys(p.clean.rows)
      {
        assert Keys(p.duplicates.rows)[j] == p.duplicates.rows[j]["ids"];
      }
    }
  }

  /** The part of `CleanDataFacts` a caller usually needs: the split succeeds,
      keeps the columns and well-formedness, and keeps one row per distinct id. */
  lemma CleanDataShape(f: Frame)
    requires WellFormed(f) && "ids" in f.columns
    ensures CleanData(f).Ok?
    ensures var p := CleanData(f).value;
      && p.clean.columns == f.columns && p.duplicates.columns == f.columns
      && WellFormed(p.clean) && WellFormed(p.duplicates)
      && |p.clean.rows| == |FirstOccurrences(Keys(f.rows))|
      && |p.duplicates.rows| == |f.rows| - |p.clean.rows|
  {
    CleanDataFacts(f);
    var p := CleanData(f).value;
    assert |Keys(p.clean.rows)| == |p.clean.rows|;
  }

  /** A frame whose ids are already distinct has no duplicates and comes back whole. */
  lemma CleanDataDistinct(f: Frame)
    requires WellFormed(f) && "ids" in f.columns
    requires forall i :: 0 <= i < |f.rows| ==> "ids" in f.rows[i]
    requires Distinct(Keys(f.rows))
    ensures CleanData(f) == Ok(Partition(f, Frame(f.columns, [])))
  {
    DistinctUnmarked(f.rows, Keys(f.rows));
  }

  /** Cleaning the clean frame again finds no duplicates. */
  lemma CleanDataIdempotent(f: Frame)
    requires WellFormed(f) && "ids" in f.columns
    ensures CleanData(f).Ok? && WellFormed(CleanData(f).value.clean)
    ensures var c := CleanData(f).value.clean;
      CleanData(c) == Ok(Partition(c, Frame(f.columns, [])))
  {
    CleanDataFacts(f);
    var c := CleanData(f).value.clean;
    assert "ids" in ColumnSet(c);
    CleanDataDistinct(c);
  }
}
