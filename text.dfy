/** String helpers that stand for the Python `str` methods the cleaner uses:
    `strip`, `strip(chars)`, `replace(c, '')`, `split(',')`, `upper` and `', '.join`. */
module Text {

  /** The characters Python's `str.isspace()` accepts, which `str.strip()` removes. */
  const Whitespace: set<char> := {
    ' ', '\t', '\n', '\r', '\U{B}', '\U{C}', '\U{1C}', '\U{1D}', '\U{1E}', '\U{1F}',
    '\U{85}', '\U{A0}', '\U{1680}', '\U{2000}', '\U{2001}', '\U{2002}', '\U{2003}',
    '\U{2004}', '\U{2005}', '\U{2006}', '\U{2007}', '\U{2008}', '\U{2009}', '\U{200A}',
    '\U{2028}', '\U{2029}', '\U{202F}', '\U{205F}', '\U{3000}'
  }

  /** Removes the longest prefix made of characters of `cs`. */
  function StripLeft(s: string, cs: set<char>): (r: string)
    ensures |r| <= |s| && r == s[|s| - |r|..]
    ensures r == [] || r[0] !in cs
    ensures forall k :: 0 <= k < |s| - |r| ==> s[k] in cs
  {
    if s != [] && s[0] in cs then StripLeft(s[1..], cs) else s
  }

  /** Removes the longest suffix made of characters of `cs`. */
  function StripRight(s: string, cs: set<char>): (r: string)
    ensures |r| <= |s| && r == s[..|r|]
    ensures r == [] || r[|r| - 1] !in cs
    ensures forall k :: |r| <= k < |s| ==> s[k] in cs
  {
    if s != [] && s[|s| - 1] in cs then StripRight(s[..|s| - 1], cs) else s
  }

  /** Python's `s.strip(chars)`: both ends, every character of `cs`. */
  function StripSet(s: string, cs: set<char>): string
  {
    StripRight(StripLeft(s, cs), cs)
  }

  /** Python's `s.strip()`. */
  function Strip(s: string): string
  {
    StripSet(s, Whitespace)
  }

  /** What `strip` leaves is a piece of the input that neither starts nor ends
      with a stripped character. */
  lemma StripSetShape(s: string, cs: set<char>)
    ensures var r := StripSet(s, cs);
      (r == [] || (r[0] !in cs && r[|r| - 1] !in cs))
      && (forall ch :: ch in r ==> ch in s)
  {
    var l := StripLeft(s, cs);
    var r := StripRight(l, cs);
    forall ch | ch in r ensures ch in s {
      var k :| 0 <= k < |r| && r[k] == ch;
      assert l[k] == ch;
      assert s[|s| - |l| + k] == ch;
    }
    if r != [] {
      assert r[0] == l[0];
    }
  }

  /** Neither starts nor ends with whitespace: what `strip()` leaves. */
  predicate Trimmed(s: string)
  {
    s == [] || (s[0] !in Whitespace && s[|s| - 1] !in Whitespace)
  }

  /** `strip()` gives a trimmed string, and leaves a trimmed string alone. */
  lemma StripTrimmed(s: string)
    ensures Trimmed(Strip(s))
    ensures Trimmed(s) ==> Strip(s) == s
  {
    StripSetShape(s, Whitespace);
    if s != [] && Trimmed(s) {
      StripSetUnchanged(s, Whitespace);
    }
  }

  /** Stripping twice is stripping once. */
  lemma StripSetIdempotent(s: string, cs: set<char>)
    ensures StripSet(StripSet(s, cs), cs) == StripSet(s, cs)
  {
    var r := StripSet(s, cs);
    StripSetShape(s, cs);
    if r != [] {
      assert StripLeft(r, cs) == r;
      assert StripRight(r, cs) == r;
    }
  }

  /** A string that starts and ends with characters outside `cs` is left alone. */
  lemma StripSetUnchanged(s: string, cs: set<char>)
    requires s != [] && s[0] !in cs && s[|s| - 1] !in cs
    ensures StripSet(s, cs) == s
  {
    assert StripLeft(s, cs) == s;
  }

  /** Stripping skips one more leading stripped character. */
  lemma StripSetCons(c: char, s: string, cs: set<char>)
    requires c in cs
    ensures StripSet([c] + s, cs) == StripSet(s, cs)
  {
    assert ([c] + s)[1..] == s;
  }

  /** Python's `s.replace(c, '')` for each `c` in `cs`: every such character is dropped. */
  function RemoveAll(s: string, cs: set<char>): string
  {
    if s == [] then []
    else (if s[0] in cs then [] else [s[0]]) + RemoveAll(s[1..], cs)
  }

  /** A character is left exactly when the input has it and it is not removed. */
  lemma {:induction false} RemoveAllChars(s: string, cs: set<char>)
    ensures forall ch :: ch in RemoveAll(s, cs) <==> ch in s && ch !in cs
  {
    if s != [] {
      RemoveAllChars(s[1..], cs);
      assert forall ch :: ch in s <==> ch == s[0] || ch in s[1..];
    }
  }

  lemma {:induction false} RemoveAllAppend(s: string, t: string, cs: set<char>)
    ensures RemoveAll(s + t, cs) == RemoveAll(s, cs) + RemoveAll(t, cs)
  {
    if s != [] {
      var head := if s[0] in cs then [] else [s[0]];
      assert (s + t)[0] == s[0];
      assert (s + t)[1..] == s[1..] + t;
      assert RemoveAll(s + t, cs) == head + RemoveAll(s[1..] + t, cs);
      RemoveAllAppend(s[1..], t, cs);
      assert RemoveAll(s, cs) == head + RemoveAll(s[1..], cs);
    } else {
      assert s + t == t;
    }
  }

  lemma {:induction false} RemoveAllNone(s: string, cs: set<char>)
    requires forall ch :: ch in s ==> ch !in cs
    ensures RemoveAll(s, cs) == s
  {
    if s != [] {
      RemoveAllNone(s[1..], cs);
    }
  }

  /** `sep.join(xs)`. */
  function Join(xs: seq<string>, sep: string): string
  {
    if xs == [] then ""
    else if |xs| == 1 then xs[0]
    else xs[0] + sep + Join(xs[1..], sep)
  }

  /** Joining two or more strings: the first, the separator, then the rest joined. */
  lemma JoinSep(xs: seq<string>, sep: string)
    requires |xs| > 1
    ensures Join(xs, sep) == xs[0] + (sep + Join(xs[1..], sep))
  {
  }

  /** Python's `s.split(c)`: the pieces between separators, at least one, none
      holding `c`. */
  function Split(s: string, c: char): (r: seq<string>)
    ensures |r| >= 1
    ensures forall k :: 0 <= k < |r| ==> c !in r[k]
  {
    if s == [] then [[]]
    else
      var rest := Split(s[1..], c);
      if s[0] == c then [[]] + rest
      else [[s[0]] + rest[0]] + rest[1..]
  }

  /** Joining the pieces back with the separator gives the split string. */
  lemma {:induction false} SplitRejoins(s: string, c: char)
    ensures Join(Split(s, c), [c]) == s
  {
    if s != [] {
      var rest := Split(s[1..], c);
      SplitRejoins(s[1..], c);
      if s[0] == c {
        assert Join([[]] + rest, [c]) == [] + [c] + Join(rest, [c]);
      } else {
        var r := [[s[0]] + rest[0]] + rest[1..];
        if |rest| > 1 {
          assert r[1..] == rest[1..];
        }
        assert Join(r, [c]) == [s[0]] + Join(rest, [c]);
      }
      assert s == [s[0]] + s[1..];
    }
  }

  /** Every character of every piece comes from the split string. */
  lemma {:induction false} SplitChars(s: string, c: char)
    ensures forall k, ch :: 0 <= k < |Split(s, c)| && ch in Split(s, c)[k] ==> ch in s
  {
    if s != [] {
      SplitChars(s[1..], c);
      var rest := Split(s[1..], c);
      assert forall ch :: ch in s[1..] ==> ch in s;
      if s[0] != c {
        var r := [[s[0]] + rest[0]] + rest[1..];
        assert Split(s, c) == r;
        forall k, ch | 0 <= k < |r| && ch in r[k] ensures ch in s {
          if k == 0 {
            assert ch == s[0] || ch in rest[0];
          } else {
            assert r[k] == rest[k];
          }
        }
      }
    }
  }

  /** A piece without the separator, followed by the separator, splits off whole. */
  lemma {:induction false} SplitAfter(x: string, c: char, u: string)
    requires c !in x
    ensures Split(x + [c] + u, c) == [x] + Split(u, c)
  {
    if x == [] {
      assert x + [c] + u == [c] + u;
      assert ([c] + u)[1..] == u;
    } else {
      assert (x + [c] + u)[1..] == x[1..] + [c] + u;
      SplitAfter(x[1..], c, u);
      assert [x[0]] + x[1..] == x;
    }
  }

  /** A string without the separator is a single piece. */
  lemma {:induction false} SplitNone(x: string, c: char)
    requires c !in x
    ensures Split(x, c) == [x]
  {
    if x != [] {
      SplitNone(x[1..], c);
      assert [x[0]] + x[1..] == x;
    }
  }

  /** Python's `str.upper()` on one character, for the ASCII letters. */
  function UpperChar(c: char): char
  {
    if 'a' <= c <= 'z' then (c as int - 32) as char else c
  }

  /** Python's `str.upper()`, for the ASCII letters. */
  function Upper(s: string): string
  {
    seq(|s|, k requires 0 <= k < |s| => UpperChar(s[k]))
  }

  /** Upper-casing leaves no lower-case ASCII letter, keeps every other character,
      and doing it twice is doing it once. */
  lemma UpperFacts(s: string)
    ensures forall k :: 0 <= k < |s| ==> !('a' <= Upper(s)[k] <= 'z')
    ensures forall k :: 0 <= k < |s| && !('a' <= s[k] <= 'z') ==> Upper(s)[k] == s[k]
    ensures Upper(Upper(s)) == Upper(s)
  {
  }
}
