/**
 * The few operations on Python strings that the Steam data pipeline relies on:
 * `str.split(sep)[0]`, `str.replace(c, '')`, the substring test `x in s`,
 * string ordering as `sorted` uses it, and `sorted(set(...))` of a list of strings.
 */
module Strings {

  /** `t` occurs in `s` starting at index `i`. */
  predicate OccursAt(s: string, i: int, t: string) {
    0 <= i && i + |t| <= |s| && s[i..i + |t|] == t
  }

  /** Python's `x in s` for two strings: `x` is a substring of `s`. */
  predicate IsSubstring(x: string, s: string) {
    exists i :: 0 <= i <= |s| && OccursAt(s, i, x)
  }

  /**
   * Python's `s.split(sep)[0]`: the text before the first occurrence of `sep`,
   * or all of `s` when `sep` does not occur in it.
   */
  function FirstField(s: string, sep: string): (r: string)
    requires sep != []
    ensures r <= s
    ensures |r| == |s| || OccursAt(s, |r|, sep)
    ensures forall i :: 0 <= i < |r| ==> !OccursAt(s, i, sep)
    decreases |s|
  {
    if |s| < |sep| then s
    else if s[..|sep|] == sep then []
    else
      var rest := FirstField(s[1..], sep);
      assert forall i :: 1 <= i <= |s| ==> (OccursAt(s, i, sep) <==> OccursAt(s[1..], i - 1, sep));
      [s[0]] + rest
  }

  /** Python's `s.replace(c, '')`: `s` with every occurrence of `c` removed. */
  function RemoveAll(s: string, c: char): (r: string)
    ensures forall x :: x in r <==> x in s && x != c
    ensures |r| <= |s|
  {
    if s == [] then []
    else
      var rest := RemoveAll(s[1..], c);
      if s[0] == c then rest else [s[0]] + rest
  }

  lemma {:induction false} RemoveAllConcat(a: string, b: string, c: char)
    ensures RemoveAll(a + b, c) == RemoveAll(a, c) + RemoveAll(b, c)
    decreases |a|
  {
    if a == [] {
      assert a + b == b;
    } else {
      var h := if a[0] == c then [] else [a[0]];
      assert RemoveAll(a, c) == h + RemoveAll(a[1..], c);
      assert RemoveAll(a + b, c) == h + RemoveAll(a[1..] + b, c) by {
        assert (a + b)[0] == a[0] && (a + b)[1..] == a[1..] + b;
      }
      RemoveAllConcat(a[1..], b, c);
      assert h + (RemoveAll(a[1..], c) + RemoveAll(b, c)) == (h + RemoveAll(a[1..], c)) + RemoveAll(b, c);
    }
  }

  lemma {:induction false} RemoveAllAbsent(s: string, c: char)
    requires c !in s
    ensures RemoveAll(s, c) == s
    decreases |s|
  {
    if s != [] {
      RemoveAllAbsent(s[1..], c);
    }
  }

  /** Python's `<` on strings: lexicographic order on code points. */
  predicate StrLess(a: string, b: string)
    decreases |a|
  {
    if a == [] then b != []
    else if b == [] then false
    else if a[0] != b[0] then a[0] < b[0]
    else StrLess(a[1..], b[1..])
  }

  lemma {:induction false} StrLessIrreflexive(a: string)
    ensures !StrLess(a, a)
    decreases |a|
  {
    if a != [] {
      StrLessIrreflexive(a[1..]);
    }
  }

  lemma {:induction false} StrLessTransitive(a: string, b: string, c: string)
    requires StrLess(a, b) && StrLess(b, c)
    ensures StrLess(a, c)
    decreases |a|
  {
    if a != [] && b != [] && c != [] && a[0] == b[0] && b[0] == c[0] {
      StrLessTransitive(a[1..], b[1..], c[1..]);
    }
  }

  lemma {:induction false} StrLessTotal(a: string, b: string)
    requires a != b
    ensures StrLess(a, b) || StrLess(b, a)
    decreases |a|
  {
    if a != [] && b != [] && a[0] == b[0] {
      assert a == [a[0]] + a[1..] && b == [b[0]] + b[1..];
      StrLessTotal(a[1..], b[1..]);
    }
  }

  /** Strictly increasing: sorted and free of duplicates. */
  predicate StrictlySorted(s: seq<string>) {
    forall i, j :: 0 <= i < j < |s| ==> StrLess(s[i], s[j])
  }

  lemma HeadBelowAll(x: string, s: seq<string>)
    requires StrictlySorted(s) && s != [] && StrLess(x, s[0])
    ensures forall y :: y in s ==> StrLess(x, y)
  {
    forall y | y in s ensures StrLess(x, y) {
      if y != s[0] {
        var j :| 0 <= j < |s| && s[j] == y;
        StrLessTransitive(x, s[0], y);
      }
    }
  }

  /** Adds `x` to a strictly sorted sequence unless it is already there. */
  function InsertDistinct(x: string, s: seq<string>): (r: seq<string>)
    requires StrictlySorted(s)
    ensures StrictlySorted(r)
    ensures forall y :: y in r <==> y == x || y in s
    decreases |s|
  {
    if s == [] then [x]
    else if x == s[0] then s
    else if StrLess(x, s[0]) then
      HeadBelowAll(x, s);
      [x] + s
    else
      StrLessTotal(x, s[0]);
      var rest := InsertDistinct(x, s[1..]);
      assert forall y :: y in s[1..] ==> StrLess(s[0], y) by {
        forall y | y in s[1..] ensures StrLess(s[0], y) {
          var j :| 0 <= j < |s[1..]| && s[1..][j] == y;
          assert s[j + 1] == y;
        }
      }
      assert forall j :: 0 <= j < |rest| ==> rest[j] in rest;
      [s[0]] + rest
  }

  /** Python's `sorted(set(xs))`: the distinct strings of `xs` in increasing order. */
  function SortedDistinct(xs: seq<string>): (r: seq<string>)
    ensures StrictlySorted(r)
    ensures forall y :: y in r <==> y in xs
  {
    if xs == [] then [] else InsertDistinct(xs[0], SortedDistinct(xs[1..]))
  }

  /** The head of a strictly sorted sequence is below every other element. */
  lemma HeadIsLeast(s: seq<string>, y: string)
    requires StrictlySorted(s) && y in s && y != s[0]
    ensures StrLess(s[0], y)
  {
    var j :| 0 <= j < |s| && s[j] == y;
  }

  /**
   * A strictly sorted sequence is determined by its elements, so any algorithm
   * that sorts the distinct values yields the same list as SortedDistinct.
   */
  lemma {:induction false} StrictlySortedUnique(a: seq<string>, b: seq<string>)
    requires StrictlySorted(a) && StrictlySorted(b)
    requires forall y :: y in a <==> y in b
    ensures a == b
    decreases |a|
  {
    assert a != [] ==> a[0] in a;
    assert b != [] ==> b[0] in b;
    if a != [] && b != [] {
      if a[0] != b[0] {
        assert a[0] in a && b[0] in b;
        HeadIsLeast(b, a[0]);
        HeadIsLeast(a, b[0]);
        StrLessTransitive(a[0], b[0], a[0]);
        StrLessIrreflexive(a[0]);
        assert false;
      } else {
        forall y ensures y in a[1..] <==> y in b[1..] {
          if y in a[1..] {
            var i :| 0 <= i < |a[1..]| && a[1..][i] == y;
            assert StrLess(a[0], a[i + 1]);
            if y == a[0] { StrLessIrreflexive(y); }
            assert y in b;
            var j :| 0 <= j < |b| && b[j] == y;
            assert j != 0;
            assert b[1..][j - 1] == y;
          }
          if y in b[1..] {
            var j :| 0 <= j < |b[1..]| && b[1..][j] == y;
            assert StrLess(b[0], b[j + 1]);
            if y == b[0] { StrLessIrreflexive(y); }
            assert y in a;
            var i :| 0 <= i < |a| && a[i] == y;
            assert i != 0;
            assert a[1..][i - 1] == y;
          }
        }
        StrictlySortedUnique(a[1..], b[1..]);
        assert a == [a[0]] + a[1..];
        assert b == [b[0]] + b[1..];
      }
    }
  }
}
