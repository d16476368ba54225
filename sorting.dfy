/**
  The two uses of Python's `sorted`/`list.sort` in the indexer:
  `sorted(set_of_strings)` (duplicate-free, ascending by code point), and
  `list.sort(key=score, reverse=True)` (stable, so equal scores keep their original order).
 */
module Sorting {
  import opened Base
  import opened Strings

  // ---------------------------------------------------------------- sorted(set of strings)

  /** Strictly ascending: sorted and duplicate-free. */
  predicate StrictlySorted(s: seq<string>) {
    forall i, j | 0 <= i < j < |s| :: LexLess(s[i], s[j])
  }

  /** Inserts `x` into a strictly ascending list, unless it is already there. */
  function InsertSorted(x: string, s: seq<string>): (r: seq<string>)
    requires StrictlySorted(s)
    ensures StrictlySorted(r)
    ensures forall y :: y in r <==> y == x || y in s
    decreases |s|
  {
    if |s| == 0 then [x]
    else if x == s[0] then s
    else if LexLess(x, s[0]) then
      assert forall j | 0 <= j < |s| :: LexLess(x, s[j]) by {
        forall j | 0 <= j < |s| ensures LexLess(x, s[j]) {
          if j > 0 { LexLessTransitive(x, s[0], s[j]); }
        }
      }
      [x] + s
    else
      LexLessTotal(x, s[0]);
      var rest := InsertSorted(x, s[1..]);
      assert forall y | y in rest :: LexLess(s[0], y) by {
        forall y | y in rest ensures LexLess(s[0], y) {
          if y != x {
            var j :| 0 <= j < |s[1..]| && s[1..][j] == y;
            assert s[j + 1] == y;
          }
        }
      }
      [s[0]] + rest
  }

  /** Python's `sorted(set(xs))`. */
  function SortedUnique(xs: seq<string>): (r: seq<string>)
    ensures StrictlySorted(r)
    ensures forall y :: y in r <==> y in xs
  {
    if |xs| == 0 then []
    else
      var r := InsertSorted(xs[|xs| - 1], SortedUnique(xs[..|xs| - 1]));
      assert xs == xs[..|xs| - 1] + [xs[|xs| - 1]];
      r
  }

  /** The head of a strictly sorted list is below every other element. */
  lemma SortedHeadLeast(s: seq<string>, y: string)
    requires StrictlySorted(s) && |s| > 0 && y in s
    ensures y == s[0] || LexLess(s[0], y)
  {
  }

  /**
    A strictly sorted list is determined by its elements: `sorted(set(...))` does not depend on
    the order in which the set was built.
   */
  lemma {:induction false} StrictlySortedUnique(a: seq<string>, b: seq<string>)
    requires StrictlySorted(a) && StrictlySorted(b)
    requires forall y :: y in a <==> y in b
    ensures a == b
    decreases |a|
  {
    if |a| > 0 {
      assert a[0] in b;
      assert |b| > 0;
      SortedHeadLeast(a, b[0]);
      SortedHeadLeast(b, a[0]);
      LexLessAsymmetryBoth(a[0], b[0]);
      assert a[0] == b[0];
      forall y ensures y in a[1..] <==> y in b[1..] {
        LexLessIrreflexive(a[0]);
        if y in a[1..] {
          var i :| 0 <= i < |a[1..]| && a[1..][i] == y;
          assert LexLess(a[0], a[i + 1]);
        }
        if y in b[1..] {
          var i :| 0 <= i < |b[1..]| && b[1..][i] == y;
          assert LexLess(b[0], b[i + 1]);
        }
        assert y in a <==> y == a[0] || y in a[1..];
        assert y in b <==> y == b[0] || y in b[1..];
      }
      StrictlySortedUnique(a[1..], b[1..]);
      assert a == [a[0]] + a[1..] && b == [b[0]] + b[1..];
    } else {
      NoMembersEmpty(b);
    }
  }

  lemma LexLessAsymmetryBoth(a: string, b: string)
    ensures !(LexLess(a, b) && LexLess(b, a))
  {
    if LexLess(a, b) { LexLessAsymmetric(a, b); }
  }

  /** `sorted(s)` for a set built in a loop. */
  method SortSet(s: set<string>) returns (r: seq<string>)
    ensures StrictlySorted(r)
    ensures forall y :: y in r <==> y in s
  {
    r := [];
    var rest := s;
    while rest != {}
      invariant StrictlySorted(r)
      invariant forall y :: y in r || y in rest <==> y in s
      invariant forall y | y in rest :: y !in r
      decreases |rest|
    {
      var x :| x in rest;
      r := InsertSorted(x, r);
      rest := rest - {x};
    }
  }

  // ---------------------------------------------------------------- stable descending sort

  /** A list element with the key it is sorted by and its index in the unsorted list. */
  datatype Scored<T> = Scored(score: real, item: T, pos: int)

  /** `a` comes before `b` in a stable descending sort. */
  predicate Precedes<T>(a: Scored<T>, b: Scored<T>) {
    a.score > b.score || (a.score == b.score && a.pos < b.pos)
  }

  /** Non-increasing scores, and elements with equal scores in their original order. */
  predicate Ranked<T>(s: seq<Scored<T>>) {
    forall i, j | 0 <= i < j < |s| :: Precedes(s[i], s[j])
  }

  /** The scores of a ranked list never increase. */
  lemma RankedNonIncreasing<T>(s: seq<Scored<T>>, i: int, j: int)
    requires Ranked(s) && 0 <= i <= j < |s|
    ensures s[i].score >= s[j].score
  {
  }

  predicate IncreasingPositions<T>(s: seq<Scored<T>>) {
    forall i, j | 0 <= i < j < |s| :: s[i].pos < s[j].pos
  }

  /** Inserts `x`, which comes later in the original list than every element of `s`. */
  function InsertRanked<T(==)>(x: Scored<T>, s: seq<Scored<T>>): (r: seq<Scored<T>>)
    requires Ranked(s) && forall k | 0 <= k < |s| :: s[k].pos < x.pos
    ensures Ranked(r)
    ensures multiset(r) == multiset(s) + multiset{x}
    decreases |s|
  {
    if |s| == 0 then [x]
    else if x.score > s[0].score then
      assert forall y | y in s :: Precedes(x, y) by {
        forall y | y in s ensures Precedes(x, y) {
          var j :| 0 <= j < |s| && s[j] == y;
          RankedNonIncreasing(s, 0, j);
        }
      }
      RankedCons(x, s);
      [x] + s
    else
      var rest := InsertRanked(x, s[1..]);
      HeadPrecedesInserted(s, x, rest);
      RankedCons(s[0], rest);
      assert s == [s[0]] + s[1..];
      [s[0]] + rest
  }

  /** An element that precedes everything in a ranked list can head it. */
  lemma RankedCons<T>(x: Scored<T>, s: seq<Scored<T>>)
    requires Ranked(s) && forall y | y in s :: Precedes(x, y)
    ensures Ranked([x] + s)
  {
    var r := [x] + s;
    forall i, j | 0 <= i < j < |r| ensures Precedes(r[i], r[j]) {
      assert r[j] == s[j - 1];
      if i > 0 {
        assert r[i] == s[i - 1];
      }
    }
  }

  /** The head of a ranked list precedes everything in its tail with a later, not higher-scored element added. */
  lemma HeadPrecedesInserted<T>(s: seq<Scored<T>>, x: Scored<T>, rest: seq<Scored<T>>)
    requires |s| > 0 && Ranked(s) && s[0].pos < x.pos && x.score <= s[0].score
    requires multiset(rest) == multiset(s[1..]) + multiset{x}
    ensures forall y | y in rest :: Precedes(s[0], y)
  {
    forall y | y in rest ensures Precedes(s[0], y) {
      assert y in multiset(rest);
      if y != x {
        assert y in multiset(s[1..]);
        var j :| 0 <= j < |s[1..]| && s[1..][j] == y;
        assert s[j + 1] == y;
      }
    }
  }

  /** Python's stable `list.sort(key=score, reverse=True)`. */
  function SortRanked<T(==)>(s: seq<Scored<T>>): (r: seq<Scored<T>>)
    requires IncreasingPositions(s)
    ensures Ranked(r)
    ensures multiset(r) == multiset(s)
  {
    if |s| == 0 then []
    else
      var init := s[..|s| - 1];
      var sorted := SortRanked(init);
      PositionsBeforeLast(s, sorted);
      assert s == init + [s[|s| - 1]];
      InsertRanked(s[|s| - 1], sorted)
  }

  /** A rearrangement of all but the last element holds only earlier positions than the last. */
  lemma PositionsBeforeLast<T>(s: seq<Scored<T>>, sorted: seq<Scored<T>>)
    requires IncreasingPositions(s) && |s| > 0 && multiset(sorted) == multiset(s[..|s| - 1])
    ensures forall k | 0 <= k < |sorted| :: sorted[k].pos < s[|s| - 1].pos
  {
    forall k | 0 <= k < |sorted| ensures sorted[k].pos < s[|s| - 1].pos {
      assert sorted[k] in multiset(s[..|s| - 1]);
      var j :| 0 <= j < |s| - 1 && s[..|s| - 1][j] == sorted[k];
      assert s[j] == sorted[k];
    }
  }

  /** Every element of a sublist of a ranked list keeps the ranking. */
  lemma RankedPrefix<T>(s: seq<Scored<T>>, n: int)
    requires Ranked(s) && 0 <= n <= |s|
    ensures Ranked(s[..n])
  {
  }
}
