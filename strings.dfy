/**
  The Python `str` operations the indexer relies on, over `string` (a sequence of characters):
  `in`, `startswith`, `lower`, `replace`, `split(sep)`, `split()`, `join`, `strip`,
  `splitlines`, decimal formatting of an `int`, and the ordering `<` that `sorted` uses.
 */
module Strings {

  /** The characters for which Python's `str.isspace()` holds. */
  predicate IsSpace(c: char) {
    || c == ' ' || ('\t' <= c <= '\r') || ('\U{1C}' <= c <= '\U{1F}')
    || c == '\U{85}' || c == '\U{A0}' || c == '\U{1680}' || ('\U{2000}' <= c <= '\U{200A}')
    || c == '\U{2028}' || c == '\U{2029}' || c == '\U{202F}' || c == '\U{205F}' || c == '\U{3000}'
  }

  /** The line boundaries of Python's `str.splitlines()` (besides the pair "\r\n"). */
  predicate IsLineBreak(c: char) {
    || ('\n' <= c <= '\r') || ('\U{1C}' <= c <= '\U{1E}')
    || c == '\U{85}' || c == '\U{2028}' || c == '\U{2029}'
  }

  predicate IsQuote(c: char) {
    c == '\'' || c == '"'
  }

  // ---------------------------------------------------------------- substring search

  /** `sub` occurs in `s` starting at index `i`. */
  ghost predicate OccursAt(s: string, sub: string, i: int) {
    0 <= i && i + |sub| <= |s| && s[i..i + |sub|] == sub
  }

  lemma OccursAtTail(s: string, sub: string, i: int)
    requires |s| > 0 && i >= 0
    ensures OccursAt(s[1..], sub, i) <==> OccursAt(s, sub, i + 1)
  {
    if 0 <= i && i + |sub| <= |s| - 1 {
      assert s[1..][i..i + |sub|] == s[i + 1..i + 1 + |sub|];
    }
  }

  /** Python's `sub in s`, scanning from the left. */
  function Contains(s: string, sub: string): bool
    decreases |s|
  {
    if sub <= s then true
    else if |s| == 0 then false
    else Contains(s[1..], sub)
  }

  /** The scan finds `sub` exactly when it occurs somewhere. */
  lemma {:induction false} ContainsOccurs(s: string, sub: string)
    ensures Contains(s, sub) <==> exists i :: OccursAt(s, sub, i)
    decreases |s|
  {
    if sub <= s {
      assert OccursAt(s, sub, 0);
    } else if |s| > 0 {
      ContainsOccurs(s[1..], sub);
      if Contains(s[1..], sub) {
        var i :| OccursAt(s[1..], sub, i);
        OccursAtTail(s, sub, i);
      }
      forall i | OccursAt(s, sub, i) ensures Contains(s[1..], sub) {
        assert i != 0;
        OccursAtTail(s, sub, i - 1);
      }
    }
  }

  lemma OccursContains(s: string, sub: string, i: int)
    requires OccursAt(s, sub, i)
    ensures Contains(s, sub)
  {
    ContainsOccurs(s, sub);
  }

  lemma NotContainsNowhere(s: string, sub: string)
    requires !Contains(s, sub)
    ensures forall i :: !OccursAt(s, sub, i)
  {
    ContainsOccurs(s, sub);
  }

  lemma NowhereNotContains(s: string, sub: string)
    requires forall i :: !OccursAt(s, sub, i)
    ensures !Contains(s, sub)
  {
    ContainsOccurs(s, sub);
  }

  /** A string that is a prefix of `s` occurs in `s`. */
  lemma PrefixContained(s: string, p: string)
    requires p <= s
    ensures Contains(s, p)
  {
  }

  /** A pattern holding a character that `s` lacks does not occur in `s`. */
  lemma AbsentCharNotContained(s: string, sub: string, c: char)
    requires c in sub && c !in s
    ensures !Contains(s, sub)
  {
    var k :| 0 <= k < |sub| && sub[k] == c;
    forall i | 0 <= i && i + |sub| <= |s| ensures !OccursAt(s, sub, i) {
      assert s[i..i + |sub|][k] == s[i + k];
      assert s[i + k] in s;
    }
    NowhereNotContains(s, sub);
  }

  /** A pattern whose first character differs from `c` does not start at `c`. */
  lemma NotContainsCons(c: char, s: string, p: string)
    requires |p| > 0 && p[0] != c && !Contains(s, p)
    ensures !Contains([c] + s, p)
  {
    assert ([c] + s)[1..] == s;
  }

  /** Prepending one character adds no occurrence when the pattern is not a prefix of the result. */
  lemma NotContainsConsNoPrefix(c: char, s: string, p: string)
    requires !(p <= [c] + s) && !Contains(s, p)
    ensures !Contains([c] + s, p)
  {
    assert ([c] + s)[1..] == s;
  }

  /** Dropping the first character keeps a pattern absent. */
  lemma NotContainsTail(s: string, p: string)
    requires |s| > 0 && !Contains(s, p)
    ensures !Contains(s[1..], p)
  {
  }

  /** Prepending characters that cannot start the pattern adds no occurrence. */
  lemma {:induction false} NotContainsPrepend(a: string, s: string, p: string)
    requires |p| > 0 && p[0] !in a && !Contains(s, p)
    ensures !Contains(a + s, p)
    decreases |a|
  {
    if |a| > 0 {
      assert p[0] !in a[1..] by {
        assert forall x | x in a[1..] :: x in a;
      }
      NotContainsPrepend(a[1..], s, p);
      NotContainsCons(a[0], a[1..] + s, p);
      assert a + s == [a[0]] + (a[1..] + s);
    } else {
      assert a + s == s;
    }
  }

  /** A pattern whose last character differs from `c` does not end at `c`. */
  lemma NotContainsSnoc(s: string, c: char, p: string)
    requires |p| > 0 && p[|p| - 1] != c && !Contains(s, p)
    ensures !Contains(s + [c], p)
  {
    var t := s + [c];
    NotContainsNowhere(s, p);
    forall i | 0 <= i && i + |p| <= |t| ensures !OccursAt(t, p, i) {
      if i + |p| <= |s| {
        assert t[i..i + |p|] == s[i..i + |p|];
        assert !OccursAt(s, p, i);
      } else {
        assert t[i..i + |p|][|p| - 1] == c;
      }
    }
    NowhereNotContains(t, p);
  }

  /** Appending characters that cannot end the pattern adds no occurrence. */
  lemma {:induction false} NotContainsAppend(s: string, a: string, p: string)
    requires |p| > 0 && p[|p| - 1] !in a && !Contains(s, p)
    ensures !Contains(s + a, p)
    decreases |a|
  {
    if |a| > 0 {
      assert p[|p| - 1] !in a[..|a| - 1] by {
        assert forall x | x in a[..|a| - 1] :: x in a;
      }
      NotContainsAppend(s, a[..|a| - 1], p);
      NotContainsSnoc(s + a[..|a| - 1], a[|a| - 1], p);
      assert s + a == (s + a[..|a| - 1]) + [a[|a| - 1]];
    } else {
      assert s + a == s;
    }
  }

  /** A string that lacks `p` does not end with it. */
  lemma NotContainsNotEndsWith(s: string, p: string)
    requires !Contains(s, p)
    ensures !EndsWith(s, p)
  {
    NotContainsNowhere(s, p);
    if |p| <= |s| {
      assert !OccursAt(s, p, |s| - |p|);
    }
  }

  /** `p` occurs across the seam of `a + b`: its first `k` characters end `a` and the rest begin `b`. */
  predicate Straddles(a: string, b: string, p: string, k: nat)
    requires k <= |p|
  {
    EndsWith(a, p[..k]) && p[k..] <= b
  }

  /** A pattern can only straddle a seam where its next character is the one that begins `b`. */
  lemma NoStraddleAtChar(a: string, b: string, p: string, k: nat)
    requires 0 < k < |p| && |b| > 0 && p[k] != b[0]
    ensures !Straddles(a, b, p, k)
  {
    assert p[k..][0] == p[k];
  }

  /** Nothing straddles the seam when `b` starts with a character the pattern lacks. */
  lemma NoStraddleAbsentChar(a: string, b: string, p: string)
    requires |b| > 0 && b[0] !in p
    ensures forall k | 0 < k < |p| :: !Straddles(a, b, p, k)
  {
    forall k | 0 < k < |p| ensures !Straddles(a, b, p, k) {
      NoStraddleAtChar(a, b, p, k);
    }
  }

  /** An occurrence that starts in `a` and ends in `b` straddles the seam. */
  lemma SeamOccurrence(a: string, b: string, p: string, i: nat)
    requires i < |a| < i + |p| <= |a| + |b|
    ensures OccursAt(a + b, p, i) ==> Straddles(a, b, p, |a| - i)
  {
    var s := a + b;
    var k := |a| - i;
    assert s[i..i + |p|][..k] == s[i..|a|];
    assert s[i..|a|] == a[i..];
    assert s[i..i + |p|][k..] == b[..|p| - k];
  }

  /** `a + b` lacks `p` when neither half has it and no occurrence straddles the seam. */
  lemma NotContainsJoin(a: string, b: string, p: string)
    requires !Contains(a, p) && !Contains(b, p)
    requires forall k | 0 < k < |p| :: !Straddles(a, b, p, k)
    ensures !Contains(a + b, p)
  {
    NotContainsNowhere(a, p);
    NotContainsNowhere(b, p);
    var s := a + b;
    forall i | 0 <= i && i + |p| <= |s| ensures !OccursAt(s, p, i) {
      if i + |p| <= |a| {
        assert s[i..i + |p|] == a[i..i + |p|];
        assert !OccursAt(a, p, i);
      } else if i >= |a| {
        assert s[i..i + |p|] == b[i - |a|..i - |a| + |p|];
        assert !OccursAt(b, p, i - |a|);
      } else {
        SeamOccurrence(a, b, p, i);
        assert !Straddles(a, b, p, |a| - i);
      }
    }
    NowhereNotContains(s, p);
  }

  /** A string that lacks `p` lacks every extension of `p`. */
  lemma NotContainsLonger(s: string, p: string, q: string)
    requires !Contains(s, p)
    ensures !Contains(s, p + q)
  {
    NotContainsNowhere(s, p);
    forall i | OccursAt(s, p + q, i) ensures OccursAt(s, p, i) {
      assert s[i..i + |p|] == s[i..i + |p + q|][..|p|];
    }
    NowhereNotContains(s, p + q);
  }

  /** A prefix of a string that lacks `p` lacks `p`. */
  lemma NotContainsPrefix(s: string, n: nat, p: string)
    requires n <= |s| && !Contains(s, p)
    ensures !Contains(s[..n], p)
  {
    NotContainsNowhere(s, p);
    forall i | OccursAt(s[..n], p, i) ensures OccursAt(s, p, i) {
      assert s[..n][i..i + |p|] == s[i..i + |p|];
    }
    NowhereNotContains(s[..n], p);
  }

  /** Python's `s[a:b]` for non-negative bounds: clipped to the string, empty when `b <= a`. */
  function Slice(s: string, a: nat, b: nat): (r: string)
    ensures a <= b <= |s| ==> r == s[a..b]
    ensures |r| <= |s|
  {
    if a >= b || a >= |s| then "" else if b <= |s| then s[a..b] else s[a..]
  }

  lemma Assoc<T>(x: seq<T>, y: seq<T>, z: seq<T>)
    ensures x + y + z == x + (y + z)
  {
  }

  /** Splitting off the first element of a non-empty left operand. */
  lemma ConsSplit<T>(a: seq<T>, y: seq<T>)
    requires |a| > 0
    ensures a + y == [a[0]] + (a[1..] + y)
    ensures (a + y)[1..] == a[1..] + y
  {
  }

  /** Python's `s.endswith(p)`. */
  predicate EndsWith(s: string, p: string) {
    |p| <= |s| && s[|s| - |p|..] == p
  }

  /** No proper suffix of `sep` is also a prefix of it, so two occurrences never overlap. */
  predicate BorderFree(sep: string) {
    forall k | 0 < k < |sep| :: !Border(sep, k)
  }

  /** The last `|sep| - k` characters of `sep` are also its first ones. */
  predicate Border(sep: string, k: nat)
    requires k <= |sep|
  {
    sep[k..] == sep[..|sep| - k]
  }

  /** A pattern whose first character does not recur has no border. */
  lemma BorderFreeByFirstChar(sep: string)
    requires |sep| > 0 && sep[0] !in sep[1..]
    ensures BorderFree(sep)
  {
    forall k | 0 < k < |sep| ensures !Border(sep, k) {
      assert sep[k..][0] == sep[1..][k - 1];
      assert sep[..|sep| - k][0] == sep[0];
    }
  }

  /** The text after the last occurrence of `sep` (all of `s` when there is none). */
  function AfterLast(s: string, sep: string): (r: string)
    requires |sep| > 0
    ensures |r| <= |s| && r == s[|s| - |r|..]
    ensures |r| < |s| ==> EndsWith(s[..|s| - |r|], sep)
    decreases |s|
  {
    if EndsWith(s, sep) then ""
    else if |s| == 0 then ""
    else
      var r := AfterLast(s[..|s| - 1], sep);
      assert s[..|s| - 1][..|s| - 1 - |r|] == s[..|s| - (|r| + 1)];
      r + [s[|s| - 1]]
  }

  /** A separator without borders cannot end inside `sep + b` unless it occurs in `b`. */
  lemma NotEndsWithAfterSeparator(p: string, sep: string, b: string)
    requires |sep| > 0 && BorderFree(sep) && !Contains(b, sep) && |b| > 0
    ensures !EndsWith(p + sep + b, sep)
  {
    if |b| >= |sep| {
      NotEndsWithLongTail(p + sep, b, sep);
    } else {
      NotEndsWithShortTail(p, sep, b);
    }
  }

  lemma NotEndsWithLongTail(a: string, b: string, sep: string)
    requires |b| >= |sep| && !Contains(b, sep)
    ensures !EndsWith(a + b, sep)
  {
    var s := a + b;
    assert s[|s| - |sep|..] == b[|b| - |sep|..];
    NotContainsNowhere(b, sep);
    assert !OccursAt(b, sep, |b| - |sep|);
  }

  lemma NotEndsWithShortTail(p: string, sep: string, b: string)
    requires 0 < |b| < |sep| && !Border(sep, |b|)
    ensures !EndsWith(p + sep + b, sep)
  {
    var s := p + sep + b;
    assert s[|s| - |sep|..] == sep[|b|..] + b;
    assert (sep[|b|..] + b)[..|sep| - |b|] == sep[|b|..];
  }

  lemma AfterLastStep(s: string, sep: string)
    requires |sep| > 0 && |s| > 0 && !EndsWith(s, sep)
    ensures AfterLast(s, sep) == AfterLast(s[..|s| - 1], sep) + [s[|s| - 1]]
  {
  }

  lemma AfterLastAtSeparator(s: string, sep: string)
    requires |sep| > 0 && EndsWith(s, sep)
    ensures AfterLast(s, sep) == ""
  {
  }

  lemma AfterLastExtend(p: string, sep: string, b: string)
    requires |sep| > 0 && |b| > 0 && !EndsWith(p + sep + b, sep)
    requires AfterLast(p + sep + b[..|b| - 1], sep) == b[..|b| - 1]
    ensures AfterLast(p + sep + b, sep) == b
  {
    var s := p + sep + b;
    assert s[..|s| - 1] == p + sep + b[..|b| - 1];
    AfterLastStep(s, sep);
    assert b == b[..|b| - 1] + [b[|b| - 1]];
  }

  /** Whatever precedes the last separator, what follows it is the text after the last occurrence. */
  lemma {:induction false} AfterLastOf(p: string, sep: string, b: string)
    requires |sep| > 0 && BorderFree(sep) && !Contains(b, sep)
    ensures AfterLast(p + sep + b, sep) == b
    decreases |b|
  {
    if |b| == 0 {
      assert (p + sep + b)[|p + sep + b| - |sep|..] == sep;
      AfterLastAtSeparator(p + sep + b, sep);
    } else {
      NotEndsWithAfterSeparator(p, sep, b);
      NotContainsPrefix(b, |b| - 1, sep);
      AfterLastOf(p, sep, b[..|b| - 1]);
      AfterLastExtend(p, sep, b);
    }
  }

  // ---------------------------------------------------------------- lower

  function LowerChar(c: char): (r: char)
    ensures !('A' <= r <= 'Z')
  {
    if 'A' <= c <= 'Z' then (c as int + 32) as char else c
  }

  /** Python's `s.lower()`, for the ASCII letters. */
  function Lower(s: string): (r: string)
    ensures |r| == |s|
    ensures forall i | 0 <= i < |s| :: r[i] == LowerChar(s[i])
  {
    seq(|s|, i requires 0 <= i < |s| => LowerChar(s[i]))
  }

  // ---------------------------------------------------------------- replace

  /** Python's `s.replace("", rep)`: `rep` before every character and at the end. */
  function ReplaceEmpty(s: string, rep: string): (r: string)
    ensures rep == "" ==> r == s
  {
    if |s| == 0 then rep else rep + [s[0]] + ReplaceEmpty(s[1..], rep)
  }

  /** Python's `s.replace(pat, rep)`: every non-overlapping occurrence, scanning from the left. */
  function Replace(s: string, pat: string, rep: string): string
    decreases |s|
  {
    if |pat| == 0 then ReplaceEmpty(s, rep)
    else if |s| == 0 then ""
    else if pat <= s then rep + Replace(s[|pat|..], pat, rep)
    else [s[0]] + Replace(s[1..], pat, rep)
  }

  /** Replacing a pattern that does not occur changes nothing. */
  lemma {:induction false} ReplaceAbsent(s: string, pat: string, rep: string)
    requires |pat| > 0 && !Contains(s, pat)
    ensures Replace(s, pat, rep) == s
    decreases |s|
  {
    if |s| > 0 {
      ReplaceAbsent(s[1..], pat, rep);
    }
  }

  /** Deleting a keyword from text that starts with it and contains it nowhere else leaves the rest. */
  lemma DeleteLeading(kw: string, b: string)
    requires |kw| > 0 && !Contains(b, kw)
    ensures Replace(kw + b, kw, "") == b
  {
    ReplaceLeading(kw, b, "");
    ReplaceAbsent(b, kw, "");
  }

  /** A leading occurrence is replaced, and the scan goes on after it. */
  lemma ReplaceLeading(pat: string, s: string, rep: string)
    requires |pat| > 0
    ensures Replace(pat + s, pat, rep) == rep + Replace(s, pat, rep)
  {
    assert (pat + s)[|pat|..] == s;
  }

  /** Deleting one character (`s.replace(c, "")`) keeps the other characters, in order. */
  function Without(s: string, c: char): (r: string)
    ensures c !in r
    ensures |r| <= |s|
  {
    if |s| == 0 then "" else if s[0] == c then Without(s[1..], c) else [s[0]] + Without(s[1..], c)
  }

  lemma {:induction false} ReplaceCharIsWithout(s: string, c: char)
    ensures Replace(s, [c], "") == Without(s, c)
    decreases |s|
  {
    if |s| > 0 {
      ReplaceCharIsWithout(s[1..], c);
      if s[0] == c {
        assert [c] <= s;
        assert s[|[c]|..] == s[1..];
      }
    }
  }

  // ---------------------------------------------------------------- split and join

  /** Python's `s.split(sep)` for a non-empty separator (Python raises on an empty one). */
  function Split(s: string, sep: string): (r: seq<string>)
    requires |sep| > 0
    ensures |r| >= 1
    decreases |s|
  {
    if sep <= s then [""] + Split(s[|sep|..], sep)
    else if |s| == 0 then [""]
    else var rest := Split(s[1..], sep); [[s[0]] + rest[0]] + rest[1..]
  }

  /** Python's `sep.join(parts)`. */
  function Join(sep: string, parts: seq<string>): string {
    if |parts| == 0 then ""
    else if |parts| == 1 then parts[0]
    else parts[0] + sep + Join(sep, parts[1..])
  }

  lemma JoinCons(sep: string, x: string, rest: seq<string>)
    requires |rest| >= 1
    ensures Join(sep, [x] + rest) == x + sep + Join(sep, rest)
  {
    assert ([x] + rest)[1..] == rest;
  }

  /** Prepending a character to the first part prepends it to the joined string. */
  lemma JoinExtendFirst(sep: string, c: char, parts: seq<string>)
    requires |parts| >= 1
    ensures Join(sep, [[c] + parts[0]] + parts[1..]) == [c] + Join(sep, parts)
  {
    if |parts| > 1 {
      JoinCons(sep, [c] + parts[0], parts[1..]);
      assert parts == [parts[0]] + parts[1..];
      JoinCons(sep, parts[0], parts[1..]);
    }
  }

  /** Joining with `sep` the pieces that `split(sep)` cut undoes the split. */
  lemma {:induction false} JoinSplit(s: string, sep: string)
    requires |sep| > 0
    ensures Join(sep, Split(s, sep)) == s
    decreases |s|
  {
    if sep <= s {
      var t := s[|sep|..];
      JoinSplit(t, sep);
      assert Split(s, sep) == [""] + Split(t, sep);
      JoinCons(sep, "", Split(t, sep));
      assert s == sep + t;
    } else if |s| > 0 {
      var t := s[1..];
      JoinSplit(t, sep);
      var r := Split(t, sep);
      assert Split(s, sep) == [[s[0]] + r[0]] + r[1..];
      JoinExtendFirst(sep, s[0], r);
      assert s == [s[0]] + t;
    }
  }

  /** A string without the separator splits into itself alone. */
  lemma {:induction false} SplitAbsent(s: string, sep: string)
    requires |sep| > 0 && !Contains(s, sep)
    ensures Split(s, sep) == [s]
    decreases |s|
  {
    if |s| > 0 {
      SplitAbsent(s[1..], sep);
      assert s == [s[0]] + s[1..];
    }
  }

  /**
    A separator without borders does not start inside `a + sep + rest` when `a` is non-empty
    and lacks it: the scan first meets it right after `a`.
   */
  lemma NoEarlyMatch(a: string, sep: string, rest: string)
    requires |sep| > 0 && BorderFree(sep) && |a| > 0 && !Contains(a, sep)
    ensures !(sep <= a + sep + rest)
  {
    var s := a + sep + rest;
    if |sep| <= |a| {
      assert s[..|sep|] == a[..|sep|];
    } else {
      assert s[|a|..|sep|] == sep[..|sep| - |a|];
      assert s[..|sep|][|a|..] == s[|a|..|sep|];
      assert !Border(sep, |a|);
    }
  }

  /** Splitting at a border-free separator cuts off the text before its first occurrence. */
  lemma {:induction false} SplitAfterFirst(a: string, sep: string, rest: string)
    requires |sep| > 0 && BorderFree(sep) && !Contains(a, sep)
    ensures Split(a + sep + rest, sep) == [a] + Split(rest, sep)
    decreases |a|
  {
    var s := a + sep + rest;
    if |a| == 0 {
      assert s == sep + rest;
      assert s[|sep|..] == rest;
    } else {
      NoEarlyMatch(a, sep, rest);
      NotContainsTail(a, sep);
      SplitAfterFirst(a[1..], sep, rest);
      SplitExtend(a, sep, rest);
    }
  }

  /** Splitting at one character: a last piece without that character follows the pieces of what precedes it. */
  lemma {:induction false} SplitLastPiece(a: string, c: char, b: string)
    requires c !in b
    ensures Split(a + [c] + b, [c]) == Split(a, [c]) + [b]
    decreases |a|
  {
    var s := a + [c] + b;
    if |a| == 0 {
      assert s == [c] + b && s[1..] == b;
      assert !Contains(b, [c]) by { AbsentCharNotContained(b, [c], c); }
      SplitAbsent(b, [c]);
    } else {
      SplitLastPiece(a[1..], c, b);
      assert s[1..] == a[1..] + [c] + b;
      if a[0] == c {
        assert [c] <= s && [c] <= a;
        assert s[|[c]|..] == s[1..] && a[|[c]|..] == a[1..];
      } else {
        var r := Split(a[1..], [c]);
        assert Split(s, [c]) == [[a[0]] + (r + [b])[0]] + (r + [b])[1..];
        assert (r + [b])[1..] == r[1..] + [b];
      }
    }
  }

  lemma SplitExtend(a: string, sep: string, rest: string)
    requires |sep| > 0 && |a| > 0 && !(sep <= a + sep + rest)
    requires Split(a[1..] + sep + rest, sep) == [a[1..]] + Split(rest, sep)
    ensures Split(a + sep + rest, sep) == [a] + Split(rest, sep)
  {
    var s := a + sep + rest;
    assert s == a + (sep + rest);
    ConsSplit(a, sep + rest);
    assert s[1..] == a[1..] + sep + rest;
    SplitStep(s, sep);
    assert [a[0]] + a[1..] == a;
  }

  lemma SplitStep(s: string, sep: string)
    requires |sep| > 0 && |s| > 0 && !(sep <= s)
    ensures Split(s, sep) == [[s[0]] + Split(s[1..], sep)[0]] + Split(s[1..], sep)[1..]
  {
  }

  /** A separator without borders that occurs exactly once splits the string in two around it. */
  lemma SplitAround(a: string, sep: string, b: string)
    requires |sep| > 0 && BorderFree(sep) && !Contains(a, sep) && !Contains(b, sep)
    ensures Split(a + sep + b, sep) == [a, b]
  {
    SplitAfterFirst(a, sep, b);
    SplitAbsent(b, sep);
  }

  lemma ReplaceExtend(x: string, y: string, pat: string, rep: string, z: string)
    requires |pat| > 0 && |x| > 0 && !(pat <= x + y)
    requires Replace(x[1..] + y, pat, rep) == x[1..] + z
    ensures Replace(x + y, pat, rep) == x + z
  {
    ConsSplit(x, y);
    ReplaceStep(x + y, pat, rep);
    ConsSplit(x, z);
  }

  lemma ReplaceStep(s: string, pat: string, rep: string)
    requires |pat| > 0 && |s| > 0 && !(pat <= s)
    ensures Replace(s, pat, rep) == [s[0]] + Replace(s[1..], pat, rep)
  {
  }

  /** Replacing a border-free pattern keeps the text before its first occurrence unchanged. */
  lemma {:induction false} ReplaceAfterFirst(a: string, pat: string, rest: string, rep: string)
    requires |pat| > 0 && BorderFree(pat) && !Contains(a, pat)
    ensures Replace(a + pat + rest, pat, rep) == a + rep + Replace(rest, pat, rep)
    decreases |a|
  {
    if |a| == 0 {
      assert a + pat + rest == pat + rest;
      ReplaceLeading(pat, rest, rep);
      assert a + rep == rep;
    } else {
      NoEarlyMatch(a, pat, rest);
      NotContainsTail(a, pat);
      ReplaceAfterFirst(a[1..], pat, rest, rep);
      var z := rep + Replace(rest, pat, rep);
      Assoc(a, pat, rest);
      Assoc(a[1..], pat, rest);
      Assoc(a[1..], rep, Replace(rest, pat, rep));
      ReplaceExtend(a, pat + rest, pat, rep, z);
      Assoc(a, rep, Replace(rest, pat, rep));
    }
  }

  /** The first piece of `split(sep)` is a prefix of the string. */
  lemma {:induction false} SplitFirstIsPrefix(s: string, sep: string)
    requires |sep| > 0
    ensures Split(s, sep)[0] <= s
    decreases |s|
  {
    if !(sep <= s) && |s| > 0 {
      SplitFirstIsPrefix(s[1..], sep);
    }
  }

  /** The first piece of `split(sep)` never contains the separator. */
  lemma {:induction false} SplitFirstHasNoSeparator(s: string, sep: string)
    requires |sep| > 0
    ensures !Contains(Split(s, sep)[0], sep)
    decreases |s|
  {
    if sep <= s {
      assert Split(s, sep)[0] == "";
    } else if |s| > 0 {
      var rest := Split(s[1..], sep);
      SplitFirstHasNoSeparator(s[1..], sep);
      SplitFirstIsPrefix(s[1..], sep);
      var p := [s[0]] + rest[0];
      assert p <= s;
      if |sep| <= |p| {
        assert p[..|sep|] == s[..|sep|];
      }
      assert p[1..] == rest[0];
    } else {
      assert Split(s, sep)[0] == "";
    }
  }

  // ---------------------------------------------------------------- split() on whitespace

  /** Words of `s` after the pending word `cur`. */
  function WordsFrom(s: string, cur: string): (r: seq<string>)
    requires forall c | c in cur :: !IsSpace(c)
    ensures forall k | 0 <= k < |r| :: |r[k]| > 0 && forall c | c in r[k] :: !IsSpace(c)
    decreases |s|
  {
    if |s| == 0 then (if |cur| == 0 then [] else [cur])
    else if IsSpace(s[0]) then (if |cur| == 0 then WordsFrom(s[1..], []) else [cur] + WordsFrom(s[1..], []))
    else WordsFrom(s[1..], cur + [s[0]])
  }

  /** Python's `s.split()`: the maximal runs of non-whitespace characters. */
  function Words(s: string): (r: seq<string>)
    ensures forall k | 0 <= k < |r| :: |r[k]| > 0 && forall c | c in r[k] :: !IsSpace(c)
  {
    WordsFrom(s, [])
  }

  // ---------------------------------------------------------------- strip

  /** Python's `s.lstrip(chars)`, the characters given by `drop`. */
  function LStrip(s: string, drop: char -> bool): (r: string)
    ensures |r| <= |s| && r == s[|s| - |r|..]
    ensures |r| > 0 ==> !drop(r[0])
    ensures forall i | 0 <= i < |s| - |r| :: drop(s[i])
    decreases |s|
  {
    if |s| > 0 && drop(s[0]) then LStrip(s[1..], drop) else s
  }

  /** Python's `s.rstrip(chars)`, the characters given by `drop`. */
  function RStrip(s: string, drop: char -> bool): (r: string)
    ensures |r| <= |s| && r == s[..|r|]
    ensures |r| > 0 ==> !drop(r[|r| - 1])
    ensures forall i | |r| <= i < |s| :: drop(s[i])
    decreases |s|
  {
    if |s| > 0 && drop(s[|s| - 1]) then RStrip(s[..|s| - 1], drop) else s
  }

  /** Python's `s.strip()`. */
  function Strip(s: string): (r: string)
    ensures |r| > 0 ==> !IsSpace(r[0]) && !IsSpace(r[|r| - 1])
  {
    RStrip(LStrip(s, IsSpace), IsSpace)
  }

  /** Python's `s.strip("'\"")`. */
  function StripQuotes(s: string): (r: string)
    ensures |r| > 0 ==> !IsQuote(r[0]) && !IsQuote(r[|r| - 1])
  {
    RStrip(LStrip(s, IsQuote), IsQuote)
  }

  /** Stripping a string with no stripped character at either end changes nothing. */
  lemma StripUnchanged(s: string, drop: char -> bool)
    requires |s| > 0 ==> !drop(s[0]) && !drop(s[|s| - 1])
    ensures RStrip(LStrip(s, drop), drop) == s
  {
  }

  /** Stripping whitespace and then quotes from ` 'm'` (either quote character) gives `m`. */
  lemma StripQuotedLiteral(m: string, q: char)
    requires IsQuote(q) && |m| > 0 && !IsQuote(m[0]) && !IsQuote(m[|m| - 1])
    ensures StripQuotes(Strip(" " + [q] + m + [q])) == m
  {
    var u := [q] + m + [q];
    assert " " + [q] + m + [q] == " " + u;
    StripLeadingSpace(u);
    StripQuotePair(m, q);
  }

  /** Stripping whitespace from ` u` drops the space when `u` neither starts nor ends with whitespace. */
  lemma StripLeadingSpace(u: string)
    requires |u| > 0 && !IsSpace(u[0]) && !IsSpace(u[|u| - 1])
    ensures Strip(" " + u) == u
  {
    var t := " " + u;
    assert t[1..] == u;
    assert LStrip(u, IsSpace) == u;
    assert LStrip(t, IsSpace) == u;
  }

  /** Stripping quotes from `'m'` gives `m` when `m` neither starts nor ends with a quote. */
  lemma StripQuotePair(m: string, q: char)
    requires IsQuote(q) && |m| > 0 && !IsQuote(m[0]) && !IsQuote(m[|m| - 1])
    ensures StripQuotes([q] + m + [q]) == m
  {
    var u := [q] + m + [q];
    var v := m + [q];
    assert u[1..] == v;
    assert LStrip(v, IsQuote) == v;
    assert LStrip(u, IsQuote) == v;
    assert v[..|v| - 1] == m;
    assert RStrip(m, IsQuote) == m;
  }

  /** Stripping whitespace and then quotes from `u` followed by a quote drops only that quote. */
  lemma StripTrailingQuote(u: string, q: char)
    requires IsQuote(q) && |u| > 0 && !IsSpace(u[0]) && !IsQuote(u[0]) && !IsQuote(u[|u| - 1])
    ensures StripQuotes(Strip(u + [q])) == u
  {
    var t := u + [q];
    assert LStrip(t, IsSpace) == t;
    assert RStrip(t, IsSpace) == t;
    assert LStrip(t, IsQuote) == t;
    assert t[..|t| - 1] == u;
    assert RStrip(u, IsQuote) == u;
  }

  // ---------------------------------------------------------------- splitlines

  /** Lines of `s` after the pending line `cur`. */
  function LinesFrom(s: string, cur: string): (r: seq<string>)
    requires forall c | c in cur :: !IsLineBreak(c)
    ensures forall k | 0 <= k < |r| :: forall c | c in r[k] :: !IsLineBreak(c)
    decreases |s|
  {
    if |s| == 0 then (if |cur| == 0 then [] else [cur])
    else if s[0] == '\r' && |s| > 1 && s[1] == '\n' then [cur] + LinesFrom(s[2..], [])
    else if IsLineBreak(s[0]) then [cur] + LinesFrom(s[1..], [])
    else LinesFrom(s[1..], cur + [s[0]])
  }

  /** Python's `s.splitlines()`: no pieces for "", no trailing empty piece after a final break. */
  function SplitLines(s: string): (r: seq<string>)
    ensures forall k | 0 <= k < |r| :: forall c | c in r[k] :: !IsLineBreak(c)
  {
    LinesFrom(s, [])
  }

  // ---------------------------------------------------------------- decimal numbers

  function DigitChar(d: nat): (c: char)
    requires d < 10
    ensures '0' <= c <= '9' && c as int - '0' as int == d
  {
    ('0' as int + d) as char
  }

  predicate AllDigits(s: string) {
    forall i | 0 <= i < |s| :: '0' <= s[i] <= '9'
  }

  /** Python's `f"{n}"` for a non-negative integer. */
  function NatToString(n: nat): (r: string)
    ensures |r| > 0 && AllDigits(r)
    decreases n
  {
    if n < 10 then [DigitChar(n)] else NatToString(n / 10) + [DigitChar(n % 10)]
  }

  /** The value of a string of decimal digits. */
  function ParseNat(s: string): nat
    requires AllDigits(s)
  {
    if |s| == 0 then 0
    else
      ParseNat(s[..|s| - 1]) * 10 + (s[|s| - 1] as int - '0' as int)
  }

  /** Reading back the decimal form of `n` gives `n`. */
  lemma {:induction false} ParseNatToString(n: nat)
    ensures ParseNat(NatToString(n)) == n
    decreases n
  {
    if n >= 10 {
      var s := NatToString(n);
      ParseNatToString(n / 10);
      assert s[..|s| - 1] == NatToString(n / 10);
    }
  }

  /** Different integers have different decimal forms. */
  lemma NatToStringInjective(a: nat, b: nat)
    requires NatToString(a) == NatToString(b)
    ensures a == b
  {
    ParseNatToString(a);
    ParseNatToString(b);
  }

  // ---------------------------------------------------------------- ordering

  /** Python's `a < b` on strings: lexicographic by code point. */
  predicate LexLess(a: string, b: string) {
    if |a| == 0 then |b| > 0
    else if |b| == 0 then false
    else if a[0] != b[0] then a[0] < b[0]
    else LexLess(a[1..], b[1..])
  }

  lemma {:induction false} LexLessIrreflexive(a: string)
    ensures !LexLess(a, a)
    decreases |a|
  {
    if |a| > 0 { LexLessIrreflexive(a[1..]); }
  }

  lemma {:induction false} LexLessTransitive(a: string, b: string, c: string)
    requires LexLess(a, b) && LexLess(b, c)
    ensures LexLess(a, c)
    decreases |a|
  {
    if |a| > 0 && |b| > 0 && |c| > 0 && a[0] == b[0] && b[0] == c[0] {
      LexLessTransitive(a[1..], b[1..], c[1..]);
    }
  }

  lemma {:induction false} LexLessTotal(a: string, b: string)
    requires a != b
    ensures LexLess(a, b) || LexLess(b, a)
    decreases |a|
  {
    if |a| > 0 && |b| > 0 && a[0] == b[0] {
      assert a == [a[0]] + a[1..] && b == [b[0]] + b[1..];
      LexLessTotal(a[1..], b[1..]);
    }
  }

  lemma {:induction false} LexLessAsymmetric(a: string, b: string)
    requires LexLess(a, b)
    ensures !LexLess(b, a)
  {
    if LexLess(b, a) {
      LexLessTransitive(a, b, a);
      LexLessIrreflexive(a);
    }
  }
}
