/** Shared text and sequence helpers: the pieces of JavaScript's string and
    array library that the modelled code leans on (`\s`, `\w`, `\b`,
    `toLowerCase`, `includes`, `indexOf`, `trim`, `filter`, `join`, `find`,
    insertion-ordered `Set`). Text is treated as a sequence of code points;
    case mapping covers ASCII letters only. */
module Common {

  datatype Option<T> = None | Some(value: T)

  // ---------------------------------------------------------------------
  // Character classes
  // ---------------------------------------------------------------------

  /** JavaScript's `\s`, which is also the set `String.prototype.trim` strips:
      tab, line feed, vertical tab, form feed, carriage return, space,
      no-break space, the Unicode space separators, the line and paragraph
      separators and the byte-order mark. */
  predicate IsSpace(c: char) {
    c == '\t' || c == '\n' || c == '\U{0B}' || c == '\U{0C}' || c == '\r' || c == ' '
    || c == '\U{A0}' || c == '\U{1680}' || ('\U{2000}' <= c <= '\U{200A}')
    || c == '\U{2028}' || c == '\U{2029}' || c == '\U{202F}' || c == '\U{205F}'
    || c == '\U{3000}' || c == '\U{FEFF}'
  }

  /** JavaScript's `\w` (without the `u` flag): `[A-Za-z0-9_]`. */
  predicate IsWordChar(c: char) {
    ('a' <= c <= 'z') || ('A' <= c <= 'Z') || ('0' <= c <= '9') || c == '_'
  }

  /** JavaScript's `\d`. */
  predicate IsDigit(c: char) {
    '0' <= c <= '9'
  }

  predicate IsUpper(c: char) {
    'A' <= c <= 'Z'
  }

  /** `toLowerCase` on one character, restricted to ASCII letters. */
  function LowerChar(c: char): (r: char)
    ensures !IsUpper(r)
    ensures IsWordChar(r) <==> IsWordChar(c)
    ensures IsSpace(r) <==> IsSpace(c)
    ensures r == c <==> !IsUpper(c)
  {
    if IsUpper(c) then (c as int + 32) as char else c
  }

  /** `toLowerCase` on a string (ASCII letters only). */
  function Lower(s: string): (r: string)
    ensures |r| == |s|
    ensures forall i {:trigger r[i]} :: 0 <= i < |s| ==> r[i] == LowerChar(s[i])
  {
    seq(|s|, i requires 0 <= i < |s| => LowerChar(s[i]))
  }

  lemma {:induction false} LowerIdempotent(s: string)
    ensures Lower(Lower(s)) == Lower(s)
  {
  }

  lemma {:induction false} LowerSlice(s: string, i: nat, j: nat)
    requires i <= j <= |s|
    ensures Lower(s)[i..j] == Lower(s[i..j])
  {
    var a, b := Lower(s)[i..j], Lower(s[i..j]);
    assert |a| == |b|;
    forall k | 0 <= k < |a| ensures a[k] == b[k] {
      assert a[k] == LowerChar(s[i + k]);
    }
  }

  /** A literal alternative of a regular expression: never empty. */
  type Word = w: string | |w| > 0 witness "_"

  // ---------------------------------------------------------------------
  // Substrings
  // ---------------------------------------------------------------------

  /** `sub` occurs in `s` starting at index `i`. */
  predicate OccursAt(s: string, sub: string, i: int) {
    0 <= i && i + |sub| <= |s| && s[i..i + |sub|] == sub
  }

  /** `s.includes(sub)`. */
  predicate Contains(s: string, sub: string) {
    exists i :: 0 <= i <= |s| - |sub| && OccursAt(s, sub, i)
  }

  /** The first index at or after `from` where `sub` occurs in `s`. */
  function IndexFrom(s: string, sub: string, from: nat): (r: Option<nat>)
    ensures r.Some? ==> from <= r.value && OccursAt(s, sub, r.value)
    ensures r.Some? ==> forall j :: from <= j < r.value ==> !OccursAt(s, sub, j)
    ensures r.None? ==> forall j :: from <= j ==> !OccursAt(s, sub, j)
    decreases |s| - from
  {
    if from + |sub| > |s| then None
    else if OccursAt(s, sub, from) then Some(from)
    else IndexFrom(s, sub, from + 1)
  }

  /** `s.indexOf(sub)`, with `None` for JavaScript's -1. */
  function IndexOf(s: string, sub: string): (r: Option<nat>)
    ensures r.Some? <==> Contains(s, sub)
    ensures r.Some? ==> OccursAt(s, sub, r.value) && forall j :: 0 <= j < r.value ==> !OccursAt(s, sub, j)
  {
    IndexFrom(s, sub, 0)
  }

  /** A lower-case `needle` occurring in `Lower(s)` is already an occurrence
      in `Lower(s)` of the lower-cased needle: the case-insensitive
      `includes` the source writes as `a.toLowerCase().includes(b.toLowerCase())`. */
  predicate ContainsIgnoringCase(s: string, sub: string) {
    Contains(Lower(s), Lower(sub))
  }

  // ---------------------------------------------------------------------
  // Word boundaries
  // ---------------------------------------------------------------------

  /** JavaScript's `\b` at position `p` of `s`: exactly one of the characters
      on either side of `p` is a word character (outside the string counts as
      a non-word character). */
  predicate WordBoundaryAt(s: string, p: int) {
    0 <= p <= |s| && ((p > 0 && IsWordChar(s[p - 1])) != (p < |s| && IsWordChar(s[p])))
  }

  /** The number of word characters `s` starts with. */
  function WordPrefixLen(s: string): (n: nat)
    ensures n <= |s|
    ensures forall i :: 0 <= i < n ==> IsWordChar(s[i])
    ensures n == |s| || !IsWordChar(s[n])
  {
    if s != [] && IsWordChar(s[0]) then 1 + WordPrefixLen(s[1..]) else 0
  }

  // ---------------------------------------------------------------------
  // Trimming
  // ---------------------------------------------------------------------

  /** `trimStart`: drops the leading run of `\s` characters. */
  function TrimStart(s: string): (r: string)
    ensures |r| <= |s|
    ensures forall i :: 0 <= i < |s| - |r| ==> IsSpace(s[i])
    ensures r == [] || !IsSpace(r[0])
  {
    if s != [] && IsSpace(s[0]) then TrimStart(s[1..]) else s
  }

  /** What `trimStart` keeps is a suffix of the text. */
  lemma {:induction false} TrimStartIsSuffix(s: string)
    ensures TrimStart(s) == s[|s| - |TrimStart(s)|..]
  {
    if s != [] && IsSpace(s[0]) {
      TrimStartIsSuffix(s[1..]);
    }
  }

  /** `trimEnd`: drops the trailing run of `\s` characters. */
  function TrimEnd(s: string): (r: string)
    ensures |r| <= |s|
    ensures forall i :: |r| <= i < |s| ==> IsSpace(s[i])
    ensures r == [] || !IsSpace(r[|r| - 1])
  {
    if s != [] && IsSpace(s[|s| - 1]) then TrimEnd(s[..|s| - 1]) else s
  }

  /** What `trimEnd` keeps is a prefix of the text. */
  lemma {:induction false} TrimEndIsPrefix(s: string)
    ensures TrimEnd(s) == s[..|TrimEnd(s)|]
  {
    if s != [] && IsSpace(s[|s| - 1]) {
      TrimEndIsPrefix(s[..|s| - 1]);
    }
  }

  /** Neither end of `s` is a whitespace character. */
  predicate Trimmed(s: string) {
    s == [] || (!IsSpace(s[0]) && !IsSpace(s[|s| - 1]))
  }

  /** `trim`. */
  function Trim(s: string): (r: string)
    ensures Trimmed(r) && |r| <= |s|
  {
    var t := TrimStart(s);
    TrimEndIsPrefix(t);
    TrimEnd(t)
  }

  /** What `trim` removes is whitespace at either end, and what it keeps is
      the contiguous middle of the text. */
  lemma {:induction false} TrimIsSlice(s: string)
    ensures var r := Trim(s); var a := |s| - |TrimStart(s)|;
      && a + |r| <= |s| && r == s[a..a + |r|]
      && (forall i :: 0 <= i < a ==> IsSpace(s[i]))
      && (forall i :: a + |r| <= i < |s| ==> IsSpace(s[i]))
  {
    var t := TrimStart(s);
    var r := TrimEnd(t);
    TrimStartIsSuffix(s);
    TrimEndIsPrefix(t);
    assert r == s[|s| - |t|..][..|r|];
    forall i | |s| - |t| + |r| <= i < |s| ensures IsSpace(s[i]) {
      assert s[i] == t[i - (|s| - |t|)];
    }
  }

  lemma {:induction false} TrimOfTrimmed(s: string)
    requires Trimmed(s)
    ensures Trim(s) == s
  {
  }

  // ---------------------------------------------------------------------
  // Sequences
  // ---------------------------------------------------------------------

  /** No element occurs twice. */
  predicate Distinct<T(==)>(xs: seq<T>) {
    forall i, j :: 0 <= i < j < |xs| ==> xs[i] != xs[j]
  }

  /** `xs.filter(p)`, written on the last element so that a loop that pushes
      one element at a time matches it step by step. */
  function Filter<T(!new)>(xs: seq<T>, p: T -> bool): (r: seq<T>)
    ensures |r| <= |xs|
    ensures forall x :: x in r <==> x in xs && p(x)
  {
    if xs == [] then []
    else
      var init := xs[..|xs| - 1];
      assert forall x :: x in xs <==> x in init || x == xs[|xs| - 1];
      Filter(init, p) + (if p(xs[|xs| - 1]) then [xs[|xs| - 1]] else [])
  }

  /** `xs.flatMap(f)`: the lists `f` gives for the elements, concatenated in order. */
  function FlatMap<T, U>(xs: seq<T>, f: T -> seq<U>): seq<U> {
    if xs == [] then [] else FlatMap(xs[..|xs| - 1], f) + f(xs[|xs| - 1])
  }

  /** An element of `xs.flatMap(f)` is exactly an element of some `f(xs[m])`. */
  lemma {:induction false} FlatMapMembership<T, U>(xs: seq<T>, f: T -> seq<U>, x: U)
    ensures x in FlatMap(xs, f) <==> exists m :: 0 <= m < |xs| && x in f(xs[m])
  {
    if xs != [] {
      var n := |xs| - 1;
      var init := xs[..n];
      FlatMapMembership(init, f, x);
      if x in FlatMap(xs, f) && x !in FlatMap(init, f) {
        assert x in f(xs[n]);
      }
      if exists m :: 0 <= m < |xs| && x in f(xs[m]) {
        var m :| 0 <= m < |xs| && x in f(xs[m]);
        if m < n {
          assert init[m] == xs[m];
        }
      }
    }
  }

  /** `filter` keeps the relative order: filtering a concatenation is the
      concatenation of the filtered parts. */
  lemma {:induction false} FilterConcat<T(!new)>(xs: seq<T>, ys: seq<T>, p: T -> bool)
    ensures Filter(xs + ys, p) == Filter(xs, p) + Filter(ys, p)
    decreases |ys|
  {
    if ys == [] {
      assert xs + ys == xs;
    } else {
      var init := ys[..|ys| - 1];
      assert (xs + ys)[..|xs + ys| - 1] == xs + init;
      FilterConcat(xs, init, p);
    }
  }

  /** `filter(p)` and `filter(q)` with `q` the negation of `p` split a list:
      every element lands in exactly one of the two, and the counts add up. */
  lemma {:induction false} FilterPartition<T(!new)>(xs: seq<T>, p: T -> bool, q: T -> bool)
    requires forall x :: q(x) == !p(x)
    ensures |Filter(xs, p)| + |Filter(xs, q)| == |xs|
    ensures multiset(Filter(xs, p)) + multiset(Filter(xs, q)) == multiset(xs)
  {
    if xs != [] {
      var init, last := xs[..|xs| - 1], xs[|xs| - 1];
      assert multiset(xs) == multiset(init) + multiset{last} by {
        assert xs == init + [last];
      }
      FilterPartition(init, p, q);
      var a, b := Filter(init, p), Filter(init, q);
      if p(last) {
        assert Filter(xs, p) == a + [last] && Filter(xs, q) == b;
      } else {
        assert Filter(xs, p) == a && Filter(xs, q) == b + [last];
      }
    }
  }

  /** The first index whose element satisfies `p` (`findIndex`). */
  function FindIndex<T>(xs: seq<T>, p: T -> bool): (r: Option<nat>)
    ensures r.Some? ==> r.value < |xs| && p(xs[r.value])
    ensures r.Some? ==> forall j :: 0 <= j < r.value ==> !p(xs[j])
    ensures r.None? ==> forall j :: 0 <= j < |xs| ==> !p(xs[j])
  {
    if xs == [] then None
    else if p(xs[0]) then Some(0)
    else match FindIndex(xs[1..], p)
      case None => None
      case Some(k) => Some(k + 1)
  }

  /** The first index of `x` in `xs` (`indexOf` on arrays). */
  function Position<T(==)>(xs: seq<T>, x: T): (k: nat)
    requires x in xs
    ensures k < |xs| && xs[k] == x
    ensures forall j :: 0 <= j < k ==> xs[j] != x
  {
    if xs[0] == x then 0 else 1 + Position(xs[1..], x)
  }

  /** `[...new Set(xs)]`: the distinct elements in order of first insertion. */
  function Dedup<T(==,!new)>(xs: seq<T>): (r: seq<T>)
    ensures forall x :: x in r <==> x in xs
    ensures Distinct(r)
  {
    if xs == [] then []
    else
      var init := xs[..|xs| - 1];
      var last := xs[|xs| - 1];
      var d := Dedup(init);
      assert forall x :: x in xs <==> x in init || x == last;
      if last in d then d else d + [last]
  }

  lemma {:induction false} PositionInPrefix<T>(xs: seq<T>, n: nat, x: T)
    requires n <= |xs| && x in xs[..n]
    ensures x in xs && Position(xs, x) == Position(xs[..n], x)
  {
    var k := Position(xs[..n], x);
    assert xs[k] == x;
    var m := Position(xs, x);
    assert m <= k;
    assert xs[..n][m] == x;
  }

  /** The set keeps first-insertion order: earlier elements of `Dedup(xs)`
      were first seen earlier in `xs`. */
  lemma {:induction false} DedupOrder<T(!new)>(xs: seq<T>)
    ensures forall i, j :: 0 <= i < j < |Dedup(xs)| ==>
      Position(xs, Dedup(xs)[i]) < Position(xs, Dedup(xs)[j])
  {
    if xs != [] {
      var n := |xs| - 1;
      var init := xs[..n];
      var last := xs[n];
      var d := Dedup(init);
      DedupOrder(init);
      forall x | x in d
        ensures Position(xs, x) == Position(init, x) && Position(init, x) < n
      {
        PositionInPrefix(xs, n, x);
      }
      if last !in d {
        assert Position(xs, last) == n by {
          forall j | 0 <= j < n ensures xs[j] != last {
            assert xs[j] == init[j];
          }
        }
      }
    }
  }

  /** `xs.join(sep)`. */
  function Join(xs: seq<string>, sep: string): (r: string)
    ensures |xs| == 1 ==> r == xs[0]
    ensures xs == [] ==> r == []
  {
    if xs == [] then []
    else if |xs| == 1 then xs[0]
    else xs[0] + sep + Join(xs[1..], sep)
  }

  /** `xs.join(sep)` contains each element, at the returned index. */
  lemma {:induction false} JoinContains(xs: seq<string>, sep: string, k: nat) returns (i: nat)
    requires k < |xs|
    ensures OccursAt(Join(xs, sep), xs[k], i)
    decreases k
  {
    if |xs| == 1 {
      i := 0;
    } else if k == 0 {
      i := 0;
      assert Join(xs, sep) == xs[0] + (sep + Join(xs[1..], sep));
    } else {
      var rest := Join(xs[1..], sep);
      var i' := JoinContains(xs[1..], sep, k - 1);
      i := |xs[0]| + |sep| + i';
      var s := Join(xs, sep);
      assert s == (xs[0] + sep) + rest;
      assert s[i..i + |xs[k]|] == rest[i'..i' + |xs[k]|];
    }
  }

  /** `xs.slice(0, n)`. */
  function Take<T>(xs: seq<T>, n: nat): (r: seq<T>)
    ensures |r| <= n && |r| <= |xs|
    ensures r == xs[..|r|]
    ensures |xs| <= n ==> r == xs
    ensures |xs| > n ==> |r| == n
  {
    if |xs| <= n then xs else xs[..n]
  }

  // ---------------------------------------------------------------------
  // Numbers
  // ---------------------------------------------------------------------

  function DigitChar(d: nat): (c: char)
    requires d < 10
    ensures IsDigit(c)
  {
    ('0' as int + d) as char
  }

  /** Decimal rendering of a natural number, as in a template literal. */
  function NatToString(n: nat): (r: string)
    ensures |r| > 0
    ensures forall i :: 0 <= i < |r| ==> IsDigit(r[i])
  {
    if n < 10 then [DigitChar(n)] else NatToString(n / 10) + [DigitChar(n % 10)]
  }

  /** `Math.round(100 * m / n)` for `n > 0`, computed exactly on integers. */
  function RoundPercent(m: nat, n: nat): (r: nat)
    requires n > 0
  {
    (200 * m + n) / (2 * n)
  }

  /** `RoundPercent` is `Math.round`: the result is the integer nearest to
      `100 * m / n`, halves rounded up. */
  lemma {:induction false} RoundPercentNearest(m: nat, n: nat)
    requires n > 0
    ensures 2 * n * RoundPercent(m, n) <= 200 * m + n < 2 * n * (RoundPercent(m, n) + 1)
  {
    var q := RoundPercent(m, n);
    var d := 2 * n;
    var x := 200 * m + n;
    assert x == d * q + x % d;
    assert 2 * n * (q + 1) == d * q + d;
  }

  lemma {:induction false} MulLessCancel(a: nat, b: int, c: int)
    requires a > 0 && a * b < a * c
    ensures b < c
  {
  }

  /** A share of at most the whole rounds to a percentage in 0..100, and the
      two extremes are hit exactly by none and by all. */
  lemma {:induction false} RoundPercentRange(m: nat, n: nat)
    requires n > 0 && m <= n
    ensures RoundPercent(m, n) <= 100
    ensures m == 0 ==> RoundPercent(m, n) == 0
    ensures m == n ==> RoundPercent(m, n) == 100
  {
    RoundPercentNearest(m, n);
    var r := RoundPercent(m, n);
    var d := 2 * n;
    assert d * r < d * 101 by {
      assert 200 * m <= 200 * n;
    }
    MulLessCancel(d, r, 101);
    if m == 0 {
      assert d * r < d * 1;
      MulLessCancel(d, r, 1);
    }
    if m == n {
      assert d * 99 < d * (r + 1);
      MulLessCancel(d, 99, r + 1);
    }
  }
}
