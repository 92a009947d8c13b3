/** The shared text utilities (packages/utils/src/index.ts): the e-mail
    shape check, the LaTeX sanitiser, keyword extraction and the keyword
    match score. Each regular expression is written out as a predicate or a
    scanner over the text. */
module Utils {
  import opened Common

  // ---------------------------------------------------------------------
  // validateEmail: /^[^\s@]+@[^\s@]+\.[^\s@]+$/
  // ---------------------------------------------------------------------

  /** `[^\s@]`. */
  predicate EmailChar(c: char) {
    !IsSpace(c) && c != '@'
  }

  predicate AllEmailChars(s: string) {
    forall i :: 0 <= i < |s| ==> EmailChar(s[i])
  }

  /** The regular expression matches with its `@` at `a` and the `.` it
      names at `b`: three non-empty runs of `[^\s@]` around them, covering
      the whole text. */
  predicate EmailShape(email: string, a: int, b: int) {
    && 0 < a && a + 1 < b && b + 1 < |email|
    && email[a] == '@' && email[b] == '.'
    && AllEmailChars(email[..a]) && AllEmailChars(email[a + 1..b]) && AllEmailChars(email[b + 1..])
  }

  /** `validateEmail`: some split of the text fits the pattern. */
  predicate ValidateEmail(email: string) {
    exists a, b :: 0 < a < b < |email| && EmailShape(email, a, b)
  }

  /** `@` at `a` is the only `@` of the text. */
  predicate OnlyAt(email: string, a: int) {
    forall i :: 0 <= i < |email| && email[i] == '@' ==> i == a
  }

  predicate NoSpace(s: string) {
    forall i :: 0 <= i < |s| ==> !IsSpace(s[i])
  }

  /** The domain holds a `.` that is neither its first nor its last character. */
  predicate InnerDot(domain: string) {
    exists b :: 0 < b < |domain| - 1 && domain[b] == '.'
  }

  /** The plain reading of the pattern: exactly one `@`, no whitespace, a
      non-empty local part, and a domain with an inner dot. */
  predicate EmailParts(email: string, a: int) {
    0 < a < |email| && email[a] == '@' && OnlyAt(email, a) && NoSpace(email) && InnerDot(email[a + 1..])
  }

  lemma {:induction false} ValidateEmailIff(email: string)
    ensures ValidateEmail(email) <==> exists a :: EmailParts(email, a)
  {
    if ValidateEmail(email) {
      var a, b :| 0 < a < b < |email| && EmailShape(email, a, b);
      assert a + 1 < b && b + 1 < |email|;
      forall i | 0 <= i < |email| && i != a && i != b ensures EmailChar(email[i]) {
        if i < a {
          assert email[i] == email[..a][i];
        } else if i < b {
          assert email[i] == email[a + 1..b][i - a - 1];
        } else {
          assert email[i] == email[b + 1..][i - b - 1];
        }
      }
      assert email[a + 1..][b - a - 1] == '.';
      assert EmailParts(email, a);
    }
    if exists a :: EmailParts(email, a) {
      var a :| EmailParts(email, a);
      var d := email[a + 1..];
      var b' :| 0 < b' < |d| - 1 && d[b'] == '.';
      var b := a + 1 + b';
      assert email[b] == '.';
      assert AllEmailChars(email[..a]) by {
        forall i | 0 <= i < a ensures EmailChar(email[..a][i]) {
          assert email[..a][i] == email[i];
        }
      }
      var mid, top := email[a + 1..b], email[b + 1..];
      forall i | 0 <= i < |mid| ensures EmailChar(mid[i]) {
        assert mid[i] == email[a + 1 + i];
      }
      forall i | 0 <= i < |top| ensures EmailChar(top[i]) {
        assert top[i] == email[b + 1 + i];
      }
      assert EmailShape(email, a, b);
    }
  }

  // ---------------------------------------------------------------------
  // sanitizeLatex
  // ---------------------------------------------------------------------

  /** The dangerous commands, in the order they are stripped, without their
      leading backslash. */
  const COMMANDS: seq<string> := ["input", "include", "write", "openout", "closeout", "immediate", "catcode"]

  /** A command name: a non-empty run of lower-case word characters. */
  predicate IsCommandName(name: string) {
    |name| > 0 && forall k :: 0 <= k < |name| ==> IsWordChar(name[k]) && !IsUpper(name[k])
  }

  lemma {:induction false} CommandNames()
    ensures forall k :: 0 <= k < |COMMANDS| ==> IsCommandName(COMMANDS[k])
  {
  }

  /** The pattern `\\name\b` with the flags `gi` matches at `i`: a
      backslash, the name in any letter case, then a word boundary. */
  predicate CommandAt(s: string, i: int, name: string) {
    && 0 <= i && i + 1 + |name| <= |s|
    && s[i] == '\\'
    && Lower(s[i + 1..i + 1 + |name|]) == name
    && WordBoundaryAt(s, i + 1 + |name|)
  }

  /** No match of the pattern anywhere in `s`. */
  predicate NoCommand(s: string, name: string) {
    forall i :: 0 <= i <= |s| ==> !CommandAt(s, i, name)
  }

  /** `s.replace(/\\name\b/gi, '')`: the scan from the left that drops each
      match and continues right after it. */
  function RemoveAll(s: string, name: string): (r: string)
    ensures |r| <= |s|
    decreases |s|
  {
    if s == [] then []
    else if CommandAt(s, 0, name) then RemoveAll(s[1 + |name|..], name)
    else [s[0]] + RemoveAll(s[1..], name)
  }

  /** A match never looks left of its backslash, so matches in a suffix are
      matches in the whole text. */
  lemma {:induction false} CommandAtSuffix(s: string, k: nat, i: int, name: string)
    requires k <= |s| && 0 <= i
    ensures CommandAt(s[k..], i, name) <==> CommandAt(s, k + i, name)
  {
    if i + 1 + |name| <= |s| - k {
      assert s[k..][i + 1..i + 1 + |name|] == s[k + i + 1..k + i + 1 + |name|];
    }
  }

  /** Right after a match comes a non-word character or the end of the text. */
  lemma {:induction false} CommandEnd(s: string, i: int, name: string)
    requires IsCommandName(name) && CommandAt(s, i, name)
    ensures var e := i + 1 + |name|; e == |s| || !IsWordChar(s[e])
  {
    var e := i + 1 + |name|;
    LowerSlice(s, i + 1, e);
    assert Lower(s)[e - 1] == name[|name| - 1];
  }

  predicate NonWordStart(t: string) {
    t == [] || !IsWordChar(t[0])
  }

  /** Removing matches from a text that starts with a non-word character
      leaves a text that starts with one. */
  lemma {:induction false} RemoveAllNonWordStart(t: string, name: string)
    requires IsCommandName(name) && NonWordStart(t)
    ensures NonWordStart(RemoveAll(t, name))
    decreases |t|
  {
    if t != [] && CommandAt(t, 0, name) {
      CommandEnd(t, 0, name);
      RemoveAllNonWordStart(t[1 + |name|..], name);
    }
  }

  /** No match starts inside the leading run of word characters, so the run
      survives, and what follows it still does not extend it. */
  lemma {:induction false} RemoveAllKeepsWordPrefix(t: string, name: string)
    requires IsCommandName(name)
    ensures var r := RemoveAll(t, name); var w := WordPrefixLen(t);
      w <= |r| && r[..w] == t[..w] && (w == |r| || !IsWordChar(r[w]))
    decreases |t|
  {
    var w := WordPrefixLen(t);
    if w == 0 {
      RemoveAllNonWordStart(t, name);
    } else {
      var r' := RemoveAll(t[1..], name);
      assert RemoveAll(t, name) == [t[0]] + r';
      assert WordPrefixLen(t[1..]) == w - 1;
      RemoveAllKeepsWordPrefix(t[1..], name);
      assert t[..w] == [t[0]] + t[1..][..w - 1];
    }
  }

  /** The text before a removal point cannot complete a new match with what
      the removals leave behind: a match at the head of `[c] + RemoveAll(t)`
      was already a match at the head of `[c] + t`. */
  lemma {:induction false} HeadMatchBack(c: char, t: string, name: string, other: string)
    requires IsCommandName(name) && IsCommandName(other)
    requires CommandAt([c] + RemoveAll(t, name), 0, other)
    ensures CommandAt([c] + t, 0, other)
  {
    var r := RemoveAll(t, name);
    var L := |other|;
    var w := WordPrefixLen(t);
    RemoveAllKeepsWordPrefix(t, name);
    CommandEnd([c] + r, 0, other);
    assert ([c] + r)[1..1 + L] == r[..L];
    forall k | 0 <= k < L ensures IsWordChar(r[k]) {
      assert Lower(r[..L])[k] == other[k];
    }
    assert w == L by {
      if w < L {
        assert false;
      } else if w > L {
        assert false;
      }
    }
    assert ([c] + t)[1..1 + L] == t[..L];
  }

  /** After one `replace`, no match of that command remains, and no match of
      another command appears where there was none. */
  lemma {:induction false} RemoveAllLeavesNone(s: string, name: string, other: string)
    requires IsCommandName(name) && IsCommandName(other)
    requires other == name || NoCommand(s, other)
    ensures NoCommand(RemoveAll(s, name), other)
    decreases |s|
  {
    var r := RemoveAll(s, name);
    if s == [] {
    } else if CommandAt(s, 0, name) {
      var n := 1 + |name|;
      if other != name {
        forall i | 0 <= i <= |s| - n ensures !CommandAt(s[n..], i, other) {
          CommandAtSuffix(s, n, i, other);
        }
      }
      RemoveAllLeavesNone(s[n..], name, other);
    } else {
      var r' := RemoveAll(s[1..], name);
      if other != name {
        forall i | 0 <= i <= |s| - 1 ensures !CommandAt(s[1..], i, other) {
          CommandAtSuffix(s, 1, i, other);
        }
      }
      RemoveAllLeavesNone(s[1..], name, other);
      forall i | 0 <= i <= |r| ensures !CommandAt(r, i, other) {
        if i == 0 {
          assert [s[0]] + s[1..] == s;
          if CommandAt(r, 0, other) {
            HeadMatchBack(s[0], s[1..], name, other);
          }
        } else {
          assert r[1..] == r';
          CommandAtSuffix(r, 1, i - 1, other);
        }
      }
    }
  }

  /** A text without matches comes back unchanged. */
  lemma {:induction false} RemoveAllOfClean(s: string, name: string)
    requires IsCommandName(name) && NoCommand(s, name)
    ensures RemoveAll(s, name) == s
    decreases |s|
  {
    if s != [] {
      forall i | 0 <= i <= |s| - 1 ensures !CommandAt(s[1..], i, name) {
        CommandAtSuffix(s, 1, i, name);
      }
      RemoveAllOfClean(s[1..], name);
    }
  }

  /** A command name directly followed by a word character is a longer
      word, not the command: `\inputfile` is kept. */
  lemma {:induction false} LongerWordIsKept(name: string, rest: string)
    requires IsCommandName(name) && rest != [] && IsWordChar(rest[0])
    ensures !CommandAt(['\\'] + name + rest, 0, name)
  {
    var s := ['\\'] + name + rest;
    assert s[1 + |name|] == rest[0];
    assert s[|name|] == name[|name| - 1];
  }

  /** The commands `cmds`, removed one after the other. */
  function Sanitize(s: string, cmds: seq<string>): (r: string)
    ensures |r| <= |s|
  {
    if cmds == [] then s
    else RemoveAll(Sanitize(s, cmds[..|cmds| - 1]), cmds[|cmds| - 1])
  }

  /** None of the commands survives: a later removal never creates a match
      of an earlier command. */
  lemma {:induction false} SanitizeClears(s: string, cmds: seq<string>)
    requires forall k :: 0 <= k < |cmds| ==> IsCommandName(cmds[k])
    ensures forall k :: 0 <= k < |cmds| ==> NoCommand(Sanitize(s, cmds), cmds[k])
  {
    if cmds != [] {
      var init, last := cmds[..|cmds| - 1], cmds[|cmds| - 1];
      SanitizeClears(s, init);
      forall k | 0 <= k < |cmds| ensures NoCommand(Sanitize(s, cmds), cmds[k]) {
        if k < |cmds| - 1 {
          assert cmds[k] == init[k];
        }
        RemoveAllLeavesNone(Sanitize(s, init), last, cmds[k]);
      }
    }
  }

  /** A text free of every command is left as it is. */
  lemma {:induction false} SanitizeOfClean(s: string, cmds: seq<string>)
    requires forall k :: 0 <= k < |cmds| ==> IsCommandName(cmds[k])
    requires forall k :: 0 <= k < |cmds| ==> NoCommand(s, cmds[k])
    ensures Sanitize(s, cmds) == s
  {
    if cmds != [] {
      var init := cmds[..|cmds| - 1];
      assert forall k :: 0 <= k < |init| ==> init[k] == cmds[k];
      SanitizeOfClean(s, init);
      RemoveAllOfClean(s, cmds[|cmds| - 1]);
    }
  }

  /** `sanitizeLatex`. */
  method SanitizeLatex(input: string) returns (sanitized: string)
    ensures sanitized == Sanitize(input, COMMANDS)
    ensures |sanitized| <= |input|
    ensures forall k :: 0 <= k < |COMMANDS| ==> NoCommand(sanitized, COMMANDS[k])
  {
    CommandNames();
    sanitized := input;
    for i := 0 to |COMMANDS|
      invariant sanitized == Sanitize(input, COMMANDS[..i])
      invariant |sanitized| <= |input|
      invariant forall k :: 0 <= k < i ==> NoCommand(sanitized, COMMANDS[k])
    {
      assert COMMANDS[..i + 1][..i] == COMMANDS[..i];
      forall k | 0 <= k <= i ensures NoCommand(RemoveAll(sanitized, COMMANDS[i]), COMMANDS[k]) {
        RemoveAllLeavesNone(sanitized, COMMANDS[i], COMMANDS[k]);
      }
      sanitized := RemoveAll(sanitized, COMMANDS[i]);
    }
    assert COMMANDS[..|COMMANDS|] == COMMANDS;
  }

  /** The sanitiser is idempotent: its output has nothing left to remove. */
  lemma {:induction false} SanitizeIdempotent(input: string)
    ensures var r := Sanitize(input, COMMANDS); Sanitize(r, COMMANDS) == r
  {
    CommandNames();
    SanitizeClears(input, COMMANDS);
    SanitizeOfClean(Sanitize(input, COMMANDS), COMMANDS);
  }

  /** Text without a backslash has no match and comes back unchanged. */
  lemma {:induction false} SanitizeWithoutBackslash(input: string)
    requires forall i :: 0 <= i < |input| ==> input[i] != '\\'
    ensures Sanitize(input, COMMANDS) == input
  {
    CommandNames();
    SanitizeOfClean(input, COMMANDS);
  }

  // ---------------------------------------------------------------------
  // extractKeywords
  // ---------------------------------------------------------------------

  /** `s.match(/\b\w+\b/g) || []`: the maximal runs of word characters, left
      to right. */
  function Tokens(s: string): (r: seq<string>)
    decreases |s|
  {
    if s == [] then []
    else if !IsWordChar(s[0]) then Tokens(s[1..])
    else
      var n := WordPrefixLen(s);
      [s[..n]] + Tokens(s[n..])
  }

  /** `w` is a maximal run of word characters of `s`, starting at `i`. */
  predicate TokenRun(s: string, i: int, w: string) {
    && OccursAt(s, w, i) && |w| > 0
    && (forall k :: 0 <= k < |w| ==> IsWordChar(w[k]))
    && (i == 0 || !IsWordChar(s[i - 1]))
    && (i + |w| == |s| || !IsWordChar(s[i + |w|]))
  }

  /** A run shifted by a prefix of `k` characters. */
  lemma {:induction false} TokenRunSuffix(s: string, k: nat, i: int, w: string)
    requires k <= |s| && 0 <= i && (i > 0 || k == 0 || !IsWordChar(s[k - 1]))
    ensures TokenRun(s[k..], i, w) <==> TokenRun(s, k + i, w)
  {
    if i + |w| <= |s| - k {
      assert s[k..][i..i + |w|] == s[k + i..k + i + |w|];
    }
    if i > 0 && i <= |s| - k {
      assert s[k..][i - 1] == s[k + i - 1];
    }
  }

  /** The leading run: when `s` starts with a word character, the run at 0
      is exactly the first `WordPrefixLen(s)` characters. */
  lemma {:induction false} LeadingRun(s: string, w: string)
    requires TokenRun(s, 0, w)
    ensures w == s[..WordPrefixLen(s)]
  {
    var n := WordPrefixLen(s);
    if n < |w| {
      assert false;
    } else if n > |w| {
      assert false;
    }
  }

  lemma {:induction false} TokensAreRuns(s: string, w: string)
    ensures w in Tokens(s) ==> exists i :: TokenRun(s, i, w)
    decreases |s|
  {
    if s != [] && w in Tokens(s) {
      if !IsWordChar(s[0]) {
        TokensAreRuns(s[1..], w);
        var i :| TokenRun(s[1..], i, w);
        TokenRunSuffix(s, 1, i, w);
      } else {
        var n := WordPrefixLen(s);
        if w == s[..n] {
          assert TokenRun(s, 0, w);
        } else {
          TokensAreRuns(s[n..], w);
          var i :| TokenRun(s[n..], i, w);
          assert i > 0;
          TokenRunSuffix(s, n, i, w);
        }
      }
    }
  }

  lemma {:induction false} RunsAreTokens(s: string, i: int, w: string)
    requires TokenRun(s, i, w)
    ensures w in Tokens(s)
    decreases |s|
  {
    if !IsWordChar(s[0]) {
      assert i > 0;
      TokenRunSuffix(s, 1, i - 1, w);
      RunsAreTokens(s[1..], i - 1, w);
    } else {
      var n := WordPrefixLen(s);
      if i == 0 {
        LeadingRun(s, w);
      } else {
        assert i > n by {
          if i <= n {
            assert false;
          }
        }
        TokenRunSuffix(s, n, i - n, w);
        RunsAreTokens(s[n..], i - n, w);
      }
    }
  }

  const STOP_WORDS: set<string> := {"the", "and", "or", "but", "in", "on", "at", "to", "for", "of", "with", "by"}

  /** The filter of `extractKeywords`: longer than two characters and not a stop word. */
  predicate IsKeyword(w: string) {
    |w| > 2 && w !in STOP_WORDS
  }

  /** `extractKeywords`: the keyword tokens of the lower-cased text, each
      once, in order of first occurrence. */
  function ExtractKeywords(text: string): (r: seq<string>)
    ensures Distinct(r)
    ensures forall w :: w in r <==> w in Tokens(Lower(text)) && IsKeyword(w)
  {
    Dedup(Filter(Tokens(Lower(text)), IsKeyword))
  }

  /** Each keyword is a lower-case maximal word run of the lower-cased
      text, longer than two characters and no stop word; and each such run
      is a keyword. */
  lemma {:induction false} KeywordsExactly(text: string, w: string)
    ensures w in ExtractKeywords(text) <==>
      (exists i :: TokenRun(Lower(text), i, w)) && |w| > 2 && w !in STOP_WORDS
    ensures w in ExtractKeywords(text) ==> forall k :: 0 <= k < |w| ==> !IsUpper(w[k])
  {
    var t := Lower(text);
    TokensAreRuns(t, w);
    if exists i :: TokenRun(t, i, w) {
      var i :| TokenRun(t, i, w);
      RunsAreTokens(t, i, w);
      forall k | 0 <= k < |w| ensures !IsUpper(w[k]) {
        assert w[k] == t[i + k];
      }
    }
  }

  /** Filtering keeps the relative order of the elements it keeps. */
  lemma {:induction false} FilterPositionOrder<T(!new)>(xs: seq<T>, p: T -> bool, x: T, y: T)
    requires x in xs && y in xs && p(x) && p(y)
    ensures x in Filter(xs, p) && y in Filter(xs, p)
    ensures Position(xs, x) < Position(xs, y) <==> Position(Filter(xs, p), x) < Position(Filter(xs, p), y)
  {
    var n := |xs| - 1;
    var init, last := xs[..n], xs[n];
    var f, fi := Filter(xs, p), Filter(init, p);
    assert xs == init + [last];
    assert f == fi + (if p(last) then [last] else []);
    if x in init && y in init {
      FilterPositionOrder(init, p, x, y);
      PositionInPrefix(xs, n, x);
      PositionInPrefix(xs, n, y);
      PositionInPrefix(f, |fi|, x);
      PositionInPrefix(f, |fi|, y);
    } else if x in init {
      PositionInPrefix(xs, n, x);
      PositionInPrefix(f, |fi|, x);
      assert y !in fi;
      assert f[|fi|] == y;
    } else if y in init {
      PositionInPrefix(xs, n, y);
      PositionInPrefix(f, |fi|, y);
      assert x !in fi;
      assert f[|fi|] == x;
    }
  }

  /** Keywords come in order of their first occurrence among the tokens. */
  lemma {:induction false} KeywordsInOrder(text: string)
    ensures var r := ExtractKeywords(text); var tokens := Tokens(Lower(text));
      forall i, j :: 0 <= i < j < |r| ==> Position(tokens, r[i]) < Position(tokens, r[j])
  {
    var tokens := Tokens(Lower(text));
    var kept := Filter(tokens, IsKeyword);
    var r := ExtractKeywords(text);
    DedupOrder(kept);
    forall i, j | 0 <= i < j < |r| ensures Position(tokens, r[i]) < Position(tokens, r[j]) {
      FilterPositionOrder(tokens, IsKeyword, r[i], r[j]);
    }
  }

  // ---------------------------------------------------------------------
  // calculateMatchScore
  // ---------------------------------------------------------------------

  /** A JavaScript number as the score produces it: `NaN` from `0 / 0`. */
  datatype Score = NaN | Percent(value: nat)

  /** `new Set(keywords.map(k => k.toLowerCase()))`. */
  function LowerSet(keywords: seq<string>): (s: set<string>)
    ensures keywords == [] <==> s == {}
  {
    var lowered := set j | 0 <= j < |keywords| :: Lower(keywords[j]);
    assert keywords != [] ==> Lower(keywords[0]) in lowered;
    lowered
  }

  lemma {:induction false} SubsetCard<T>(a: set<T>, b: set<T>)
    requires a <= b
    ensures |a| <= |b|
    decreases b
  {
    if a != {} {
      var x :| x in a;
      SubsetCard(a - {x}, b - {x});
    }
  }

  /** `calculateMatchScore`: the share of the distinct lower-cased job
      keywords that the resume also has, as a rounded percentage. */
  function CalculateMatchScore(resumeKeywords: seq<string>, jobKeywords: seq<string>): (r: Score)
    ensures r.NaN? <==> jobKeywords == []
    ensures r.Percent? ==> r.value <= 100
  {
    var resumeSet := LowerSet(resumeKeywords);
    var jobSet := LowerSet(jobKeywords);
    var common := resumeSet * jobSet;
    if |jobSet| == 0 then NaN
    else
      SubsetCard(common, jobSet);
      RoundPercentRange(|common|, |jobSet|);
      Percent(RoundPercent(|common|, |jobSet|))
  }

  /** The score is `Math.round(100 * |R ∩ J| / |J|)`: the percentage nearest
      to the shared share, 100 when the resume covers every job keyword and
      0 when the two share none. */
  lemma {:induction false} MatchScoreBounds(resumeKeywords: seq<string>, jobKeywords: seq<string>)
    requires jobKeywords != []
    ensures var R, J := LowerSet(resumeKeywords), LowerSet(jobKeywords);
      var v := CalculateMatchScore(resumeKeywords, jobKeywords).value;
      && 2 * |J| * v <= 200 * |R * J| + |J| < 2 * |J| * (v + 1)
      && (J <= R ==> v == 100)
      && (R * J == {} ==> v == 0)
  {
    var R, J := LowerSet(resumeKeywords), LowerSet(jobKeywords);
    SubsetCard(R * J, J);
    RoundPercentNearest(|R * J|, |J|);
    RoundPercentRange(|R * J|, |J|);
    if J <= R {
      assert R * J == J;
    }
  }

  /** Every keyword lower-cased. */
  function LowerAll(keywords: seq<string>): (r: seq<string>)
    ensures |r| == |keywords| && forall j :: 0 <= j < |r| ==> r[j] == Lower(keywords[j])
  {
    seq(|keywords|, j requires 0 <= j < |keywords| => Lower(keywords[j]))
  }

  /** The score depends only on the two lower-cased keyword sets: any two
      pairs of lists with the same sets score the same, so lower-casing
      both lists changes nothing. LowerSetRepeat and LowerSetRecase give the
      edits of either list that keep its set. */
  lemma {:induction false} MatchScoreIgnoresCaseAndRepeats(
    resumeKeywords: seq<string>, jobKeywords: seq<string>, resume2: seq<string>, job2: seq<string>)
    requires LowerSet(resumeKeywords) == LowerSet(resume2) && LowerSet(jobKeywords) == LowerSet(job2)
    ensures CalculateMatchScore(resume2, job2) == CalculateMatchScore(resumeKeywords, jobKeywords)
    ensures CalculateMatchScore(LowerAll(resumeKeywords), LowerAll(jobKeywords))
      == CalculateMatchScore(resumeKeywords, jobKeywords)
  {
    LowerSetOfLowerAll(resumeKeywords);
    LowerSetOfLowerAll(jobKeywords);
  }

  /** Inserting a copy of any keyword at any position keeps the set. */
  lemma {:induction false} LowerSetRepeat(keywords: seq<string>, i: nat, k: nat)
    requires i <= |keywords| && k < |keywords|
    ensures LowerSet(keywords[..i] + [keywords[k]] + keywords[i..]) == LowerSet(keywords)
  {
    var longer := keywords[..i] + [keywords[k]] + keywords[i..];
    var A, B := LowerSet(longer), LowerSet(keywords);
    forall x | x in A ensures x in B {
      var j :| 0 <= j < |longer| && x == Lower(longer[j]);
      if j < i {
        assert longer[j] == keywords[j];
      } else if j == i {
        assert longer[j] == keywords[k];
      } else {
        assert longer[j] == keywords[j - 1];
      }
    }
    forall x | x in B ensures x in A {
      var j :| 0 <= j < |keywords| && x == Lower(keywords[j]);
      if j < i {
        assert longer[j] == keywords[j];
      } else {
        assert longer[j + 1] == keywords[j];
      }
    }
  }

  /** Replacing a keyword by one that differs from it only in letter case
      keeps the set. */
  lemma {:induction false} LowerSetRecase(keywords: seq<string>, i: nat, w: string)
    requires i < |keywords| && Lower(w) == Lower(keywords[i])
    ensures LowerSet(keywords[i := w]) == LowerSet(keywords)
  {
    var changed := keywords[i := w];
    var A, B := LowerSet(changed), LowerSet(keywords);
    forall x | x in A ensures x in B {
      var j :| 0 <= j < |changed| && x == Lower(changed[j]);
      if j == i {
        assert x == Lower(keywords[i]);
      } else {
        assert x == Lower(keywords[j]);
      }
    }
    forall x | x in B ensures x in A {
      var j :| 0 <= j < |keywords| && x == Lower(keywords[j]);
      if j == i {
        assert x == Lower(changed[i]);
      } else {
        assert x == Lower(changed[j]);
      }
    }
  }

  lemma {:induction false} LowerSetOfLowerAll(keywords: seq<string>)
    ensures LowerSet(LowerAll(keywords)) == LowerSet(keywords)
  {
    var a, b := LowerSet(LowerAll(keywords)), LowerSet(keywords);
    forall x | x in a ensures x in b {
      var j :| 0 <= j < |keywords| && x == Lower(LowerAll(keywords)[j]);
      LowerIdempotent(keywords[j]);
    }
    forall x | x in b ensures x in a {
      var j :| 0 <= j < |keywords| && x == Lower(keywords[j]);
      LowerIdempotent(keywords[j]);
      assert x == Lower(LowerAll(keywords)[j]);
    }
  }
}
