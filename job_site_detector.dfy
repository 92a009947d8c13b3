/** The table-driven job-site detector that the extension injects into every
    page (chrome-extension/content-scripts/job-detector.ts): a static table
    of six job sites, a detector object holding the matched site, a
    "already detected on this URL" flag, the last URL seen and a throttle
    timestamp, and the text extraction it runs on a detected application
    page. The page is an abstract snapshot (module Dom); the clock is the
    `now` argument; the `JOB_DETECTED` message is recorded in the `sent`
    field instead of being handed to the browser runtime. */
module JobSiteDetector {
  import opened Common
  import opened Dom

  // ---------------------------------------------------------------------
  // The site table
  // ---------------------------------------------------------------------

  datatype Site = LinkedIn | Greenhouse | Lever | Workday | Indeed | Glassdoor

  /** A URL pattern of the table. All of them are plain literals
      (`/greenhouse\.io/`) except LinkedIn's `/linkedin\.com.*currentJobId/`,
      a literal followed later on the same line by a second one. Matching is
      unanchored and case-sensitive. */
  datatype UrlPattern = Literal(text: string) | Then(first: string, second: string)

  datatype SiteConfig = SiteConfig(
    name: Site,
    uploadInputs: seq<string>,
    uploadKeywords: seq<string>,
    jobTitle: seq<string>,
    companyName: seq<string>,
    jobDescription: seq<string>,
    requirements: seq<string>,
    urlPatterns: seq<UrlPattern>)

  /** `JOB_SITE_CONFIGS`, in declaration order. */
  const JOB_SITE_CONFIGS: seq<SiteConfig> := [
    SiteConfig(
      LinkedIn,
      ["input[type=\"file\"][accept*=\"pdf\"]", "input[name*=\"resume\"]", "input[name*=\"cv\"]"],
      ["Upload resume", "Upload CV", "Choose file", "Attach resume"],
      ["h1[data-automation-id=\"jobPostingHeader\"]", ".job-details-jobs-unified-top-card__job-title", ".t-24.t-bold"],
      [".job-details-jobs-unified-top-card__company-name", ".jobs-unified-top-card__company-name",
       "a[data-control-name=\"job_details_topcard_company_url\"]"],
      [".jobs-description-content__text", ".jobs-box__html-content", "#job-details"],
      [".jobs-description-content__text ul", ".jobs-description-content__text li"],
      [Literal("linkedin.com/jobs"), Then("linkedin.com", "currentJobId")]),
    SiteConfig(
      Greenhouse,
      ["input[type=\"file\"]", "input[name=\"resume\"]", ".file-input input"],
      ["Upload Resume", "Resume/CV", "Attach Resume"],
      [".app-title", "h1.header", ".job-title"],
      [".company-name", ".header .company", "img[alt]"],
      ["#job_description", ".job-post-content", ".content"],
      ["#job_description ul", ".requirements ul"],
      [Literal("greenhouse.io"), Literal(".greenhouse.io")]),
    SiteConfig(
      Lever,
      ["input[type=\"file\"]", "input[accept*=\"pdf\"]"],
      ["Resume", "CV", "Upload"],
      [".posting-headline h2", ".template-job-page h2"],
      [".main-header-text-logo", ".template-job-page .company"],
      [".posting-content .content", ".section-wrapper .content"],
      [".posting-content ul", ".requirements ul"],
      [Literal("lever.co"), Literal(".lever.co")]),
    SiteConfig(
      Workday,
      ["input[type=\"file\"]", "input[data-automation-id*=\"file\"]"],
      ["Resume", "CV Upload", "Documents"],
      ["[data-automation-id=\"jobPostingHeader\"]", "h1[data-automation-id]"],
      [".company-logo img[alt]", "[data-automation-id=\"company\"]"],
      ["[data-automation-id=\"jobPostingDescription\"]", ".jobPostingDescription"],
      ["[data-automation-id=\"jobPostingDescription\"] ul"],
      [Literal("myworkdayjobs.com"), Literal("workday.com")]),
    SiteConfig(
      Indeed,
      ["input[type=\"file\"]", "input[accept*=\"pdf\"]"],
      ["Upload resume", "Resume", "CV"],
      ["[data-jk] h1", ".jobsearch-JobInfoHeader-title"],
      ["[data-testid=\"inlineHeader-companyName\"]", ".jobsearch-InlineCompanyRating"],
      ["#jobDescriptionText", ".jobsearch-jobDescriptionText"],
      ["#jobDescriptionText ul"],
      [Literal("indeed.com/viewjob")]),
    SiteConfig(
      Glassdoor,
      ["input[type=\"file\"]"],
      ["Upload Resume", "Resume"],
      ["[data-test=\"job-title\"]", ".css-17x2pwl"],
      ["[data-test=\"employer-name\"]", ".css-l2wjgv"],
      ["[data-test=\"job-description\"]", ".desc"],
      ["[data-test=\"job-description\"] ul"],
      [Literal("glassdoor.com/job-listing")])
  ]

  /** What `.` in a regular expression without the `s` flag refuses. */
  predicate IsLineTerminator(c: char) {
    c == '\n' || c == '\r' || c == '\U{2028}' || c == '\U{2029}'
  }

  /** `pattern.test(url)`. */
  predicate PatternMatches(p: UrlPattern, url: string) {
    match p
    case Literal(t) => Contains(url, t)
    case Then(a, b) =>
      exists i, j :: 0 <= i <= |url| && 0 <= j <= |url| && OccursAt(url, a, i) && OccursAt(url, b, j)
        && i + |a| <= j && (forall k :: i + |a| <= k < j ==> !IsLineTerminator(url[k]))
  }

  /** `config.urlPatterns.some(pattern => pattern.test(url))`. */
  predicate SiteMatches(config: SiteConfig, url: string) {
    exists k :: 0 <= k < |config.urlPatterns| && PatternMatches(config.urlPatterns[k], url)
  }

  /** The `find` in `detectJobSite`: the first config of the table, in
      order, one of whose URL patterns matches; none when no config does. */
  function FindSite(configs: seq<SiteConfig>, url: string): (r: Option<SiteConfig>)
    ensures r.None? <==> forall k :: 0 <= k < |configs| ==> !SiteMatches(configs[k], url)
    ensures r.Some? ==> exists k ::
      && 0 <= k < |configs|
      && r.value == configs[k]
      && SiteMatches(r.value, url)
      && forall j :: 0 <= j < k ==> !SiteMatches(configs[j], url)
  {
    match FindIndex(configs, (c: SiteConfig) => SiteMatches(c, url))
    case None => None
    case Some(k) => Some(configs[k])
  }

  // ---------------------------------------------------------------------
  // The application-page heuristic
  // ---------------------------------------------------------------------

  /** `hasUploadInput`: some upload-input selector finds an element. */
  predicate HasUploadInput(site: Option<SiteConfig>, page: Page) {
    site.Some? && exists k :: 0 <= k < |site.value.uploadInputs| && HasMatch(page, site.value.uploadInputs[k])
  }

  /** `hasUploadKeywords`: the lower-cased body text contains some
      lower-cased upload keyword. */
  predicate HasUploadKeywords(site: Option<SiteConfig>, page: Page) {
    site.Some? && exists k ::
      && 0 <= k < |site.value.uploadKeywords|
      && Contains(Lower(page.bodyText), Lower(site.value.uploadKeywords[k]))
  }

  // ---------------------------------------------------------------------
  // cleanText
  // ---------------------------------------------------------------------

  /** The characters at `i` and `i + 1` are not both whitespace. */
  predicate NoSpacePairAt(s: string, i: nat)
    requires i + 1 < |s|
  {
    !(IsSpace(s[i]) && IsSpace(s[i + 1]))
  }

  /** Every whitespace character is a plain space and no two are adjacent. */
  predicate SingleSpaced(s: string) {
    (forall i :: 0 <= i < |s| && IsSpace(s[i]) ==> s[i] == ' ')
    && (forall i: nat :: i + 1 < |s| ==> NoSpacePairAt(s, i))
  }

  /** `s.replace(/\s+/g, ' ')`: every maximal run of whitespace becomes one space. */
  function CollapseSpaces(s: string): (r: string)
    ensures |r| <= |s|
    ensures r == [] <==> s == []
    ensures s != [] ==> (IsSpace(r[0]) <==> IsSpace(s[0]))
    ensures SingleSpaced(r)
    decreases |s|
  {
    if s == [] then []
    else if IsSpace(s[0]) then
      var rest := CollapseSpaces(TrimStart(s[1..]));
      ConsSingleSpaced(' ', rest);
      [' '] + rest
    else
      var rest := CollapseSpaces(s[1..]);
      ConsSingleSpaced(s[0], rest);
      [s[0]] + rest
  }

  /** Putting a character in front of single-spaced text keeps it so when
      the character is not whitespace, or is a space not followed by one. */
  lemma {:induction false} ConsSingleSpaced(c: char, t: string)
    requires SingleSpaced(t)
    requires IsSpace(c) ==> c == ' ' && (t == [] || !IsSpace(t[0]))
    ensures SingleSpaced([c] + t)
  {
    var s := [c] + t;
    forall i: nat | i + 1 < |s| ensures NoSpacePairAt(s, i) {
      if i > 0 {
        assert NoSpacePairAt(t, i - 1);
      }
    }
  }

  predicate IsLineBreak(c: char) {
    c == '\r' || c == '\n'
  }

  /** Drops the leading run of `\r` and `\n` characters. */
  function SkipLineBreaks(s: string): (r: string)
    ensures |r| <= |s|
  {
    if s != [] && IsLineBreak(s[0]) then SkipLineBreaks(s[1..]) else s
  }

  /** `s.replace(/[\r\n]+/g, '\n')`. */
  function JoinLineBreaks(s: string): string
    decreases |s|
  {
    if s == [] then []
    else if IsLineBreak(s[0]) then ['\n'] + JoinLineBreaks(SkipLineBreaks(s[1..]))
    else [s[0]] + JoinLineBreaks(s[1..])
  }

  /** The `[\r\n]+` pass changes nothing on text without line breaks. */
  lemma {:induction false} JoinLineBreaksWithoutBreaks(s: string)
    requires forall i :: 0 <= i < |s| ==> !IsLineBreak(s[i])
    ensures JoinLineBreaks(s) == s
  {
    if s != [] {
      JoinLineBreaksWithoutBreaks(s[1..]);
    }
  }

  /** A slice of single-spaced text is single-spaced. */
  lemma {:induction false} SingleSpacedSlice(s: string, a: nat, b: nat)
    requires a <= b <= |s| && SingleSpaced(s)
    ensures SingleSpaced(s[a..b])
  {
    var t := s[a..b];
    forall i: nat | i + 1 < |t| ensures NoSpacePairAt(t, i) {
      assert NoSpacePairAt(s, a + i);
      assert t[i] == s[a + i] && t[i + 1] == s[a + i + 1];
    }
  }

  /** Line breaks are whitespace, so single-spaced text has none. */
  lemma {:induction false} SingleSpacedHasNoLineBreaks(s: string)
    requires SingleSpaced(s)
    ensures forall i :: 0 <= i < |s| ==> !IsLineBreak(s[i])
  {
  }

  /** Trimming keeps text single-spaced. */
  lemma {:induction false} TrimSingleSpaced(s: string)
    requires SingleSpaced(s)
    ensures SingleSpaced(Trim(s))
  {
    var a := |s| - |TrimStart(s)|;
    var r := Trim(s);
    TrimIsSlice(s);
    SingleSpacedSlice(s, a, a + |r|);
  }

  /** `cleanText`: collapse whitespace runs to one space, collapse line-break
      runs to one newline, trim. The result has no whitespace at either end,
      no two adjacent whitespace characters, no whitespace other than plain
      spaces, and so no `\r` or `\n`: the line-break pass never finds one. */
  function CleanText(s: string): (r: string)
    ensures Trimmed(r) && SingleSpaced(r)
    ensures forall i :: 0 <= i < |r| ==> !IsLineBreak(r[i])
  {
    var c := CollapseSpaces(s);
    SingleSpacedHasNoLineBreaks(c);
    JoinLineBreaksWithoutBreaks(c);
    TrimSingleSpaced(c);
    SingleSpacedHasNoLineBreaks(Trim(c));
    Trim(JoinLineBreaks(c))
  }

  /** Single-spaced text is its own whitespace collapse. */
  lemma {:induction false} CollapseSingleSpaced(s: string)
    requires SingleSpaced(s)
    ensures CollapseSpaces(s) == s
  {
    if s != [] {
      var tail := s[1..];
      SingleSpacedSlice(s, 1, |s|);
      assert s[1..|s|] == tail;
      if IsSpace(s[0]) {
        if |s| > 1 {
          assert NoSpacePairAt(s, 0);
        }
        assert TrimStart(tail) == tail;
      }
      CollapseSingleSpaced(tail);
      assert s == [s[0]] + tail;
    }
  }

  /** `cleanText` is idempotent. */
  lemma {:induction false} CleanTextIdempotent(s: string)
    ensures CleanText(CleanText(s)) == CleanText(s)
  {
    CleanTextOfClean(CleanText(s));
  }

  // ---------------------------------------------------------------------
  // Field extraction
  // ---------------------------------------------------------------------

  /** The text of the element found by the first selector of the list that
      finds one, whatever that text is; none when no selector finds anything.
      This is the selector walk shared by `extractText` and
      `extractJobDescription`. */
  function FirstFound(page: Page, selectors: seq<string>): (r: Option<string>)
    ensures r.None? <==> forall k :: 0 <= k < |selectors| ==> !HasMatch(page, selectors[k])
    ensures forall k ::
      (0 <= k < |selectors| && HasMatch(page, selectors[k]) && forall j :: 0 <= j < k ==> !HasMatch(page, selectors[j]))
      ==> r == Some(FirstText(page, selectors[k]))
  {
    if selectors == [] then None
    else if HasMatch(page, selectors[0]) then Some(FirstText(page, selectors[0]))
    else
      var rest := selectors[1..];
      assert forall k :: 0 < k < |selectors| ==> selectors[k] == rest[k - 1];
      FirstFound(page, rest)
  }

  /** What `extractText` returns: the trimmed text found by the first
      selector that finds an element, `''` when none does. */
  function FieldText(page: Page, selectors: seq<string>): (r: string)
    ensures FirstFound(page, selectors).None? ==> r == ""
    ensures forall k ::
      (0 <= k < |selectors| && HasMatch(page, selectors[k]) && forall j :: 0 <= j < k ==> !HasMatch(page, selectors[j]))
      ==> r == Trim(FirstText(page, selectors[k]))
    ensures Trimmed(r)
  {
    match FirstFound(page, selectors)
    case None => ""
    case Some(t) => Trim(t)
  }

  /** What `extractJobDescription` returns: the text the first description
      selector finds, passed through `cleanText`; `''` when no site is matched
      or no selector finds anything. */
  function DescriptionText(site: Option<SiteConfig>, page: Page): (r: string)
    ensures site.None? ==> r == ""
    ensures site.Some? && (forall k :: 0 <= k < |site.value.jobDescription| ==> !HasMatch(page, site.value.jobDescription[k]))
      ==> r == ""
    ensures site.Some? ==> forall k ::
      (0 <= k < |site.value.jobDescription| && HasMatch(page, site.value.jobDescription[k])
        && forall j :: 0 <= j < k ==> !HasMatch(page, site.value.jobDescription[j]))
      ==> r == CleanText(FirstText(page, site.value.jobDescription[k]))
    ensures Trimmed(r) && SingleSpaced(r)
  {
    if site.None? then ""
    else match FirstFound(page, site.value.jobDescription)
      case None => ""
      case Some(t) => CleanText(t)
  }

  /** What `extractRequirements` pushes for one element's text: the text
      passed through `cleanText`, if its trimmed text is longer than ten
      characters, and nothing otherwise. */
  function Entry(text: string): (r: seq<string>)
    ensures |r| <= 1
    ensures r != [] <==> |Trim(text)| > 10
    ensures r != [] ==> r == [CleanText(Trim(text))]
  {
    var t := Trim(text);
    if |t| > 10 then [CleanText(t)] else []
  }

  /** The entries pushed for the elements one selector finds, in document order. */
  function KeptRequirements(texts: seq<string>): seq<string> {
    FlatMap(texts, Entry)
  }

  /** The entries pushed for one selector of `page`. */
  function SelectorEntries(page: Page): string -> seq<string> {
    (sel: string) => KeptRequirements(QueryAll(page, sel))
  }

  /** The entries for a list of selectors, selector by selector. */
  function RequirementsOf(page: Page, selectors: seq<string>): seq<string> {
    FlatMap(selectors, SelectorEntries(page))
  }

  /** What `extractRequirements` returns; `[]` when no site is matched. */
  function RequirementsFor(site: Option<SiteConfig>, page: Page): seq<string> {
    if site.None? then [] else RequirementsOf(page, site.value.requirements)
  }

  /** Some element found by one of the selectors yields the entry `x`. */
  predicate KeptElement(page: Page, selectors: seq<string>, x: string) {
    exists k, m :: 0 <= k < |selectors| && 0 <= m < |QueryAll(page, selectors[k])| && x in Entry(QueryAll(page, selectors[k])[m])
  }

  /** `extractRequirements` yields one entry per element whose trimmed text
      is longer than ten characters, and no other entries. */
  lemma {:induction false} RequirementsExactly(page: Page, selectors: seq<string>, x: string)
    ensures x in RequirementsOf(page, selectors) <==> KeptElement(page, selectors, x)
  {
    FlatMapMembership(selectors, SelectorEntries(page), x);
    if x in RequirementsOf(page, selectors) {
      var k :| 0 <= k < |selectors| && x in SelectorEntries(page)(selectors[k]);
      FlatMapMembership(QueryAll(page, selectors[k]), Entry, x);
    }
    if KeptElement(page, selectors, x) {
      var k, m :| 0 <= k < |selectors| && 0 <= m < |QueryAll(page, selectors[k])| && x in Entry(QueryAll(page, selectors[k])[m]);
      FlatMapMembership(QueryAll(page, selectors[k]), Entry, x);
      assert x in SelectorEntries(page)(selectors[k]);
    }
  }

  /** Every entry is trimmed and single-spaced, with no line breaks. */
  lemma {:induction false} RequirementsClean(page: Page, selectors: seq<string>, x: string)
    requires x in RequirementsOf(page, selectors)
    ensures Trimmed(x) && SingleSpaced(x)
    ensures forall i :: 0 <= i < |x| ==> !IsLineBreak(x[i])
  {
    RequirementsExactly(page, selectors, x);
    var k, m :| 0 <= k < |selectors| && 0 <= m < |QueryAll(page, selectors[k])| && x in Entry(QueryAll(page, selectors[k])[m]);
    assert x == CleanText(Trim(QueryAll(page, selectors[k])[m]));
  }

  /** `k` spaces. */
  function Spaces(k: nat): (r: string)
    ensures |r| == k && forall i :: 0 <= i < k ==> r[i] == ' '
  {
    seq(k, _ => ' ')
  }

  /** `trimStart` drops a run of spaces in front of text that starts with
      something else. */
  lemma {:induction false} TrimStartSpaces(k: nat, w: string)
    requires w == [] || !IsSpace(w[0])
    ensures TrimStart(Spaces(k) + w) == w
  {
    if k > 0 {
      assert (Spaces(k) + w)[1..] == Spaces(k - 1) + w;
      TrimStartSpaces(k - 1, w);
    } else {
      assert Spaces(k) + w == w;
    }
  }

  /** One step of the whitespace collapse, on the first character. */
  lemma {:induction false} CollapseStep(s: string)
    requires s != []
    ensures IsSpace(s[0]) ==> CollapseSpaces(s) == [' '] + CollapseSpaces(TrimStart(s[1..]))
    ensures !IsSpace(s[0]) ==> CollapseSpaces(s) == [s[0]] + CollapseSpaces(s[1..])
  {
  }

  /** A character and a run of spaces in front of single-spaced text
      collapse to the character and one space. */
  lemma {:induction false} CollapseRun(c: char, k: nat, w: string)
    requires !IsSpace(c) && k > 0
    requires w != [] && !IsSpace(w[0]) && SingleSpaced(w)
    ensures CollapseSpaces([c] + Spaces(k) + w) == [c, ' '] + w
  {
    var tail := Spaces(k) + w;
    assert CollapseSpaces(tail) == [' '] + w by {
      assert tail[0] == ' ' && tail[1..] == Spaces(k - 1) + w;
      TrimStartSpaces(k - 1, w);
      CollapseSingleSpaced(w);
      CollapseStep(tail);
    }
    var s := [c] + tail;
    assert s[0] == c && s[1..] == tail;
    CollapseStep(s);
    assert [c] + Spaces(k) + w == s;
  }

  /** Trimmed, single-spaced text is its own `cleanText`. */
  lemma {:induction false} CleanTextOfClean(t: string)
    requires Trimmed(t) && SingleSpaced(t)
    ensures CleanText(t) == t
  {
    CollapseSingleSpaced(t);
    JoinLineBreaksWithoutBreaks(t);
    TrimOfTrimmed(t);
  }

  /** Collapsing whitespace first does not change `cleanText`. */
  lemma {:induction false} CleanTextOfCollapse(s: string)
    ensures CleanText(CollapseSpaces(s)) == CleanText(s)
  {
    CollapseSingleSpaced(CollapseSpaces(s));
  }

  /** The length filter runs before `cleanText`, so an element whose trimmed
      text is longer than ten characters can yield a shorter entry: a
      character, a run of `k` spaces and a single-spaced word `w` yield the
      entry with the run collapsed to one space, `k - 1` characters shorter
      (`"a   bcdefghi"`, twelve characters, yields `"a bcdefghi"`, ten). */
  lemma {:induction false} RequirementMayShrink(c: char, k: nat, w: string)
    requires !IsSpace(c) && k > 0
    requires w != [] && Trimmed(w) && SingleSpaced(w)
    requires 1 + k + |w| > 10
    ensures |Trim([c] + Spaces(k) + w)| == 1 + k + |w|
    ensures Entry([c] + Spaces(k) + w) == [[c, ' '] + w]
  {
    var s := [c] + Spaces(k) + w;
    var r := [c, ' '] + w;
    assert Trimmed(s) by {
      assert s[|s| - 1] == w[|w| - 1];
    }
    TrimOfTrimmed(s);
    CollapseRun(c, k, w);
    assert SingleSpaced(r) by {
      ConsSingleSpaced(' ', w);
      assert r == [c] + ([' '] + w);
      ConsSingleSpaced(c, [' '] + w);
    }
    assert Trimmed(r) by {
      assert r[|r| - 1] == w[|w| - 1];
    }
    CleanTextOfClean(r);
    CleanTextOfCollapse(s);
  }

  // ---------------------------------------------------------------------
  // extractSkills
  // ---------------------------------------------------------------------

  /** The four `/\b(...)\b/gi` alternations of `extractSkills`, in order. */
  const SKILL_PATTERNS: seq<seq<Word>> := [LANGUAGE_SKILLS, FRAMEWORK_SKILLS, TOOL_SKILLS, DATABASE_SKILLS]

  const LANGUAGE_SKILLS: seq<Word> :=
    ["JavaScript", "TypeScript", "Python", "Java", "C++", "C#", "PHP", "Ruby", "Go", "Rust", "Swift", "Kotlin", "Scala"]
  const FRAMEWORK_SKILLS: seq<Word> :=
    ["React", "Angular", "Vue", "Node.js", "Express", "Django", "Flask", "Spring", "Laravel", "Rails"]
  const TOOL_SKILLS: seq<Word> :=
    ["Docker", "Kubernetes", "AWS", "Azure", "GCP", "Jenkins", "Git", "GitHub", "GitLab", "Jira", "Confluence"]
  const DATABASE_SKILLS: seq<Word> :=
    ["PostgreSQL", "MySQL", "MongoDB", "Redis", "DynamoDB", "Elasticsearch"]

  /** Alternative `w` of a `\b(...)\b` group matches at `i`, ignoring ASCII
      case, and a word boundary follows it. */
  predicate AlternativeAt(s: string, i: nat, w: string) {
    i + |w| <= |s| && Lower(s[i..i + |w|]) == Lower(w) && WordBoundaryAt(s, i + |w|)
  }

  /** The alternative of a `\b(...)\b` group that matches at `i`: the
      opening `\b` holds there and the first alternative, in order, that
      matches is taken. */
  function MatchAt(s: string, i: nat, alts: seq<Word>): (r: Option<nat>)
    ensures r.Some? ==> r.value < |alts| && WordBoundaryAt(s, i) && AlternativeAt(s, i, alts[r.value])
    ensures r.Some? ==> forall j :: 0 <= j < r.value ==> !AlternativeAt(s, i, alts[j])
    ensures r.None? ==> !WordBoundaryAt(s, i) || forall j :: 0 <= j < |alts| ==> !AlternativeAt(s, i, alts[j])
  {
    if WordBoundaryAt(s, i) then FindIndex(alts, (w: string) => AlternativeAt(s, i, w)) else None
  }

  /** `s.match(/\b(alt1|alt2|...)\b/gi)` scanned from index `i`: at each
      position where an alternative matches it is taken and scanning resumes
      after it. The matches keep the casing found in `s`. */
  function GroupMatches(s: string, i: nat, alts: seq<Word>): seq<string>
    decreases |s| - i
  {
    if i >= |s| then []
    else match MatchAt(s, i, alts)
      case Some(k) => [s[i..i + |alts[k]|]] + GroupMatches(s, i + |alts[k]|, alts)
      case None => GroupMatches(s, i + 1, alts)
  }

  /** Every match of a group is a whole-word occurrence in the text of one of
      its alternatives, up to ASCII case. */
  lemma {:induction false} GroupMatchesSound(s: string, i: nat, alts: seq<Word>, x: string) returns (p: nat, k: nat)
    requires x in GroupMatches(s, i, alts)
    ensures OccursAt(s, x, p) && WordBoundaryAt(s, p) && WordBoundaryAt(s, p + |x|)
    ensures k < |alts| && Lower(x) == Lower(alts[k])
    decreases |s| - i
  {
    var here, taken, next := GroupMatchesStep(s, i, alts, x);
    if here {
      p, k := i, taken;
    } else {
      p, k := GroupMatchesSound(s, next, alts, x);
    }
  }

  /** Where a match of the scan from `i` comes from: the alternative taken at
      `i` (`here`), or the scan that resumes at `next`. */
  lemma {:induction false} GroupMatchesStep(s: string, i: nat, alts: seq<Word>, x: string)
    returns (here: bool, taken: nat, next: nat)
    requires x in GroupMatches(s, i, alts)
    ensures i < next <= |s|
    ensures here ==>
      && taken < |alts| && next == i + |alts[taken]|
      && WordBoundaryAt(s, i) && AlternativeAt(s, i, alts[taken]) && x == s[i..next]
    ensures !here ==> x in GroupMatches(s, next, alts)
  {
    var m := MatchAt(s, i, alts);
    if m.Some? {
      taken, next := m.value, i + |alts[m.value]|;
      var rest := GroupMatches(s, next, alts);
      assert GroupMatches(s, i, alts) == [s[i..next]] + rest;
      here := x == s[i..next];
    } else {
      here, taken, next := false, 0, i + 1;
    }
  }

  /** `C++` and `C#` end in a non-word character, so the closing `\b` of the
      pattern holds after them only when a word character follows: "C++" at
      the end of a sentence or before a space is never reported. */
  lemma {:induction false} SymbolSkillsNeedWordAfter(s: string, i: nat, w: string)
    requires w == "C++" || w == "C#"
    requires AlternativeAt(s, i, w)
    ensures i + |w| < |s| && IsWordChar(s[i + |w|])
  {
    var e := i + |w| - 1;
    assert Lower(s[i..i + |w|])[|w| - 1] == LowerChar(s[e]);
    assert !IsWordChar(s[e]);
  }

  /** Every match of the first `n` groups, group by group. */
  function SkillMatches(text: string, n: nat): seq<string>
    requires n <= |SKILL_PATTERNS|
  {
    if n == 0 then [] else SkillMatches(text, n - 1) + GroupMatches(text, 0, SKILL_PATTERNS[n - 1])
  }

  /** A vocabulary word of the `extractSkills` patterns, up to ASCII case. */
  predicate IsSkillWord(x: string) {
    exists g, k :: 0 <= g < |SKILL_PATTERNS| && 0 <= k < |SKILL_PATTERNS[g]| && Lower(x) == Lower(SKILL_PATTERNS[g][k])
  }

  lemma {:induction false} SkillMatchesSound(text: string, n: nat, x: string)
    requires n <= |SKILL_PATTERNS| && x in SkillMatches(text, n)
    ensures IsSkillWord(x)
    ensures exists p :: OccursAt(text, x, p) && WordBoundaryAt(text, p) && WordBoundaryAt(text, p + |x|)
  {
    if x in GroupMatches(text, 0, SKILL_PATTERNS[n - 1]) {
      var p, k := GroupMatchesSound(text, 0, SKILL_PATTERNS[n - 1], x);
      assert 0 <= n - 1 < |SKILL_PATTERNS| && 0 <= k < |SKILL_PATTERNS[n - 1]|;
    } else {
      SkillMatchesSound(text, n - 1, x);
    }
  }

  /** Every skill `extractSkills` reports is a vocabulary word up to ASCII
      case, found in the text as a whole word, and reported once. */
  lemma {:induction false} ExtractedSkillsSound(text: string, x: string)
    requires x in Dedup(SkillMatches(text, |SKILL_PATTERNS|))
    ensures IsSkillWord(x)
    ensures exists p :: OccursAt(text, x, p) && WordBoundaryAt(text, p) && WordBoundaryAt(text, p + |x|)
  {
    SkillMatchesSound(text, |SKILL_PATTERNS|, x);
  }

  // ---------------------------------------------------------------------
  // The detector's state machine, as values
  // ---------------------------------------------------------------------

  /** The minimum interval between two detection passes, in milliseconds. */
  const THROTTLE_MS: int := 1000

  datatype JobInfo = JobInfo(
    url: string,
    siteName: Site,
    jobTitle: string,
    companyName: string,
    jobDescription: string,
    requirements: seq<string>)

  /** The record `extractJobInfo` builds for a matched site. */
  function JobRecord(site: SiteConfig, page: Page): JobInfo {
    JobInfo(page.url, site.name,
      FieldText(page, site.jobTitle),
      FieldText(page, site.companyName),
      DescriptionText(Some(site), page),
      RequirementsOf(page, site.requirements))
  }

  /** The four fields of a `JobDetector`. */
  datatype Detector = Detector(currentSite: Option<SiteConfig>, isDetected: bool, lastUrl: string, detectThrottle: int)

  /** The state after a step and the records it sent. */
  datatype Outcome = Outcome(after: Detector, sent: seq<JobInfo>)

  /** The application-page heuristic: an upload input or an upload keyword. */
  predicate LooksLikeApplication(site: Option<SiteConfig>, page: Page) {
    HasUploadInput(site, page) || HasUploadKeywords(site, page)
  }

  /** `checkForJobApplication`. */
  function ApplicationCheck(d: Detector, page: Page): Outcome {
    if d.currentSite.None? then Outcome(d, [])
    else if LooksLikeApplication(d.currentSite, page) && !d.isDetected then
      Outcome(d.(isDetected := true), [JobRecord(d.currentSite.value, page)])
    else Outcome(d, [])
  }

  /** `detectJobSite`. */
  function DetectPass(configs: seq<SiteConfig>, d: Detector, page: Page, now: int): Outcome {
    if now - d.detectThrottle < THROTTLE_MS then Outcome(d, [])
    else
      var d' := d.(detectThrottle := now, currentSite := FindSite(configs, page.url));
      if d'.currentSite.Some? then ApplicationCheck(d', page) else Outcome(d', [])
  }

  /** The `checkUrlChange` closure of `observePageChanges`. */
  function UrlChange(d: Detector, url: string): Detector {
    if url != d.lastUrl then d.(lastUrl := url, isDetected := false) else d
  }

  /** A throttled pass changes nothing; an unthrottled one stamps the clock,
      looks the site up afresh and sends one record exactly when a site is
      matched, the page looks like an application page and nothing was sent
      for this URL yet. It never touches `lastUrl` and never clears the flag. */
  lemma {:induction false} DetectPassEffect(configs: seq<SiteConfig>, d: Detector, page: Page, now: int)
    ensures var r := DetectPass(configs, d, page, now);
      && |r.sent| <= 1
      && r.after.lastUrl == d.lastUrl
      && (d.isDetected ==> r.after.isDetected && r.sent == [])
      && (now - d.detectThrottle < THROTTLE_MS ==> r == Outcome(d, []))
      && (now - d.detectThrottle >= THROTTLE_MS ==>
            && r.after.detectThrottle == now
            && r.after.currentSite == FindSite(configs, page.url)
            && (|r.sent| == 1 <==> FindSite(configs, page.url).Some? && LooksLikeApplication(FindSite(configs, page.url), page) && !d.isDetected)
            && (|r.sent| == 1 ==> r.sent[0] == JobRecord(FindSite(configs, page.url).value, page) && r.after.isDetected)
            && (r.sent == [] ==> r.after.isDetected == d.isDetected))
  {
  }

  /** With no matching site nothing is extracted or sent. */
  lemma {:induction false} NoSiteNoRecord(configs: seq<SiteConfig>, d: Detector, page: Page, now: int)
    requires FindSite(configs, page.url).None?
    ensures DetectPass(configs, d, page, now).sent == []
    ensures now - d.detectThrottle >= THROTTLE_MS ==> DetectPass(configs, d, page, now).after.currentSite.None?
  {
  }

  /** On a URL change the flag is cleared and the URL recorded; on the same
      URL nothing changes. The site and the throttle are never touched. */
  lemma {:induction false} UrlChangeEffect(d: Detector, url: string)
    ensures var d' := UrlChange(d, url);
      && d'.lastUrl == url
      && d'.currentSite == d.currentSite && d'.detectThrottle == d.detectThrottle
      && (url != d.lastUrl ==> !d'.isDetected)
      && (url == d.lastUrl ==> d' == d)
  {
  }

  // ---------------------------------------------------------------------
  // Runs of events
  // ---------------------------------------------------------------------

  /** What can happen to a detector: a detection pass (from the constructor,
      a settle timeout or a navigation) at a time, or a URL poll (the 2000 ms
      interval or a `popstate`). */
  datatype Event = Pass(page: Page, now: int) | Poll(url: string)

  function Step(configs: seq<SiteConfig>, d: Detector, e: Event): Outcome {
    match e
    case Pass(page, now) => DetectPass(configs, d, page, now)
    case Poll(url) => Outcome(UrlChange(d, url), [])
  }

  /** The state after a run of events and every record sent on the way. */
  function Run(configs: seq<SiteConfig>, d: Detector, events: seq<Event>): Outcome
    decreases |events|
  {
    if events == [] then Outcome(d, [])
    else
      var first := Step(configs, d, events[0]);
      var rest := Run(configs, first.after, events[1..]);
      Outcome(rest.after, first.sent + rest.sent)
  }

  /** Without a URL poll in between, any number of passes send at most one
      record, and none at all once one was sent for the current URL. */
  lemma {:induction false} AtMostOneRecordPerUrl(configs: seq<SiteConfig>, d: Detector, events: seq<Event>)
    requires forall k :: 0 <= k < |events| ==> events[k].Pass?
    ensures |Run(configs, d, events).sent| <= (if d.isDetected then 0 else 1)
    ensures d.isDetected ==> Run(configs, d, events).after.isDetected
    ensures Run(configs, d, events).after.lastUrl == d.lastUrl
    decreases |events|
  {
    if events != [] {
      var first := Step(configs, d, events[0]);
      DetectPassEffect(configs, d, events[0].page, events[0].now);
      AtMostOneRecordPerUrl(configs, first.after, events[1..]);
    }
  }

  /** Two passes less than the throttle interval apart run detection once. */
  lemma {:induction false} ThrottleWindow(configs: seq<SiteConfig>, d: Detector, p1: Page, t1: int, p2: Page, t2: int)
    requires t1 - d.detectThrottle >= THROTTLE_MS
    requires t1 <= t2 < t1 + THROTTLE_MS
    ensures Run(configs, d, [Pass(p1, t1), Pass(p2, t2)]) == DetectPass(configs, d, p1, t1)
  {
    var first := DetectPass(configs, d, p1, t1);
    assert [Pass(p1, t1), Pass(p2, t2)][1..] == [Pass(p2, t2)];
    assert Run(configs, first.after, [Pass(p2, t2)]) == Outcome(first.after, []);
  }

  /** A single-page-app navigation re-arms detection: after the URL poll sees
      the new address, an unthrottled pass on a matching application page
      sends that page's record, whatever was sent before. */
  lemma {:induction false} NavigationRearmsDetection(configs: seq<SiteConfig>, d: Detector, page: Page, now: int)
    requires page.url != d.lastUrl
    requires now - d.detectThrottle >= THROTTLE_MS
    requires FindSite(configs, page.url).Some? && LooksLikeApplication(FindSite(configs, page.url), page)
    ensures var r := Run(configs, d, [Poll(page.url), Pass(page, now)]);
      r.sent == [JobRecord(FindSite(configs, page.url).value, page)] && r.after.isDetected && r.after.lastUrl == page.url
  {
    var d1 := UrlChange(d, page.url);
    assert [Poll(page.url), Pass(page, now)][1..] == [Pass(page, now)];
    assert Run(configs, d1, [Pass(page, now)]) == Outcome(DetectPass(configs, d1, page, now).after, DetectPass(configs, d1, page, now).sent);
  }

  // ---------------------------------------------------------------------
  // The detector object
  // ---------------------------------------------------------------------

  class JobDetector {
    /** The site table the detector consults: `JOB_SITE_CONFIGS`. */
    const configs: seq<SiteConfig>
    var currentSite: Option<SiteConfig>
    var isDetected: bool
    var lastUrl: string
    var detectThrottle: int
    /** The `JOB_DETECTED` records handed to the runtime, oldest first. */
    var sent: seq<JobInfo>

    function State(): Detector
      reads this
    {
      Detector(currentSite, isDetected, lastUrl, detectThrottle)
    }

    /** Records the page's URL and runs a first detection pass. `now` is
      `Date.now()`, milliseconds since the epoch, so never negative. */
    constructor (page: Page, now: nat)
      ensures configs == JOB_SITE_CONFIGS
      ensures var r := DetectPass(JOB_SITE_CONFIGS, Detector(None, false, page.url, 0), page, now);
        State() == r.after && sent == r.sent
    {
      configs := JOB_SITE_CONFIGS;
      currentSite := None;
      isDetected := false;
      lastUrl := page.url;
      detectThrottle := 0;
      sent := [];
      new;
      DetectJobSite(page, now);
    }

    method DetectJobSite(page: Page, now: int)
      modifies this
      ensures var r := DetectPass(configs, old(State()), page, now);
        State() == r.after && sent == old(sent) + r.sent
    {
      if now - detectThrottle < THROTTLE_MS {
        return;
      }
      detectThrottle := now;
      currentSite := FindSite(configs, page.url);
      if currentSite.Some? {
        CheckForJobApplication(page);
      }
    }

    method CheckForJobApplication(page: Page)
      modifies this
      ensures var r := ApplicationCheck(old(State()), page);
        State() == r.after && sent == old(sent) + r.sent
    {
      if currentSite.None? {
        return;
      }
      var hasUploadInput := HasUploadInput(currentSite, page);
      var hasUploadKeywords := HasUploadKeywords(currentSite, page);
      if (hasUploadInput || hasUploadKeywords) && !isDetected {
        isDetected := true;
        var _ := ExtractJobInfo(page);
      }
    }

    /** Builds the record for the current site and sends it. */
    method ExtractJobInfo(page: Page) returns (info: Option<JobInfo>)
      modifies this`sent
      ensures currentSite.None? ==> info.None? && sent == old(sent)
      ensures currentSite.Some? ==> info == Some(JobRecord(currentSite.value, page)) && sent == old(sent) + [info.value]
    {
      if currentSite.None? {
        return None;
      }
      var site := currentSite.value;
      var title := ExtractText(site.jobTitle, page);
      var company := ExtractText(site.companyName, page);
      var description := ExtractJobDescription(page);
      var requirements := ExtractRequirements(page);
      var record := JobInfo(page.url, site.name, title, company, description, requirements);
      sent := sent + [record];
      info := Some(record);
    }

    /** `extractText`: the first selector that finds an element wins. */
    method ExtractText(selectors: seq<string>, page: Page) returns (text: string)
      ensures text == FieldText(page, selectors)
    {
      for i := 0 to |selectors|
        invariant forall j :: 0 <= j < i ==> !HasMatch(page, selectors[j])
      {
        var elements := QueryAll(page, selectors[i]);
        if |elements| > 0 {
          return Trim(elements[0]);
        }
      }
      return "";
    }

    /** `extractJobDescription`. */
    method ExtractJobDescription(page: Page) returns (text: string)
      ensures text == DescriptionText(currentSite, page)
    {
      if currentSite.None? {
        return "";
      }
      var selectors := currentSite.value.jobDescription;
      for i := 0 to |selectors|
        invariant forall j :: 0 <= j < i ==> !HasMatch(page, selectors[j])
      {
        var elements := QueryAll(page, selectors[i]);
        if |elements| > 0 {
          return CleanText(elements[0]);
        }
      }
      return "";
    }

    /** `extractRequirements`. */
    method ExtractRequirements(page: Page) returns (requirements: seq<string>)
      ensures requirements == RequirementsFor(currentSite, page)
    {
      if currentSite.None? {
        return [];
      }
      var selectors := currentSite.value.requirements;
      requirements := [];
      for i := 0 to |selectors|
        invariant requirements == RequirementsOf(page, selectors[..i])
      {
        var elements := QueryAll(page, selectors[i]);
        requirements := PushEntries(requirements, elements);
        assert selectors[..i + 1][..i] == selectors[..i];
      }
      assert selectors[..|selectors|] == selectors;
    }

    /** The inner `forEach` of `extractRequirements`: pushes the entry of
        each element found by one selector. */
    static method PushEntries(requirements: seq<string>, elements: seq<string>) returns (r: seq<string>)
      ensures r == requirements + KeptRequirements(elements)
    {
      r := requirements;
      for m := 0 to |elements|
        invariant r == requirements + FlatMap(elements[..m], Entry)
      {
        assert elements[..m + 1][..m] == elements[..m];
        assert FlatMap(elements[..m + 1], Entry) == FlatMap(elements[..m], Entry) + Entry(elements[m]);
        var text := Trim(elements[m]);
        if |text| > 10 {
          r := r + [CleanText(text)];
        }
      }
      assert elements[..|elements|] == elements;
    }

    /** `extractSkills`: every whole-word match of the four alternations, in
        group order, with the casing found in the text, each string once. */
    method ExtractSkills(text: string) returns (skills: seq<string>)
      ensures skills == Dedup(SkillMatches(text, |SKILL_PATTERNS|))
      ensures Distinct(skills)
    {
      skills := [];
      for g := 0 to |SKILL_PATTERNS|
        invariant skills == Dedup(SkillMatches(text, g))
      {
        var matches := GroupMatches(text, 0, SKILL_PATTERNS[g]);
        skills := AddSkills(skills, matches, SkillMatches(text, g));
      }
    }

    /** `matches.forEach(match => skills.add(match))` on the `Set` of
        skills, which holds the distinct strings of `seen` in first-insertion
        order. */
    static method AddSkills(skills: seq<string>, matches: seq<string>, ghost seen: seq<string>) returns (r: seq<string>)
      requires skills == Dedup(seen)
      ensures r == Dedup(seen + matches)
    {
      r := skills;
      assert seen + matches[..0] == seen;
      for m := 0 to |matches|
        invariant r == Dedup(seen + matches[..m])
      {
        ghost var before := seen + matches[..m];
        assert (before + [matches[m]])[..|before|] == before;
        assert seen + matches[..m + 1] == before + [matches[m]];
        if matches[m] !in r {
          r := r + [matches[m]];
        }
      }
      assert matches[..|matches|] == matches;
    }

    /** The `checkUrlChange` closure: on a new URL, record it, clear the flag
        and schedule a fresh detection pass after the settle delay. */
    method CheckUrlChange(page: Page) returns (redetectScheduled: bool)
      modifies this
      ensures State() == UrlChange(old(State()), page.url) && sent == old(sent)
      ensures redetectScheduled <==> page.url != old(lastUrl)
    {
      var currentUrl := page.url;
      redetectScheduled := false;
      if currentUrl != lastUrl {
        lastUrl := currentUrl;
        isDetected := false;
        redetectScheduled := true;
      }
    }
  }
}
