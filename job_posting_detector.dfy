/** The second, simpler job detector (chrome-extension/src/content-scripts/
    job-detector.ts): a case-insensitive URL-substring lookup of four job
    boards, a per-board table of selector groups, field extraction with
    sentinel defaults, requirement mining with three regular expressions and
    skill mining against a closed vocabulary. Its only field is the constant
    selector table, so the model has no object: the page is an abstract
    snapshot (module Dom) and the regular expressions are written out as the
    predicates and scanners below. */
module JobPostingDetector {
  import opened Common
  import opened Dom

  // ---------------------------------------------------------------------
  // Site lookup
  // ---------------------------------------------------------------------

  datatype Board = LinkedIn | Indeed | Glassdoor | Monster

  /** The `jobSites` list of `detectJobPosting`, in order. */
  const JOB_SITES: seq<string> := ["linkedin.com/jobs", "indeed.com", "glassdoor.com", "monster.com"]

  /** The board each entry of `JOB_SITES` stands for in `getCurrentJobSite`. */
  const BOARDS: seq<Board> := [LinkedIn, Indeed, Glassdoor, Monster]

  /** `detectJobPosting`: the lower-cased URL contains one of the site substrings. */
  predicate DetectJobPosting(url: string) {
    exists k :: 0 <= k < |JOB_SITES| && Contains(Lower(url), JOB_SITES[k])
  }

  /** `getCurrentJobSite`: the first board, in the order LinkedIn, Indeed,
      Glassdoor, Monster, whose substring the lower-cased URL contains. */
  function GetCurrentJobSite(url: string): (r: Option<Board>)
    ensures r.Some? ==> exists k ::
      && 0 <= k < |JOB_SITES|
      && r.value == BOARDS[k]
      && Contains(Lower(url), JOB_SITES[k])
      && forall j :: 0 <= j < k ==> !Contains(Lower(url), JOB_SITES[j])
  {
    var u := Lower(url);
    if Contains(u, JOB_SITES[0]) then Some(LinkedIn)
    else if Contains(u, JOB_SITES[1]) then Some(Indeed)
    else if Contains(u, JOB_SITES[2]) then Some(Glassdoor)
    else if Contains(u, JOB_SITES[3]) then Some(Monster)
    else None
  }

  /** The two lookups agree: a board is found exactly when a job posting is detected. */
  lemma CurrentSiteIffPosting(url: string)
    ensures GetCurrentJobSite(url).Some? <==> DetectJobPosting(url)
  {
    var u := Lower(url);
    if DetectJobPosting(url) {
      var k :| 0 <= k < |JOB_SITES| && Contains(u, JOB_SITES[k]);
      assert k == 0 || k == 1 || k == 2 || k == 3;
    }
  }

  // ---------------------------------------------------------------------
  // Field extraction
  // ---------------------------------------------------------------------

  /** One board's entry of `jobSiteSelectors`: each field is one selector
      group (a comma-separated list), queried as a whole. */
  datatype Selectors = Selectors(title: string, company: string, location: string, description: string)

  function SelectorsFor(board: Board): Selectors {
    match board
    case LinkedIn => Selectors(
      ".job-details-jobs-unified-top-card__job-title, .jobs-unified-top-card__job-title",
      ".job-details-jobs-unified-top-card__company-name, .jobs-unified-top-card__company-name",
      ".job-details-jobs-unified-top-card__bullet, .jobs-unified-top-card__bullet",
      ".jobs-description__content, .jobs-box__html-content")
    case Indeed => Selectors(
      "[data-testid=\"jobTitle\"], .jobTitle",
      "[data-testid=\"companyName\"], .companyName",
      "[data-testid=\"jobLocation\"], .locationsContainer",
      "#jobDescriptionText, .jobDescription")
    case Glassdoor => Selectors(
      ".css-17x2pwl, .jobTitle",
      ".css-l2wjgv, .employerName",
      ".css-1buaf54, .location",
      ".jobDescriptionContent, .desc")
    case Monster => Selectors(
      ".jobTitle, h1[data-testid=\"svx-jobTitle\"]",
      ".company, [data-testid=\"svx-companyName\"]",
      ".location, [data-testid=\"svx-jobLocation\"]",
      ".jobDescription, [data-testid=\"svx-jobDescription\"]")
  }

  /** What `getTextContent` returns for the texts of the elements found: the
      trimmed text of the first element whose trimmed text is not empty,
      `''` when there is none. */
  function FirstNonBlank(texts: seq<string>): (r: string)
    ensures Trimmed(r)
    ensures r == "" <==> forall k :: 0 <= k < |texts| ==> Trim(texts[k]) == ""
    ensures r != "" ==> exists k ::
      && 0 <= k < |texts|
      && r == Trim(texts[k])
      && forall j :: 0 <= j < k ==> Trim(texts[j]) == ""
  {
    if texts == [] then ""
    else if Trim(texts[0]) != "" then Trim(texts[0])
    else
      var rest := texts[1..];
      assert forall k :: 0 < k < |texts| ==> texts[k] == rest[k - 1];
      FirstNonBlank(rest)
  }

  /** `getTextContent`: walks the elements the selector finds, in document
      order, and returns at the first with non-blank text. */
  method GetTextContent(page: Page, selector: string) returns (text: string)
    ensures text == FirstNonBlank(QueryAll(page, selector))
  {
    var elements := QueryAll(page, selector);
    for i := 0 to |elements|
      invariant FirstNonBlank(elements[i..]) == FirstNonBlank(elements)
    {
      assert elements[i..][1..] == elements[i + 1..];
      var t := Trim(elements[i]);
      if t != "" {
        return t;
      }
    }
    assert elements[|elements|..] == [];
    return "";
  }

  /** `value || fallback` on strings: the empty string is falsy. */
  function OrElse(value: string, fallback: string): (r: string)
    ensures value != "" ==> r == value
    ensures value == "" ==> r == fallback
  {
    if value != "" then value else fallback
  }

  const TITLE_NOT_FOUND: string := "Job Title Not Found"
  const COMPANY_NOT_FOUND: string := "Company Not Found"
  const LOCATION_NOT_FOUND: string := "Location Not Found"
  const DESCRIPTION_NOT_FOUND: string := "Description Not Found"

  datatype JobData = JobData(
    title: string,
    company: string,
    location: string,
    description: string,
    requirements: seq<string>,
    skills: seq<string>)

  /** The record `extractJobData` returns on a recognised board: each field
      the text `getTextContent` finds or its sentinel, and the requirements
      and skills mined from the description as filled in (the sentinel
      included). */
  function JobDataFor(sel: Selectors, page: Page): (d: JobData)
    ensures d.title != "" && d.company != "" && d.location != "" && d.description != ""
    ensures |d.requirements| <= 10
  {
    var description := OrElse(FirstNonBlank(QueryAll(page, sel.description)), DESCRIPTION_NOT_FOUND);
    JobData(
      OrElse(FirstNonBlank(QueryAll(page, sel.title)), TITLE_NOT_FOUND),
      OrElse(FirstNonBlank(QueryAll(page, sel.company)), COMPANY_NOT_FOUND),
      OrElse(FirstNonBlank(QueryAll(page, sel.location)), LOCATION_NOT_FOUND),
      description,
      Requirements(description),
      Skills(COMMON_SKILLS, description))
  }

  /** `extractJobData`: nothing off a recognised board; otherwise every text
      field is either the trimmed text found or its sentinel, never empty. */
  method ExtractJobData(page: Page) returns (data: Option<JobData>)
    ensures data.None? <==> GetCurrentJobSite(page.url).None?
    ensures data.Some? ==> data.value == JobDataFor(SelectorsFor(GetCurrentJobSite(page.url).value), page)
  {
    var jobSite := GetCurrentJobSite(page.url);
    if jobSite.None? {
      return None;
    }
    var selectors := SelectorsFor(jobSite.value);
    var title := GetTextContent(page, selectors.title);
    var company := GetTextContent(page, selectors.company);
    var location := GetTextContent(page, selectors.location);
    var description := GetTextContent(page, selectors.description);
    title := OrElse(title, TITLE_NOT_FOUND);
    company := OrElse(company, COMPANY_NOT_FOUND);
    location := OrElse(location, LOCATION_NOT_FOUND);
    description := OrElse(description, DESCRIPTION_NOT_FOUND);
    var requirements := ExtractRequirements(description);
    var skills := ExtractSkills(COMMON_SKILLS, description);
    return Some(JobData(title, company, location, description, requirements, skills));
  }

  /** Every element found has blank text. */
  predicate AllBlank(texts: seq<string>) {
    forall k :: 0 <= k < |texts| ==> Trim(texts[k]) == ""
  }

  /** A field of the record: the sentinel when every element the selector
      group finds is blank (or none is found), and otherwise the trimmed text
      of the first element that is not. */
  lemma {:induction false} FieldOrSentinel(texts: seq<string>, sentinel: string)
    ensures AllBlank(texts) ==> OrElse(FirstNonBlank(texts), sentinel) == sentinel
    ensures !AllBlank(texts) ==> exists k ::
      && 0 <= k < |texts|
      && OrElse(FirstNonBlank(texts), sentinel) == Trim(texts[k]) != ""
      && forall j :: 0 <= j < k ==> Trim(texts[j]) == ""
  {
    if !AllBlank(texts) {
      var r := FirstNonBlank(texts);
      assert r != "";
      var k :| 0 <= k < |texts| && r == Trim(texts[k]) && forall j :: 0 <= j < k ==> Trim(texts[j]) == "";
    }
  }

  // ---------------------------------------------------------------------
  // extractRequirements
  // ---------------------------------------------------------------------

  /** The head of one of the three requirement patterns; each is followed by
      `[\s\S]*?(?=\n|$)`, the rest of the line. */
  datatype RequirementPattern =
    | Phrases(alts: seq<Word>)  // `(?:a|b|...)`
    | YearsOfExperience         // `(?:\d+\+?\s*years?)`

  const REQUIREMENT_PATTERNS: seq<RequirementPattern> := [
    Phrases(["required", "must have", "needed", "essential"]),
    Phrases(["experience with", "proficient in", "knowledge of"]),
    YearsOfExperience
  ]

  // The vocabulary has no duplicates. Each entry is told apart from the
  // other entries of its length by one or two of its characters, which
  // gives a function from the vocabulary back to the positions in it.

  /** The position of a vocabulary entry in `COMMON_SKILLS`, read off its
      length and at most two of its characters. */
  function SkillIndex(s: string): int {
    match |s|
    case 1 => 13  // r
    case 2 =>
      if s[0] == 'c' then 5  // c#
      else if s[0] == 'g' then 8  // go
      else -1
    case 3 =>
      if s[0] == 'c' then 4  // c++
      else if s[0] == 'p' then 6  // php
      else if s[0] == 's' then 15  // sql
      else if s[0] == 'v' then 17  // vue
      else if s[0] == 'a' then 38  // aws
      else if s[1] == 'c' then 40  // gcp
      else if s[1] == 'i' then 49  // git
      else if s[0] == 't' then 62  // tdd
      else -1
    case 4 =>
      if s[2] == 'v' then 2  // java
      else if s[2] == 'b' then 7  // ruby
      else if s[3] == 't' then 9  // rust
      else if s[0] == 's' then 27  // sass
      else if s[0] == 'l' then 28  // less
      else if s[1] == 'i' then 50  // jira
      else -1
    case 5 =>
      if s[1] == 'w' then 10  // swift
      else if s[0] == 's' && s[3] == 'l' then 12  // scala
      else if s[0] == 'r' && s[2] == 'a' then 16  // react
      else if s[3] == 's' then 22  // flask
      else if s[0] == 'b' then 30  // babel
      else if s[0] == 'm' then 31  // mysql
      else if s[2] == 'd' then 34  // redis
      else if s[1] == 'z' then 39  // azure
      else if s[0] == 's' && s[1] == 'l' then 52  // slack
      else if s[2] == 'g' then 53  // figma
      else if s[1] == 'g' then 57  // agile
      else if s[2] == 'r' then 58  // scrum
      else if s[0] == 'c' then 61  // ci/cd
      else if s[0] == 'e' then 71  // excel
      else -1
    case 6 =>
      if s[0] == 'p' then 1  // python
      else if s[4] == 'i' then 11  // kotlin
      else if s[0] == 'm' then 14  // matlab
      else if s[1] == 'j' then 21  // django
      else if s[1] == 'p' then 23  // spring
      else if s[0] == 'j' then 25  // jquery
      else if s[0] == 'o' then 36  // oracle
      else if s[2] == 'l' then 37  // sqlite
      else if s[2] == 'c' then 41  // docker
      else if s[1] == 'k' then 54  // sketch
      else if s[2] == 'n' then 59  // kanban
      else if s[1] == 'e' then 60  // devops
      else -1
    case 7 =>
      if s[2] == 'g' then 18  // angular
      else if s[0] == 'n' then 19  // node.js
      else if s[0] == 'e' then 20  // express
      else if s[0] == 'l' then 24  // laravel
      else if s[0] == 'w' then 29  // webpack
      else if s[0] == 'm' then 33  // mongodb
      else if s[0] == 'j' then 43  // jenkins
      else if s[2] == 's' then 45  // ansible
      else if s[0] == 't' then 69  // tableau
      else -1
    case 8 =>
      if s[0] == 'c' then 48  // circleci
      else if s[0] == 'b' then 67  // big data
      else if s[0] == 'p' then 70  // power bi
      else -1
    case 9 =>
      if s[0] == 'b' then 26  // bootstrap
      else if s[0] == 't' then 44  // terraform
      else if s[0] == 'g' then 47  // gitlab ci
      else if s[0] == 'p' then 55  // photoshop
      else if s[0] == 'a' then 68  // analytics
      else -1
    case 10 =>
      if s[0] == 'j' then 0  // javascript
      else if s[0] == 't' then 3  // typescript
      else if s[0] == 'p' then 32  // postgresql
      else if s[0] == 'k' then 42  // kubernetes
      else if s[0] == 'c' then 51  // confluence
      else -1
    case 11 => 56  // illustrator
    case 12 => 66  // data science
    case 13 =>
      if s[0] == 'e' then 35  // elasticsearch
      else if s[0] == 'm' then 63  // microservices
      else -1
    case 14 => 46  // github actions
    case 16 => 64  // machine learning
    case 23 => 65  // artificial intelligence
    case _ => -1
  }

  predicate IndexedFrom(xs: seq<string>, offset: int) {
    forall k :: 0 <= k < |xs| ==> SkillIndex(xs[k]) == offset + k
  }

  lemma {:induction false} IndexedAppend(xs: seq<string>, ys: seq<string>, offset: int)
    requires IndexedFrom(xs, offset) && IndexedFrom(ys, offset + |xs|)
    ensures IndexedFrom(xs + ys, offset)
  {
    forall k | 0 <= k < |xs + ys| ensures SkillIndex((xs + ys)[k]) == offset + k {
      if k >= |xs| {
        assert (xs + ys)[k] == ys[k - |xs|];
      }
    }
  }

  /** A list whose entries map back to their positions has no duplicates. */
  lemma IndexedDistinct(xs: seq<string>)
    requires IndexedFrom(xs, 0)
    ensures Distinct(xs)
  {
  }

  lemma ProgrammingLanguagesIndexed()
    ensures IndexedFrom(PROGRAMMING_LANGUAGES, 0)
  {
  }

  lemma WebTechnologiesIndexed()
    ensures IndexedFrom(WEB_TECHNOLOGIES, 16)
  {
  }

  lemma DatabasesIndexed()
    ensures IndexedFrom(DATABASES, 31)
  {
  }

  lemma CloudDevopsIndexed()
    ensures IndexedFrom(CLOUD_DEVOPS, 38)
  {
  }

  lemma ToolsIndexed()
    ensures IndexedFrom(TOOLS, 49)
  {
  }

  lemma MethodologiesIndexed()
    ensures IndexedFrom(METHODOLOGIES, 57)
  {
  }

  lemma DataAnalyticsIndexed()
    ensures IndexedFrom(DATA_ANALYTICS, 64)
  {
  }

  /** `COMMON_SKILLS` lists 72 different skills. */
  lemma CommonSkillsDistinct()
    ensures Distinct(COMMON_SKILLS)
  {
    ProgrammingLanguagesIndexed();
    WebTechnologiesIndexed();
    DatabasesIndexed();
    CloudDevopsIndexed();
    ToolsIndexed();
    MethodologiesIndexed();
    DataAnalyticsIndexed();
    var front := PROGRAMMING_LANGUAGES + WEB_TECHNOLOGIES;
    IndexedAppend(PROGRAMMING_LANGUAGES, WEB_TECHNOLOGIES, 0);
    IndexedAppend(front, DATABASES, 0);
    IndexedAppend(front + DATABASES, CLOUD_DEVOPS, 0);
    IndexedAppend(front + DATABASES + CLOUD_DEVOPS, TOOLS, 0);
    IndexedAppend(front + DATABASES + CLOUD_DEVOPS + TOOLS, METHODOLOGIES, 0);
    IndexedAppend(front + DATABASES + CLOUD_DEVOPS + TOOLS + METHODOLOGIES, DATA_ANALYTICS, 0);
    IndexedDistinct(COMMON_SKILLS);
  }

  /** `w` occurs at `i`, ignoring ASCII case (the `i` flag). */
  predicate PhraseAt(s: string, i: nat, w: string) {
    i + |w| <= |s| && Lower(s[i..i + |w|]) == Lower(w)
  }

  /** The length of the run of characters from `i` on that satisfy `p`. */
  function RunLen(s: string, i: nat, p: char -> bool): (n: nat)
    ensures i + n <= |s| || (i >= |s| && n == 0)
    ensures forall k :: i <= k < i + n ==> p(s[k])
    ensures i + n >= |s| || !p(s[i + n])
    decreases |s| - i
  {
    if i < |s| && p(s[i]) then 1 + RunLen(s, i + 1, p) else 0
  }

  /** Where the head of pattern `p` ends when it matches at `i`. For the
      phrases, the first alternative that matches is taken. For the years
      pattern the quantifiers `\d+`, `\+?` and `\s*` are greedy and
      backtracking into them can never help (a shorter digit run is followed
      by a digit, a skipped `+` by a `+`, a shorter space run by whitespace,
      none of which starts `year`), so the one greedy attempt decides. */
  function HeadEnd(p: RequirementPattern, s: string, i: nat): (r: Option<nat>)
    ensures r.Some? ==> i < r.value <= |s|
  {
    match p
    case Phrases(alts) =>
      (match FindIndex(alts, (w: Word) => PhraseAt(s, i, w))
       case Some(k) => Some(i + |alts[k]|)
       case None => None)
    case YearsOfExperience =>
      var digits := RunLen(s, i, IsDigit);
      if digits == 0 then None
      else
        var j := i + digits;
        var j := if j < |s| && s[j] == '+' then j + 1 else j;
        var j := j + RunLen(s, j, IsSpace);
        if PhraseAt(s, j, "year") then
          Some(if j + 4 < |s| && LowerChar(s[j + 4]) == 's' then j + 5 else j + 4)
        else None
  }

  /** `(?=\n|$)` reached lazily: the first position from `e` on that is a
      line feed or the end of the text (no `m` flag, so `$` is only the end). */
  function LineEnd(s: string, e: nat): (k: nat)
    requires e <= |s|
    ensures e <= k <= |s|
    ensures k == |s| || s[k] == '\n'
    ensures forall j :: e <= j < k ==> s[j] != '\n'
    decreases |s| - e
  {
    if e == |s| || s[e] == '\n' then e else LineEnd(s, e + 1)
  }

  /** `s.match(pattern)` with the `g` flag, scanning from `i`: at the leftmost
      position where the head matches, the match runs to the end of the line,
      and the scan resumes there. */
  function Matches(p: RequirementPattern, s: string, i: nat): seq<string>
    decreases |s| - i
  {
    if i >= |s| then []
    else match HeadEnd(p, s, i)
      case Some(e) =>
        var end := LineEnd(s, e);
        [s[i..end]] + Matches(p, s, end)
      case None => Matches(p, s, i + 1)
  }

  /** Every match starts where the pattern's head matches, at some `j`
      from `i` on, and runs up to, not including, the next line feed after
      the head, or the end. */
  lemma {:induction false} MatchesShape(p: RequirementPattern, s: string, i: nat, x: string) returns (j: nat)
    requires x in Matches(p, s, i)
    ensures i <= j && HeadEnd(p, s, j).Some? && x == s[j..LineEnd(s, HeadEnd(p, s, j).value)]
    decreases |s| - i
  {
    assert i < |s|;
    match HeadEnd(p, s, i)
    case Some(e) =>
      var end := LineEnd(s, e);
      if x == s[i..end] {
        j := i;
      } else {
        assert x in Matches(p, s, end);
        j := MatchesShape(p, s, end, x);
      }
    case None =>
      assert x in Matches(p, s, i + 1);
      j := MatchesShape(p, s, i + 1, x);
  }

  /** The scan is leftmost: when the head first matches at `j`, the first
      match found is the one at `j`. */
  lemma {:induction false} MatchesLeftmost(p: RequirementPattern, s: string, i: nat, j: nat)
    requires i <= j && HeadEnd(p, s, j).Some?
    requires forall k :: i <= k < j ==> HeadEnd(p, s, k).None?
    ensures Matches(p, s, i) != []
    ensures Matches(p, s, i)[0] == s[j..LineEnd(s, HeadEnd(p, s, j).value)]
    decreases j - i
  {
    if i < j {
      assert HeadEnd(p, s, i).None?;
      MatchesLeftmost(p, s, i + 1, j);
    }
  }

  /** `x` occurs at `j`, starts with phrase `alts[k]` up to ASCII case,
      holds no line feed after it and is followed by a line feed or the end. */
  predicate PhraseLineAt(alts: seq<Word>, s: string, x: string, j: int, k: int) {
    && 0 <= k < |alts|
    && OccursAt(s, x, j)
    && |alts[k]| <= |x|
    && Lower(x[..|alts[k]|]) == Lower(alts[k])
    && (j + |x| == |s| || s[j + |x|] == '\n')
    && forall m :: |alts[k]| <= m < |x| ==> x[m] != '\n'
  }

  /** A match of a phrase pattern runs from one of its phrases, matched up
      to ASCII case, to the end of that line. */
  lemma PhraseMatchShape(alts: seq<Word>, s: string, x: string)
    requires x in Matches(Phrases(alts), s, 0)
    ensures exists j, k :: PhraseLineAt(alts, s, x, j, k)
  {
    var j := MatchesShape(Phrases(alts), s, 0, x);
    var k := PhraseHead(alts, s, j);
    var n := |alts[k]|;
    LineSlice(s, j, n, x);
    assert PhraseLineAt(alts, s, x, j, k);
  }

  /** The slice from `j` to the end of the line that starts `n` characters
      later: its first `n` characters are those at `j`, and it holds no line
      feed after them. */
  lemma LineSlice(s: string, j: nat, n: nat, x: string)
    requires j + n <= |s| && x == s[j..LineEnd(s, j + n)]
    ensures |x| >= n && x[..n] == s[j..j + n]
    ensures j + |x| == |s| || s[j + |x|] == '\n'
    ensures forall m :: n <= m < |x| ==> x[m] != '\n'
  {
    var end := LineEnd(s, j + n);
    assert |x| == end - j;
    assert forall m :: n <= m < |x| ==> x[m] == s[j + m];
  }

  /** The head of a phrase pattern is one of its phrases. */
  lemma PhraseHead(alts: seq<Word>, s: string, j: nat) returns (k: nat)
    requires HeadEnd(Phrases(alts), s, j).Some?
    ensures k < |alts| && PhraseAt(s, j, alts[k]) && HeadEnd(Phrases(alts), s, j) == Some(j + |alts[k]|)
  {
    k := FindIndex(alts, (w: Word) => PhraseAt(s, j, w)).value;
  }

  /** Every match, trimmed, for each pattern in turn. */
  function TrimAll(xs: seq<string>): (r: seq<string>)
    ensures |r| == |xs|
    ensures forall k :: 0 <= k < |xs| ==> r[k] == Trim(xs[k])
  {
    if xs == [] then [] else TrimAll(xs[..|xs| - 1]) + [Trim(xs[|xs| - 1])]
  }

  /** The trimmed matches of the first `n` patterns, pattern by pattern. */
  function PatternEntries(s: string, n: nat): seq<string>
    requires n <= |REQUIREMENT_PATTERNS|
  {
    if n == 0 then [] else PatternEntries(s, n - 1) + TrimAll(Matches(REQUIREMENT_PATTERNS[n - 1], s, 0))
  }

  /** What `extractRequirements` returns: the first ten entries. */
  function Requirements(description: string): (r: seq<string>)
    ensures |r| <= 10
    ensures var all := PatternEntries(description, |REQUIREMENT_PATTERNS|); |r| <= |all| && r == all[..|r|]
    ensures var all := PatternEntries(description, |REQUIREMENT_PATTERNS|); |r| == if |all| < 10 then |all| else 10
  {
    Take(PatternEntries(description, |REQUIREMENT_PATTERNS|), 10)
  }

  /** Each entry is the trimmed text of a match of one of the patterns. */
  lemma {:induction false} PatternEntriesFromMatches(s: string, n: nat, x: string)
    requires n <= |REQUIREMENT_PATTERNS| && x in PatternEntries(s, n)
    ensures exists g, y :: 0 <= g < n && y in Matches(REQUIREMENT_PATTERNS[g], s, 0) && x == Trim(y)
  {
    var ms := Matches(REQUIREMENT_PATTERNS[n - 1], s, 0);
    if x in TrimAll(ms) {
      var m :| 0 <= m < |ms| && TrimAll(ms)[m] == x;
      assert ms[m] in ms;
    } else {
      PatternEntriesFromMatches(s, n - 1, x);
    }
  }

  /** Every requirement is trimmed and is the trimmed text of a match. */
  lemma RequirementsFromMatches(description: string, x: string)
    requires x in Requirements(description)
    ensures Trimmed(x)
    ensures exists g, y :: 0 <= g < |REQUIREMENT_PATTERNS| && y in Matches(REQUIREMENT_PATTERNS[g], description, 0) && x == Trim(y)
  {
    var all := PatternEntries(description, |REQUIREMENT_PATTERNS|);
    var r := Requirements(description);
    var m :| 0 <= m < |r| && r[m] == x;
    assert all[m] == x;
    PatternEntriesFromMatches(description, |REQUIREMENT_PATTERNS|, x);
  }

  /** `extractRequirements`: each pattern's matches, trimmed, appended in
      pattern order, then cut to ten. */
  method ExtractRequirements(description: string) returns (requirements: seq<string>)
    ensures requirements == Requirements(description)
  {
    var all: seq<string> := [];
    for n := 0 to |REQUIREMENT_PATTERNS|
      invariant all == PatternEntries(description, n)
    {
      var matches := Matches(REQUIREMENT_PATTERNS[n], description, 0);
      all := PushTrimmed(all, matches);
    }
    requirements := Take(all, 10);
  }

  /** `requirements.push(...matches.map(match => match.trim()))`. */
  method PushTrimmed(requirements: seq<string>, matches: seq<string>) returns (r: seq<string>)
    ensures r == requirements + TrimAll(matches)
  {
    r := requirements;
    for m := 0 to |matches|
      invariant r == requirements + TrimAll(matches[..m])
    {
      assert matches[..m + 1][..m] == matches[..m];
      r := r + [Trim(matches[m])];
    }
    assert matches[..|matches|] == matches;
  }

  // ---------------------------------------------------------------------
  // extractSkills
  // ---------------------------------------------------------------------

  /** `commonSkills`, in order, grouped as the source groups them. */
  const COMMON_SKILLS: seq<string> :=
    PROGRAMMING_LANGUAGES + WEB_TECHNOLOGIES + DATABASES + CLOUD_DEVOPS + TOOLS + METHODOLOGIES + DATA_ANALYTICS

  const PROGRAMMING_LANGUAGES: seq<string> := [
    "javascript", "python", "java", "typescript", "c++", "c#", "php", "ruby", "go", "rust",
    "swift", "kotlin", "scala", "r", "matlab", "sql"]
  const WEB_TECHNOLOGIES: seq<string> := [
    "react", "vue", "angular", "node.js", "express", "django", "flask", "spring", "laravel",
    "jquery", "bootstrap", "sass", "less", "webpack", "babel"]
  const DATABASES: seq<string> := ["mysql", "postgresql", "mongodb", "redis", "elasticsearch", "oracle", "sqlite"]
  const CLOUD_DEVOPS: seq<string> := [
    "aws", "azure", "gcp", "docker", "kubernetes", "jenkins", "terraform", "ansible",
    "github actions", "gitlab ci", "circleci"]
  const TOOLS: seq<string> := ["git", "jira", "confluence", "slack", "figma", "sketch", "photoshop", "illustrator"]
  const METHODOLOGIES: seq<string> := ["agile", "scrum", "kanban", "devops", "ci/cd", "tdd", "microservices"]
  const DATA_ANALYTICS: seq<string> := [
    "machine learning", "artificial intelligence", "data science", "big data", "analytics",
    "tableau", "power bi", "excel"]

  /** `w` occurs at `i` as a whole word, ignoring ASCII case: `\b` before,
      the escaped skill, `\b` after. */
  predicate WholeWordAt(t: string, i: int, w: string) {
    0 <= i && i + |w| <= |t| && Lower(t[i..i + |w|]) == Lower(w)
    && WordBoundaryAt(t, i) && WordBoundaryAt(t, i + |w|)
  }

  /** `new RegExp('\\b' + escaped(skill) + '\\b', 'i').test(description.toLowerCase())`. */
  predicate SkillFound(description: string, skill: string) {
    exists i :: 0 <= i <= |description| && WholeWordAt(Lower(description), i, skill)
  }

  /** The skills of the vocabulary found in the description, in vocabulary order. */
  function Skills(vocabulary: seq<string>, description: string): (r: seq<string>)
    ensures forall x :: x in r <==> x in vocabulary && SkillFound(description, x)
  {
    Filter(vocabulary, (skill: string) => SkillFound(description, skill))
  }

  /** `extractSkills`, over a given vocabulary (the source's is `COMMON_SKILLS`):
      the vocabulary entries found, as spelled in the vocabulary. */
  method ExtractSkills(vocabulary: seq<string>, description: string) returns (foundSkills: seq<string>)
    ensures foundSkills == Skills(vocabulary, description)
  {
    foundSkills := [];
    var text := Lower(description);
    for n := 0 to |vocabulary|
      invariant foundSkills == Skills(vocabulary[..n], description)
    {
      assert vocabulary[..n + 1][..n] == vocabulary[..n];
      var skill := vocabulary[n];
      var found := exists i :: 0 <= i <= |text| && WholeWordAt(text, i, skill);
      if found {
        foundSkills := foundSkills + [skill];
      }
    }
    assert vocabulary[..|vocabulary|] == vocabulary;
  }

  /** A subsequence of a list without duplicates has none. */
  lemma {:induction false} FilterDistinct<T(!new)>(xs: seq<T>, p: T -> bool)
    requires Distinct(xs)
    ensures Distinct(Filter(xs, p))
  {
    if xs != [] {
      var init := xs[..|xs| - 1];
      assert Distinct(init) by {
        forall i, j | 0 <= i < j < |init| ensures init[i] != init[j] {
          assert init[i] == xs[i] && init[j] == xs[j];
        }
      }
      FilterDistinct(init, p);
      var last := xs[|xs| - 1];
      assert last !in init by {
        forall i | 0 <= i < |init| ensures init[i] != last {
          assert init[i] == xs[i];
        }
      }
    }
  }

  /** The skills found keep vocabulary order: `Skills` is the vocabulary
      with the entries not found dropped, so a vocabulary without duplicates
      yields skills without duplicates. */
  lemma SkillsDistinct(vocabulary: seq<string>, description: string)
    requires Distinct(vocabulary)
    ensures Distinct(Skills(vocabulary, description))
  {
    FilterDistinct(vocabulary, (skill: string) => SkillFound(description, skill));
  }

  /** The skills `extractJobData` reports have no duplicates. */
  lemma ExtractedSkillsDistinct(description: string)
    ensures Distinct(Skills(COMMON_SKILLS, description))
  {
    CommonSkillsDistinct();
    SkillsDistinct(COMMON_SKILLS, description);
  }

  /** `c++` and `c#` end in a non-word character, so the closing `\b` only
      holds when a word character follows them: "C++ developer" does not
      yield `c++`, "c++a" does. */
  lemma SymbolSkillNeedsWordAfter(description: string, skill: string)
    requires skill == "c++" || skill == "c#"
    requires SkillFound(description, skill)
    ensures exists i :: WholeWordAt(Lower(description), i, skill) && i + |skill| < |description| && IsWordChar(description[i + |skill|])
  {
    var t := Lower(description);
    var i :| 0 <= i <= |t| && WholeWordAt(t, i, skill);
    var e := i + |skill| - 1;
    assert Lower(t[i..i + |skill|])[|skill| - 1] == LowerChar(t[e]);
    assert !IsWordChar(t[e]);
    assert IsWordChar(t[i + |skill|]);
  }

  /** A skill that starts and ends with a word character is only found
      standing alone: the characters on either side are not word characters,
      so `java` is not found inside "javascript". */
  lemma WordSkillStandsAlone(description: string, skill: string, i: int)
    requires skill != [] && IsWordChar(skill[0]) && IsWordChar(skill[|skill| - 1])
    requires WholeWordAt(Lower(description), i, skill)
    ensures i == 0 || !IsWordChar(description[i - 1])
    ensures i + |skill| == |description| || !IsWordChar(description[i + |skill|])
  {
    var t := Lower(description);
    var n := |skill|;
    assert Lower(t[i..i + n])[0] == LowerChar(t[i]);
    assert Lower(t[i..i + n])[n - 1] == LowerChar(t[i + n - 1]);
  }
}
