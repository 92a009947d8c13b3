# Smart Resume Editor: the detection, matching and editing core

This project models in Dafny the deterministic core of the Smart Resume
Editor browser extension and its shared utilities. It covers six pieces.

- **The table-driven job-site detector** (`JobSiteDetector`). It injects itself into every page. It holds:
  - a table of six job sites;
  - a detector object with the matched site, an "already detected on this URL" flag, the last URL seen and a throttle timestamp.

  Detection passes run at most once a second. A pass looks the URL up in the table and applies an application-page heuristic: an upload input, or an upload keyword in the body text. It sends one `JOB_DETECTED` record per URL. The record's fields come from "first selector wins" extraction, requirement mining and `cleanText`. A URL poll clears the flag when the address changes.
- **The second, simpler detector** (`JobPostingDetector`). It does:
  - a case-insensitive URL-substring lookup of four boards;
  - field extraction with sentinel defaults;
  - requirement mining with three regular expressions, capped at ten;
  - skill mining against a closed vocabulary with whole-word matching.
- **The service worker's pure helpers** (`ServiceWorker`):
  - the case-sensitive job-site URL test;
  - the skill-match analysis: a matched/missing partition, a rounded percentage and up to three recommendation lines.
- **The shared utilities** (`Utils`):
  - the e-mail shape check;
  - the LaTeX sanitiser that strips seven dangerous commands;
  - keyword extraction;
  - the set-intersection match score.
- **The sidebar panel** (`SidePanel`). Its state is a class. Its handlers update that state: editing the resume, applying a suggestion (first-occurrence `replace`, then mark it applied by id), toggling dark mode, and the loading flag around a job analysis.
- **The LaTeX editor** (`LaTeXEditor`): inserting a template at the selection (a splice that moves the cursor), and the status-bar summary.

Four modules hold the shared pieces:

- `Common` holds the JavaScript string and array built-ins the core uses, with case folding on ASCII letters only:
  - `toLowerCase`, `trim`, `includes`, `indexOf`;
  - `\s` and `\w`;
  - `filter`, `find`, `join`, `slice`;
  - insertion-ordered `Set` dedup;
  - `Math.round` of a percentage, done in integers.
- `Dom` models a page as a snapshot: a map from selector to the texts of the elements it finds, in document order, plus the body text and the URL.
- The clock is a `now` argument.
- The `JOB_DETECTED` messages the first detector sends to the browser runtime are recorded in its `sent` field. Of the requests to the local server, only the optimize-resume request is recorded, in the side panel's `requests` field; its reply is a parameter. The analyze-job request is not recorded: only its parsed reply enters, as the `analysis` parameter of `AnalyzeJob`. The compile request is not modelled.

Each regular expression the core uses is written out as its own predicate or scanner:

- the URL patterns;
- `/\s+/g` and `/[\r\n]+/g`;
- `/\b(...)\b/gi`;
- the three requirement patterns with their lazy `[\s\S]*?(?=\n|$)` tail;
- `\b\w+\b`;
- the sanitiser's `\\name\b` with `gi`;
- the e-mail pattern.

The verified sanitiser has a property worth noting. A removal can never splice a new occurrence of a dangerous command together. A match must be followed by a non-word character or the end of the text, so the two sides of a removal cannot complete a command name across the seam (`RemoveAllLeavesNone`). The output is therefore free of all seven commands, and the sanitiser is idempotent.

## Model

| member | source | states |
|---|---|---|
| JobSiteDetector.FindSite | chrome-extension/content-scripts/job-detector.ts:210-212 | The site found is the first config of the table, in declaration order, with some URL pattern matching the URL; none exactly when no config matches |
| JobSiteDetector.CollapseSpaces | chrome-extension/content-scripts/job-detector.ts:328 | `\s+` → `' '` never lengthens the text, keeps it empty exactly when it was, keeps whether it starts with whitespace, and leaves only single plain spaces |
| JobSiteDetector.JoinLineBreaksWithoutBreaks | chrome-extension/content-scripts/job-detector.ts:329 | The `[\r\n]+` pass changes nothing on text without line breaks |
| JobSiteDetector.CleanText | chrome-extension/content-scripts/job-detector.ts:326-331 | The result has no whitespace at either end, no two adjacent whitespace characters, no whitespace other than spaces and no `\r` or `\n` |
| JobSiteDetector.CleanTextOfClean | chrome-extension/content-scripts/job-detector.ts:326-331 | Trimmed, single-spaced text is its own `cleanText` |
| JobSiteDetector.CleanTextIdempotent | chrome-extension/content-scripts/job-detector.ts:326-331 | `cleanText(cleanText(s)) == cleanText(s)` |
| JobSiteDetector.FirstFound | chrome-extension/content-scripts/job-detector.ts:286-294 | The text of the element found by the first selector that finds one, whatever that text is; none exactly when no selector finds anything |
| JobSiteDetector.FieldText | chrome-extension/content-scripts/job-detector.ts:286-294 | `''` when no selector finds an element; otherwise the trimmed text of the element found by the first selector that finds one |
| JobSiteDetector.DescriptionText | chrome-extension/content-scripts/job-detector.ts:296-306 | `''` without a site, and `''` when no description selector finds an element; otherwise `cleanText` of the text found by the first selector that finds one, which is trimmed and single-spaced |
| JobSiteDetector.Entry | chrome-extension/content-scripts/job-detector.ts:316-319 | An element yields one entry exactly when its trimmed text is longer than ten characters, and none otherwise; the entry is `cleanText` of the trimmed text |
| JobSiteDetector.RequirementsExactly | chrome-extension/content-scripts/job-detector.ts:308-324 | A string is an entry exactly when some element found by some requirement selector yields it |
| JobSiteDetector.RequirementsClean | chrome-extension/content-scripts/job-detector.ts:313-320 | Every entry is trimmed, single-spaced and free of line breaks |
| JobSiteDetector.RequirementMayShrink | chrome-extension/content-scripts/job-detector.ts:316-318 | The length test runs before `cleanText`: an element of more than ten characters can yield a shorter entry, one character shorter for each extra space in a run |
| JobSiteDetector.MatchAt | chrome-extension/content-scripts/job-detector.ts:335-338 | A `\b(...)\b` group takes, at a word boundary, the first alternative that matches up to ASCII case and is followed by a word boundary; none when none does |
| JobSiteDetector.GroupMatchesSound | chrome-extension/content-scripts/job-detector.ts:343-347 | Each match of a group is a whole-word occurrence in the text of one of its alternatives, up to ASCII case |
| JobSiteDetector.SymbolSkillsNeedWordAfter | chrome-extension/content-scripts/job-detector.ts:335 | `C++` and `C#` only match when a word character follows them |
| JobSiteDetector.SkillMatchesSound | chrome-extension/content-scripts/job-detector.ts:343-348 | Every match of the four groups is a vocabulary word up to case and occurs in the text as a whole word |
| JobSiteDetector.ExtractedSkillsSound | chrome-extension/content-scripts/job-detector.ts:333-351 | Every skill reported is a vocabulary word up to ASCII case, found in the text with that casing as a whole word |
| JobSiteDetector.DetectPassEffect | chrome-extension/content-scripts/job-detector.ts:199-243 | A throttled pass changes nothing. An unthrottled one stamps the clock and looks the site up afresh. It sends exactly one record (the page's) exactly when a site matches, the page looks like an application page and the flag was clear, and then sets the flag. It never touches `lastUrl` |
| JobSiteDetector.NoSiteNoRecord | chrome-extension/content-scripts/job-detector.ts:210-221 | With no matching site nothing is sent, and an unthrottled pass leaves no current site |
| JobSiteDetector.UrlChangeEffect | chrome-extension/content-scripts/job-detector.ts:397-411 | On a new URL the flag is cleared and the URL recorded; on the same URL nothing changes; site and throttle are untouched |
| JobSiteDetector.AtMostOneRecordPerUrl | chrome-extension/content-scripts/job-detector.ts:224-243 | Any run of passes without a URL poll sends at most one record, and none once the flag is set |
| JobSiteDetector.ThrottleWindow | chrome-extension/content-scripts/job-detector.ts:201-205 | Two passes less than 1000 ms apart run detection once |
| JobSiteDetector.NavigationRearmsDetection | chrome-extension/content-scripts/job-detector.ts:395-421 | After a URL poll sees a new address, an unthrottled pass on a matching application page sends that page's record |
| JobSiteDetector.JobDetector.constructor | chrome-extension/content-scripts/job-detector.ts:192-197 | Records the page's URL, then runs a first detection pass from the initial fields |
| JobSiteDetector.JobDetector.DetectJobSite | chrome-extension/content-scripts/job-detector.ts:199-222 | The new fields and the records sent are those of the detection pass on the old fields |
| JobSiteDetector.JobDetector.CheckForJobApplication | chrome-extension/content-scripts/job-detector.ts:224-243 | Sets the flag and sends the record exactly when a site is set, the heuristic holds and the flag was clear |
| JobSiteDetector.JobDetector.ExtractJobInfo | chrome-extension/content-scripts/job-detector.ts:264-284 | Without a site nothing is built or sent; otherwise the page's record is returned and appended to what was sent |
| JobSiteDetector.JobDetector.ExtractText | chrome-extension/content-scripts/job-detector.ts:286-294 | The loop with early return computes the first-selector-wins text |
| JobSiteDetector.JobDetector.ExtractJobDescription | chrome-extension/content-scripts/job-detector.ts:296-306 | The loop computes the cleaned description of the current site |
| JobSiteDetector.JobDetector.ExtractRequirements | chrome-extension/content-scripts/job-detector.ts:308-324 | The nested loops push the entries selector by selector, in document order |
| JobSiteDetector.JobDetector.PushEntries | chrome-extension/content-scripts/job-detector.ts:315-320 | The inner `forEach` appends the entry of each element found |
| JobSiteDetector.JobDetector.ExtractSkills | chrome-extension/content-scripts/job-detector.ts:333-351 | The result is the matches of the four groups, in group order, each distinct string once, in first-insertion order |
| JobSiteDetector.JobDetector.AddSkills | chrome-extension/content-scripts/job-detector.ts:346 | Adding matches to the insertion-ordered set extends its distinct contents in order |
| JobSiteDetector.JobDetector.CheckUrlChange | chrome-extension/content-scripts/job-detector.ts:397-412 | Applies the URL-change step; a fresh pass is scheduled exactly when the URL changed |
| JobPostingDetector.GetCurrentJobSite | chrome-extension/src/content-scripts/job-detector.ts:58-67 | The board found is the first, in the order LinkedIn, Indeed, Glassdoor, Monster, whose substring the lower-cased URL contains |
| JobPostingDetector.CurrentSiteIffPosting | chrome-extension/src/content-scripts/job-detector.ts:44-67 | A board is found exactly when `detectJobPosting` holds |
| JobPostingDetector.FirstNonBlank | chrome-extension/src/content-scripts/job-detector.ts:100-108 | The trimmed text of the first element whose trimmed text is not empty, skipping blank ones; `''` exactly when all are blank |
| JobPostingDetector.GetTextContent | chrome-extension/src/content-scripts/job-detector.ts:100-108 | The loop with early return computes that text |
| JobPostingDetector.JobDataFor | chrome-extension/src/content-scripts/job-detector.ts:69-93 | No text field of the record is empty, and there are at most ten requirements |
| JobPostingDetector.ExtractJobData | chrome-extension/src/content-scripts/job-detector.ts:69-98 | Null exactly when no board is found; otherwise the record built from that board's selectors |
| JobPostingDetector.FieldOrSentinel | chrome-extension/src/content-scripts/job-detector.ts:78-81 | A field is its sentinel when every element found is blank, and otherwise the trimmed text of the first element that is not blank |
| JobPostingDetector.HeadEnd | chrome-extension/src/content-scripts/job-detector.ts:116-118 | Where a pattern's head ends when it matches at a position, always after that position |
| JobPostingDetector.LineEnd | chrome-extension/src/content-scripts/job-detector.ts:116-118 | The lazy `(?=\n\|$)` stops at the first line feed at or after the head's end, or at the end of the text |
| JobPostingDetector.MatchesShape | chrome-extension/src/content-scripts/job-detector.ts:121-125 | Each match starts where the head matches and runs up to, not including, the next line feed or the end |
| JobPostingDetector.MatchesLeftmost | chrome-extension/src/content-scripts/job-detector.ts:121-125 | The first match is at the leftmost position where the head matches |
| JobPostingDetector.PhraseMatchShape | chrome-extension/src/content-scripts/job-detector.ts:116-117 | A match of a phrase pattern starts with one of its phrases, up to case, and runs to the end of that line |
| JobPostingDetector.TrimAll | chrome-extension/src/content-scripts/job-detector.ts:124 | `matches.map(m => m.trim())` |
| JobPostingDetector.Requirements | chrome-extension/src/content-scripts/job-detector.ts:110-129 | The first `min(10, n)` entries of the pattern-by-pattern list of `n` entries, as `slice(0, 10)` keeps them |
| JobPostingDetector.PatternEntriesFromMatches | chrome-extension/src/content-scripts/job-detector.ts:121-126 | Every entry is the trimmed text of a match of one of the patterns |
| JobPostingDetector.RequirementsFromMatches | chrome-extension/src/content-scripts/job-detector.ts:110-129 | Every requirement is trimmed and is the trimmed text of a match of one of the three patterns |
| JobPostingDetector.ExtractRequirements | chrome-extension/src/content-scripts/job-detector.ts:110-129 | The `forEach`/`push` loop computes the capped list |
| JobPostingDetector.PushTrimmed | chrome-extension/src/content-scripts/job-detector.ts:124 | The spread `push` appends the trimmed matches in order |
| JobPostingDetector.Skills | chrome-extension/src/content-scripts/job-detector.ts:131-170 | A string is reported exactly when it is in the vocabulary and occurs as a whole word, case-insensitively, in the description |
| JobPostingDetector.ExtractSkills | chrome-extension/src/content-scripts/job-detector.ts:159-169 | The loop computes the vocabulary entries found, as spelled and in vocabulary order |
| JobPostingDetector.FilterDistinct | chrome-extension/src/content-scripts/job-detector.ts:162-167 | Keeping some entries of a list without duplicates leaves none |
| JobPostingDetector.SkillsDistinct | chrome-extension/src/content-scripts/job-detector.ts:131-170 | A vocabulary without duplicates yields skills without duplicates |
| JobPostingDetector.CommonSkillsDistinct | chrome-extension/src/content-scripts/job-detector.ts:131-157 | The 72 entries of `COMMON_SKILLS` are pairwise different |
| JobPostingDetector.ExtractedSkillsDistinct | chrome-extension/src/content-scripts/job-detector.ts:131-170 | The skills found with `COMMON_SKILLS` have no duplicates, for every description |
| JobPostingDetector.SymbolSkillNeedsWordAfter | chrome-extension/src/content-scripts/job-detector.ts:163-164 | `c++` and `c#` are only found when a word character follows them |
| JobPostingDetector.WordSkillStandsAlone | chrome-extension/src/content-scripts/job-detector.ts:163-164 | A word skill is only found with no word character on either side (`java` is not found in "javascript") |
| ServiceWorker.JobSiteUrlIsJobPosting | chrome-extension/src/background/service-worker.ts:185-194 | A URL the case-sensitive test accepts is accepted by the content script's case-insensitive test |
| ServiceWorker.UpperCaseHostIsMissed | chrome-extension/src/background/service-worker.ts:185-194 | The converse fails: `Indeed.com` is a job posting for the content script but not for the service worker |
| ServiceWorker.AnalyzeJobMatch | chrome-extension/src/background/service-worker.ts:207-235 | Missing job or resume data gives score 0, empty lists and no recommendations; otherwise recommendations are present; the score never exceeds 100 |
| ServiceWorker.MatchPartition | chrome-extension/src/background/service-worker.ts:215-225 | `matches` and `missing` partition the job skills, as a multiset and in length. A skill is matched exactly when some resume skill contains it case-insensitively, and missing exactly when none does |
| ServiceWorker.MatchKeepsOrder | chrome-extension/src/background/service-worker.ts:215-225 | Both lists keep the job's order: the lists for `a + b` are those for `a` followed by those for `b` |
| ServiceWorker.MatchScore | chrome-extension/src/background/service-worker.ts:227-230 | The score is the rounded percentage of matched skills (0 without job skills): 0 when nothing matches, 100 when everything does |
| ServiceWorker.GenerateRecommendations | chrome-extension/src/background/service-worker.ts:237-253 | At most three lines |
| ServiceWorker.RecommendationsShape | chrome-extension/src/background/service-worker.ts:237-253 | Each line is present exactly when its condition holds; the missing-skills line comes first and the company line last |
| ServiceWorker.MissingSkillsNamed | chrome-extension/src/background/service-worker.ts:240-242 | Each of the first five missing skills is named in the missing-skills line |
| Utils.ValidateEmailIff | packages/utils/src/index.ts:1-4 | Valid exactly when the text has exactly one `@` and no whitespace, the local part is non-empty, and the domain holds a `.` that is neither its first nor its last character |
| Utils.CommandNames | packages/utils/src/index.ts:12-20 | The seven dangerous commands are plain lower-case word runs |
| Utils.RemoveAll | packages/utils/src/index.ts:24-25 | One `replace` never lengthens the text |
| Utils.CommandEnd | packages/utils/src/index.ts:24 | A match is followed by a non-word character or the end |
| Utils.LongerWordIsKept | packages/utils/src/index.ts:24 | A command name followed by a word character (`\inputfile`) is not a match |
| Utils.RemoveAllLeavesNone | packages/utils/src/index.ts:23-26 | After one `replace` no match of that command remains, and no match of another command is created |
| Utils.RemoveAllOfClean | packages/utils/src/index.ts:25 | A text without matches is unchanged |
| Utils.Sanitize | packages/utils/src/index.ts:22-28 | The commands removed in list order never lengthen the text |
| Utils.SanitizeClears | packages/utils/src/index.ts:22-28 | None of the commands survives the sequence of removals |
| Utils.SanitizeOfClean | packages/utils/src/index.ts:22-28 | A text free of every command is unchanged |
| Utils.SanitizeLatex | packages/utils/src/index.ts:10-29 | The loop computes the removals in list order; the output is no longer than the input and holds none of the seven commands |
| Utils.SanitizeIdempotent | packages/utils/src/index.ts:10-29 | Sanitising twice is sanitising once |
| Utils.SanitizeWithoutBackslash | packages/utils/src/index.ts:10-29 | Input without a backslash is unchanged |
| Utils.TokensAreRuns | packages/utils/src/index.ts:33 | Every token of `\b\w+\b` is a maximal run of word characters |
| Utils.RunsAreTokens | packages/utils/src/index.ts:33 | Every maximal run of word characters is a token |
| Utils.ExtractKeywords | packages/utils/src/index.ts:31-39 | No duplicates; a string is a keyword exactly when it is a token of the lower-cased text, longer than two characters and not a stop word |
| Utils.KeywordsExactly | packages/utils/src/index.ts:31-39 | Keywords are exactly the maximal word runs of the lower-cased text, longer than two characters and not stop words, and hold no upper-case letter |
| Utils.FilterPositionOrder | packages/utils/src/index.ts:36-37 | Filtering keeps the relative order of the elements it keeps |
| Utils.KeywordsInOrder | packages/utils/src/index.ts:36-38 | Keywords come in the order of their first occurrence among the tokens |
| Utils.LowerSet | packages/utils/src/index.ts:42-43 | The lower-cased set is empty exactly when the list is |
| Utils.CalculateMatchScore | packages/utils/src/index.ts:41-47 | NaN exactly when the job list is empty; otherwise a percentage of at most 100 |
| Utils.MatchScoreBounds | packages/utils/src/index.ts:41-47 | The score is the percentage of job keywords found in the resume set, rounded to nearest; 100 when J ⊆ R, 0 when they are disjoint |
| Utils.MatchScoreIgnoresCaseAndRepeats | packages/utils/src/index.ts:42-46 | The score depends only on the two lower-cased keyword sets: lists with the same sets score the same, and lower-casing both lists changes nothing |
| Utils.LowerSetRepeat | packages/utils/src/index.ts:42-43 | Inserting a copy of any keyword, at any position of either list, keeps its lower-cased set, hence the score |
| Utils.LowerSetRecase | packages/utils/src/index.ts:42-43 | Changing the letter case of any one keyword of either list keeps its lower-cased set, hence the score |
| Utils.LowerSetOfLowerAll | packages/utils/src/index.ts:42-43 | Lower-casing the list first gives the same set |
| SidePanel.MarkApplied | chrome-extension/sidebar/components/SidePanel.tsx:197-202 | Same length and order. An entry is applied exactly when it was already or has the id. Every other field of every entry is unchanged |
| SidePanel.MarkAppliedIdempotent | chrome-extension/sidebar/components/SidePanel.tsx:197-202 | Marking twice is marking once |
| SidePanel.ReplaceFirst | chrome-extension/sidebar/components/SidePanel.tsx:189-192 | The text is unchanged when the original text does not occur |
| SidePanel.ExpandPlain | chrome-extension/sidebar/components/SidePanel.tsx:189-192 | A replacement without `$` is inserted as written |
| SidePanel.ReplaceFirstOccurrence | chrome-extension/sidebar/components/SidePanel.tsx:189-192 | With a `$`-free replacement only the first occurrence is replaced, and what comes before and after it is kept |
| SidePanel.Panel.constructor | chrome-extension/sidebar/components/SidePanel.tsx:20-28 | The initial state: no job, no analysis, empty resume, no suggestions, loading, no error, light mode |
| SidePanel.Panel.GetAISuggestions | chrome-extension/sidebar/components/SidePanel.tsx:113-132 | Sends the request. A successful reply replaces the suggestions; a failure changes nothing else |
| SidePanel.Panel.HandleResumeChange | chrome-extension/sidebar/components/SidePanel.tsx:176-186 | The resume is exactly the new text, stored under `currentResume`; suggestions are requested exactly when a job is known |
| SidePanel.Panel.ApplySuggestion | chrome-extension/sidebar/components/SidePanel.tsx:188-203 | The resume becomes the first-occurrence replacement and is stored; an optimize-resume request with the new text is recorded exactly when a job is known; the list as it stands after that call is marked applied by id |
| SidePanel.Panel.ToggleDarkMode | chrome-extension/sidebar/components/SidePanel.tsx:205-209 | The flag is negated and the new value is stored under `darkMode`; nothing else changes |
| SidePanel.Panel.AnalyzeJob | chrome-extension/sidebar/components/SidePanel.tsx:78-111 | Loading always ends. A failure sets the error. A success stores the analysis and asks for suggestions exactly when a resume is present |
| LaTeXEditor.Template | chrome-extension/sidebar/components/LaTeXEditor.tsx:61-71 | Each of the three templates is non-empty |
| LaTeXEditor.TemplatesDiffer | chrome-extension/sidebar/components/LaTeXEditor.tsx:61-71 | The three keys name three different templates |
| LaTeXEditor.Splice | chrome-extension/sidebar/components/LaTeXEditor.tsx:73-78 | New length `\|value\| - (end - start) + \|template\|`; the text before `start` and from `end` on is kept, with the template between |
| LaTeXEditor.SpliceUndo | chrome-extension/sidebar/components/LaTeXEditor.tsx:73-78 | Splicing the replaced selection back over the inserted text restores the value |
| LaTeXEditor.Editor.constructor | chrome-extension/sidebar/components/LaTeXEditor.tsx:10-18 | The editor shows the given value and the text area's given selection, with no compile error |
| LaTeXEditor.Editor.InsertTemplate | chrome-extension/sidebar/components/LaTeXEditor.tsx:58-86 | Without a text area nothing changes; otherwise the template replaces the selection and the cursor lands right after it |
| LaTeXEditor.InsertionAroundCursor | chrome-extension/sidebar/components/LaTeXEditor.tsx:73-84 | After insertion the text up to the cursor ends with the template, and the text from the cursor on is what followed the old selection |
| LaTeXEditor.StatusBarShows | chrome-extension/sidebar/components/LaTeXEditor.tsx:154-169 | An error wins. Otherwise each of the first three keywords is shown and `+n more` is appended exactly when there are more than three. With no keywords the ready text is shown |
| Common.FilterPartition | chrome-extension/src/background/service-worker.ts:215-225 | Filtering by a predicate and by its negation splits a list, in length and as a multiset |
| Common.FilterConcat | chrome-extension/src/background/service-worker.ts:215-225 | Filtering distributes over concatenation |
| Common.DedupOrder | chrome-extension/content-scripts/job-detector.ts:341-350 | An insertion-ordered set lists its elements in the order of their first occurrence |
| Common.RoundPercentNearest | chrome-extension/src/background/service-worker.ts:227-230 | `(200m + n) / (2n)` is the integer nearest to `100m / n`, halves rounded up, as `Math.round` does |
| Common.RoundPercentRange | packages/utils/src/index.ts:46 | For `m ≤ n` the rounded percentage lies in 0..100, is 0 for `m = 0` and 100 for `m = n` |
| Common.JoinContains | chrome-extension/src/background/service-worker.ts:241 | Every element of a joined list occurs in the joined text |

## Left out

- CSS selector matching and the DOM are not part of this model. A page is a map from selector to element texts plus the body text. `querySelector` is the first element of `querySelectorAll`. `innerText` and `textContent` are taken as given strings.
- Timers and event scheduling are collapsed into events: the 2000 ms interval, the 1500 ms and 500 ms delays, `popstate` and the DOM-ready bootstrap. `CheckUrlChange` only reports that a pass is scheduled. A run is a sequence of `Pass(page, now)` and `Poll(url)` events.
- The browser APIs are outside the model: runtime messages, `chrome.storage`, tabs and the side panel. So are the HTTP requests to the local server. The `JOB_DETECTED` messages are recorded in `sent` and the optimize-resume requests in `requests`; storage is a map field. The analyze-job request leaves no record, and its reply is the `analysis` parameter (`None` for a failed request); the optimize-resume reply is likewise a parameter.
- The `extractedAt` timestamp of the first detector's record, and `generateId` in the utilities, depend on the clock and on `Math.random`.
- The floating button is not modelled: `injectFloatingButton`, `openSidePanel` and the `floatingButton` field. Its injection is disabled in the source, and it is DOM and messaging work.
- `highlightSkills` is not modelled. It rewrites `innerHTML`.
- The first detector's `extractSkills` is modelled, but nothing in the source calls it, so the record carries no skills.
- The `try`/`catch` in `extractJobData` is not modelled. Nothing inside it throws on a snapshot page.
- `toLowerCase` folds ASCII letters only; upper-case letters outside ASCII are left as they are. `\s` is JavaScript's full whitespace set and `\w` is `[A-Za-z0-9_]`, as without the `u` flag. Text is a sequence of code points, not UTF-16 units.
- A regular expression's `\b` is the ASCII word boundary, matching `\w`.
- `Math.round` on floating point is modelled in integers as `(200m + n) / (2n)`. That is exact rounding with halves rounded up. The floating-point quotient `m / n * 100` could land on the other side of an exact half in a case where the exact value is a half.
- The sidebar's `initializeSidePanel` and `loadDefaultTemplate` are not modelled: they read the active tab and `chrome.storage`.
- The editor's `compileLatex` is not modelled (an HTTP request); its compile error enters the model only as the `compileError` field shown by the status bar.
- React's asynchronous state updates are modelled as direct assignments in the order the handlers issue them. Each handler reads the state it was rendered with, so `ApplySuggestion` and `AnalyzeJob` use the old `jobInfo` and `resumeLatex`. The cursor placement scheduled with `setTimeout(…, 0)` is applied at once.
- The analysis response keeps only the keywords and the required and preferred skills. The job record sent to the server keeps only the three fields the requests use.
- The text area's selection is set by the user in the browser, outside the model: the editor is built with a given selection, and that selection is assumed to lie within the text (`Editor.Valid`), as the browser guarantees.
- JobDetector.constructor: `now` is any natural number. A real `Date.now()` is far above 1000 ms, so the model admits clock readings below 1000 that would throttle the first pass, which a real clock never gives.
