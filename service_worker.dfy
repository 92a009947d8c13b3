/** The pure helpers of the background service worker
    (chrome-extension/src/background/service-worker.ts): the job-site URL
    test that decides whether a tab is announced, and the skill-match
    analysis with its recommendation lines. The message routing, the
    `chrome.*` calls and the notifications around them are not modelled. */
module ServiceWorker {
  import opened Common
  import JobPostingDetector

  // ---------------------------------------------------------------------
  // Job-site URLs
  // ---------------------------------------------------------------------

  /** The `jobSites` list of `isJobSiteUrl`. */
  const JOB_SITES: seq<string> := ["linkedin.com/jobs", "indeed.com", "glassdoor.com", "monster.com"]

  /** `isJobSiteUrl`: the URL contains one of the site substrings, with
      letter case significant (unlike the content script's test). */
  predicate IsJobSiteUrl(url: string) {
    exists k :: 0 <= k < |JOB_SITES| && Contains(url, JOB_SITES[k])
  }

  /** A text without upper-case letters is its own lower-case form. */
  lemma {:induction false} LowerOfLowerCase(s: string)
    requires forall i :: 0 <= i < |s| ==> !IsUpper(s[i])
    ensures Lower(s) == s
  {
    forall i | 0 <= i < |s| ensures Lower(s)[i] == s[i] {
      assert !IsUpper(s[i]);
    }
  }

  /** An occurrence of a lower-case substring survives lower-casing the text. */
  lemma {:induction false} ContainsLower(s: string, sub: string)
    requires Lower(sub) == sub && Contains(s, sub)
    ensures Contains(Lower(s), sub)
  {
    var i :| 0 <= i <= |s| - |sub| && OccursAt(s, sub, i);
    LowerSlice(s, i, i + |sub|);
    assert OccursAt(Lower(s), sub, i);
  }

  /** The service worker's test is the stricter of the two: a URL it accepts
      is also one the content script accepts, since all four substrings are
      already lower-case. */
  lemma {:induction false} JobSiteUrlIsJobPosting(url: string)
    requires IsJobSiteUrl(url)
    ensures JobPostingDetector.DetectJobPosting(url)
  {
    var k :| 0 <= k < |JOB_SITES| && Contains(url, JOB_SITES[k]);
    assert JOB_SITES == JobPostingDetector.JOB_SITES;
    LowerOfLowerCase(JOB_SITES[k]);
    ContainsLower(url, JOB_SITES[k]);
  }

  /** ... but not the other way round: an upper-case letter in the board's
      host name hides the posting from the service worker. */
  lemma UpperCaseHostIsMissed()
    ensures JobPostingDetector.DetectJobPosting("Indeed.com")
    ensures !IsJobSiteUrl("Indeed.com")
  {
    var u := "Indeed.com";
    LowerOfLowerCase("indeed.com");
    assert Lower(u) == "indeed.com";
    assert OccursAt(Lower(u), JobPostingDetector.JOB_SITES[1], 0);
    forall k | 0 <= k < |JOB_SITES| ensures !Contains(u, JOB_SITES[k]) {
      if k == 1 {
        forall i | 0 <= i <= |u| - |JOB_SITES[k]| ensures !OccursAt(u, JOB_SITES[k], i) {
          assert i == 0;
          assert u[0] != JOB_SITES[k][0];
        }
      } else {
        assert |u| < |JOB_SITES[k]|;
      }
    }
  }

  // ---------------------------------------------------------------------
  // Match analysis
  // ---------------------------------------------------------------------

  /** The fields of the untyped `jobData` the analysis reads; an absent
      field is `None`. */
  datatype JobData = JobData(
    skills: Option<seq<string>>,
    requirements: Option<seq<string>>,
    company: Option<string>)

  /** The field of the untyped `resumeData` the analysis reads. */
  datatype ResumeData = ResumeData(skills: Option<seq<string>>)

  /** What `analyzeJobMatch` returns; the early return for missing data has
      no `recommendations` field. */
  datatype MatchResult = MatchResult(
    score: nat,
    matches: seq<string>,
    missing: seq<string>,
    recommendations: Option<seq<string>>)

  /** `xs || []`. */
  function OrEmpty<T>(xs: Option<seq<T>>): (r: seq<T>)
    ensures xs.Some? ==> r == xs.value
    ensures xs.None? ==> r == []
  {
    if xs.Some? then xs.value else []
  }

  /** A job skill is matched when some resume skill contains it, both
      lower-cased: containment, not equality. */
  predicate SkillMatched(resumeSkills: seq<string>, skill: string) {
    exists r :: r in resumeSkills && Contains(Lower(r), Lower(skill))
  }

  /** `analyzeJobMatch`. */
  function AnalyzeJobMatch(job: Option<JobData>, resume: Option<ResumeData>): (r: MatchResult)
    ensures job.None? || resume.None? ==> r == MatchResult(0, [], [], None)
    ensures job.Some? && resume.Some? ==> r.recommendations.Some?
    ensures r.score <= 100
  {
    if job.None? || resume.None? then MatchResult(0, [], [], None)
    else
      var jobSkills := OrEmpty(job.value.skills);
      var resumeSkills := OrEmpty(resume.value.skills);
      var matches := Filter(jobSkills, s => SkillMatched(resumeSkills, s));
      var missing := Filter(jobSkills, s => !SkillMatched(resumeSkills, s));
      var score := if |jobSkills| > 0 then RoundPercent(|matches|, |jobSkills|) else 0;
      RoundPercentRange(|matches|, if |jobSkills| > 0 then |jobSkills| else 1);
      MatchResult(score, matches, missing, Some(GenerateRecommendations(missing, job.value)))
  }

  /** `matches` and `missing` split the job skills: each skill lands in
      exactly one of them according to `SkillMatched`, and together they
      hold every skill as often as the job lists it. */
  lemma {:induction false} MatchPartition(job: JobData, resume: ResumeData)
    ensures var r := AnalyzeJobMatch(Some(job), Some(resume));
      var jobSkills := OrEmpty(job.skills);
      var resumeSkills := OrEmpty(resume.skills);
      && |r.matches| + |r.missing| == |jobSkills|
      && multiset(r.matches) + multiset(r.missing) == multiset(jobSkills)
      && (forall s :: s in r.matches <==> s in jobSkills && SkillMatched(resumeSkills, s))
      && (forall s :: s in r.missing <==> s in jobSkills && !SkillMatched(resumeSkills, s))
  {
    var resumeSkills := OrEmpty(resume.skills);
    FilterPartition(OrEmpty(job.skills), s => SkillMatched(resumeSkills, s), s => !SkillMatched(resumeSkills, s));
  }

  /** Both lists keep the job's order: analysing the skills `a + b` gives
      the lists of `a` followed by those of `b`. */
  lemma {:induction false} MatchKeepsOrder(a: seq<string>, b: seq<string>, resume: ResumeData)
    ensures var r := AnalyzeJobMatch(Some(JobData(Some(a + b), None, None)), Some(resume));
      var ra := AnalyzeJobMatch(Some(JobData(Some(a), None, None)), Some(resume));
      var rb := AnalyzeJobMatch(Some(JobData(Some(b), None, None)), Some(resume));
      r.matches == ra.matches + rb.matches && r.missing == ra.missing + rb.missing
  {
    var resumeSkills := OrEmpty(resume.skills);
    FilterConcat(a, b, s => SkillMatched(resumeSkills, s));
    FilterConcat(a, b, s => !SkillMatched(resumeSkills, s));
  }

  /** The score is the matched share of the job skills as a rounded
      percentage (0 without job skills): 0 when nothing matches, 100 when
      everything does. */
  lemma {:induction false} MatchScore(job: JobData, resume: ResumeData)
    ensures var r := AnalyzeJobMatch(Some(job), Some(resume));
      var n := |OrEmpty(job.skills)|;
      && (n == 0 ==> r.score == 0)
      && (n > 0 ==> 2 * n * r.score <= 200 * |r.matches| + n < 2 * n * (r.score + 1))
      && (r.matches == [] ==> r.score == 0)
      && (r.missing == [] && n > 0 ==> r.score == 100)
  {
    var r := AnalyzeJobMatch(Some(job), Some(resume));
    var n := |OrEmpty(job.skills)|;
    MatchPartition(job, resume);
    if n > 0 {
      RoundPercentNearest(|r.matches|, n);
      RoundPercentRange(|r.matches|, n);
    }
  }

  // ---------------------------------------------------------------------
  // Recommendations
  // ---------------------------------------------------------------------

  // The long literals are written in pieces: the verifier reads the
  // characters of a short literal directly.
  const MISSING_SKILLS_PREFIX: string := "Consider adding these skills " + "to your resume: "
  const TAILOR_LINE: string := "Tailor your experience section " + "to match the job requirements"

  /** The first line: at most the first five missing skills, comma-separated. */
  function MissingSkillsLine(missing: seq<string>): string {
    MISSING_SKILLS_PREFIX + Join(Take(missing, 5), ", ")
  }

  function CompanyLine(company: string): string {
    "Research " + company + " and mention relevant company values " + "or achievements in your cover letter"
  }

  /** `jobData.requirements && jobData.requirements.length > 0`. */
  predicate HasRequirements(job: JobData) {
    job.requirements.Some? && |job.requirements.value| > 0
  }

  /** The company name, `""` when absent. */
  function CompanyOf(job: JobData): (c: string)
    ensures job.company.Some? ==> c == job.company.value
  {
    if job.company.Some? then job.company.value else ""
  }

  /** `jobData.company` is truthy: present and not the empty string. */
  predicate HasCompany(job: JobData) {
    job.company.Some? && job.company.value != ""
  }

  /** `generateRecommendations`: three conditional pushes, in a fixed order. */
  function GenerateRecommendations(missing: seq<string>, job: JobData): (r: seq<string>)
    ensures |r| <= 3
  {
    (if |missing| > 0 then [MissingSkillsLine(missing)] else [])
    + (if HasRequirements(job) then [TAILOR_LINE] else [])
    + (if HasCompany(job) then [CompanyLine(CompanyOf(job))] else [])
  }

  /** Each line is present exactly when its condition holds, the
      missing-skills line comes first and the company line last. The three
      lines are told apart by their first letters. */
  lemma {:induction false} RecommendationsShape(missing: seq<string>, job: JobData)
    ensures var r := GenerateRecommendations(missing, job);
      && |r| == (if |missing| > 0 then 1 else 0) + (if HasRequirements(job) then 1 else 0)
                + (if HasCompany(job) then 1 else 0)
      && (MissingSkillsLine(missing) in r <==> |missing| > 0)
      && (TAILOR_LINE in r <==> HasRequirements(job))
      && (CompanyLine(CompanyOf(job)) in r <==> HasCompany(job))
      && (|missing| > 0 ==> r[0] == MissingSkillsLine(missing))
      && (HasCompany(job) ==> r[|r| - 1] == CompanyLine(CompanyOf(job)))
  {
    var r := GenerateRecommendations(missing, job);
    LineHeads(missing, CompanyOf(job));
    assert forall k :: 0 <= k < |r| ==> r[k][0] in {'C', 'T', 'R'} && |r[k]| > 0;
  }

  /** The first letters that tell the three lines apart. */
  lemma LineHeads(missing: seq<string>, company: string)
    ensures |MissingSkillsLine(missing)| > 0 && MissingSkillsLine(missing)[0] == 'C'
    ensures |TAILOR_LINE| > 0 && TAILOR_LINE[0] == 'T'
    ensures |CompanyLine(company)| > 0 && CompanyLine(company)[0] == 'R'
  {
    assert MissingSkillsLine(missing)[0] == MISSING_SKILLS_PREFIX[0];
    assert CompanyLine(company)[0] == "Research "[0];
  }

  /** Every one of the first five missing skills is named in the line. */
  lemma {:induction false} MissingSkillsNamed(missing: seq<string>, k: nat)
    requires k < |missing| && k < 5
    ensures Contains(MissingSkillsLine(missing), missing[k])
  {
    var shown := Take(missing, 5);
    assert shown[k] == missing[k];
    var i := JoinContains(shown, ", ", k);
    assert OccursAt(MissingSkillsLine(missing), missing[k], |MISSING_SKILLS_PREFIX| + i) by {
      var line := MissingSkillsLine(missing);
      var j := Join(shown, ", ");
      assert line == MISSING_SKILLS_PREFIX + j;
      assert line[|MISSING_SKILLS_PREFIX| + i..|MISSING_SKILLS_PREFIX| + i + |missing[k]|]
        == j[i..i + |missing[k]|];
    }
  }
}
