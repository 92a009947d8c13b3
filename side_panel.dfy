/** The sidebar's state (chrome-extension/sidebar/components/SidePanel.tsx)
    and the handlers that update it: editing the resume, applying an AI
    suggestion, toggling dark mode and the loading flag around a job
    analysis. The React state record becomes the fields of a class; each
    `setState` becomes an assignment to the fields it names. The bodies of
    the optimize-resume requests are recorded in the `requests` field; the
    analyze-job request is not recorded. The replies of both are passed in
    as parameters, and `chrome.storage.local` is a map field. */
module SidePanel {
  import opened Common

  // ---------------------------------------------------------------------
  // Suggestions
  // ---------------------------------------------------------------------

  datatype SuggestionType = Keyword | ActionVerb | Quantification

  /** `AISuggestion`. */
  datatype Suggestion = Suggestion(
    id: string,
    applicationId: string,
    originalText: string,
    suggestedText: string,
    suggestionType: SuggestionType,
    wasApplied: bool,
    effectivenessScore: Option<real>,
    explanation: string,
    confidence: real)

  /** `suggestions.map(s => s.id === id ? { ...s, wasApplied: true } : s)`. */
  function MarkApplied(suggestions: seq<Suggestion>, id: string): (r: seq<Suggestion>)
    ensures |r| == |suggestions|
    ensures forall i :: 0 <= i < |r| ==>
      && r[i].wasApplied == (suggestions[i].wasApplied || suggestions[i].id == id)
      && r[i].(wasApplied := suggestions[i].wasApplied) == suggestions[i]
  {
    seq(|suggestions|, i requires 0 <= i < |suggestions| =>
      if suggestions[i].id == id then suggestions[i].(wasApplied := true) else suggestions[i])
  }

  /** Marking the same suggestion twice changes nothing more. */
  lemma {:induction false} MarkAppliedIdempotent(suggestions: seq<Suggestion>, id: string)
    ensures MarkApplied(MarkApplied(suggestions, id), id) == MarkApplied(suggestions, id)
  {
    var once := MarkApplied(suggestions, id);
    var twice := MarkApplied(once, id);
    forall i | 0 <= i < |once| ensures twice[i] == once[i] {
      assert twice[i].(wasApplied := once[i].wasApplied) == once[i];
    }
  }

  // ---------------------------------------------------------------------
  // String.prototype.replace with a string pattern
  // ---------------------------------------------------------------------

  /** The replacement text after `$` substitution (the GetSubstitution
      operation of ECMA-262): `$$` is a dollar sign, `$&` the
      match, `` $` `` the text before it, `$'` the text after it; with a
      string pattern there are no groups, so every other `$` is literal. */
  function Expand(replacement: string, matched: string, before: string, after: string): string
    decreases |replacement|
  {
    if replacement == [] then []
    else if replacement[0] == '$' && |replacement| > 1 && replacement[1] in "$&`'" then
      var piece := match replacement[1]
        case '$' => "$"
        case '&' => matched
        case '`' => before
        case _ => after;
      piece + Expand(replacement[2..], matched, before, after)
    else [replacement[0]] + Expand(replacement[1..], matched, before, after)
  }

  /** A replacement without `$` is inserted as it is. */
  lemma {:induction false} ExpandPlain(replacement: string, matched: string, before: string, after: string)
    requires '$' !in replacement
    ensures Expand(replacement, matched, before, after) == replacement
    decreases |replacement|
  {
    if replacement != [] {
      assert replacement[0] != '$';
      assert '$' !in replacement[1..] by {
        assert forall c :: c in replacement[1..] ==> c in replacement;
      }
      ExpandPlain(replacement[1..], matched, before, after);
    }
  }

  /** `text.replace(pattern, replacement)` with a string `pattern`: only the
      first occurrence is replaced; an empty pattern occurs at 0. */
  function ReplaceFirst(text: string, pattern: string, replacement: string): (r: string)
    ensures !Contains(text, pattern) ==> r == text
  {
    match IndexOf(text, pattern)
    case None => text
    case Some(p) =>
      var before, after := text[..p], text[p + |pattern|..];
      before + Expand(replacement, pattern, before, after) + after
  }

  /** With a `$`-free replacement, the result is the text with its first
      occurrence of the pattern swapped for the replacement: what comes
      before and after that occurrence is kept, and no earlier occurrence
      exists. */
  lemma {:induction false} ReplaceFirstOccurrence(text: string, pattern: string, replacement: string)
    requires '$' !in replacement && Contains(text, pattern)
    ensures exists p ::
      && OccursAt(text, pattern, p)
      && (forall q :: 0 <= q < p ==> !OccursAt(text, pattern, q))
      && ReplaceFirst(text, pattern, replacement) == text[..p] + replacement + text[p + |pattern|..]
  {
    var p := IndexOf(text, pattern).value;
    ExpandPlain(replacement, pattern, text[..p], text[p + |pattern|..]);
    assert OccursAt(text, pattern, p);
  }

  // ---------------------------------------------------------------------
  // The panel
  // ---------------------------------------------------------------------

  /** The parts of `JobInfo` the panel sends to the server. */
  datatype JobInfo = JobInfo(jobTitle: string, companyName: string, jobDescription: string)

  /** The part of `JobAnalysisResponse` the panel keeps. */
  datatype JobAnalysis = JobAnalysis(keywords: seq<string>, requiredSkills: seq<string>, preferredSkills: seq<string>)

  /** A value in `chrome.storage.local`. */
  datatype Stored = Text(text: string) | Flag(flag: bool)

  /** The body of a request to the resume-optimising endpoint. */
  datatype SuggestionRequest = SuggestionRequest(resumeLatex: string, jobDescription: string)

  const CURRENT_RESUME_KEY: string := "currentResume"
  const DARK_MODE_KEY: string := "darkMode"
  const ANALYSIS_FAILED: string := "Failed to analyze job description"

  class Panel {
    var jobInfo: Option<JobInfo>
    var jobAnalysis: Option<JobAnalysis>
    var resumeLatex: string
    var suggestions: seq<Suggestion>
    var isLoading: bool
    var error: Option<string>
    var darkMode: bool
    /** `chrome.storage.local`. */
    var storage: map<string, Stored>
    /** The requests sent to the resume-optimising endpoint, in order. */
    var requests: seq<SuggestionRequest>

    /** The initial state of `useState`, over the storage as it is. */
    constructor (storage: map<string, Stored>)
      ensures this.storage == storage && requests == []
      ensures jobInfo.None? && jobAnalysis.None? && resumeLatex == "" && suggestions == []
      ensures isLoading && error.None? && !darkMode
    {
      jobInfo := None;
      jobAnalysis := None;
      resumeLatex := "";
      suggestions := [];
      isLoading := true;
      error := None;
      darkMode := false;
      this.storage := storage;
      requests := [];
    }

    /** `getAISuggestions`: sends the request; `reply` is the suggestion list
      of a successful response, `None` when the request fails (the failure is
      only logged). */
    method GetAISuggestions(job: JobInfo, latex: string, reply: Option<seq<Suggestion>>)
      modifies this
      ensures requests == old(requests) + [SuggestionRequest(latex, job.jobDescription)]
      ensures suggestions == (if reply.Some? then reply.value else old(suggestions))
      ensures jobInfo == old(jobInfo) && jobAnalysis == old(jobAnalysis) && resumeLatex == old(resumeLatex)
      ensures isLoading == old(isLoading) && error == old(error) && darkMode == old(darkMode)
      ensures storage == old(storage)
    {
      requests := requests + [SuggestionRequest(latex, job.jobDescription)];
      if reply.Some? {
        suggestions := reply.value;
      }
    }

    /** `handleResumeChange`: the new text becomes the resume, is saved under
      `currentResume`, and fresh suggestions are requested when a job is
      known. */
    method HandleResumeChange(newLatex: string, reply: Option<seq<Suggestion>>)
      modifies this
      ensures resumeLatex == newLatex
      ensures storage == old(storage)[CURRENT_RESUME_KEY := Text(newLatex)]
      ensures old(jobInfo).Some? ==>
        && requests == old(requests) + [SuggestionRequest(newLatex, old(jobInfo).value.jobDescription)]
        && suggestions == (if reply.Some? then reply.value else old(suggestions))
      ensures old(jobInfo).None? ==> requests == old(requests) && suggestions == old(suggestions)
      ensures jobInfo == old(jobInfo) && jobAnalysis == old(jobAnalysis)
      ensures isLoading == old(isLoading) && error == old(error) && darkMode == old(darkMode)
    {
      resumeLatex := newLatex;
      storage := storage[CURRENT_RESUME_KEY := Text(newLatex)];
      if jobInfo.Some? {
        GetAISuggestions(jobInfo.value, newLatex, reply);
      }
    }

    /** `applySuggestion`: the first occurrence of the original text is
      replaced, the result goes through `handleResumeChange`, and then every
      suggestion with the same id, in the list as it stands after that call,
      is marked applied. */
    method ApplySuggestion(suggestion: Suggestion, reply: Option<seq<Suggestion>>)
      modifies this
      ensures resumeLatex == ReplaceFirst(old(resumeLatex), suggestion.originalText, suggestion.suggestedText)
      ensures storage == old(storage)[CURRENT_RESUME_KEY := Text(resumeLatex)]
      ensures var listed := if old(jobInfo).Some? && reply.Some? then reply.value else old(suggestions);
        suggestions == MarkApplied(listed, suggestion.id)
      ensures old(jobInfo).Some? ==>
        requests == old(requests) + [SuggestionRequest(resumeLatex, old(jobInfo).value.jobDescription)]
      ensures old(jobInfo).None? ==> requests == old(requests)
      ensures jobInfo == old(jobInfo) && jobAnalysis == old(jobAnalysis)
      ensures isLoading == old(isLoading) && error == old(error) && darkMode == old(darkMode)
    {
      var updatedLatex := ReplaceFirst(resumeLatex, suggestion.originalText, suggestion.suggestedText);
      HandleResumeChange(updatedLatex, reply);
      suggestions := MarkApplied(suggestions, suggestion.id);
    }

    /** `toggleDarkMode`: flips the flag and saves the new value. */
    method ToggleDarkMode()
      modifies this
      ensures darkMode == !old(darkMode)
      ensures storage == old(storage)[DARK_MODE_KEY := Flag(darkMode)]
      ensures jobInfo == old(jobInfo) && jobAnalysis == old(jobAnalysis) && resumeLatex == old(resumeLatex)
      ensures suggestions == old(suggestions) && isLoading == old(isLoading) && error == old(error)
      ensures requests == old(requests)
    {
      var newDarkMode := !darkMode;
      darkMode := newDarkMode;
      storage := storage[DARK_MODE_KEY := Flag(newDarkMode)];
    }

    /** `analyzeJob`: `analysis` is the parsed response of the analysis
      request, `None` when it fails; `reply` is the outcome of the follow-up
      suggestion request. Whatever happens, loading ends; a failed analysis
      sets the error. */
    method AnalyzeJob(job: JobInfo, analysis: Option<JobAnalysis>, reply: Option<seq<Suggestion>>)
      modifies this
      ensures !isLoading
      ensures analysis.None? ==> error == Some(ANALYSIS_FAILED) && jobAnalysis == old(jobAnalysis)
      ensures analysis.Some? ==> error == old(error) && jobAnalysis == analysis
      ensures analysis.Some? && old(resumeLatex) != "" ==>
        && requests == old(requests) + [SuggestionRequest(old(resumeLatex), job.jobDescription)]
        && suggestions == (if reply.Some? then reply.value else old(suggestions))
      ensures analysis.None? || old(resumeLatex) == "" ==>
        requests == old(requests) && suggestions == old(suggestions)
      ensures jobInfo == old(jobInfo) && resumeLatex == old(resumeLatex) && darkMode == old(darkMode)
      ensures storage == old(storage)
    {
      isLoading := true;
      if analysis.None? {
        error := Some(ANALYSIS_FAILED);
      } else {
        jobAnalysis := analysis;
        if resumeLatex != "" {
          GetAISuggestions(job, resumeLatex, reply);
        }
      }
      isLoading := false;
    }
  }
}
