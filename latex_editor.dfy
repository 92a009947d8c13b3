/** The LaTeX editor component (chrome-extension/sidebar/components/
    LaTeXEditor.tsx): inserting a template at the selection of the text area
    and the one-line status bar under it. The editor is controlled: the text
    it shows is the `value` the parent passes in, and `onChange` hands the
    new text back to the parent, which passes it in again. The model keeps
    both in one field. */
module LaTeXEditor {
  import opened Common

  // ---------------------------------------------------------------------
  // Templates
  // ---------------------------------------------------------------------

  datatype TemplateType = Section | Experience | Skill

  /** The `templates` table of `insertTemplate`. */
  function Template(t: TemplateType): (text: string)
    ensures |text| > 0
  {
    match t
    case Section => "\\section{Section Name}\n"
    case Experience =>
      "\\cventry{2020--Present}{Job Title}{Company Name}{City, ST}{}{\n"
      + "\\begin{itemize}\n"
      + "\\item Bullet point describing achievement\n"
      + "\\item Another accomplishment with metrics\n"
      + "\\end{itemize}}\n"
      + "\n"
    case Skill => "\\cvitem{Category}{Skill 1, Skill 2, Skill 3}\n"
  }

  /** The three keys name three different templates. */
  lemma {:induction false} TemplatesDiffer(t: TemplateType, u: TemplateType)
    requires t != u
    ensures Template(t) != Template(u)
  {
    var lengths := [|Template(Section)|, |Template(Experience)|, |Template(Skill)|];
    assert lengths == [23, 178, 45];
  }

  // ---------------------------------------------------------------------
  // Splicing
  // ---------------------------------------------------------------------

  /** `value.substring(0, start) + text + value.substring(end)`. */
  function Splice(value: string, start: nat, end: nat, text: string): (r: string)
    requires start <= end <= |value|
    ensures |r| == |value| - (end - start) + |text|
    ensures r[..start] == value[..start]
    ensures r[start..start + |text|] == text
    ensures r[start + |text|..] == value[end..]
  {
    value[..start] + text + value[end..]
  }

  /** Splicing the replaced selection back over the inserted text restores
      the original value. */
  lemma {:induction false} SpliceUndo(value: string, start: nat, end: nat, text: string)
    requires start <= end <= |value|
    ensures Splice(Splice(value, start, end, text), start, start + |text|, value[start..end]) == value
  {
    var r := Splice(value, start, end, text);
    var back := Splice(r, start, start + |text|, value[start..end]);
    assert back == value[..start] + value[start..end] + value[end..];
    assert value == value[..start] + value[start..end] + value[end..];
  }

  // ---------------------------------------------------------------------
  // The editor
  // ---------------------------------------------------------------------

  class Editor {
    /** The text shown, which is the `value` prop. */
    var value: string
    /** `textareaRef.current` is set. */
    var mounted: bool
    var selectionStart: nat
    var selectionEnd: nat
    var compileError: Option<string>

    /** The text area's selection lies within its text. */
    predicate Valid()
      reads this
    {
      selectionStart <= selectionEnd <= |value|
    }

    /** The selection is the text area's, which the browser keeps within
      the text; the component itself sets none. */
    constructor (value: string, mounted: bool, selectionStart: nat, selectionEnd: nat)
      requires selectionStart <= selectionEnd <= |value|
      ensures Valid()
      ensures this.value == value && this.mounted == mounted
      ensures this.selectionStart == selectionStart && this.selectionEnd == selectionEnd
      ensures compileError.None?
    {
      this.value := value;
      this.mounted := mounted;
      this.selectionStart := selectionStart;
      this.selectionEnd := selectionEnd;
      compileError := None;
    }

    /** `insertTemplate`: without a text area nothing happens; otherwise the
      template replaces the selection and the cursor lands right after it. */
    method InsertTemplate(t: TemplateType)
      requires Valid()
      modifies this
      ensures Valid()
      ensures !old(mounted) ==>
        && value == old(value)
        && selectionStart == old(selectionStart) && selectionEnd == old(selectionEnd)
      ensures old(mounted) ==>
        && value == Splice(old(value), old(selectionStart), old(selectionEnd), Template(t))
        && selectionStart == selectionEnd == old(selectionStart) + |Template(t)|
      ensures mounted == old(mounted) && compileError == old(compileError)
    {
      if !mounted {
        return;
      }
      var start, end := selectionStart, selectionEnd;
      var template := Template(t);
      value := Splice(value, start, end, template);
      selectionStart, selectionEnd := start + |template|, start + |template|;
    }
  }

  /** After an insertion the text up to the cursor ends with the template,
      and the text from the cursor on is what followed the old selection. */
  lemma {:induction false} InsertionAroundCursor(value: string, start: nat, end: nat, t: TemplateType)
    requires start <= end <= |value|
    ensures var r := Splice(value, start, end, Template(t)); var cursor := start + |Template(t)|;
      && cursor <= |r|
      && r[..cursor] == value[..start] + Template(t)
      && r[cursor..] == value[end..]
  {
    var r := Splice(value, start, end, Template(t));
    var cursor := start + |Template(t)|;
    assert r[..cursor] == r[..start] + r[start..cursor];
  }

  // ---------------------------------------------------------------------
  // Status bar
  // ---------------------------------------------------------------------

  const READY: string := "Ready \U{2022} Press Ctrl+S to save"

  /** `compileError` is truthy: set and not the empty string. */
  predicate ShowsError(compileError: Option<string>) {
    compileError.Some? && compileError.value != ""
  }

  /** The status bar's text: a compile error if there is one, otherwise the
      first three target keywords with a count of the rest, otherwise the
      ready message. An empty error string is falsy and shows no error. */
  function StatusBar(compileError: Option<string>, jobKeywords: seq<string>): (r: string)
  {
    if ShowsError(compileError) then "Error: " + compileError.value
    else if |jobKeywords| > 0 then
      "Target keywords: " + Join(Take(jobKeywords, 3), ", ")
      + (if |jobKeywords| > 3 then " +" + NatToString(|jobKeywords| - 3) + " more" else "")
    else READY
  }

  /** An error wins; otherwise each of the first three keywords is shown,
      and the rest are counted exactly when there are more than three. */
  lemma {:induction false} StatusBarShows(compileError: Option<string>, jobKeywords: seq<string>, k: nat)
    ensures var r := StatusBar(compileError, jobKeywords);
      && (ShowsError(compileError) ==> r == "Error: " + compileError.value)
      && (!ShowsError(compileError) && k < |jobKeywords| && k < 3 ==>
            Contains(r, jobKeywords[k]))
      && (!ShowsError(compileError) && |jobKeywords| > 3 ==>
            exists prefix :: r == prefix + " +" + NatToString(|jobKeywords| - 3) + " more")
      && (!ShowsError(compileError) && 0 < |jobKeywords| <= 3 ==>
            r == "Target keywords: " + Join(jobKeywords, ", "))
      && (!ShowsError(compileError) && jobKeywords == [] ==> r == READY)
  {
    var r := StatusBar(compileError, jobKeywords);
    if !ShowsError(compileError) && |jobKeywords| > 0 {
      var shown := Take(jobKeywords, 3);
      var joined := Join(shown, ", ");
      var more := if |jobKeywords| > 3 then " +" + NatToString(|jobKeywords| - 3) + " more" else "";
      var head := "Target keywords: ";
      assert r == head + joined + more;
      if k < |jobKeywords| && k < 3 {
        assert shown[k] == jobKeywords[k];
        var i := JoinContains(shown, ", ", k);
        var w := jobKeywords[k];
        assert r[|head| + i..|head| + i + |w|] == joined[i..i + |w|];
        assert OccursAt(r, w, |head| + i);
      }
      if |jobKeywords| > 3 {
        assert r == (head + joined) + " +" + NatToString(|jobKeywords| - 3) + " more";
      }
    }
  }
}
