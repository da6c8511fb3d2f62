/** The four operations of `ml_engine.py` around the engine call: the prompt
    each one builds, the mode tuple it calls the engine with, and what it does
    with the text that comes back. */
module Pipeline {
  import opened Text
  import opened Engine
  import opened MentorClean

  /* ---------- generate_code ---------- */

  function CodePrompt(language: string, prompt: string): string {
    "# Language: " + language + "\n# Task: " + prompt + "\n"
  }

  /** The language (a single line) and the request can be read back from the prompt. */
  lemma {:induction false} CodePromptInjective(l1: string, p1: string, l2: string, p2: string)
    requires '\n' !in l1 && '\n' !in l2
    requires CodePrompt(l1, p1) == CodePrompt(l2, p2)
    ensures l1 == l2 && p1 == p2
  {
    TwoHolesInjective("# Language: ", l1, l2, "\n# Task: ", p1, p2, "\n");
  }

  /** `generate_code`: one call with the generate tuple (100 tokens, 0.7). */
  function GenerateCode(engine: Oracle, prompt: string, language: string): (r: string)
    ensures r == ModeResponse(engine, CodePrompt(language, prompt), Generate)
  {
    GenerateResponse(engine, CodePrompt(language, prompt), 100, DefaultTemperature, None)
  }

  /* ---------- autocomplete_code ---------- */

  const ContinueMarker: string := "# CONTINUE:"

  function AutocompletePrompt(language: string, code: string): string {
    "# Language: " + language + "\n" + code + ContinueLine
  }

  const ContinueLine: string := "\n# CONTINUE:\n"

  /** The language (a single line) and the code can be read back from the prompt. */
  lemma {:induction false} AutocompletePromptInjective(l1: string, c1: string, l2: string, c2: string)
    requires '\n' !in l1 && '\n' !in l2
    requires AutocompletePrompt(l1, c1) == AutocompletePrompt(l2, c2)
    ensures l1 == l2 && c1 == c2
  {
    TwoHolesInjective("# Language: ", l1, l2, "\n", c1, c2, ContinueLine);
  }

  /** Python's `s.split(w)` for a non-empty separator. */
  function SplitOn(s: string, w: string): (parts: seq<string>)
    requires w != []
    ensures |parts| >= 1
    decreases |s|
  {
    match IndexOf(s, w, 0)
    case Some(k) => [s[..k]] + SplitOn(s[k + |w|..], w)
    case None => [s]
  }

  /** "# CONTINUE:" cannot overlap itself: its "#" appears only in front. */
  lemma {:induction false} MarkerNoOverlap(s: string, k: nat, j: nat)
    requires OccursAt(s, ContinueMarker, k) && k < j < k + |ContinueMarker|
    ensures !OccursAt(s, ContinueMarker, j)
  {
    assert s[j] == ContinueMarker[j - k];
  }

  /** After the first marker, the last marker of the text is the last marker
      of the rest, or the first marker itself when the rest has none. */
  lemma {:induction false} LastMarkerAfterFirst(s: string, k: nat)
    requires IndexOf(s, ContinueMarker, 0) == Some(k)
    ensures var tail := s[k + 11..];
      match LastIndexOf(tail, ContinueMarker)
      case Some(t) => LastIndexOf(s, ContinueMarker) == Some(k + 11 + t)
      case None => LastIndexOf(s, ContinueMarker) == Some(k)
  {
    forall j | k < j < k + |ContinueMarker|
      ensures !OccursAt(s, ContinueMarker, j)
    {
      MarkerNoOverlap(s, k, j);
    }
    LastAfterOccurrence(s, ContinueMarker, k);
  }

  /** After an occurrence of a word that cannot overlap it, the last occurrence
      of the text is the last one of the rest, or that occurrence itself. */
  lemma {:induction false} LastAfterOccurrence(s: string, w: string, k: nat)
    requires OccursAt(s, w, k) && forall j :: k < j < k + |w| ==> !OccursAt(s, w, j)
    ensures var tail := s[k + |w|..];
      match LastIndexOf(tail, w)
      case Some(t) => LastIndexOf(s, w) == Some(k + |w| + t)
      case None => LastIndexOf(s, w) == Some(k)
  {
    var n := k + |w|;
    var tail := s[n..];
    match LastIndexOf(tail, w)
    case Some(t) =>
      OccursInSuffix(s, w, n, t);
      forall j | n + t < j
        ensures !OccursAt(s, w, j)
      {
        OccursInSuffix(s, w, n, j - n);
      }
      LastIndexOfUnique(s, w, n + t);
    case None =>
      forall j | k < j
        ensures !OccursAt(s, w, j)
      {
        if j >= n {
          OccursInSuffix(s, w, n, j - n);
        }
      }
      LastIndexOfUnique(s, w, k);
  }

  function LastPiece(s: string): string {
    var parts := SplitOn(s, ContinueMarker);
    parts[|parts| - 1]
  }

  lemma {:induction false} SplitOnFirst(s: string, k: nat)
    requires IndexOf(s, ContinueMarker, 0) == Some(k)
    ensures LastPiece(s) == LastPiece(s[k + 11..])
  {
    assert SplitOn(s, ContinueMarker) == [s[..k]] + SplitOn(s[k + 11..], ContinueMarker);
  }

  /** The last piece of `split("# CONTINUE:")` is the text after the marker's
      last occurrence. */
  lemma {:induction false} LastPieceAfterLastMarker(s: string)
    requires Contains(s, ContinueMarker)
    ensures LastPiece(s) == s[LastIndexOf(s, ContinueMarker).value + |ContinueMarker|..]
    decreases |s|
  {
    var k := IndexOf(s, ContinueMarker, 0).value;
    var tail := s[k + 11..];
    SplitOnFirst(s, k);
    LastMarkerAfterFirst(s, k);
    match LastIndexOf(tail, ContinueMarker)
    case Some(t) =>
      LastPieceAfterLastMarker(tail);
      assert tail[t + 11..] == s[k + 11 + t + 11..];
    case None =>
      assert IndexOf(tail, ContinueMarker, 0).None?;
      assert SplitOn(tail, ContinueMarker) == [tail];
  }

  /** A text without the marker has none in its stripped form either. */
  lemma {:induction false} NoMarkerInStrip(t: string)
    requires !Contains(t, ContinueMarker)
    ensures !Contains(Strip(t), ContinueMarker)
  {
    var a, b :| 0 <= a <= b <= |t| && Strip(t) == t[a..b];
    if Contains(Strip(t), ContinueMarker) {
      var j :| OccursAt(t[a..b], ContinueMarker, j);
      OccursInSlice(t, ContinueMarker, a, b, j);
    }
  }

  /** The text after the last marker holds no marker. */
  lemma {:induction false} NoMarkerAfterLast(t: string, k: nat)
    requires OccursAt(t, ContinueMarker, k) && forall j :: k < j ==> !OccursAt(t, ContinueMarker, j)
    ensures !Contains(t[k + 11..], ContinueMarker)
  {
    if Contains(t[k + 11..], ContinueMarker) {
      var j :| OccursAt(t[k + 11..], ContinueMarker, j);
      OccursInSuffix(t, ContinueMarker, k + 11, j);
    }
  }

  /** What `autocomplete_code` keeps of the engine text: the stripped text
      after the last marker, or the stripped text when there is none. The
      result never holds the marker. */
  function AfterLastMarker(t: string): (r: string)
    ensures !Contains(r, ContinueMarker)
    ensures !Contains(t, ContinueMarker) ==> r == Strip(t)
  {
    match LastIndexOf(t, ContinueMarker)
    case Some(k) =>
      NoMarkerAfterLast(t, k);
      NoMarkerInStrip(t[k + 11..]);
      Strip(t[k + 11..])
    case None =>
      NoMarkerInStrip(t);
      Strip(t)
  }

  /** With a marker present, the result is the stripped text after its last
      occurrence. */
  lemma {:induction false} AfterLastMarkerIsAfterLast(t: string, k: nat)
    requires OccursAt(t, ContinueMarker, k) && forall j :: k < j ==> !OccursAt(t, ContinueMarker, j)
    ensures AfterLastMarker(t) == Strip(t[k + |ContinueMarker|..])
  {
    LastIndexOfUnique(t, ContinueMarker, k);
  }

  /** `autocomplete_code`: one call with the autocomplete tuple (40 tokens,
      0.7), then the text after the last marker. */
  function AutocompleteCode(engine: Oracle, code: string, language: string): (r: string)
    ensures r == AfterLastMarker(ModeResponse(engine, AutocompletePrompt(language, code), Autocomplete))
  {
    var prompt := AutocompletePrompt(language, code);
    var result := GenerateResponse(engine, prompt, 40, DefaultTemperature, None);
    AutocompleteTuple(engine, prompt);
    KeptAfterLastMarker(result);
    if Contains(result, ContinueMarker) then Strip(LastPiece(result)) else Strip(result)
  }

  /** `max_tokens=40` with the other defaults is the autocomplete tuple. */
  lemma {:induction false} AutocompleteTuple(engine: Oracle, prompt: string)
    ensures GenerateResponse(engine, prompt, 40, DefaultTemperature, None) == ModeResponse(engine, prompt, Autocomplete)
  {
  }

  /** Both branches of `autocomplete_code` agree with `AfterLastMarker`. */
  lemma {:induction false} KeptAfterLastMarker(result: string)
    ensures AfterLastMarker(result) == if Contains(result, ContinueMarker) then Strip(LastPiece(result)) else Strip(result)
  {
    if Contains(result, ContinueMarker) {
      LastPieceAfterLastMarker(result);
      var k := LastIndexOf(result, ContinueMarker).value;
      assert AfterLastMarker(result) == Strip(result[k + 11..]);
    } else {
      assert LastIndexOf(result, ContinueMarker).None?;
    }
  }

  /* ---------- generate_reply ---------- */

  /** The instructions that follow the code in the mentor prompt. */
  const MentorTail: string :=
    "\n\n"
    + "- Explain what the code does.\n"
    + "- Provide up to 3 numbered steps (Step 1:, Step 2:, Step 3:).\n"
    + "- End with ONE limitation (Limitation: ...).\n"
    + "- Describe only what appears in the code, do not invent structures.\n"
    + "- Suggest improvements or alternatives.\n"
    + "- Include validation or error handling if relevant.\n"
    + "- Do not use Markdown, headers, or comments.\n"
    + "- Do not repeat the code or the prompt.\n"
    + "- Keep the tone friendly and concise.\n"

  function MentorPrompt(language: string, code: string, userLevel: string): string {
    "Explain the following " + language + " code clearly to a " + userLevel + " developer.\n\n" + code + MentorTail
  }

  /** The mentor prompt embeds the language, the user level and the code. */
  lemma {:induction false} MentorPromptEmbeds(language: string, code: string, userLevel: string)
    ensures var r := MentorPrompt(language, code, userLevel);
      Contains(r, language) && Contains(r, userLevel) && Contains(r, code)
  {
    ContainsHoles("Explain the following ", language, " code clearly to a ", userLevel, " developer.\n\n", code, MentorTail);
  }

  /** The explanation returned when cleaning leaves nothing. */
  const MentorFallback: string :=
    "Step 1: Describe the main idea of the algorithm.\n"
    + "Step 2: Explain how the data is processed step by step.\n"
    + "Step 3: Highlight how edge cases or special conditions are handled.\n\n"
    + "Limitation: May fail if inputs do not match the expected format."

  /** What `generate_reply` makes of the engine text: the cleaned
      explanation, or the fallback when cleaning leaves nothing. The reply is
      never empty; it is the fixed fallback or a well-shaped explanation. */
  function MentorReply(response: string): (r: string)
    ensures r != [] && (r == MentorFallback || WellShaped(r))
    ensures CleanMentorResponse(response) != [] ==> r == CleanMentorResponse(response)
    ensures CleanMentorResponse(response) == [] ==> r == MentorFallback
  {
    CleanedIsWellShaped(response);
    StripNoop(CleanMentorResponse(response));
    var cleaned := Strip(CleanMentorResponse(response));
    if cleaned == [] then MentorFallback else cleaned
  }

  /** `generate_reply`: one call with the mentor tuple (400 tokens, 0.3), then
      the clean-up with its fallback. `prompt` and `userId` are accepted but
      unused. */
  function GenerateReply(engine: Oracle, prompt: string, language: string, code: string,
                         userId: string, userLevel: string): (r: string)
    ensures r == MentorReply(ModeResponse(engine, MentorPrompt(language, code, userLevel), Mentor))
  {
    assert ModeParams(Mentor) == Params(400, Some(Tenths(3)), EffectiveStop(Some(DefaultStop)));
    MentorReply(GenerateResponse(engine, MentorPrompt(language, code, userLevel), 400, Tenths(3), Some(DefaultStop)))
  }

  /** Neither the request text nor the user id reaches the engine or the reply. */
  lemma {:induction false} ReplyIgnoresPromptAndUser(engine: Oracle, p1: string, p2: string, language: string,
                                  code: string, u1: string, u2: string, userLevel: string)
    ensures GenerateReply(engine, p1, language, code, u1, userLevel)
         == GenerateReply(engine, p2, language, code, u2, userLevel)
  {
  }

  /* ---------- generate_reply_code_only ---------- */

  const CodeOnlyTail: string :=
    "\n\n# Output:\n"
    + "# ONLY return valid code in the specified language.\n"
    + "# Use the function name exactly as given in the prompt.\n"
    + "# No explanations, no comments, no metadata.\n"
    + "# End strictly with '# END'.\n"

  function CodeOnlyPrompt(language: string, prompt: string, code: string): string {
    "You are a code generator.\n# Language: " + language + "\n# Task: " + prompt + "\n# Existing code:\n" + code + CodeOnlyTail
  }

  /** The code-only prompt embeds the language, the request and the code. */
  lemma {:induction false} CodeOnlyPromptEmbeds(language: string, prompt: string, code: string)
    ensures var r := CodeOnlyPrompt(language, prompt, code);
      Contains(r, language) && Contains(r, prompt) && Contains(r, code)
  {
    ContainsHoles("You are a code generator.\n# Language: ", language, "\n# Task: ", prompt, "\n# Existing code:\n", code, CodeOnlyTail);
  }

  const PythonPlaceholder: string := "def placeholder():\n    pass\n# END"
  const JavascriptPlaceholder: string := "function placeholder() {}\n// END"

  /** The language tests compare `language.lower()`. */
  predicate IsPython(language: string) {
    Lower(language) == "python"
  }

  predicate IsCFamily(language: string) {
    Lower(language) in ["javascript", "java", "c++", "c"]
  }

  /** A blank engine text is replaced by a placeholder for python and javascript. */
  function WithPlaceholder(response: string, language: string): string {
    if Strip(response) == [] then
      if IsPython(language) then PythonPlaceholder
      else if Lower(language) == "javascript" then JavascriptPlaceholder
      else response
    else response
  }

  /** The three `continue` tests of the line filter. */
  predicate HasMarkerWord(line: string) {
    Contains(line, "BEGIN") || Contains(line, "END")
  }

  predicate IsComment(line: string) {
    StartsWith(Strip(line), "#") && !StartsWith(Strip(line), "#!")
  }

  predicate HasLeak(line: string) {
    Contains(line, "edge_all_open_tabs") || Contains(line, "User")
  }

  predicate Blocked(line: string) {
    HasMarkerWord(line) || IsComment(line) || HasLeak(line)
  }

  /** A function header: it holds "function " or starts with "def " once stripped. */
  predicate IsHeader(line: string) {
    Contains(line, "function ") || StartsWith(Strip(line), "def ")
  }

  /** The lines the filter loop keeps, given whether a header was kept already:
      blocked lines go, and so does every header after the first kept one. */
  function KeepCodeLines(lines: seq<string>, started: bool): (kept: seq<string>)
    ensures forall l :: l in kept ==> l in lines && !Blocked(l)
    decreases |lines|
  {
    if lines == [] then []
    else
      var line := lines[0];
      if Blocked(line) then KeepCodeLines(lines[1..], started)
      else if IsHeader(line) && started then KeepCodeLines(lines[1..], started)
      else [line] + KeepCodeLines(lines[1..], started || IsHeader(line))
  }

  /** The ending step: python gets "\n# END" after the right-stripped text,
      the C family is cut after its last "}" and gets "\n// END", anything else
      is left alone. */
  function AddEnding(response: string, language: string): string {
    if IsPython(language) then RStrip(response) + "\n# END"
    else if IsCFamily(language) then
      if Contains(response, "}") then response[..LastIndexOf(response, "}").value + 1] + "\n// END"
      else response + "\n// END"
    else response
  }

  /** The text the filter leaves: the kept lines joined and stripped. */
  function FilteredText(response: string): string {
    Strip(JoinLines(KeepCodeLines(SplitLines(response), false)))
  }

  /** Everything `generate_reply_code_only` does after the engine call. */
  function CodeOnlyReply(response: string, language: string): string {
    AddEnding(FilteredText(WithPlaceholder(response, language)), language)
  }

  /** One line of the filter. */
  lemma {:induction false} KeepCodeLinesStep(lines: seq<string>, i: nat, started: bool)
    requires i < |lines|
    ensures var line := lines[i];
      KeepCodeLines(lines[i..], started)
      == if Blocked(line) then KeepCodeLines(lines[i + 1..], started)
         else if IsHeader(line) && started then KeepCodeLines(lines[i + 1..], started)
         else [line] + KeepCodeLines(lines[i + 1..], started || IsHeader(line))
  {
    assert lines[i..][0] == lines[i] && lines[i..][1..] == lines[i + 1..];
  }

  /** The filter loop over the response lines, with its `func_started` flag. */
  method FilterCodeLines(lines: seq<string>) returns (cleanLines: seq<string>)
    ensures cleanLines == KeepCodeLines(lines, false)
  {
    cleanLines := [];
    var funcStarted := false;
    var i := 0;
    while i < |lines|
      invariant 0 <= i <= |lines|
      invariant cleanLines + KeepCodeLines(lines[i..], funcStarted) == KeepCodeLines(lines, false)
    {
      var line := lines[i];
      KeepCodeLinesStep(lines, i, funcStarted);
      i := i + 1;
      if HasMarkerWord(line) {
        continue;
      }
      if IsComment(line) {
        continue;
      }
      if HasLeak(line) {
        continue;
      }
      if IsHeader(line) && funcStarted {
        continue;
      }
      if IsHeader(line) {
        funcStarted := true;
      }
      AppendAssoc(cleanLines, [line], KeepCodeLines(lines[i..], funcStarted));
      cleanLines := cleanLines + [line];
    }
    assert lines[i..] == [];
  }

  /** `generate_reply_code_only`: one call with the code-only tuple (400
      tokens, 0.2), the placeholder, the line filter and the ending. */
  method GenerateReplyCodeOnly(engine: Oracle, prompt: string, language: string, code: string,
                               userId: string) returns (reply: string)
    ensures reply == CodeOnlyReply(ModeResponse(engine, CodeOnlyPrompt(language, prompt, code), CodeOnly), language)
  {
    var response := GenerateResponse(engine, CodeOnlyPrompt(language, prompt, code), 400, Tenths(2), Some(DefaultStop));
    CodeOnlyTuple(engine, CodeOnlyPrompt(language, prompt, code));
    response := UsePlaceholder(response, language);
    var cleanLines := FilterCodeLines(SplitLines(response));
    response := Strip(JoinLines(cleanLines));
    reply := AppendEnding(response, language);
  }

  /** The placeholder step: a blank text becomes the python or javascript
      placeholder. */
  method UsePlaceholder(response: string, language: string) returns (r: string)
    ensures r == WithPlaceholder(response, language)
  {
    r := response;
    if Strip(response) == [] {
      if IsPython(language) {
        r := PythonPlaceholder;
      } else if Lower(language) == "javascript" {
        r := JavascriptPlaceholder;
      }
    }
  }

  /** The ending step. */
  method AppendEnding(body: string, language: string) returns (r: string)
    ensures r == AddEnding(body, language)
  {
    r := body;
    if IsPython(language) {
      r := RStrip(r) + "\n# END";
    } else if IsCFamily(language) {
      if Contains(r, "}") {
        r := r[..LastIndexOf(r, "}").value + 1] + "\n// END";
      } else {
        r := r + "\n// END";
      }
    }
  }

  /** `max_tokens=400, temperature=0.2` and the explicit stop list are the
      code-only tuple. */
  lemma {:induction false} CodeOnlyTuple(engine: Oracle, prompt: string)
    ensures GenerateResponse(engine, prompt, 400, Tenths(2), Some(DefaultStop)) == ModeResponse(engine, prompt, CodeOnly)
  {
  }

  /* ---------- what the filter keeps ---------- */

  /** A line the filter keeps whatever the flag: neither blocked nor a header. */
  predicate IsBody(line: string) {
    !Blocked(line) && !IsHeader(line)
  }

  /** A header the filter may keep. */
  predicate UsableHeader(line: string) {
    !Blocked(line) && IsHeader(line)
  }

  function FirstOnly(xs: seq<string>): seq<string> {
    if xs == [] then [] else [xs[0]]
  }

  /** The kept lines are the response lines, unmodified and in order, with
      some deleted. */
  lemma {:induction false} KeptLinesAreSubsequence(lines: seq<string>, started: bool)
    ensures IsSubsequence(KeepCodeLines(lines, started), lines)
    decreases |lines|
  {
    if lines != [] {
      KeptLinesAreSubsequence(lines[1..], started || IsHeader(lines[0]));
      KeptLinesAreSubsequence(lines[1..], started);
    }
  }

  /** Every unblocked line that is not a header is kept, in order. */
  lemma {:induction false} BodyLinesKept(lines: seq<string>, started: bool)
    ensures Filter(KeepCodeLines(lines, started), IsBody) == Filter(lines, IsBody)
    decreases |lines|
  {
    if lines != [] {
      BodyLinesKept(lines[1..], started || IsHeader(lines[0]));
      BodyLinesKept(lines[1..], started);
      var kept := KeepCodeLines(lines, started);
      if !Blocked(lines[0]) && !(IsHeader(lines[0]) && started) {
        assert kept == [lines[0]] + KeepCodeLines(lines[1..], started || IsHeader(lines[0]));
        assert kept[1..] == KeepCodeLines(lines[1..], started || IsHeader(lines[0]));
      }
    }
  }

  /** Of the headers, exactly the first unblocked one is kept, and none once
      a header was kept before. */
  lemma {:induction false} FirstHeaderOnlyKept(lines: seq<string>, started: bool)
    ensures Filter(KeepCodeLines(lines, started), UsableHeader)
         == if started then [] else FirstOnly(Filter(lines, UsableHeader))
    decreases |lines|
  {
    if lines != [] {
      FirstHeaderOnlyKept(lines[1..], started || IsHeader(lines[0]));
      FirstHeaderOnlyKept(lines[1..], started);
      var kept := KeepCodeLines(lines, started);
      if !Blocked(lines[0]) && !(IsHeader(lines[0]) && started) {
        assert kept == [lines[0]] + KeepCodeLines(lines[1..], started || IsHeader(lines[0]));
        assert kept[1..] == KeepCodeLines(lines[1..], started || IsHeader(lines[0]));
      }
    }
  }

  /** No kept line, and so no filtered text, holds "END". */
  lemma {:induction false} FilteredTextHasNoEnd(response: string)
    ensures !Contains(FilteredText(response), "END")
  {
    var kept := KeepCodeLines(SplitLines(response), false);
    forall l | l in kept
      ensures !Contains(l, "END")
    {
    }
    NoOccurrenceInJoinLines(kept, "END");
    NoOccurrenceInStrip(JoinLines(kept), "END");
  }

  /* ---------- the endings ---------- */

  /** In the python ending, "END" can only occur at its own place. */
  lemma {:induction false} PythonTailOccurrence(r: string, k: nat)
    requires !Contains(r, "END") && k != |r| + 3
    ensures !OccursAt(r + "\n# END", "END", k)
  {
    var out := r + "\n# END";
    if k + 3 <= |r| {
      OccursInFront(r, "\n# END", "END", k);
    } else if k < |r| {
      LineBreakInside(out, "END", k, |r|);
    } else if k < |r| + 3 {
      assert out[k] == "\n# END"[k - |r|] && out[k] != 'E';
      NoOccurrenceAtOtherChar(out, "END", k);
    }
  }

  /** python: the reply ends with "\n# END", and that is the only "END" in it. */
  lemma {:induction false} PythonEnding(response: string, language: string)
    requires IsPython(language)
    ensures var out := CodeOnlyReply(response, language);
      EndsWith(out, "\n# END") && forall k :: OccursAt(out, "END", k) ==> k == |out| - 3
  {
    var body := FilteredText(WithPlaceholder(response, language));
    FilteredTextHasNoEnd(WithPlaceholder(response, language));
    NoOccurrenceInStrip(body, "END");
    var r := RStrip(body);
    var out := r + "\n# END";
    assert CodeOnlyReply(response, language) == out;
    assert out[|out| - 6..] == "\n# END";
    forall k | OccursAt(out, "END", k)
      ensures k == |out| - 3
    {
      if k != |r| + 3 {
        PythonTailOccurrence(r, k);
      }
    }
  }

  /** javascript, java, c++, c: the reply is the filtered text up to its last
      "}" (all of it when there is none) followed by "\n// END". */
  lemma {:induction false} CFamilyEnding(response: string, language: string)
    requires IsCFamily(language)
    ensures var body := FilteredText(WithPlaceholder(response, language));
      var out := CodeOnlyReply(response, language);
      EndsWith(out, "\n// END")
      && var p := out[..|out| - 7];
      p == body[..|p|]
      && (Contains(body, "}") ==> p != [] && p[|p| - 1] == '}' && !Contains(body[|p|..], "}"))
      && (!Contains(body, "}") ==> p == body)
  {
    var body := FilteredText(WithPlaceholder(response, language));
    CFamilyIsNotPython(language);
    CutAtLastBrace(body, language);
  }

  lemma {:induction false} CFamilyIsNotPython(language: string)
    requires IsCFamily(language)
    ensures !IsPython(language)
  {
    var l := Lower(language);
    assert l[0] != 'p' || |l| != 6;
  }

  /** The C-family cut, for any text. */
  lemma {:induction false} CutAtLastBrace(body: string, language: string)
    requires IsCFamily(language) && !IsPython(language)
    ensures var out := AddEnding(body, language);
      EndsWith(out, "\n// END")
      && var p := out[..|out| - 7];
      p == body[..|p|]
      && (Contains(body, "}") ==> p != [] && p[|p| - 1] == '}' && !Contains(body[|p|..], "}"))
      && (!Contains(body, "}") ==> p == body)
  {
    var out := AddEnding(body, language);
    if Contains(body, "}") {
      var k := LastIndexOf(body, "}").value;
      var p := body[..k + 1];
      assert out[..|out| - 7] == p;
      assert body[k..k + 1] == "}";
      if Contains(body[k + 1..], "}") {
        var j :| OccursAt(body[k + 1..], "}", j);
        OccursInSuffix(body, "}", k + 1, j);
      }
    } else {
      assert out[..|out| - 7] == body;
    }
  }

  /** Any other language: the filtered text is returned as it is, with no
      end marker at all. */
  lemma {:induction false} OtherLanguageEnding(response: string, language: string)
    requires !IsPython(language) && !IsCFamily(language)
    ensures CodeOnlyReply(response, language) == FilteredText(WithPlaceholder(response, language))
    ensures !Contains(CodeOnlyReply(response, language), "END")
  {
    FilteredTextHasNoEnd(WithPlaceholder(response, language));
  }
}
