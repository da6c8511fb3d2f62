/** What `generate_reply_code_only` returns in its fixed cases: a blank
    engine text, a reply that is already a placeholder, and a one-line reply
    carrying a marker word. Each fact is proved about variables that the
    requires pin to a text, so the verifier never unrolls a function over a
    literal. */
module CodeOnlyCases {
  import opened Text
  import opened Pipeline

  /* ---------- language names ---------- */

  lemma {:induction false} PythonName(language: string)
    requires language == "python"
    ensures IsPython(language)
  {
    LowerOfLowerCase(language);
  }

  lemma {:induction false} JavascriptName(language: string)
    requires language == "javascript"
    ensures Lower(language) == "javascript" && IsCFamily(language) && !IsPython(language)
  {
    LowerOfLowerCase(language);
  }

  /* ---------- lines of the placeholders ---------- */

  /** A line without the letters of a marker word or a leak has neither. */
  lemma {:induction false} NoMarkerNoLeak(l: string)
    requires 'B' !in l && 'E' !in l && '_' !in l && 'U' !in l
    ensures !HasMarkerWord(l) && !HasLeak(l)
  {
    MissingCharNoOccurrence(l, "BEGIN", 0);
    MissingCharNoOccurrence(l, "END", 0);
    MissingCharNoOccurrence(l, "edge_all_open_tabs", 4);
    MissingCharNoOccurrence(l, "User", 0);
  }

  lemma {:induction false} NotComment(l: string, s: string)
    requires Strip(l) == s && s != [] && s[0] != '#'
    ensures !IsComment(l)
  {
  }

  lemma {:induction false} NotHeader(l: string, s: string)
    requires 'f' !in l && Strip(l) == s && s != [] && s[0] != 'd'
    ensures !IsHeader(l)
  {
    MissingCharNoOccurrence(l, "function ", 0);
  }

  /** A header line without marker words, comment mark or leak. */
  lemma {:induction false} HeaderShape(l: string)
    requires 'B' !in l && 'E' !in l && '_' !in l && 'U' !in l
    requires Strip(l) == l && l != [] && l[0] != '#'
    requires StartsWith(l, "def ") || Contains(l, "function ")
    ensures UsableHeader(l)
  {
    NoMarkerNoLeak(l);
    NotComment(l, l);
  }

  /** A body line without marker words, comment mark, leak or header. */
  lemma {:induction false} BodyShape(l: string, s: string)
    requires 'B' !in l && 'E' !in l && '_' !in l && 'U' !in l && 'f' !in l
    requires Strip(l) == s && s != [] && s[0] != '#' && s[0] != 'd'
    ensures IsBody(l)
  {
    NoMarkerNoLeak(l);
    NotComment(l, s);
    NotHeader(l, s);
  }

  /** The characters of the placeholder headers: lower-case letters, blanks
      and punctuation. */
  predicate Plain(c: char) {
    ('a' <= c <= 'z') || c == ' ' || c == '(' || c == ')' || c == '{' || c == '}' || c == ':'
  }

  /** A line of plain characters has no marker or leak letter. */
  lemma {:induction false} PlainLine(l: string)
    requires forall i | 0 <= i < |l| :: Plain(l[i])
    ensures 'B' !in l && 'E' !in l && '_' !in l && 'U' !in l
  {
  }

  lemma {:induction false} DefLineChars(l: string)
    requires l == "def placeholder():"
    ensures forall i | 0 <= i < |l| :: Plain(l[i])
  {
  }

  lemma {:induction false} DefLineStrip(l: string)
    requires l == "def placeholder():"
    ensures Strip(l) == l
  {
    assert l[0] == 'd' && l[17] == ':';
    StripNoop(l);
  }

  lemma {:induction false} DefLineHead(l: string)
    requires l == "def placeholder():"
    ensures l != [] && l[0] != '#' && StartsWith(l, "def ")
  {
    assert l[..4] == "def ";
  }

  lemma {:induction false} DefLine(l: string)
    requires l == "def placeholder():"
    ensures UsableHeader(l)
  {
    DefLineChars(l);
    PlainLine(l);
    DefLineStrip(l);
    DefLineHead(l);
    HeaderShape(l);
  }

  lemma {:induction false} PassLineChars(l: string)
    requires l == "    pass"
    ensures 'B' !in l && 'E' !in l && '_' !in l && 'U' !in l && 'f' !in l
  {
  }

  lemma {:induction false} PassLineStrip(l: string)
    requires l == "    pass"
    ensures Strip(l) == "pass"
  {
    assert l[0] == ' ' && l[1] == ' ' && l[2] == ' ' && l[3] == ' ';
    StripKeeps(l, 4, 7);
  }

  lemma {:induction false} PassLine(l: string)
    requires l == "    pass"
    ensures IsBody(l)
  {
    PassLineChars(l);
    PassLineStrip(l);
    BodyShape(l, "pass");
  }

  lemma {:induction false} FunctionLineChars(l: string)
    requires l == "function placeholder() {}"
    ensures forall i | 0 <= i < |l| :: Plain(l[i])
  {
  }

  lemma {:induction false} FunctionLineStrip(l: string)
    requires l == "function placeholder() {}"
    ensures Strip(l) == l
  {
    assert l[0] == 'f' && l[24] == '}';
    StripNoop(l);
  }

  lemma {:induction false} FunctionLineHead(l: string)
    requires l == "function placeholder() {}"
    ensures l != [] && l[0] != '#' && Contains(l, "function ")
  {
    assert OccursAt(l, "function ", 0);
  }

  lemma {:induction false} FunctionLine(l: string)
    requires l == "function placeholder() {}"
    ensures UsableHeader(l)
  {
    FunctionLineChars(l);
    PlainLine(l);
    FunctionLineStrip(l);
    FunctionLineHead(l);
    HeaderShape(l);
  }

  /** A line holding "END" is dropped. */
  lemma {:induction false} EndLine(l: string, k: nat)
    requires k + 3 <= |l| && l[k] == 'E' && l[k + 1] == 'N' && l[k + 2] == 'D'
    ensures Blocked(l)
  {
    assert l[k..k + 3] == "END";
    assert OccursAt(l, "END", k);
  }

  /* ---------- the filter on the placeholders ---------- */

  lemma {:induction false} KeepTwo(l0: string, l1: string)
    requires UsableHeader(l0) && Blocked(l1)
    ensures KeepCodeLines([l0, l1], false) == [l0]
  {
    assert KeepCodeLines([l1], true) == [];
    assert [l0, l1][1..] == [l1];
  }

  lemma {:induction false} KeepThree(l0: string, l1: string, l2: string)
    requires UsableHeader(l0) && IsBody(l1) && Blocked(l2)
    ensures KeepCodeLines([l0, l1, l2], false) == [l0, l1]
  {
    assert KeepCodeLines([l2], true) == [];
    assert [l1, l2][1..] == [l2];
    assert KeepCodeLines([l1, l2], true) == [l1];
    assert [l0, l1, l2][1..] == [l1, l2];
  }

  lemma {:induction false} ThreeLines(p: string, l0: string, l1: string, l2: string)
    requires '\n' !in l0 && '\n' !in l1 && '\n' !in l2 && l2 != []
    requires p == l0 + "\n" + l1 + "\n" + l2
    ensures SplitLines(p) == [l0, l1, l2]
  {
    assert JoinLines([l2]) == l2;
    assert JoinLines([l1, l2]) == l1 + "\n" + l2;
    assert JoinLines([l0, l1, l2]) == p;
    SplitLinesJoinLines([l0, l1, l2]);
  }

  lemma {:induction false} TwoLines(p: string, l0: string, l1: string)
    requires '\n' !in l0 && '\n' !in l1 && l1 != []
    requires p == l0 + "\n" + l1
    ensures SplitLines(p) == [l0, l1]
  {
    assert JoinLines([l1]) == l1;
    assert JoinLines([l0, l1]) == p;
    SplitLinesJoinLines([l0, l1]);
  }

  /** Three lines, of which the filter drops the last: the first two are left. */
  lemma {:induction false} FilterThreeLines(p: string, l0: string, l1: string, l2: string)
    requires '\n' !in l0 && '\n' !in l1 && '\n' !in l2 && l2 != []
    requires p == l0 + "\n" + l1 + "\n" + l2
    requires UsableHeader(l0) && IsBody(l1) && Blocked(l2)
    ensures FilteredText(p) == Strip(l0 + "\n" + l1)
  {
    ThreeLines(p, l0, l1, l2);
    KeepThree(l0, l1, l2);
    assert JoinLines([l1]) == l1;
    assert JoinLines([l0, l1]) == l0 + "\n" + l1;
  }

  /** Two lines, of which the filter drops the last: the first is left. */
  lemma {:induction false} FilterTwoLines(p: string, l0: string, l1: string)
    requires '\n' !in l0 && '\n' !in l1 && l1 != []
    requires p == l0 + "\n" + l1
    requires UsableHeader(l0) && Blocked(l1)
    ensures FilteredText(p) == Strip(l0)
  {
    TwoLines(p, l0, l1);
    KeepTwo(l0, l1);
    assert JoinLines([l0]) == l0;
  }

  lemma {:induction false} PythonPlaceholderShape(p: string, l0: string, l1: string, l2: string)
    requires p == PythonPlaceholder && l0 == "def placeholder():" && l1 == "    pass" && l2 == "# END"
    ensures '\n' !in l0 && '\n' !in l1 && '\n' !in l2 && l2 != []
    ensures p == l0 + "\n" + l1 + "\n" + l2
  {
  }

  lemma {:induction false} PythonBodyStrip(t: string)
    requires t == "def placeholder():\n    pass"
    ensures Strip(t) == t && RStrip(t) == t
  {
    assert t[0] == 'd' && t[|t| - 1] == 's';
    StripNoop(t);
  }

  lemma {:induction false} PythonBodyEnding(t: string, l0: string, l1: string)
    requires l0 == "def placeholder():" && l1 == "    pass" && t == l0 + "\n" + l1
    ensures t == "def placeholder():\n    pass" && t + "\n# END" == PythonPlaceholder
  {
  }

  /** The python placeholder loses its "# END" line to the filter. */
  lemma {:induction false} PythonPlaceholderFiltered(p: string, l0: string, l1: string, l2: string)
    requires p == PythonPlaceholder && l0 == "def placeholder():" && l1 == "    pass" && l2 == "# END"
    ensures FilteredText(p) + "\n# END" == p && RStrip(FilteredText(p)) == FilteredText(p)
  {
    PythonPlaceholderShape(p, l0, l1, l2);
    DefLine(l0);
    PassLine(l1);
    EndLine(l2, 2);
    FilterThreeLines(p, l0, l1, l2);
    var t := l0 + "\n" + l1;
    PythonBodyEnding(t, l0, l1);
    PythonBodyStrip(t);
  }

  lemma {:induction false} JavascriptPlaceholderShape(p: string, l0: string, l1: string)
    requires p == JavascriptPlaceholder && l0 == "function placeholder() {}" && l1 == "// END"
    ensures '\n' !in l0 && '\n' !in l1 && l1 != []
    ensures p == l0 + "\n" + l1
  {
  }

  /** The javascript placeholder loses its "// END" line to the filter. */
  lemma {:induction false} JavascriptPlaceholderFiltered(p: string, l0: string, l1: string)
    requires p == JavascriptPlaceholder && l0 == "function placeholder() {}" && l1 == "// END"
    ensures FilteredText(p) == l0
  {
    JavascriptPlaceholderShape(p, l0, l1);
    FunctionLine(l0);
    EndLine(l1, 3);
    FilterTwoLines(p, l0, l1);
    FunctionLineStrip(l0);
  }

  /* ---------- the fixed replies ---------- */

  lemma {:induction false} PythonPlaceholderNotBlank(p: string)
    requires p == PythonPlaceholder
    ensures Strip(p) != []
  {
    assert p[0] == 'd';
    StripKeeps(p, 0, 0);
  }

  /** python, blank engine text or the placeholder itself: the reply is the
      python placeholder. */
  lemma {:induction false} PythonPlaceholderReply(response: string, language: string)
    requires IsPython(language)
    requires Strip(response) == [] || response == PythonPlaceholder
    ensures CodeOnlyReply(response, language) == PythonPlaceholder
  {
    var p := PythonPlaceholder;
    PythonPlaceholderNotBlank(p);
    assert WithPlaceholder(response, language) == p;
    PythonPlaceholderFiltered(p, "def placeholder():", "    pass", "# END");
  }

  lemma {:induction false} JavascriptEnding(t: string, language: string)
    requires t == "function placeholder() {}" && Lower(language) == "javascript"
    ensures AddEnding(t, language) == JavascriptPlaceholder
  {
    assert !IsPython(language) && IsCFamily(language);
    assert OccursAt(t, "}", 24);
    LastIndexOfUnique(t, "}", 24);
    assert t[..25] == t;
  }

  lemma {:induction false} JavascriptPlaceholderNotBlank(p: string)
    requires p == JavascriptPlaceholder
    ensures Strip(p) != []
  {
    assert p[0] == 'f';
    StripKeeps(p, 0, 0);
  }

  /** javascript, blank engine text or the placeholder itself: the reply is
      the javascript placeholder. */
  lemma {:induction false} JavascriptPlaceholderReply(response: string, language: string)
    requires Lower(language) == "javascript"
    requires Strip(response) == [] || response == JavascriptPlaceholder
    ensures CodeOnlyReply(response, language) == JavascriptPlaceholder
  {
    var p := JavascriptPlaceholder;
    JavascriptPlaceholderNotBlank(p);
    assert !IsPython(language);
    assert WithPlaceholder(response, language) == p;
    JavascriptPlaceholderFiltered(p, "function placeholder() {}", "// END");
    JavascriptEnding("function placeholder() {}", language);
  }

  /** A C-family reply of one line carrying a marker word is dropped whole:
      only the end marker is left. */
  lemma {:induction false} BlockedOneLineReply(response: string, language: string)
    requires '\n' !in response && Blocked(response) && Strip(response) != []
    requires IsCFamily(language)
    ensures CodeOnlyReply(response, language) == "\n// END"
  {
    assert !IsPython(language);
    assert response != [];
    assert Split(response, '\n') == [response];
    assert SplitLines(response) == [response];
    assert KeepCodeLines([response], false) == [];
    assert JoinLines([]) == [];
    StripNoop([]);
    MissingCharNoOccurrence([], "}", 0);
  }

  lemma {:induction false} OneLineChars(r: string)
    requires r == "function foo(){return 1;} BEGIN extra"
    ensures '\n' !in r
  {
  }

  lemma {:induction false} OneLineMarker(r: string)
    requires r == "function foo(){return 1;} BEGIN extra"
    ensures Blocked(r)
  {
    assert r[26..31] == "BEGIN";
    assert OccursAt(r, "BEGIN", 26);
  }

  lemma {:induction false} OneLineNotBlank(r: string)
    requires r == "function foo(){return 1;} BEGIN extra"
    ensures Strip(r) != []
  {
    assert r[0] == 'f';
    StripKeeps(r, 0, 0);
  }

  /** The reply "function foo(){return 1;} BEGIN extra" in javascript, code
      and all, becomes "\n// END". */
  lemma {:induction false} OneLineReplyDropped(response: string, language: string)
    requires response == "function foo(){return 1;} BEGIN extra" && language == "javascript"
    ensures CodeOnlyReply(response, language) == "\n// END"
  {
    JavascriptName(language);
    OneLineChars(response);
    OneLineMarker(response);
    OneLineNotBlank(response);
    BlockedOneLineReply(response, language);
  }
}
