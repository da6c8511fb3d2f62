/** `_clean_mentor_response` (ml_engine.py): the clean-up of a mentor-style
    explanation. Each regular expression of the original is a hand-written
    matcher here, and each `re.sub(pattern, "", ...)` is the left-to-right scan
    `EraseFrom`, which at every position either deletes one leftmost match and
    continues after it, or keeps one character. */
module MentorClean {
  import opened Text

  /** The deletions of the cleaner, in the order they are applied. */
  datatype Rule =
    | LatexCode           // \\begin\{code\}[\s\S]*?\\end\{code\}, IGNORECASE
    | Fence               // ```[\s\S]*?```
    | TabsDump            // edge_all_open_tabs\s*=\s*\[[\s\S]*?\]
    | BrowserTabsComment  // #\s*User.*browser.*tabs.*metadata.*
    | LoadModelDef        // \bdef\s+_load_model\b
    | LlamaCpp            // \bllama_cpp\b
    | ImportOs            // \bimport\s+os\b
    | Traceback           // \btraceback\b

  /** `bad_patterns`, each erased case-insensitively. */
  const LeakRules: seq<Rule> := [TabsDump, BrowserTabsComment, LoadModelDef, LlamaCpp, ImportOs, Traceback]

  const FenceMark: string := "```"

  /** Word boundary `\b` in front of a word character at `i`. */
  predicate BoundaryBefore(s: string, i: nat)
    requires i <= |s|
  {
    i == 0 || !IsWordChar(s[i - 1])
  }

  /** Word boundary `\b` after a word character at `e - 1`. */
  predicate BoundaryAfter(s: string, e: nat)
    requires e <= |s|
  {
    e == |s| || !IsWordChar(s[e])
  }

  /** End of a match of `\bw\b` at `i`, for a lower-case word `w`. */
  function WordEnd(s: string, i: nat, w: string): (e: Option<nat>)
    requires i <= |s|
    ensures e.Some? ==> e.value == i + |w| <= |s| && OccursAtCI(s, w, i)
  {
    if BoundaryBefore(s, i) && OccursAtCI(s, w, i) && BoundaryAfter(s, i + |w|) then Some(i + |w|) else None
  }

  /** End of a match of `\bfirst\s+second\b` at `i`. */
  function PhraseEnd(s: string, i: nat, first: string, second: string): (e: Option<nat>)
    requires i <= |s|
    ensures e.Some? ==> i + |first| + |second| < e.value <= |s| && OccursAtCI(s, first, i)
  {
    if BoundaryBefore(s, i) && OccursAtCI(s, first, i) then
      var j := SkipSpaces(s, i + |first|);
      if j > i + |first| && OccursAtCI(s, second, j) && BoundaryAfter(s, j + |second|) then Some(j + |second|)
      else None
    else None
  }

  /** The index of the "\n" ending the line that contains `i` (or `|s|`). */
  function LineEnd(s: string, i: nat): (j: nat)
    requires i <= |s|
    ensures i <= j <= |s| && (j < |s| ==> s[j] == '\n')
    ensures forall t :: i <= t < j ==> s[t] != '\n'
    decreases |s| - i
  {
    if i == |s| || s[i] == '\n' then i else LineEnd(s, i + 1)
  }

  /** `.*browser.*tabs.*metadata` inside `s[from..eol]`: the leftmost choice of
      each word is a match whenever any choice is. */
  predicate InOrderOnLine(s: string, from: nat, eol: nat)
    requires from <= eol <= |s|
  {
    match IndexOfCI(s, "browser", from)
    case None => false
    case Some(b) =>
      b + 7 <= eol &&
      match IndexOfCI(s, "tabs", b + 7)
      case None => false
      case Some(t) =>
        t + 4 <= eol &&
        match IndexOfCI(s, "metadata", t + 4)
        case None => false
        case Some(m) => m + 8 <= eol
  }

  /** Where the match of rule `r` that starts at `i` ends, if one does. The lazy
      `*?` of the span rules ends at the first closing delimiter. */
  function MatchEnd(r: Rule, s: string, i: nat): (e: Option<nat>)
    requires i < |s|
    ensures e.Some? ==> i < e.value <= |s|
  {
    match r
    case LatexCode =>
      if OccursAtCI(s, "\\begin{code}", i) then
        match IndexOfCI(s, "\\end{code}", i + 12)
        case Some(k) => Some(k + 10)
        case None => None
      else None
    case Fence =>
      if OccursAt(s, FenceMark, i) then
        match IndexOf(s, FenceMark, i + 3)
        case Some(k) => Some(k + 3)
        case None => None
      else None
    case TabsDump =>
      if OccursAtCI(s, "edge_all_open_tabs", i) then
        var j := SkipSpaces(s, i + 18);
        if j < |s| && s[j] == '=' then
          var j' := SkipSpaces(s, j + 1);
          if j' < |s| && s[j'] == '[' then
            match IndexOf(s, "]", j' + 1)
            case Some(k) => Some(k + 1)
            case None => None
          else None
        else None
      else None
    case BrowserTabsComment =>
      if s[i] == '#' then
        var j := SkipSpaces(s, i + 1);
        if OccursAtCI(s, "user", j) then
          var eol := LineEnd(s, j + 4);
          if InOrderOnLine(s, j + 4, eol) then Some(eol) else None
        else None
      else None
    case LoadModelDef => PhraseEnd(s, i, "def", "_load_model")
    case LlamaCpp => WordEnd(s, i, "llama_cpp")
    case ImportOs => PhraseEnd(s, i, "import", "os")
    case Traceback => WordEnd(s, i, "traceback")
  }

  /** No match of `r` starts at or after `i`. */
  predicate NoMatchFrom(r: Rule, s: string, i: nat) {
    forall k :: i <= k < |s| ==> MatchEnd(r, s, k).None?
  }

  /** `re.sub(pattern, "", s)` applied to the part of `s` from `i` on (the
      characters before `i` stay visible to the word boundaries). The text is
      left alone exactly when nothing matches; otherwise it gets shorter. */
  function EraseFrom(r: Rule, s: string, i: nat): (out: string)
    requires i <= |s|
    ensures |out| <= |s| - i
    ensures NoMatchFrom(r, s, i) ==> out == s[i..]
    ensures !NoMatchFrom(r, s, i) ==> |out| < |s| - i
    decreases |s| - i
  {
    if i == |s| then ""
    else
      match MatchEnd(r, s, i)
      case Some(e) => EraseFrom(r, s, e)
      case None => [s[i]] + EraseFrom(r, s, i + 1)
  }

  function Erase(r: Rule, s: string): string {
    EraseFrom(r, s, 0)
  }

  /** The loop over `bad_patterns`. */
  function EraseAll(rules: seq<Rule>, s: string): string
    decreases |rules|
  {
    if rules == [] then s else EraseAll(rules[1..], Erase(rules[0], s))
  }

  /** No two separate "```" marks: what a fenced block would need. */
  predicate NoFencedBlock(t: string) {
    forall a, b :: 0 <= a && a + 3 <= b && b < |t| && OccursAt(t, FenceMark, a) ==> !OccursAt(t, FenceMark, b)
  }

  lemma {:induction false} FenceAt(t: string, k: nat)
    ensures OccursAt(t, FenceMark, k) <==> k + 3 <= |t| && t[k] == '`' && t[k + 1] == '`' && t[k + 2] == '`'
  {
    if k + 3 <= |t| && t[k] == '`' && t[k + 1] == '`' && t[k + 2] == '`' {
      assert t[k..k + 3] == FenceMark;
    }
  }

  /** A span match at `j` with a backtick just before it would have started at
      `j - 1` instead. */
  lemma {:induction false} BacktickBeforeFence(s: string, j: nat)
    requires 0 < j < |s| && s[j - 1] == '`' && MatchEnd(Fence, s, j).Some?
    ensures MatchEnd(Fence, s, j - 1).Some?
  {
    FenceAt(s, j);
    FenceAt(s, j - 1);
    var k := IndexOf(s, FenceMark, j + 3).value;
    assert IndexOf(s, FenceMark, j + 2).Some?;
  }

  /** From an unclosed "```" on, nothing matches and the text is kept. */
  lemma {:induction false} UnclosedFenceKept(s: string, i: nat)
    requires i < |s| && OccursAt(s, FenceMark, i) && IndexOf(s, FenceMark, i + 3).None?
    ensures EraseFrom(Fence, s, i) == s[i..]
  {
    forall k | i <= k < |s|
      ensures MatchEnd(Fence, s, k).None?
    {
    }
  }

  /** Where no match starts, the scan keeps the character. */
  lemma {:induction false} KeptChar(s: string, j: nat)
    requires j < |s| && MatchEnd(Fence, s, j).None?
    ensures EraseFrom(Fence, s, j) == [s[j]] + EraseFrom(Fence, s, j + 1)
  {
  }

  /** No match starts right after a backtick where none started. */
  lemma {:induction false} NoMatchAfterBacktick(s: string, j: nat)
    requires 0 < j < |s| && s[j - 1] == '`' && MatchEnd(Fence, s, j - 1).None?
    ensures MatchEnd(Fence, s, j).None?
  {
    if MatchEnd(Fence, s, j).Some? {
      BacktickBeforeFence(s, j);
    }
  }

  /** Two kept backticks at the head of the output: the first is a backtick of
      the input, and the scan goes on with no match at the next position. */
  lemma {:induction false} KeptBacktickStep(s: string, j: nat)
    requires j < |s| && MatchEnd(Fence, s, j).None?
    requires var out := EraseFrom(Fence, s, j); |out| >= 2 && out[0] == '`' && out[1] == '`'
    ensures s[j] == '`' && j + 1 < |s| && MatchEnd(Fence, s, j + 1).None?
    ensures EraseFrom(Fence, s, j + 1) == EraseFrom(Fence, s, j)[1..]
  {
    KeptChar(s, j);
    NoMatchAfterBacktick(s, j + 1);
  }

  /** A "```" at the head of the output comes from three backticks of the
      input at the same place. */
  lemma {:induction false} HeadBackticks(s: string, i: nat)
    requires i < |s| && MatchEnd(Fence, s, i).None?
    requires OccursAt(EraseFrom(Fence, s, i), FenceMark, 0)
    ensures i + 3 <= |s| && s[i] == '`' && s[i + 1] == '`' && s[i + 2] == '`'
  {
    var out := EraseFrom(Fence, s, i);
    FenceAt(out, 0);
    KeptBacktickStep(s, i);
    KeptBacktickStep(s, i + 1);
    KeptChar(s, i + 2);
  }

  /** A mark where no match starts has no closing mark after it. */
  lemma {:induction false} UnclosedMark(s: string, i: nat)
    requires i < |s| && MatchEnd(Fence, s, i).None? && OccursAt(s, FenceMark, i)
    ensures IndexOf(s, FenceMark, i + 3).None?
  {
  }

  /** A kept "```" at the head of the output is an unclosed mark of the input,
      and everything from it on is kept verbatim. */
  lemma {:induction false} KeptFenceHead(s: string, i: nat)
    requires i < |s| && MatchEnd(Fence, s, i).None?
    requires OccursAt(EraseFrom(Fence, s, i), FenceMark, 0)
    ensures EraseFrom(Fence, s, i) == s[i..]
    ensures OccursAt(s, FenceMark, i) && IndexOf(s, FenceMark, i + 3).None?
  {
    HeadBackticks(s, i);
    FenceAt(s, i);
    UnclosedMark(s, i);
    UnclosedFenceKept(s, i);
  }

  /** A pair of marks after the first character is a pair in the rest. */
  lemma {:induction false} ShiftedPair(out: string, rest: string, c: char, a: nat, b: nat)
    requires out == [c] + rest && NoFencedBlock(rest)
    requires 0 < a && a + 3 <= b && OccursAt(out, FenceMark, a)
    ensures !OccursAt(out, FenceMark, b)
  {
    FenceAt(out, a);
    FenceAt(out, b);
    FenceAt(rest, a - 1);
    FenceAt(rest, b - 1);
  }

  /** A kept head mark is unclosed, so no second mark follows it. */
  lemma {:induction false} HeadPair(s: string, i: nat, b: nat)
    requires i < |s| && MatchEnd(Fence, s, i).None?
    requires OccursAt(EraseFrom(Fence, s, i), FenceMark, 0) && 3 <= b
    ensures !OccursAt(EraseFrom(Fence, s, i), FenceMark, b)
  {
    KeptFenceHead(s, i);
    var out := EraseFrom(Fence, s, i);
    if OccursAt(out, FenceMark, b) {
      assert out[b..b + 3] == s[i + b..i + b + 3];
      assert OccursAt(s, FenceMark, i + b);
      assert false;
    }
  }

  /** One step of the scan keeps the output free of fenced blocks: a pair of
      marks in the longer output is either a pair in the shorter one or starts
      at a kept head mark, which is unclosed. */
  lemma {:induction false} KeptCharKeepsNoBlock(s: string, i: nat, a: nat, b: nat)
    requires i < |s| && MatchEnd(Fence, s, i).None?
    requires NoFencedBlock(EraseFrom(Fence, s, i + 1))
    requires a + 3 <= b && OccursAt(EraseFrom(Fence, s, i), FenceMark, a)
    ensures !OccursAt(EraseFrom(Fence, s, i), FenceMark, b)
  {
    if a > 0 {
      ShiftedPair(EraseFrom(Fence, s, i), EraseFrom(Fence, s, i + 1), s[i], a, b);
    } else {
      HeadPair(s, i, b);
    }
  }

  /** `re.sub(r"```[\s\S]*?```", "", ...)` leaves no two separate "```" marks:
      only an unclosed mark, with the text after it, can remain. */
  lemma {:induction false} FenceEraseLeavesNoBlock(s: string, i: nat)
    requires i <= |s|
    ensures NoFencedBlock(EraseFrom(Fence, s, i))
    decreases |s| - i
  {
    if i < |s| {
      match MatchEnd(Fence, s, i)
      case Some(e) =>
        FenceEraseLeavesNoBlock(s, e);
      case None =>
        FenceEraseLeavesNoBlock(s, i + 1);
        var out := EraseFrom(Fence, s, i);
        forall a, b | 0 <= a && a + 3 <= b && b < |out| && OccursAt(out, FenceMark, a)
          ensures !OccursAt(out, FenceMark, b)
        {
          KeptCharKeepsNoBlock(s, i, a, b);
        }
    }
  }

  /** The fence step of the cleaner leaves no fenced block. */
  lemma {:induction false} NoFencedBlockAfterFenceStep(s: string)
    ensures NoFencedBlock(Erase(Fence, s))
  {
    FenceEraseLeavesNoBlock(s, 0);
  }

  /** One pass of the label loop: a leading `prefix` (any case) is cut off and the
      rest stripped again. */
  function DropLabel(s: string, prefix: string): string {
    if OccursAtCI(s, prefix, 0) then Strip(s[|prefix|..]) else s
  }

  /** The labels, each tried once, in this order. */
  function DropLabels(s: string): string {
    DropLabel(DropLabel(DropLabel(s, "answer:"), "explanation:"), "response:")
  }

  /** `Step\s*1|^\s*1\.` under IGNORECASE and MULTILINE matches at `i`. */
  predicate StepMarkerAt(s: string, i: nat)
    requires i <= |s|
  {
    (OccursAtCI(s, "step", i) && var j := SkipSpaces(s, i + 4); j < |s| && s[j] == '1')
    || ((i == 0 || s[i - 1] == '\n') && var j := SkipSpaces(s, i); j + 1 < |s| && s[j] == '1' && s[j + 1] == '.')
  }

  /** `re.search` for the step marker, from `from` on. */
  function FirstStepMarker(s: string, from: nat): (r: Option<nat>)
    requires from <= |s|
    ensures r.Some? ==> from <= r.value <= |s| && StepMarkerAt(s, r.value)
    ensures r.Some? ==> NoStepMarkerIn(s, from, r.value)
    ensures r.None? ==> NoStepMarkerIn(s, from, |s| + 1)
    decreases |s| - from
  {
    if StepMarkerAt(s, from) then Some(from)
    else if from == |s| then None
    else
      var r := FirstStepMarker(s, from + 1);
      NoStepMarkerStep(s, from, if r.Some? then r.value else |s| + 1);
      r
  }

  /** No step marker starts at an index in `[a, b)`. */
  predicate NoStepMarkerIn(s: string, a: nat, b: nat)
    requires b <= |s| + 1
  {
    forall k :: a <= k < b ==> !StepMarkerAt(s, k)
  }

  lemma {:induction false} NoStepMarkerStep(s: string, a: nat, b: nat)
    requires a < b <= |s| + 1 && !StepMarkerAt(s, a) && NoStepMarkerIn(s, a + 1, b)
    ensures NoStepMarkerIn(s, a, b)
  {
    forall k | a <= k < b
      ensures !StepMarkerAt(s, k)
    {
      if k != a {
        assert a + 1 <= k < b;
      }
    }
  }

  /** Stripping the text from a non-space `s[k]` on keeps a prefix of it that
      reaches past the non-space `s[j]`. */
  lemma {:induction false} StripFromHead(s: string, k: nat, j: nat)
    requires k <= j < |s| && !IsSpace(s[k]) && !IsSpace(s[j])
    ensures var r := Strip(s[k..]); j - k < |r| && r == s[k..k + |r|]
  {
    var t := s[k..];
    assert t[j - k] == s[j];
    StripKeeps(t, 0, j - k);
  }

  /** A prefix of the text from a `Step 1` marker on that reaches the "1" has
      the marker at its head. */
  lemma {:induction false} StepWordAtHead(s: string, k: nat, j: nat, r: string)
    requires k + 4 <= j < |s| && OccursAtCI(s, "step", k) && j == SkipSpaces(s, k + 4) && s[j] == '1'
    requires j - k < |r| && k + |r| <= |s| && r == s[k..k + |r|]
    ensures StepMarkerAt(r, 0)
  {
    OccursAtCIShift(s, "step", k, r);
    SkipSpacesUnique(r, 4, j - k);
  }

  /** Stripping the text from a `Step 1` marker on keeps the marker at its head. */
  lemma {:induction false} StepWordSurvivesStrip(s: string, k: nat, j: nat)
    requires OccursAtCI(s, "step", k) && j == SkipSpaces(s, k + 4) && j < |s| && s[j] == '1'
    ensures StepMarkerAt(Strip(s[k..]), 0)
  {
    StepWordNotSpace(s, k);
    assert !IsSpace(s[j]);
    StripFromHead(s, k, j);
    StepWordAtHead(s, k, j, Strip(s[k..]));
  }

  lemma {:induction false} StepWordNotSpace(s: string, k: nat)
    requires OccursAtCI(s, "step", k)
    ensures k + 4 <= |s| && !IsSpace(s[k])
  {
    assert LowerChar(s[k]) == Lower(s)[k] == 's';
  }

  /** Stripping the text from a line-start `1.` marker leaves "1." at its head. */
  lemma {:induction false} NumberSurvivesStrip(s: string, k: nat, j: nat)
    requires k <= |s| && j == SkipSpaces(s, k) && j + 1 < |s| && s[j] == '1' && s[j + 1] == '.'
    ensures StepMarkerAt(Strip(s[k..]), 0)
  {
    var t := s[k..];
    StripKeeps(t, j - k, j + 1 - k);
    var r := Strip(t);
    assert r[0] == '1' && r[1] == '.';
    SkipSpacesUnique(r, 0, 0);
  }

  /** Stripping the text from a marker on keeps the marker at its head. */
  lemma {:induction false} MarkerSurvivesStrip(s: string, k: nat)
    requires k <= |s| && StepMarkerAt(s, k)
    ensures StepMarkerAt(Strip(s[k..]), 0)
  {
    if OccursAtCI(s, "step", k) && SkipSpaces(s, k + 4) < |s| && s[SkipSpaces(s, k + 4)] == '1' {
      StepWordSurvivesStrip(s, k, SkipSpaces(s, k + 4));
    } else {
      NumberSurvivesStrip(s, k, SkipSpaces(s, k));
    }
  }

  /** A leading label written in any case ("Answer:", "ANSWER:" as well as
      "answer:") is cut off, whatever follows it, and the rest stripped. */
  lemma {:induction false} DropLabelAnyCase(written: string, rest: string, prefix: string)
    requires |written| == |prefix| && forall x :: 0 <= x < |prefix| ==> LowerChar(written[x]) == prefix[x]
    ensures DropLabel(written + rest, prefix) == Strip(rest)
  {
    var s := written + rest;
    assert Lower(s)[..|prefix|] == prefix by {
      forall x | 0 <= x < |prefix|
        ensures Lower(s)[x] == prefix[x]
      {
        assert s[x] == written[x];
      }
    }
    assert OccursAtCI(s, prefix, 0);
    assert s[|prefix|..] == rest;
  }

  /** A text with one "answer:" label whose remainder starts with neither of
      the other labels loses exactly that label. */
  lemma {:induction false} LabelDroppedOnce(s: string, rest: string)
    requires s == "answer:" + rest
    requires !OccursAtCI(Strip(rest), "explanation:", 0) && !OccursAtCI(Strip(rest), "response:", 0)
    ensures DropLabels(s) == Strip(rest)
  {
    LowerCaseLabel("answer:");
    DropLabelAnyCase("answer:", rest, "answer:");
  }

  /** The labels are written in lower case. */
  lemma {:induction false} LowerCaseLabel(p: string)
    requires p == "answer:"
    ensures forall x :: 0 <= x < |p| ==> LowerChar(p[x]) == p[x]
  {
    forall x | 0 <= x < |p|
      ensures LowerChar(p[x]) == p[x]
    {
      assert !('A' <= p[x] <= 'Z');
    }
  }

  lemma {:induction false} NoOtherLabel(t: string)
    requires |t| > 0 && (t[0] == 'a' || t[0] == 'x')
    ensures !OccursAtCI(t, "explanation:", 0) && !OccursAtCI(t, "response:", 0)
  {
    assert Lower(t)[0] == t[0];
  }

  lemma {:induction false} StripLeadingSpace(t: string)
    requires |t| > 1 && t[0] == ' ' && !IsSpace(t[1]) && !IsSpace(t[|t| - 1])
    ensures Strip(t) == t[1..]
  {
    StripKeeps(t, 1, |t| - 1);
  }

  /** Each label is tried once: a repeated "answer:" survives the first pass. */
  lemma {:induction false} RepeatedLabelSurvives(s: string)
    requires s == "answer: answer: x"
    ensures DropLabels(s) == "answer: x"
  {
    var rest := s[7..];
    assert rest == " answer: x";
    StripLeadingSpace(rest);
    NoOtherLabel(rest[1..]);
    assert s == "answer:" + rest;
    LabelDroppedOnce(s, rest);
  }

  /** ... and goes on the second, so the clean-up is not idempotent. */
  lemma {:induction false} SecondPassDropsLabel(s: string)
    requires s == "answer: x"
    ensures DropLabels(s) == "x"
  {
    var rest := s[7..];
    assert rest == " x";
    StripLeadingSpace(rest);
    NoOtherLabel(rest[1..]);
    assert s == "answer:" + rest;
    LabelDroppedOnce(s, rest);
  }

  /** `result[m.start():].strip()` for the first step marker, if there is one:
      everything in front of the first marker is dropped and the text then
      starts with that marker. */
  function AnchorAtFirstStep(s: string): (r: string)
    ensures FirstStepMarker(s, 0).None? ==> r == s
    ensures FirstStepMarker(s, 0).Some? ==> r == Strip(s[FirstStepMarker(s, 0).value..]) && StepMarkerAt(r, 0)
  {
    match FirstStepMarker(s, 0)
    case None => s
    case Some(k) => MarkerSurvivesStrip(s, k); Strip(s[k..])
  }

  /** No three newlines in a row at or after `i`. */
  predicate NoTripleFrom(s: string, i: nat) {
    forall k :: i <= k && k + 2 < |s| ==> !TripleAt(s, k)
  }

  /** Three newlines in a row start at `k`. */
  predicate TripleAt(s: string, k: int)
    requires 0 <= k && k + 2 < |s|
  {
    s[k] == '\n' && s[k + 1] == '\n' && s[k + 2] == '\n'
  }

  /** Two spaces or tabs in a row start at `k`. */
  predicate BlankPairAt(s: string, k: int)
    requires 0 <= k && k + 1 < |s|
  {
    IsBlank(s[k]) && IsBlank(s[k + 1])
  }

  predicate NoTripleNewline(s: string) {
    NoTripleFrom(s, 0)
  }

  predicate NoDoubleBlank(s: string) {
    forall k :: 0 <= k && k + 1 < |s| ==> !BlankPairAt(s, k)
  }

  predicate Trimmed(s: string) {
    s == [] || (!IsSpace(s[0]) && !IsSpace(s[|s| - 1]))
  }

  /** The shape promised for a cleaned explanation. */
  predicate WellShaped(s: string) {
    Trimmed(s) && NoTripleNewline(s) && NoDoubleBlank(s)
  }

  function Min(a: int, b: int): int {
    if a <= b then a else b
  }

  /** End of the run of "\n" starting at `i`. */
  function NewlineRunEnd(s: string, i: nat): (j: nat)
    requires i <= |s|
    ensures i <= j <= |s| && (j < |s| ==> s[j] != '\n')
    ensures forall t :: i <= t < j ==> s[t] == '\n'
    decreases |s| - i
  {
    if i < |s| && s[i] == '\n' then NewlineRunEnd(s, i + 1) else i
  }

  /** End of the run of spaces and tabs starting at `i`. */
  function BlankRunEnd(s: string, i: nat): (j: nat)
    requires i <= |s|
    ensures i <= j <= |s| && (j < |s| ==> !IsBlank(s[j]))
    ensures forall t :: i <= t < j ==> IsBlank(s[t])
    decreases |s| - i
  {
    if i < |s| && IsBlank(s[i]) then BlankRunEnd(s, i + 1) else i
  }

  /** `re.sub(r"\n{3,}", "\n\n", ...)` from `i` on: no three newlines in a row
      remain, and a leading run keeps at most two of its newlines. */
  function CollapseNewlinesFrom(s: string, i: nat): (out: string)
    requires i <= |s|
    ensures NoTripleNewline(out)
    ensures NewlineRunEnd(out, 0) == Min(NewlineRunEnd(s, i) - i, 2)
    decreases |s| - i
  {
    if i == |s| then ""
    else
      var j := NewlineRunEnd(s, i);
      if j - i >= 3 then
        var rest := CollapseNewlinesFrom(s, j);
        TwoNewlinesStep(s, i, rest);
        "\n\n" + rest
      else
        var rest := CollapseNewlinesFrom(s, i + 1);
        NewlineConsStep(s, i, rest);
        [s[i]] + rest
  }

  /** A run of three or more newlines becomes two. */
  lemma {:induction false} TwoNewlinesStep(s: string, i: nat, rest: string)
    requires i <= |s| && NewlineRunEnd(s, i) - i >= 3
    requires NoTripleNewline(rest)
    requires NewlineRunEnd(rest, 0) == Min(NewlineRunEnd(s, NewlineRunEnd(s, i)) - NewlineRunEnd(s, i), 2)
    ensures NoTripleNewline("\n\n" + rest) && NewlineRunEnd("\n\n" + rest, 0) == 2
  {
    var j := NewlineRunEnd(s, i);
    assert NewlineRunEnd(s, j) == j;
    NewlineRunShift("\n\n" + rest);
    NewlineRunShift("\n" + rest);
    assert ("\n\n" + rest)[1..] == "\n" + rest;
    assert ("\n" + rest)[1..] == rest;
    ConsNoTriple('\n', rest);
    ConsNoTriple('\n', "\n" + rest);
    assert ['\n'] + ("\n" + rest) == "\n\n" + rest;
  }

  /** One character outside a run of three newlines is kept. */
  lemma {:induction false} NewlineConsStep(s: string, i: nat, rest: string)
    requires i < |s| && NewlineRunEnd(s, i) - i < 3
    requires NoTripleNewline(rest) && NewlineRunEnd(rest, 0) == Min(NewlineRunEnd(s, i + 1) - (i + 1), 2)
    ensures NoTripleNewline([s[i]] + rest)
    ensures NewlineRunEnd([s[i]] + rest, 0) == Min(NewlineRunEnd(s, i) - i, 2)
  {
    NewlineConsNoTriple(s, i, rest);
    var out := [s[i]] + rest;
    if s[i] == '\n' {
      NewlineRunShift(out);
      assert out[1..] == rest;
      assert NewlineRunEnd(s, i) == NewlineRunEnd(s, i + 1);
    }
  }

  /** `re.sub(r"[ \t]{2,}", " ", ...)` from `i` on: no two blanks in a row
      remain, and a leading run of blanks becomes one space. */
  function CollapseBlanksFrom(s: string, i: nat): (out: string)
    requires i <= |s|
    ensures NoDoubleBlank(out)
    ensures BlankRunEnd(out, 0) == Min(BlankRunEnd(s, i) - i, 1)
    decreases |s| - i
  {
    if i == |s| then ""
    else
      var j := BlankRunEnd(s, i);
      if j - i >= 2 then
        var rest := CollapseBlanksFrom(s, j);
        ConsNoDoubleBlank(' ', rest);
        " " + rest
      else
        var rest := CollapseBlanksFrom(s, i + 1);
        ConsNoDoubleBlank(s[i], rest);
        [s[i]] + rest
  }

  /** A character put in front of a text without two blanks in a row makes
      none, unless it is a blank before another. */
  lemma {:induction false} ConsNoDoubleBlank(c: char, rest: string)
    requires NoDoubleBlank(rest)
    requires IsBlank(c) && rest != [] ==> !IsBlank(rest[0])
    ensures NoDoubleBlank([c] + rest)
  {
    var out := [c] + rest;
    forall k | 0 <= k && k + 1 < |out|
      ensures !BlankPairAt(out, k)
    {
      if k > 0 {
        assert out[k] == rest[k - 1] && out[k + 1] == rest[k];
        assert !BlankPairAt(rest, k - 1);
      }
    }
  }

  /** One character of the newline collapse outside a run of three. */
  lemma {:induction false} NewlineConsNoTriple(s: string, i: nat, rest: string)
    requires i < |s| && NewlineRunEnd(s, i) - i < 3
    requires NoTripleNewline(rest) && NewlineRunEnd(rest, 0) == Min(NewlineRunEnd(s, i + 1) - (i + 1), 2)
    ensures NoTripleNewline([s[i]] + rest)
  {
    if s[i] == '\n' && |rest| >= 2 && rest[0] == '\n' && rest[1] == '\n' {
      RunOfTwo(rest);
      assert NewlineRunEnd(s, i) == NewlineRunEnd(s, i + 1);
      assert false;
    }
    ConsNoTriple(s[i], rest);
  }

  /** Collapsing blanks leaves the newlines alone: a leading run of newlines
      keeps its length, and no run of three newlines appears. */
  lemma {:induction false} CollapseBlanksKeepsNewlines(s: string, i: nat)
    requires i <= |s|
    ensures NewlineRunEnd(CollapseBlanksFrom(s, i), 0) == NewlineRunEnd(s, i) - i
    ensures NoTripleFrom(s, i) ==> NoTripleNewline(CollapseBlanksFrom(s, i))
  {
    CollapseBlanksKeepsRun(s, i);
    if NoTripleFrom(s, i) {
      CollapseBlanksNoTriple(s, i);
    }
  }

  /** The leading run of newlines survives the blank collapse unchanged. */
  lemma {:induction false} CollapseBlanksKeepsRun(s: string, i: nat)
    requires i <= |s|
    ensures NewlineRunEnd(CollapseBlanksFrom(s, i), 0) == NewlineRunEnd(s, i) - i
    decreases |s| - i
  {
    if i < |s| {
      var j := BlankRunEnd(s, i);
      if j - i >= 2 {
        RunAfterChar(' ', CollapseBlanksFrom(s, j));
      } else {
        CollapseBlanksKeepsRun(s, i + 1);
        RunAfterChar(s[i], CollapseBlanksFrom(s, i + 1));
      }
    }
  }

  /** The newline run at the front of `[c] + rest`. */
  lemma {:induction false} RunAfterChar(c: char, rest: string)
    ensures NewlineRunEnd([c] + rest, 0) == if c == '\n' then 1 + NewlineRunEnd(rest, 0) else 0
  {
    if c == '\n' {
      NewlineRunShift([c] + rest);
      assert ([c] + rest)[1..] == rest;
    }
  }

  /** The blank collapse makes no run of three newlines. */
  lemma {:induction false} CollapseBlanksNoTriple(s: string, i: nat)
    requires i <= |s| && NoTripleFrom(s, i)
    ensures NoTripleNewline(CollapseBlanksFrom(s, i))
    decreases |s| - i
  {
    if i < |s| {
      var j := BlankRunEnd(s, i);
      var out := CollapseBlanksFrom(s, i);
      if j - i >= 2 {
        assert NoTripleFrom(s, j);
        CollapseBlanksNoTriple(s, j);
        var rest := CollapseBlanksFrom(s, j);
        assert out == [' '] + rest;
        ConsNoTriple(' ', rest);
      } else {
        assert NoTripleFrom(s, i + 1);
        CollapseBlanksNoTriple(s, i + 1);
        CollapseBlanksKeepsRun(s, i + 1);
        var rest := CollapseBlanksFrom(s, i + 1);
        assert out == [s[i]] + rest;
        if s[i] == '\n' && |rest| >= 2 && rest[0] == '\n' && rest[1] == '\n' {
          RunOfTwo(rest);
          assert s[i + 1] == '\n' && s[i + 2] == '\n';
          assert TripleAt(s, i);
          assert false;
        }
        ConsNoTriple(s[i], rest);
      }
    }
  }

  /** A text starting with two newlines has a newline run of two or more. */
  lemma {:induction false} RunOfTwo(s: string)
    requires |s| >= 2 && s[0] == '\n' && s[1] == '\n'
    ensures NewlineRunEnd(s, 0) >= 2
  {
  }

  /** A character put in front of a text without three newlines in a row
      makes none, unless it is a newline before two more. */
  lemma {:induction false} ConsNoTriple(c: char, rest: string)
    requires NoTripleNewline(rest)
    requires c == '\n' && |rest| >= 2 ==> !(rest[0] == '\n' && rest[1] == '\n')
    ensures NoTripleNewline([c] + rest)
  {
    var out := [c] + rest;
    forall k | 0 <= k && k + 2 < |out|
      ensures !TripleAt(out, k)
    {
      if k > 0 {
        assert out[k] == rest[k - 1] && out[k + 1] == rest[k] && out[k + 2] == rest[k + 1];
        assert !TripleAt(rest, k - 1);
      }
    }
  }

  lemma {:induction false} NewlineRunShift(out: string)
    requires |out| > 0 && out[0] == '\n'
    ensures NewlineRunEnd(out, 0) == 1 + NewlineRunEnd(out[1..], 0)
  {
    var j := NewlineRunEnd(out[1..], 0);
    assert forall t :: 1 <= t < j + 1 ==> out[t] == out[1..][t - 1];
    assert j + 1 < |out| ==> out[j + 1] == out[1..][j];
    NewlineRunEndUnique(out, 0, j + 1);
  }

  lemma {:induction false} NewlineRunEndUnique(s: string, i: nat, j: nat)
    requires i <= j <= |s|
    requires forall t :: i <= t < j ==> s[t] == '\n'
    requires j < |s| ==> s[j] != '\n'
    ensures NewlineRunEnd(s, i) == j
  {
  }

  /** Collapsing blanks keeps a first and a last character that are not blanks. */
  lemma {:induction false} CollapseBlanksKeepsEnds(s: string, i: nat)
    requires i < |s|
    ensures var out := CollapseBlanksFrom(s, i);
      |out| > 0 && (!IsBlank(s[i]) ==> out[0] == s[i])
      && (!IsBlank(s[|s| - 1]) ==> out[|out| - 1] == s[|s| - 1])
    decreases |s| - i
  {
    var j := BlankRunEnd(s, i);
    if j - i >= 2 {
      if j < |s| {
        CollapseBlanksKeepsEnds(s, j);
      }
    } else if i + 1 < |s| {
      CollapseBlanksKeepsEnds(s, i + 1);
    }
  }

  /** `re.sub(r"(?i)^limitation\s*:", "Limitation:", ...)`: only at the very
      start of the text (no MULTILINE flag). */
  function RecapLimitation(s: string): (r: string)
    ensures !(OccursAtCI(s, "limitation", 0) && SkipSpaces(s, 10) < |s| && s[SkipSpaces(s, 10)] == ':') ==> r == s
    ensures OccursAtCI(s, "limitation", 0) && SkipSpaces(s, 10) < |s| && s[SkipSpaces(s, 10)] == ':'
      ==> StartsWith(r, "Limitation:") && r[11..] == s[SkipSpaces(s, 10) + 1..]
  {
    if OccursAtCI(s, "limitation", 0) then
      var j := SkipSpaces(s, 10);
      if j < |s| && s[j] == ':' then "Limitation:" + s[j + 1..] else s
    else s
  }

  /** Putting a text without whitespace in front of the tail of a well-shaped
      text keeps it well-shaped. */
  lemma {:induction false} PrefixKeepsShape(p: string, s: string, j: nat)
    requires WellShaped(s) && j <= |s| && p != []
    requires forall x :: 0 <= x < |p| ==> !IsSpace(p[x])
    ensures WellShaped(p + s[j..])
  {
    var r := p + s[j..];
    forall k | 0 <= k && k + 2 < |r|
      ensures !TripleAt(r, k)
    {
      if k >= |p| {
        assert r[k] == s[k - |p| + j] && r[k + 1] == s[k - |p| + j + 1] && r[k + 2] == s[k - |p| + j + 2];
        assert !TripleAt(s, k - |p| + j);
      } else {
        assert !IsSpace(r[k]);
      }
    }
    forall k | 0 <= k && k + 1 < |r|
      ensures !BlankPairAt(r, k)
    {
      if k >= |p| {
        assert r[k] == s[k - |p| + j] && r[k + 1] == s[k - |p| + j + 1];
        assert !BlankPairAt(s, k - |p| + j);
      } else {
        assert !IsSpace(r[k]);
      }
    }
    if j < |s| {
      assert r[|r| - 1] == s[|s| - 1];
    } else {
      assert r[|r| - 1] == p[|p| - 1];
    }
  }

  /** The recapitalisation keeps the shape of the text. */
  lemma {:induction false} RecapKeepsShape(s: string)
    requires WellShaped(s)
    ensures WellShaped(RecapLimitation(s))
  {
    if OccursAtCI(s, "limitation", 0) {
      var j := SkipSpaces(s, 10);
      if j < |s| && s[j] == ':' {
        var p := "Limitation:";
        LimitationHasNoSpace(p);
        PrefixKeepsShape(p, s, j + 1);
      }
    }
  }

  lemma {:induction false} LimitationHasNoSpace(p: string)
    requires p == "Limitation:"
    ensures p != [] && forall x :: 0 <= x < |p| ==> !IsSpace(p[x])
  {
  }

  /** The last three steps of the cleaner: collapse newline runs, strip, collapse
      blank runs, recapitalise a leading "limitation:". */
  function Tidy(s: string): string {
    RecapLimitation(CollapseBlanksFrom(Strip(CollapseNewlinesFrom(s, 0)), 0))
  }

  /** The text before the anchor step: stripped, labels dropped, code spans
      and leak patterns erased. */
  function Scrubbed(text: string): string {
    var labelled := DropLabels(Strip(text));
    var noCode := Erase(Fence, Erase(LatexCode, labelled));
    EraseAll(LeakRules, noCode)
  }

  /** `_clean_mentor_response(text)`. */
  function CleanMentorResponse(text: string): (r: string)
    ensures text == [] ==> r == []
  {
    if text == [] then [] else Tidy(AnchorAtFirstStep(Scrubbed(text)))
  }

  lemma {:induction false} NoTripleNewlineSlice(s: string, a: nat, b: nat)
    requires a <= b <= |s| && NoTripleNewline(s)
    ensures NoTripleNewline(s[a..b])
  {
    forall k | 0 <= k && k + 2 < |s[a..b]|
      ensures !TripleAt(s[a..b], k)
    {
      assert s[a..b][k] == s[a + k] && s[a..b][k + 1] == s[a + k + 1] && s[a..b][k + 2] == s[a + k + 2];
      assert !TripleAt(s, a + k);
    }
  }

  /** The last steps always produce a well-shaped text. */
  lemma {:induction false} TidyIsWellShaped(s: string)
    ensures WellShaped(Tidy(s))
  {
    var c := CollapseNewlinesFrom(s, 0);
    var stripped := Strip(c);
    var a, b :| 0 <= a <= b <= |c| && stripped == c[a..b];
    NoTripleNewlineSlice(c, a, b);
    var collapsed := CollapseBlanksFrom(stripped, 0);
    BlankCollapseShape(stripped);
    RecapKeepsShape(collapsed);
  }

  /** Collapsing the blanks of a trimmed text without three newlines in a
      row gives a well-shaped text. */
  lemma {:induction false} BlankCollapseShape(t: string)
    requires Trimmed(t) && NoTripleNewline(t)
    ensures WellShaped(CollapseBlanksFrom(t, 0))
  {
    CollapseBlanksKeepsNewlines(t, 0);
    if t != [] {
      CollapseBlanksKeepsEnds(t, 0);
    }
  }

  /** Whatever the model wrote, the cleaned explanation has no whitespace at
      either end, no run of three or more newlines and no run of two or more
      spaces or tabs. */
  lemma {:induction false} CleanedIsWellShaped(text: string)
    ensures WellShaped(CleanMentorResponse(text))
  {
    if text != [] {
      TidyIsWellShaped(AnchorAtFirstStep(Scrubbed(text)));
    }
  }

  /* ---------- the step marker survives the last three steps ---------- */

  /** Collapsing newlines copies a stretch without "\n" as it is. */
  lemma {:induction false} NewlinesKeepPlainRun(s: string, i: nat, k: nat)
    requires i <= k <= |s| && forall t :: i <= t < k ==> s[t] != '\n'
    ensures CollapseNewlinesFrom(s, i) == s[i..k] + CollapseNewlinesFrom(s, k)
    decreases k - i
  {
    if i < k {
      assert NewlineRunEnd(s, i) == i;
      NewlinesKeepPlainRun(s, i + 1, k);
      SliceCons(s, i, k, CollapseNewlinesFrom(s, k));
    }
  }

  /** Collapsing newlines turns a run of whitespace into whitespace. */
  lemma {:induction false} NewlinesKeepSpaceRun(s: string, i: nat, k: nat) returns (p: nat)
    requires i <= k < |s| && (forall t :: i <= t < k ==> IsSpace(s[t])) && !IsSpace(s[k])
    ensures var out := CollapseNewlinesFrom(s, i);
      p < |out| && out[p] == s[k] && forall t :: 0 <= t < p ==> IsSpace(out[t])
    decreases k - i
  {
    var out := CollapseNewlinesFrom(s, i);
    if i == k {
      assert NewlineRunEnd(s, i) == i;
      p := 0;
    } else {
      var j := NewlineRunEnd(s, i);
      assert k < j ==> s[k] == '\n';
      var next := if j - i >= 3 then j else i + 1;
      var head := if j - i >= 3 then "\n\n" else [s[i]];
      assert out == head + CollapseNewlinesFrom(s, next);
      var q := NewlinesKeepSpaceRun(s, next, k);
      p := |head| + q;
      forall t | 0 <= t < p
        ensures IsSpace(out[t])
      {
        if t >= |head| {
          assert out[t] == CollapseNewlinesFrom(s, next)[t - |head|];
        }
      }
    }
  }

  /** Collapsing blanks copies a stretch without spaces or tabs as it is. */
  lemma {:induction false} BlanksKeepPlainRun(s: string, i: nat, k: nat)
    requires i <= k <= |s| && forall t :: i <= t < k ==> !IsBlank(s[t])
    ensures CollapseBlanksFrom(s, i) == s[i..k] + CollapseBlanksFrom(s, k)
    decreases k - i
  {
    if i < k {
      assert BlankRunEnd(s, i) == i;
      BlanksKeepPlainRun(s, i + 1, k);
      SliceCons(s, i, k, CollapseBlanksFrom(s, k));
    }
  }

  /** Collapsing blanks turns a run of whitespace into whitespace. */
  lemma {:induction false} BlanksKeepSpaceRun(s: string, i: nat, k: nat) returns (p: nat)
    requires i <= k < |s| && (forall t :: i <= t < k ==> IsSpace(s[t])) && !IsSpace(s[k])
    ensures var out := CollapseBlanksFrom(s, i);
      p < |out| && out[p] == s[k] && forall t :: 0 <= t < p ==> IsSpace(out[t])
    decreases k - i
  {
    var out := CollapseBlanksFrom(s, i);
    if i == k {
      assert BlankRunEnd(s, i) == i;
      p := 0;
    } else {
      var j := BlankRunEnd(s, i);
      assert k < j ==> IsBlank(s[k]);
      var next := if j - i >= 2 then j else i + 1;
      var head := if j - i >= 2 then " " else [s[i]];
      assert out == head + CollapseBlanksFrom(s, next);
      var q := BlanksKeepSpaceRun(s, next, k);
      p := |head| + q;
      forall t | 0 <= t < p
        ensures IsSpace(out[t])
      {
        if t >= |head| {
          assert out[t] == CollapseBlanksFrom(s, next)[t - |head|];
        }
      }
    }
  }

  /** `Step`, whitespace from index 4 up to `m`, and "1" at `m`. */
  predicate StepHead(t: string, m: nat) {
    4 <= m < |t| && OccursAtCI(t, "step", 0) && (forall x :: 4 <= x < m ==> IsSpace(t[x])) && t[m] == '1'
  }

  /** "1." at the head. */
  predicate NumberHead(t: string) {
    |t| >= 2 && t[0] == '1' && t[1] == '.'
  }

  /** The letters of `Step` are not spaces, tabs or "\n", the first is not
      whitespace, and it is an `s`. */
  lemma {:induction false} StepWordChars(t: string)
    requires OccursAtCI(t, "step", 0)
    ensures |t| >= 4 && LowerChar(t[0]) == 's' && !IsSpace(t[0])
    ensures t[0] != '\n' && t[1] != '\n' && t[2] != '\n' && t[3] != '\n'
    ensures !IsBlank(t[0]) && !IsBlank(t[1]) && !IsBlank(t[2]) && !IsBlank(t[3])
  {
    assert LowerChar(t[0]) == Lower(t)[0] == 's';
    assert LowerChar(t[1]) == Lower(t)[1] == 't';
    assert LowerChar(t[2]) == Lower(t)[2] == 'e';
    assert LowerChar(t[3]) == Lower(t)[3] == 'p';
  }

  /** A text that agrees with `t` on its first four characters has `Step` at its
      head when `t` has. */
  lemma {:induction false} StepWordTransfer(t: string, u: string)
    requires OccursAtCI(t, "step", 0) && |u| >= 4 && forall x :: 0 <= x < 4 ==> u[x] == t[x]
    ensures OccursAtCI(u, "step", 0)
  {
    assert Lower(u)[..4] == "step" by {
      forall x | 0 <= x < 4
        ensures Lower(u)[x] == "step"[x]
      {
        assert Lower(u)[x] == LowerChar(u[x]) == LowerChar(t[x]) == Lower(t)[x];
      }
    }
  }

  /** A marker at the head of a text that starts with no whitespace is one of
      the two shapes. */
  lemma {:induction false} MarkerHead(t: string)
    requires t != [] && !IsSpace(t[0]) && StepMarkerAt(t, 0)
    ensures (|t| >= 4 && StepHead(t, SkipSpaces(t, 4))) || NumberHead(t)
  {
    if |t| < 4 || !OccursAtCI(t, "step", 0) || SkipSpaces(t, 4) >= |t| || t[SkipSpaces(t, 4)] != '1' {
      assert SkipSpaces(t, 0) == 0;
    }
  }

  /** ... and each shape is a marker. */
  lemma {:induction false} HeadIsMarker(t: string, m: nat)
    requires StepHead(t, m) || NumberHead(t)
    ensures StepMarkerAt(t, 0)
  {
    if StepHead(t, m) {
      SkipSpacesUnique(t, 4, m);
    } else {
      SkipSpacesUnique(t, 0, 0);
    }
  }

  /** The stretches of a `Step` head that the collapse scans see: four letters
      with no space, tab or "\n", whitespace up to `m`, and the "1". */
  lemma {:induction false} StepHeadRuns(s: string, m: nat)
    requires StepHead(s, m)
    ensures 4 <= m < |s| && (forall t :: 4 <= t < m ==> IsSpace(s[t])) && !IsSpace(s[m])
    ensures forall t :: 0 <= t < 4 ==> s[t] != '\n' && !IsBlank(s[t])
  {
    StepWordChars(s);
  }

  /** The four letters of a `Step` head followed by a text whose character
      `p` is the "1" and whose characters before it are whitespace make a
      `Step` head. */
  lemma {:induction false} StepHeadRebuilt(s: string, m: nat, out: string, mid: string, p: nat)
    requires StepHead(s, m) && out == s[0..4] + mid
    requires p < |mid| && mid[p] == s[m] && forall t :: 0 <= t < p ==> IsSpace(mid[t])
    ensures StepHead(out, 4 + p)
  {
    assert out[4 + p] == mid[p];
    forall x | 4 <= x < 4 + p
      ensures IsSpace(out[x])
    {
      assert out[x] == mid[x - 4];
    }
    StepWordTransfer(s, out);
  }

  lemma {:induction false} NewlinesKeepStepHead(s: string, m: nat) returns (m': nat)
    requires StepHead(s, m)
    ensures StepHead(CollapseNewlinesFrom(s, 0), m')
  {
    StepHeadRuns(s, m);
    var p := NewlinesKeepSpaceRun(s, 4, m);
    NewlinesKeepPlainRun(s, 0, 4);
    StepHeadRebuilt(s, m, CollapseNewlinesFrom(s, 0), CollapseNewlinesFrom(s, 4), p);
    m' := 4 + p;
  }

  lemma {:induction false} BlanksKeepStepHead(s: string, m: nat) returns (m': nat)
    requires StepHead(s, m)
    ensures StepHead(CollapseBlanksFrom(s, 0), m')
  {
    StepHeadRuns(s, m);
    var p := BlanksKeepSpaceRun(s, 4, m);
    BlanksKeepPlainRun(s, 0, 4);
    StepHeadRebuilt(s, m, CollapseBlanksFrom(s, 0), CollapseBlanksFrom(s, 4), p);
    m' := 4 + p;
  }

  lemma {:induction false} StripKeepsStepHead(s: string, m: nat)
    requires StepHead(s, m)
    ensures StepHead(Strip(s), m)
  {
    StepWordChars(s);
    StripFromHead(s, 0, m);
    assert s[0..] == s;
    var r := Strip(s);
    assert r == s[..|r|];
    StepWordTransfer(s, r);
  }

  lemma {:induction false} TidyKeepsNumberHead(s: string)
    requires NumberHead(s)
    ensures NumberHead(Tidy(s))
  {
    NewlinesKeepPlainRun(s, 0, 2);
    var a := CollapseNewlinesFrom(s, 0);
    assert a[0] == '1' && a[1] == '.';
    StripFromHead(a, 0, 1);
    assert a[0..] == a;
    var b := Strip(a);
    assert b[0] == '1' && b[1] == '.';
    BlanksKeepPlainRun(b, 0, 2);
    var c := CollapseBlanksFrom(b, 0);
    assert c[0] == '1' && c[1] == '.';
    RecapSkipsOtherHead(c);
  }

  /** A text whose first letter is not an `l` is not a "Limitation" line. */
  lemma {:induction false} RecapSkipsOtherHead(t: string)
    requires t != [] && LowerChar(t[0]) != 'l'
    ensures RecapLimitation(t) == t
  {
    assert Lower(t)[0] == LowerChar(t[0]);
  }

  /** A step marker at the head of the anchored text is still at the head after
      the newline collapse, the strip, the blank collapse and the rewrite. */
  lemma {:induction false} TidyKeepsMarker(s: string)
    requires s != [] && !IsSpace(s[0]) && StepMarkerAt(s, 0)
    ensures StepMarkerAt(Tidy(s), 0)
  {
    MarkerHead(s);
    if |s| >= 4 && StepHead(s, SkipSpaces(s, 4)) {
      var m1 := NewlinesKeepStepHead(s, SkipSpaces(s, 4));
      var a := CollapseNewlinesFrom(s, 0);
      StripKeepsStepHead(a, m1);
      var m3 := BlanksKeepStepHead(Strip(a), m1);
      var c := CollapseBlanksFrom(Strip(a), 0);
      StepWordChars(c);
      RecapSkipsOtherHead(c);
      HeadIsMarker(c, m3);
    } else {
      TidyKeepsNumberHead(s);
      HeadIsMarker(Tidy(s), 0);
    }
  }

  /** When the scrubbed text holds a step marker, the cleaned explanation
      starts with one: "answer: Step 1: …" comes out as "Step 1: …". */
  lemma {:induction false} CleanedStartsAtStep(text: string)
    requires text != [] && FirstStepMarker(Scrubbed(text), 0).Some?
    ensures StepMarkerAt(CleanMentorResponse(text), 0)
  {
    var r := AnchorAtFirstStep(Scrubbed(text));
    if r == [] {
      assert SkipSpaces(r, 0) == 0;
      assert false;
    }
    TidyKeepsMarker(r);
  }
}
