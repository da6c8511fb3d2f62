/** `postprocess.remove_duplicate_comments`: one pass over the lines of a
    snippet with a set of the comment texts seen so far; a comment line whose
    stripped text was seen before is dropped, every other line is kept. */
module Postprocess {
  import opened Text

  /** A comment line: its stripped form starts with "#". */
  predicate IsCommentLine(line: string) {
    StartsWith(Strip(line), "#")
  }

  predicate IsCodeLine(line: string) {
    !IsCommentLine(line)
  }

  /** The text a comment line is compared by; a line of code has none. */
  function CommentKey(line: string): Option<string> {
    if IsCommentLine(line) then Some(Strip(line)) else None
  }

  /** The stripped texts of the comment lines among `lines`. */
  function CommentTexts(lines: seq<string>): set<string>
    decreases |lines|
  {
    if lines == [] then {}
    else (if IsCommentLine(lines[0]) then {Strip(lines[0])} else {}) + CommentTexts(lines[1..])
  }

  /** The lines the loop appends to `cleaned`, given the texts in `seen`. */
  function DedupComments(lines: seq<string>, seen: set<string>): (kept: seq<string>)
    ensures forall l :: l in kept ==> l in lines
    decreases |lines|
  {
    if lines == [] then []
    else
      var line := lines[0];
      if IsCommentLine(line) then
        if Strip(line) in seen then DedupComments(lines[1..], seen)
        else [line] + DedupComments(lines[1..], seen + {Strip(line)})
      else [line] + DedupComments(lines[1..], seen)
  }

  /** What `remove_duplicate_comments(code)` returns. */
  function CleanedCode(code: string): string {
    JoinLines(DedupComments(SplitLines(code), {}))
  }

  /** One turn of the loop. */
  lemma {:induction false} DedupStep(lines: seq<string>, i: nat, seen: set<string>)
    requires i < |lines|
    ensures var line := lines[i];
      DedupComments(lines[i..], seen)
      == if IsCommentLine(line) then
           if Strip(line) in seen then DedupComments(lines[i + 1..], seen)
           else [line] + DedupComments(lines[i + 1..], seen + {Strip(line)})
         else [line] + DedupComments(lines[i + 1..], seen)
  {
    assert lines[i..][0] == lines[i] && lines[i..][1..] == lines[i + 1..];
  }

  /** `remove_duplicate_comments(code)`: the loop over `code.splitlines()`
      with its `seen` set and `cleaned` list. */
  method RemoveDuplicateComments(code: string) returns (result: string)
    ensures result == CleanedCode(code)
  {
    var lines := SplitLines(code);
    var seen: set<string> := {};
    var cleaned: seq<string> := [];
    var i := 0;
    while i < |lines|
      invariant 0 <= i <= |lines|
      invariant cleaned + DedupComments(lines[i..], seen) == DedupComments(lines, {})
    {
      var line := lines[i];
      var s := Strip(line);
      DedupStep(lines, i, seen);
      if StartsWith(s, "#") {
        if s !in seen {
          AppendAssoc(cleaned, [line], DedupComments(lines[i + 1..], seen + {s}));
          seen := seen + {s};
          cleaned := cleaned + [line];
        }
      } else {
        AppendAssoc(cleaned, [line], DedupComments(lines[i + 1..], seen));
        cleaned := cleaned + [line];
      }
      i := i + 1;
    }
    assert lines[i..] == [];
    assert cleaned + [] == cleaned;
    result := JoinLines(cleaned);
  }

  /* ---------- what is kept ---------- */

  /** Every line that is not a comment is kept, unchanged and in order. */
  lemma {:induction false} CodeLinesKept(lines: seq<string>, seen: set<string>)
    ensures Filter(DedupComments(lines, seen), IsCodeLine) == Filter(lines, IsCodeLine)
    decreases |lines|
  {
    if lines != [] {
      var line := lines[0];
      if IsCommentLine(line) {
        CodeLinesKept(lines[1..], seen);
        CodeLinesKept(lines[1..], seen + {Strip(line)});
        if Strip(line) !in seen {
          var kept := DedupComments(lines, seen);
          assert kept[0] == line && kept[1..] == DedupComments(lines[1..], seen + {Strip(line)});
        }
      } else {
        CodeLinesKept(lines[1..], seen);
        var kept := DedupComments(lines, seen);
        assert kept[0] == line && kept[1..] == DedupComments(lines[1..], seen);
      }
    }
  }

  /** The output lines are input lines, in order, some deleted; so there are
      never more of them. */
  lemma {:induction false} KeptLinesAreSubsequence(lines: seq<string>, seen: set<string>)
    ensures IsSubsequence(DedupComments(lines, seen), lines)
    ensures |DedupComments(lines, seen)| <= |lines|
    decreases |lines|
  {
    if lines != [] {
      var line := lines[0];
      KeptLinesAreSubsequence(lines[1..], seen);
      KeptLinesAreSubsequence(lines[1..], seen + {Strip(line)});
      var kept := DedupComments(lines, seen);
      if !IsCommentLine(line) || Strip(line) !in seen {
        assert kept[0] == line;
        assert kept[1..] == DedupComments(lines[1..], if IsCommentLine(line) then seen + {Strip(line)} else seen);
      }
    }
    SubsequenceLength(DedupComments(lines, seen), lines);
  }

  /* ---------- an independent description of the kept lines ---------- */

  /** Line `i` is kept: it is code, or no earlier comment line has its
      stripped text. */
  predicate FirstOfItsText(lines: seq<string>, i: nat)
    requires i < |lines|
  {
    !IsCommentLine(lines[i]) || Strip(lines[i]) !in CommentTexts(lines[..i])
  }

  /** The lines `i` with `FirstOfItsText(lines, i)`, in order. */
  function FirstOccurrences(lines: seq<string>): seq<string>
    decreases |lines|
  {
    if lines == [] then []
    else
      var n := |lines| - 1;
      FirstOccurrences(lines[..n]) + (if FirstOfItsText(lines, n) then [lines[n]] else [])
  }

  /* The same loop over any key function: with the key left abstract, the
     proofs below need not look inside `Strip`. */

  function DedupBy(key: string -> Option<string>, lines: seq<string>, seen: set<string>): seq<string>
    decreases |lines|
  {
    if lines == [] then []
    else
      match key(lines[0])
      case Some(t) =>
        if t in seen then DedupBy(key, lines[1..], seen)
        else [lines[0]] + DedupBy(key, lines[1..], seen + {t})
      case None => [lines[0]] + DedupBy(key, lines[1..], seen)
  }

  function KeysOf(key: string -> Option<string>, lines: seq<string>): set<string>
    decreases |lines|
  {
    if lines == [] then {}
    else (match key(lines[0]) case Some(t) => {t} case None => {}) + KeysOf(key, lines[1..])
  }

  lemma {:induction false} DedupBySnoc(key: string -> Option<string>, xs: seq<string>, x: string, seen: set<string>)
    ensures DedupBy(key, xs + [x], seen)
         == DedupBy(key, xs, seen) + (if key(x).Some? && key(x).value in seen + KeysOf(key, xs) then [] else [x])
    decreases |xs|
  {
    if xs == [] {
      assert [] + [x] == [x];
      assert [x][1..] == [];
    } else {
      var y := xs[0];
      var s2 := if key(y).Some? && key(y).value !in seen then seen + {key(y).value} else seen;
      assert (xs + [x])[0] == y;
      assert (xs + [x])[1..] == xs[1..] + [x];
      DedupBySnoc(key, xs[1..], x, s2);
      assert s2 + KeysOf(key, xs[1..]) == seen + KeysOf(key, xs);
    }
  }

  lemma {:induction false} DedupIsDedupBy(lines: seq<string>, seen: set<string>)
    ensures DedupComments(lines, seen) == DedupBy(CommentKey, lines, seen)
    decreases |lines|
  {
    if lines != [] {
      var line := lines[0];
      if IsCommentLine(line) && Strip(line) !in seen {
        DedupIsDedupBy(lines[1..], seen + {Strip(line)});
      } else {
        DedupIsDedupBy(lines[1..], seen);
      }
    }
  }

  lemma {:induction false} CommentTextsAreKeys(lines: seq<string>)
    ensures CommentTexts(lines) == KeysOf(CommentKey, lines)
    decreases |lines|
  {
    if lines != [] {
      CommentTextsAreKeys(lines[1..]);
    }
  }

  /** Appending a line to the input appends it to the output exactly when it
      is code or its text is neither in `seen` nor among the earlier comments. */
  lemma {:induction false} DedupSnoc(xs: seq<string>, x: string, seen: set<string>)
    ensures DedupComments(xs + [x], seen)
         == DedupComments(xs, seen)
            + (if IsCommentLine(x) && Strip(x) in seen + CommentTexts(xs) then [] else [x])
  {
    DedupIsDedupBy(xs + [x], seen);
    DedupIsDedupBy(xs, seen);
    CommentTextsAreKeys(xs);
    DedupBySnoc(CommentKey, xs, x, seen);
  }

  /** The loop keeps exactly the lines that are code or the first comment
      line with their stripped text; "  # x" and "# x" count as the same. */
  lemma {:induction false} DedupIsFirstOccurrences(lines: seq<string>)
    ensures DedupComments(lines, {}) == FirstOccurrences(lines)
    decreases |lines|
  {
    if lines != [] {
      var n := |lines| - 1;
      assert lines == lines[..n] + [lines[n]];
      DedupSnoc(lines[..n], lines[n], {});
      DedupIsFirstOccurrences(lines[..n]);
      assert {} + CommentTexts(lines[..n]) == CommentTexts(lines[..n]);
    }
  }

  /* ---------- no repeated comment, and idempotence ---------- */

  /** No two lines of `xs` share a key. */
  predicate DistinctKeys(xs: seq<string>, key: string -> Option<string>) {
    forall i, j :: 0 <= i < j < |xs| && key(xs[i]).Some? ==> key(xs[i]) != key(xs[j])
  }

  /** No key of a line of `xs` is in `seen`. */
  predicate KeysAvoid(xs: seq<string>, key: string -> Option<string>, seen: set<string>) {
    forall i :: 0 <= i < |xs| && key(xs[i]).Some? ==> key(xs[i]).value !in seen
  }

  /** No two comment lines share their stripped text. */
  predicate NoRepeatedComment(lines: seq<string>) {
    DistinctKeys(lines, CommentKey)
  }

  /** No comment line of `lines` has its text in `seen`. */
  predicate UnseenComments(lines: seq<string>, seen: set<string>) {
    KeysAvoid(lines, CommentKey, seen)
  }

  /** Putting a line in front keeps the keys out of `seen` when its own key
      is and the rest avoids a larger set. */
  lemma {:induction false} ConsAvoid(key: string -> Option<string>, x: string, rest: seq<string>, seen: set<string>, s2: set<string>)
    requires KeysAvoid(rest, key, s2) && seen <= s2
    requires key(x).Some? ==> key(x).value !in seen
    ensures KeysAvoid([x] + rest, key, seen)
  {
    var xs := [x] + rest;
    forall i | 0 < i < |xs| && key(xs[i]).Some?
      ensures key(xs[i]).value !in seen
    {
      assert xs[i] == rest[i - 1];
    }
  }

  /** Putting a line in front keeps the keys distinct when the rest avoids
      a set holding the line's own key. */
  lemma {:induction false} ConsDistinct(key: string -> Option<string>, x: string, rest: seq<string>, s2: set<string>)
    requires DistinctKeys(rest, key) && KeysAvoid(rest, key, s2)
    requires key(x).Some? ==> key(x).value in s2
    ensures DistinctKeys([x] + rest, key)
  {
    var xs := [x] + rest;
    forall i, j | 0 <= i < j < |xs| && key(xs[i]).Some?
      ensures key(xs[i]) != key(xs[j])
    {
      assert xs[j] == rest[j - 1];
      if i > 0 {
        assert xs[i] == rest[i - 1];
      }
    }
  }

  /** Dropping the first line keeps the keys distinct, and the rest avoids
      the first key as well. */
  lemma {:induction false} TailDistinct(key: string -> Option<string>, xs: seq<string>, seen: set<string>, s2: set<string>)
    requires xs != [] && DistinctKeys(xs, key) && KeysAvoid(xs, key, seen)
    requires s2 == if key(xs[0]).Some? then seen + {key(xs[0]).value} else seen
    ensures DistinctKeys(xs[1..], key) && KeysAvoid(xs[1..], key, s2)
  {
    var ys := xs[1..];
    forall i, j | 0 <= i < j < |ys| && key(ys[i]).Some?
      ensures key(ys[i]) != key(ys[j])
    {
      assert ys[i] == xs[i + 1] && ys[j] == xs[j + 1];
    }
    forall j | 0 <= j < |ys| && key(ys[j]).Some?
      ensures key(ys[j]).value !in s2
    {
      assert ys[j] == xs[j + 1];
    }
  }

  /** The output holds no comment whose text was seen before the call. */
  lemma {:induction false} KeptCommentsUnseen(lines: seq<string>, seen: set<string>)
    ensures UnseenComments(DedupComments(lines, seen), seen)
    decreases |lines|
  {
    if lines != [] {
      var line := lines[0];
      if IsCommentLine(line) && Strip(line) !in seen {
        var s2 := seen + {Strip(line)};
        KeptCommentsUnseen(lines[1..], s2);
        ConsAvoid(CommentKey, line, DedupComments(lines[1..], s2), seen, s2);
      } else if IsCommentLine(line) {
        KeptCommentsUnseen(lines[1..], seen);
      } else {
        KeptCommentsUnseen(lines[1..], seen);
        ConsAvoid(CommentKey, line, DedupComments(lines[1..], seen), seen, seen);
      }
    }
  }

  /** The output repeats no comment. */
  lemma {:induction false} KeptCommentsAreDistinct(lines: seq<string>, seen: set<string>)
    ensures NoRepeatedComment(DedupComments(lines, seen))
    decreases |lines|
  {
    if lines != [] {
      var line := lines[0];
      if IsCommentLine(line) && Strip(line) !in seen {
        var s2 := seen + {Strip(line)};
        KeptCommentsAreDistinct(lines[1..], s2);
        KeptCommentsUnseen(lines[1..], s2);
        ConsDistinct(CommentKey, line, DedupComments(lines[1..], s2), s2);
      } else if IsCommentLine(line) {
        KeptCommentsAreDistinct(lines[1..], seen);
      } else {
        KeptCommentsAreDistinct(lines[1..], seen);
        KeptCommentsUnseen(lines[1..], seen);
        ConsDistinct(CommentKey, line, DedupComments(lines[1..], seen), seen);
      }
    }
  }

  /** Lines that repeat no comment, none of them seen, pass unchanged. */
  lemma {:induction false} DistinctLinesUnchanged(lines: seq<string>, seen: set<string>)
    requires NoRepeatedComment(lines) && UnseenComments(lines, seen)
    ensures DedupComments(lines, seen) == lines
  {
    DistinctUnchangedBy(CommentKey, lines, seen);
    DedupIsDedupBy(lines, seen);
  }

  /** The same for any key. */
  lemma {:induction false} DistinctUnchangedBy(key: string -> Option<string>, lines: seq<string>, seen: set<string>)
    requires DistinctKeys(lines, key) && KeysAvoid(lines, key, seen)
    ensures DedupBy(key, lines, seen) == lines
    decreases |lines|
  {
    if lines != [] {
      var line := lines[0];
      var s2 := if key(line).Some? then seen + {key(line).value} else seen;
      TailDistinct(key, lines, seen, s2);
      DistinctUnchangedBy(key, lines[1..], s2);
      assert lines == [line] + lines[1..];
    }
  }

  /** Removing duplicates twice removes nothing more, line by line. */
  lemma {:induction false} DedupIdempotent(lines: seq<string>)
    ensures DedupComments(DedupComments(lines, {}), {}) == DedupComments(lines, {})
  {
    KeptCommentsAreDistinct(lines, {});
    DistinctLinesUnchanged(DedupComments(lines, {}), {});
  }

  /** On texts, applying the function twice equals applying it once unless
      its last kept line is empty (then the second pass loses a "\n"). */
  lemma {:induction false} CleanedCodeIdempotent(code: string)
    requires var kept := DedupComments(SplitLines(code), {});
      kept == [] || kept[|kept| - 1] != ""
    ensures CleanedCode(CleanedCode(code)) == CleanedCode(code)
  {
    var kept := DedupComments(SplitLines(code), {});
    SplitLinesJoinLines(kept);
    DedupIdempotent(SplitLines(code));
  }

  /* ---------- line breaks at the end ---------- */

  lemma {:induction false} SplitAppendSep(s: string, c: char)
    ensures Split(s + [c], c) == Split(s, c) + [""]
    decreases |s|
  {
    var t := s + [c];
    if c in s {
      var k := FirstIndex(s, c);
      SplitAt(s, c, k);
      assert t[..k] == s[..k] && t[k + 1..] == s[k + 1..] + [c];
      SplitAt(t, c, k);
      SplitAppendSep(s[k + 1..], c);
      AppendAssoc([s[..k]], Split(s[k + 1..], c), [""]);
    } else {
      assert t[..|s|] == s && t[|s| + 1..] == [];
      SplitAt(t, c, |s|);
      assert Split([], c) == [[]];
    }
  }

  /** A final "\n" makes no difference to the result: the output is a join of
      lines and never keeps the input's trailing line break. */
  lemma {:induction false} TrailingNewlineDropped(s: string)
    requires s == [] || s[|s| - 1] != '\n'
    ensures CleanedCode(s + "\n") == CleanedCode(s)
  {
    SplitAppendSep(s, '\n');
    var t := s + "\n";
    assert t != [] && t[|t| - 1] == '\n';
    assert SplitLines(t) == Split(s, '\n');
    if s == [] {
      assert Split(s, '\n') == [""];
      assert DedupComments([""], {}) == [""] by {
        assert !IsCommentLine("");
      }
      assert JoinLines([""]) == "";
    }
  }

  /** The lines of `x` followed by one and by two line breaks. */
  lemma {:induction false} LinesOfBreaks(x: string)
    requires '\n' !in x
    ensures SplitLines(x + "\n") == [x]
    ensures SplitLines(x + "\n" + "\n") == [x, ""]
  {
    assert Split(x, '\n') == [x];
    SplitAppendSep(x, '\n');
    var y := x + "\n";
    assert y[|y| - 1] == '\n';
    SplitAppendSep(y, '\n');
    var z := y + "\n";
    assert z[|z| - 1] == '\n';
  }

  /** Two lines of code pass unchanged and are joined by one line break. */
  lemma {:induction false} TwoCodeLines(x: string, y: string)
    requires !IsCommentLine(x) && !IsCommentLine(y)
    ensures DedupComments([x, y], {}) == [x, y]
    ensures DedupComments([x], {}) == [x]
    ensures JoinLines([x, y]) == x + "\n" + y
  {
    assert [y][1..] == [];
    assert DedupComments([y], {}) == [y];
    assert [x][1..] == [];
    assert DedupComments([x], {}) == [x];
    assert [x, y][1..] == [y];
    assert DedupComments([x, y], {}) == [x] + DedupComments([y], {});
    assert Join("\n", [y]) == y;
  }

  lemma {:induction false} EmptyLineIsCode(e: string)
    requires e == []
    ensures !IsCommentLine(e)
  {
    StripNoop(e);
  }

  /** A line of code followed by two line breaks loses one break on each
      pass ("a\n\n" gives "a\n", which gives "a"): on texts the function is
      not idempotent. */
  lemma {:induction false} SecondPassChangesText(x: string)
    requires '\n' !in x && !IsCommentLine(x)
    ensures CleanedCode(x + "\n" + "\n") == x + "\n"
    ensures CleanedCode(CleanedCode(x + "\n" + "\n")) == x
  {
    LinesOfBreaks(x);
    EmptyLineIsCode("");
    TwoCodeLines(x, "");
    assert x + "\n" + "" == x + "\n";
  }
}
