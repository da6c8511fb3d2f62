/** The decisions `app.py` makes around the engine: the keyword sentiment
    classifier of `/classify`, the CORS origin list read from the
    environment, and what `/reply`, `/reply-code-only`, `/generate` and
    `/autocomplete` send back for each outcome of the call they make. */
module Api {
  import opened Text

  /* ---------- /classify ---------- */

  datatype Label = Positive | Negative | Neutral

  const PositiveWords: seq<string> := ["good", "excellent", "happy", "fantastic", "positive", "great", "wonderful"]
  const NegativeWords: seq<string> := ["bad", "terrible", "sad", "horrible", "negative", "awful", "fatal"]

  /** `any(word in text for word in words)`. */
  function AnyWordIn(text: string, words: seq<string>): (r: bool)
    ensures r <==> exists i :: 0 <= i < |words| && Contains(text, words[i])
    decreases |words|
  {
    if words == [] then false
    else Contains(text, words[0]) || AnyWordIn(text, words[1..])
  }

  /** The if/elif chain over the lowered text. */
  function LabelOf(text: string): Label {
    if AnyWordIn(text, PositiveWords) then Positive
    else if AnyWordIn(text, NegativeWords) then Negative
    else Neutral
  }

  /** The "text" member of the request body: missing, a string, or a JSON
      value of another kind (whose `.lower()` raises). */
  datatype TextField = Missing | Str(s: string) | NotAString

  /** A handler's result: a body, or an `HTTPException`. */
  datatype Http<T> = Ok(body: T) | HttpError(status: nat, detail: string)

  /** The body of a `/classify` answer. */
  datatype Classification = Classification(text: string, classification: Label)

  /** `classify`: the echo is the lowered text; a text that is not a string
      is a 500, with the exception's message (a parameter here) as detail. */
  function Classify(field: TextField, errorMessage: string): (r: Http<Classification>)
    ensures field.NotAString? <==> r.HttpError?
    ensures r.HttpError? ==> r.status == 500
    ensures r.Ok? ==> r.body.text == Lower(if field.Str? then field.s else "")
    ensures r.Ok? ==> r.body.classification == LabelOf(r.body.text)
  {
    match field
    case Missing => Ok(Classification("", LabelOf("")))
    case Str(s) => Ok(Classification(Lower(s), LabelOf(Lower(s))))
    case NotAString => HttpError(500, errorMessage)
  }

  /** "positive" exactly when a positive word is a substring of the lowered text. */
  lemma {:induction false} PositiveIff(s: string)
    ensures LabelOf(Lower(s)) == Positive
        <==> exists i :: 0 <= i < |PositiveWords| && Contains(Lower(s), PositiveWords[i])
  {
  }

  /** "negative" exactly when no positive word but some negative word occurs:
      a text with both kinds is positive. */
  lemma {:induction false} NegativeIff(s: string)
    ensures LabelOf(Lower(s)) == Negative
        <==> (forall i :: 0 <= i < |PositiveWords| ==> !Contains(Lower(s), PositiveWords[i]))
             && exists i :: 0 <= i < |NegativeWords| && Contains(Lower(s), NegativeWords[i])
  {
  }

  /** "neutral" exactly when no word of either list occurs. */
  lemma {:induction false} NeutralIff(s: string)
    ensures LabelOf(Lower(s)) == Neutral
        <==> (forall i :: 0 <= i < |PositiveWords| ==> !Contains(Lower(s), PositiveWords[i]))
             && (forall i :: 0 <= i < |NegativeWords| ==> !Contains(Lower(s), NegativeWords[i]))
  {
  }

  /** Case does not matter: the text and its lowered form get the same answer. */
  lemma {:induction false} ClassifyIgnoresCase(s: string, errorMessage: string)
    ensures Classify(Str(s), errorMessage) == Classify(Str(Lower(s)), errorMessage)
  {
    LowerIdempotent(s);
  }

  /** A missing text is classified as the empty text: neutral. */
  lemma {:induction false} MissingTextIsNeutral(errorMessage: string)
    ensures Classify(Missing, errorMessage) == Ok(Classification("", Neutral))
  {
    assert forall i :: 0 <= i < |PositiveWords| ==> !Contains("", PositiveWords[i]);
    assert forall i :: 0 <= i < |NegativeWords| ==> !Contains("", NegativeWords[i]);
  }

  lemma {:induction false} NoPositiveWordInBadge(s: string)
    requires s == "badge"
    ensures !AnyWordIn(s, PositiveWords)
  {
    MissingCharNoOccurrence(s, PositiveWords[0], 1);
    MissingCharNoOccurrence(s, PositiveWords[1], 1);
    MissingCharNoOccurrence(s, PositiveWords[2], 0);
    MissingCharNoOccurrence(s, PositiveWords[3], 0);
    MissingCharNoOccurrence(s, PositiveWords[4], 0);
    MissingCharNoOccurrence(s, PositiveWords[5], 1);
    MissingCharNoOccurrence(s, PositiveWords[6], 0);
  }

  /** Matching is by substring: "badge" holds "bad" and is negative. */
  lemma {:induction false} BadgeIsNegative(s: string, errorMessage: string)
    requires s == "badge"
    ensures Classify(Str(s), errorMessage) == Ok(Classification(s, Negative))
  {
    LowerOfLowerCase(s);
    NoPositiveWordInBadge(s);
    assert OccursAt(s, NegativeWords[0], 0);
  }

  /** Matching ignores negation: "not good" holds "good" and is positive. */
  lemma {:induction false} NotGoodIsPositive(s: string, errorMessage: string)
    requires s == "not good"
    ensures Classify(Str(s), errorMessage) == Ok(Classification(s, Positive))
  {
    LowerOfLowerCase(s);
    assert OccursAt(s, PositiveWords[0], 4);
  }

  /* ---------- CORS_ALLOWED_ORIGINS ---------- */

  /** The comprehension over the comma-split pieces: each stripped, the
      empty ones dropped. */
  function KeepOrigins(pieces: seq<string>): (origins: seq<string>)
    ensures |origins| <= |pieces|
    decreases |pieces|
  {
    if pieces == [] then []
    else
      var o := Strip(pieces[0]);
      if o != [] then [o] + KeepOrigins(pieces[1..])
      else KeepOrigins(pieces[1..])
  }

  /** The origin list for the value of `CORS_ALLOWED_ORIGINS`, unset being
      the same as "". */
  function AllowedOrigins(env: Option<string>): seq<string> {
    KeepOrigins(Split(if env.Some? then env.value else "", ','))
  }

  /** An unset or empty variable allows no origin. */
  lemma {:induction false} UnsetAllowsNothing(env: Option<string>)
    requires env.None? || env.value == ""
    ensures AllowedOrigins(env) == []
  {
    assert Split("", ',') == [""];
    assert Strip("") == [];
  }

  /** A usable origin: not empty, no surrounding blanks, no comma. */
  predicate IsCleanOrigin(o: string) {
    o != [] && Strip(o) == o && ',' !in o
  }

  /** Stripping keeps a part of the text, so no comma appears. */
  lemma {:induction false} StripKeepsOut(t: string, c: char)
    requires c !in t
    ensures c !in Strip(t)
  {
    var a, b :| 0 <= a <= b <= |t| && Strip(t) == t[a..b];
    forall i | 0 <= i < b - a
      ensures Strip(t)[i] != c
    {
      assert Strip(t)[i] == t[a + i];
    }
  }

  /** A comma-free piece that is not blank gives a clean origin. */
  lemma {:induction false} StrippedPieceIsClean(p: string)
    requires ',' !in p && Strip(p) != []
    ensures IsCleanOrigin(Strip(p))
  {
    StripKeepsOut(p, ',');
    StripNoop(Strip(p));
  }

  /** No allowed origin holds a comma, has surrounding blanks or is empty. */
  lemma {:induction false} OriginsAreClean(env: Option<string>)
    ensures forall o :: o in AllowedOrigins(env) ==> IsCleanOrigin(o)
  {
    var pieces := Split(if env.Some? then env.value else "", ',');
    OriginsAreCleanFrom(pieces);
  }

  lemma {:induction false} OriginsAreCleanFrom(pieces: seq<string>)
    requires forall i :: 0 <= i < |pieces| ==> ',' !in pieces[i]
    ensures forall o :: o in KeepOrigins(pieces) ==> IsCleanOrigin(o)
    decreases |pieces|
  {
    if pieces != [] {
      var rest := pieces[1..];
      assert forall i :: 0 <= i < |rest| ==> rest[i] == pieces[i + 1];
      OriginsAreCleanFrom(rest);
      if Strip(pieces[0]) != [] {
        StrippedPieceIsClean(pieces[0]);
        assert KeepOrigins(pieces) == [Strip(pieces[0])] + KeepOrigins(rest);
      }
    }
  }

  /** A list of clean origins written comma-separated is read back as it was. */
  lemma {:induction false} OriginsRoundTrip(origins: seq<string>)
    requires forall o :: o in origins ==> IsCleanOrigin(o)
    ensures AllowedOrigins(Some(Join(",", origins))) == origins
  {
    if origins == [] {
      UnsetAllowsNothing(Some(""));
    } else {
      SplitJoin(origins, ',');
      assert forall i :: 0 <= i < |origins| ==> origins[i] in origins;
      KeepCleanOrigins(origins);
    }
  }

  lemma {:induction false} KeepCleanOrigins(origins: seq<string>)
    requires forall i :: 0 <= i < |origins| ==> IsCleanOrigin(origins[i])
    ensures KeepOrigins(origins) == origins
    decreases |origins|
  {
    if origins != [] {
      var rest := origins[1..];
      assert forall i :: 0 <= i < |rest| ==> rest[i] == origins[i + 1];
      KeepCleanOrigins(rest);
      var o := origins[0];
      assert IsCleanOrigin(o);
      assert Strip(o) == o && o != [];
      assert KeepOrigins(origins) == [o] + KeepOrigins(rest);
      assert origins == [o] + rest;
    }
  }

  /* ---------- /reply and /reply-code-only ---------- */

  /** How the call to the assistant ended: with a text, or by raising. */
  datatype CallOutcome = Returned(text: string) | Raised(message: string)

  /** A reply body: the text, and the measured duration when it is the
      assistant's own answer. The clock reading is a parameter. */
  datatype Reply = Reply(text: string, duration: Option<nat>)

  /** "⚠️" and "❌" */
  const WarningSign: string := "\U{26A0}\U{FE0F}"
  const CrossMark: string := "\U{274C}"

  /** "⚠️ Unable to generate explanation, please try again." */
  const ExplanationFallback: string := WarningSign + " Unable to generate explanation, please try again."
  /** "⚠️ Unable to generate valid code." */
  const CodeFallback: string := WarningSign + " Unable to generate valid code."

  /** "⚠️ Internal assistant error (" + message + ")" */
  function InternalError(message: string): string {
    WarningSign + " Internal assistant error (" + message + ")"
  }

  /** An empty text or one that opens with a warning or error sign. */
  predicate IsFailureText(text: string) {
    text == [] || StartsWith(text, WarningSign) || StartsWith(text, CrossMark)
  }

  /** The common shape of both handlers, with their own fallback text. */
  function ReplyWith(fallback: string, call: CallOutcome, duration: nat): Reply {
    match call
    case Raised(m) => Reply(InternalError(m), None)
    case Returned(t) => if IsFailureText(t) then Reply(fallback, None) else Reply(t, Some(duration))
  }

  /** `/reply` (field "reply"). */
  function ReplyEndpoint(call: CallOutcome, duration: nat): (r: Reply)
    ensures r.duration.Some? <==> call.Returned? && !IsFailureText(call.text)
    ensures r.duration.Some? ==> r.text == call.text && r.duration == Some(duration)
    ensures call.Returned? && IsFailureText(call.text) ==> r.text == ExplanationFallback
    ensures call.Raised? ==> r.text == InternalError(call.message)
  {
    ReplyWith(ExplanationFallback, call, duration)
  }

  /** `/reply-code-only` (field "code"). */
  function ReplyCodeOnlyEndpoint(call: CallOutcome, duration: nat): (r: Reply)
    ensures r.duration.Some? <==> call.Returned? && !IsFailureText(call.text)
    ensures r.duration.Some? ==> r.text == call.text && r.duration == Some(duration)
    ensures call.Returned? && IsFailureText(call.text) ==> r.text == CodeFallback
    ensures call.Raised? ==> r.text == InternalError(call.message)
  {
    ReplyWith(CodeFallback, call, duration)
  }

  lemma {:induction false} WarningPrefix(s: string, rest: string)
    requires s == WarningSign + rest
    ensures StartsWith(s, WarningSign) && s != [] && !StartsWith(s, CrossMark)
  {
    assert s[..|WarningSign|] == WarningSign;
    assert s[0] == '\U{26A0}';
  }

  /** The client is never shown an empty text or an engine error: whatever
      happens, the text is non-empty and does not open with "❌". */
  lemma {:induction false} RepliesHideErrors(fallback: string, call: CallOutcome, duration: nat)
    requires fallback == ExplanationFallback || fallback == CodeFallback
    ensures var r := ReplyWith(fallback, call, duration);
      r.text != [] && !StartsWith(r.text, CrossMark)
  {
    if call.Raised? {
      WarningPrefix(InternalError(call.message), " Internal assistant error (" + call.message + ")");
    } else if IsFailureText(call.text) {
      if fallback == ExplanationFallback {
        WarningPrefix(fallback, " Unable to generate explanation, please try again.");
      } else {
        WarningPrefix(fallback, " Unable to generate valid code.");
      }
    }
  }

  /* ---------- /generate and /autocomplete ---------- */

  /** `/generate` (field "code") and `/autocomplete` (field "suggestion"):
      an exception becomes a 500 whose detail is its message. */
  function PassThrough(call: CallOutcome): (r: Http<string>)
    ensures call.Returned? <==> r.Ok?
    ensures r.Ok? ==> r.body == call.text
    ensures r.HttpError? ==> r.status == 500 && r.detail == call.message
  {
    match call
    case Returned(t) => Ok(t)
    case Raised(m) => HttpError(500, m)
  }
}
