# Code assistant text pipeline in Dafny

This project models the text handling of a small code assistant. The
assistant is a FastAPI service in front of a local CodeLlama model. Given a
request, it builds a prompt, calls the model with a fixed parameter tuple per
mode, and normalises the completion:

- `generate_response` maps the engine's result to a text or to one of two
  sentinels ("⚠️ ERROR: Empty model output", "❌ Error: …").
- `generate_code` returns that text directly.
- `autocomplete_code` keeps only what follows the last `# CONTINUE:` marker.
- `generate_reply` runs `_clean_mentor_response` and falls back to a fixed
  three-step explanation.
- `generate_reply_code_only` substitutes a placeholder for a blank
  completion, filters the lines with a `func_started` flag, and appends a
  language-specific end marker.

Around this core, the model covers:

- `remove_duplicate_comments` from `postprocess.py`;
- the `/classify` keyword rule, the CORS origin parsing, and the
  fallback/exception rules of the endpoints in `app.py`;
- `run_prompt` of the console runner `run_model.py`.

The model itself is an oracle `(prompt, Params) -> Completion`. A completion
has three outcomes:

- it has a list of choice texts;
- it has no `choices` key;
- it raises, with a message.

Model loading is part of that oracle.

Files and modules:

- `text.dfy` (`Text`): the Python string operations used by the source, on
  `seq<char>`. It covers `isspace`, `strip`/`lstrip`/`rstrip`, `lower`,
  `find`/`rfind`/`in`, `split` and `"\n".join`, `splitlines`, and
  subsequences.
- `engine.dfy` (`Engine`): the oracle, the mode table, `generate_response`,
  and the "already loaded" guard of `_load_model` as a class.
- `mentor_clean.dfy` (`MentorClean`): `_clean_mentor_response`. Each regular
  expression is a hand-written matcher. Each `re.sub(…, "", …)` is a
  left-to-right erasing scan.
- `pipeline.dfy` (`Pipeline`): the prompt builders and the four operations.
  The code-only line filter is a `while` loop proved against a specification
  function.
- `code_only_cases.dfy` (`CodeOnlyCases`): the fixed cases of the code-only
  reply. These are the placeholders and a one-line reply holding a marker
  word.
- `postprocess.dfy` (`Postprocess`): the duplicate-comment loop and its
  properties.
- `api.dfy` (`Api`): the decision logic of the HTTP handlers.
- `run_model.dfy` (`RunModel`): `run_prompt`.

Some consequences of the code that a reader might not expect:

- **Temperature.** `generate_code` and `autocomplete_code` pass no
  temperature, so they run at 0.7, the default of `generate_response`.
- **The mentor clean-up is not idempotent.** Each label is removed at most
  once per pass, so `"answer: answer: x"` gives `"answer: x"`, and a second
  pass gives `"x"` (`MentorClean.RepeatedLabelSurvives`,
  `MentorClean.SecondPassDropsLabel`).
- **Fenced markers can survive.** An unmatched ```` ``` ```` survives the
  lazy span deletion. What holds is weaker: after the fence step, no two
  separate ```` ``` ```` marks remain.
- **A one-line JavaScript reply holding `BEGIN` is dropped whole.** The line
  filter drops `function foo(){return 1;} BEGIN extra` entirely, so the
  reply is `"\n// END"` (`CodeOnlyCases.OneLineReplyDropped`).

## Model

| member | source | states |
|---|---|---|
| Engine.EffectiveStop | ml_engine.py:48 | `stop or ["</s>", "###"]`: a missing or empty list gives exactly `["</s>", "###"]`; a non-empty list given by the caller is used as it is |
| Engine.ModeParams | ml_engine.py:153-158 | every mode tuple (generate 100/0.7, autocomplete 40/0.7, mentor 400/0.3, code-only 400/0.2) uses the stop set `["</s>", "###"]` and sets a temperature |
| Engine.ResponseText | ml_engine.py:51-58 | an exception gives "❌ Error: " + its message; no `choices` key or an empty list gives "⚠️ ERROR: Empty model output"; otherwise the first choice, stripped |
| Engine.GenerateResponse | ml_engine.py:41-58 | one engine call with the given tokens and temperature; with no stop list (or an empty one) it uses `["</s>", "###"]`, otherwise the caller's list; the result is never an exception but the empty-output sentinel, an error text, "" or a text with no whitespace at either end |
| Engine.ResponseOutcomes | ml_engine.py:51-58 | every result is a sentinel, empty, or a text with no whitespace at either end |
| Engine.ModelHandle.constructor | ml_engine.py:7 | the process starts with no model loaded |
| Engine.ModelHandle.EnsureLoaded | ml_engine.py:17-19 | afterwards a model is loaded; if one was loaded already, nothing is loaded again |
| MentorClean.WordEnd | ml_engine.py:106-108 | a match of `\bword\b` ends right after a case-insensitive occurrence of the word |
| MentorClean.PhraseEnd | ml_engine.py:105-107 | a match of `\bdef\s+_load_model\b` or `\bimport\s+os\b` starts with the first word and reaches past both words and at least one space |
| MentorClean.LineEnd | ml_engine.py:104 | the `.*` of the browser-tabs pattern stops at the first "\n" |
| MentorClean.MatchEnd | ml_engine.py:99-111 | a match of any of the erased patterns at a position is non-empty and ends inside the text |
| MentorClean.EraseFrom | ml_engine.py:99-111 | `re.sub(pattern, "", …)` never lengthens the text; it leaves the text unchanged exactly when no match starts anywhere, and shortens it otherwise |
| MentorClean.FenceEraseLeavesNoBlock | ml_engine.py:100 | the fence scan from any position leaves no two separate ```` ``` ```` marks in what it produces |
| MentorClean.NoFencedBlockAfterFenceStep | ml_engine.py:100 | after the fence step of the clean-up, no two separate ```` ``` ```` marks remain, so no fenced block is left |
| MentorClean.DropLabelAnyCase | ml_engine.py:95-97 | a leading label in any case ("Answer:", "ANSWER:", "answer:") is cut off whatever follows it, and the rest stripped |
| MentorClean.RepeatedLabelSurvives | ml_engine.py:95-97 | each label is removed at most once: "answer: answer: x" leaves "answer: x" |
| MentorClean.SecondPassDropsLabel | ml_engine.py:95-97 | a second pass over "answer: x" gives "x", so the clean-up is not idempotent |
| MentorClean.FirstStepMarker | ml_engine.py:113 | `re.search` finds the first position where `Step\s*1` (any case) or a line-start `\s*1.` matches, and there is none before it |
| MentorClean.MarkerSurvivesStrip | ml_engine.py:113-115 | stripping the text from a marker on keeps the marker at its head |
| MentorClean.AnchorAtFirstStep | ml_engine.py:113-115 | with no marker the text is unchanged; otherwise it is the stripped text from the first marker on, and starts with a marker |
| MentorClean.CollapseNewlinesFrom | ml_engine.py:117 | after collapsing runs of three or more newlines, no run of three newlines remains |
| MentorClean.CollapseBlanksFrom | ml_engine.py:118 | after collapsing runs of spaces and tabs, no two blanks in a row remain |
| MentorClean.CollapseBlanksKeepsNewlines | ml_engine.py:117-118 | collapsing blanks creates no run of three newlines |
| MentorClean.CollapseBlanksKeepsEnds | ml_engine.py:117-118 | collapsing blanks keeps a first and a last character that are not blanks |
| MentorClean.RecapLimitation | ml_engine.py:119 | a text that does not start with "limitation", optional whitespace and ":" (in any case) is unchanged, so "Limitations apply" stays as it is; one that does becomes "Limitation:" followed by what came after the colon; the rewrite happens only at the start of the whole text |
| MentorClean.RecapKeepsShape | ml_engine.py:119 | the rewrite keeps a well-shaped text well-shaped |
| MentorClean.TidyIsWellShaped | ml_engine.py:117-119 | the last three steps always give a text with no whitespace at either end, no three newlines in a row and no two blanks in a row |
| MentorClean.CleanMentorResponse | ml_engine.py:91-92 | empty input gives "" |
| MentorClean.CleanedIsWellShaped | ml_engine.py:81-121 | whatever the model wrote, the cleaned explanation is well-shaped |
| MentorClean.TidyKeepsMarker | ml_engine.py:117-119 | a step marker at the head of the anchored text is still at the head after the newline collapse, the strip, the blank collapse and the "Limitation" rewrite |
| MentorClean.CleanedStartsAtStep | ml_engine.py:81-121 | whenever the text left after the label, code and leak removal holds a step marker, the cleaned explanation starts with one |
| Pipeline.CodePromptInjective | ml_engine.py:71 | a one-line language and the request are recovered from the `generate_code` prompt |
| Pipeline.GenerateCode | ml_engine.py:71-72 | `generate_code` is one engine call on its prompt with the generate tuple |
| Pipeline.AutocompletePromptInjective | ml_engine.py:75 | a one-line language and the code are recovered from the autocomplete prompt |
| Pipeline.LastPieceAfterLastMarker | ml_engine.py:78 | the last piece of `split("# CONTINUE:")` is the text after the last occurrence of the marker |
| Pipeline.AfterLastMarker | ml_engine.py:77-79 | the autocomplete result never holds the marker; without a marker it is the stripped text |
| Pipeline.AfterLastMarkerIsAfterLast | ml_engine.py:77-78 | with a marker, the result is the stripped text after its last occurrence |
| Pipeline.AutocompleteCode | ml_engine.py:74-79 | `autocomplete_code` is one call with the autocomplete tuple, then the text after the last marker |
| Pipeline.MentorPromptEmbeds | ml_engine.py:138-151 | the mentor prompt holds the language, the user level and the code |
| Pipeline.MentorReply | ml_engine.py:160-170 | the reply is never empty; it is the cleaned explanation whenever that is non-empty, and otherwise the fixed fallback |
| Pipeline.GenerateReply | ml_engine.py:153-170 | `generate_reply` is one call with the mentor tuple (400 tokens, 0.3) on the mentor prompt, then the clean-up with its fallback |
| Pipeline.ReplyIgnoresPromptAndUser | ml_engine.py:124-158 | the request text and the user id do not affect the reply |
| Pipeline.CodeOnlyPromptEmbeds | ml_engine.py:186-196 | the code-only prompt holds the language, the request and the code |
| Pipeline.KeepCodeLines | ml_engine.py:211-224 | every kept line is a response line, with no BEGIN or END, is not a comment other than `#!`, and has no `edge_all_open_tabs` or `User` |
| Pipeline.FilterCodeLines | ml_engine.py:211-224 | the loop with `func_started` keeps exactly the lines of the filter specification |
| Pipeline.GenerateReplyCodeOnly | ml_engine.py:173-236 | `generate_reply_code_only` is one call with the code-only tuple, then the placeholder, the line filter and the ending |
| Pipeline.KeptLinesAreSubsequence | ml_engine.py:211-224 | the kept lines are response lines, unmodified and in order |
| Pipeline.BodyLinesKept | ml_engine.py:220-224 | every line that is neither blocked nor a header is kept, in order, even after a dropped header |
| Pipeline.FirstHeaderOnlyKept | ml_engine.py:220-224 | of the usable headers, exactly the first is kept |
| Pipeline.FilteredTextHasNoEnd | ml_engine.py:214-226 | the filtered text holds no "END" |
| Pipeline.PythonEnding | ml_engine.py:228-229 | python: the reply ends with "\n# END", and that is its only "END" |
| Pipeline.CFamilyEnding | ml_engine.py:230-234 | javascript/java/c++/c: the reply is the filtered text up to its last "}" (all of it when there is none) followed by "\n// END" |
| Pipeline.OtherLanguageEnding | ml_engine.py:228-236 | any other language: the filtered text is returned with no end marker |
| CodeOnlyCases.PythonPlaceholderReply | ml_engine.py:205-207 | python: a blank completion, and the placeholder itself, both give exactly "def placeholder():\n    pass\n# END" |
| CodeOnlyCases.JavascriptPlaceholderReply | ml_engine.py:208-209 | javascript: a blank completion, and the placeholder itself, both give exactly "function placeholder() {}\n// END" |
| CodeOnlyCases.BlockedOneLineReply | ml_engine.py:213-215 | a C-family reply of one line with a marker word is dropped whole, leaving "\n// END" |
| CodeOnlyCases.OneLineReplyDropped | ml_engine.py:213-234 | "function foo(){return 1;} BEGIN extra" in javascript becomes "\n// END" |
| Postprocess.DedupComments | postprocess.py:15-26 | every output line is an input line |
| Postprocess.RemoveDuplicateComments | postprocess.py:5-26 | the loop with its `seen` set returns the join of the lines of the specification |
| Postprocess.CodeLinesKept | postprocess.py:18-25 | every line that is not a comment is kept, unchanged and in order |
| Postprocess.KeptLinesAreSubsequence | postprocess.py:15-26 | the output lines are an in-order subsequence of the input lines, never more of them |
| Postprocess.DedupSnoc | postprocess.py:18-25 | a further line is appended exactly when it is code or its stripped text is neither seen nor among the earlier comments |
| Postprocess.DedupIsFirstOccurrences | postprocess.py:19-23 | a line is kept if and only if it is code or no earlier comment line has the same stripped text, so "  # x" and "# x" are duplicates |
| Postprocess.KeptCommentsUnseen | postprocess.py:19-23 | no kept comment has a text that was already seen |
| Postprocess.KeptCommentsAreDistinct | postprocess.py:19-23 | no two kept comment lines have the same stripped text |
| Postprocess.DistinctLinesUnchanged | postprocess.py:16-25 | lines with no repeated comment pass unchanged |
| Postprocess.DedupIdempotent | postprocess.py:15-26 | on lines, applying the function twice is applying it once |
| Postprocess.CleanedCodeIdempotent | postprocess.py:15-26 | on texts, twice is once when the last kept line is not empty |
| Postprocess.TrailingNewlineDropped | postprocess.py:15-26 | a final "\n" of the input makes no difference to the output |
| Postprocess.SecondPassChangesText | postprocess.py:15-26 | a one-line code text `x` followed by two line breaks gives `x` + "\n", and a second pass gives `x`: not idempotent on texts |
| Api.AnyWordIn | app.py:165 | `any(word in text …)` holds if and only if some word of the list is a substring |
| Api.Classify | app.py:158-174 | the echo is the lowered text ("" when missing) and the label is the keyword rule applied to it; a text that is not a string is an HTTP 500 |
| Api.PositiveIff | app.py:165-166 | "positive" if and only if a positive word occurs in the lowered text |
| Api.NegativeIff | app.py:167-168 | "negative" if and only if no positive word but some negative word occurs, so positive wins |
| Api.NeutralIff | app.py:169-170 | "neutral" if and only if no word of either list occurs |
| Api.ClassifyIgnoresCase | app.py:160 | a text and its lowered form get the same answer |
| Api.MissingTextIsNeutral | app.py:160 | a missing text is classified as "" and is neutral |
| Api.BadgeIsNegative | app.py:162-168 | "badge" holds "bad" and is negative |
| Api.NotGoodIsPositive | app.py:162-166 | "not good" holds "good" and is positive |
| Api.KeepOrigins | app.py:25 | the comprehension never gives more origins than there are pieces |
| Api.UnsetAllowsNothing | app.py:22-25 | an unset or empty variable allows no origin |
| Api.OriginsAreClean | app.py:22-25 | every allowed origin is non-empty, stripped and without a comma |
| Api.OriginsRoundTrip | app.py:22-25 | clean origins written comma-separated are read back as they were |
| Api.ReplyEndpoint | app.py:97-114 | the duration is sent if and only if the reply is a non-failure text, which is sent unchanged; a failure text gives "⚠️ Unable to generate explanation, please try again."; an exception gives "⚠️ Internal assistant error (…)" |
| Api.ReplyCodeOnlyEndpoint | app.py:128-144 | the same rule, with "⚠️ Unable to generate valid code." |
| Api.RepliesHideErrors | app.py:108-114 | the client never receives an empty text or one starting with "❌" |
| Api.PassThrough | app.py:71-83 | `/generate` and `/autocomplete` pass the text on, and an exception becomes HTTP 500 with its message |
| RunModel.RunPromptText | run_model.py:32-44 | there is a prompt if and only if the mode is exactly "mentor" or "code" |
| RunModel.RunPrompt | run_model.py:32-52 | an invalid mode raises; for a valid mode the call uses 512 tokens and stop `["</s>"]`, and gives its first choice unstripped when there is one, the model's exception when it raises, and a missing-choices error otherwise |
| RunModel.InvalidModeSkipsModel | run_model.py:43-44 | an invalid mode is refused whatever the model would answer |
| RunModel.CapitalisedModeIsInvalid | run_model.py:32-44 | the mode comparison is case-sensitive: "Mentor" is invalid |
| RunModel.MentorRunPromptInjective | run_model.py:33-37 | the question is recovered from the mentor prompt |
| RunModel.CodeRunPromptInjective | run_model.py:39-42 | the question is recovered from the code prompt |
| RunModel.MentorRunPromptEmbeds | run_model.py:33-37 | the mentor prompt holds the language and the question |
| RunModel.CodeRunPromptEmbeds | run_model.py:39-42 | the code prompt holds the language and the question |

## Left out

- Unicode case: `Text.Lower` and the case-insensitive matching cover ASCII letters only. This is exact for every label, language name, keyword and pattern the source compares. It differs from `str.lower` and `re.IGNORECASE` only in the echoed `/classify` text and for a few non-ASCII letters that IGNORECASE folds onto ASCII.
- `\w` in the word boundaries of the leak patterns is taken as ASCII letters, digits and `_`; Python's is Unicode.
- `splitlines` splits on "\n" only; Python also splits on "\r", "\r\n", "\v", "\f" and a few Unicode separators.
- Model loading (`hf_hub_download`, `Llama(...)`, the `MODEL_PATH` check at import in `run_model.py`) and inference are the oracle. The guard of `_load_model` is the `ModelHandle` class. Races between concurrent first calls are not modelled.
- Temperatures are opaque constants in tenths; there is no sampling.
- Logging (`print`, `traceback.format_exc`), the clock reading behind `duration` (a parameter here), FastAPI routing, the CORS middleware installation, the token check `verify_token` and the `user["uid"]` lookup, and the `/`, `/health`, startup and shutdown handlers.
- Api.Classify: an unreadable JSON body and a body that is not an object also end in HTTP 500 in the source. The model has one "not a string" case for all of them.
- `normalize_indentation`, `is_syntax_valid`, `try_exec` and `compare_versions` in `postprocess.py` wrap `textwrap`, `ast`, `exec` and `difflib`, which are not part of this model.
- The interactive `input()` loop of `run_model.py`.
- `your_model_script.py`, `db.py`, `auth.py`, `download_model.py`, `run.py` and `models.py` are plumbing and declarations, and are not part of this model.
- Pipeline.MentorReply: when the fallback is returned, the contract does not state that the fallback text is itself well-shaped (it is), because checking a fixed 230-character text character by character is beyond what the verifier does cheaply.
- MentorClean.EraseFrom: it states neither that no match is left after the deletion nor the opposite. Deleting a span can join text into a new match (a nested `\begin{code}` can leave a whole block behind). Only the fence step is proved to leave no fenced block.
- An "at most one Limitation line" rule is not enforced by the source, whose rewrite is anchored at the start of the text, and is not claimed here.
