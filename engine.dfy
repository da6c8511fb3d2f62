/** The inference engine as seen from `ml_engine.py`: the per-mode generation
    parameters, the engine call as an oracle, the mapping of its result to text
    (`generate_response`) and the "already loaded" guard of `_load_model`. */
module Engine {
  import opened Text

  /** A sampling temperature, in tenths (0.7 is `Tenths(7)`); never computed with. */
  datatype Temperature = Tenths(n: nat)

  /** What one call of the engine is given besides the prompt. A temperature
      of `None` leaves the engine's own default in force. */
  datatype Params = Params(maxTokens: nat, temperature: Option<Temperature>, stop: seq<string>)

  /** What one engine call produced: the texts of its `choices`, a result
      without a `choices` key, or an exception (model loading included). */
  datatype Completion = Choices(texts: seq<string>) | NoChoicesField | Failure(message: string)

  /** The engine, model loading included, as an oracle. */
  type Oracle = (string, Params) -> Completion

  /** The four operations of the assistant, each with one parameter tuple. */
  datatype Mode = Generate | Autocomplete | Mentor | CodeOnly

  const DefaultStop: seq<string> := ["</s>", "###"]

  /** `generate_response`'s default temperature, 0.7. */
  const DefaultTemperature: Temperature := Tenths(7)

  /** "⚠️ ERROR: Empty model output" */
  const EmptyOutput: string := "\U{26A0}\U{FE0F} ERROR: Empty model output"

  /** "❌ Error: ", the prefix of a caught exception's message. */
  const ErrorPrefix: string := "\U{274C} Error: "

  /** `stop or ["</s>", "###"]`: `None` and the empty list are both falsy. */
  function EffectiveStop(stop: Option<seq<string>>): (r: seq<string>)
    ensures r != []
    ensures stop.None? || stop.value == [] ==> r == DefaultStop
    ensures stop.Some? && stop.value != [] ==> r == stop.value
  {
    match stop
    case Some(s) => if s == [] then DefaultStop else s
    case None => DefaultStop
  }

  /** The tuple each operation passes to `generate_response`, after its defaults
      are applied. */
  function ModeParams(m: Mode): (p: Params)
    ensures p.stop == DefaultStop
    ensures p.temperature.Some?
  {
    match m
    case Generate => Params(100, Some(DefaultTemperature), DefaultStop)
    case Autocomplete => Params(40, Some(DefaultTemperature), DefaultStop)
    case Mentor => Params(400, Some(Tenths(3)), DefaultStop)
    case CodeOnly => Params(400, Some(Tenths(2)), DefaultStop)
  }

  /** The text `generate_response` returns for one engine result: the stripped
      first choice, or a sentinel; an exception is never propagated. */
  function ResponseText(c: Completion): (r: string)
    ensures c.Failure? ==> r == ErrorPrefix + c.message
    ensures (c.NoChoicesField? || (c.Choices? && c.texts == [])) ==> r == EmptyOutput
    ensures c.Choices? && c.texts != [] ==> r == Strip(c.texts[0])
  {
    match c
    case Failure(m) => ErrorPrefix + m
    case NoChoicesField => EmptyOutput
    case Choices(texts) => if texts == [] then EmptyOutput else Strip(texts[0])
  }

  /** `generate_response(prompt, max_tokens, temperature, stop)`: one engine
      call, with `["</s>", "###"]` when no stop list is given, whose result is
      never an exception but a sentinel, nothing, or a stripped text. */
  function GenerateResponse(engine: Oracle, prompt: string, maxTokens: nat,
                            temperature: Temperature, stop: Option<seq<string>>): (r: string)
    ensures stop.None? || stop.value == [] ==>
      r == ResponseText(engine(prompt, Params(maxTokens, Some(temperature), DefaultStop)))
    ensures stop.Some? && stop.value != [] ==>
      r == ResponseText(engine(prompt, Params(maxTokens, Some(temperature), stop.value)))
    ensures r == EmptyOutput || StartsWith(r, ErrorPrefix) || r == [] || (!IsSpace(r[0]) && !IsSpace(r[|r| - 1]))
  {
    var c := engine(prompt, Params(maxTokens, Some(temperature), EffectiveStop(stop)));
    ResponseOutcomes(c);
    ResponseText(c)
  }

  /** The text of one engine call made with the tuple of mode `m`. */
  function ModeResponse(engine: Oracle, prompt: string, m: Mode): string {
    ResponseText(engine(prompt, ModeParams(m)))
  }

  /** A normal answer never looks like a sentinel: it has no whitespace at
      either end, while the sentinels are fixed texts or begin with "❌". */
  lemma {:induction false} ResponseOutcomes(c: Completion)
    ensures var r := ResponseText(c);
      r == EmptyOutput || StartsWith(r, ErrorPrefix) || r == [] || (!IsSpace(r[0]) && !IsSpace(r[|r| - 1]))
  {
    match c
    case Failure(m) => ConcatStartsWith(ErrorPrefix, m);
    case NoChoicesField =>
    case Choices(texts) =>
  }

  /** The process-wide model handle of `_load_model`: loading happens on the
      first call only. `loads` counts the downloads and constructions. */
  class ModelHandle {
    var loaded: bool
    ghost var loads: nat

    ghost predicate Valid()
      reads this
    {
      loads == if loaded then 1 else 0
    }

    constructor ()
      ensures Valid() && !loaded
    {
      loaded := false;
      loads := 0;
    }

    /** `_load_model()`: returns at once when a model is loaded, otherwise
        downloads and constructs it. */
    method EnsureLoaded()
      requires Valid()
      modifies this
      ensures Valid() && loaded
      ensures old(loaded) ==> loads == old(loads)
    {
      if loaded {
        return;
      }
      loaded := true;
      loads := loads + 1;
    }
  }
}
