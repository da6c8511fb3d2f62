/** `run_model.run_prompt`: the console runner's one call to the model, with
    a prompt chosen by mode. The model is the same oracle as the engine's. */
module RunModel {
  import opened Text
  import opened Engine

  /** What `run_prompt` gives back: the first choice's text as it is (not
      stripped), or the exception it raises. */
  datatype RunResult =
    | Output(text: string)
    | InvalidMode            // ValueError("Invalid mode: use 'mentor' or 'code'")
    | MissingChoices         // KeyError or IndexError on `output["choices"][0]`
    | ModelRaised(message: string)

  /** `max_tokens=512, stop=["</s>"]`, the temperature left to the model. */
  const RunParams: Params := Params(512, None, ["</s>"])

  function MentorRunPrompt(language: string, prompt: string): string {
    "You are an expert programming mentor.\nExplain step by step and then provide an example in "
    + language + ".\nUser question:\n" + prompt + "\n"
  }

  function CodeRunPrompt(language: string, prompt: string): string {
    "Return only the code in " + language + ", without explanation.\nUser question:\n" + prompt + "\n"
  }

  /** The prompt for a mode; other modes, compared case-sensitively, have none. */
  function RunPromptText(mode: string, language: string, prompt: string): (r: Option<string>)
    ensures r.Some? <==> mode == "mentor" || mode == "code"
  {
    if mode == "mentor" then Some(MentorRunPrompt(language, prompt))
    else if mode == "code" then Some(CodeRunPrompt(language, prompt))
    else None
  }

  /** `run_prompt(prompt, mode, language)`. */
  function RunPrompt(model: Oracle, prompt: string, mode: string, language: string): (r: RunResult)
    ensures RunPromptText(mode, language, prompt).None? <==> r.InvalidMode?
    ensures r.Output? ==> var c := model(RunPromptText(mode, language, prompt).value, RunParams);
      c.Choices? && c.texts != [] && r.text == c.texts[0]
    ensures RunPromptText(mode, language, prompt).Some? ==>
      var c := model(RunPromptText(mode, language, prompt).value, RunParams);
      (c.Choices? && c.texts != [] ==> r == Output(c.texts[0]))
      && (c.Failure? ==> r == ModelRaised(c.message))
      && (c.NoChoicesField? || (c.Choices? && c.texts == []) ==> r == MissingChoices)
  {
    match RunPromptText(mode, language, prompt)
    case None => InvalidMode
    case Some(full) =>
      match model(full, RunParams)
      case Failure(m) => ModelRaised(m)
      case NoChoicesField => MissingChoices
      case Choices(texts) => if texts == [] then MissingChoices else Output(texts[0])
  }

  /** An invalid mode is refused before the model is consulted. */
  lemma {:induction false} InvalidModeSkipsModel(m1: Oracle, m2: Oracle, prompt: string, mode: string, language: string)
    requires mode != "mentor" && mode != "code"
    ensures RunPrompt(m1, prompt, mode, language) == RunPrompt(m2, prompt, mode, language) == InvalidMode
  {
  }

  /** The mode is compared as given: "Mentor" is not a mode. */
  lemma {:induction false} CapitalisedModeIsInvalid(mode: string, model: Oracle, prompt: string, language: string)
    requires mode == "Mentor"
    ensures RunPrompt(model, prompt, mode, language) == InvalidMode
  {
    assert mode[0] != "mentor"[0] && mode[0] != "code"[0];
  }

  /** The user's question is recovered from the mentor prompt: it is the text
      between the fixed head and the final line break. */
  lemma {:induction false} MentorRunPromptInjective(language: string, p1: string, p2: string)
    requires MentorRunPrompt(language, p1) == MentorRunPrompt(language, p2)
    ensures p1 == p2
  {
    OneHoleInjective("You are an expert programming mentor.\nExplain step by step and then provide an example in "
      + language + ".\nUser question:\n", p1, p2, "\n");
  }

  /** The same for the code prompt. */
  lemma {:induction false} CodeRunPromptInjective(language: string, p1: string, p2: string)
    requires CodeRunPrompt(language, p1) == CodeRunPrompt(language, p2)
    ensures p1 == p2
  {
    OneHoleInjective("Return only the code in " + language + ", without explanation.\nUser question:\n", p1, p2, "\n");
  }

  /** Both prompts carry the language and the question. */
  lemma {:induction false} MentorRunPromptEmbeds(language: string, prompt: string)
    ensures Contains(MentorRunPrompt(language, prompt), language)
    ensures Contains(MentorRunPrompt(language, prompt), prompt)
  {
    ContainsTwoHoles("You are an expert programming mentor.\nExplain step by step and then provide an example in ",
      language, ".\nUser question:\n", prompt, "\n");
  }

  lemma {:induction false} CodeRunPromptEmbeds(language: string, prompt: string)
    ensures Contains(CodeRunPrompt(language, prompt), language)
    ensures Contains(CodeRunPrompt(language, prompt), prompt)
  {
    ContainsTwoHoles("Return only the code in ", language, ", without explanation.\nUser question:\n", prompt, "\n");
  }
}
