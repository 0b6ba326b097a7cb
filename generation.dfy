/**
 * The gem's entry point: `Intelligent.generate` builds a `Generation` (which
 * validates the variables), substitutes them into the prompt and hands the text to
 * either one Anthropic call or the sequential-thinking loop, turning the service's
 * answer into a result record.
 */
module Intelligent {
  import opened Errors
  import opened Prompts
  import opened Anthropic
  import opened SequentialThinking

  /**
   * The hash `call` returns. `Generated` is `success: true` (with `thoughts` only on
   * the sequential path); `FailedWithoutPrompt` is a single-shot failure, whose
   * `generation` key is always nil; `FailedWithPrompt` carries `generated_prompt`.
   */
  datatype GenerationResult =
    | Generated(generatedText: string, thoughts: Option<seq<Thought>>)
    | FailedWithoutPrompt(error: string)
    | FailedWithPrompt(error: string, generatedPrompt: string)
  {
    predicate Success() { Generated? }
  }

  /** `generate_with_llm`: maps the Anthropic reply to a result. */
  function FromReply(reply: Reply): (r: GenerationResult)
    ensures r.Success() <==> reply.Succeeded?
    ensures r.Success() ==> r.generatedText == reply.text && r.thoughts.None?
    ensures !r.Success() ==> r.FailedWithoutPrompt? && r.error == reply.error
  {
    if reply.Succeeded? then Generated(reply.text, None) else FailedWithoutPrompt(reply.error)
  }

  /** `generate_with_sequential_thinking`: maps the thinking result to a result. */
  function FromThinking(result: ThinkResult, generatedPrompt: string): (r: GenerationResult)
    ensures r.Success() <==> result.Solved?
    ensures r.Success() ==> r.generatedText == result.finalText && r.thoughts == Some(result.thoughts)
    ensures !r.Success() ==> r.FailedWithPrompt? && r.error == result.error && r.generatedPrompt == generatedPrompt
  {
    match result
    case Solved(thoughts, finalText) => Generated(finalText, Some(thoughts))
    case Unsolved(error) => FailedWithPrompt(error, generatedPrompt)
  }

  /** The `rescue` in `call`: a raised error becomes a failure that keeps the prompt. */
  function Rescued(o: Outcome<GenerationResult>, generatedPrompt: string): (r: GenerationResult)
    ensures o.Raised? ==> r == FailedWithPrompt(o.message, generatedPrompt)
    ensures o.Normal? ==> r == o.value
  {
    match o
    case Normal(v) => v
    case Raised(m) => FailedWithPrompt(m, generatedPrompt)
  }

  /** A result together with the requests made to the Anthropic service. */
  datatype Trace = Trace(result: GenerationResult, calls: seq<Request>)

  /**
   * What `call` returns and sends, for a prompt, its bindings and a service: the
   * single-shot path sends one request with the substituted prompt, and a failure
   * that keeps a prompt keeps the substituted one.
   */
  function Produced(p: Prompt, vars: seq<Binding>, model: string, sequential: bool, files: seq<Attachment>,
                    service: Service): (t: Trace)
    ensures !sequential ==> t.calls == [Request(model, Substituted(p.content, vars), files)]
    ensures forall i :: 0 <= i < |t.calls| ==> t.calls[i].model == model && t.calls[i].files == files
    ensures t.result.FailedWithPrompt? ==> t.result.generatedPrompt == Substituted(p.content, vars)
  {
    var processed := Substituted(p.content, vars);
    if sequential then
      var run := Think(model, processed, files, DefaultMaxThoughts, service);
      var o := match run.outcome
               case Normal(t) => Normal(FromThinking(t, processed))
               case Raised(m) => Raised(m);
      Trace(Rescued(o, processed), run.calls)
    else
      var o := match Answer(service, 0)
               case Normal(reply) => Normal(FromReply(reply))
               case Raised(m) => Raised(m);
      Trace(Rescued(o, processed), [Request(model, processed, files)])
  }

  /** `files = nil` is passed on and treated as no files. */
  function FilesOrNone(files: Option<seq<Attachment>>): (fs: seq<Attachment>)
    ensures files.Some? ==> fs == files.value
    ensures files.None? ==> fs == []
  {
    if files.Some? then files.value else []
  }

  class Generation {
    const prompt: Prompt
    const inputVariables: seq<Binding>
    const model: string
    const useSequentialThinking: bool
    const files: seq<Attachment>
    /** `@generated_prompt`: unset until `call` runs. */
    var generatedPrompt: Option<string>

    /** Allocation once `validate_variables!` has passed; see `NewGeneration`. */
    constructor (prompt: string, inputVariables: seq<Binding>, model: string, useSequentialThinking: bool,
                 files: Option<seq<Attachment>>)
      requires ValidateVariables(Prompt(prompt), inputVariables).Normal?
      ensures this.prompt == Prompt(prompt) && this.inputVariables == inputVariables && this.model == model
      ensures this.useSequentialThinking == useSequentialThinking && this.files == FilesOrNone(files)
      ensures generatedPrompt.None?
    {
      this.prompt := Prompt(prompt);
      this.inputVariables := inputVariables;
      this.model := model;
      this.useSequentialThinking := useSequentialThinking;
      this.files := FilesOrNone(files);
      generatedPrompt := None;
    }

    /**
     * `call`: records the substituted prompt, then runs the chosen path; the service
     * is the sequence of answers the Anthropic client gives, call after call.
     */
    method Call(service: Service) returns (result: GenerationResult, calls: seq<Request>)
      modifies this
      ensures generatedPrompt == Some(Substituted(prompt.content, inputVariables))
      ensures Trace(result, calls) == Produced(prompt, inputVariables, model, useSequentialThinking, files, service)
      ensures forall i :: 0 <= i < |calls| ==> calls[i].model == model && calls[i].files == files
    {
      var processed := ProcessContent(prompt, inputVariables);
      generatedPrompt := Some(processed);
      if useSequentialThinking {
        var r, cs := ThinkThroughProblem(model, processed, files, DefaultMaxThoughts, service);
        calls := cs;
        match r
        case Raised(m) =>
          result := FailedWithPrompt(m, processed);
        case Normal(t) =>
          result := FromThinking(t, processed);
      } else {
        calls := [Request(model, processed, files)];
        match Answer(service, 0)
        case Raised(m) =>
          result := FailedWithPrompt(m, processed);
        case Normal(reply) =>
          result := FromReply(reply);
      }
    }
  }

  /** `Generation.new`: raises the validation error, otherwise a fresh generation. */
  method NewGeneration(prompt: string, inputVariables: seq<Binding>, model: string, useSequentialThinking: bool,
                       files: Option<seq<Attachment>>)
    returns (r: Outcome<Generation>)
    ensures ValidateVariables(Prompt(prompt), inputVariables).Raised? ==>
              r == Raised(ValidateVariables(Prompt(prompt), inputVariables).message)
    ensures ValidateVariables(Prompt(prompt), inputVariables).Normal? ==>
              r.Normal? && fresh(r.value) && r.value.generatedPrompt.None?
              && r.value.prompt == Prompt(prompt) && r.value.inputVariables == inputVariables
              && r.value.model == model && r.value.useSequentialThinking == useSequentialThinking
              && r.value.files == FilesOrNone(files)
  {
    var v := ValidateVariables(Prompt(prompt), inputVariables);
    if v.Raised? {
      return Raised(v.message);
    }
    var g := new Generation(prompt, inputVariables, model, useSequentialThinking, files);
    return Normal(g);
  }

  /**
   * `Intelligent.generate`: a validation error propagates and nothing is sent;
   * otherwise the result and requests of `call` on the new generation.
   */
  method Generate(prompt: string, variables: seq<Binding>, model: string, useSequentialThinking: bool,
                  files: Option<seq<Attachment>>, service: Service)
    returns (r: Outcome<GenerationResult>, calls: seq<Request>)
    ensures ValidateVariables(Prompt(prompt), variables).Raised? ==>
              r == Raised(ValidateVariables(Prompt(prompt), variables).message) && calls == []
    ensures ValidateVariables(Prompt(prompt), variables).Normal? ==>
              r.Normal? &&
              Trace(r.value, calls)
              == Produced(Prompt(prompt), variables, model, useSequentialThinking, FilesOrNone(files), service)
  {
    var g := NewGeneration(prompt, variables, model, useSequentialThinking, files);
    match g
    case Raised(m) =>
      r, calls := Raised(m), [];
    case Normal(generation) =>
      var result;
      result, calls := generation.Call(service);
      r := Normal(result);
  }

  /**
   * The single-shot path sends exactly one request, with the substituted prompt and
   * the files; it succeeds exactly when that reply succeeded, with the reply's text
   * and no thoughts, and a failed reply's error is kept without the prompt.
   */
  lemma SingleShotUsesOneCall(p: Prompt, vars: seq<Binding>, model: string, files: seq<Attachment>, service: Service)
    ensures var t := Produced(p, vars, model, false, files, service);
            t.calls == [Request(model, Substituted(p.content, vars), files)]
            && (t.result.Success() <==> Answer(service, 0).Normal? && Answer(service, 0).value.Succeeded?)
            && (t.result.Success() ==> t.result == Generated(Answer(service, 0).value.text, None))
            && (Answer(service, 0).Normal? && !Answer(service, 0).value.Succeeded? ==>
                  t.result == FailedWithoutPrompt(Answer(service, 0).value.error))
  {
  }

  /**
   * The sequential path makes the calls of the thinking loop on the substituted
   * prompt with the default budget; it succeeds exactly when the loop solved the
   * problem, passing its final text and thoughts through.
   */
  lemma SequentialUsesThinking(p: Prompt, vars: seq<Binding>, model: string, files: seq<Attachment>, service: Service)
    ensures var run := Think(model, Substituted(p.content, vars), files, DefaultMaxThoughts, service);
            var t := Produced(p, vars, model, true, files, service);
            t.calls == run.calls
            && (t.result.Success() <==> run.outcome.Normal? && run.outcome.value.Solved?)
            && (t.result.Success() ==>
                  t.result == Generated(run.outcome.value.finalText, Some(run.outcome.value.thoughts)))
  {
  }

  /**
   * Every failure except a failed single-shot reply carries the substituted prompt,
   * and a raised error's message becomes the failure's error on either path.
   */
  lemma FailuresKeepPrompt(p: Prompt, vars: seq<Binding>, model: string, sequential: bool, files: seq<Attachment>,
                           service: Service)
    ensures var t := Produced(p, vars, model, sequential, files, service);
            (t.result.FailedWithPrompt? ==> t.result.generatedPrompt == Substituted(p.content, vars))
            && (t.result.FailedWithoutPrompt? <==>
                  !sequential && Answer(service, 0).Normal? && !Answer(service, 0).value.Succeeded?)
            && (!sequential && Answer(service, 0).Raised? ==>
                  t.result == FailedWithPrompt(Answer(service, 0).message, Substituted(p.content, vars)))
            && (var run := Think(model, Substituted(p.content, vars), files, DefaultMaxThoughts, service);
                sequential && run.outcome.Raised? ==>
                  t.result == FailedWithPrompt(run.outcome.message, Substituted(p.content, vars)))
  {
  }

  /** A single-shot run: the bound name is substituted in the request and the text returned. */
  lemma SingleShotExample(model: string, files: seq<Attachment>, text: string, usage: Option<Usage>)
    ensures Produced(Prompt("Hello {{name}}!"), [Binding("name", "World")], model, false, files,
                     [Normal(Succeeded(text, usage))])
            == Trace(Generated(text, None), [Request(model, "Hello World!", files)])
  {
    ProcessContentExample();
  }

  /** A raised error on the single-shot path becomes a failure that keeps the prompt. */
  lemma RaisedErrorExample(model: string, files: seq<Attachment>, message: string)
    ensures Produced(Prompt("Hello {{name}}!"), [Binding("name", "World")], model, false, files,
                     [Raised(message)]).result
            == FailedWithPrompt(message, "Hello World!")
  {
    ProcessContentExample();
  }
}
