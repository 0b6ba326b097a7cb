/**
 * The sequential-thinking controller: it asks the LLM for one numbered thought at a
 * time, stops on a conclusion keyword or when the step budget is spent, then makes
 * one synthesis call over the whole trace. The LLM is the `Service` oracle: the call
 * numbered `n` (from 0) gets `Answer(service, n)`.
 */
module SequentialThinking {
  import opened Errors
  import opened Strings
  import opened Anthropic

  const DefaultMaxThoughts: int := 5

  /** The keywords whose presence, in any case, marks a thought as concluding. */
  const ConclusionIndicators: seq<string> :=
    ["conclusion", "final answer", "summary", "therefore", "thus", "in conclusion"]

  /** One step of the trace; the time stamp the source adds is not modelled. */
  datatype Thought = Thought(number: nat, content: string)

  datatype ThinkResult =
    | Solved(thoughts: seq<Thought>, finalText: string)
    | Unsolved(error: string)

  // ---------------------------------------------------------------------------
  // analyze_thought_completeness

  predicate HasConclusion(content: string)
  {
    exists k | 0 <= k < |ConclusionIndicators| :: Contains(Downcase(content), ConclusionIndicators[k])
  }

  /**
   * Whether another thought is wanted after thought `current` of `total`: never after
   * a concluding thought or once the budget is reached, and otherwise always.
   */
  function AnalyzeThoughtCompleteness(content: string, current: int, total: int): (more: bool)
    ensures HasConclusion(content) ==> !more
    ensures current >= total ==> !more
    ensures !HasConclusion(content) && current < total ==> more
  {
    !HasConclusion(content) && current < total
  }

  /** "in conclusion" adds nothing: whatever contains it contains "conclusion". */
  lemma InConclusionIsRedundant(content: string)
    ensures HasConclusion(content) <==>
            exists k | 0 <= k < 5 :: Contains(Downcase(content), ConclusionIndicators[k])
  {
    var low := Downcase(content);
    if Contains(low, "in conclusion") {
      var i :| 0 <= i <= |low| && OccursAt(low, "in conclusion", i);
      assert low[i + 3..i + 13] == "in conclusion"[3..13];
      assert OccursAt(low, "conclusion", i + 3);
      assert Contains(low, ConclusionIndicators[0]);
    }
  }

  /** The test ignores case: a text and its lower-cased form conclude alike. */
  lemma HasConclusionIgnoresCase(content: string)
    ensures HasConclusion(Downcase(content)) <==> HasConclusion(content)
  {
    DowncaseIdempotent(content);
  }

  /** A keyword written in any case anywhere in a thought makes it concluding. */
  lemma KeywordAnywhereConcludes(before: string, keyword: string, after: string, k: nat)
    requires k < |ConclusionIndicators| && Downcase(keyword) == ConclusionIndicators[k]
    ensures HasConclusion(before + keyword + after)
  {
    DowncaseAppend(before + keyword, after);
    DowncaseAppend(before, keyword);
    OccursInMiddle(Downcase(before), ConclusionIndicators[k], Downcase(after));
    ContainsAt(Downcase(before + keyword + after), ConclusionIndicators[k], |Downcase(before)|);
  }

  /**
   * Examples: "Therefore, the answer is X" as thought 2 of 5 wants no more thoughts,
   * and neither does a thought that is the last of its budget.
   */
  lemma AnalyzeThoughtCompletenessExamples(plain: string)
    requires !HasConclusion(plain)
    ensures !AnalyzeThoughtCompleteness("Therefore" + ", the answer is X", 2, 5)
    ensures !AnalyzeThoughtCompleteness(plain, 5, 5)
    ensures AnalyzeThoughtCompleteness(plain, 2, 5)
  {
    assert Downcase("Therefore") == ConclusionIndicators[3];
    KeywordAnywhereConcludes("", "Therefore", ", the answer is X", 3);
    assert "" + "Therefore" + ", the answer is X" == "Therefore" + ", the answer is X";
  }

  // ---------------------------------------------------------------------------
  // build_thinking_prompt and the prompt of generate_final_answer

  /** "Thought n: content", one line of the previous-thoughts section. */
  function ThoughtLine(t: Thought): string
  {
    "Thought " + IntToString(t.number) + ": " + t.content
  }

  /** "Step n: content", one line of the thinking summary. */
  function StepLine(t: Thought): string
  {
    "Step " + IntToString(t.number) + ": " + t.content
  }

  function ThoughtLines(thoughts: seq<Thought>): (lines: seq<string>)
    ensures |lines| == |thoughts| && forall i :: 0 <= i < |thoughts| ==> lines[i] == ThoughtLine(thoughts[i])
  {
    seq(|thoughts|, i requires 0 <= i < |thoughts| => ThoughtLine(thoughts[i]))
  }

  function StepLines(thoughts: seq<Thought>): (lines: seq<string>)
    ensures |lines| == |thoughts| && forall i :: 0 <= i < |thoughts| ==> lines[i] == StepLine(thoughts[i])
  {
    seq(|thoughts|, i requires 0 <= i < |thoughts| => StepLine(thoughts[i]))
  }

  const ThinkingPreamble :=
    "You are using a sequential thinking process to solve a complex problem.\n"
    + "Think through this step by step, one thought at a time.\n\n"

  const ThinkingInstructions :=
    ".\n\nInstructions:\n"
    + "1. Provide your next logical thought step\n"
    + "2. Be specific and actionable\n"
    + "3. Build upon previous thoughts\n"
    + "4. If this is your final thought, clearly state your conclusion\n"
    + "5. If you need more thoughts, indicate what still needs to be addressed\n\n"

  const PreviousHeader := "Previous thoughts:\n"

  /** The "Previous thoughts:" section, empty when there are no thoughts yet. */
  function PreviousThoughtsSection(thoughts: seq<Thought>): string
  {
    var previous := Join(ThoughtLines(thoughts), "\n");
    if previous == "" then "" else PreviousHeader + previous + "\n"
  }

  /** The prompt asking for thought `current` of `total`. */
  function BuildThinkingPrompt(problem: string, thoughts: seq<Thought>, current: int, total: int): string
  {
    Join(ThinkingPieces(ThinkingPreamble, ThinkingInstructions, problem, thoughts, current, total), "")
  }

  /** The pieces of the thinking prompt, in order, around its fixed wording. */
  function ThinkingPieces(preamble: string, instructions: string, problem: string, thoughts: seq<Thought>,
                          current: int, total: int): seq<string>
  {
    [preamble, "Problem: " + problem, "\n\n", PreviousThoughtsSection(thoughts), "\n\nYou are currently on ",
     "Thought " + IntToString(current) + " of " + IntToString(total), instructions,
     "Thought " + IntToString(current) + ":\n"]
  }

  const FinalOpening := "Based on your step-by-step thinking process"

  const FinalPreamble :=
    " below, provide ONLY the final answer to the "
    + "original problem. Do not include any thinking process, explanations, or meta-commentary.\n\n"

  const FinalInstructions :=
    "\n\nInstructions:\n"
    + "1. Provide ONLY the final answer\n"
    + "2. Do not include phrases like \"Based on my analysis\" or \"Therefore\"\n"
    + "3. Do not explain your reasoning\n"
    + "4. Give a direct, actionable response\n"
    + "5. Be concise and to the point\n\n"
    + "Final Answer:\n"

  /** The synthesis prompt of `generate_final_answer`. */
  function FinalPrompt(problem: string, thoughts: seq<Thought>): string
  {
    Join(FinalPieces(FinalPreamble, FinalInstructions, problem, thoughts), "")
  }

  /** The pieces of the synthesis prompt, in order, around its fixed wording. */
  function FinalPieces(preamble: string, instructions: string, problem: string, thoughts: seq<Thought>): seq<string>
  {
    [FinalOpening, preamble, "Original Problem: " + problem, "\n\nYour Thinking Process:\n",
     Join(StepLines(thoughts), "\n"), instructions]
  }

  /** Where the line of thought `i` starts inside a thinking prompt. */
  function ThoughtLineOffset(problem: string, thoughts: seq<Thought>, current: int, total: int, i: nat): nat
    requires i < |thoughts|
  {
    JoinOffset(ThinkingPieces(ThinkingPreamble, ThinkingInstructions, problem, thoughts, current, total), "", 3)
    + |PreviousHeader| + JoinOffset(ThoughtLines(thoughts), "\n", i)
  }

  /** Thoughts yield a non-empty previous-thoughts section holding their joined lines. */
  lemma PreviousThoughtsSectionShape(thoughts: seq<Thought>)
    requires thoughts != []
    ensures PreviousThoughtsSection(thoughts) == PreviousHeader + Join(ThoughtLines(thoughts), "\n") + "\n"
  {
    var lines := ThoughtLines(thoughts);
    JoinPlacesParts(lines, "\n", 0);
    assert |lines[0]| > 0;
  }

  /** A thinking prompt states the problem as "Problem: problem". */
  lemma ThinkingPromptStatesProblem(problem: string, thoughts: seq<Thought>, current: int, total: int)
    ensures Contains(BuildThinkingPrompt(problem, thoughts, current, total), "Problem: " + problem)
  {
    var pieces := ThinkingPieces(ThinkingPreamble, ThinkingInstructions, problem, thoughts, current, total);
    JoinPlacesParts(pieces, "", 1);
    ContainsAt(Join(pieces, ""), pieces[1], JoinOffset(pieces, "", 1));
  }

  /** A thinking prompt names its step as "Thought current of total". */
  lemma ThinkingPromptNamesStep(problem: string, thoughts: seq<Thought>, current: int, total: int)
    ensures Contains(BuildThinkingPrompt(problem, thoughts, current, total),
                     "Thought " + IntToString(current) + " of " + IntToString(total))
  {
    var pieces := ThinkingPieces(ThinkingPreamble, ThinkingInstructions, problem, thoughts, current, total);
    JoinPlacesParts(pieces, "", 5);
    ContainsAt(Join(pieces, ""), pieces[5], JoinOffset(pieces, "", 5));
  }

  /** The line of thought `i` sits at its offset inside the previous-thoughts section. */
  lemma ThoughtLineInSection(thoughts: seq<Thought>, i: nat)
    requires i < |thoughts|
    ensures OccursAt(PreviousThoughtsSection(thoughts), ThoughtLine(thoughts[i]),
                     |PreviousHeader| + JoinOffset(ThoughtLines(thoughts), "\n", i))
  {
    var lines := ThoughtLines(thoughts);
    var line := ThoughtLine(thoughts[i]);
    PreviousThoughtsSectionShape(thoughts);
    JoinPlacesParts(lines, "\n", i);
    assert OccursAt(Join(lines, "\n"), line, JoinOffset(lines, "\n", i));
    OccursShifted(PreviousHeader, Join(lines, "\n"), "\n", line, JoinOffset(lines, "\n", i));
  }

  /** Joined pieces whose fourth is the previous-thoughts section hold each thought's line. */
  lemma ThoughtLineInPieces(pieces: seq<string>, thoughts: seq<Thought>, i: nat)
    requires 3 < |pieces| && pieces[3] == PreviousThoughtsSection(thoughts) && i < |thoughts|
    ensures OccursAt(Join(pieces, ""), ThoughtLine(thoughts[i]),
                     JoinOffset(pieces, "", 3) + |PreviousHeader| + JoinOffset(ThoughtLines(thoughts), "\n", i))
  {
    ThoughtLineInSection(thoughts, i);
    OccursInPart(pieces, "", 3, ThoughtLine(thoughts[i]), |PreviousHeader| + JoinOffset(ThoughtLines(thoughts), "\n", i));
  }

  /** The line of thought `i` sits at its offset inside a thinking prompt. */
  lemma ThoughtLineInPrompt(problem: string, thoughts: seq<Thought>, current: int, total: int, i: nat)
    requires i < |thoughts|
    ensures OccursAt(BuildThinkingPrompt(problem, thoughts, current, total), ThoughtLine(thoughts[i]),
                     ThoughtLineOffset(problem, thoughts, current, total, i))
  {
    ThoughtLineInPieces(ThinkingPieces(ThinkingPreamble, ThinkingInstructions, problem, thoughts, current, total), thoughts, i);
  }

  /**
   * A thinking prompt holds one "Thought n: content" line per earlier thought, in
   * trace order.
   */
  lemma ThinkingPromptListsThoughts(problem: string, thoughts: seq<Thought>, current: int, total: int)
    ensures forall i :: 0 <= i < |thoughts| ==>
              OccursAt(BuildThinkingPrompt(problem, thoughts, current, total), ThoughtLine(thoughts[i]),
                       ThoughtLineOffset(problem, thoughts, current, total, i))
    ensures forall i, j :: 0 <= i < j < |thoughts| ==>
              ThoughtLineOffset(problem, thoughts, current, total, i)
              < ThoughtLineOffset(problem, thoughts, current, total, j)
  {
    forall i | 0 <= i < |thoughts|
      ensures OccursAt(BuildThinkingPrompt(problem, thoughts, current, total), ThoughtLine(thoughts[i]),
                       ThoughtLineOffset(problem, thoughts, current, total, i))
    {
      ThoughtLineInPrompt(problem, thoughts, current, total, i);
    }
    forall i, j | 0 <= i < j < |thoughts|
      ensures ThoughtLineOffset(problem, thoughts, current, total, i)
              < ThoughtLineOffset(problem, thoughts, current, total, j)
    {
      JoinOffsetGrows(ThoughtLines(thoughts), "\n", i, j);
    }
  }

  /** A synthesis prompt of any wording opens, states the problem and lists the steps. */
  lemma FinalPiecesMention(preamble: string, instructions: string, problem: string, thoughts: seq<Thought>)
    ensures var prompt := Join(FinalPieces(preamble, instructions, problem, thoughts), "");
            OccursAt(prompt, FinalOpening, 0)
            && Contains(prompt, "Original Problem: " + problem)
            && forall i :: 0 <= i < |thoughts| ==> Contains(prompt, StepLine(thoughts[i]))
  {
    var pieces := FinalPieces(preamble, instructions, problem, thoughts);
    var prompt := Join(pieces, "");
    JoinPlacesParts(pieces, "", 0);
    JoinPlacesParts(pieces, "", 2);
    ContainsAt(prompt, pieces[2], JoinOffset(pieces, "", 2));
    forall i | 0 <= i < |thoughts|
      ensures Contains(prompt, StepLine(thoughts[i]))
    {
      StepLineInPieces(preamble, instructions, problem, thoughts, i);
    }
  }

  /** The line of step `i` lies inside a synthesis prompt of any wording. */
  lemma StepLineInPieces(preamble: string, instructions: string, problem: string, thoughts: seq<Thought>, i: nat)
    requires i < |thoughts|
    ensures Contains(Join(FinalPieces(preamble, instructions, problem, thoughts), ""), StepLine(thoughts[i]))
  {
    var pieces := FinalPieces(preamble, instructions, problem, thoughts);
    var prompt := Join(pieces, "");
    var lines := StepLines(thoughts);
    var line := StepLine(thoughts[i]);
    JoinPlacesParts(lines, "\n", i);
    assert pieces[4] == Join(lines, "\n") && lines[i] == line;
    OccursInPart(pieces, "", 4, line, JoinOffset(lines, "\n", i));
    ContainsAt(prompt, line, JoinOffset(pieces, "", 4) + JoinOffset(lines, "\n", i));
  }

  /**
   * The synthesis prompt opens with "Based on your step-by-step thinking process",
   * states the original problem and holds one "Step n: content" line per thought.
   */
  lemma FinalPromptMentions(problem: string, thoughts: seq<Thought>)
    ensures OccursAt(FinalPrompt(problem, thoughts), "Based on your step-by-step thinking process", 0)
    ensures Contains(FinalPrompt(problem, thoughts), "Original Problem: " + problem)
    ensures forall i :: 0 <= i < |thoughts| ==> Contains(FinalPrompt(problem, thoughts), StepLine(thoughts[i]))
  {
    FinalPiecesMention(FinalPreamble, FinalInstructions, problem, thoughts);
  }

  // ---------------------------------------------------------------------------
  // think_through_problem

  /** The number of step calls the budget allows: `max_thoughts`, but always at least one. */
  function Budget(total: int): (b: nat)
    ensures b >= 1 && b >= total
    ensures total >= 1 ==> b == total
    ensures total < 1 ==> b == 1
  {
    if total < 1 then 1 else total
  }

  /** Step call `i` returned a success hash. */
  predicate StepSucceeds(service: Service, i: nat)
  {
    Answer(service, i).Normal? && Answer(service, i).value.Succeeded?
  }

  function StepText(service: Service, i: nat): string
    requires StepSucceeds(service, i)
  {
    Answer(service, i).value.text
  }

  /** After step call `i` (thought number `i + 1`), the loop goes on to another step. */
  predicate Continues(service: Service, total: int, i: nat)
  {
    StepSucceeds(service, i) && AnalyzeThoughtCompleteness(StepText(service, i), i + 1, total)
    && i + 1 < total
  }

  /** The first step, from `i` on, after which the loop does not go on. */
  function StopFrom(service: Service, total: int, i: nat): (n: nat)
    requires i < Budget(total)
    ensures i <= n < Budget(total)
    ensures forall j :: i <= j < n ==> Continues(service, total, j) && StepSucceeds(service, j)
    ensures !Continues(service, total, n)
    decreases total - i
  {
    if Continues(service, total, i) then StopFrom(service, total, i + 1) else i
  }

  /** The index of the last step call. */
  function StopIndex(service: Service, total: int): nat
  {
    StopFrom(service, total, 0)
  }

  /** The first `k` thoughts: thought `i + 1` holds the text step call `i` returned. */
  function Thoughts(service: Service, k: nat): (ts: seq<Thought>)
    requires forall j :: 0 <= j < k ==> StepSucceeds(service, j)
    ensures |ts| == k
  {
    seq(k, i requires 0 <= i < k => Thought(i + 1, StepText(service, i)))
  }

  /** The first `k` step calls: step `i` sends the thinking prompt over the `i` thoughts before it. */
  function StepCalls(model: string, problem: string, files: seq<Attachment>, total: int, service: Service, k: nat)
    : (calls: seq<Request>)
    requires forall j :: 0 <= j < k - 1 ==> StepSucceeds(service, j)
    ensures |calls| == k
  {
    seq(k, i requires 0 <= i < k =>
      Request(model, BuildThinkingPrompt(problem, Thoughts(service, i), i + 1, total), files))
  }

  /** One more successful step adds its thought at the end. */
  lemma ThoughtsGrow(service: Service, k: nat)
    requires forall j :: 0 <= j <= k ==> StepSucceeds(service, j)
    ensures Thoughts(service, k + 1) == Thoughts(service, k) + [Thought(k + 1, StepText(service, k))]
  {
  }

  /** One more step adds its call, over the thoughts before it, at the end. */
  lemma StepCallsGrow(model: string, problem: string, files: seq<Attachment>, total: int, service: Service, k: nat)
    requires forall j :: 0 <= j < k ==> StepSucceeds(service, j)
    ensures StepCalls(model, problem, files, total, service, k + 1)
            == StepCalls(model, problem, files, total, service, k)
               + [Request(model, BuildThinkingPrompt(problem, Thoughts(service, k), k + 1, total), files)]
  {
  }

  /** What a run returns and the calls it makes, in order. */
  datatype Run = Run(outcome: Outcome<ThinkResult>, calls: seq<Request>)

  /**
   * The run of `think_through_problem`: step calls up to the stopping step, whose
   * failure ends the run; otherwise one synthesis call over the whole trace. An error
   * raised by any call propagates.
   */
  function Think(model: string, problem: string, files: seq<Attachment>, total: int, service: Service): (run: Run)
    ensures 1 <= |run.calls| <= Budget(total) + 1
    ensures forall i :: 0 <= i < |run.calls| ==> run.calls[i].model == model && run.calls[i].files == files
  {
    var n := StopIndex(service, total);
    var steps := StepCalls(model, problem, files, total, service, n + 1);
    match Answer(service, n)
    case Raised(m) => Run(Raised(m), steps)
    case Normal(reply) =>
      if !reply.Succeeded? then Run(Normal(Unsolved(reply.error)), steps)
      else Synthesize(model, problem, files, Thoughts(service, n + 1), steps, Answer(service, n + 1))
  }

  /** `generate_final_answer` after the step calls `steps`, given the answer to the synthesis call. */
  function Synthesize(model: string, problem: string, files: seq<Attachment>, thoughts: seq<Thought>, steps: seq<Request>,
                      answer: Outcome<Reply>): (run: Run)
    ensures run.calls == steps + [Request(model, FinalPrompt(problem, thoughts), files)]
    ensures run.outcome.Normal? && run.outcome.value.Solved? <==> answer.Normal? && answer.value.Succeeded?
    ensures answer.Normal? && answer.value.Succeeded? ==> run.outcome.value == Solved(thoughts, answer.value.text)
    ensures answer.Normal? && !answer.value.Succeeded? ==> run.outcome == Normal(Unsolved(answer.value.error))
    ensures answer.Raised? ==> run.outcome == Raised(answer.message)
  {
    var calls := steps + [Request(model, FinalPrompt(problem, thoughts), files)];
    match answer
    case Raised(m) => Run(Raised(m), calls)
    case Normal(final) =>
      if final.Succeeded? then Run(Normal(Solved(thoughts, final.text)), calls)
      else Run(Normal(Unsolved(final.error)), calls)
  }

  /** A run whose step `k` is the first one not to go on ends as that step's answer says. */
  lemma ThinkAtStop(model: string, problem: string, files: seq<Attachment>, total: int, service: Service, k: nat)
    requires k < Budget(total)
    requires forall j :: 0 <= j < k ==> Continues(service, total, j) && StepSucceeds(service, j)
    requires !Continues(service, total, k)
    ensures var steps := StepCalls(model, problem, files, total, service, k + 1);
            Think(model, problem, files, total, service)
            == match Answer(service, k)
               case Raised(m) => Run(Raised(m), steps)
               case Normal(reply) =>
                 if !reply.Succeeded? then Run(Normal(Unsolved(reply.error)), steps)
                 else Synthesize(model, problem, files, Thoughts(service, k + 1), steps, Answer(service, k + 1))
  {
    StopIndexIsFirstStop(service, total, k);
  }

  /**
   * The loop's state after `|thoughts|` steps that all went on: the thoughts and the
   * calls so far are those of the closed form.
   */
  ghost predicate Traced(model: string, problem: string, files: seq<Attachment>, total: int, service: Service,
                         thoughts: seq<Thought>, calls: seq<Request>)
  {
    |thoughts| <= StopIndex(service, total)
    && (forall j :: 0 <= j < |thoughts| ==> Continues(service, total, j) && StepSucceeds(service, j))
    && thoughts == Thoughts(service, |thoughts|)
    && calls == StepCalls(model, problem, files, total, service, |thoughts|)
  }

  /** The next step call, after the steps traced so far. */
  function NextCall(model: string, problem: string, files: seq<Attachment>, total: int, thoughts: seq<Thought>): Request
  {
    Request(model, BuildThinkingPrompt(problem, thoughts, |thoughts| + 1, total), files)
  }

  /** A traced loop whose next call raises ends the run with that error. */
  lemma TracedRaised(model: string, problem: string, files: seq<Attachment>, total: int, service: Service,
                     thoughts: seq<Thought>, calls: seq<Request>)
    requires Traced(model, problem, files, total, service, thoughts, calls)
    requires Answer(service, |thoughts|).Raised?
    ensures Think(model, problem, files, total, service)
            == Run(Raised(Answer(service, |thoughts|).message), calls + [NextCall(model, problem, files, total, thoughts)])
  {
    var k := |thoughts|;
    ThinkAtStop(model, problem, files, total, service, k);
    StepCallsGrow(model, problem, files, total, service, k);
  }

  /** A traced loop whose next call answers with a failure hash ends the run unsolved with its error. */
  lemma TracedFailed(model: string, problem: string, files: seq<Attachment>, total: int, service: Service,
                     thoughts: seq<Thought>, calls: seq<Request>)
    requires Traced(model, problem, files, total, service, thoughts, calls)
    requires Answer(service, |thoughts|).Normal? && !Answer(service, |thoughts|).value.Succeeded?
    ensures Think(model, problem, files, total, service)
            == Run(Normal(Unsolved(Answer(service, |thoughts|).value.error)),
                   calls + [NextCall(model, problem, files, total, thoughts)])
  {
    var k := |thoughts|;
    ThinkAtStop(model, problem, files, total, service, k);
    StepCallsGrow(model, problem, files, total, service, k);
  }

  /**
   * A successful step adds its thought and its call: the loop is traced one step
   * further when it goes on, and otherwise the run is the synthesis over the trace.
   */
  lemma TracedStep(model: string, problem: string, files: seq<Attachment>, total: int, service: Service,
                   thoughts: seq<Thought>, calls: seq<Request>, text: string)
    requires Traced(model, problem, files, total, service, thoughts, calls)
    requires StepSucceeds(service, |thoughts|) && StepText(service, |thoughts|) == text
    ensures var k := |thoughts|;
            var thoughts' := thoughts + [Thought(k + 1, text)];
            var calls' := calls + [NextCall(model, problem, files, total, thoughts)];
            var more := AnalyzeThoughtCompleteness(text, k + 1, total) && k + 1 < total;
            (more ==> Traced(model, problem, files, total, service, thoughts', calls'))
            && (!more ==>
                  Think(model, problem, files, total, service)
                  == Synthesize(model, problem, files, thoughts', calls', Answer(service, |calls'|)))
  {
    var k := |thoughts|;
    StepCallsGrow(model, problem, files, total, service, k);
    ThoughtsGrow(service, k);
    if !Continues(service, total, k) {
      ThinkAtStop(model, problem, files, total, service, k);
    }
  }

  /**
   * `think_through_problem(problem, files, max_thoughts)`: a loop that builds the
   * prompt for the next thought, calls the LLM, appends the thought and stops on a
   * conclusion or at the budget; then one synthesis call. `calls` lists every call
   * made, in order.
   */
  method ThinkThroughProblem(model: string, problem: string, files: seq<Attachment>, maxThoughts: int, service: Service)
    returns (r: Outcome<ThinkResult>, calls: seq<Request>)
    ensures Run(r, calls) == Think(model, problem, files, maxThoughts, service)
  {
    var thoughts: seq<Thought> := [];
    var current := 1;
    var total := maxThoughts;
    calls := [];
    ghost var n := StopIndex(service, total);
    while true
      invariant current == |thoughts| + 1 && |calls| == |thoughts|
      invariant Traced(model, problem, files, total, service, thoughts, calls)
      decreases n - |thoughts|
    {
      var prompt := BuildThinkingPrompt(problem, thoughts, current, total);
      var result := Answer(service, |calls|);
      if result.Raised? {
        TracedRaised(model, problem, files, total, service, thoughts, calls);
        return Raised(result.message), calls + [Request(model, prompt, files)];
      }
      if !result.value.Succeeded? {
        TracedFailed(model, problem, files, total, service, thoughts, calls);
        return Normal(Unsolved(result.value.error)), calls + [Request(model, prompt, files)];
      }
      var thoughtContent := result.value.text;
      TracedStep(model, problem, files, total, service, thoughts, calls, thoughtContent);
      calls := calls + [Request(model, prompt, files)];
      thoughts := thoughts + [Thought(current, thoughtContent)];
      var needsMore := AnalyzeThoughtCompleteness(thoughtContent, current, total);
      if !needsMore || current >= total {
        break;
      }
      current := current + 1;
    }
    var request;
    r, request := GenerateFinalAnswer(model, problem, thoughts, files, Answer(service, |calls|));
    calls := calls + [request];
  }

  /**
   * `generate_final_answer`: the synthesis request over the thoughts, and the result
   * its answer gives.
   */
  method GenerateFinalAnswer(model: string, problem: string, thoughts: seq<Thought>, files: seq<Attachment>,
                             answer: Outcome<Reply>)
    returns (r: Outcome<ThinkResult>, request: Request)
    ensures request == Request(model, FinalPrompt(problem, thoughts), files)
    ensures answer.Raised? ==> r == Raised(answer.message)
    ensures answer.Normal? && answer.value.Succeeded? ==> r == Normal(Solved(thoughts, answer.value.text))
    ensures answer.Normal? && !answer.value.Succeeded? ==> r == Normal(Unsolved(answer.value.error))
  {
    var finalPrompt := FinalPrompt(problem, thoughts);
    request := Request(model, finalPrompt, files);
    match answer
    case Raised(m) =>
      r := Raised(m);
    case Normal(reply) =>
      if reply.Succeeded? {
        r := Normal(Solved(thoughts, reply.text));
      } else {
        r := Normal(Unsolved(reply.error));
      }
  }

  /** The stopping step is the first step after which the loop does not go on. */
  lemma StopIndexIsFirstStop(service: Service, total: int, k: nat)
    requires k < Budget(total)
    requires forall j :: 0 <= j < k ==> Continues(service, total, j)
    requires !Continues(service, total, k)
    ensures StopIndex(service, total) == k
  {
    var n := StopIndex(service, total);
    assert !Continues(service, total, n);
    assert n <= k;
    assert k <= n;
  }

  /**
   * The run is decided by its last call: every call before it succeeded, and the
   * last call's raised error, error hash or final text is the result. Only a run
   * whose calls all succeeded is solved.
   */
  lemma ThinkEndsAtLastCall(model: string, problem: string, files: seq<Attachment>, total: int, service: Service)
    ensures var run := Think(model, problem, files, total, service);
            var last := |run.calls| - 1;
            1 <= |run.calls| <= Budget(total) + 1
            && (forall i :: 0 <= i < last ==> StepSucceeds(service, i))
            && (Answer(service, last).Raised? ==> run.outcome == Raised(Answer(service, last).message))
            && (Answer(service, last).Normal? && !Answer(service, last).value.Succeeded? ==>
                  run.outcome == Normal(Unsolved(Answer(service, last).value.error)))
            && (StepSucceeds(service, last) <==> run.outcome.Normal? && run.outcome.value.Solved?)
            && (StepSucceeds(service, last) ==> run.outcome.value.finalText == StepText(service, last))
  {
    var n := StopIndex(service, total);
    var run := Think(model, problem, files, total, service);
    if StepSucceeds(service, n) {
      assert |run.calls| == n + 2;
    } else {
      assert |run.calls| == n + 1;
    }
  }

  /**
   * A solved run holds between 1 and `Budget(total)` thoughts, numbered 1, 2, ... in
   * order, each the text of its step call; it made one step call per thought and
   * one synthesis call over the whole trace, all with the right prompts.
   */
  lemma ThinkSolvedTrace(model: string, problem: string, files: seq<Attachment>, total: int, service: Service)
    requires Think(model, problem, files, total, service).outcome.Normal?
    requires Think(model, problem, files, total, service).outcome.value.Solved?
    ensures var run := Think(model, problem, files, total, service);
            var ts := run.outcome.value.thoughts;
            1 <= |ts| <= Budget(total) && |run.calls| == |ts| + 1
            && (forall i :: 0 <= i < |ts| ==>
                  StepSucceeds(service, i) && ts[i] == Thought(i + 1, StepText(service, i))
                  && run.calls[i].prompt == BuildThinkingPrompt(problem, ts[..i], i + 1, total))
            && run.calls[|ts|].prompt == FinalPrompt(problem, ts)
  {
    var n := StopIndex(service, total);
    var ts := Thoughts(service, n + 1);
    forall i | 0 <= i < n + 1
      ensures Thoughts(service, i) == ts[..i]
    {
    }
    var steps := StepCalls(model, problem, files, total, service, n + 1);
    assert Think(model, problem, files, total, service)
           == Synthesize(model, problem, files, ts, steps, Answer(service, n + 1));
  }

  /**
   * When every step within the budget succeeds without a conclusion, the loop makes
   * exactly `Budget(total)` step calls, and a successful synthesis then gives exactly
   * that many thoughts after `Budget(total) + 1` calls.
   */
  lemma ThinkAllPlainUsesBudget(model: string, problem: string, files: seq<Attachment>, total: int, service: Service)
    requires forall i :: 0 <= i < Budget(total) ==> StepSucceeds(service, i) && !HasConclusion(StepText(service, i))
    ensures StopIndex(service, total) == Budget(total) - 1
    ensures StepSucceeds(service, Budget(total)) ==>
              Think(model, problem, files, total, service)
              == Run(Normal(Solved(Thoughts(service, Budget(total)), StepText(service, Budget(total)))),
                     StepCalls(model, problem, files, total, service, Budget(total))
                     + [Request(model, FinalPrompt(problem, Thoughts(service, Budget(total))), files)])
  {
    var b := Budget(total);
    forall j | 0 <= j < b - 1
      ensures Continues(service, total, j)
    {
      assert StepSucceeds(service, j);
    }
    StopIndexIsFirstStop(service, total, b - 1);
  }

  /**
   * A conclusion at step `k`, after plain steps, stops the loop right there: `k + 1`
   * thoughts, then the synthesis call.
   */
  lemma ThinkStopsAtFirstConclusion(model: string, problem: string, files: seq<Attachment>, total: int,
                                    service: Service, k: nat)
    requires k < Budget(total)
    requires forall j :: 0 <= j < k ==> StepSucceeds(service, j) && !HasConclusion(StepText(service, j))
    requires StepSucceeds(service, k) && HasConclusion(StepText(service, k))
    ensures StopIndex(service, total) == k
    ensures |Think(model, problem, files, total, service).calls| == k + 2
    ensures Think(model, problem, files, total, service).outcome.Normal? ==>
              Think(model, problem, files, total, service).outcome.value.Solved? ==>
                Think(model, problem, files, total, service).outcome.value.thoughts == Thoughts(service, k + 1)
  {
    forall j | 0 <= j < k
      ensures Continues(service, total, j)
    {
      assert StepSucceeds(service, j);
    }
    StopIndexIsFirstStop(service, total, k);
  }

  /**
   * A failed step call, after plain steps, ends the run with its error: no thoughts,
   * and no synthesis call.
   */
  lemma ThinkStepFailureEndsRun(model: string, problem: string, files: seq<Attachment>, total: int,
                                service: Service, k: nat)
    requires k < Budget(total)
    requires forall j :: 0 <= j < k ==> StepSucceeds(service, j) && !HasConclusion(StepText(service, j))
    requires Answer(service, k).Normal? && !Answer(service, k).value.Succeeded?
    ensures Think(model, problem, files, total, service)
            == Run(Normal(Unsolved(Answer(service, k).value.error)),
                   StepCalls(model, problem, files, total, service, k + 1))
  {
    forall j | 0 <= j < k
      ensures Continues(service, total, j)
    {
      assert StepSucceeds(service, j);
    }
    StopIndexIsFirstStop(service, total, k);
  }

  /**
   * A service that always answers the same plain success: `total` thoughts, each
   * that text, numbered 1 to `total`, then the same text as final answer, after
   * `total + 1` calls (3 thoughts and 4 calls for a budget of 3; 5 thoughts by default).
   */
  lemma RepeatedPlainReply(model: string, problem: string, files: seq<Attachment>, total: int, text: string,
                           usage: Option<Usage>)
    requires total >= 1 && !HasConclusion(text)
    ensures var run := Think(model, problem, files, total, [Normal(Succeeded(text, usage))]);
            run.outcome.Normal? && run.outcome.value.Solved? && run.outcome.value.finalText == text
            && |run.outcome.value.thoughts| == total && |run.calls| == total + 1
            && forall i :: 0 <= i < total ==> run.outcome.value.thoughts[i] == Thought(i + 1, text)
  {
    var service: Service := [Normal(Succeeded(text, usage))];
    forall i | 0 <= i < Budget(total) + 1
      ensures StepSucceeds(service, i) && StepText(service, i) == text
    {
    }
    ThinkAllPlainUsesBudget(model, problem, files, total, service);
  }

  /** With the default budget a plain repeated answer gives 5 thoughts after 6 calls. */
  lemma DefaultBudgetExample(model: string, problem: string, files: seq<Attachment>, text: string, usage: Option<Usage>)
    requires !HasConclusion(text)
    ensures var run := Think(model, problem, files, DefaultMaxThoughts, [Normal(Succeeded(text, usage))]);
            run.outcome.Normal? && run.outcome.value.Solved?
            && |run.outcome.value.thoughts| == 5 && |run.calls| == 6
  {
    RepeatedPlainReply(model, problem, files, DefaultMaxThoughts, text, usage);
  }

  /** A plain thought, then a concluding one, then the final answer: two thoughts. */
  lemma EarlyConclusionExample(model: string, problem: string, files: seq<Attachment>, plain: string, concluding: string,
                               final: string, usage: Option<Usage>)
    requires !HasConclusion(plain) && HasConclusion(concluding)
    ensures var run := Think(model, problem, files, 3, [Normal(Succeeded(plain, usage)), Normal(Succeeded(concluding, usage)),
                                                 Normal(Succeeded(final, usage))]);
            run.outcome == Normal(Solved([Thought(1, plain), Thought(2, concluding)], final))
            && |run.calls| == 3
  {
    var service: Service := [Normal(Succeeded(plain, usage)), Normal(Succeeded(concluding, usage)),
                             Normal(Succeeded(final, usage))];
    assert StepSucceeds(service, 0) && StepText(service, 0) == plain;
    assert StepSucceeds(service, 1) && StepText(service, 1) == concluding;
    ThinkStopsAtFirstConclusion(model, problem, files, 3, service, 1);
    assert Thoughts(service, 2) == [Thought(1, plain), Thought(2, concluding)];
  }

  /** A failing first step gives its error after that one call. */
  lemma FirstStepFailureExample(model: string, problem: string, files: seq<Attachment>, total: int, error: string)
    ensures var run := Think(model, problem, files, total, [Normal(Failed(error))]);
            run.outcome == Normal(Unsolved(error)) && |run.calls| == 1
  {
    ThinkStepFailureEndsRun(model, problem, files, total, [Normal(Failed(error))], 0);
  }

  /** Three plain steps, then a failed synthesis: its error, after four calls. */
  lemma SynthesisFailureExample(model: string, problem: string, files: seq<Attachment>, text: string, usage: Option<Usage>,
                                error: string)
    requires !HasConclusion(text)
    ensures var step := Normal(Succeeded(text, usage));
            var run := Think(model, problem, files, 3, [step, step, step, Normal(Failed(error))]);
            run.outcome == Normal(Unsolved(error)) && |run.calls| == 4
  {
    var step := Normal(Succeeded(text, usage));
    var service: Service := [step, step, step, Normal(Failed(error))];
    forall i | 0 <= i < 3
      ensures StepSucceeds(service, i) && StepText(service, i) == text
    {
    }
    ThinkAllPlainUsesBudget(model, problem, files, 3, service);
  }
}
