# intelligent — a Dafny model

`intelligent` is a Ruby gem that fills `{{name}}` placeholders in a prompt template with
caller-supplied values. It then sends the text to Anthropic's Messages API, with optional file
attachments. It can either make one call, or run a "sequential thinking" loop that asks the
model for up to five numbered thoughts and then for a final answer.

This project models the gem's core in Dafny and proves properties of the model:

- the prompt template: placeholder extraction, validation of the bindings, substitution;
- the Anthropic adapter: content types of attachments, the request it builds, how a reply or
  an error becomes a result;
- the sequential-thinking controller: its prompts, its stopping rule, its traces;
- the `Generation` object and `Intelligent.generate`, which tie these together.

Modules, one per file:

- `Errors` (`errors.dfy`): `Option` and `Outcome`. `Outcome` is either a normal value or a
  raised Ruby exception with its message.
- `Strings` (`strings.dfy`): substring occurrence, ASCII `downcase`, `join`, integer-to-text.
- `Prompts` (`prompts.dfy`): `Intelligent::Prompt`.
- `Anthropic` (`anthropic.dfy`): `Intelligent::Llm::Anthropic`.
  - `Service` is a stubbed client: the non-empty list of answers that `generate` gives, one per
    call, with the last answer repeating once the list runs out.
  - `Answer` returns the answer to a given call.
  - `Request` records one call: the model the service was built for, the prompt and the files.
- `SequentialThinking` (`sequential_thinking.dfy`): `Intelligent::SequentialThinking`.
  - The loop `ThinkThroughProblem` is a method, proved equal to the closed form `Think`.
  - `Think` is built on `StopIndex`, the first step at which the loop leaves.
- `Intelligent` (`generation.dfy`): the `Generation` class and `Intelligent.generate`.

The stateful parts are imperative:

- `ProcessContent` loops over the bindings, one `gsub!` at a time.
- `Anthropic.Generate` loops over the files, appending content blocks.
- `ThinkThroughProblem` runs the thought loop.
- `Generation.Call` updates the `generatedPrompt` field.

Each of these is proved against a specification function (`Substituted`, `PrepareAll` with
`RequestFor`, `Think`, `Produced`), and the lemmas state the gem's promises about those
functions.

Two behaviours of the code are worth knowing:

- `process_content` applies the bindings in order, one `gsub!` each, to the text the previous
  one produced. A value inserted by an earlier binding is therefore re-scanned by later ones: a
  value containing `{{other}}` is rewritten by a later binding for `other`
  (`LaterBindingRewritesInsertedValue`). Substitution can also leave or create the placeholder
  of a bound name (`BoundPlaceholderCanRemain`).
- On the single-shot path, a failed reply returns `generation: @generation`. That is nil,
  because `@generation` is never assigned, so the failure carries no prompt
  (`FailedWithoutPrompt`).

## Model

| member | source | states |
|---|---|---|
| Strings.Downcase | lib/intelligent/llm/anthropic.rb:107 | `downcase` keeps the length |
| Strings.DowncaseIdempotent | lib/intelligent/sequential_thinking.rb:82 | lower-casing twice is lower-casing once |
| Strings.IntToString | lib/intelligent/sequential_thinking.rb:65 | the decimal text of a number is never empty |
| Prompts.Keys | lib/intelligent/prompt.rb:23 | the keys of the bindings, one per binding, in order |
| Prompts.WordRun | lib/intelligent/prompt.rb:11 | the longest run of `\w` characters at the start of the text: all word characters, and the next character is not one |
| Prompts.MatchLength | lib/intelligent/prompt.rb:11 | a match of `\{\{(\w+)\}\}` at the start is either absent or exactly `{{name}}` with `name` a non-empty word |
| Prompts.PlaceholdersDoNotOverlap | lib/intelligent/prompt.rb:11 | two placeholder occurrences that overlap are the same occurrence of the same name |
| Prompts.Scan | lib/intelligent/prompt.rb:11 | every name `scan` returns is a non-empty run of word characters, the capture group of `\{\{(\w+)\}\}` |
| Prompts.ScanTwoPlaceholders | lib/intelligent/prompt.rb:11 | two placeholders separated by brace-free text are found in the order they appear |
| Prompts.ScanInTextOrder | lib/intelligent/prompt.rb:11 | a name `scan` finds earlier has its first placeholder earlier in the text |
| Prompts.ScanSound | lib/intelligent/prompt.rb:11 | every name `scan` returns is a word name whose `{{name}}` occurs in the text |
| Prompts.ScanComplete | lib/intelligent/prompt.rb:11 | every occurrence of `{{name}}` with a word name is found by `scan` |
| Prompts.ScanFindsExactlyPlaceholders | lib/intelligent/prompt.rb:11 | `scan` finds a name if and only if its placeholder occurs in the text |
| Prompts.Uniq | lib/intelligent/prompt.rb:11 | `uniq` keeps exactly the same elements, each once |
| Prompts.UniqOfDistinct | lib/intelligent/prompt.rb:11 | `uniq` of distinct names changes nothing |
| Prompts.UniqKeepsFirstOccurrenceOrder | lib/intelligent/prompt.rb:11 | `uniq` keeps the order of first occurrences |
| Prompts.ExtractVariables | lib/intelligent/prompt.rb:10-12 | the variables are distinct, and a name is one exactly when its placeholder occurs in the content |
| Prompts.ExtractVariablesInFirstOccurrenceOrder | lib/intelligent/prompt.rb:10-12 | of any two variables, one is listed before the other exactly when its first `{{name}}` comes earlier in the content |
| Prompts.NoOpeningBracesNoVariables | lib/intelligent/prompt.rb:10-12 | content without `{{` has no variables |
| Prompts.ExtractVariablesExample | lib/intelligent/prompt.rb:10-12 | `Hello {{name}}, how are you {{mood}}?` gives `["name", "mood"]` |
| Prompts.Missing | lib/intelligent/prompt.rb:23 | array difference: the names that are not keys |
| Prompts.MissingKeepsOrder | lib/intelligent/prompt.rb:23 | the missing names keep the order of the extracted names |
| Prompts.ValidateVariables | lib/intelligent/prompt.rb:22-27 | raises exactly when some variable has no binding, with `Missing required variables: ` and the missing names joined by `, ` |
| Prompts.ProcessContent | lib/intelligent/prompt.rb:14-20 | the loop's result is the fold of `gsub` over the bindings in order; no bindings leaves the content unchanged |
| Prompts.Substituted | lib/intelligent/prompt.rb:14-20 | no bindings, or bindings that each map a key to its own placeholder, leave the content unchanged |
| Prompts.SubstitutedTwice | lib/intelligent/prompt.rb:16-18 | with two bindings, the second `gsub!` runs on the text the first one produced |
| Prompts.ReplaceAllAbsent | lib/intelligent/prompt.rb:17 | `gsub` of a pattern that does not occur changes nothing |
| Prompts.ReplaceAllBySelf | lib/intelligent/prompt.rb:17 | replacing a pattern by itself changes nothing |
| Prompts.ReplaceAllJoinsPieces | lib/intelligent/prompt.rb:17 | `gsub` equals splitting at the pattern and joining with the value |
| Prompts.PiecesSplitText | lib/intelligent/prompt.rb:17 | the pieces rejoined with the pattern give back the text, and no piece holds the pattern |
| Prompts.ReplaceAllSplit | lib/intelligent/prompt.rb:17 | `gsub` distributes over a concatenation when no occurrence straddles the seam |
| Prompts.OtherPlaceholderDoesNotOverlap | lib/intelligent/prompt.rb:17 | an occurrence of `{{n}}` is not overlapped by any occurrence of a different `{{k}}` |
| Prompts.ReplaceAllKeepsOtherPlaceholder | lib/intelligent/prompt.rb:17 | replacing `{{k}}` keeps every other placeholder `{{n}}` present |
| Prompts.UnboundPlaceholdersSurvive | lib/intelligent/prompt.rb:14-20 | a placeholder whose name has no binding is still in the substituted text |
| Prompts.SubstituteOnce | lib/intelligent/prompt.rb:14-20 | a single binding replaces its one placeholder in place and leaves the surrounding text alone |
| Prompts.ProcessContentExample | lib/intelligent/prompt.rb:14-20 | `Hello {{name}}!` with `name` = `World` gives `Hello World!` |
| Prompts.NestedAReplaced | lib/intelligent/prompt.rb:17 | replacing `{{a}}` by `b` in `{{{{a}}}}` leaves the new placeholder `{{b}}` |
| Prompts.LaterBindingRewritesInsertedValue | lib/intelligent/prompt.rb:16-18 | a value inserted for one key is rewritten by a later key, so binding order matters |
| Prompts.BoundPlaceholderCanRemain | lib/intelligent/prompt.rb:16-18 | after substitution a bound name's placeholder can still be present |
| Anthropic.Extname | lib/intelligent/llm/anthropic.rb:107 | `File.extname`: empty, or a suffix of the path starting with `.` and holding no other `.` or `/` |
| Anthropic.ExtnameOfSuffix | lib/intelligent/llm/anthropic.rb:107 | the extension of `stem.ext` is `.ext` |
| Anthropic.ExtnameOfDotfile | lib/intelligent/llm/anthropic.rb:107 | a dotfile such as `/home/.md` has no extension |
| Anthropic.ExtnameOfTrailingDot | lib/intelligent/llm/anthropic.rb:107 | a name ending in `.` after another character has the extension `.` |
| Anthropic.NamePrefixes | lib/intelligent/llm/anthropic.rb:74-91 | a MIME type matches `^image/` exactly for the image types, `^text/` exactly for `text/plain`, and equals `application/pdf` exactly for PDF |
| Anthropic.CaseOfFirstArm | lib/intelligent/llm/anthropic.rb:107-122 | a `case` gives the type of the first `when` arm that lists the value, and the `else` type when no arm lists it |
| Anthropic.CaseOfUnlisted | lib/intelligent/llm/anthropic.rb:107-122 | a value no arm lists falls through to `application/octet-stream` |
| Anthropic.CaseOfFirstListing | lib/intelligent/llm/anthropic.rb:107-122 | the first arm listing the value decides the type |
| Anthropic.CaseOfListed | lib/intelligent/llm/anthropic.rb:107-122 | a listed value gets the type of some arm that lists it |
| Anthropic.ContentTypeOfArms | lib/intelligent/llm/anthropic.rb:106-123 | the content type is `application/octet-stream` exactly for extensions none of the six arms lists; a listed extension gets the type of the first arm listing it |
| Anthropic.DetermineContentTypeByArms | lib/intelligent/llm/anthropic.rb:106-123 | a path's type is `application/octet-stream` exactly when no arm lists its lower-cased extension, and otherwise the type of the first arm that lists it |
| Anthropic.NoArmListsZip | lib/intelligent/llm/anthropic.rb:107-121 | no arm lists `.zip` |
| Anthropic.JpegExample | lib/intelligent/llm/anthropic.rb:106-109 | `/tmp/test.jpg` and `photo.JPEG` are `image/jpeg` (case is ignored) |
| Anthropic.MarkdownExample | lib/intelligent/llm/anthropic.rb:107-118 | `notes.MD` is `text/plain` |
| Anthropic.ZipExample | lib/intelligent/llm/anthropic.rb:120-121 | `/tmp/test.zip` is `application/octet-stream` |
| Anthropic.DotfileExample | lib/intelligent/llm/anthropic.rb:107-121 | `/home/.md` has no extension and is `application/octet-stream` |
| Anthropic.PrepareFileContent | lib/intelligent/llm/anthropic.rb:70-104 | raises exactly for unsupported files, with `Unsupported file type: application/octet-stream for file: <path>` |
| Anthropic.PrepareFileContentBlocks | lib/intelligent/llm/anthropic.rb:74-100 | images give a base64 image block, text gives the file's text, and PDFs give a base64 document block, each with its media type |
| Anthropic.CollectMeaning | lib/intelligent/llm/anthropic.rb:33-36 | succeeds exactly when no preparation raised, with all blocks in order; otherwise the error of the first preparation that raised |
| Anthropic.CollectStep | lib/intelligent/llm/anthropic.rb:33-36 | after a successful prefix, the next file either raises its error or appends its block |
| Anthropic.CollectKeepsFailure | lib/intelligent/llm/anthropic.rb:33-36 | once a file has raised, later files do not change the outcome |
| Anthropic.Prepared | lib/intelligent/llm/anthropic.rb:33-34 | one preparation per file, in order |
| Anthropic.PrepareAllBlocksInOrder | lib/intelligent/llm/anthropic.rb:32-37 | succeeds exactly when every file is supported, with one block per file in order; otherwise it raises the first unsupported file's message |
| Anthropic.PrepareAllSuccess | lib/intelligent/llm/anthropic.rb:32-37 | a successful preparation holds one block per file, each the file's own block at its index |
| Anthropic.PrepareAllFailure | lib/intelligent/llm/anthropic.rb:32-37 | a failed preparation raises the message of the first unsupported file |
| Anthropic.Answer | lib/intelligent/sequential_thinking.rb:18 | the answer to call `n` is one of the service's answers: the `n`-th while they last, then the last one |
| Anthropic.ReplyOf | lib/intelligent/llm/anthropic.rb:53-65 | success with the first block's text and the usage; `API request failed: ` and the status for API errors; `Request failed: ` for any other error, including a response with no content |
| Anthropic.RequestFor | lib/intelligent/llm/anthropic.rb:29-51 | the model, `max_tokens` 4000, and one `user` message whose content is the prompt's text block followed by the file blocks |
| Anthropic.Generate | lib/intelligent/llm/anthropic.rb:25-66 | raises `API key not configured` without a key and sends nothing; raises a file's error and sends nothing; otherwise sends the request for all blocks and maps the client's answer |
| SequentialThinking.InConclusionIsRedundant | lib/intelligent/sequential_thinking.rb:80-82 | `in conclusion` adds nothing, since it contains `conclusion` |
| SequentialThinking.HasConclusionIgnoresCase | lib/intelligent/sequential_thinking.rb:82 | the check is case-insensitive |
| SequentialThinking.KeywordAnywhereConcludes | lib/intelligent/sequential_thinking.rb:82 | an indicator anywhere in the text, in any case, is a conclusion |
| SequentialThinking.AnalyzeThoughtCompleteness | lib/intelligent/sequential_thinking.rb:78-86 | a conclusion stops the loop, reaching the total stops it, and otherwise it asks for more |
| SequentialThinking.AnalyzeThoughtCompletenessExamples | lib/intelligent/sequential_thinking.rb:78-86 | `Therefore, ...` at 2 of 5 stops; a plain thought at 5 of 5 stops; a plain thought at 2 of 5 continues |
| SequentialThinking.ThoughtLines | lib/intelligent/sequential_thinking.rb:55 | one `Thought n: content` line per thought |
| SequentialThinking.StepLines | lib/intelligent/sequential_thinking.rb:89 | one `Step n: content` line per thought |
| SequentialThinking.PreviousThoughtsSectionShape | lib/intelligent/sequential_thinking.rb:63 | with thoughts, the section is `Previous thoughts:` and the lines joined by newlines |
| SequentialThinking.ThinkingPromptStatesProblem | lib/intelligent/sequential_thinking.rb:54-76 | the thinking prompt contains `Problem: <problem>` |
| SequentialThinking.ThinkingPromptNamesStep | lib/intelligent/sequential_thinking.rb:65 | the thinking prompt contains `Thought c of t` |
| SequentialThinking.ThoughtLineInPrompt | lib/intelligent/sequential_thinking.rb:55-63 | each earlier thought's line occurs in the prompt at a known position |
| SequentialThinking.ThinkingPromptListsThoughts | lib/intelligent/sequential_thinking.rb:55-63 | every earlier thought is listed, in order of number |
| SequentialThinking.FinalPromptMentions | lib/intelligent/sequential_thinking.rb:88-107 | the final prompt opens with its instruction, and contains the problem and every `Step n:` line |
| SequentialThinking.Budget | lib/intelligent/sequential_thinking.rb:11-31 | the number of step calls allowed: `max_thoughts` when it is at least 1, and 1 otherwise |
| SequentialThinking.StopFrom | lib/intelligent/sequential_thinking.rb:13-36 | the first step, within the budget, at which the loop leaves; all earlier steps succeeded and asked for more |
| SequentialThinking.Thoughts | lib/intelligent/sequential_thinking.rb:22-26 | one thought per successful step |
| SequentialThinking.StepCalls | lib/intelligent/sequential_thinking.rb:15-18 | one call per step made |
| SequentialThinking.ThoughtsGrow | lib/intelligent/sequential_thinking.rb:22-26 | a successful step appends its thought, numbered after the others |
| SequentialThinking.StepCallsGrow | lib/intelligent/sequential_thinking.rb:15-18 | a step appends its call, whose prompt is built over the thoughts so far |
| SequentialThinking.Think | lib/intelligent/sequential_thinking.rb:3-50 | a run makes at least one call and at most one more than the budget, and every call carries the instance's model and the files |
| SequentialThinking.Synthesize | lib/intelligent/sequential_thinking.rb:38-49 | appends one call with the final prompt and the files; solved exactly when that answer succeeded, with its text and the thoughts; otherwise its error, or the raised error |
| SequentialThinking.ThinkThroughProblem | lib/intelligent/sequential_thinking.rb:8-50 | the loop's result and calls are those of the closed form `Think` |
| SequentialThinking.TracedRaised | lib/intelligent/sequential_thinking.rb:15-18 | when the next step call raises, the run ends with that error after that call |
| SequentialThinking.TracedFailed | lib/intelligent/sequential_thinking.rb:33-34 | when the next step call fails, the run ends unsolved with its error after that call |
| SequentialThinking.TracedStep | lib/intelligent/sequential_thinking.rb:20-32 | a successful step extends the trace when the loop goes on, and otherwise the run is the synthesis over the trace |
| SequentialThinking.ThinkAtStop | lib/intelligent/sequential_thinking.rb:13-49 | when step `k` is the first that does not go on, the run ends as that step's answer says, after `k + 1` step calls |
| SequentialThinking.GenerateFinalAnswer | lib/intelligent/sequential_thinking.rb:88-110 | sends the synthesis prompt with the files; solved with the reply's text and the thoughts, unsolved with its error, or the raised error |
| SequentialThinking.StopIndexIsFirstStop | lib/intelligent/sequential_thinking.rb:29-32 | the stopping step is the first step that does not continue |
| SequentialThinking.ThinkEndsAtLastCall | lib/intelligent/sequential_thinking.rb:18-49 | the outcome is decided by the answer to the last call: its exception, its error, or success |
| SequentialThinking.ThinkSolvedTrace | lib/intelligent/sequential_thinking.rb:39-46 | a solved run has thoughts numbered 1..k with the step texts, k + 1 calls, and the last call is the final prompt |
| SequentialThinking.ThinkAllPlainUsesBudget | lib/intelligent/sequential_thinking.rb:29-31 | with no conclusions the loop uses the whole budget, then synthesises |
| SequentialThinking.ThinkStopsAtFirstConclusion | lib/intelligent/sequential_thinking.rb:29-31 | the loop stops at the first concluding thought |
| SequentialThinking.ThinkStepFailureEndsRun | lib/intelligent/sequential_thinking.rb:33-34 | a failed step ends the run with its error and no synthesis call |
| SequentialThinking.RepeatedPlainReply | lib/intelligent/sequential_thinking.rb:8-50 | a repeated plain answer gives `max_thoughts` thoughts and `max_thoughts + 1` calls |
| SequentialThinking.DefaultBudgetExample | lib/intelligent/sequential_thinking.rb:8 | by default: 5 thoughts, 6 calls |
| SequentialThinking.EarlyConclusionExample | lib/intelligent/sequential_thinking.rb:29-46 | a conclusion at thought 2 of 3 gives two thoughts and three calls |
| SequentialThinking.FirstStepFailureExample | lib/intelligent/sequential_thinking.rb:33-34 | a failed first step gives its error after one call |
| SequentialThinking.SynthesisFailureExample | lib/intelligent/sequential_thinking.rb:47-48 | a failed final answer gives its error after four calls |
| Intelligent.FromReply | lib/intelligent/generation.rb:48-57 | success exactly when the reply succeeded, with its text; otherwise its error without the prompt |
| Intelligent.FromThinking | lib/intelligent/generation.rb:37-46 | success exactly when solved, passing the final text and thoughts; otherwise the error with the prompt |
| Intelligent.Rescued | lib/intelligent/generation.rb:22-28 | a raised error becomes a failure carrying its message and the prompt |
| Intelligent.FilesOrNone | lib/intelligent/generation.rb:9-16 | `files = nil` means no files |
| Intelligent.Produced | lib/intelligent/generation.rb:19-57 | every request carries the generation's model and the files; a single-shot run sends exactly one request, with the substituted prompt; a failure that carries a prompt carries the substituted one |
| Intelligent.Generation.constructor | lib/intelligent/generation.rb:9-17 | stores the prompt, variables, model, mode and files; no prompt has been generated yet |
| Intelligent.Generation.Call | lib/intelligent/generation.rb:19-57 | sets `generatedPrompt` to the substituted text; result and calls are those of `Produced`, and every call carries the generation's `model` and files |
| Intelligent.NewGeneration | lib/intelligent/generation.rb:9-17 | raises the validation error, otherwise a fresh generation with the given fields |
| Intelligent.Generate | lib/intelligent.rb:9-18 | a validation error propagates with no call made; otherwise the result and calls of `Call` |
| Intelligent.SingleShotUsesOneCall | lib/intelligent/generation.rb:23-57 | one request with the substituted prompt and files; success exactly when the reply succeeded |
| Intelligent.SequentialUsesThinking | lib/intelligent/generation.rb:23-46 | the thinking loop runs on the substituted prompt with the default budget; success exactly when solved |
| Intelligent.FailuresKeepPrompt | lib/intelligent/generation.rb:22-57 | failures carry the substituted prompt, except a failed single-shot reply; raised errors are rescued |
| Intelligent.SingleShotExample | lib/intelligent/generation.rb:19-29 | `Hello {{name}}!` with `World` sends `Hello World!` and returns the reply's text |
| Intelligent.RaisedErrorExample | lib/intelligent/generation.rb:22-28 | a raised error returns a failure with its message and the prompt |

## Left out

- The HTTP call to Anthropic is a parameter. `Anthropic.Generate` takes the client's outcome
  (`ClientOutcome`). Elsewhere the Anthropic service is a list of answers (`Service`).
- Base64 encoding is symbolic (`Base64Of(raw)`). Reading a file is its `body`, and
  `force_encoding("UTF-8")` is left out.
- The API key and the environment are a flag (`Llm.apiKeyPresent`). `Llm::Base` is not part of
  this model.
- `available_models`, `default_model` and the constructors' model defaults are constants with
  no behaviour, and are left out.
- The `timestamp: Time.now` of each thought is left out, because it reads the clock.
- `Anthropic.Extname`: does not model every edge case of `File.extname`. It takes the suffix
  from the last `.` of the last path segment, and gives none when that `.` starts the segment.
  Trailing slashes and multiple leading dots are not modelled. A trailing lone `.` gives `.`, as
  `File.extname` does since Ruby 2.7 (`ExtnameOfTrailingDot`).
- `Strings.Downcase`: ASCII only. Ruby's `downcase` also folds non-ASCII letters.
- `Anthropic.ReplyOf`: the message of the `NoMethodError` raised when the response has no
  content block is a fixed constant. The exact Ruby wording differs by version.
- `Anthropic.NamePrefixes`: `^` in the `case` regexps also matches after a newline. MIME types
  contain no newlines, so only the start of the string is modelled.
- The usage hash (`response.usage&.to_h`) is an opaque map.
- `Prompts.ReplaceAll`: Ruby's `gsub!` with a string replacement interprets backslash
  sequences such as `\1` and `\\`. The model inserts the value literally. `value.to_s` is
  modelled by values that are already strings.
- `Prompts.Keys`: keys are taken as their `to_s` strings. In Ruby a Symbol key still
  substitutes, because the pattern is built by interpolation (`lib/intelligent/prompt.rb:17`).
  But it fails validation, because the array difference (`lib/intelligent/prompt.rb:23`)
  compares the String names with the keys by `eql?`, so `Generation.new` raises `Missing
  required variables: name` for a binding `{ name: "x" }`. The model does not distinguish Symbol
  keys from String keys.
- The bindings are a list of key/value pairs in the order of the Ruby hash. Duplicate keys
  cannot occur in a Ruby hash, and nothing here relies on their absence.
- `Intelligent.Generation.constructor`: requires that validation passed. The raising path of
  `Generation.new` is `Intelligent.NewGeneration`, which validates before it allocates.
- `Intelligent.FilesOrNone`: the constructor stores `[]` for `files = nil`, where Ruby keeps nil
  in `@files`, so the `files` reader would return nil. Nothing downstream differs: the files only
  reach `generate`, whose `files && !files.empty?` test (`lib/intelligent/llm/anthropic.rb:32`)
  treats nil and `[]` alike.
- The `prompt`, `model` and other readers of `Generation`, and the private
  `use_sequential_thinking?`, are plain field reads and have no rows.
