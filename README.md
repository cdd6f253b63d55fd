# humane_rework: patterns, binding and step execution in Dafny

humane_rework runs acceptance tests written in plain English. A test file is
a list of steps such as `I have a "index.html" file with the contents {html}`.
Each step is parsed into segments: literal text, quoted values and `{braced}`
variables. The runner looks the step up in a registry of capabilities whose
own patterns use the same syntax. It binds the step's values to the
capability's variable names, runs the capability against a sandbox (the
"civilization"), and reports success, failure or a snapshot. When a step is
not found, the reporter suggests registered patterns that resemble it.

This project models that core:

- `Segments` (segments.dfy): the segment datatype and the directed matching
  relation `Eq(query, stored)`. A stored variable matches any value or
  variable; a literal matches only an equal literal. It also has the hash
  that ignores what a placeholder holds, and the comparison string.
- `Parser` (parser.dfy): the character-by-character parser as a method with a
  loop. It is proved equal to a recursive reference definition, and the round
  trip and the reparse of a comparison string are proved.
- `Binding` (binding.dfy): `build`, which binds a step's values to a
  capability's variable names, `replace_inside_value`, and the argument
  accessors.
- `Registry` (registry.dfy): the hash maps of instructions, retrievers and
  assertions as an insertion-ordered sequence with hash-map `insert` semantics.
- `LegacyInstructions` (legacy.dfy): the older `instructions/mod.rs` patterns
  and their embedding into the newer segment type.
- `Steps`, `Runner` (steps.dfy, runner.dfy): test steps, their states and
  display, and the step runner with its `ref` steps into other files.
- `Sandbox` (civilization.dfy): the `Civilization` class. It covers the port,
  the temporary directory, the servers and the shutdown.
- `Hosting`, `Browser`, `Assertions` (hosting.dfy, browser.dfy,
  assertions.dfy): the hosting, browser and assertion capabilities.
- `Differ` (differ.dfy): newline detection and the rendering of invisible
  characters in snapshot diffs.
- `Reporting` (reporting.dfy): loading test files, the closest-string
  suggestions, routing errors to a report, the snapshot outcome, the review
  of snapshots and the final tally with its exit code.
- `Errors`, `JsonValues`, `Text`, `Wrappers`: the error hierarchy, JSON
  values, string helpers and `Result`/`Option`. `Result` has a third case,
  `Panic(message)`, for the places where the Rust code panics (`expect`,
  `unwrap`, `assert!`, `todo!`).

Throughout, what the program gets from the outside world is a parameter of
the model. This covers the port picker's answers, whether a bind succeeds,
the browser's evaluation, the YAML and JSON printers, the string-similarity
measure and the user's answers during a review.

## Model

| member | source | states |
|---|---|---|
| Segments.HashTokens | humane_rework/src/segments.rs:20-31 | one hash token per segment; literals hash their text, and every value or variable hashes alike |
| Segments.EqCharacterization | humane_rework/src/segments.rs:33-49 | patterns are equal iff they have the same length and each pair matches: literal with equal literal, or any value or variable against a stored variable |
| Segments.EqIsDirected | humane_rework/src/segments.rs:283-289 | a value matches a stored variable, but a variable does not match a stored value, and a value does not even match itself |
| Segments.EqReflexiveWithoutValues | humane_rework/src/segments.rs:33-49 | a pattern without values equals itself |
| Segments.EqSymmetricWithoutValues | humane_rework/src/segments.rs:33-49 | between patterns without values, equality is symmetric |
| Segments.EqImpliesSameHash | humane_rework/src/segments.rs:20-49 | patterns that are equal hash alike, which the hash-map lookup relies on |
| Segments.HashIgnoresPlaceholders | humane_rework/src/segments.rs:20-31 | patterns that differ only in what their placeholders hold hash alike |
| Segments.EqImpliesSameComparisonString | humane_rework/src/segments.rs:54-64 | patterns that are equal have the same comparison string |
| Parser.ParseInstruction | humane_rework/src/parser.rs:90-157 | the character loop with its three modes computes the reference parse `Parse` |
| Parser.ErrorMessage | humane_rework/src/parser.rs:146-154 | the unclosed-quote message ends with the quote that was expected |
| Parser.ParseNeverPanics | humane_rework/src/parser.rs:90-157 | on text of one-byte (ASCII) characters, parsing ends in segments or in a parse error, never a panic |
| Parser.PlainText | humane_rework/src/parser.rs:166-173 | text with no quote or brace parses to a single literal, and the empty string to no segments |
| Parser.Unfold | humane_rework/src/parser.rs:104-142 | literal, opener, inner text, matching closer and rest parse to the literal, the span's segment and the parse of the rest |
| Parser.UnclosedQuoteFails | humane_rework/src/parser.rs:146-154 | an opening quote with no closing quote fails with the unclosed-quote error naming that quote |
| Parser.UnclosedBraceFails | humane_rework/src/parser.rs:146-154 | an opening brace with no closing brace fails with the unclosed-variable error |
| Parser.EmptySpans | humane_rework/src/parser.rs:119-142 | `""` and `''` produce an empty string value, and `{}` a variable with the empty name |
| Parser.ParseWellShaped | humane_rework/src/parser.rs:90-157 | every successful parse alternates literals free of openers with values or variables, starting with a possibly empty literal; values are strings, variable names hold no `}`, and a literal in last place is never empty |
| Parser.RoundTrip | humane_rework/src/segments.rs:66-77 | printing a value-free parse with `get_as_string` gives back the parsed text |
| Parser.ReparseComparisonString | humane_rework/src/segments.rs:54-64 | the comparison string of a well-shaped pattern parses to a pattern that is equal to it in both directions |
| ParserExamples.ExamplePlain | humane_rework/src/parser.rs:166-173 | the parser's first test case |
| ParserExamples.ExampleQuotes | humane_rework/src/parser.rs:175-184 | the parser's quoted-values test case |
| ParserExamples.ExampleEmptyValueAndVariable | humane_rework/src/parser.rs:186-198 | the parser's third test case |
| Binding.Build | humane_rework/src/segments.rs:87-130 | the binding loop computes the reference binding `BuildSpec` |
| Binding.BuildNeverPanicsOnEq | humane_rework/src/segments.rs:104-117 | when the supplied step equals the capability's pattern, binding never reaches the unreachable arm |
| Binding.BuildOkIffNoneStuck | humane_rework/src/segments.rs:104-117 | binding succeeds iff no supplied variable is missing from the supplied arguments |
| Binding.BuildFailsAtFirstStuck | humane_rework/src/segments.rs:108-114 | at the first position that cannot bind, a supplied variable with no argument fails naming that variable, and a supplied literal panics |
| Binding.BuildBindsVariables | humane_rework/src/segments.rs:104-117 | after a successful binding, every variable name of the capability's pattern is bound |
| Binding.BuildBindsLast | humane_rework/src/segments.rs:104-117 | the value bound to a name is the one supplied at the last position with that name |
| Binding.BuildKeeps | humane_rework/src/segments.rs:104-117 | a binding already present for a name the pattern never uses survives unchanged |
| Binding.Substituted | humane_rework/src/segments.rs:174-201 | substitution keeps each value's kind, array lengths and object keys, and leaves numbers, booleans, null and delimiter-free strings alone |
| Binding.ReplaceInsideValue | humane_rework/src/segments.rs:174-201 | the in-place recursive replacement computes `Substituted` |
| Binding.SubstitutedWithoutStrings | humane_rework/src/segments.rs:174-201 | a value holding no strings is unchanged |
| Binding.SubstituteSingle | humane_rework/src/segments.rs:179-188 | a string ending in the one placeholder for a known name gets that name's replacement |
| Binding.GetValue | humane_rework/src/segments.rs:132-144 | the argument if present, and otherwise an error naming the key and the keys present |
| Binding.GetString | humane_rework/src/segments.rs:146-171 | the string argument if present and a string; a missing argument and a wrong type give their own errors |
| BindingExamples.BuildingArgs | humane_rework/src/segments.rs:216-237 | the `test_building_args` case |
| BindingExamples.ArgPlaceholders | humane_rework/src/segments.rs:239-269 | the `test_arg_placeholders` case |
| BindingExamples.SegmentsEquality | humane_rework/src/segments.rs:271-291 | the `test_segments_equality` case |
| BindingExamples.ComplexPlaceholders | humane_rework/src/segments.rs:293-333 | the `test_complex_placeholders` case |
| Registry.FindKey | humane_rework/src/definitions/mod.rs:32-43 | the first key the query equals, and None iff it equals no key |
| Registry.Insert | humane_rework/src/definitions/mod.rs:32-43 | a new key is appended; for a key that is already present the old key stays and only the capability is replaced; distinct keys stay distinct |
| Registry.Register | humane_rework/src/definitions/mod.rs:32-43 | building a registry never fails with an error: a pattern that does not parse panics |
| Registry.AtMostOneMatch | humane_rework/src/definitions/mod.rs:32-43 | among keys that are pairwise unequal, as `Insert` keeps them, a query matches at most one |
| Registry.RegisterShape | humane_rework/src/definitions/mod.rs:32-43 | a registry's keys are distinct, and each is the parse of some definition's pattern |
| Registry.RegisterCovers | humane_rework/src/definitions/mod.rs:32-43 | every definition's pattern has a key it is equal to |
| Registry.RegisterPanicsOnBadPattern | humane_rework/src/definitions/mod.rs:32-43 | a definition whose pattern fails to parse makes the registry panic |
| Registry.RegisteredIsFound | humane_rework/src/definitions/mod.rs:32-43 | a query equal to a registered pattern is found, and its key is one the query equals |
| RegistryExamples.GettingAnInstruction | humane_rework/src/definitions/mod.rs:103-137 | the instruction lookup test |
| RegistryExamples.GettingARetriever | humane_rework/src/definitions/mod.rs:140-170 | the retriever lookup test |
| RegistryExamples.GettingAnAssertion | humane_rework/src/definitions/mod.rs:173-204 | the assertion lookup test |
| LegacyInstructions.OldEqIsEq | humane_rework/src/instructions/mod.rs:34-50 | the older equality is the newer one on embedded patterns |
| LegacyInstructions.OldHashIsHash | humane_rework/src/instructions/mod.rs:21-32 | the older hash is the newer one on embedded patterns |
| LegacyInstructions.OldEqImpliesSameHash | humane_rework/src/instructions/mod.rs:21-50 | older patterns that are equal hash alike |
| LegacyInstructions.GetStr | humane_rework/src/instructions/mod.rs:66-73 | a string argument if present and a string; each failure gives its own message |
| LegacyInstructions.InstructionEquality | humane_rework/src/instructions/mod.rs:96-115 | the older `test_instruction_equality` case, with the three parsed patterns written out as segments: `a` equals `b` and is found under it in a one-entry map; `c` neither equals `b` nor is found |
| Steps.StateOf | humane_rework/src/main.rs:133-142 | the step's state |
| Steps.Display | humane_rework/src/main.rs:94-110 | an instruction or assertion shows its text; a ref or snapshot step shows its text after its own prefix |
| Steps.DisplayTellsKinds | humane_rework/src/main.rs:94-110 | for steps with the same text, the displays agree iff the kinds' prefixes agree |
| Steps.ArgsPretty | humane_rework/src/main.rs:113-131 | the YAML of the arguments unless the step is a ref or the YAML is an empty map, which give "" |
| Runner.Fail | humane_rework/src/runner.rs:50-57 | a failed step is marked Failed and reported with its arguments, and the sandbox is kept |
| Runner.ExecuteLeaf | humane_rework/src/runner.rs:101-205 | a leaf step keeps its content and ends Passed iff it succeeds; a failure names the step |
| Runner.MissingCapability | humane_rework/src/runner.rs:101-172 | a step with no capability fails with the nonexistent-step error |
| Runner.RetrieverRunsFirst | humane_rework/src/runner.rs:128-172 | an assertion runs its retriever first, then checks the value in the sandbox the retriever left |
| Runner.SnapshotText | humane_rework/src/runner.rs:198-201 | a string snapshot is its text; anything else is its YAML |
| Runner.SnapshotKeepsText | humane_rework/src/runner.rs:173-205 | a retrieved snapshot is recorded on the step, and the step passes |
| Runner.ExecuteStep | humane_rework/src/runner.rs:60-205 | every step keeps its content and ends Passed on success and Failed on failure |
| Runner.RunSteps | humane_rework/src/runner.rs:41-210 | the step loop computes the reference run `RunFrom` |
| Runner.RunExperiment | humane_rework/src/runner.rs:18-38 | a file runs from the given sandbox; the sandbox is shut down on success, and a failure is passed on |
| Runner.RunFromKeeps | humane_rework/src/runner.rs:41-210 | running keeps the number of steps and each step's content |
| Runner.RunFromPasses | humane_rework/src/runner.rs:41-210 | a run that succeeds leaves every step it ran Passed |
| Runner.RunFromStops | humane_rework/src/runner.rs:41-210 | a run that fails stops at one step: the steps before it passed, it failed, and the later ones are untouched |
| Runner.LaterStepsStayDormant | humane_rework/src/runner.rs:41-210 | after a failure, the steps after the failing one are still Dormant |
| Runner.RefToUnknownFile | humane_rework/src/runner.rs:71-81 | a ref to a file that is not loaded fails with an invalid-ref error naming the resolved path and the closest loaded file, and the step is marked Failed |
| Runner.RefToKnownFile | humane_rework/src/runner.rs:60-100 | a ref to a loaded file runs that file's steps in the same sandbox, records them on the ref step, and passes iff they pass |
| Sandbox.JoinPath | humane_rework/src/civilization.rs:59-73 | joining an absolute name gives the name; otherwise the base, a `/` unless the base is empty or already ends in one, and the name |
| Sandbox.Civilization.constructor | humane_rework/src/runner.rs:22-31 | a fresh sandbox has no port, directory, window, servers or effects |
| Sandbox.Civilization.EnsurePort | humane_rework/src/civilization.rs:49-54 | an assigned port is kept; otherwise the picked port is assigned, and no port panics |
| Sandbox.Civilization.PurgePort | humane_rework/src/civilization.rs:55-57 | the port is forgotten |
| Sandbox.Civilization.TmpDir | humane_rework/src/civilization.rs:59-68 | the temporary directory is created once and then reused |
| Sandbox.Civilization.TmpFilePath | humane_rework/src/civilization.rs:70-73 | a path inside the temporary directory |
| Sandbox.Civilization.Shutdown | humane_rework/src/civilization.rs:38-45 | every server handle is stopped, and then every task is aborted |
| Sandbox.RepickAfterPurge | humane_rework/src/civilization.rs:49-57 | after a purge, the next port is newly picked |
| Sandbox.TmpDirTwice | humane_rework/src/civilization.rs:59-68 | asking twice gives the same directory, created at most once |
| Hosting.AttemptsMeaning | humane_rework/src/definitions/hosting/mod.rs:22-42 | at most five attempts; each attempt before the ending one failed to bind; a bound server listens on its attempt's port |
| Hosting.Attempt | humane_rework/src/definitions/hosting/mod.rs:22-42 | one attempt: no port panics with nothing else changed; no temporary directory panics with the port assigned; otherwise the directory is created and recorded if it was missing, and the bind either records the server as a handle and a task or purges the port |
| Hosting.Host | humane_rework/src/definitions/hosting/mod.rs:19-49 | the bind loop records a bound server once as a handle and once as a task; no port, no directory, or five failures panic with the servers left unchanged; in each case it states the port, the temporary directory and whether its creation was recorded in the effects |
| Hosting.HostDir | humane_rework/src/definitions/hosting/mod.rs:63-71 | a missing or non-string `dir` fails before any attempt, and the sandbox is unchanged; otherwise the directory is hosted |
| Hosting.DebugHostDir | humane_rework/src/definitions/hosting/mod.rs:86-105 | the same as hosting, with the port asked for again |
| Browser.Harnessed | humane_rework/src/definitions/browser/mod.rs:64-66 | a harness without the marker is unchanged |
| Browser.HarnessedOnce | humane_rework/src/definitions/browser/mod.rs:64-66 | a harness with one marker gets the script in its place |
| Browser.DecodeResult | humane_rework/src/definitions/browser/mod.rs:85-113 | a non-object result and a missing `humane_errs` fail; reported errors fail the step with their messages; otherwise the inner response is returned |
| Browser.DecodeReport | humane_rework/src/definitions/browser/harness.js:20-28 | decoding what the harness reports gives its errors as a failure, or else its inner response |
| Browser.EvalAndReturn | humane_rework/src/definitions/browser/mod.rs:68-114 | no window fails the step's requirements; an evaluation failure is reported; otherwise the result is decoded |
| Browser.EvalJs | humane_rework/src/definitions/browser/mod.rs:128-138 | a missing `js` argument fails; otherwise the script runs, its result is dropped, and its failure or panic is passed on unchanged |
| Browser.GetJs | humane_rework/src/definitions/browser/mod.rs:153-161 | a missing `js` argument fails; otherwise the script's result is returned |
| Browser.GetConsole | humane_rework/src/definitions/browser/mod.rs:176-182 | with no window it fails; otherwise it is the harnessed evaluation of the console script |
| Browser.GetConsoleReport | humane_rework/src/definitions/browser/mod.rs:176-182 | with a window, a harness report without errors gives the console events, and one with errors fails with them and the log |
| Browser.PageUrl | humane_rework/src/definitions/browser/mod.rs:34-38 | the address is on localhost and ends with the requested path |
| Browser.LoadPage | humane_rework/src/definitions/browser/mod.rs:29-50 | the port is ensured first; a missing `url` or a failed window fails; on success the window is recorded, and otherwise the window is unchanged |
| Assertions.ContainsValue | humane_rework/src/definitions/assertions/mod.rs:10-65 | equal values contain each other; containment in strings is substring search; incomparable kinds give an internal error |
| Assertions.StringContainment | humane_rework/src/definitions/assertions/mod.rs:10-65 | a string contains another iff it occurs at some position |
| Assertions.EmptyValues | humane_rework/src/definitions/assertions/mod.rs:67-76 | empty means null, "", [] or {} |
| Assertions.TypeNamesDistinct | humane_rework/src/definitions/assertions/mod.rs:78-87 | two values have the same type name iff they are of the same kind |
| Assertions.ContainRun | humane_rework/src/definitions/assertions/mod.rs:106-125 | passes iff the value contains the expected one, and a missing `expected` fails |
| Assertions.NotContainRun | humane_rework/src/definitions/assertions/mod.rs:140-159 | passes iff the value does not contain the expected one |
| Assertions.ContainOpposites | humane_rework/src/definitions/assertions/mod.rs:106-159 | contain and not-contain never both pass, and one passes whenever the comparison is defined |
| Assertions.ExactlyRun | humane_rework/src/definitions/assertions/mod.rs:180-199 | passes iff the value equals the expected one |
| Assertions.NotExactlyRun | humane_rework/src/definitions/assertions/mod.rs:214-233 | passes iff the value differs from the expected one |
| Assertions.ExactlyComplementary | humane_rework/src/definitions/assertions/mod.rs:180-233 | given `expected`, exactly one of the two passes |
| Assertions.ExactlyImpliesContain | humane_rework/src/definitions/assertions/mod.rs:106-199 | a value that is exactly the expected one also contains it |
| Assertions.EmptyRun | humane_rework/src/definitions/assertions/mod.rs:254-270 | passes iff the value is null, "", [] or {} |
| Assertions.NotEmptyRun | humane_rework/src/definitions/assertions/mod.rs:285-301 | passes iff the value is not empty, and the failure names its type |
| Assertions.EmptyComplementary | humane_rework/src/definitions/assertions/mod.rs:254-301 | exactly one of empty and not-empty passes |
| Differ.TrailingNewline | humane_rework/src/differ.rs:97-107 | a suffix of the text: "\r\n", a lone line end, or nothing |
| Differ.DetectNewlines | humane_rework/src/differ.rs:109-133 | the scanning loop finds exactly the line-ending styles in the text: lone CR, CRLF and lone LF |
| Differ.NewlinesMatter | humane_rework/src/differ.rs:135-147 | newlines matter iff the trailing newlines differ or the two texts together use two or more line-ending styles |
| Differ.MatterSymmetric | humane_rework/src/differ.rs:135-147 | whether newlines matter does not depend on which text is which |
| Differ.WithoutCarriageReturn | humane_rework/src/differ.rs:109-133 | a text without CR has only LF lines, and has those iff it holds an LF |
| Differ.RenderInvisible | humane_rework/src/differ.rs:149-159 | text is shown unchanged unless newlines matter or it has control characters; then invisible characters are marked |
| Differ.CollapseMarked | humane_rework/src/differ.rs:149-159 | marking CR and LF and then joining each marked CRLF pair puts both symbols before the pair, which is `Visible` |
| Reporting.ClosestStrings | humane_rework/src/main.rs:145-157 | every option is scored once, and the pairs are sorted in descending order, by string first and by score only between equal strings |
| Reporting.SortDescending | humane_rework/src/main.rs:150-156 | the array is sorted descending and is a permutation of what it held |
| Reporting.DescendingUnique | humane_rework/src/main.rs:150-156 | a sorted permutation is unique, so the sort's result is determined |
| Reporting.KeptMeaning | humane_rework/src/main.rs:361-369 | a suggestion is kept iff it is the first in that order (the last string in code-point order), one of the next five with score at least 0.4, or a later one with score at least 0.6 |
| Reporting.ParseAll | humane_rework/src/main.rs:367-367 | each suggestion is reparsed, and an unparsable one panics |
| Reporting.LookupAll | humane_rework/src/main.rs:404-404 | each suggestion is looked up in the registry, and a missing one panics |
| Reporting.LookupAllPanics | humane_rework/src/main.rs:439-439 | the lookup panics iff some suggestion is not in the registry |
| Reporting.Suggest | humane_rework/src/main.rs:344-371 | the matches are the registry's comparison strings scored and sorted as `closest_strings` does, and the result is the kept ones reparsed and looked up |
| Reporting.SuggestionsFound | humane_rework/src/main.rs:214-230 | every kept suggestion reparses, is found, and is the comparison string of the key found |
| Reporting.SuggestNeverPanics | humane_rework/src/main.rs:344-371 | for a registry of distinct variable-only keys, the suggestions never panic and give one key per kept string |
| Reporting.ReportFor | humane_rework/src/main.rs:373-503 | each error is routed to its report: refs, unknown instructions, retrievals and assertions, snapshots, and everything else |
| Reporting.OutcomeOf | humane_rework/src/main.rs:299-335 | a pass iff the run succeeds and the snapshots agree up to surrounding whitespace; a snapshot failure, carrying the new snapshot, iff they differ; a test failure iff the run fails with any error but the unfinished snapshot branch |
| Reporting.SurroundingWhitespaceIgnored | humane_rework/src/main.rs:299-335 | padding the produced snapshot with whitespace does not change the outcome |
| Reporting.LoadFiles | humane_rework/src/main.rs:177-211 | the load loop computes the reference fold `Load`; the tests are returned iff no file failed |
| Reporting.LoadNames | humane_rework/src/main.rs:177-204 | the name index gives, for each test name, the path of the first parsed file with that name |
| Reporting.DuplicateReported | humane_rework/src/main.rs:185-194 | a parsed file whose name an earlier file already uses is reported as a duplicate, naming both paths and the name |
| Reporting.UnparsableReported | humane_rework/src/main.rs:177-204 | a file that does not parse is reported as an error |
| Reporting.FirstIsKept | humane_rework/src/main.rs:185-194 | with distinct paths, the first file with a given name is stored under its path |
| Reporting.KeptNamesDistinct | humane_rework/src/main.rs:185-194 | the name index never holds the same name twice |
| Reporting.ErrorsGrow | humane_rework/src/main.rs:177-204 | loading only appends errors: the errors of a prefix of the files are a prefix of all the errors |
| Reporting.ComparisonFindsKey | humane_rework/src/main.rs:214-230 | the comparison string of a registered key reparses to a query that finds that very key |
| Reporting.PassesAndFailures | humane_rework/src/main.rs:624-638 | every result is either a pass or a failure |
| Reporting.ConfirmedAreSnapshots | humane_rework/src/main.rs:558-611 | confirmed snapshots are at most the snapshot failures, which are at most the failures |
| Reporting.AllConfirmed | humane_rework/src/main.rs:558-611 | every failure is confirmed iff every non-passing result is a snapshot failure the user confirmed |
| Reporting.AllPass | humane_rework/src/main.rs:624-638 | there are no failures iff every result passes |
| Reporting.ReviewSnapshots | humane_rework/src/main.rs:558-611 | the number of resolved snapshots: the confirmed ones under an interactive review, and otherwise none |
| Reporting.Tally | humane_rework/src/main.rs:624-638 | resolving more failures than there are failed tests is an underflow, taken as the panic of a build with overflow checks; otherwise resolved failures become passes |
| Reporting.ExitCode | humane_rework/src/main.rs:624-638 | the exit code is non-zero iff some test fails |
| Reporting.TallyAfterReview | humane_rework/src/main.rs:558-638 | after a review there is no overflow, passes and failures add up to the number of tests, and the exit is 0 iff every failure was a confirmed snapshot |

## Left out

- Concurrency: the tokio runtime, the `async` capability calls and the join of server tasks are not part of this model. Servers and tasks are recorded as values in the sandbox's lists.
- I/O: reading test files, printing, logging (`logging.rs`), `writer.rs`, `interactive.rs` prompts and snapshot files are not part of this model. The prompt's answers are parameters (`review`, `confirm`), and the snapshot file text is a parameter (`outputDoc`).
- YAML and JSON printing and parsing (`parse_file`, `args_pretty`'s serialiser, snapshot YAML) are function parameters; the test-file format itself is left out.
- The filesystem and process capabilities (`definitions/filesystem`, `definitions/process`) and the sandbox's file and process methods are not part of this model. Neither are `universe.rs`, `options.rs`, the older `humane/` crate or the generated syntax.
- Parser.ParseInstruction: the model reads a string as code points, and it agrees with the source only on text whose characters are one byte each (ASCII). The source counts characters with `chars().enumerate()` but uses those counts as byte offsets when it slices and when it compares with `len()` (parser.rs:102-148), so on text such as `é{x}` it slices inside a character and panics, or cuts the wrong span. That behaviour is not modelled.
- Parser.ParseNeverPanics: it holds for the model and, by the line above, for the source only on ASCII text.
- Reporting.Tally: a release build wraps the `usize` subtraction instead of panicking; the model takes the panic of a build with overflow checks. `TallyAfterReview` proves the underflow cannot arise after a review, so both builds agree on every tally that occurs.
- JSON numbers are integers (`JsonValues.Json`), so a fractional number such as 1.5 cannot be represented, and the equality of `1` and `1.0` in the JSON assertions is not modelled.
- The older `register_instructions` (instructions/mod.rs:76-87) is not modelled as a member of its own: it parses each definition with the same `parse_instruction` and the same `expect`, so it is `Registry.Register` with the message "builtin instructions should be parseable", and its keys are the embedded older patterns (`LegacyInstructions.EmbedAll`), whose equality and hash `OldEqIsEq` and `OldHashIsHash` tie to the newer ones.
- Reporting.ClosestStrings: the score is a `real` and the similarity measure is a parameter. The `expect` on a NaN comparison cannot occur, so it is not modelled.
- Reporting.Suggest: the `• ` formatting and printing of suggestions are left out; the patterns found are returned instead.
- Reporting.OutcomeOf: it assumes the suggestion lookups of the report do not panic; `SuggestNeverPanics` proves that they do not.
- Reporting.ReportFor: the snapshot branch ends in `todo!()`, which is modelled as the `Unfinished` report whose outcome panics with "not yet implemented".
- Reporting.LoadFiles: tests are keyed by the path as given; path normalisation is not modelled.
- Differ: `diff_snapshots` (the line diff itself and its colouring) is left out; the newline analysis and rendering it relies on are modelled.
- Runner.RunSteps: the sandbox is a type parameter `S` threaded through the capability functions, because function values cannot change the heap. `ref` steps can recurse without bound in the source; the model takes a `fuel` bound, and running out of fuel panics like a stack overflow.
- Runner.RunExperiment: the `Test` and `Reference` file types are not distinguished.
- Hosting.DebugHostDir: printing the address and sleeping are left out.
- Iteration order of Rust's `HashMap` is unspecified. Registries keep insertion order, the keys of an argument map are a set, and placeholders are a sequence whose order the modelled replacement follows.
- Strings are sequences of code points rather than UTF-8 bytes. The order used to sort suggestions is code-point order, which agrees with the byte order Rust compares strings by. The parser is the one place where the difference shows (see Parser.ParseInstruction above).

## Notes on the source

- The parser in `parser.rs` produces string values for quoted text (`Value(Str(..))`), as the code does.
- `parse_segments` mixes character positions and byte offsets, so it panics on text with a multi-byte character before an opener, such as `é{x}`. The model parses code points and is faithful on ASCII text only.
- harness.js returns its console log only when it has errors to report; the model's `Report` does the same.
- `errors.rs` carries the error types the modelled code constructs. `Errors.Failure` stands for `HumaneTestFailure::Custom`, and the assertions build it through their helper `Assertions.Failure`.
- `closest_strings` orders by string first and score second, and the model follows that comparison exactly.
- `run_humane_experiment` returns with `?` before shutting the sandbox down, so a failing file skips the shutdown; the model does the same.
- `LoadPage` ensures the port before it reads the `url` argument, as the code does.
- `NotExactly` reports its failure with the same message as `Exactly`, and the model keeps that message.
