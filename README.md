# C# analyzer provider: deduplication, evaluate and init

This project models in Dafny the gRPC provider service of the C# analyzer
(`src/provider/csharp.rs`) and proves properties of the model. The model covers:

- **Deduplication of query matches** (`deduplicate_results`). Matches are grouped by
  `(file_uri, line_number)` in a `BTreeMap`. The first match of a group is inserted. A
  later one replaces it only when its tuple `(line_number, span, start character, end
  character)` is strictly smaller. The values come out in key order. The map is a
  `map<Key, nat>` from keys to indices of the input. The map's iteration order is an
  ascending `seq<Key>` that the method maintains. `Deduplicated` states the result
  declaratively: the keys are strictly ascending, the keys are exactly those of the
  input, and each output record is the first minimal record of its group. The method
  is proved to meet it. That description is then shown to be deterministic,
  idempotent and insensitive to input order (up to ties). On inputs whose keys are all
  distinct it returns the input's records reordered by key. The unit tests' scenarios are proved for every conforming output.
- **`evaluate`**. Only the `referenced` capability is served. A condition that does not
  parse is a call failure. Without a project or a source type the answer is "project
  may not be initialized". The condition's location (default `All`) selects one of four
  query modes. A "not found" outcome is a successful empty answer. Any other query
  error is reported in the response. Matches are deduplicated, converted to incidents
  and sorted in place by the string key `"<file_uri>-<line>"`. `matched` holds exactly
  when some incident is returned.
- **Target-framework handling**. The `is_modern_dotnet` predicate is modelled as
  written, including its operator precedence. The background SDK task is spawned only
  for a modern framework with an install command. The task's body is modelled too.
- **`init`**. The configuration is saved first. A tools failure is `InvalidArgument`.
  Otherwise a new project is installed, and a detected target framework is recorded on
  it. Validation, graph loading and joining dependency resolution are fatal
  `Internal` failures. The SDK task's result, a panic in it, the dependency resolution's
  own result and loading into the database never change the answer. The SDK task is
  awaited only when `init` succeeds; an early error leaves it running detached.

The matches' `usize` arithmetic is explicit: the span `end.line - start.line` wraps
modulo 2^64, which is what a release build computes. Everything `init` and `evaluate`
call out to is an input to the model: tool discovery, target-framework detection, the
SDK steps, project validation and loading, the source-type lookup, the query engine and
the `ResultNode`→`IncidentContext` conversion.

The model follows the code wherever the code and its documentation differ:

- The incidents are sorted by a *string* key, so line 10 sorts before line 9 of the
  same file. The model keeps this order (`LineTenSortsBeforeLineNine`) and does not
  compare file first and line number second.
- `init` installs the new project before its fatal steps run. A failed `init` after the
  tools lookup therefore leaves the new, partly initialised project in place.
- `deduplicate_results` is documented as selecting deterministically, and its test is
  named as order-independent. Two matches with the same key and the same span, start
  character and end character still tie, even when their start and end lines differ.
  The strict comparison keeps whichever was seen first, so the kept code location
  depends on input order (`FirstSeenWinsTies`).
- The comment on the SDK step calls every .NET from Core and 5 onwards modern. The
  literal prefix test classes `net10.0` as legacy, because it starts with `net1`
  (`Classifications`).

## Model

| member | source | states |
|---|---|---|
| Results.KeyOf | src/provider/csharp.rs:508 | the grouping key `(file_uri, line_number)` of a record |
| Results.RankOf | src/provider/csharp.rs:513-524 | the compared tuple `(line_number, span, start character, end character)` of a record |
| Results.RankLess | src/provider/csharp.rs:525-526 | Rust's `<` on that 4-tuple: lexicographic, component by component |
| Results.StrLess | src/provider/csharp.rs:505 | `String`'s order: lexicographic by character, a proper prefix first |
| Results.KeyLess | src/provider/csharp.rs:505 | the `BTreeMap<(String, usize), _>` key order: by file, then by line |
| Results.Span | src/provider/csharp.rs:513-520 | the span is the true line difference whenever the end line is not before the start line and the difference plus 2^64 when the end line is before the start line (release-build wrap-around) |
| Results.RankLessTotal | src/provider/csharp.rs:525-526 | the tuple comparison is total: two ranks neither of which is below the other are equal |
| Results.RankLessTransitive | src/provider/csharp.rs:525-526 | the tuple comparison is transitive |
| Results.StrLessAsymmetric | src/provider/csharp.rs:505 | the `String` order never places two strings both ways |
| Results.StrLessTotal | src/provider/csharp.rs:505 | the `String` order on file names is total |
| Results.StrLessTransitive | src/provider/csharp.rs:505 | the `String` order is transitive |
| Results.StrLessIrreflexive | src/provider/csharp.rs:505 | no file name is below itself |
| Results.StrLessAtFirstDifference | src/provider/csharp.rs:505 | a proper prefix sorts first; otherwise the first differing character decides |
| Results.KeyLessTotal | src/provider/csharp.rs:505 | two different `(file_uri, line_number)` keys are ordered one way or the other |
| Results.KeyLessAsymmetric | src/provider/csharp.rs:505 | the key order never places two keys both ways |
| Results.AscendingUnique | src/provider/csharp.rs:534 | the map's values come out in a unique order: two ascending key sequences with the same keys are equal |
| Results.KeysCoverKeySet | src/provider/csharp.rs:505-508 | the keys listed for the records are exactly their set of keys |
| Dedup.BestIndex | src/provider/csharp.rs:507-531 | after a prefix of the input, every entry of the map points at an earlier record carrying that entry's key |
| Dedup.InsertKey | src/provider/csharp.rs:531 | inserting a new key keeps the map's keys ascending and adds exactly that key |
| Dedup.DeduplicateResults | src/provider/csharp.rs:499-535 | the result meets `Deduplicated`: one record per input key, in ascending key order, each the first minimal record of its group; never longer than the input |
| Dedup.BestIndexKeys | src/provider/csharp.rs:507-531 | after a prefix, the map holds exactly the keys occurring in that prefix |
| Dedup.BestIndexSelected | src/provider/csharp.rs:507-531 | every record the map holds is the first minimal record of its group so far |
| Dedup.StepSelected | src/provider/csharp.rs:507-531 | one `entry(..).and_modify(..).or_insert(..)` step keeps every entry of the map selected |
| Dedup.FirstOfItsKey | src/provider/csharp.rs:531 | the first record with a new key is the selected one so far |
| Dedup.KeepSelected | src/provider/csharp.rs:525-530 | a record that is not strictly beaten by the next one of its group stays selected |
| Dedup.ReplaceSelected | src/provider/csharp.rs:525-530 | a record that strictly beats the current one becomes the selected one |
| Dedup.ValuesInKeyOrder | src/provider/csharp.rs:534 | reading the map's values in key order yields a deduplicated sequence |
| Dedup.SelectedIsMinimal | src/provider/csharp.rs:499-501 | no record of the group has a strictly smaller rank than the selected one |
| Dedup.SelectedUnique | src/provider/csharp.rs:525-530 | at most one record of a group is selected |
| Dedup.OnePerKey | src/provider/csharp.rs:505-534 | every input key has an output record, and no two output records share a key |
| Dedup.KeptIsFirstMinimal | src/provider/csharp.rs:499-501 | each output record comes from the input and no record of its group ranks strictly below it |
| Dedup.Deterministic | src/provider/csharp.rs:596-624 | the input fixes the output uniquely |
| Dedup.PermutationInvariant | src/provider/csharp.rs:643-705 | reordering the input leaves the output's length, keys and ranks unchanged |
| Dedup.SelfDeduplicated | src/provider/csharp.rs:499-535 | an output has nothing left to deduplicate |
| Dedup.Idempotent | src/provider/csharp.rs:499-535 | deduplicating an output again returns it unchanged |
| Dedup.DistinctMultiplicity | src/provider/csharp.rs:505-534 | in a sequence without repeats every record occurs once |
| Dedup.DistinctKeysReordered | src/provider/csharp.rs:505-534 | when all input keys differ, the output holds exactly the input's records, reordered |
| Dedup.EmptyExactlyWhenInputEmpty | src/provider/csharp.rs:418-443 | the output is empty exactly when the input is, so `matched` reflects whether the query found anything |
| DedupExamples.KeepsSmallestSpan | src/provider/csharp.rs:567-594 | of spans 5, 2 and 10 on one line the span-2 match is kept, alongside the other file's match |
| DedupExamples.PicksCharacterFive | src/provider/csharp.rs:596-624 | of spans 5, 2, 10 and 3 on one line the single span-2 match, starting at character 5, is the single result |
| DedupExamples.PrefersEarlierCharacter | src/provider/csharp.rs:626-641 | among equal spans the earliest start character wins |
| DedupExamples.TightestSpanPerLine | src/provider/csharp.rs:707-795 | lines 179, 240 and 241 each keep their single-line match, and the other file keeps its own |
| DedupExamples.AdjacentLinesStaySeparate | src/provider/csharp.rs:797-820 | matches on lines 179, 180 and 181 are not merged |
| DedupExamples.FirstSeenWinsTies | src/provider/csharp.rs:525-530 | two matches of one line with equal span and characters but on different source lines tie; the one seen first is kept, so the two input orders give outputs with different start lines |
| Query.LocationOrDefault | src/provider/csharp.rs:31-42 | a condition without `location` takes the serde default `All` |
| Query.QueryFor | src/provider/csharp.rs:377-394 | the query runs over the project's graph and the looked-up source type |
| Query.QueryForDistinguishesLocations | src/provider/csharp.rs:28-45 | different locations select different query modes; an absent location queries everything |
| TargetFramework.IsModernDotnet | src/provider/csharp.rs:142-148 | the `is_modern_dotnet` expression as written, `&&` binding tighter than `\|\|`; its meaning is stated by the lemmas below |
| TargetFramework.SpawnsSdkTask | src/provider/csharp.rs:132-166 | the SDK task is spawned exactly when a framework was detected, it is modern, and an install command is configured |
| TargetFramework.ModernByFourthCharacter | src/provider/csharp.rs:142-148 | a framework is modern exactly when it starts with `net` and is not followed by 1 to 4 |
| TargetFramework.PrecedenceDoesNotMatter | src/provider/csharp.rs:142-148 | reading the predicate with `\|\|` binding tighter gives the same classification |
| TargetFramework.Classifications | src/provider/csharp.rs:127-148 | net5.0, net8.0, netcoreapp and netstandard are modern; net472, net48, net10.0 and non-`net` names are not |
| TargetFramework.SdkTaskResult | src/provider/csharp.rs:166-199 | a failed install gives its error; after an install, a failed lookup gives its error; no XML files gives `Ok(0)`; otherwise the load's own result |
| Evaluation.DecimalDigits | src/provider/csharp.rs:421 | the line number prints as one or more decimal digits |
| Evaluation.Decimal | src/provider/csharp.rs:421 | `{:?}` of the `i64` line number: a minus sign for negative values, then the digits |
| Evaluation.DecimalReadsBack | src/provider/csharp.rs:421 | the printed line number reads back as the number, with its sign |
| Evaluation.LineNumberOrZero | src/provider/csharp.rs:421 | `line_number()`: the incident's line, or 0 when absent |
| Evaluation.SortKey | src/provider/csharp.rs:421 | the key `format!("{}-{:?}", file_uri, line_number())` |
| Evaluation.SortKeyReadsBack | src/provider/csharp.rs:421 | the key starts with the file URI and a dash, and the rest reads back as the line number |
| Evaluation.DecimalDigitsRoundTrip | src/provider/csharp.rs:421 | the printed digits read back as the line number |
| Evaluation.LeTransitive | src/provider/csharp.rs:421 | the order on sort keys is transitive |
| Evaluation.ChainLe | src/provider/csharp.rs:421 | along a chain of neighbours in key order, the first is in order with the last |
| Evaluation.AdjacentSortedIsSorted | src/provider/csharp.rs:421 | sorted neighbour by neighbour means sorted pair by pair |
| Evaluation.SortIncidents | src/provider/csharp.rs:420-421 | afterwards the incidents are sorted by key and are a permutation of the ones before |
| Evaluation.SinkInto | src/provider/csharp.rs:421 | one insertion step extends the sorted prefix by one and keeps the same incidents |
| Evaluation.SwapKeepsOrder | src/provider/csharp.rs:421 | exchanging an out-of-order pair at the gap moves the gap down and keeps the rest in order |
| Evaluation.SwapDown | src/provider/csharp.rs:421 | an exchange of two neighbours changes only those two positions and keeps the same incidents |
| Evaluation.ConvertAll | src/provider/csharp.rs:420 | each incident is the conversion of the record at the same position |
| Evaluation.IsResponseTo | src/provider/csharp.rs:396-449 | the response for each query outcome: not found, another error, or the sorted, converted deduplication with `matched` exactly when non-empty |
| Evaluation.Respond | src/provider/csharp.rs:396-449 | "not found" gives a successful unmatched empty answer; another error is reported unsuccessful; matches give a sorted permutation of the converted deduplication, with `matched` exactly when it is non-empty, which is exactly when there were matches |
| Evaluation.LineTenSortsBeforeLineNine | src/provider/csharp.rs:421 | the key is compared as a string, so `f.cs-10` sorts before `f.cs-9` |
| Evaluation.MissingLineSortsAsZero | src/provider/csharp.rs:421 | an incident without a line number sorts as line 0 |
| Provider.InitResult | src/provider/csharp.rs:95-282 | `init` succeeds with id 4 exactly when tools, validation, graph loading and joining resolution succeed; only a tools failure is `InvalidArgument` |
| Provider.SdkJoin | src/provider/csharp.rs:254-266 | awaiting the SDK task yields the panic, if the task panicked, and otherwise the task's own result |
| Provider.InitIgnoresNonFatalSteps | src/provider/csharp.rs:129-282 | detection, the SDK task, the resolution's own result and loading into the database never change `init`'s answer |
| Provider.Project.constructor | src/provider/csharp.rs:103-108 | a new project carries the configured location, analysis mode and tools, the provider's database path and no target framework |
| Provider.Project.SetTargetFramework | src/provider/csharp.rs:137 | the detected framework is recorded on the project |
| Provider.CSharpProvider.constructor | src/provider/csharp.rs:60-67 | a new provider has no configuration and no project |
| Provider.CSharpProvider.Capabilities | src/provider/csharp.rs:73-93 | exactly one capability, `referenced`, is offered; a schema that cannot be rendered is an `Unknown` failure |
| Provider.CSharpProvider.Init | src/provider/csharp.rs:95-282 | the configuration is always saved; after tools are found a new project is installed even if a later fatal step fails; the SDK task is spawned exactly for a modern detected framework with an install command, awaited on success and detached on failure |
| Provider.CSharpProvider.Evaluate | src/provider/csharp.rs:317-461 | the capability check, parse failure, missing project or source type, and otherwise the response for the query the location selects |

## Left out

- Locks, async execution and mutex poisoning (the project and graph locks, `clear_poison`) are not modelled; each call runs to completion on its own.
- Logging is not modelled.
- `prepare`, `stream_prepare_progress`, `stop`, `get_dependencies`, `get_dependencies_dag` and `notify_file_changes` are not modelled. They return fixed empty responses; `stream_prepare_progress` also sends one progress event from a spawned task.
- The OpenAPI schema rendering in `capabilities` is an input: its string or its error.
- YAML parsing of the condition is an input: the parsed condition, or none when parsing fails.
- Tool discovery, target-framework detection, the SDK install, XML lookup and XML load, validation, graph loading, dependency resolution, loading into the database, the source-type lookup, the query engine and the `ResultNode`→`IncidentContext` conversion are inputs. Their implementations are not part of this model.
- `AnalysisMode::from` is not modelled; the analysis mode is kept as the configured string.
- Provider.CSharpProvider.Evaluate: `evaluate` panics when the project has no loaded graph (`graph_option.as_ref().unwrap()`). The model's project always has a graph object, so this panic is not represented.
- Results.Span: a debug build panics on an end line before the start line; the model wraps around as a release build does.
- Evaluation.SortIncidents: `sort_by_key` is stable; the model sorts by adjacent swaps of strictly out-of-order keys, which is stable too, but the contract states only sortedness and permutation, not stability.
- Dedup.PermutationInvariant: with ties (equal key and rank, differing in bindings or in start and end lines with the same span), which record is kept depends on input order (`FirstSeenWinsTies`); the contract therefore states equality of keys and ranks, not of whole records.
- Provider.CSharpProvider.Init: the unreachable branch where the freshly installed project is missing is not modelled.
- Provider.CSharpProvider.Init: the spawned task's effect on the database is not modelled; only its result is.
