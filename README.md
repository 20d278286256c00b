# Quiz generation and grading, modelled in Dafny

The exam-review website builds a quiz in the browser. A prompt asks a
language model for an exact number of questions of the allowed types. The
reply text loses its markdown fences and is parsed as JSON. The loosely
shaped items are normalised into typed questions. Questions of other types
are dropped. The batch is then either brought to exactly the requested count
or cut to it. To reach the count, the pipeline removes duplicate texts, pads
with deterministic filler questions and renumbers 1..N. On the quiz page the
answers are kept in per-question records. Submitting grades the
multiple-choice and matching questions automatically and sends written
questions to manual review.

This project models that core:

- `basics.dfy`: `Option`, `Result`, `Min` and `Max`.
- `text.dfy`: the string operations the source relies on, namely `trim`,
  whitespace collapsing, lower-casing, `parseInt`, `Number` on strings,
  printing of integers and `join`.
- `json.dfy`: parsed JSON values, `String(v)` and `Number(v)`.
- `types.dfy`: the question union of `src/types.ts`, its well-formedness and
  renumbering.
- `fillers.dfy`: `pick` and `createFillerQuestion`.
- `exact_count.dfy`: `ensureExactCount`.
- `normalize.dfy`: `normalizeQuestions`.
- `generate.dfy`, for `generateQuizQuestions`:
  - the fence strip of `callOnce`
  - the single retry
  - the option defaults
  - picking the list out of the parsed value
  - the type filter
  - the count enforcement or the slice
- `prompt.dfy`: `buildPrompt`.
- `answers.dfy`: the answer records, with `handleAnswerSelect`,
  `handleWrittenAnswer` and `handleMatchingAnswer`.
- `grading.dfy`: `arraysEqual` and `handleSubmitQuiz`.
- `controls.dfy`: the Previous/Next page clamps and `estimateGenerationMs`.

The code that works step by step becomes methods with loops, each proved
equal to a specification function:

- `KeepFirstByKey`, `PadWithFillers` and `EnsureExactCount`.
- `MapWithCounter`, `CollectPairs` and `NormalizeQuestions`.
- `GenerateQuizQuestions`.
- `ArraysEqual` and `SubmitQuiz`.

The answer records of the quiz page are fields of the class
`AnswerSheet`. Its handlers modify those fields. The lemmas prove the
promised properties about the specification functions.

Two behaviours of the code worth knowing; the model follows the
code:

- **Null items.** `normalizeQuestions` reads `q.type` from every item, so
  a `null` item makes it throw a `TypeError`. `generateQuizQuestions` does
  not catch this error. The model returns `Failure(NullItemError)` for such
  an item (`Normalize.Normalized`, `Generate.PostProcessFails`). Other
  malformed fields fall back to defaults.
- **Matching classification.** An item counts as matching only if its tag
  is `matching`, or if it has an `items` array next to a `matches` or
  `rightItems` array. An item that only has `leftItems` and `rightItems`,
  with no tag, is classified as written.

## Model

| member | source | states |
|---|---|---|
| Text.Trim | src/gpt.ts:107 | `trim` never lengthens a string (see `Text.TrimSpec`) |
| Text.TrimSpec | src/gpt.ts:107 | a trimmed string is empty exactly when the string is all whitespace, and otherwise starts and ends with a non-space |
| Text.TrimExact | src/promptBuilder.ts:19 | trimming a core between whitespace gives exactly that core |
| Text.TrimIdempotent | src/gpt.ts:230-232 | trimming twice is trimming once |
| Text.Lower | src/gpt.ts:131 | `toLowerCase` keeps the length |
| Text.TrimLower | src/gpt.ts:107 | trimming and lower-casing commute |
| Text.CollapseWhitespace | src/gpt.ts:107 | replacing each whitespace run by one space never lengthens a string (its content is stated by `Text.CollapseKeepsNonSpace` and `Text.CollapseKeepsSingleSpaced`) |
| Text.CollapseKeepsNonSpace | src/gpt.ts:107 | the collapse keeps every character that is not whitespace, in order, and adds none |
| Text.CollapseKeepsSingleSpaced | src/gpt.ts:107 | a string whose whitespace is already single spaces comes through the collapse unchanged |
| Text.NonSpaceTrim | src/gpt.ts:107 | trimming keeps every character that is not whitespace |
| Text.NonSpaceLower | src/gpt.ts:107 | lower-casing and keeping the non-whitespace characters commute |
| Text.CollapseBlank | src/gpt.ts:107 | collapsing keeps a string blank exactly when it was blank |
| Text.CollapseLower | src/gpt.ts:107 | collapsing whitespace and lower-casing commute |
| Text.CollapseSingleSpaced | src/gpt.ts:107 | after collapsing, every whitespace character is a single space followed by a non-space |
| Text.CollapseRun | src/gpt.ts:107 | any non-empty whitespace run collapses the same as one space |
| Text.ParseInt | src/App.tsx:573 | `parseInt(s, 10)`: leading whitespace, an optional sign, then the longest digit run (stated by `Text.ParseIntSpec`) |
| Text.ParseIntSpec | src/App.tsx:573 | `parseInt` is NaN exactly when no digit follows the optional sign, and otherwise is the signed value of the whole digit run |
| Text.StringToNumber | src/gpt.ts:134 | `Number(s)` on integer strings (stated by `Text.StringToNumberBlank` and `Text.IntToStringNumber`) |
| Text.StringToNumberBlank | src/gpt.ts:134 | `Number` of a blank string is 0 |
| Text.IntToString | src/promptBuilder.ts:23 | a printed integer is never empty |
| Text.IntToStringShape | src/promptBuilder.ts:23 | a printed integer is an optional minus and the digits of its magnitude, with no outer whitespace |
| Text.IntToStringNumber | src/promptBuilder.ts:23 | `Number` of a printed integer is that integer |
| Text.IntToStringParseInt | src/App.tsx:573 | `parseInt` of a printed integer is that integer |
| Text.Join | src/promptBuilder.ts:66 | `join` puts the separator between consecutive parts (stated by `Text.JoinFour`) |
| Text.JoinFour | src/promptBuilder.ts:82 | joining four parts is the parts with the separator between each two |
| Fillers.PickWraps | src/gpt.ts:15-17 | picking wraps around: index `i + len` gives the same element as `i` |
| Fillers.Pick | src/gpt.ts:15-17 | the picked element is always one of the array's elements |
| Fillers.FindIndex | src/gpt.ts:24-26 | the first preferred type that is allowed, with no earlier one allowed; `None` when none is |
| Fillers.FillerTypeOrder | src/gpt.ts:24-26 | the filler type is multiple-choice iff that is allowed, matching iff multiple-choice is not allowed and matching is, and written otherwise |
| Fillers.FillerTypeAllowed | src/gpt.ts:24-26 | with a non-empty allowed list, the filler type is one of the allowed types |
| Fillers.FillerType | src/gpt.ts:24-26 | the filler type is an allowed type, or `written` when none of the three preferred types is allowed |
| Fillers.MultipleChoiceFiller | src/gpt.ts:28-53 | the multiple-choice filler keeps its id, is worth 1 point and is well formed; it has 4 options and answer key 0 |
| Fillers.MatchingFiller | src/gpt.ts:55-78 | the matching filler keeps its id, is worth 1 point and is well formed; it has 3 left and 3 right items and key [0, 1, 2] |
| Fillers.WrittenFiller | src/gpt.ts:80-94 | the written filler keeps its id, is worth 1 point, is well formed and has one answer box |
| Fillers.CreateFillerQuestion | src/gpt.ts:19-95 | the filler has the given id, 1 point and the preferred allowed type, and is well formed |
| Fillers.MultipleChoiceFillerContent | src/gpt.ts:29-42 | the stem comes from the five stems and the options from the three option sets, both for the topic |
| Fillers.MatchingFillerContent | src/gpt.ts:56-67 | the left and right items come from the same bank |
| Fillers.WrittenFillerContent | src/gpt.ts:80-89 | the text is one of the four written prompts for the topic |
| Fillers.StemsDistinct | src/gpt.ts:29-35 | the five stems differ pairwise for every topic |
| Fillers.PromptsDistinct | src/gpt.ts:80-85 | the four written prompts differ pairwise for every topic |
| Fillers.MultipleChoiceTextsDiffer | src/gpt.ts:42 | multiple-choice fillers fewer than 5 positions apart have different texts |
| Fillers.WrittenTextsDiffer | src/gpt.ts:89 | written fillers fewer than 4 positions apart have different texts |
| Fillers.FillerTextsDiffer | src/gpt.ts:19-95 | non-matching fillers closer than the stem bank's size have different texts |
| Fillers.MatchingFillersDiffer | src/gpt.ts:66-67 | neighbouring matching fillers differ, because their banks do |
| Fillers.ConsecutiveFillersDiffer | src/gpt.ts:19-95 | two consecutive fillers are never the same question |
| Fillers.MultipleChoiceFillerRepeats | src/gpt.ts:41-42 | the multiple-choice content repeats with period 15 (5 stems × 3 option sets) |
| Fillers.MatchingFillerRepeats | src/gpt.ts:66-67 | the matching content repeats with period 3 |
| Fillers.WrittenFillerRepeats | src/gpt.ts:89 | the written content repeats with period 4 |
| Fillers.FillerAtNumbered | src/gpt.ts:116 | the filler pushed at position p gets id p + 1 |
| Fillers.FillerAtAllowed | src/gpt.ts:116 | every filler at every position has an allowed type and is well formed |
| ExactCount.Key | src/gpt.ts:107 | the de-duplication key is never longer than the question text; `ExactCount.KeyKeepsContent` and `ExactCount.KeyOfNormal` state that it keeps the text's content |
| ExactCount.KeyKeepsContent | src/gpt.ts:107 | the key holds exactly the text's non-whitespace characters, lower-cased and in order |
| ExactCount.KeyOfNormal | src/gpt.ts:107 | a text that is single-spaced, has no upper-case letter and no outer whitespace is its own key |
| ExactCount.KeysSeparateNormalTexts | src/gpt.ts:107-108 | two different texts in that normal form get different keys, so neither is dropped as a duplicate of the other |
| ExactCount.KeyIdempotent | src/gpt.ts:107 | normalising a key again gives the same key |
| ExactCount.KeyOfLower | src/gpt.ts:107 | lower-casing first and then collapsing and trimming gives the same key |
| ExactCount.KeyFoldsCase | src/gpt.ts:107 | texts that differ only in letter case have the same key, and lowering a text does not change its key |
| ExactCount.KeyCollapsesRuns | src/gpt.ts:107 | replacing any run of whitespace inside a text by one space does not change its key |
| ExactCount.KeyShape | src/gpt.ts:107 | a key has no upper-case letter, no whitespace at either end, and its only whitespace is single spaces |
| ExactCount.KeyBlank | src/gpt.ts:107-108 | a question's key is blank exactly when its text is all whitespace |
| ExactCount.Dedup | src/gpt.ts:103-112 | de-duplication never lengthens the list |
| ExactCount.DedupKeys | src/gpt.ts:103-112 | the kept keys are exactly the non-blank keys of the input |
| ExactCount.IsFirstOccurrenceIff | src/gpt.ts:108 | an element is kept iff its key is non-blank and not seen before it |
| ExactCount.DedupIsFirstOccurrences | src/gpt.ts:103-112 | the kept list is the first occurrences of each key, in input order |
| ExactCount.DedupKeysDistinct | src/gpt.ts:103-112 | kept keys are non-blank and pairwise different; there are as many keys as kept elements |
| ExactCount.DedupFromItems | src/gpt.ts:103-112 | de-duplication only keeps input questions |
| ExactCount.FillerRun | src/gpt.ts:115-117 | the padding has `max(0, to - from)` fillers |
| ExactCount.FillerRunStep | src/gpt.ts:115-117 | one more turn of the padding loop appends the filler for the next position |
| ExactCount.PaddedShape | src/gpt.ts:114-121 | exactly `total` questions numbered 1..total: the kept ones first, changed only in id, then the fillers for their positions |
| ExactCount.PaddedContainment | src/gpt.ts:114-121 | if the kept questions and the fillers are allowed and well formed, so is the result |
| ExactCount.ExactCountLayout | src/gpt.ts:97-122 | `ensureExactCount` returns `total` questions with ids 1..total, starting with the first occurrences and ending with fillers |
| ExactCount.ExactCountContainment | src/gpt.ts:97-122 | allowed, well-formed input gives an allowed, well-formed output |
| ExactCount.ExactCountUniqueKeys | src/gpt.ts:97-122 | the kept part of the output has pairwise different keys |
| ExactCount.KeepFirstByKey | src/gpt.ts:104-112 | the loop with the `seen` set computes the de-duplicated list |
| ExactCount.PadWithFillers | src/gpt.ts:115-117 | the `while` loop appends exactly the fillers for positions `len+1..total` |
| ExactCount.ExactCountOf | src/gpt.ts:97-122 | the padded list has exactly `total` questions with ids 1..total |
| ExactCount.EnsureExactCount | src/gpt.ts:97-122 | the method returns the specified list, of length `total` with ids 1..total |
| Json.Get | src/gpt.ts:131-137 | a property is present exactly on an object that has the key, with that key's value |
| Json.ToStr | src/gpt.ts:142 | `String(v)` of a string is the string itself |
| Json.Strings | src/gpt.ts:142 | mapping `String` over an array keeps its length and converts element by element |
| Json.ToNumber | src/gpt.ts:134 | `Number` of a number is that number; of an absent property it is NaN |
| Json.NumericStringCoerces | src/gpt.ts:184 | `Number` of a printed integer gives that integer back |
| Normalize.TypeTag | src/gpt.ts:131 | the type tag is the lower-cased string of `q.type`, "" when it is missing, and never contains an upper-case letter |
| Normalize.Points | src/gpt.ts:136 | points are the number given in `q.points`, and 1 for anything that is not a number |
| Normalize.Explanation | src/gpt.ts:137 | the explanation is present exactly when `q.explanation` is a string, and is then that string |
| Normalize.StringOr | src/gpt.ts:131-135 | `String(x ?? '')` is the string itself for a string, and "" for a missing or null value |
| Normalize.OwnId | src/gpt.ts:134 | the own id is kept exactly when `Number(q.id)` is a number other than 0 (not NaN), and is then that number; a missing id, 0 or NaN leaves the id to the counter |
| Normalize.Options | src/gpt.ts:141-142 | options are the strings of `q.options` when it is an array, else of `q.choices` when that is an array, else empty |
| Normalize.CorrectIndex | src/gpt.ts:144-147 | `correctIndex` is kept iff it is an integer inside the options; then it is unchanged |
| Normalize.PairOf | src/gpt.ts:172-178 | an object with `left` and `right` gives their strings, an array of two or more gives its first two as strings, and nothing else is a usable pair |
| Normalize.PairLists | src/gpt.ts:170-180 | the `pairs` shape gives left and right lists of equal length, one entry per usable pair (see `Normalize.PairListsAt` for the entries) |
| Normalize.PairListsAt | src/gpt.ts:170-180 | each usable pair lands, in order, at left and right position equal to the number of usable pairs before it |
| Normalize.MatchLists | src/gpt.ts:164-180 | `items`/`matches` win, then `leftItems`/`rightItems`, then `pairs` (with equal lengths), else both lists are empty |
| Normalize.CollectPairs | src/gpt.ts:170-180 | the `forEach` loop pushes exactly those lists |
| Normalize.CorrectMatches | src/gpt.ts:182-189 | `correctMatches` is kept whole iff it has one entry per left item, each `Number` of which indexes the right items; otherwise it is dropped |
| Normalize.ExpectedAnswers | src/gpt.ts:203-205 | expected answers are present exactly when `q.expectedAnswers` is an array, and are then its strings |
| Normalize.AnswerBoxes | src/gpt.ts:200-201 | the box count is `Number(answerBoxes)` when positive, else 1 |
| Normalize.NormalizeItem | src/gpt.ts:130-213 | every item becomes a well-formed question of a generated type with the settled id |
| Normalize.NormalizeItemFields | src/gpt.ts:130-212 | text, points and explanation of every normalised item are those of the field helpers, and each type's body is built from its field helpers |
| Normalize.FallbacksStep | src/gpt.ts:134 | the counter advances exactly on items without their own id |
| Normalize.MapNumbered | src/gpt.ts:130-213 | the map yields one question per item |
| Normalize.MapNumberedAt | src/gpt.ts:130-134 | question k is item k converted with its settled id |
| Normalize.MapWithCounter | src/gpt.ts:128-134 | the loop with `nextId` fails exactly when some item is null, and otherwise yields the specified list |
| Normalize.Normalized | src/gpt.ts:126-213 | normalising fails exactly when the list holds a null item (with the null-item error), and otherwise gives one question per item |
| Normalize.NormalizeQuestions | src/gpt.ts:126-213 | the method computes the specified result |
| Normalize.NormalizedOutcome | src/gpt.ts:126-213 | it fails iff some item is null; otherwise one question per item, each well formed and of a generated type |
| Normalize.FallbacksGrow | src/gpt.ts:134 | the counter never goes back |
| Normalize.CounterIds | src/gpt.ts:128-134 | an own id is kept; otherwise the id is 1 plus the number of earlier items without one; counter ids grow strictly; the first such id is 1 |
| Normalize.Classification | src/gpt.ts:131-160 | multiple-choice iff the lower-cased tag is one of its three spellings; matching iff not that and the matching test holds; written otherwise |
| Normalize.UpperCaseTagAndChoices | src/gpt.ts:131-142 | illustration beside the all-inputs `Normalize.TypeTag` and `Normalize.Options` contracts: an `MCQ` tag with a `choices` array gives a multiple-choice question with the choices as strings |
| Normalize.EmptyItemDefaults | src/gpt.ts:133-212 | illustration beside `Normalize.NormalizeItemFields`: an empty object becomes a written question with text "", 1 point, 1 box and no answers |
| Normalize.CorrectIndexKept | src/gpt.ts:144-147 | the key is k iff the item's `correctIndex` is the number k inside the options |
| Normalize.PairsBalanced | src/gpt.ts:170-189 | through `pairs`, both lists and any kept key have one entry per usable pair |
| Types.Reindex | src/gpt.ts:120-121 | renumbering keeps the length, numbers 1..N and changes nothing but the ids |
| Types.ReindexDenseIsIdentity | src/gpt.ts:121 | renumbering a list already numbered 1..N changes nothing |
| Types.ReindexKeepsShape | src/gpt.ts:121 | renumbering keeps each question's type and well-formedness |
| Generate.StripFences | src/gpt.ts:230-233 | the cleaned reply is never longer than the raw reply |
| Generate.DropOpeningFence | src/gpt.ts:232 | removing the opening fence drops at least its three backticks |
| Generate.DropClosingFence | src/gpt.ts:232 | removing the closing fence never lengthens the text |
| Generate.StripFencesTrimmed | src/gpt.ts:230-233 | the cleaned text has no whitespace at either end |
| Generate.StripFencesUnfenced | src/gpt.ts:230-233 | text without a leading fence is only trimmed |
| Generate.OpeningFenceDropped | src/gpt.ts:232 | the opening fence and an optional `json` tag, in any case, are removed |
| Generate.ClosingFenceDropped | src/gpt.ts:232 | a trailing fence is removed |
| Generate.StripFencesRoundTrip | src/gpt.ts:230-233 | a trimmed body wrapped in whitespace and fences, optionally tagged `json`, comes back exactly as it was |
| Generate.CallOnce | src/gpt.ts:218-235 | `callOnce` fails exactly when the request fails |
| Generate.RetryPrompt | src/gpt.ts:264-266 | the retry prompt is the original prompt followed by the uniqueness reminder |
| Generate.NoRetryWhenParsed | src/gpt.ts:251-261 | a first reply that parses is used as it is |
| Generate.ParsedReply | src/gpt.ts:251-273 | the parsed value is the parse of the first reply, or else the parse of the retried reply, or else the empty array |
| Generate.RetryOutcome | src/gpt.ts:259-273 | after a failed parse, a retried reply that parses is used; otherwise the result is the empty list |
| Generate.EffectiveCount | src/gpt.ts:243 | the count is at least 1, defaults to 5 and is otherwise `max(1, count)` |
| Generate.EffectiveAllowed | src/gpt.ts:244-247 | the allowed list is never empty: the given one, or all three types when none is given |
| Generate.EffectiveTopic | src/gpt.ts:248 | the topic is the given one when it is non-empty; a missing or empty topic becomes "this subject"; the result is never empty |
| Generate.Enforce | src/gpt.ts:249 | exact count is enforced unless `enforceExactCount` is given as false, and then equals the given value |
| Generate.TopLevelItems | src/gpt.ts:276-283 | a top-level array is the item list; otherwise an array under `items`, then under `questions`; anything else gives no items |
| Generate.TopLevelItemsShapes | src/gpt.ts:275-283 | illustrations beside the all-inputs `Generate.TopLevelItems` contract: on an object with both lists `items` wins, `questions` is used when `items` is missing or not an array, and a non-container gives no items |
| Generate.FilterAllowed | src/gpt.ts:288 | filtering never lengthens the list |
| Generate.FilterAllowedSpec | src/gpt.ts:288 | a question survives the filter iff it is in the input and has an allowed type |
| Generate.FilterAllowedKeepsAll | src/gpt.ts:288 | when every question already has an allowed type, the filter changes nothing |
| Generate.PostProcess | src/gpt.ts:276-296 | post-processing fails exactly when a top-level item is null, and never returns more than the effective count |
| Generate.PostProcessFails | src/gpt.ts:285 | the pipeline rejects exactly when some item is null, with the null-item error |
| Generate.PostProcessExactCount | src/gpt.ts:291-293 | with enforcement on, the result has exactly `count` questions numbered 1..count |
| Generate.PostProcessSliced | src/gpt.ts:295-296 | with enforcement off, the first `min(count, n)` filtered questions, renumbered and otherwise unchanged |
| Generate.PostProcessContainment | src/gpt.ts:285-296 | every returned question has an allowed type and is well formed |
| Generate.FailedCallGivesFillers | src/gpt.ts:253-293 | when the request fails, the result is `count` fillers |
| Generate.GenerateQuizQuestions | src/gpt.ts:239-297 | the method computes the specified result |
| Prompt.BuildPrompt | src/promptBuilder.ts:82 | the prompt joins schema, rules, topic line and reference block with blank lines (stated by `Prompt.BuildPromptSections`) |
| Prompt.Schema | src/promptBuilder.ts:22-62 | the trimmed schema text for the count and answer setting (stated by `Prompt.SchemaTrimmed`, `Prompt.SchemaDemandsCount`, `Prompt.SchemaAnswers`) |
| Prompt.Rules | src/promptBuilder.ts:64-73 | the trimmed rules text for the types (stated by `Prompt.RulesTrimmed` and `Prompt.RulesShape`) |
| Prompt.TopicLine | src/promptBuilder.ts:75 | the topic line is the topic with `Topic: ` before it and `.` after it, so eight characters longer |
| Prompt.TypeName | src/promptBuilder.ts:66 | each type has its non-empty wire name |
| Prompt.TypeNames | src/promptBuilder.ts:66 | the names are listed in the order of the types |
| Prompt.WithAnswers | src/promptBuilder.ts:20 | answers are on when `withAnswers` is absent, and otherwise equal its given value, so only an explicit false turns them off |
| Prompt.Reference | src/promptBuilder.ts:19 | a missing reference is ""; a given one is trimmed, and the result is blank exactly when the reference is all whitespace |
| Prompt.SchemaTrimmed | src/promptBuilder.ts:22-62 | trimming the schema template removes exactly its outer newlines |
| Prompt.RulesTrimmed | src/promptBuilder.ts:64-73 | trimming the rules template removes exactly its outer newlines |
| Prompt.RefBlockTrimmed | src/promptBuilder.ts:76-80 | trimming the reference template removes exactly its leading newline |
| Prompt.BuildPromptSections | src/promptBuilder.ts:82 | the prompt is the schema, rules, topic line and reference block, in that order, separated by blank lines |
| Prompt.SchemaDemandsCount | src/promptBuilder.ts:23 | the schema opens with "Make EXACTLY <count> questions" |
| Prompt.SchemaAnswers | src/promptBuilder.ts:30-61 | without answers every answer slot of the schema is empty; with answers they hold `correctIndex`, `expectedAnswers`, `correctMatches` and `explanation` |
| Prompt.RulesShape | src/promptBuilder.ts:64-73 | the rules open with the allowed types joined by ", " and end with the answer rule set by `withAnswers` |
| Prompt.TopicLineHoldsTopic | src/promptBuilder.ts:75 | the topic line holds the topic unchanged between "Topic: " and "."; an empty topic gets no fallback |
| Prompt.RefBlockShows | src/promptBuilder.ts:19-80 | for every input the reference block is the intro line, then the trimmed reference (or "None" when it is blank) between `---` lines |
| Prompt.RefBlockShowsCore | src/promptBuilder.ts:19-80 | a reference made of a core between whitespace shows exactly that core in the block, or "None" when the core is empty |
| Prompt.TypesJoined | src/promptBuilder.ts:66 | illustrations beside `Prompt.RulesShape`: two types are joined by ", "; no types give an empty list |
| Answers.WrittenUpdate | src/App.tsx:553-562 | a written answer adds only its question's entry, leaves every other entry alone, and stores the value at the answer index |
| Answers.MatchingUpdate | src/App.tsx:564-580 | a matching answer adds only its question's entry, leaves every other entry alone, and never shortens that entry |
| Answers.Given | src/App.tsx:557 | the stored array of a question, or [] when there is none |
| Answers.SetSlot | src/App.tsx:558 | assigning a slot sets it, grows the array with holes if needed and keeps every other slot |
| Answers.ClearSlot | src/App.tsx:571 | deleting a slot makes it a hole and keeps the length and every other slot |
| Answers.WrittenUpdateOnlySlot | src/App.tsx:553-562 | a written answer changes one box of one question; other questions and boxes stay as they were |
| Answers.MatchingUpdateCases | src/App.tsx:564-580 | "" clears the slot, an unreadable choice leaves the array unchanged, a number sets the slot; other questions stay as they were |
| Answers.SetThenClear | src/App.tsx:558-571 | setting a slot and then deleting it leaves a hole there |
| Answers.SetSlotTwice | src/App.tsx:558 | a second value for the same slot replaces the first |
| Answers.AnswerSheet.constructor | src/App.tsx:212-215 | the sheet starts with no answers |
| Answers.AnswerSheet.SelectAnswer | src/App.tsx:548-551 | marks the question answered and records the option; the other records stay as they were |
| Answers.AnswerSheet.WrittenAnswer | src/App.tsx:553-562 | marks the question answered and applies the written update; the other records stay as they were |
| Answers.AnswerSheet.MatchingAnswer | src/App.tsx:564-580 | marks the question answered and applies the matching update; the other records stay as they were |
| Grading.IsCorrect | src/App.tsx:643-685 | only a multiple-choice or matching question can be counted correct |
| Grading.CorrectCount | src/App.tsx:641-685 | the correct count never exceeds the number of questions |
| Grading.Score | src/App.tsx:687-688 | the score is 0 without auto-gradable questions, and otherwise `100 · correct / auto` rounded half up |
| Grading.ArraysEqual | src/App.tsx:611-615 | true iff the lengths are equal and the arrays agree at every index |
| Grading.Dense | src/App.tsx:660-661 | an answer key read as an array without holes |
| Grading.ReviewOf | src/App.tsx:644-684 | the review entry shows its question and explanation and is auto-graded iff the question is multiple-choice or matching |
| Grading.SubmitQuiz | src/App.tsx:633-698 | the grading loop computes the specified total, correct count, score and review list |
| Grading.CorrectAtMostAutoGradable | src/App.tsx:641-688 | the correct count never exceeds the number of auto-graded questions |
| Grading.EveryQuestionAccounted | src/App.tsx:641-685 | each question is either counted correct or reviewed; reviewed questions were not correct, and a review is auto-graded iff its question is |
| Grading.WrittenAlwaysReviewed | src/App.tsx:674-684 | every written question is in the review list, marked for manual grading |
| Grading.ScoreBounds | src/App.tsx:687-688 | the score lies in 0..100; it is 0 with none correct and 100 with all correct |
| Grading.GradedBounds | src/App.tsx:687-695 | total is the number of questions, correct ≤ auto-graded, and the score lies in 0..100 (0 with none auto-graded or none correct, 100 with all correct) |
| Grading.NoKeyNeverCorrect | src/App.tsx:645-647 | a multiple-choice question without a numeric key is always wrong |
| Grading.MatchingWithoutKey | src/App.tsx:660-662 | a matching question without a key is right iff no matches were chosen |
| Grading.MatchingCorrectIff | src/App.tsx:660-662 | chosen matches are right iff they have the key's length and agree with it everywhere |
| Controls.PreviousPage | src/App.tsx:1556 | Previous goes back one page but never below page 1 |
| Controls.NextPage | src/App.tsx:1563 | Next is a number exactly when the page count parses, and then goes forward one page but never past the page count |
| Controls.EstimateGenerationMs | src/App.tsx:438-442 | the estimate is 1500 ms plus 450 ms per question, capped at 45000 ms |
| Controls.PagesStayInRange | src/App.tsx:1556-1563 | from a page in [1, n], both buttons stay in [1, n] and move by one unless at the end |
| Controls.PagesClamp | src/App.tsx:1556-1563 | from any page, Previous gives at least 1 and Next at most the page count; an unreadable count gives NaN |
| Controls.EstimateCapped | src/App.tsx:438-442 | the estimate never exceeds 45000; it equals 45000 iff count ≥ 97 and is 1500 + 450·count below that |
| Controls.EstimateMonotone | src/App.tsx:438-442 | more questions never give a smaller estimate |

## Left out

- The network. The `fetch` of `callOnce`, its HTTP status check and the
  asynchronous control flow are replaced by a given function from prompt to
  `Response`. A failed request and a non-ok status are both `Failed`.
- A reply `content` that is present but not a string is not modelled.
  `Response` carries an optional string.
- `JSON.parse` is a given function `parse` from text to an optional value.
  `Generate.FailedCallGivesFillers` assumes that `parse("[]")` is the empty
  array.
- Numbers are integers. Fractions, infinities, `-0` and NaN in JSON and in
  the options are not modelled. A NaN `count` cannot be expressed, so the
  NaN that `Math.max(1, NaN)` would pass on is left out.
- `Text.StringToNumber` accepts only blank strings and optionally signed
  decimal digit runs. `Number` also accepts `"1e3"`, `"0x10"` and `"2.0"`,
  rounds integers beyond 2^53 and prints numbers of 1e21 and more in
  exponent form. None of this is modelled: these strings give NaN. So an
  id such as `"0x10"` is dropped and a `correctMatches` entry such as
  `"1.0"` invalidates the key, where the code would accept them.
- `String(v)` of arrays, objects and booleans and `Number(v)` of arrays and
  objects follow a simplified stringification.
- `trim`, `\s` and `toLowerCase` use ASCII whitespace
  (space, tab, LF, VT, FF, CR) and ASCII case folding. Unicode whitespace and
  non-ASCII case mappings are not modelled.
- `Prompt.SchemaAnswers`: the absence of answer keys when answers are off is
  stated as every answer slot of the schema being empty. No text search shows
  that the fixed schema text never mentions these keys.
- `Prompt.BuildPrompt` prints the count with integer printing only, since
  counts are integers.
- `Grading.ScoreBounds`: the score is computed exactly as
  `round(100 · correct / auto)` with halves rounded up. Floating-point error
  at the `.5` boundaries of `Math.round` is not modelled.
- `Fillers.CreateFillerQuestion` requires `id ≥ 1`, because `pick` takes a
  natural index. The only caller passes `unique.length + 1`, so
  JavaScript's negative remainder never arises.
- `Answers.AnswerSheet` indexes slots with natural numbers. An assignment
  at a negative index, which JavaScript stores as a plain property, is not
  modelled.
- `Controls.NextPage` takes the page count as the text the page keeps. A
  NaN page that a later Previous press would pass on is not followed.
  src/App.tsx:1563 calls `parseInt` without a radix, which would read a
  `0x` prefix as hexadecimal. The model reads decimal only. This makes no
  difference, because the page count comes from a `type="number"` input
  (src/App.tsx:961-965), which cannot hold a hex prefix.
- The user interface in `src/App.tsx` is not modelled:
  - rendering and styling
  - timers and `requestAnimationFrame`
  - localStorage
  - emailjs messages
  - DOMPurify sanitising
  - the helper coach geometry
  - scrolling
  - tab closing
- `src/AiGenerator.tsx`, `api/generate.ts`, `dev-api.mjs` and the ping
  handlers are not part of this model. They hold UI code and thin HTTP
  wrappers over the model SDK.
- The `written-dual` and `written-single` variants exist only in the
  question datatype, so that grading can match on them. The pipeline never
  produces them.
