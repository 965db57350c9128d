# AP content compiler — a Dafny model of the question pipeline

The AP content compiler generates practice exam questions for AP courses.
For each unit of a course it asks a language model for sets of
multiple-choice questions (25 per set) or free-response questions (5 per
set) as tab-separated rows. It parses and validates every row against the
unit's allow-lists of skill codes and learning-objective (LO) ids. It feeds
a digest of the rejected rows back to the model for up to four repair
rounds. It keeps the first full set, numbers it and counts each kept
question's LOs in a coverage tracker, so that later sets favour the
least-covered LOs.

Around this loop sit three other pieces:

- the extraction of the course description from its PDF: page chunking,
  the sampling of the second structure pass and the merge of per-chunk
  results;
- the two-phase image batch: the state files of submitted jobs, and the
  retrieval phase that fills downloaded images into the stored questions
  and polls the pending jobs;
- the building of image file names and image prompts.

This project models those pieces in Dafny and proves what they promise.

The model's replies are an input. A session takes one reply per call
(`RepairLoop.Reply`: the text, or a failed call). Given its replies, the
pipeline is deterministic except for one thing: the error digest shows a
group's invalid codes in the order of a Python set, which varies between
processes (see `ErrorSummary.Preview` under "Left out"). The model fixes
that order, so a fact proved for all reply sequences holds for every run
whose digest lists those codes in first-seen order. Other outside inputs
are parameters too:

- The SVG check, the pipe-table converter and the pipe-table detector are
  function parameters (`McqCompiler.Helpers`), as is the image model.
- The batch service's status checks, downloads and HTML rendering are also
  function parameters.
- The state directory is a map from file name to contents. Its listing
  order is a parameter.

Modules, one per source file or shared concern:

| module | file | models |
|---|---|---|
| `PyStrings` | strings.dfy | the Python `str` operations used: `strip`, `split`, `join`, `splitlines`, `str(int)`, `int(str)` |
| `StringOrder` | order.dfy | Python's string order and `sorted(set)` |
| `StableSort` | sorting.dfy | `list.sort(key=...)` on integer keys, stable |
| `Records` | records.dfy | course content, questions, rejection reports, allow-lists |
| `Rows` | rows.dfy | `parse_tsv` and the generic row-validation loop |
| `ErrorSummary` | summary.dfy | `summarize_invalid_reports` |
| `Utility` | utility.dfy | the rest of `utility_functions.py` |
| `RepairLoop` | repair.dfy | the generate-validate-repair session, ids and the coverage tracker |
| `McqCompiler` | mcq.dfy | `mcq_compiler.py` |
| `FrqCompiler` | frq.dfy | `frq_compiler.py` |
| `UnitContext` | unitcontext.dfy | the decisions of `build_unit_context` |
| `ImageGenerator` | imagegen.dfy | `utils/image_generator.py` |
| `PdfToJson` | pdf.dfy | `pdf_to_json.py` |
| `BatchState` | batchstate.dfy | `utils/batch_state_manager.py` |
| `BatchRetrieve` | batchretrieve.dfy | `batch_retrieve_and_render.py` |

## Model

| member | source | states |
|---|---|---|
| PyStrings.Strip | frq_compiler.py:84 | `strip` leaves no whitespace at either end, and gives "" exactly for a blank string |
| PyStrings.StripIdempotent | frq_compiler.py:84 | stripping twice equals stripping once |
| PyStrings.Split | frq_compiler.py:81 | `split(sep)` yields at least one piece and no piece contains the separator |
| PyStrings.JoinSplit | frq_compiler.py:81 | joining the pieces of a split with the separator gives back the string |
| PyStrings.SplitJoin | frq_compiler.py:81 | splitting a join of separator-free pieces gives back the pieces |
| PyStrings.SplitLines | mcq_compiler.py:614 | no line holds a line-break character |
| PyStrings.ParseIntOfStripped | mcq_compiler.py:196 | `int` ignores surrounding whitespace: parsing a stripped column gives the same result |
| PyStrings.ParseIntOfIntToString | mcq_compiler.py:654 | `int(str(i)) == i` for every integer |
| PyStrings.IntToStringInjective | mcq_compiler.py:654 | different integers print differently |
| PyStrings.PyPrefix | pdf_to_json.py:207 | `s[:k]` is a prefix of `s` of length `min(k, len(s))` for `k >= 0` |
| StringOrder.LessTransitive | frq_compiler.py:502-503 | the string order used by `sorted` is transitive |
| StringOrder.LessTotal | frq_compiler.py:502-503 | any two different strings are ordered one way or the other |
| StringOrder.LessIrreflexive | frq_compiler.py:502-503 | no string is below itself, so a strictly sorted list has no repeats |
| StringOrder.SortedUnique | frq_compiler.py:502-503 | two strictly sorted lists with the same elements are equal, so `sorted` of a set is determined by the set |
| StringOrder.InsertSorted | frq_compiler.py:326 | adding an element to a strictly sorted list keeps it strictly sorted and adds exactly that element |
| StringOrder.SortedSet | frq_compiler.py:502-503 | `sorted(set(xs))` is strictly sorted and holds exactly the elements of `xs` |
| StableSort.InsertByKey | utility_functions.py:248 | insertion keeps the list ascending and adds exactly the one element (as a multiset) |
| StableSort.SortByKey | utility_functions.py:248 | the sorted list is ascending by key and a permutation of the input |
| StableSort.SortStable | utility_functions.py:248 | the elements sharing a key keep their input order |
| Records.NonEmptyCommaItems | mcq_compiler.py:100 | the items of `[s for s in text.split(",") if s]` are non-empty and comma-free |
| Records.StripAll | mcq_compiler.py:96-98 | each column stripped, one for one |
| Rows.KeepNonBlank | mcq_compiler.py:614 | the filtered list is no longer than the input and holds no blank line |
| Rows.KeepNonBlankExact | mcq_compiler.py:614 | a line is kept exactly when it is one of the input lines and is not blank |
| Rows.NonBlankLines | mcq_compiler.py:614 | `[ln for ln in text.splitlines() if ln.strip()]` holds no blank line |
| Rows.ParseTsv | mcq_compiler.py:613-623 | the loop returns the rows as a value: one row per non-blank line, that line cut at every tab |
| Rows.TsvRowsRejoin | frq_compiler.py:726-736 | the rows as a value rejoin to the non-blank lines, and no cell holds a tab |
| Rows.Accepted | mcq_compiler.py:84-166 | every accepted question comes from a row the validator accepted, in row order |
| Rows.Rejected | mcq_compiler.py:84-122 | each report carries the 1-based number of a row the validator rejected, with its reason and detail; row numbers increase |
| Rows.PartitionCount | mcq_compiler.py:84-169 | accepted questions plus reports number exactly the rows |
| Rows.RejectedComplete | mcq_compiler.py:84-122 | every rejected row has a report carrying its number |
| Rows.ValidateRows | mcq_compiler.py:71-169 | the loop returns the accepted questions and reports of the rows, one outcome per row |
| McqCompiler.ValidateTsvRow | mcq_compiler.py:171-211 | no error exactly when the row is well formed (11 columns, known difficulty, non-blank fields, known stimulus type, index 0..3, payload iff the type is not none, no choice that looks like a table); a wrong column count is reported as such |
| McqCompiler.StrippedAccepted | mcq_compiler.py:96-166 | an accepted row becomes a question without id, built from the stripped columns, whose codes are all allowed and whose SVG or table passed its check |
| McqCompiler.StrippedReasons | mcq_compiler.py:100-122 | a skill failure is reported exactly when a skill code is not allowed; an LO failure exactly when the skills pass and an LO is not allowed |
| McqCompiler.AcceptedColumns | mcq_compiler.py:96-166 | an accepted row passed the row checks and was judged on its stripped columns |
| McqCompiler.McqAccepted | mcq_compiler.py:157-166 | an accepted question is a multiple-choice question with no id, inside the allow-lists, with `int(idx)` in 0..3 as its answer |
| McqCompiler.McqAcceptedContent | mcq_compiler.py:96-166 | the question holds the difficulty, the comma-split skill and LO codes, the stripped question and the four stripped choices A to D in order |
| McqCompiler.McqAcceptedStimulus | mcq_compiler.py:145-166 | the stimulus is none exactly for type none, the SVG payload for svg, and the converted table for table |
| McqCompiler.McqStimulusKind | mcq_compiler.py:145-155 | the stimulus is absent exactly for stimulus type none |
| McqCompiler.McqAcceptedIff | mcq_compiler.py:84-166 | a row is accepted exactly when it passes the row checks, all its codes are allowed and its SVG or table is valid |
| McqCompiler.McqRowInvalid | mcq_compiler.py:84-94 | `row_invalid` is reported exactly when the row checks fail, with the first failure's message as detail |
| McqCompiler.McqAllowListReasons | mcq_compiler.py:100-122 | for a well-formed row, skills are checked before LOs, and each failure carries the stripped column as detail |
| McqCompiler.McqYieldsOnly | mcq_compiler.py:517 | every question a reply yields is a multiple-choice question inside the allow-lists |
| McqCompiler.ValidateRowsIndividually | mcq_compiler.py:71-169 | one outcome per row, and every accepted question is inside the allow-lists |
| McqCompiler.ProcessSingleSet | mcq_compiler.py:483-610 | the session asks with the ten least-covered LOs; a set is saved exactly when 25 questions were gathered; the first 25 are then numbered and their LOs counted in the tracker; otherwise the tracker is unchanged |
| McqCompiler.SavedSetShape | mcq_compiler.py:581-589 | a saved set has exactly 25 multiple-choice questions, all inside the allow-lists, with pairwise different ids |
| FrqCompiler.TrimmedPieces | frq_compiler.py:114-117 | the kept segments are non-empty and stripped |
| FrqCompiler.PartsOfPieces | frq_compiler.py:83-97 | one part per non-blank segment; part `i` is built from the `i`-th kept segment |
| FrqCompiler.PartsFollowSegments | frq_compiler.py:77-119 | `parse_parts` yields one part per segment `parse_scoring_guidelines` keeps, in order; blank input gives none |
| FrqCompiler.SegmentPartShape | frq_compiler.py:89-97 | a segment opening with a letter `[a-z]` matches under `re.IGNORECASE` (the ASCII letters, U+0130, U+0131, U+017F, the Kelvin sign), then `.` or `)`, gets that letter lower-cased (an ASCII capital moves down by 32, the Kelvin sign becomes `k`, U+0130 becomes `i` plus U+0307) and a non-empty stripped prompt; any other gets the letter `a` plus the number of parts so far and the whole segment |
| FrqCompiler.KelvinSignLabel | frq_compiler.py:89-92 | a segment opening with the Kelvin sign and `.` is a labelled part `k` |
| FrqCompiler.PartsShape | frq_compiler.py:89-97 | every part's prompt is non-empty and stripped |
| FrqCompiler.GuidelinesRoundTrip | frq_compiler.py:102-119 | joining stripped, non-empty, bar-free guidelines with `\|` and parsing gives them back |
| FrqCompiler.PartsNonEmpty | frq_compiler.py:77-98 | a parts text with any character other than whitespace and `\|` yields at least one part |
| FrqCompiler.TrimmedPiecesOfTrimmed | frq_compiler.py:114-117 | segments already stripped and non-empty are all kept, unchanged |
| FrqCompiler.ParseScoringGuidelines | frq_compiler.py:102-119 | the loop returns exactly the stripped non-blank segments |
| FrqCompiler.ParseParts | frq_compiler.py:71-99 | the loop returns exactly the parts of the segments |
| FrqCompiler.ValidateFrqRow | frq_compiler.py:123-166 | no error exactly when the row is well formed (8 columns, known difficulty, non-blank fields, a labelled part, stimulus none or image, payload rules, `IMAGE_PROMPT:` prefix and a prompt of at least 20 characters); a wrong column count is reported first, with the width |
| FrqCompiler.WrongColumnCountMessage | frq_compiler.py:126 | the message gives the expected 8 and the actual width |
| FrqCompiler.StrippedFrqAccepted | frq_compiler.py:195-274 | an accepted row becomes a question built from the stripped columns, with every code allowed and parts present |
| FrqCompiler.RecheckedColumns | frq_compiler.py:226-258 | on a well-formed row the image-prompt and parts re-checks after stripping always pass |
| FrqCompiler.WellFormedColumns | frq_compiler.py:195-274 | a well-formed row is judged on its stripped columns |
| FrqCompiler.FrqAccepted | frq_compiler.py:263-274 | an accepted question has no id and no stimulus, sits inside the allow-lists, has parts, and an image payload starts with the marker |
| FrqCompiler.FrqAcceptedContent | frq_compiler.py:195-274 | the question holds the difficulty, the trimmed comma-split codes, the stripped context, the parsed parts and guidelines, the stimulus type and the payload |
| FrqCompiler.FrqAcceptedIff | frq_compiler.py:183-274 | a row is accepted exactly when it passes the row checks and all its codes are allowed |
| FrqCompiler.FrqRejectReasons | frq_compiler.py:183-258 | `row_invalid` is reported exactly when the row checks fail, with their message; no other rejection reason than the allow-list ones can occur |
| FrqCompiler.FrqAllowListReasons | frq_compiler.py:199-223 | for a well-formed row, skills are checked before LOs, and each failure carries the stripped column |
| FrqCompiler.FrqYieldsOnly | frq_compiler.py:565 | every question a reply yields is a fresh free-response question inside the allow-lists |
| FrqCompiler.ValidateRowsIndividually | frq_compiler.py:169-276 | one outcome per row, and every accepted question is fresh and inside the allow-lists |
| FrqCompiler.WithImage | frq_compiler.py:640-692 | only an image question with the marker gets a stimulus: the generated image (file path, data, raw prompt as alt text) or the failure record; nothing else changes |
| FrqCompiler.WithImages | frq_compiler.py:640-692 | the image pass treats each question by its position |
| FrqCompiler.ImagePathsDistinct | frq_compiler.py:658-667 | two generated images of one set never share a file path |
| FrqCompiler.FillImage | frq_compiler.py:641-692 | one pass of the image loop gives that question's image outcome |
| FrqCompiler.GenerateImages | frq_compiler.py:640-692 | the loop updates the array in place to the image pass of the set |
| FrqCompiler.FinishSet | frq_compiler.py:640-701 | the kept questions get their images, then their ids |
| FrqCompiler.ProcessSingleSet | frq_compiler.py:531-722 | as for multiple choice with 5 questions, and images are generated before numbering |
| FrqCompiler.SavedSetShape | frq_compiler.py:630-701 | a saved set has exactly 5 free-response questions inside the allow-lists, each with parts and with a stimulus exactly when its type is image; the ids are pairwise different |
| Utility.DropRun | utility_functions.py:56 | removes exactly the leading run |
| Utility.CollapseRuns | utility_functions.py:56 | every run becomes one space; the first and last non-run characters are kept |
| Utility.CollapseFixed | utility_functions.py:56 | collapsing a string whose runs are single spaces changes nothing |
| Utility.CollapseKeepsOthers | utility_functions.py:56 | collapsing changes nothing but the run characters |
| Utility.NormalizeWhitespace | utility_functions.py:55-56 | no whitespace at either end; runs of spaces and tabs are single spaces; "" exactly for blank input |
| Utility.NormalizeIdempotent | utility_functions.py:55-56 | normalising twice equals normalising once |
| Utility.NormalizeKeepsOthers | utility_functions.py:55-56 | apart from spaces and tabs, normalising keeps the stripped text's characters in order |
| Utility.KeptLines | utility_functions.py:53 | kept lines are non-empty, end in a non-space and hold no line feed when the input lines hold none |
| Utility.SafeJoinLinesSplit | utility_functions.py:52-53 | splitting the joined text on line feeds gives back exactly the kept lines |
| Utility.CompressLoDescription | utility_functions.py:169-211 | empty input is returned as is; otherwise no whitespace at the ends and no two whitespace characters in a row |
| Utility.StripBounds | utility_functions.py:209 | the strip is a slice, with only whitespace cut off |
| Utility.StripKeepsSingleSpaceRuns | utility_functions.py:209 | stripping keeps runs as single spaces |
| Utility.SqueezeStrip | utility_functions.py:209 | stripping removes whitespace only |
| Utility.CompressKeepsOthers | utility_functions.py:208-209 | the clean-up keeps every non-whitespace character of the rewritten text, in order |
| Utility.LastWinsKeys | utility_functions.py:60-84 | the lookup's keys are exactly the non-empty keys of the entries |
| Utility.LastWinsValue | utility_functions.py:60-84 | each key maps to the value of its last entry |
| Utility.SkillPairsKeys | utility_functions.py:62-65 | the entries' keys are the stripped subskill names |
| Utility.BuildSkillLookup | utility_functions.py:60-72 | the lookup maps exactly the non-empty stripped subskill names, each to the last category and description written for it |
| Utility.BuildBigIdeaLookup | utility_functions.py:74-84 | the lookup maps exactly the non-empty stripped big-idea ids, each to the last name and description written for it |
| Utility.ZeroTopicLos | utility_functions.py:222-225 | after one topic's objectives, exactly its non-empty stripped ids are added, at 0, and every other key keeps its count |
| Utility.InitializeLoCoverage | utility_functions.py:215-226 | exactly the non-empty stripped LO ids of all topics are keys, each with count 0 |
| Utility.DefaultTopN | utility_functions.py:251-252 | the default is at least 1 and at most the length for two or more LOs |
| Utility.SortedLoCounts | utility_functions.py:245-248 | the pairs, sorted ascending by count, are a permutation of the `(lo, count)` pairs |
| Utility.LoCounts | utility_functions.py:245 | each allowed LO is paired with its count, 0 when missing |
| Utility.GetPriorityLos | utility_functions.py:229-254 | an empty coverage map returns the allowed LOs; otherwise `min(top_n, len)` LOs |
| Utility.SortedLoCountsEntries | utility_functions.py:245-248 | the sorted list holds exactly the allowed LOs, each with its count |
| Utility.PriorityLosPrefix | utility_functions.py:250-254 | the result is a prefix of the allowed LOs sorted by count |
| Utility.PriorityLosLeastCovered | utility_functions.py:245-254 | the counts of the result never decrease, and no allowed LO left out has a lower count than one returned |
| Utility.PrefixLeastCovered | utility_functions.py:248-254 | a prefix of an ascending list of LOs and counts leaves behind no LO with a lower count than one it takes |
| Utility.PriorityLosStable | utility_functions.py:248 | LOs returned with one count keep their order in the allowed list |
| ErrorSummary.Dedup | utility_functions.py:110-111 | keeps every element once, no repeats |
| ErrorSummary.DetailsForMember | utility_functions.py:104-111 | a detail is recorded for a reason exactly when some report with that reason carries it and it is non-empty |
| ErrorSummary.FindReason | utility_functions.py:108 | finds the group of a reason, or none exists |
| ErrorSummary.OpenGroup | utility_functions.py:108-109 | after opening, a group for the reason exists |
| ErrorSummary.GroupReportsSpec | utility_functions.py:103-111 | the grouping loop yields one group per distinct reason in first-seen order, each with the distinct non-empty details of its reports |
| ErrorSummary.AddReportStep | utility_functions.py:104-111 | one pass of the grouping loop keeps that description |
| ErrorSummary.GroupReportsMeaning | utility_functions.py:103-111 | group reasons are distinct and exactly the reported reasons; each group's details are distinct and are exactly the non-empty details reported under its reason |
| ErrorSummary.SortedGroupsOrder | utility_functions.py:116 | groups come by falling detail count; groups with equal counts keep first-seen order |
| ErrorSummary.Preview | utility_functions.py:128 | at most 8 details, each one reported |
| ErrorSummary.BlocksLinesHeadlines | utility_functions.py:116-160 | every group writes exactly one headline |
| ErrorSummary.SummaryHeadlines | utility_functions.py:114-165 | a non-empty summary has one headline per distinct reason |
| ErrorSummary.SummaryFrame | utility_functions.py:114-165 | a non-empty summary starts with the header line and ends with the reminder line |
| ErrorSummary.AddReportToGroups | utility_functions.py:104-111 | one report opens its reason's group if new and adds its detail once, as the grouping function says |
| ErrorSummary.GroupReportsLoop | utility_functions.py:103-111 | the grouping loop returns the groups of all reports as a value |
| ErrorSummary.BlocksLinesLoop | utility_functions.py:113-160 | the line-building loop returns the header line followed by every block's lines in order |
| ErrorSummary.SummarizeInvalidReports | utility_functions.py:89-165 | the grouping and line-building loops return the summary: the no-errors text for no reports, else the framed blocks of the sorted groups |
| RepairLoop.RequestCount | mcq_compiler.py:529-538 | a repair asks for at least 2 and at most 10 more than are missing |
| RepairLoop.SetupFor | mcq_compiler.py:543-547 | the setup harvests with the row validator, summarises with `summarize_invalid_reports` and previews the first ten allowed codes |
| RepairLoop.RepairFromKeeps | mcq_compiler.py:571-572 | repair rounds only add: earlier questions, reports and requests stay in front |
| RepairLoop.RepairFromRequests | mcq_compiler.py:527-538 | each round adds one repair request, made while 1 to target questions were missing and asking for the over-ask count; no more requests than rounds left |
| RepairLoop.RepairFromStops | mcq_compiler.py:527-576 | the rounds end short of the target only when all four are used or the last call failed |
| RepairLoop.SessionShape | mcq_compiler.py:483-576 | the initial request comes first with the priority LOs; then at most four repairs, each asking for more than missing; a short session used all rounds or stopped at a failed repair call |
| RepairLoop.SessionKeepsInitial | mcq_compiler.py:504-518 | the initial reply's questions stay at the front; a failed initial call counts as empty text |
| RepairLoop.RepairFromYields | mcq_compiler.py:571 | a property of every reply's questions holds of every question the rounds add |
| RepairLoop.SessionYields | mcq_compiler.py:518-571 | a property of every reply's questions holds of every question gathered |
| RepairLoop.Harvest | mcq_compiler.py:516-517 | parsing and validating a reply gives its batch |
| RepairLoop.MakeRepairRequest | mcq_compiler.py:529-556 | builds the repair request: missing count, over-ask count, error summary and previews |
| RepairLoop.GenerateSet | mcq_compiler.py:483-576 | the loop computes the session of the replies |
| RepairLoop.QuestionIdInjective | mcq_compiler.py:654 | different positions in a set get different ids |
| RepairLoop.WithIds | mcq_compiler.py:653-654 | question `i` gets id `{course}_{kind}_U{unit+1}S{set+1}Q{i}`, numbered from 1; nothing else changes |
| RepairLoop.WithIdsDistinct | frq_compiler.py:779-780 | the ids of a numbered set are pairwise different |
| RepairLoop.AssignIds | mcq_compiler.py:647-654 | the loop numbers the array in place |
| RepairLoop.NumberSet | mcq_compiler.py:582-589 | the kept questions, numbered |
| RepairLoop.BumpCounts | mcq_compiler.py:604-606 | tracked LOs go up by their number of occurrences; untracked ones are ignored; the keys stay the same |
| RepairLoop.BumpAllCounts | mcq_compiler.py:603-606 | over a set, each tracked LO goes up by its occurrences among the questions' LO lists |
| RepairLoop.CoverageTracker.constructor | mcq_compiler.py:682 | the tracker starts with the given counts |
| RepairLoop.CoverageTracker.RecordSet | mcq_compiler.py:603-606 | recording a saved set bumps the counts of its LOs |
| UnitContext.Trunc | frq_compiler.py:297-299 | the normalised text when it fits, else its first `n-3` characters plus "..."; at most `n` characters for `n >= 3` |
| UnitContext.TruncIdempotent | frq_compiler.py:297-299 | truncating twice equals truncating once |
| UnitContext.CodeSetMember | frq_compiler.py:320-324 | a code is collected exactly when some entry strips to it |
| UnitContext.UnitSkillCodesMember | frq_compiler.py:315-326 | a code is collected exactly when some topic lists it, once stripped |
| UnitContext.SortedList | frq_compiler.py:502 | `sorted(s)` is strictly sorted with exactly the set's elements |
| UnitContext.AddSkillCodes | frq_compiler.py:320-327 | the loop adds a topic's non-blank stripped codes |
| UnitContext.AddLoIds | frq_compiler.py:350-355 | the loop adds a topic's non-blank stripped LO ids |
| UnitContext.BuildConstraints | frq_compiler.py:315-355 | both allow-lists are strictly sorted and hold exactly the non-blank stripped codes and LO ids of the unit's topics |
| UnitContext.ConstraintsDetermined | frq_compiler.py:501-504 | the allow-lists are a function of the unit |
| UnitContext.AllowedSkillCodeIff | frq_compiler.py:320-326 | a code is allowed exactly when it is non-empty and some topic suggests it |
| UnitContext.SectionKey | frq_compiler.py:412 | the section key is "I" exactly for mcq, else "II" |
| UnitContext.FirstSection | frq_compiler.py:414-424 | finds the first section with the key, or none has it |
| UnitContext.DescriptionLines | frq_compiler.py:420-422 | one `- ` line per description, in order |
| UnitContext.ExamContext | frq_compiler.py:411-424 | the loop stops at the first matching section and gives its block |
| UnitContext.QuoteDescriptions | frq_compiler.py:420-422 | each description becomes one "- " line, in order |
| UnitContext.ExamContextShape | frq_compiler.py:411-424 | the block quotes exactly the descriptions of the first section with the key, under its heading; it is empty when there is none or it has none |
| UnitContext.ShortDescriptionShape | frq_compiler.py:445 | descriptions up to 100 characters are kept; a longer one becomes its first 100 characters followed by "..." (103 in all) |
| UnitContext.FormatVerbLine | frq_compiler.py:445-446 | the slice-and-ellipsis of the loop body gives the verb's line with its shortened description |
| UnitContext.PriorityTaskVerbsExact | frq_compiler.py:439-446 | exactly the verbs containing a priority verb are kept |
| UnitContext.TaskVerbBlock | frq_compiler.py:429-446 | the loop builds the task-verb block |
| UnitContext.TaskVerbHeading | frq_compiler.py:429-438 | the block is non-empty exactly for frq and then opens with "TASK_VERBS:" |
| UnitContext.TaskVerbShape | frq_compiler.py:429-446 | every line after the heading is the line of one of the course's task verbs that contains a priority verb |
| UnitContext.PriorityTaskVerbAt | frq_compiler.py:440-443 | each task verb the filter keeps is one of the course's verbs and contains a priority verb |
| UnitContext.TaskVerbsComplete | frq_compiler.py:439-446 | every task verb containing a priority verb has its line in the frq block |
| ImageGenerator.CreateImageFilename | utils/image_generator.py:84-92 | the name opens with course, type and unit and ends in `.jpeg` |
| ImageGenerator.ImageFilenameInjective | utils/image_generator.py:92 | for one course, type and unit, different set or question numbers give different names |
| ImageGenerator.EnhancedPromptFrame | utils/image_generator.py:110-146 | the prompt starts with the header naming course and type, and ends with the image heading, the raw prompt and the quality suffix |
| ImageGenerator.EnhancedPromptContext | utils/image_generator.py:112-113 | the question context follows the header exactly when the stem is non-empty |
| ImageGenerator.EnhancedPromptChoices | utils/image_generator.py:115-116 | the answer choices come next exactly when there are choices and the type is MCQ |
| ImageGenerator.EnhancedPromptCorrect | utils/image_generator.py:119-122 | the correct-answer line comes next exactly when `0 <= index <` the number of choice lines, and shows that line |
| PdfToJson.ChunkPages | pdf_to_json.py:297-301 | the chunks concatenate to the pages; each holds 1 to 16 pages, all but the last exactly 16; there are `ceil(n/16)` of them |
| PdfToJson.SearchLength | pdf_to_json.py:200-202 | the search range is at most the page count and non-empty for a non-empty PDF |
| PdfToJson.RangeFacts | pdf_to_json.py:206 | `range` starts at `start`, stays below `stop`, climbs by `step` and is strictly increasing |
| PdfToJson.SampleIndicesShape | pdf_to_json.py:206-207 | at most 15 sample indices, strictly increasing, evenly spaced from 0, all below the number of search pages |
| PdfToJson.Pass2 | pdf_to_json.py:196-267 | pass 2 fills exam sections or task verbs only when pass 1 left them missing; found ones are never replaced; nothing changes without a reply or pages |
| PdfToJson.FirstByKeyShape | pdf_to_json.py:604-640 | one record per non-empty key, keys distinct, every keyed record represented, and the first occurrence wins |
| PdfToJson.NewChildrenExact | pdf_to_json.py:596-628 | the appended children are the incoming ones at exactly the positions whose key is not already present, ascending: in their order and with their repetitions, and nothing else |
| PdfToJson.IndexOf | pdf_to_json.py:591-620 | the position of the first entry with the key, or none has it |
| PdfToJson.FirstSeenShape | pdf_to_json.py:586-600 | the first-seen key list holds exactly the list's keys, ordered by the position where each first occurs |
| PdfToJson.MergeNestedKeys | pdf_to_json.py:586-629 | one entry per distinct key, and every item's key is present |
| PdfToJson.MergeNestedOrder | pdf_to_json.py:586-629 | the entries' keys are the items' keys in first-seen order, the insertion order of the source's dictionary |
| PdfToJson.MergeNestedOrigin | pdf_to_json.py:591-621 | every entry starts from the first item with its key: same head, and that item's children in front |
| PdfToJson.MergeNestedChildren | pdf_to_json.py:593-628 | every item's children end up, by key, in its key's entry |
| PdfToJson.DedupeFirst | pdf_to_json.py:604-640 | the loop keeps the first record per non-empty key |
| PdfToJson.AppendNew | pdf_to_json.py:595-628 | the loop appends the new children |
| PdfToJson.MergeNestedLoop | pdf_to_json.py:586-629 | the loop with its position map computes the nested merge |
| PdfToJson.MergeSkillsDistinct | pdf_to_json.py:586-600 | merged skills have distinct names |
| PdfToJson.MergeSkillsOrder | pdf_to_json.py:586-600 | the merged skills' names are the gathered skills' names in first-seen order |
| PdfToJson.MergeSkillsCover | pdf_to_json.py:586-600 | every skill and every subskill name of every chunk appears in the merge |
| PdfToJson.MergeSkillsOrigin | pdf_to_json.py:591-592 | each merged skill is the first skill of its name, with that skill's subskills first |
| PdfToJson.MergeSectionsDistinct | pdf_to_json.py:615-629 | merged exam sections have distinct ids |
| PdfToJson.MergeSectionsOrder | pdf_to_json.py:615-629 | the merged sections' ids are the gathered sections' ids in first-seen order |
| PdfToJson.MergeSectionsCover | pdf_to_json.py:615-629 | every description of every chunk's section appears in the merged section of its id |
| PdfToJson.MergeSectionsOrigin | pdf_to_json.py:620-621 | each merged section is the first of its id, with its descriptions first |
| PdfToJson.GatherMember | pdf_to_json.py:587-617 | every item of every chunk is gathered for the merge |
| PdfToJson.MergeSectionResults | pdf_to_json.py:579-642 | none for no chunks; per section type, the merge of the gathered records; the first chunk for an unknown type |
| BatchState.StateFileNameInjective | utils/batch_state_manager.py:54 | for one course and type, different units give different file names, so re-saving a unit replaces its file |
| BatchState.StateFileNameIsJson | utils/batch_state_manager.py:54-82 | the state file name ends in `.json`, so loading sees it |
| BatchState.FramedDiffer | utils/batch_state_manager.py:54 | two strings that differ before a separator they lack stay different inside the same prefix and suffix |
| BatchState.LoadedJobsExact | utils/batch_state_manager.py:82-95 | a job is loaded exactly when some listed `.json` file holds it; other files are skipped |
| BatchState.FirstMatch | utils/batch_state_manager.py:113-124 | the first listed file whose `job_name` matches, or none matches |
| BatchState.CourseOrderDistinct | utils/batch_state_manager.py:150-155 | each course appears once in `by_course` |
| BatchState.CourseOrderMember | utils/batch_state_manager.py:148-155 | a course appears exactly when some job is of that course |
| BatchState.CourseAbsent | utils/batch_state_manager.py:148-158 | a course without jobs counts nothing |
| BatchState.CourseUnitsCount | utils/batch_state_manager.py:156-158 | a course lists one unit per job |
| BatchState.CourseSumsAddUp | utils/batch_state_manager.py:141-158 | the per-course job counts and image sums add up to the totals |
| BatchState.TypeCountsAddUp | utils/batch_state_manager.py:145-161 | with every job typed mcq or frq, the two counts add up to the total |
| BatchState.SummaryStep | utils/batch_state_manager.py:148-161 | counting one more job updates its course entry and its type count, and nothing else |
| BatchState.Summarize | utils/batch_state_manager.py:141-161 | the loop gives the summary of the jobs, or raises (none) on a job of another type |
| BatchState.StateDir.constructor | utils/batch_state_manager.py:40-163 | the directory with the given presence and files |
| BatchState.StateDir.Save | utils/batch_state_manager.py:40-64 | creates the directory and writes the job under its state file name, replacing any earlier file of that name |
| BatchState.StateDir.Load | utils/batch_state_manager.py:67-95 | nothing from a missing directory, else the jobs of the listed state files |
| BatchState.StateDir.MarkCompleted | utils/batch_state_manager.py:98-126 | deletes exactly the first listed file whose `job_name` matches and returns true; returns false and changes nothing when the directory is missing or nothing matches |
| BatchState.StateDir.StateSummary | utils/batch_state_manager.py:129-163 | the summary of the loaded jobs, or none when a job has another type |
| BatchRetrieve.AssignQuestionIdsForSet | batch_retrieve_and_render.py:56-68 | numbers the array in place: `_MCQ_` ids for mcq, `_FRQ_` for any other type |
| BatchRetrieve.NumberedIds | batch_retrieve_and_render.py:64-68 | the ids are pairwise different and carry the set's prefix |
| BatchRetrieve.PyIndex | batch_retrieve_and_render.py:157 | `questions_data[i]` with a negative `i` counting from the end names a valid position |
| BatchRetrieve.FillImages | batch_retrieve_and_render.py:148-169 | the fill keeps the number of questions |
| BatchRetrieve.LastRequestFor | batch_retrieve_and_render.py:148-169 | finds the last request naming a position, or none names it |
| BatchRetrieve.FillImagesExact | batch_retrieve_and_render.py:148-169 | filling completes exactly when every request names a question; then each question named has the stimulus of the last request naming it (the image, with the prompt or "Generated image" as alt text, or the failure record) and every other question is unchanged |
| BatchRetrieve.FillImagesStops | batch_retrieve_and_render.py:149-157 | a request out of range stops the fill there, as the raised `IndexError` does |
| BatchRetrieve.FillImagesInPlace | batch_retrieve_and_render.py:148-169 | the loop fills the array in place |
| BatchRetrieve.ProcessSets | batch_retrieve_and_render.py:142-210 | the set loop keeps the number of sets |
| BatchRetrieve.ProcessSetInPlace | batch_retrieve_and_render.py:143-178 | the body of the set loop on an array |
| BatchRetrieve.ProcessSetsComplete | batch_retrieve_and_render.py:142-210 | with every request in range, each set is filled and numbered, and the result counts the sets that rendered; a failed render does not stop later sets |
| BatchRetrieve.ProcessSetComplete | batch_retrieve_and_render.py:148-178 | a set whose requests are in range is filled, then numbered |
| BatchRetrieve.ProcessSetsRaises | batch_retrieve_and_render.py:149-157 | a request out of range makes processing raise |
| BatchRetrieve.ProcessSetsRaisedTail | batch_retrieve_and_render.py:142-157 | once processing has raised, later sets are untouched |
| BatchRetrieve.ProcessCompletedJob | batch_retrieve_and_render.py:122-210 | a failed download returns 0 and touches no set; an unknown question type raises; otherwise the set loop's result |
| BatchRetrieve.Decide | batch_retrieve_and_render.py:251-290 | a job is done exactly when its status is terminal and, if it succeeded, processing did not raise; a succeeded job adds its rendered count, another terminal state one failure |
| BatchRetrieve.RemoveFirst | batch_retrieve_and_render.py:286 | `list.remove` drops one occurrence of the job, or nothing when it is absent |
| BatchRetrieve.PassKeeps | batch_retrieve_and_render.py:267-290 | after a pass the pending jobs are exactly the kept ones; one state file is marked per job that left; the totals only grow |
| BatchRetrieve.KeptLength | batch_retrieve_and_render.py:268-290 | a pass keeps no more jobs than it visits |
| BatchRetrieve.PollPass | batch_retrieve_and_render.py:268-290 | the loop over a copy of the pending list computes the pass |
| BatchRetrieve.PollLoop | batch_retrieve_and_render.py:267-296 | the loop ends early only with no pending jobs left, and never grows the pending list |

## Left out

- Every call to the language model, the image model and the batch
  service. These are the inputs `replies`, the image oracle, `retrieved`,
  `check` and the render outcome. Retries, back-off and sleeps around them
  are not modelled.
- File input and output is not modelled: templates, JSON and text files,
  `render_html` and its skip of existing files, image bytes and base64.
  A downloaded image is `BatchRetrieve.ImageFile(path, base64)`. The JSON
  form of state files is a `BatchState.StateFile` value.
- Concurrency (`asyncio.Semaphore`, `gather`) is not modelled. Sessions and
  tracker updates are sequential.
- Logging, timestamps and the `DEBUG`/`TEST_MODE` switches are not
  modelled.
- `is_valid_svg`, `pipe_table_to_html` and `_looks_like_pipe_table` are
  defined in no file this model covers. They are function parameters.
- The multiple-choice stimulus re-checks at mcq_compiler.py:145-155 cannot
  fail once the checks at lines 124-143 have passed, since the helpers are
  deterministic. The free-response re-checks at frq_compiler.py:226-258 are
  in the same position (proved by `FrqCompiler.RecheckedColumns`).
- The context string of `build_unit_context` is not modelled. Its topic
  blocks, big-idea and skill description lines and final join are left
  out. Only its exam-section block, its task-verb block, `trunc` and the
  constraints are modelled.
- The phrase rewriting of `compress_lo_description` is the parameter
  `abbreviate`. Only the final whitespace clean-up is modelled.
- `int(missing * 0.5)` is the integer `missing / 2` (they agree for
  `missing >= 0`). `int(idx)` is a decimal parse with optional whitespace
  and sign. Python's `_` digit separators and non-ASCII digits are not
  modelled.
- The records are typed: every field the code reads is a string, a list or
  a number of the expected kind. JSON `null` and values of another type are
  not modelled. A missing key read with `.get(..., "")` is the empty string.
  Where the code wraps that read in `str(...)`, a `null` would become the
  non-blank text "None", and a number its decimal text. For the subskill
  name (utility_functions.py:65), big-idea ids (utility_functions.py:77,
  frq_compiler.py:332 and 383, mcq_compiler.py:271 and 326), LO ids
  (utility_functions.py:223, frq_compiler.py:351, mcq_compiler.py:292) and
  topic ids (frq_compiler.py:316, mcq_compiler.py:255), "None" would then
  enter the skill lookup, the big-idea lookup, the coverage map or the LO
  allow-list. A `null` task verb would make `pv in verb` raise `TypeError`
  (frq_compiler.py:442). None of this is modelled.
- The `KeyError` a missing `subskill_name`, `descriptions`,
  `question_index` or `key` would raise is not modelled.
- ErrorSummary.Preview: shows the first 8 distinct details in first-seen
  order. The code shows `list(set(details))[:8]` (utility_functions.py:128
  and 135). Set order follows string hashes, which Python randomises per
  process. So with two or more details the order shown differs between
  runs, and with more than 8 so does which details are shown. The repair
  request's digest (`ErrorSummary.SummarizeInvalidReports`) is therefore
  exact only up to the order, and choice, of the listed codes.
- Python dictionary key order is a list, `BatchState.Summary.courseOrder`.
  Directory listing order is the parameter `order`.
- BatchRetrieve.PollLoop: runs for at most `rounds` passes, because the
  source loop `while pending_jobs` need not end while a job stays
  non-terminal.
- BatchRetrieve.PassKeeps: records the job names the poll loop passes to
  `mark_batch_job_completed` in `marked`, rather than deleting files from a
  `StateDir`. The deletion itself is `BatchState.StateDir.MarkCompleted`.
- BatchRetrieve.Decide: an error raised while rendering is a per-set render
  outcome. Any other error while handling a job (a status check that
  raises, an index out of range) keeps the job pending.
- McqCompiler.ValidateTsvRow: its contract characterises acceptance and
  the column-count failure. The order of the other eleven checks comes from
  the body's if-chain and is not restated as a separate property.
- PdfToJson.MergeSectionResults: a chunk result without a section's key
  contributes nothing, as in the source. The records are typed, so a
  malformed chunk (a non-list value) is not modelled.
- The request order and the question-order effects of `asyncio.gather`
  are not modelled.
- cleanup_failed_images.py, rename_mcq_files.py and
  utils/batch_image_generator.py are filesystem and service scripts. They
  are not part of this model.
