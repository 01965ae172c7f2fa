# Advent of Code 2025 solutions, modelled in Dafny

This project models the Python repository `advent-of-code-25`:

- the six puzzle solvers (`advent_of_code/1/solver.py` … `6/solver.py`);
- the harness in `advent.py` that every solver inherits, which tests each part on an example and then runs it on the real input;
- the decisions inside the Advent of Code client `api.py`: URLs, the session cookie, classifying the reply to a submission, picking the example data and answer out of a puzzle page, the solved-level arithmetic and the submission guard;
- in `manage.py`: the day-argument check, `human_readable_timedelta`, and the order in which `create` and `run` visit the days.

Python values are modelled as follows:

- strings are `seq<char>`;
- `str.strip`, `str.split`, `str.split()`, `str.join`, `int()`, `str(int)` and `in` are written out in module `Common`;
- Python's list-order comparison of strings is `Day3.LexLess`;
- an operation that raises becomes `None` in the solvers, and a structured error value (`Result.Err`) in the harness and the client.

Each module follows one source file:

| module | file |
|---|---|
| `Common` | Python string and integer built-ins used by all files |
| `Day1` … `Day6` | `advent_of_code/N/solver.py` |
| `Advent` | `advent_of_code/advent.py` |
| `Api` | `advent_of_code/api.py` |
| `Manage` | `advent_of_code/manage.py` |

Where the source is a loop that updates variables, the model is a `method` with the same loop, and its `ensures` ties the result to a specification function. The loop methods are `Day1.ZeroCount`, `Day2.Part1`/`SumDoubled`/`IsBadId`/`CountBadIds`, `Day3.LargestAfterDeletions`/`SumLargest`, `Day4.CanRemove`/`Part2`, `Day5.ReadLines`/`MergeRanges`, `Api.ExtractTestSolution`, `Manage.Create`/`Run` and `Advent.Advent.Run`. The properties the puzzles rely on are then proved about those functions as lemmas.

## Model

| member | source | states |
|---|---|---|
| Common.Split | advent_of_code/2/solver.py:9 | `str.split(sep)` never gives an empty list, and no piece holds the separator |
| Common.JoinSplit | advent_of_code/2/solver.py:9 | joining the pieces of a split with the separator gives the string back |
| Common.SplitJoin | advent_of_code/api.py:32 | splitting a join recovers the parts when no part holds the separator |
| Common.Fields | advent_of_code/6/solver.py:9 | every field of `str.split()` is a non-empty run without whitespace |
| Common.ParseIntToStr | advent_of_code/2/solver.py:15 | `int(str(i)) == i` for every integer |
| Common.ParseDigits | advent_of_code/3/solver.py:14 | `int` of a non-empty digit string is its decimal value |
| Common.StripLeftMeaning | advent_of_code/3/solver.py:9 | the left strip removes a prefix of whitespace only, and the rest does not start with whitespace |
| Common.StripRightMeaning | advent_of_code/3/solver.py:9 | the right strip removes a suffix of whitespace only, and the rest does not end with whitespace |
| Common.StripMeaning | advent_of_code/3/solver.py:9 | a stripped string neither starts nor ends with whitespace |
| Common.StripLines | advent_of_code/3/solver.py:9 | one stripped line per input line, in order, none starting or ending with whitespace |
| Common.StripIdempotent | advent_of_code/3/solver.py:9 | stripping twice is stripping once |
| Common.SumOptionsDefined | advent_of_code/3/solver.py:16-20 | a sum over results raises exactly when one of the results does |
| Common.SumOptionsValues | advent_of_code/6/solver.py:28-32 | without errors the sum is the sum of the numbers |
| Day1.ProcessData | advent_of_code/1/solver.py:9-10 | the lines parse exactly when each line does; one step per line, in order |
| Day1.ParseFormat | advent_of_code/1/solver.py:10 | "R n" reads as +n and "L n" as −n: parsing a formatted rotation gives the step back |
| Day1.ProcessFormatted | advent_of_code/1/solver.py:10 | a whole file of formatted rotations parses back to the steps |
| Day1.ZeroCount | advent_of_code/1/solver.py:12-18 | the loop counts the steps after which the dial, starting at 50, is at 0 mod 100 |
| Day1.Part1 | advent_of_code/1/solver.py:20-21 | part 1 is the zero count of the steps |
| Day1.HitsBound | advent_of_code/1/solver.py:14-17 | the zero count is at most the number of steps |
| Day1.HitsAppend | advent_of_code/1/solver.py:14-17 | counting over two lists of steps adds up, the second starting where the first ends |
| Day1.Units | advent_of_code/1/solver.py:24 | a step s expands to abs(s) unit steps of its sign; a zero step expands to nothing |
| Day1.ExpandSum | advent_of_code/1/solver.py:24 | the expanded steps have the same sum as the original ones |
| Day1.UnitsHits | advent_of_code/1/solver.py:24 | the unit steps of s pass 0 mod 100 once per multiple of 100 crossed |
| Day1.ExpandHits | advent_of_code/1/solver.py:20-24 | with non-zero steps the expansion lands on 0 at least as often as the steps |
| Day1.ZeroStepCounterexample | advent_of_code/1/solver.py:20-24 | with a zero step, part 2 can be less than part 1 |
| Day1.Part2 | advent_of_code/1/solver.py:23-24 | part 2 is the zero count of the expansion, and is ≥ part 1 when no step is zero |
| Day2.ParseRanges | advent_of_code/2/solver.py:9 | the fields parse exactly when each "a-b" field does, one range per field |
| Day2.ProcessData | advent_of_code/2/solver.py:8-9 | a read file gives one range per comma-separated field of its stripped, joined lines, so at least one |
| Day2.ParseFormatRange | advent_of_code/2/solver.py:9 | a formatted range parses back to itself and holds no comma |
| Day2.ProcessFormatted | advent_of_code/2/solver.py:9 | a comma-joined line of ranges is read back as those ranges |
| Day2.Part1 | advent_of_code/2/solver.py:28-38 | the nested loops add every id in every range whose decimal string is two equal halves |
| Day2.SumDoubled | advent_of_code/2/solver.py:31-37 | the inner loop adds exactly the ids of one range whose decimal string has even length and two equal halves |
| Day2.IsBadId | advent_of_code/2/solver.py:15-25 | the chunk loop decides whether some allowed chunk size splits the id into equal chunks |
| Day2.CountBadIds | advent_of_code/2/solver.py:11-26 | each id in each range is added once when bad, however many chunk sizes work |
| Day2.Part2 | advent_of_code/2/solver.py:40-42 | part 2 counts with minimum chunk size 1 |
| Day2.ChunksAllEqual | advent_of_code/2/solver.py:20-23 | all chunks equal to b exactly when the string is b repeated |
| Day2.AnyChunkMeaning | advent_of_code/2/solver.py:17-24 | an id is bad for part 2 exactly when its string is one block repeated at least twice |
| Day2.OneDigitValid | advent_of_code/2/solver.py:17 | single-digit ids are never bad |
| Day2.DoubledIsRepeated | advent_of_code/2/solver.py:30-37 | every id part 1 adds, part 2 adds too |
| Day2.Part1AtMostPart2 | advent_of_code/2/solver.py:28-42 | part 1 ≤ part 2 over non-negative ranges |
| Day2.EmptyRange | advent_of_code/2/solver.py:31 | a range with start > end adds nothing |
| Day3.ProcessData | advent_of_code/3/solver.py:8-9 | one line per input line, line k being input line k stripped |
| Day3.ProcessIdempotent | advent_of_code/3/solver.py:9 | processing already processed lines changes nothing |
| Day3.LexLessTotal | advent_of_code/3/solver.py:13 | string order is total, so `max` is well defined |
| Day3.LexLessTrans | advent_of_code/3/solver.py:13 | string order is transitive |
| Day3.MaxOf | advent_of_code/3/solver.py:13 | `max` returns a candidate that no candidate exceeds |
| Day3.BestDeletionChoice | advent_of_code/3/solver.py:13 | a round deletes one character and keeps a string no other single deletion exceeds in Python's string order |
| Day3.LargestAfterDeletions | advent_of_code/3/solver.py:11-14 | the loop's result is `int` of the string left once no more than l characters remain (`Largest`) |
| Day3.ReduceLength | advent_of_code/3/solver.py:12-13 | the loop stops after len(s) − l rounds with a string of length l |
| Day3.ReduceSubsequence | advent_of_code/3/solver.py:13 | the final string is a subsequence of s |
| Day3.LexIsNumeric | advent_of_code/3/solver.py:13 | for digit strings of equal length, string order is numeric order |
| Day3.BestDeletionIsLargest | advent_of_code/3/solver.py:13 | each round keeps the numerically largest single deletion |
| Day3.LargestDigits | advent_of_code/3/solver.py:11-14 | on a digit line the result exists and has at most l digits |
| Day3.AnswerBound | advent_of_code/3/solver.py:16-20 | on digit lines the sum exists and is below lines × 10^l |
| Day3.AnswerError | advent_of_code/3/solver.py:16-20 | one line `int` rejects makes the whole sum an error |
| Day3.SumLargest | advent_of_code/3/solver.py:16-20 | the running sum equals the sum of the per-line results, or the error |
| Day3.Part1 | advent_of_code/3/solver.py:16-17 | part 1 sums the results for l = 2 |
| Day3.Part2 | advent_of_code/3/solver.py:19-20 | part 2 sums the results for l = 12 |
| Day4.ProcessData | advent_of_code/4/solver.py:8-9 | one line per input line, line k being input line k stripped |
| Day4.CanRemove | advent_of_code/4/solver.py:12-22 | the loop returns exactly the rolls whose 3×3 block holds fewer than 5 rolls |
| Day4.RemovableMeaning | advent_of_code/4/solver.py:16-21 | a cell is removable exactly when it holds '@' and fewer than 5 of its 9 block cells, itself included, do |
| Day4.RemovableAreRolls | advent_of_code/4/solver.py:13-21 | the removable cells are a subset of the '@' cells |
| Day4.Part1 | advent_of_code/4/solver.py:24-25 | part 1 is the number of removable cells |
| Day4.ClearAts | advent_of_code/4/solver.py:34-40 | a rebuilt grid has the same shape and exactly the cleared rolls gone |
| Day4.RoundShrinks | advent_of_code/4/solver.py:30-35 | a round with something removable strictly lowers the roll count |
| Day4.RemovalAccount | advent_of_code/4/solver.py:28-40 | the total removed is the initial count minus the final count, and the final grid has nothing removable |
| Day4.RemovalBounds | advent_of_code/4/solver.py:28-40 | part 1 ≤ part 2 ≤ the initial number of rolls |
| Day4.Part2 | advent_of_code/4/solver.py:27-40 | the `while True` loop returns the total of all rounds |
| Day5.Sort | advent_of_code/5/solver.py:16 | `ranges.sort()` gives a sorted permutation of the ranges |
| Day5.ReadLines | advent_of_code/5/solver.py:6-15 | the line loop, with its `in_ranges` flag, yields ParseLines, whose sections ReadSections describes |
| Day5.IngredientsOnly | advent_of_code/5/solver.py:8-15 | after the separator the lines parse exactly when every non-empty one is an integer, and give no range |
| Day5.ReadSections | advent_of_code/5/solver.py:6-15 | range lines, an empty line, then other lines: the ranges are the first section's "a-b" fields in order, the ingredients come from the second section, and a bad line in either rejects the file |
| Day5.ReadFormatted | advent_of_code/5/solver.py:6-15 | non-negative ranges and ids written out with an empty line between read back unchanged |
| Day5.MergeRanges | advent_of_code/5/solver.py:17-22 | the merge loop, extending the last range in place, yields the specified merge |
| Day5.ProcessData | advent_of_code/5/solver.py:5-23 | `process_data` is reading, then sorting, then merging |
| Day5.MergeShorter | advent_of_code/5/solver.py:18-22 | merging never gives more ranges than it was given |
| Day5.MergeSeparated | advent_of_code/5/solver.py:18-22 | consecutive merged ranges neither overlap nor touch |
| Day5.ProcessedShape | advent_of_code/5/solver.py:16-22 | with start ≤ end for every range read, the merged ranges are increasing, separated and no more than were read |
| Day5.MergeCoverage | advent_of_code/5/solver.py:17-22 | an integer is in a merged range exactly when it is in a range merged |
| Day5.ProcessedCoverage | advent_of_code/5/solver.py:16-22 | with start ≤ end, sorting and merging keep exactly the covered integers |
| Day5.Part1 | advent_of_code/5/solver.py:25-29 | each ingredient counts at most once, so part 1 is at most the number of ingredients |
| Day5.Part1Meaning | advent_of_code/5/solver.py:25-29 | part 1 counts, with multiplicity, the ingredients in some range as read |
| Day5.Span | advent_of_code/5/solver.py:32 | a range covers exactly the integers from start to end |
| Day5.SpanSize | advent_of_code/5/solver.py:32 | a proper range covers 1 + end − start integers |
| Day5.Part2Counts | advent_of_code/5/solver.py:31-32 | over separated ranges, the sum of 1 + end − start is the number of covered integers |
| Day5.Part2 | advent_of_code/5/solver.py:31-32 | when every range has start ≤ end, part 2 is at least the number of ranges |
| Day5.Part2Meaning | advent_of_code/5/solver.py:31-32 | part 2 is the number of distinct integers the ranges as read cover |
| Day5.RawBlankLineRejected | advent_of_code/5/solver.py:9-13 | a raw "\n" separator line is read as a range and rejects the input |
| Day5.StrippedBlankLineSeparates | advent_of_code/5/solver.py:9-11 | a stripped separator line switches to ingredients |
| Day5.StrippedFileSections | advent_of_code/5/solver.py:6-15 | with line ends stripped, a file of range lines, "\n", then ingredient lines reads as its two sections |
| Day6.AllSpaceMeaning | advent_of_code/6/solver.py:15 | the column test succeeds exactly when every line has whitespace there |
| Day6.SpaceColumns | advent_of_code/6/solver.py:12-16 | the listed columns are increasing and within the width |
| Day6.SpaceColumnsMember | advent_of_code/6/solver.py:12-16 | a column is listed exactly when it is whitespace on every line |
| Day6.SplitPointsShape | advent_of_code/6/solver.py:10-18 | split points start at −1, end at the width, increase strictly, and in between are the blank columns |
| Day6.Slice | advent_of_code/6/solver.py:20 | `line[l + 1 : r]` has the length between the clamped ends, and its character j is the line's character l + 1 + j |
| Day6.Blocks | advent_of_code/6/solver.py:19-22 | one block per gap between split points, one entry per number line |
| Day6.ProcessData | advent_of_code/6/solver.py:8-23 | a processed worksheet needs the operator line and a number line, and every block holds one entry per number line |
| Day6.ProcessDataDefined | advent_of_code/6/solver.py:9-18 | processing fails exactly when there is no number line or a column scan runs off a shorter line |
| Day6.ProcessDataBlocks | advent_of_code/6/solver.py:19-22 | entry j of block k is line j strictly between split points k and k + 1 |
| Day6.ProcessDataOperators | advent_of_code/6/solver.py:9 | the operators are the whitespace-separated fields of the last line |
| Day6.StripFields | advent_of_code/6/solver.py:9 | stripping before `split()` changes nothing |
| Day6.FoldFromMeaning | advent_of_code/6/solver.py:26 | folding with `+` is the sum and with `*` the product |
| Day6.ParseAll | advent_of_code/6/solver.py:30 | `map(int, …)` succeeds exactly when each entry parses, in order |
| Day6.NumbersAndOperator | advent_of_code/6/solver.py:25-26 | a value only for "+" or "*" over a non-empty block whose entries all parse |
| Day6.OperatorDefined | advent_of_code/6/solver.py:25-26 | another operator, no numbers or a bad number is an error, and nothing else is |
| Day6.OperatorMeaning | advent_of_code/6/solver.py:25-26 | over readable numbers "+" gives the sum and "*" the product |
| Day6.Results | advent_of_code/6/solver.py:29-31 | `zip` keeps as many problems as the shorter list has |
| Day6.Columns | advent_of_code/6/solver.py:36 | `zip(*num)`: column c holds character c of every entry, as far as the shortest entry |
| Day6.ColumnsTwice | advent_of_code/6/solver.py:36 | transposing a rectangular block twice gives it back |
| Day6.Part1 | advent_of_code/6/solver.py:28-32 | part 1 is an error exactly when a zipped problem, read row by row, is |
| Day6.Part2 | advent_of_code/6/solver.py:34-38 | part 2 is an error exactly when a zipped problem, read column by column, is |
| Day6.PartsMeaning | advent_of_code/6/solver.py:28-38 | each part is an error exactly when a zipped problem is, and otherwise the sum of their results |
| Day6.ExtraBlockIgnored | advent_of_code/6/solver.py:29-37 | a block beyond the last operator changes neither part |
| Advent.GetData | advent_of_code/advent.py:27-32 | a missing file is an error naming its path; otherwise `process_data` gets its lines, and an `AssertionError` it raises passes through as one |
| Advent.TestResult | advent_of_code/advent.py:34-57 | a passing test had a numeric expected value, and a failed check or missing implementation names the part under test |
| Advent.TestPasses | advent_of_code/advent.py:34-57 | a test passes exactly when the example loads and the part returns a number equal to the expected one |
| Advent.TestGuardOrder | advent_of_code/advent.py:37-49 | the example is loaded before the None check, and `NotImplementedError` is not a failed check |
| Advent.UnsetTestSolution | advent_of_code/advent.py:54-57 | with the inherited method as expected value the test never passes, and fails by mismatch |
| Advent.SolutionResult | advent_of_code/advent.py:59-61 | an unimplemented part is reported for the part being run |
| Advent.SolutionAnswer | advent_of_code/advent.py:59-61 | a missing `input` file is an error naming it; otherwise the answer printed is `None` or the number exactly when the part returns that |
| Advent.RunFrom | advent_of_code/advent.py:64-76 | only an `AssertionError` ends the run quietly, any other error in a test is wrapped, and a run from part p has at most 2·(3 − p) events |
| Advent.RunOrder | advent_of_code/advent.py:64-76 | events come as test 1, real 1, test 2, real 2, cut off where the run ends |
| Advent.StopsAtFailedTest | advent_of_code/advent.py:66-76 | an `AssertionError` in a test, from a harness check or from the solver's `process_data` or `part_N`, stops the run before that part's real input; other test errors are wrapped, and any error of a real run is wrapped |
| Advent.SolverAssertionStops | advent_of_code/advent.py:64-76 | an `AssertionError` the solver raises on the example stops the run quietly in part 1; on the real input it is wrapped |
| Advent.RunCompletes | advent_of_code/advent.py:64-76 | a run completes exactly when both tests and both real runs succeed, printing both answers |
| Advent.UnsetDayNeverRuns | advent_of_code/advent.py:64-70 | a day without test solutions prints no answer: the run stops in part 1 with the test's `AssertionError` as the cause |
| Advent.Advent.constructor | advent_of_code/advent.py:5-6 | the object keeps its day |
| Advent.Advent.RunTest | advent_of_code/advent.py:34-57 | the guard chain computes the test result |
| Advent.Advent.RunSolution | advent_of_code/advent.py:59-61 | the real run computes SolutionResult, which SolutionAnswer ties to the `input` file and the part's answer, `None` included |
| Advent.Advent.Run | advent_of_code/advent.py:64-76 | the loop over the parts with its early exits computes the run |
| Api.AocUrl | advent_of_code/api.py:31-35 | the URL starts with the day's page, and is exactly that page when the parts join to nothing |
| Api.AocUrlParts | advent_of_code/api.py:31-35 | the URL starts with the day's page, has no trailing "/" without parts, and splits back into the parts |
| Api.SessionCookie | advent_of_code/api.py:25-28 | the cookie fails exactly when the token is missing or empty, and otherwise is the header `Cookie: session=<token>` |
| Api.LazyEnd | advent_of_code/api.py:177-181 | a lazy capture found is followed by the suffix and holds no newline |
| Api.SearchFrom | advent_of_code/api.py:177-181 | a capture found sits between prefix and suffix in the text |
| Api.Capture | advent_of_code/api.py:177-181 | a capture is non-empty, has no newline, and is surrounded by the prefix and the suffix |
| Api.CaptureFound | advent_of_code/api.py:177-181 | whenever such a piece of text exists, the search finds a capture |
| Api.ParseFeedback | advent_of_code/api.py:172-190 | the phrases are tried in a fixed order and the first present decides; other text is kept whole |
| Api.CooldownWait | advent_of_code/api.py:176-178 | the wait shown is the captured one, and "a bit" only when there is none |
| Api.Message | advent_of_code/api.py:176-190 | the cooldown and incorrect messages end with the wait and a full stop; the unexpected message ends with the reply text |
| Api.MessageInjective | advent_of_code/api.py:178-190 | different replies print different messages |
| Api.FirstLongest | advent_of_code/api.py:93 | `max` by length picks a longest block, the first of them |
| Api.GetTestData | advent_of_code/api.py:82-94 | "" without an article or code block; otherwise the stripped text of the first longest code block |
| Api.LastString | advent_of_code/api.py:107-116 | a backwards scan finds the last accepted tag, and nothing only when there is none |
| Api.ExtractTestSolution | advent_of_code/api.py:102-118 | the two backwards scans compute the extracted answer |
| Api.ExtractedMeaning | advent_of_code/api.py:107-118 | the `<em><code>` fallback is used only when no `<code><em>` string exists |
| Api.GetTestSolution | advent_of_code/api.py:121-138 | a part outside {1, 2} is an error; no article or no answer gives ""; otherwise the part's article's answer |
| Api.NumberOfPartsSolved | advent_of_code/api.py:146-164 | 2 without a form, an error without a level input or a number, otherwise level − 1 |
| Api.FormLevel | advent_of_code/api.py:163-164 | a form asking for level n reports n − 1 solved |
| Api.SubmitSolution | advent_of_code/api.py:193-211 | a level outside {1, 2} is an error; a post goes to the day's answer URL with the level and the answer given |
| Api.SubmitGuard | advent_of_code/api.py:193-201 | an answer is posted exactly when the level is valid, the token set, the count known and below the level |
| Manage.ValidateDay | advent_of_code/manage.py:31-36 | no argument is fine; a non-number or a number outside 1..max days is an error |
| Manage.ValidDayAccepted | advent_of_code/manage.py:31-36 | every day in range, as text, is accepted as itself |
| Manage.Decompose | advent_of_code/manage.py:43-45 | 3600·hours + 60·minutes + seconds is the seconds, with minutes and seconds below 60 |
| Manage.DecomposeUnique | advent_of_code/manage.py:44-45 | that decomposition is the only one |
| Manage.Positive | advent_of_code/manage.py:54 | only positive components are kept, and none exactly when none is positive |
| Manage.PositiveFirst | advent_of_code/manage.py:54 | the first positive component leads, followed by the positive ones after it |
| Manage.Fmt | advent_of_code/manage.py:56-57 | a shown component starts with its value in decimal, then a space, and ends in "s" when the value is not 1 |
| Manage.FmtRoundTrip | advent_of_code/manage.py:56-57 | a shown component reads back as its value and unit, with an "s" exactly when the value is not 1 |
| Manage.HumanReadableTimedelta | advent_of_code/manage.py:39-65 | the first two positive units joined by " and ", one alone, or "less than a second" |
| Manage.LessThanASecond | advent_of_code/manage.py:59-65 | "less than a second" exactly when no day ahead and no second within the day |
| Manage.SkipsEmptyUnits | advent_of_code/manage.py:47-54 | the two units shown need not be adjacent: hours and seconds skip empty minutes |
| Manage.Create | advent_of_code/manage.py:132-142 | without a day, days 1..max in increasing order, never prompting; with one, that day only |
| Manage.Run | advent_of_code/manage.py:164-175 | without a day, days 1..max in increasing order as decimal strings; with one, that day only |

## Left out

- The HTTP requests, status codes and network errors of `_fetch`, and `get_input`. They are I/O; a fetched page is a `Api.Page` value and the reply to a submission is its first article's text.
- HTML parsing with BeautifulSoup. A page is modelled as its articles, their `code` and `em` tags, and the answer form. The form is taken as already looked up by its action `{day}/answer`.
- Regular expressions in general. Only the two lazy patterns of `_parse_submission_feedback` are written out: leftmost start, then shortest capture, with `.` matching any character except newline.
- Configuration from the environment (`YEAR`, `TOKEN`, `MAX_DAYS`). These are parameters.
- All printing. What is printed is returned instead: the run's events (each answer printed, plus an unprinted marker for each passed test), the `AssertionError` that stopped a run, the feedback kind and the call lists.
- File reading (`Advent._read_data`). The file system is a map from path to lines.
- The release-time check in `_create_day`, which needs the clock and time zones.
- The solver-file creation and overwrite prompt in `_create_solver_file`.
- Dynamic import in `_run_day` and argparse. `Manage.Create` and `Manage.Run` return the calls they make, not the calls' effects.
- `create.py` and `run.py`. They only call `manage`.
- Python `int()` accepts underscores between digits and non-ASCII decimal digits. The model accepts neither.
- Whitespace is the Unicode whitespace code points that `str.isspace` lists. No other Unicode behaviour is modelled.
- In the solvers every exception is a plain `None`; which exception type was raised is not kept. The harness, though, distinguishes an `AssertionError` (its own checks or the solver's), `NotImplementedError`, a missing file and other errors.
- Api.SubmitSolution: the answer is the text the form sends; an `int` answer is taken as its decimal string.
- Advent.Advent.Run: solver answers are integers. Comparing an answer of another Python type is not modelled.
- Advent.Advent.Run: the solver is a value. It says whether `process_data` returns, raises an `AssertionError` or raises something else on a file's lines, and what each part does on them. The shape of the processed data is not modelled.
- Day1.Part2: `part_2 ≥ part_1` is stated only when no step is zero. A zero step landing on a multiple of 100 counts in part 1 but expands to nothing (`Day1.ZeroStepCounterexample`: steps [50, 0] give 2 and 1).
- Day4.CanRemove: requires at least one row, and every row at least as wide as the first. Otherwise the source's `data[0]` or indexing raises; that error path is not modelled.
- Day5.ProcessData: takes lines already stripped of their line ends. See Findings.
- Day6.ProcessData: `data.pop()` removes the operator line from the caller's list. The model takes the last line off a value; the harness reads a fresh list for every call, so the mutation is not observable there.
- Manage.HumanReadableTimedelta: takes a timedelta as its `days` and `seconds`. Microseconds are ignored, as they are in the source. The normalisation `seconds < 86400` is not required.

## Findings

| source | as written | input that shows it | evidently intended | confidence | as-written member | corrected member |
|---|---|---|---|---|---|---|
| advent_of_code/5/solver.py:9 with advent_of_code/advent.py:25 | `readlines` keeps each "\n", so the separator line is "\n"; `if not line` never holds for it, and the line is parsed as a range | the lines "1-2\n", "\n", "3\n" | test the stripped line, so the blank line switches to ingredients | not executed | Day5.RawBlankLineRejected | Day5.StrippedFileSections |
