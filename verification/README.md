# A verified model of Check

Check runs unit tests, usually each in a child process, and learns what happened
only through a byte stream in a temporary file. This project models that stream,
the runner around it and the formatted output under it in Dafny, and proves what
they promise for every input, every script of user functions and every run.

`dafny verify dfyconfig.toml` checks the whole project.

## How the model is built

**The message protocol** (`Codec`, `Receive`, `Streams`, `Append`, `Messaging`,
`Results`). Messages are packed and unpacked byte by byte in arrays. The reader
`Punpack` slides a window of twice the largest message over a file and is proved
equal to parsing the whole file at once (`Codec.ParseAll`) and folding the messages
into the receiver's record (`Receive.Fold`), for every file, well formed or not.
Writers are a state machine whose steps take the lock, write one byte and release
the lock; the theorem ranges over all interleavings and all cut-off points. The two
nested pipes are a stack.

**The suite runner** (`CheckList`, `Tags`, `TestRun`, `Expectations`, `Forecast`,
`Reports`, `ForkReports`, `UserCalls`, `SuiteRun`, `RunHistory`, `Fixtures`,
`Logging`, `Loggers`, `Runner`, `SuiteRunner`, `WholeRun`). Fixtures and tests are
an oracle: the k-th call of a user function marks some points and then returns,
fails an assertion, exits or dies of a signal, as the script says (`TestRun.Act`).
`TestRun` and `SuiteRun` say as functions on a world what a run does; the classes
`SRunner`, `Suite`, `TCase`, `List`, `Pipes` and `LogList` do it in place, with the
source's lists, cursors, counters and early exits, and are proved to follow those
functions. `Expectations` and `Forecast` are an independent account: from the script
and the number of calls made so far alone, with no pipe and no message, they say
whether the runner survives a test, a case or a run, which functions are called with
which loop values, and which verdict, message, place and time each test deserves.
The theorems say that what comes out of the pipe is exactly that, so the results of
a run are a function of what the user's functions did.

**Formatted output** (`Sink`, `Digits`, `IntFormat`, `StandardInt`, `Decimal`,
`FloatFormat`, `FloatReads`, `FloatAccuracy`, `FloatLayout`, `Directive`,
`DirectiveLaws`, `ConversionLaws`, `Format`, `StrdupPrintf`, `XmlEscape`).
`Directive.Render` is the unbounded text that a format and its arguments denote, by
way of a parse into structured directives. `Format` is the seven-state machine with
its local variables, writing through `OUTCHAR`; it is proved to leave the beginning
of that text in the buffer. `StandardInt` and `FloatLayout` write the standard's
sign, prefix, digits, fraction, exponent and padding in their own words;
`ConversionLaws` says letter by letter what a directive prints, from its argument.
Floating values are exact reals and `UINTMAX_T` has 64 bits. Every decimal that is
printed is read back by an independent reader.

Errors that end the process (`eprintf`) are outcomes, not preconditions. The only
demands on callers are C's own: strings have a NUL, arguments have the type their
directive asks for, buffers are as large as they say.

## What turned out not to hold

Each comes with the exact condition, as an "if and only if" over all inputs.

- An assertion failure in a child is reported unless the test expects a signal or
  allows exit value 1, because a failed assertion exits with 1
  (`ForkReports.AssertionReportedIff`).
- A fixture's failure keeps its location only until the next context message
  (`Streams.FirstFailureSurvives`).
- Messages left in the pipe are harmless if and only if they hold no failure
  (`Streams.LeftoversHarmlessIff`).
- `fmtint` prints what section 7.19.6.1 of ISO/IEC 9899:1999 asks for unless the value
  and the precision are both zero (and it is not `#` octal)
  (`StandardInt.StandardIff`).
- With the `'` flag, precision and field width are met if and only if there are no
  separators or the digits alone meet the precision (`StandardInt.QuotedPrecisionIff`,
  `StandardInt.QuotedWidthIff`); `%'10.6d` of 1234 has nine characters and five digits
  (`StandardInt.QuotedFallsShort`).
- `%e` and `%g` show the rounded value unless it rounds up to 10 to the 100, whose
  exponent loses its first digit (`FloatAccuracy.FloatReadsBackIff`).
- `%f` and `%e` show the places asked for if and only if these are at most 19
  (`FloatAccuracy.FractionLengthIff`). `%g` shows P significant digits if and only if
  P is at most 20 and, in the fixed style, P - 1 - X is at most 19
  (`FloatAccuracy.SignificantIff`); `%.17g` of 0.00010000000000000004 prints 0.0001
  (`FloatAccuracy.GeneralFallsShort`). Its style is the standard's unless P > X > 19
  (`FloatAccuracy.GeneralStyleIff`).
- A directive is read as it is written if and only if its modifier is not `ll`
  (`DirectiveLaws.WrittenRoundTripIff`); `%lld` prints "d" and takes no argument
  (`DirectiveLaws.LongLongFails`).
- `%c` fills its field if and only if the width is at most one
  (`ConversionLaws.CharWidthIff`).
- Without a child, a failing unchecked teardown of one case is blamed on what is
  received next: the next setup, or the next test if there is none. Until then the
  results are the tests' own (`Forecast.Setups`, `Forecast.WithoutChild`,
  `Reports.NoforkReport`).

## Model

| member | source | states |
|---|---|---|
| `Codec.WordRoundTrip` | src/check_pack.c:170-195 | a 32-bit word written big endian is read back, whatever follows |
| `Codec.WordUnique` | src/check_pack.c:170-195 | no two words share their four bytes |
| `Codec.StrRoundTrip` | src/check_pack.c:197-239 | a packed string is read back with exactly its length |
| `Codec.RoundTrip` | src/check_pack.c:126-168 | a packed message decodes to itself from any buffer beginning with it and takes exactly the packed bytes |
| `Codec.DecodeIsLocal` | src/check_pack.c:144-168 | decoding depends only on the bytes it reports as taken |
| `Codec.ParseEncoded` | src/check_pack.c:126-168 | parsing the concatenation of packed messages gives the messages and goes on behind them |
| `Codec.EncodeAllInjective` | src/check_pack.c:126-347 | two message lists with the same bytes are the same list |
| `Codec.TornFileIsRejected` | src/check_pack.c:405-458 | a file that ends inside a message is never read as messages |
| `Codec.PackInt` | src/check_pack.c:170-181 | writes the word at the cursor, moves the cursor by four and keeps what is before it |
| `Codec.PackStr` | src/check_pack.c:197-216 | writes length word and bytes; NULL is the empty string |
| `Codec.PackCtx` | src/check_pack.c:254-266 | an exactly sized buffer holding the encoded context message |
| `Codec.PackDuration` | src/check_pack.c:275-290 | the same for a duration |
| `Codec.PackLoc` | src/check_pack.c:301-317 | the same for a location |
| `Codec.PackFail` | src/check_pack.c:330-342 | the same for a failure |
| `Codec.Pack` | src/check_pack.c:126-142 | succeeds exactly on packable messages and returns their encoding |
| `Codec.UpackInt` | src/check_pack.c:183-195 | agrees with the decoder on every buffer, faulting where the word is not inside |
| `Codec.UpackStr` | src/check_pack.c:218-239 | agrees with the decoder on every buffer |
| `Codec.Upack` | src/check_pack.c:144-168 | agrees with the decoder on every buffer, including bad types |
| `Receive.RcvMsg.UpdateCtx` | src/check_pack.c:494-502 | the record after a context message; the fixture location is forgotten |
| `Receive.RcvMsg.UpdateLoc` | src/check_pack.c:504-518 | the record after a location, by the last context, whether or not a failure is known |
| `Receive.RcvMsg.GetResult` | src/check_pack.c:405-458 | one message is taken off the buffer and folded into the record; nothing changes on an error |
| `Receive.File.Read` | src/check_pack.c:391-403 | as many of the wanted bytes as the file still has |
| `Receive.Slide` | src/check_pack.c:542-543 | the unread bytes move to the front of the window |
| `Receive.WindowAgrees` | src/check_pack.c:520-560 | whatever stale bytes lie behind the valid part, decoding the window is decoding the file, or the file's next message does not fit |
| `Receive.AnswerIsFold` | src/check_pack.c:520-560 | consuming a file message by message is parsing it all and folding |
| `Receive.Advance` | src/check_pack.c:537-551 | after a message the window is slid and refilled, and stays full until the end of the file was seen |
| `Receive.Drain` | src/check_pack.c:534-552 | the window loop terminates with the fold of the rest of the file, or with an error exactly when the rest does not parse |
| `Receive.Punpack` | src/check_pack.c:520-560 | for every file: an error exactly when the whole-file parse fails, otherwise the fold of its messages, and NULL exactly when no context is set |
| `Streams.NullIffNoContext` | src/check_pack.c:553-559 | punpack answers NULL exactly when no context was sent |
| `Streams.FrozenAfterFail` | src/check_pack.c:417-447 | after a failure in a known context nothing reported changes but the fixture location |
| `Streams.FirstFailureSurvives` | src/check_pack.c:417-447 | text, context and location of the first failure survive any later messages; a fixture's location if and only if no context follows |
| `Streams.LeftoversHarmlessIff` | src/check_run.c:361-391 | unread teardown messages change no later result if and only if no failure is among them |
| `Append.RunKeeps` | src/check_pack.c:366-389 | the invariant of lock, file and threads holds at every state of every interleaving |
| `Append.AppendIsAtomic` | src/check_pack.c:366-389 | at every point of every interleaving the file parses if and only if no message is half written, and then to the messages that are whole in it; each of these was sent by a thread, and those of one thread are a prefix of what it sends, in its order |
| `Append.StepIff` | src/check_pack.c:366-389 | at every state some thread has a next step if and only if a message is being written or a next one passes the checks |
| `Append.EndHoldsPrograms` | src/check_pack.c:366-389 | where no step is left the file parses to a merge of the whole programs, each up to its first refused message |
| `Messaging.DepthAtMostTwo` | src/check_msg.c:313-364 | no sequence of operations opens more than two pipes |
| `Messaging.LowerPipesUntouched` | src/check_msg.c:68-146 | operations above a level leave every pipe below it alone |
| `Messaging.NestedRunIsInvisible` | src/check_msg.c:208-216 | a nested run leaves the outer test's messages exactly as they were |
| `Messaging.Pipes.SetupPipe` | src/check_msg.c:313-334 | pushes an empty pipe, or fails at depth two |
| `Messaging.Pipes.TeardownPipe` | src/check_msg.c:336-364 | pops the innermost pipe, or fails when there is none |
| `Messaging.Pipes.GetPipe` | src/check_msg.c:68-83 | the innermost open pipe, an error exactly when there is none |
| `Messaging.Pipes.SendInfo` | src/check_msg.c:85-118 | the message is appended to the innermost pipe, or refused with nothing written |
| `Messaging.Pipes.ReceiveTestResult` | src/check_msg.c:120-146 | reads the innermost pipe, leaves an empty one in its place, keeps the depth and the outer pipe |
| `Results.SetLocByCtx` | src/check_msg.c:148-165 | file and line move from the record into the result, by context |
| `Results.ConstructTestResult` | src/check_msg.c:167-206 | the result of a record; no string stays with both |
| `Results.VerdictMeaning` | src/check_run.c:569-665 | for every ending of a child, exactly when it is a pass, a failure or an error, always with a message, and nothing else of the result changes |
| `Results.NoteMeaning` | src/check_run.c:569-713 | for every ending, each of the messages (signal, wrong signal, timeout, timeout instead of a signal, early exit, assertion text, passed) is given if and only if its situation holds |
| `CheckList.List.constructor` | src/check_list.c:54-64 | an empty list with capacity one |
| `CheckList.List.MaybeGrow` | src/check_list.c:45-52 | room for one more, the elements kept, capacity a power of two |
| `CheckList.List.AddEnd` | src/check_list.c:78-87 | appends, cursor on the new element |
| `CheckList.List.AddFront` | src/check_list.c:66-76 | prepends, cursor on the new element |
| `CheckList.List.Front` | src/check_list.c:96-101 | cursor to the first element |
| `CheckList.List.Val` | src/check_list.c:113-121 | the element under the cursor, NULL past the end |
| `CheckList.List.Advance` | src/check_list.c:123-130 | the cursor moves by one unless it is past the end |
| `CheckList.List.Apply` | src/check_list.c:133-141 | every element is visited once, in order |
| `CheckList.List.Contains` | src/check_list.c:143-154 | found if and only if it is an element |
| `CheckList.List.CapacityAndCost` | src/check_list.c:45-52 | the capacity is the least power of two with room for the elements, and growing copied fewer than two elements per element |
| `Tags.WordsAreDelimited` | src/check.c:167-189 | a string is one of the tags if and only if it stands between blanks or ends of the tag string |
| `Tags.TagStringToList` | src/check.c:167-189 | the list of exactly those words, in order; empty for NULL |
| `Tags.MatchingTag` | src/check.c:219-241 | true if and only if the lists share an element, in spite of the early return |
| `TestRun.EnvIsProper` | src/check.c:360-401 | whatever the script, what a user function sends is what the pipe accepts: an execution ends at the first message it cannot send |
| `Reports.NoforkSetupsReport` | src/check_run.c:290-333 | without a child, for every script and whatever is in the pipe: the setups come back exactly when foretold, stop at the first failure and report it with its text and location, or pass |
| `Reports.TeardownsBlamed` | src/check_run.c:361-396 | no teardown changes whom a recorded failure is blamed on |
| `Reports.UncheckedTeardownsReport` | src/check_run.c:361-396 | unchecked teardowns come back exactly when foretold, make the foretold calls, and leave their first failure in the pipe exactly when one fails outside a child and no older failure is there |
| `Reports.NoforkReport` | src/check_run.c:407-465 | without a child, for every script and whatever is in the pipe: the runner survives the test if and only if every call comes back and every message can be sent; then the result is the one that what the test did calls for, the foretold calls were made, and the pipe is harmless again |
| `ForkReports.ChildTellsTale` | src/check_run.c:473-543 | for every script, what a child leaves in the pipe records its first trouble, its phase and the last location, and it has made exactly the foretold calls |
| `ForkReports.ForkReport` | src/check_run.c:473-567 | with a child, for every script: the runner survives the test if and only if a context message can be sent; then the result is the one that what the child did calls for, the foretold calls were made, and the pipe is harmless again |
| `ForkReports.AssertionReportedIff` | src/check_run.c:569-665 | a child's first failed assertion is reported with its text, phase and place if and only if no signal was expected and 1 is not the allowed exit value |
| `ForkReports.TaleLocation` | src/check.c:365-401 | the location recorded for a failed assertion is the one of that assertion |
| `ForkReports.TroubleLocated` | src/check_run.c:715-727 | a child that exited with a status other than zero, died of a signal that was not expected or failed an assertion is reported in the phase it was in, at its last point there; any other at its test, or in the setup it ended in |
| `ForkReports.ForkJudges` | src/check_run.c:569-713 | verdict and message of every end of a child are those of an account that knows neither wait status nor record |
| `UserCalls.CallsOfChild` | src/check_run.c:473-543 | a child calls exactly the setups up to the first that does not return, then this test's function with this loop value, then the teardowns up to the first that does not return |
| `UserCalls.TestReport` | src/check_run.c:246-276 | in either mode one test is survived exactly when foretold, with the foretold result, by calling exactly the foretold functions, its own with its loop value |
| `SuiteRun.TestsRun` | src/check_run.c:234-277 | the tests of a case, for every loop value: survived exactly when foretold, each adding its foretold result and its two events and calling its own function with that value, each starting at the call behind the last one of the test before |
| `SuiteRun.UncheckedSetupsRun` | src/check_run.c:335-351 | unchecked setups pass, or add exactly one result, that of the first one that fails |
| `SuiteRun.CaseHistory` | src/check_run.c:398-405 | a case is survived exactly when foretold; it adds one result if a first failing unchecked setup exists and otherwise one per test and loop value, each the foretold one, with its events, and the user functions called are exactly the foretold ones, in order |
| `SuiteRun.CaseWantedIff` | src/check_run.c:203-220 | a case is run if and only if it has the name asked for, a tag of its own stands in the include string and none stands in the exclude string |
| `SuiteRun.WantedCaseAt` | src/check_run.c:196-223 | every wanted case is run once, behind the wanted ones before it and before those behind it |
| `SuiteRun.WantedSuiteAt` | src/check_run.c:185-226 | the same for suites |
| `RunHistory.RunIsItsHistory` | src/check_run.c:167-277 | for every script: a run completes if and only if its forecast does; then exactly the wanted cases of the wanted suites ran, once each and in list order, and results, counters, events and the user functions called, with their loop values, are exactly the foretold ones |
| `RunHistory.OutlookCovers` | src/check_run.c:167-232 | the forecast of a run is about exactly the wanted suites and their wanted cases, in list order |
| `Fixtures.RegistrationOrder` | src/check.c:292-315 | after any registrations setups stand in registration order and teardowns in reverse, checked and unchecked apart |
| `Fixtures.ChildDiscipline` | src/check_run.c:473-543 | in a child a prefix of the setups runs, the body only if all of them returned, then teardowns in order |
| `Fixtures.NoforkDiscipline` | src/check_run.c:407-429 | the same without a child: the body runs only if every setup returned |
| `Fixtures.CaseDiscipline` | src/check_run.c:398-405 | unchecked teardowns start exactly when the unchecked setups passed; otherwise nothing else of the case is called |
| `Logging.RunEventsInOrder` | src/check_run.c:150-277 | the events of every completed run are in INITLOG START_SR (START_S (START_T END_T)* END_S)* END_SR ENDLOG |
| `Logging.TapRun` | src/check_log.c:340-382 | the TAP lines of a run are its logged results numbered 1 to N in order, then the plan 1..N, whatever the counter held |
| `Logging.CheckedIsLoggedPlusFailedSetups` | src/check_run.c:335-351 | the tests checked are the tests logged plus one for each failed unchecked setup |
| `Loggers.LogList.constructor` | src/check_log.c:502-531 | one logger for the output and one per open file, and each has received INITLOG |
| `Loggers.LogList.Register` | src/check_log.c:113-129 | a fresh logger behind the others |
| `Loggers.LogList.Call` | src/check_log.c:340-382 | the TAP logger counts and writes as specified, the others do not touch its counter |
| `Loggers.LogList.SendEvt` | src/check_log.c:164-176 | every logger receives the event exactly once |
| `Loggers.LogRun` | src/check_log.c:131-176 | for every run that completes, each logger receives exactly the events the run sends, in the language, and the TAP file numbers the tests of the forecast 1 to N with plan 1..N |
| `Runner.SRunner.SetupMessaging` | src/check_msg.c:208-211 | opens a pipe unless a run is already nested in another |
| `Runner.SRunner.TeardownMessaging` | src/check_msg.c:213-216 | closes it with whatever nobody read |
| `Runner.SRunner.MarkPoints` | src/check.c:360-363 | the points are sent in order until one cannot be sent |
| `Runner.SRunner.AssertFailed` | src/check.c:365-401 | the location and the text of the failure are sent, in this order |
| `Runner.SRunner.RunSetup` | src/check_run.c:290-333 | runs setups as specified, in a child or not |
| `Runner.SRunner.RunTeardown` | src/check_run.c:361-386 | runs teardowns as specified; outside a child a failure jumps out of the loop |
| `Runner.SRunner.RunTfunNofork` | src/check_run.c:407-452 | one test without a child, as specified |
| `Runner.SRunner.RunTfunFork` | src/check_run.c:473-567 | one test with a child, as specified |
| `Runner.SRunner.AddFailure` | src/check_run.c:279-288 | the result is appended and the right counters go up |
| `Runner.SRunner.RunInit` | src/check_run.c:150-156 | a pipe and the opening events, or an error and no change |
| `Runner.SRunner.RunEnd` | src/check_run.c:158-165 | the closing events and the pipe gone |
| `Runner.SRunner.IterateTfuns` | src/check_run.c:234-277 | every test of the case for every value of its loop variable, as specified |
| `Runner.SRunner.RunTcase` | src/check_run.c:398-405 | unchecked setups, tests, unchecked teardowns, as specified |
| `SuiteRunner.TCase.AddTest` | src/check.c:253-269 | the test is appended to the case |
| `SuiteRunner.TCase.Add` | src/check.c:282-315 | the fixtures are stored as registration asks |
| `SuiteRunner.TCase.SetTags` | src/check.c:191-200 | the tags are the words of the string |
| `SuiteRunner.Suite.AddTCase` | src/check.c:243-251 | a case that is there is not added again, so the list stays free of duplicates |
| `SuiteRunner.Suite.HasCase` | src/check.c:78-94 | found if and only if a case of the suite has the name |
| `SuiteRunner.Wanted` | src/check_run.c:203-220 | the name and tag tests decide the declarative selection predicate |
| `SuiteRunner.SuiteIsWanted` | src/check_run.c:190-192 | the suite tests decide the declarative selection predicate |
| `SuiteRunner.RunCasesOf` | src/check_run.c:196-223 | every wanted case once, in order, although selection and tests move cursors |
| `SuiteRunner.RunSuitesOf` | src/check_run.c:185-226 | every wanted suite once, in order |
| `SuiteRunner.IterateSuites` | src/check_run.c:167-232 | runs exactly what the selection says |
| `SuiteRunner.RunTagged` | src/check_run.c:771-822 | for every script the run follows the specification, and when it completes the pipes are as it found them |
| `SuiteRunner.StaysConsistent` | src/check_run.c:279-288 | counters that count the results stay right whatever a run adds |
| `SuiteRunner.Failures` | src/check.c:475-494 | an array of exactly the results that are not passes, in order, by walking the list with its cursor |
| `SuiteRunner.NonPassAt` | src/check.c:484-494 | a result is among the failures if and only if it is not a pass, once, and they keep their order |
| `SuiteRunner.AllResults` | src/check.c:496-511 | an array of exactly all results, in order, by walking the list with its cursor |
| `WholeRun.ReportsWhatHappened` | src/check_run.c:771-822 | end to end, for every script, with children or without: the run completes if and only if the forecast does, the wanted cases ran, exactly the foretold functions were called, every result is the one that what they did calls for, counters agree, events are in order, and checked tests are TAP lines plus failed unchecked setups |
| `WholeRun.CountersAlwaysRight` | src/check_run.c:279-288 | after any sequence of runs n_checked, n_failed and n_errors are the counts over the results, all of them decided and with a message |
| `Sink.Out.Emit` | lib/snprintf.c:469-474 | OUTCHAR: the text grows by one, and the buffer shows as much of it as fits |
| `Sink.Out.Terminate` | lib/snprintf.c:899-903 | the NUL stands behind what fits, and nothing is written with size zero |
| `Digits.ReadDigits` | lib/snprintf.c:1397-1410 | reading the digits of a number back yields the number |
| `Digits.DigitsFit` | lib/snprintf.c:410-417 | no 64-bit number outgrows the conversion buffer |
| `Digits.Convert` | lib/snprintf.c:1397-1410 | the digits in reverse, as many as the buffer has room for |
| `StandardInt.LetterCase` | lib/snprintf.c:1397-1407 | without the capitals flag no digit is a capital letter, and with it none is a small one |
| `StandardInt.NumeralAgrees` | lib/snprintf.c:1397-1410 | the digits are the number in positional notation, spelled as paragraph 8 of section 7.19.6.1 of C99 spells them |
| `IntFormat.FmtStr` | lib/snprintf.c:912-944 | the string cut at the precision and padded to the width; NULL prints a word |
| `IntFormat.GroupedLength` | lib/snprintf.c:1343-1374 | the separator characters printed are those getnumsep announces, for every digit count and separator |
| `FloatLayout.GroupedFromRight` | lib/snprintf.c:1038-1043 | the separators stand between threes counted from the right |
| `IntFormat.EmitDigits` | lib/snprintf.c:1038-1043 | the digits with separators behind every third from the end |
| `IntFormat.FmtInt` | lib/snprintf.c:946-1048 | emits the specified text for every integer, base, width, precision and flags |
| `IntFormat.IntLength` | lib/snprintf.c:998-1047 | without quotes the text has exactly max(width, sign + prefix + max(precision, digits)) characters |
| `IntFormat.IntReadsBack` | lib/snprintf.c:946-1048 | reading the text back yields the value |
| `StandardInt.StandardIff` | lib/snprintf.c:946-1048 | the text is the one paragraphs 4 to 8 of section 7.19.6.1 of C99 ask for, written without the library's own functions, if and only if value and precision are not both zero (`#` octal aside) |
| `StandardInt.QuotedPrecisionIff` | lib/snprintf.c:998-1046 | with quotes the text shows as many digits as the precision asks for if and only if there are no separators or the digits alone are as many |
| `StandardInt.QuotedWidthIff` | lib/snprintf.c:998-1047 | with quotes the text has max(width, natural length) characters under the same condition and no other |
| `StandardInt.QuotedLength` | lib/snprintf.c:998-1047 | how long the text is with quotes, for every input |
| `StandardInt.QuotedCount` | lib/snprintf.c:998-1047 | how many digits it shows |
| `StandardInt.QuotedFallsShort` | lib/snprintf.c:998-1047 | an input for which neither precision nor width is met |
| `Decimal.MyPow10` | lib/snprintf.c:1444-1458 | the power of ten, for positive and negative exponents |
| `Decimal.GetExponent` | lib/snprintf.c:1376-1395 | the largest exponent between -99 and 99 whose power of ten does not exceed the magnitude; 0 for zero |
| `Decimal.ExponentUnique` | lib/snprintf.c:1376-1395 | that exponent is unique |
| `Decimal.Cast` | lib/snprintf.c:1412-1434 | the integer part, or UINTMAX_MAX where it does not fit |
| `Decimal.MyRound` | lib/snprintf.c:1436-1442 | rounding half up |
| `Decimal.WithinHalfUnit` | lib/snprintf.c:1436-1442 | rounding at a place moves a magnitude by at most half a unit of the place |
| `FloatFormat.ScaleValue` | lib/snprintf.c:1162-1199 | cutting off the integer part, rounding the fraction and carrying gives the digits of the rounded value; overflow exactly from UINTMAX_MAX on |
| `FloatFormat.Carry` | lib/snprintf.c:1180-1199 | a fraction that rounds up to one carries into the integer part, and a significand of ten becomes one |
| `FloatFormat.Again` | lib/snprintf.c:1141-1224 | the jump back to the rounding is taken at most once, and settles style and precision as '%g' asks |
| `FloatFormat.ConvertExponent` | lib/snprintf.c:1226-1249 | letter, sign and the last two digits of the exponent |
| `FloatFormat.MeasureFraction` | lib/snprintf.c:1251-1267 | leading zeros, digits and omitted zeros make up the fraction shown, and its length |
| `FloatFormat.FmtFlt` | lib/snprintf.c:1050-1341 | emits the specified text, or reports overflow and emits nothing |
| `FloatReads.FieldReads` | lib/snprintf.c:1251-1341 | whatever sign, zeros, blanks and stripped zeros the field has, reading it gives what digits and exponent spell |
| `FloatReads.StripKeepsValue` | lib/snprintf.c:1258-1267 | dropping zeros at the end of the fraction keeps the number |
| `FloatLayout.FieldLayout` | lib/snprintf.c:1078-1341 | for every finite value the field is sign, integer part, point, fraction, exponent and padding as the standard words them: sign, capitals, point exactly with `#` or before digits, `%g` without a zero at the end of its fraction |
| `FloatLayout.ShownFraction` | lib/snprintf.c:1251-1341 | read off the characters: `%g` without `#` shows no fraction or one that does not end in a zero, and no point without a fraction; every other conversion shows all its places |
| `FloatLayout.ShortestFraction` | lib/snprintf.c:1258-1267 | such a fraction is the shortest of its value |
| `FloatLayout.WordLayout` | lib/snprintf.c:1088-1109 | infinities and NaN are words with a sign, in capitals for capital letters, padded with blanks only |
| `FloatAccuracy.FloatReadsBackIff` | lib/snprintf.c:1050-1341 | for every finite value that does not overflow, the text reads back as the value rounded at its last place if and only if it is not '%e' or '%g' of a value within half a unit below 10 to the 100 |
| `FloatAccuracy.TooNearExists` | lib/snprintf.c:1226-1249 | for every precision there is a value that does round up to 10 to the 100 |
| `FloatAccuracy.TextWithinHalf` | lib/snprintf.c:1050-1341 | in every style, the text is otherwise within half a unit of the last place |
| `FloatAccuracy.FixedWithinHalf` | lib/snprintf.c:1162-1199 | '%f' works exactly below UINTMAX_MAX and is within half a unit of its last place, the one asked for or the 19th |
| `FloatAccuracy.OneDigit` | lib/snprintf.c:1162-1199 | from 10 to the -99 up to 10 to the 100 an exponent style has exactly one integer digit, not zero, after the carry |
| `FloatAccuracy.ScientificWithinHalf` | lib/snprintf.c:1141-1249 | '%e' of whatever does not overflow or round up to 10 to the 100 is within half a unit of the last place of its exponent |
| `FloatAccuracy.ScientificOverflowIff` | lib/snprintf.c:1162-1168 | '%e' overflows exactly from UINTMAX_MAX times 10 to the 99 on |
| `FloatAccuracy.FractionLengthIff` | lib/snprintf.c:1141-1160 | '%f' and '%e' show the places asked for if and only if these are at most 19 |
| `FloatAccuracy.GeneralStyleIff` | lib/snprintf.c:1201-1224 | '%g' takes the style of paragraph 8, fixed where P > X >= -4, if and only if not P > X > 19 |
| `FloatAccuracy.SignificantIff` | lib/snprintf.c:1111-1224 | '%g' shows P significant digits if and only if P <= 20 and, in the fixed style, P - 1 - X <= 19 |
| `FloatAccuracy.GeneralFallsShort` | lib/snprintf.c:1111-1224 | an input for which it does not, and whose text is further than half a unit of the P-th digit from the value |
| `FloatAccuracy.GeneralOverflowIff` | lib/snprintf.c:1162-1224 | '%g' overflows exactly where '%e' does, or where 20 or more digits of a value from UINTMAX_MAX on call for the fixed style |
| `FloatAccuracy.GeneralWithinHalf` | lib/snprintf.c:1111-1224 | where '%g' shows P significant digits it is within half a unit of the P-th, in either style |
| `FloatAccuracy.FloatLength` | lib/snprintf.c:1269-1341 | the text has exactly max(width, sign + digits + separators + point + fraction + exponent) characters |
| `DirectiveLaws.DirectiveRoundTrip` | lib/snprintf.c:541-669 | every directive, as section 7.19.6.1 of C99 writes it, with a modifier the library reads, is read as itself, and reading stops right behind it |
| `DirectiveLaws.WrittenRoundTripIff` | lib/snprintf.c:627-669 | with every modifier of C99: a written directive is read as itself if and only if the modifier is not ll; otherwise its conversion is left over as text |
| `DirectiveLaws.LongLongPrintsLetter` | lib/snprintf.c:668-889 | with ll no argument is taken and the conversion letter is printed |
| `DirectiveLaws.LongLongFails` | lib/snprintf.c:635-645 | "%lld" of any argument prints "d" |
| `DirectiveLaws.AcceptedIff` | lib/snprintf.c:572-626 | for every conversion: a decimal width and precision are accepted if and only if they are at most INT_MAX, and then the conversion is done with these two numbers; otherwise printing stops with an overflow, whatever follows |
| `ConversionLaws.SignedConversion` | lib/snprintf.c:670-703 | `%d` and `%i` take one argument and print the number it is in the signed type that the modifier names, in base 10: it reads back as that number and is the text of C99 where a digit is due |
| `ConversionLaws.UnsignedConversion` | lib/snprintf.c:704-750 | `%u`, `%o`, `%x` and `%X` the same in the unsigned type, in base 10, 8 and 16, the last with capitals |
| `ConversionLaws.FloatConversion` | lib/snprintf.c:751-802 | `%f`, `%e`, `%g` and their capitals take one value and print it in their style, or overflow; the text reads back as the value rounded at its last place under the exact condition |
| `ConversionLaws.StringConversion` | lib/snprintf.c:807-811 | `%s` prints the first characters of its string, as many as the precision allows, padded on the side the flag asks for |
| `ConversionLaws.CharConversion` | lib/snprintf.c:803-806 | `%c` prints its argument as one byte |
| `ConversionLaws.CharWidthIff` | lib/snprintf.c:803-806 | `%c` fills its field if and only if the width is at most one |
| `ConversionLaws.PointerConversion` | lib/snprintf.c:812-840 | `%p` prints a word for NULL and the address in base 16 with its prefix otherwise |
| `ConversionLaws.OtherConversion` | lib/snprintf.c:884-888 | `%%` prints itself and an unknown letter nothing, and neither takes an argument |
| `ConversionLaws.StarWidth` | lib/snprintf.c:577-592 | a star for the width prints as the number in its argument would, a negative one as a `-` flag and a width |
| `ConversionLaws.StarPrecision` | lib/snprintf.c:608-624 | a star for the precision prints as the number in its argument would, a negative one as none |
| `DirectiveLaws.FormatsCompose` | lib/snprintf.c:890-893 | two formats in a row print one after the other: no flag, width, precision, modifier or base outlives its directive |
| `Format.StepFlags` | lib/snprintf.c:541-571 | a flag is taken or the state moves on; what is ahead stays the same |
| `Format.StepWidth` | lib/snprintf.c:572-595 | a digit, a star or nothing; overflow exactly where the specified result is overflow |
| `Format.StepDot` | lib/snprintf.c:596-602 | a dot starts a precision |
| `Format.StepPrecision` | lib/snprintf.c:603-626 | a digit, a star or nothing, with the same overflow condition |
| `Format.StepMod` | lib/snprintf.c:627-667 | one of the length modifiers, never reading past the NUL |
| `Format.Conversion` | lib/snprintf.c:668-889 | the text of the conversion is emitted and its argument taken, for every conversion |
| `Format.StepConv` | lib/snprintf.c:668-894 | the conversion is done and every variable is back at its initial value |
| `Format.EndsQuietly` | lib/snprintf.c:532-533 | a format that ends within a directive prints nothing more |
| `Format.RunFormat` | lib/snprintf.c:532-898 | the machine terminates at the NUL and prints exactly the specified text |
| `Format.Vsnprintf` | lib/snprintf.c:494-910 | for every format, arguments and size: the buffer is the first min(length, size - 1) characters of the unbounded text and a NUL, nothing is written with size zero, and the result does not depend on the size |
| `StrdupPrintf.Attempt` | src/check_str.c:88-94 | one try: the length of the whole text, and the text itself if it fits |
| `StrdupPrintf.StrdupPrintf` | src/check_str.c:77-105 | returns the complete text, after at most two attempts, if and only if it can be formatted and the memory it needs can be had |
| `XmlEscape.FprintXmlEsc` | src/check_print.c:96-149 | the escaped characters of the string are written, one after the other |
| `XmlEscape.EscapeReadsBack` | src/check_print.c:96-149 | for every string, a reader of sections 2.2, 4.1 and 4.6 of XML 1.0 gets the string minus disallowed characters |
| `XmlEscape.EscapeIsInert` | src/check_print.c:112-136 | nothing in the output is an angle bracket, a quote or unprintable |

## Left out

- Real processes, signals, timers and temporary files: their outcomes are inputs of the model (the script, the status a child ends with).
- Several processes writing one file, and thread cancellation inside `fwrite`: the mutex does not cover the first and the C library decides the second.
- At the level of the runner a child writes whole messages; a write that is cut off is covered by `Append.AppendIsAtomic` and `Codec.TornFileIsRejected` only.
- Fork status and jump buffers across nested runs: `srunner_run_end` always sets CK_FORK, so they are not restored.
- The wording of messages about signals and exits is a datatype (`Results.Note`), not the text that `snprintf` makes of it; the text of an assertion is given, not formatted into its BUFSIZ buffer.
- The lists of fixtures and tests inside a case are sequences, not cursor lists: their loops run no other loop over the same list.
- Environment variables and fork-status lookup: the selection is given as it is after the environment was consulted.
- Receive.Punpack: the file's position after an error is not stated, because the process ends.
- Locales: the decimal point is a dot and the separator a parameter. IEEE rounding of `long double`: values are exact reals.
- `%n`, arguments of the wrong type, a width of INT_MIN and the most negative `intmax_t` have no meaning in the model, as C leaves them undefined.
- XmlEscape.FprintXmlEsc: `char` is taken as signed, so bytes above 7F are dropped; where it is unsigned the source writes them as character references.
- The list of results inside the runner is a sequence; `SuiteRunner.Failures` and `SuiteRunner.AllResults` walk a cursor list that holds it.
- Loggers.LogRun: the loggers are a list of their own, beside the runner; the events they are given are those that a completed run adds.
- FloatAccuracy.FloatReadsBackIff: not stated with the quote flag, because the separator may be any text, digits included; the same holds for IntFormat.IntReadsBack and the accuracy lemmas.
- ConversionLaws.SignedConversion: reading back is not stated with the quote flag; grouping and lengths are (FloatLayout.GroupedFromRight, StandardInt.QuotedLength, StandardInt.QuotedCount).
- DirectiveLaws.LongLongPrintsLetter: stated for widths and precisions that are decimal numbers within INT_MAX; what a larger one does is DirectiveLaws.AcceptedIff.
- Lengths as `size_t`: the text length is an unbounded number.
- Standard output, log, XML and subunit text, `percent_passed`, timeouts and clock functions, `checkmk`, and the other compatibility functions in `lib/`: printing, library semantics or easy members only.
