# Verified models of the repository's cores

This project models, in Dafny, the parts of the repository with the most intricate behaviour and proves what they
are for.  Each directory is one of them.

- `catch/`: the section tracker and the generators of the Catch test runner.  `TrackerModel` has every tracker
  operation as a step on values, `TrackerObjects` the same as methods on linked trackers, proved to take these steps.
  `TrackerSchedule` says which cycles a test needs, from its section tree alone; `TrackerRuns`, `TrackerTest` and
  `TrackerLeaves` prove that the loop of `runTest` makes exactly these cycles and what follows for the leaf sections,
  `TrackerMoments` what holds in the middle of a cycle.  `Generators` is the odometer that drives the outer loop.
- `parson/`: the JSON library.  `Parser` and `Printer` say what is parsed and printed, `RoundTrip` that one undoes
  the other.  `Grammar` has the texts of JSON as syntax trees, without saying how they are read; `GrammarNumbers`,
  `GrammarStrings` and `GrammarTexts` prove that exactly these are accepted, and as what, `PrintTree` which of them is
  printed, and `GrammarComments` that comments between the tokens change nothing.  `ParserCode`, `StringCode`,
  `PrinterCode` and `Containers` are the cursor, buffer and growing-array code, proved to do that.  `Utf8` and `Strings`
  are the string decoding (section 3 of RFC 3629, section 7 of RFC 8259, section 2.2 of RFC 2781), `Paths` and
  `PathObjects` dotted paths, `Equality` comparison and deep copy, `Comments`, `CommentKinds` and `CommentCode` the
  comment stripper.
- `merge/`: the loser-tree merge of market quotes, and the pairwise merge of its test driver, with which it agrees.
- `logger/`: the log ring buffer as a machine of single stores (`LogMachine`), taken by a producer and a worker in any
  order; `LogRuns` says which runs print in order, which print everything and that the worker catches up, `LogCases` has
  the runs that do not, and `LogObject` the object with whole calls.
- `puzzles/`: five algorithms with a global claim each: least duplicate removal, integer break, stock trading with a
  day of rest, the n-th digit, and a tree printer that is unambiguous and as short as can be.

Where the code does not meet what one would expect of it, the model keeps the code and says exactly when it does:

- Catch: a section that has sections of its own and throws after some of them loses those it has not come to, because
  the innermost section of an unwinding is marked as failed and is never entered again.  Every leaf is entered once
  exactly when no such section throws at an end it reaches more than once (`EachLeafOnce`).
- Logger: `_next` is stored twice when it wraps.  A worker that compares in between, with its own index back at the
  start, takes the empty ring for a full one (`TornTestHappens`).  A run prints in order exactly when the worker never
  prints while nothing waits (`FifoExactly`); a torn comparison may (`TornPrintsTooMuch`) or may not (`TornHealed`) lead
  to that.  And a shutdown while a call of `log` is between its test of the state and its store can leave one accepted
  line unprinted (`LateLineIsLost`): exactly when the worker finds the ring empty for the last time during that call
  (`AllPrintedExactly`).
- parson: a comment that never ends is blanked only at its start, so that a second pass may blank more
  (`Idempotent`, `TwiceIsNotOnce`).  The pass for block comments runs first and does not know line comments: it takes a
  block comment (`BlockWithinLine`) or a quote (`QuoteInLineComment`) in one for what it would be outside.  A value that
  nests 20 deep prints but does not parse (`TextBack`).  A lone minus sign parses as zero without being read, a numeral
  such as `0e5` is refused, as is a not-a-number with an x in its payload, and an escaped NUL ends the string it is in;
  the models have these cases as the code does.
- Merge: a code decodes to its tick exactly when the row is below 2^20 and the column below 2^12 (`CodeIsTick`).

The model takes the code's form: objects with the source's fields and methods, arrays filled by loops, recursion where
the source recurs.  A method's contract ties its result to a function of its arguments, and the lemmas say what that
function means.

## Model

| member | source | states |
|---|---|---|
| TrackerLeaves.EachLeafOnce | cplusplus/catch/catch.hpp:6598-6607 | for every section tree with distinct sibling names, the whole run enters every leaf exactly once and in body order if and only if no section with sections throws at an end it reaches more than once |
| TrackerLeaves.EachLeafOnceWhenLeavesThrow | cplusplus/catch/catch.hpp:6684-6705 | in particular when only leaf sections throw |
| TrackerLeaves.ThrowingSectionLosesLeaf | cplusplus/catch/catch.hpp:6697-6705 | a section that throws after its first of two leaves never enters the second: why the condition is needed |
| TrackerMoments.SiblingsInOrder | cplusplus/catch/catch.hpp:6110-6181 | between two cycles and at every moment of a cycle, at every level, a section that was started comes after complete ones only |
| TrackerMoments.ReadyMoments | cplusplus/catch/catch.hpp:6654-6705 | at every moment of a running body its complete sections form a prefix, all but one of the others were never entered, and no tracker outside the section has changed |
| TrackerLeaves.LeavesDiffer | cplusplus/catch/catch.hpp:6071-6078 | distinct sibling names make all leaf paths different |
| TrackerTest.WholeRun | cplusplus/catch/catch.hpp:6598-6607 | the loop ends with the test case's tracker completed, without a logic error, having entered exactly the sections of the test's schedule in order |
| TrackerTest.CycleCorrect | cplusplus/catch/catch.hpp:6602-6607 | each cycle takes exactly the first event that was left, enters the sections on the way to it, and keeps the invariant between cycles |
| TrackerTest.RunSteps | cplusplus/catch/catch.hpp:6602-6607 | each pass has less left to do, and stops exactly when the test case's tracker has completed |
| TrackerRuns.SectionCorrect | cplusplus/catch/catch.hpp:6654-6705 | entering the first section that is not complete takes the first event left below it and leaves all other trackers as they were |
| TrackerRuns.BodyCorrect | cplusplus/catch/catch.hpp:6772-6809 | running a body takes one event of what is left below it |
| TrackerModel.OpenChildMarks | cplusplus/catch/catch.hpp:6125-6131 | the trackers marked are exactly those from the given one upwards as far as the first that has the mark, and no other changes |
| TrackerModel.FindOrAdd | cplusplus/catch/catch.hpp:6110-6119 | adds at most the one tracker asked for and keeps parents and children agreeing |
| TrackerRuns.CloseSteps | cplusplus/catch/catch.hpp:6143-6171 | closing the current tracker while its body runs completes it exactly when it opened nothing or its last child is complete, moves to the parent and ends the cycle |
| TrackerModel.SectionStarted | cplusplus/catch/catch.hpp:6654-6671 | the section becomes active exactly when it is to run |
| TrackerModel.RunSection | cplusplus/catch/catch.hpp:6654-6705 | a section block leaves the stack of active sections as it found it, however it is left |
| TrackerObjects.Tracker.OpenChild | cplusplus/catch/catch.hpp:6125-6131 | the method on the linked objects takes the model's step |
| TrackerObjects.Tracker.Open | cplusplus/catch/catch.hpp:6136-6141 | the same, with the current tracker moved here |
| TrackerObjects.Tracker.FindChild | cplusplus/catch/catch.hpp:6114-6119 | finds the child of that name, and none exactly when the model has none |
| TrackerObjects.Tracker.AddChild | cplusplus/catch/catch.hpp:6110-6112 | pushes the child, and the model tree gains exactly it |
| TrackerObjects.Tracker.CloseState | cplusplus/catch/catch.hpp:6149-6168 | the switch over the six states, logic error included |
| TrackerObjects.Tracker.Close | cplusplus/catch/catch.hpp:6143-6171 | closes what is open below and then itself, as the model does |
| TrackerObjects.Tracker.Fail | cplusplus/catch/catch.hpp:6172-6181 | fails, marks the parent and ends the cycle, as the model does |
| TrackerObjects.RunContext.Acquire | cplusplus/catch/catch.hpp:6210-6231 | finds or makes the child tracker and opens it under the model's conditions |
| TrackerObjects.RunContext.SectionStarted | cplusplus/catch/catch.hpp:6654-6671 | as the model |
| TrackerObjects.RunContext.SectionEnded | cplusplus/catch/catch.hpp:6684-6695 | as the model |
| TrackerObjects.RunContext.SectionEndedEarly | cplusplus/catch/catch.hpp:6697-6705 | as the model: only the innermost section of an unwinding fails |
| TrackerObjects.RunContext.RunCurrentTest | cplusplus/catch/catch.hpp:6772-6809 | as the model, unfinished sections handled after the close |
| TrackerObjects.RunContext.RunTest | cplusplus/catch/catch.hpp:6598-6607 | the loop on objects terminates in the state of the whole run, so all of the above holds of it |
| Generators.EveryTupleOnce | cplusplus/catch/catch.hpp:7984-7992 | every tuple of indices is visited after exactly one number of moves before the loop ends |
| Generators.LastMove | cplusplus/catch/catch.hpp:7984-7992 | a move answers false exactly at the last tuple, and leaves all zeros |
| Generators.AdvanceRank | cplusplus/catch/catch.hpp:7948-7992 | a move adds one to the mixed-radix position, or wraps from the last tuple to zeros |
| Generators.RankInjective | cplusplus/catch/catch.hpp:7984-7992 | different tuples have different positions |
| Generators.RankOfNewGenerator | cplusplus/catch/catch.hpp:7973-7982 | a generator met in the middle of a run leaves the position unchanged |
| Generators.GeneratorInfo.MoveNext | cplusplus/catch/catch.hpp:7948-7954 | one wrapping counter |
| Generators.GeneratorsForTest.GetGeneratorInfo | cplusplus/catch/catch.hpp:7973-7982 | the generator of a place, made once, at index zero, at the end of the list |
| Generators.GeneratorsForTest.MoveNext | cplusplus/catch/catch.hpp:7984-7992 | the loop over the counters is the odometer step |
| Generators.GeneratorsForTest.AllPasses | cplusplus/catch/catch.hpp:6597-6610 | whatever generators the passes ask for on the way, the loop makes one pass for each tuple of the generators known at the end: the pass number k has the k-th tuple, zero for generators not met yet, and all indices end at zero |
| Generators.GeneratorsForTest.OnePass | cplusplus/catch/catch.hpp:7973-7992 | a pass and the move after it: one position on, or back to zeros exactly from the last position |
| RoundTrip.PrintedBack | cplusplus/jsonbenchmark/parson.c:588-751 | parsing a printed value, plain or pretty, at any nesting, with anything after it that does not go on a numeral, gives the value back without spare capacity and stops exactly after it, if and only if it nests no deeper than 19; otherwise it fails |
| RoundTrip.TextBack | cplusplus/jsonbenchmark/parson.c:1001-1006 | the same for whole texts |
| RoundTrip.ReadPrintedRead | cplusplus/jsonbenchmark/parson.c:1001-1006 | whatever text a value with 32-bit numbers was read from, its printed form reads as exactly that value |
| RoundTrip.ParsedIsSound | cplusplus/jsonbenchmark/parson.c:588-751 | whatever is parsed has unique keys, keeps all limits, has no spare capacity and nests no deeper than allowed |
| RoundTrip.NumberBack | cplusplus/jsonbenchmark/parson.c:731-742 | the numeral printed for an integer reads as it and passes `is_decimal`, also negative and zero |
| RoundTrip.ItemsBack | cplusplus/jsonbenchmark/parson.c:664-702 | the printed items of an array, from any state of the growing array, are added in order up to the closing bracket |
| RoundTrip.EntriesBack | cplusplus/jsonbenchmark/parson.c:613-662 | the same for an object with unique keys, in key order |
| RoundTrip.PrintHasNoNul | cplusplus/jsonbenchmark/parson.c:898-957 | a printed text holds no NUL, so the C string is the whole text |
| GrammarTexts.ParsesExactly | cplusplus/jsonbenchmark/parson.c:588-751 | against a grammar of syntax trees that does not mention the parser: a text is parsed to a value and a rest if and only if it is blanks, the spelling of a legal tree for that value, with any blanks between its tokens, and that rest, or blanks before a minus sign that begins no numeral and is left there |
| GrammarTexts.RefusesExactly | cplusplus/jsonbenchmark/parson.c:588-611 | so a text is refused exactly when it begins with nothing of the grammar |
| GrammarTexts.NodeReads | cplusplus/jsonbenchmark/parson.c:588-751 | every spelling of every tree within the limits, whatever its blanks, escapes and numerals, is parsed to what the tree stands for, up to its end |
| GrammarTexts.NodeFound | cplusplus/jsonbenchmark/parson.c:588-751 | whatever is parsed, other than the lone minus sign, has a tree written there |
| GrammarNumbers.NumeralReads | cplusplus/jsonbenchmark/parson.c:731-742 | every numeral that `strtod` reads and `is_decimal` lets through is consumed whole, and an exact integer has its value |
| GrammarNumbers.NumeralFound | cplusplus/jsonbenchmark/parson.c:218-230 | and no other: where a number is read one of these numerals is written, and what follows does not go on it |
| GrammarStrings.TextReads | cplusplus/jsonbenchmark/parson.c:524-586 | a literal in any spelling of its characters reads as what they stand for |
| GrammarStrings.TextFound | cplusplus/jsonbenchmark/parson.c:524-586 | and whatever literal is accepted is made of such characters |
| PrintTree.PrintIsLaid | cplusplus/jsonbenchmark/parson.c:764-896 | what is printed for a value is the text of any tree for it in the chosen spelling and the stated layout: no blank at all, or four blanks for each open bracket on every line and one after a colon |
| PrintTree.LaidOnce | cplusplus/jsonbenchmark/parson.c:764-896 | two such trees for the same value are the same text |
| PrintTree.QuotedIsChosen | cplusplus/jsonbenchmark/parson.c:898-957 | each byte of a string is written in the chosen spelling: the escape of one letter where there is one, slash included, the lower-case escape of its number for other control bytes, and otherwise itself |
| PrintTree.ChosenOnce | cplusplus/jsonbenchmark/parson.c:898-957 | a byte has only one such spelling |
| PrintTree.PrintEmbeds | cplusplus/jsonbenchmark/parson.c:898-957 | in a printed text each slash has a backslash before it, so that `</` never occurs, and the only byte below 32 is the line feed of pretty printing |
| ParserCode.ParseJson | cplusplus/jsonbenchmark/parson.c:588-611 | the cursor code parses exactly as specified, so by `ParsesExactly` what the grammar allows and nothing else, and leaves the cursor where the value ends |
| ParserCode.ParseArrayValue | cplusplus/jsonbenchmark/parson.c:664-702 | the loop over items with the growing array, trimmed at the end |
| ParserCode.ParseItem | cplusplus/jsonbenchmark/parson.c:677-686 | one item, added or refused at the capacity limit |
| ParserCode.ParseObjectValue | cplusplus/jsonbenchmark/parson.c:613-662 | the loop over keys and values with the growing object |
| ParserCode.ParseEntry | cplusplus/jsonbenchmark/parson.c:627-645 | one key and value; a repeated key fails |
| ParserCode.ParseNumberValue | cplusplus/jsonbenchmark/parson.c:731-742 | the cursor moves over the numeral, or not at all for a lone minus sign |
| ParserCode.CheckDecimal | cplusplus/jsonbenchmark/parson.c:218-230 | the backward loop decides exactly the rule on leading zeros and hexadecimal letters |
| ParserCode.ParseBooleanValue | cplusplus/jsonbenchmark/parson.c:718-729 | the two words |
| ParserCode.JsonParseString | cplusplus/jsonbenchmark/parson.c:1001-1006 | the value that `ParsesExactly` gives the text, or none exactly where `RefusesExactly` says |
| StringCode.Cursor.SkipQuotes | cplusplus/jsonbenchmark/parson.c:461-479 | succeeds exactly when there is a closing quote and stops behind it, pairs of a backslash and a byte skipped |
| StringCode.Cursor.GetQuotedString | cplusplus/jsonbenchmark/parson.c:577-586 | the string up to a NUL an escape may have put in, and the cursor behind the quote |
| StringCode.ParseUtf16 | cplusplus/jsonbenchmark/parson.c:481-519 | succeeds exactly on a code point or a proper surrogate pair, its digits in either case, writes its UTF-8 bytes, and never writes past what it has read |
| StringCode.ProcessString | cplusplus/jsonbenchmark/parson.c:524-573 | reads no byte after the closing quote, keeps the output place at or before the input place, and returns the unescaped bytes and a NUL, or fails exactly when an escape or byte is invalid |
| Strings.UnescapeMeans | cplusplus/jsonbenchmark/parson.c:524-573 | on valid UTF-8 the result is the UTF-8 encoding of the code points the literal stands for, each escape and surrogate pair being one |
| Strings.PointBack | cplusplus/jsonbenchmark/parson.c:481-519 | every escape of any code point, a surrogate pair beyond 0xFFFF, each hexadecimal digit in either case, is read as that code point and written as its UTF-8 |
| Strings.StaysValid | cplusplus/jsonbenchmark/parson.c:206-216 | so the result is valid UTF-8, also when cut at a NUL |
| Strings.QuotedBack | cplusplus/jsonbenchmark/parson.c:898-957 | a written string reads back as itself, and reading stops at its closing quote |
| Strings.RawOfEscaped | cplusplus/jsonbenchmark/parson.c:461-479 | the closing quote found is the one written |
| Strings.UnescapeEscaped | cplusplus/jsonbenchmark/parson.c:898-957 | every escape written is undone |
| Utf8.Accepted | cplusplus/jsonbenchmark/parson.c:164-204 | an accepted sequence is exactly the encoding of a scalar value: no overlong form, surrogate or value above 0x10FFFF |
| Utf8.AcceptsEncoded | cplusplus/jsonbenchmark/parson.c:149-204 | and every encoding is accepted, whatever follows it |
| Utf8.EncodeDecode | cplusplus/jsonbenchmark/parson.c:206-216 | every valid text is the encoding of its code points |
| Utf8.DecodeEncode | cplusplus/jsonbenchmark/parson.c:206-216 | every encoding is valid and decodes to its code points |
| Utf8.IsValidUtf8 | cplusplus/jsonbenchmark/parson.c:206-216 | the loop accepts exactly the texts that encode some code points |
| PrinterCode.Sink.SerializeValue | cplusplus/jsonbenchmark/parson.c:764-896 | returns the length of the text, with a buffer or without, writes exactly the text at the place of the pointer, ends it with a NUL, and touches nothing before it and at most one byte after it |
| PrinterCode.Sink.SerializeItems | cplusplus/jsonbenchmark/parson.c:782-801 | the loop over an array |
| PrinterCode.Sink.SerializeEntries | cplusplus/jsonbenchmark/parson.c:814-846 | the loop over an object, each value looked up by its key |
| PrinterCode.Sink.SerializeString | cplusplus/jsonbenchmark/parson.c:898-957 | writes the literal that `QuotedIsChosen` and `ChosenOnce` determine, byte by byte |
| PrinterCode.Sink.AppendIndent | cplusplus/jsonbenchmark/parson.c:959-966 | four spaces a level |
| PrinterCode.Sink.Append | cplusplus/jsonbenchmark/parson.c:968-973 | text and NUL with a buffer, the length without |
| PrinterCode.SerializationSize | cplusplus/jsonbenchmark/parson.c:1348-1352 | the sizing pass returns exactly the number of bytes of the text and its NUL |
| PrinterCode.SerializeToBuffer | cplusplus/jsonbenchmark/parson.c:1354-1365 | succeeds exactly when the buffer holds text and NUL, and leaves the bytes after them alone; on failure the buffer is untouched |
| PrinterCode.SerializeToString | cplusplus/jsonbenchmark/parson.c:1389-1406 | the buffer is filled exactly by the text and its NUL |
| Containers.JsonArray.Add | cplusplus/jsonbenchmark/parson.c:409-422 | appends, doubling from 15 to at most 122880; at the limit nothing changes |
| Containers.JsonArray.Resize | cplusplus/jsonbenchmark/parson.c:424-440 | keeps the items; zero is refused |
| Containers.JsonObject.NGet | cplusplus/jsonbenchmark/parson.c:373-385 | the value of the first entry with that name |
| Containers.JsonObject.Add | cplusplus/jsonbenchmark/parson.c:313-338 | appends a new name, doubling from 15 to at most 960; a name that is there, or the limit, changes nothing |
| Containers.JsonObject.Resize | cplusplus/jsonbenchmark/parson.c:340-371 | keeps the entries; zero is refused |
| Values.GrowsToTheLimit | cplusplus/jsonbenchmark/parson.c:321-329 | from nothing, adding fails exactly when the limit itself is reached |
| Paths.SetThenGet | cplusplus/jsonbenchmark/parson.c:1651-1681 | after a successful dotset, dotget of the name gives the value |
| Paths.SetThenGetBelow | cplusplus/jsonbenchmark/parson.c:1651-1681 | and any name below it gives what the value holds there |
| Paths.SetLeavesOthers | cplusplus/jsonbenchmark/parson.c:1651-1681 | and every name neither above nor below it gives what it gave before |
| Paths.SetFails | cplusplus/jsonbenchmark/parson.c:1651-1681 | dotset fails exactly when, on the way, there is a value that is no object, or a full object without the next key |
| Paths.EmptyTakes | cplusplus/jsonbenchmark/parson.c:1665-1677 | once a new intermediate object is put in, nothing fails any more, so a failed call has not changed anything |
| Paths.SetKeepsWellFormed | cplusplus/jsonbenchmark/parson.c:1651-1681 | keys stay unique and capacities within the limits |
| Paths.SetKeepsOrder | cplusplus/jsonbenchmark/parson.c:1651-1681 | in each object on the way the keys keep their order, and the next part of the name is added last exactly if it was not there |
| Paths.DotGetWalks | cplusplus/jsonbenchmark/parson.c:1052-1059 | dotget follows the dot-separated keys |
| Paths.SegmentsJoin | cplusplus/jsonbenchmark/parson.c:1052-1059 | a name below another has the other's keys and then its own |
| PathObjects.ObjectNode.DotSetValue | cplusplus/jsonbenchmark/parson.c:1651-1681 | in place on linked objects: succeeds exactly as specified, the tree then stands for the specified value, and on failure for the value it stood for |
| PathObjects.ObjectNode.DotGetValue | cplusplus/jsonbenchmark/parson.c:1052-1059 | the value at the name, a nested object as a reference into the tree |
| PathObjects.ObjectNode.Open | cplusplus/jsonbenchmark/parson.c:1663-1677 | the nested object under a key, or a new one added there |
| PathObjects.ObjectNode.SetValue | cplusplus/jsonbenchmark/parson.c:1615-1633 | over the old value or added |
| PathObjects.ObjectNode.Add | cplusplus/jsonbenchmark/parson.c:313-338 | as `json_object_add`, on objects |
| Equality.EqualMeansSame | cplusplus/jsonbenchmark/parson.c:1843-1902 | two well-formed values are equal exactly when they stand for the same thing, objects taken as maps |
| Equality.EqualIsEquivalence | cplusplus/jsonbenchmark/parson.c:1843-1902 | equality is reflexive, symmetric and transitive although only the left side's keys are looked up |
| Equality.ValueEquals | cplusplus/jsonbenchmark/parson.c:1843-1902 | the code decides that equality, two NULLs being equal |
| Equality.SameObject | cplusplus/jsonbenchmark/parson.c:1871-1886 | the loop over the left side's keys |
| Equality.DeepCopy | cplusplus/jsonbenchmark/parson.c:1272-1346 | never fails, and the copy is equal to its source and the same but for spare capacity |
| Equality.CopyArray | cplusplus/jsonbenchmark/parson.c:1281-1301 | no limit is met while the copy grows |
| Equality.CopyObject | cplusplus/jsonbenchmark/parson.c:1302-1323 | the same, each value looked up by its key |
| Comments.LiteralsKept | cplusplus/jsonbenchmark/parson.c:265-298 | of a text made of plain bytes, escaped bytes, literals and closed comments, every byte outside comments is kept and every comment blanked |
| Comments.Idempotent | cplusplus/jsonbenchmark/parson.c:265-298 | a second pass changes nothing if and only if every comment is closed or no other begins in the one that is not |
| Comments.TwiceIsNotOnce | cplusplus/jsonbenchmark/parson.c:286-289 | two slash-stars: the case where a second pass does change something |
| Comments.SecondPass | cplusplus/jsonbenchmark/parson.c:265-298 | what a second pass does in general |
| Comments.UnchangedWithout | cplusplus/jsonbenchmark/parson.c:281-294 | a pass leaves a text as it is exactly when no comment begins in it |
| Comments.OnlyBlanks | cplusplus/jsonbenchmark/parson.c:282-292 | a byte that is changed is changed to a space |
| Comments.PastLiteral | cplusplus/jsonbenchmark/parson.c:275-280 | a literal, as `skip_quotes` delimits it, is passed over unchanged |
| CommentKinds.BothKindsBlanked | cplusplus/jsonbenchmark/parson.c:1008-1021 | the two passes together: of a text of bytes, escaped bytes, literals and closed comments of either kind, every byte in a comment is blanked and every other kept; block comments may hold anything, line comments nothing the first pass reacts to |
| CommentKinds.BlockWithinLine | cplusplus/jsonbenchmark/parson.c:1008-1021 | a block comment that begins within a line comment is blanked first, over whatever lines it goes, and the line comment ends at the first line end behind it |
| CommentKinds.QuoteInLineComment | cplusplus/jsonbenchmark/parson.c:1015-1016 | a quote in a line comment begins a literal for the first pass, so block comments behind it stay |
| GrammarComments.CommentedReads | cplusplus/jsonbenchmark/parson.c:1008-1021 | a tree of the grammar with comments of either kind and blanks anywhere between its tokens, before and after it, is parsed to what it stands for, and the comments are where blanks were |
| GrammarComments.CommentedPrintReads | cplusplus/jsonbenchmark/parson.c:1008-1021 | so a printed value with such comments put between its tokens is parsed to that value |
| CommentCode.RemoveComments | cplusplus/jsonbenchmark/parson.c:265-298 | the in-place loop writes exactly the stripped text, of the same length, and nothing from the NUL on |
| CommentCode.BlankComment | cplusplus/jsonbenchmark/parson.c:282-293 | one comment overwritten, or only its start token when it never ends |
| CommentCode.StrStr | cplusplus/jsonbenchmark/parson.c:286 | the first place of the token |
| CommentCode.PrintedHasNoComments | cplusplus/jsonbenchmark/parson.c:1008-1021 | both passes leave a printed value alone, whatever its strings hold |
| CommentCode.TextBackWithComments | cplusplus/jsonbenchmark/parson.c:1008-1021 | so parsing with comments also gives a printed value back, under the same condition |
| CommentCode.JsonParseStringWithComments | cplusplus/jsonbenchmark/parson.c:1008-1021 | parses what both passes leave, which `BothKindsBlanked` and `CommentedReads` say of texts with comments |
| LoserTree.QuoteData.Adjust | algorithm/tournament_sort/merge_sort.c:49-83 | replaying from a leaf restores: every inner node holds the loser of its two subtrees' winners and l[0] the overall winner, which is that leaf if no loser has a smaller key |
| LoserTree.QuoteData.InitLoserTree | algorithm/tournament_sort/merge_sort.c:108-133 | for every leaf count the build from the sentinel ends in such a tree, without the sentinel, and with channel 0 in front if none has a smaller key |
| LoserTree.QuoteData.UpdateLoserTree | algorithm/tournament_sort/merge_sort.c:138-156 | the champion's channel moves to its next row or the filler, and the tree is restored |
| LoserTree.QuoteData.Champion | algorithm/tournament_sort/merge_sort.c:161-179 | the champion is a least of the channels' next rows, and the filler exactly when all are used up |
| LoserTree.QuoteData.PopTick | algorithm/tournament_sort/merge_sort.c:161-179 | takes a least next row and returns its code, or the end mark exactly when all channels are used up; the channel is in front again if its next row is a least one |
| LoserTree.QuoteData.PopsInBounds | algorithm/tournament_sort/merge_sort.c:139-149 | the row and the channel the update reads exist exactly as long as not all channels are used up |
| LoserTree.QuoteData.LoadQuoteC | algorithm/tournament_sort/merge_sort.c:195-210 | all channels stand at their first row and the tree is built |
| LoserTree.QuoteData.PopAll | algorithm/tournament_sort/test.py:99-112 | popping to the end is a complete merge, in which a channel goes on for as long as no other has a smaller key |
| LoserTree.EndOrTick | algorithm/tournament_sort/merge_sort.h:7-10 | the end mark is not the code of a tick |
| Ticks.CodeIsTick | algorithm/tournament_sort/merge_sort.h:7-10 | no code is the end mark, and a code decodes to its row and column exactly when they fit 20 and 12 bits |
| Tournament.FullTree | algorithm/tournament_sort/merge_sort.c:108-133 | in a full tree no label is the sentinel and l[0] has a least key |
| Tournament.SentinelPath | algorithm/tournament_sort/merge_sort.c:115-119 | during the build the sentinel wins every place above a leaf not yet entered |
| Tournament.ChampionPath | algorithm/tournament_sort/merge_sort.c:49-83 | the champion is the winner at every place above its leaf |
| Tournament.ReplayStep | algorithm/tournament_sort/merge_sort.c:53-62 | one step of the replay loop keeps its invariant |
| MergeRuns.EveryRowOnce | algorithm/tournament_sort/merge_sort.c:158-179 | a complete run returns every row of every channel exactly once, in row order |
| MergeRuns.EachPairOnce | algorithm/tournament_sort/merge_sort.c:158-179 | so of the pairs of row and channel taken each that exists is there once, and no other |
| MergeRuns.KeysAscend | algorithm/tournament_sort/merge_sort.c:158-179 | from sorted channels the keys come out in order |
| MergeRuns.SortedMeans | algorithm/tournament_sort/merge_sort.c:121-130 | the order is that of the local times or of the exchange's, as the method says |
| MergeRuns.StayingMore | algorithm/tournament_sort/merge_sort.c:158-179 | a pick from the channel that has to go on keeps a run one in which channels go on while they can |
| MergeRuns.AllTaken | algorithm/tournament_sort/merge_sort.c:158-179 | the quotes returned are all the quotes, with their multiplicities |
| PairwiseMerge.MergeTwoQuote | algorithm/tournament_sort/test.py:7-46 | a merge of two lists, either of which may be missing: nothing lost, order kept, and of equals those of the first list first |
| PairwiseMerge.MergeItems | algorithm/tournament_sort/test.py:20-46 | its loop |
| PairwiseMerge.MergeQuotes | algorithm/tournament_sort/test.py:49-70 | the recursive merge of a list of lists: nothing lost, order kept, and equals in the order of the lists |
| PairwiseMerge.OneStableOrder | algorithm/tournament_sort/test.py:20-46 | there is only one such result |
| PairwiseMerge.PairUp | algorithm/tournament_sort/test.py:60-69 | one round over pairs, an odd list kept |
| PairwiseMerge.SameKeyOrder | algorithm/tournament_sort/test.py:93-112 | the loser tree and the pairwise merge give the same key sequence, however ties are broken |
| PairwiseMerge.CompareOrders | algorithm/tournament_sort/test.py:93-116 | the comparison of the test driver holds at every place: decoded pops have the keys of the pairwise merge, which is the stable order of the channels' rows, and are every row of every channel once |
| PairwiseMerge.TreeOrder | algorithm/tournament_sort/test.py:93-112 | from channels in any order, the codes popped decode to every row of every channel exactly once; among equals channel 0 comes first at the start and then the channel that came last |
| LogMachine.StepInBounds | cplusplus/cpplogger/logger.cpp:171-281 | whatever step producer, worker or shutdown takes in whatever order, no index leaves the slots |
| LogMachine.StepKeeps | cplusplus/cpplogger/logger.cpp:171-281 | every step keeps the invariant, a torn comparison included, except a print while nothing waits |
| LogMachine.EmptyPrintIsTooMuch | cplusplus/cpplogger/logger.cpp:188-200 | and that exception prints a line that was not accepted |
| LogRuns.FifoExactly | cplusplus/cpplogger/logger.cpp:171-281 | for every run of any steps: at every moment the printed lines are the first of the accepted lines in order, if and only if no step prints while nothing waits |
| LogRuns.RunIsFifo | cplusplus/cpplogger/logger.cpp:171-281 | after any such run the lines printed and then the lines waiting are the accepted lines in order, at most all slots but one wait, and once the worker has stopped at most one accepted line is not printed |
| LogRuns.CalmIsOrderly | cplusplus/cpplogger/logger.cpp:171-281 | a run without a torn comparison is such a run, and never prints from the slot being filled |
| LogRuns.StoppedOwes | cplusplus/cpplogger/logger.cpp:207-225 | once the worker has stopped, accepted lines not printed and the call in flight are one together if the worker found the ring empty for the last time during a call that then stores, and none if not |
| LogRuns.AllPrintedExactly | cplusplus/cpplogger/logger.cpp:207-225 | so for every run that prints in order and has ended, all accepted lines are printed if and only if the worker did not close during such a call, or the ring has one slot |
| LogRuns.AllPrintedAtStop | cplusplus/cpplogger/logger.cpp:207-225 | in particular when every shutdown comes while no call is running |
| LogRuns.WorkerStops | cplusplus/cpplogger/logger.cpp:207-225 | once shut down and left alone the worker takes a bounded number of steps, after which it has stopped and printed exactly the accepted lines |
| LogRuns.WorkerCatchesUp | cplusplus/cpplogger/logger.cpp:180-206 | while it is not told to stop, a worker left alone takes a bounded number of steps, from any state between calls and with any count, after which it has printed everything accepted and looks for more with the count at zero |
| LogRuns.LooksInTime | cplusplus/cpplogger/logger.cpp:188-203 | however fast lines come in, the worker prints at most 10000 before it looks whether it is to stop |
| LogRuns.SlotsCountLines | cplusplus/cpplogger/logger.cpp:249-276 | whatever the run, between calls the sequence numbers in the slots have grown together by the number of accepted lines |
| LogCases.LateLineIsLost | cplusplus/cpplogger/logger.cpp:257-281 | a run in which a shutdown between a call's test and its store loses an accepted line |
| LogCases.TornTestHappens | cplusplus/cpplogger/logger.cpp:271-273 | for every number of slots from two on, a run that ends in a torn comparison |
| LogCases.TornPrintsTooMuch | cplusplus/cpplogger/logger.cpp:188-201 | a torn comparison followed at once by the worker's next step breaks the order |
| LogCases.TornHealed | cplusplus/cpplogger/logger.cpp:188-201 | but when the next call ends before that step, the run prints in order and prints that call's line |
| LogCases.CallRuns | cplusplus/cpplogger/logger.cpp:249-276 | a call that is not interrupted, from any place in it, stores its line at the tail and moves the tail on by one, with wrapping |
| LogMachine.FullIsOneLeft | cplusplus/cpplogger/logger_impl.h:57-63 | `is_full` answers true exactly when one slot is left |
| LogObject.MyLog.LogStep | cplusplus/cpplogger/logger.cpp:249-276 | each step of `log` on the object is the machine's step, from any state in bounds |
| LogObject.MyLog.WorkerStep | cplusplus/cpplogger/logger.cpp:180-225 | each step of the worker is the machine's step, torn comparisons included |
| LogObject.MyLog.Log | cplusplus/cpplogger/logger.cpp:249-276 | a whole call: filtered, stopped, full, or the line stored and accepted |
| LogObject.MyLog.CatchUp | cplusplus/cpplogger/logger.cpp:180-206 | the worker's outer loop with no call running: it ends with everything accepted in the file and the count at zero |
| LogObject.MyLog.DrainAndStop | cplusplus/cpplogger/logger.cpp:207-225 | the worker's loops once it is told to stop: the file then holds exactly the accepted lines |
| LogObject.MyLog.Shutdown | cplusplus/cpplogger/logger.cpp:277-281 | as the machine's |
| DupLetters.Letters.RemoveDuplicateLetters | cplusplus/leetcode/remove_dup_letters.c:28-59 | the C string returned is the least of all subsequences with each distinct letter exactly once |
| DupLetters.KeptIsLeast | cplusplus/leetcode/remove_dup_letters.c:39-56 | the letters the scan keeps are that subsequence |
| DupLetters.FetchFirstSmallest | cplusplus/leetcode/remove_dup_letters.c:8-26 | the smallest letter up to the first that cannot be passed over, with the counts given |
| DupLetters.NoneBeginsBelow | cplusplus/leetcode/remove_dup_letters.c:8-26 | no solution begins with a letter below it |
| DupLetters.OneBeginsWith | cplusplus/leetcode/remove_dup_letters.c:8-26 | and one begins with it |
| DupLetters.Letters.CountLetters | cplusplus/leetcode/remove_dup_letters.c:30-37 | an entry for each letter, its number of occurrences |
| IntegerBreak.Solution.IntegerBreak | cplusplus/leetcode/interbreak.py:27-31 | the result is attained by a way to write n as a sum of two or more positive integers and exceeded by none |
| IntegerBreak.Solution.Fn1 | cplusplus/leetcode/interbreak.py:9-25 | each entry is computed from the one before |
| IntegerBreak.NoneGreater | cplusplus/leetcode/interbreak.py:27-31 | no way has a greater product |
| IntegerBreak.OneAttains | cplusplus/leetcode/interbreak.py:27-31 | and one has it |
| NthDigit.FindNthDigit | cplusplus/leetcode/nth_digit.c:15-32 | for every non-negative 32-bit n, the digit at place n of 0123456789101112..., with the product of round nine taken modulo 2^32 |
| NthDigit.FindsTheDigit | cplusplus/leetcode/nth_digit.c:15-32 | in unbounded integers, the digit for every place the eleven rounds reach and -1 beyond |
| NthDigit.AnswerInBlock | cplusplus/leetcode/nth_digit.c:3-25 | within the numbers of one length the offset arithmetic gives the digit |
| NthDigit.DigitAtAny | cplusplus/leetcode/nth_digit.c:15-32 | the digit at a place does not depend on how far the text is written |
| SellStock.MaxProfit | cplusplus/leetcode/sell_stock.c:35-48 | the result is attained by a legal schedule and exceeded by none |
| SellStock.NoneBetter | cplusplus/leetcode/sell_stock.c:41-46 | no schedule of the first days beats the table's entry for the phase it ends in |
| SellStock.OneAsGood | cplusplus/leetcode/sell_stock.c:41-46 | and some schedule reaches it |
| SellStock.SellingOut | cplusplus/leetcode/sell_stock.c:47 | with no negative price nothing is gained by keeping a share at the end |
| TreeString.DifferentTexts | cplusplus/leetcode/construct_string.c:26-47 | two different trees never give the same text |
| TreeString.SameTree | cplusplus/leetcode/construct_string.c:26-47 | the text can be read back, with what follows it, in one way only |
| TreeString.TextIsShortest | cplusplus/leetcode/construct_string.c:26-47 | of all texts that give the numbers in preorder with each child in brackets, where a missing child may be written as an empty pair, this is the one shortest |
| TreeString.TextSays | cplusplus/leetcode/construct_string.c:26-47 | and it is one of them |
| TreeString.NumberIs | cplusplus/leetcode/construct_string.c:16-24 | a number is written as the one decimal numeral without leading zeros that has its value |
| TreeString.Tree2Str | cplusplus/leetcode/construct_string.c:49-55 | the buffer holds the text, `gidx` is its length, and zeros follow to the end |
| TreeString.Writer.DfsWrite | cplusplus/leetcode/construct_string.c:26-47 | appends the text of the tree and keeps the zeros after it |
| TreeString.Writer.Strcat | cplusplus/leetcode/construct_string.c:22 | `strcat` from a place: at the first NUL, and a NUL after it |

## Left out

- LoserTree.QuoteData.PopTick: tests for the end before it updates the tree.  The source updates first, and when all channels are used up it indexes its arrays with -1; `PopsInBounds` says that this is the only such state.
- LoserTree.QuoteData.Adjust: stands for `adjust_by_local_time` and `adjust_by_exch_time`, which differ only in the key they compare.
- LoserTree.QuoteData.LoadQuoteC: needs each channel to have a row, and times of at most 2^64-3; the source reads row 0 of every channel and reserves the two largest keys.
- SellStock.MaxProfit: `int` overflow, and tables longer than the 10000 days the array has.
- NthDigit.FindNthDigit: in round nine `factor * base * i` overflows a signed `int`, which C leaves undefined; the model takes the value modulo 2^32, as two's complement hardware gives it.
- NthDigit.FindsTheDigit: the eleven bytes of the local buffer in `get_offset`, which a number of eleven digits would overrun.
- TreeString.Tree2Str: texts that do not fit the buffer of 1000 bytes.
- ParserCode.ParseNumberValue: which numerals are accepted, and up to where, is exact; but the numbers that are not integers up to 2^53 (fractions, exponents, greater integers, infinities, not-a-numbers) all stand as the one value `OTHER`, since floating point is not modelled. `strtod` is that of the C locale. Negative zero is zero.
- PrinterCode.Sink.SerializeValue: numbers outside 32 bits, which the source prints with `%f`, and `int` overflow of the byte count.
- PathObjects.ObjectNode.DotSetValue: names and values are sequences there and not arrays; the value set must not be part of the tree already, and freeing the old value is not modelled.
- Equality.ValueEquals: numbers are integers, for which the tolerance of one millionth is equality; other numbers are not compared.
- Equality.DeepCopy: nested values are copied as values, so that source and copy share nothing is not stated.
- TrackerObjects.RunContext.RunTest: a throw is placed at the end of a body; the sections after an earlier throw could never be entered.
- LogObject.MyLog.Log: the whole call with no other thread in between; what other threads may do between its steps is said of runs of single steps, in `LogRuns`.
- Generators.GeneratorsForTest.AllPasses: needs sizes of at least one (a counter of size 0 would only wrap with its `size_t`), and passes that from some pass on ask for no new generator.
- Memory: allocation succeeds; the order of `free` and pointer layout are not modelled.
- Catch: reporters, the command line, matchers, section filters, `IndexTracker`, aborting after a number of failures, and exceptions outside any section but the test case's own.
- parson: reading and writing files, removal and clearing, schema validation, the typed getters and setters, and `json_value_init_string`'s check as a caller of `is_valid_utf8`.
- Logger: more than one producer, weak memory order, the start of the worker racing with an early shutdown (runs start in state RUN), splitting and flushing files, time formatting, and the destruction of the object after the stop.
- CommentKinds.BothKindsBlanked: line comments that hold a quote, a backslash or a slash-star; `BlockWithinLine` and `QuoteInLineComment` say what then happens, not for every mixture of them.
- PairwiseMerge.TreeOrder: the full rule by which the loser tree orders equals, which depends on the shape of the tree; only who comes first and who goes on is stated.
- Merge: the Python binding, `load_quote`, and the driver's printing.
- The rest of the repository (Kafka, Redis, ZeroMQ, NTP, the epoll server, SSH, mock trading, converters and further exercises) is I/O, glue or unfinished.
