# HearthMonitor log reader, modelled in Dafny

HearthMonitor's log reader turns the text log of the Hearthstone game client
into typed log entries. A log reader pulls lines from a log source (through an
optional line filter). It hands each line to a set of entry parsers. The first
parser whose cheap `isParsable` test accepts the line and whose `parse`
succeeds produces the entry. A parser reads further lines of a multi-line
entry through a `LineReader` that the log reader gives it. When every
accepting parser fails, the log reader throws `NotReadableException` with
every line it consumed for that entry and one cause per failed parser.

The model covers three engines:

- `AbstractLogReader`. It keeps a peek buffer for `nextLineMatches` and a record of the lines consumed for the current entry.
- `DefaultLogReader`. It peeks through a `MatchingIterator` instead.
- `AbstractLineLogReader`. It is the older engine whose entry readers may peek any number of lines ahead.

It also covers the helpers those engines use:

- `MatchingIterator`, `IteratorUtils.filteredIterator` and `LogReaderUtils.fromInputAndExtraLineReader`, which builds the nested reader of the block parsers;
- `LogLineUtils`, `IntMatcher` and `EntityObjectParser`;
- the Hearthstone `[Power]` and `[Zone]` entry parsers: GameEntity, Player, ShowEntity, HideEntity, FullEntity, TagChange, Transitioning, ACTION_START and CREATE_GAME;
- the CREATE_GAME entry reader of the older engine.

## Structure

| file | module | models |
|---|---|---|
| `wrappers.dfy` | `Wrappers` | `Option` |
| `text.dfy` | `Text` | character classes and the greedy matching of the Java patterns used (literal text, `(\s*)`, `(.*)` groups) |
| `log_entries.dfy` | `LogEntries` | the entry records (`GameEntityLogEntry`, `PlayerLogEntry`, …, `CreateGameLogEntry`, the entity objects) |
| `log_line_utils.dfy` | `LogLineUtils` | `isFromNamedLogger`, the log line pattern, `getNumberOfSpaces` (a method with its loop) |
| `power_grammar.dfy` | `PowerGrammar` | the header and tag-line patterns of the `[Power]`/`[Zone]` parsers and their `isValidIndentation` |
| `int_matcher.dfy` | `IntMatchers` | `IntMatcher` with 32-bit wrap-around and truncating division |
| `entity_object_parser.dfy` | `EntityObjects` | `EntityObjectParser` |
| `iterator_utils.dfy` | `IteratorUtils` | `filteredIterator`, as the filter of the sequence it iterates |
| `matching_iterator.dfy` | `MatchingIterators` | `MatchingIterator.fromIterator` as a class holding its peek buffer (`peekedElements`) |
| `line_readers.dfy` | `LineReaders` | the state a parser's `LineReader` reads and the three operations on it |
| `log_reader_utils.dfy` | `LogReaderUtils` | the nested reader `fromInputAndExtraLineReader` builds |
| `tag_blocks.dfy` | `TagBlocks` | the tag/value loops of the parsers, parse outcomes |
| `entry_parsers.dfy` | `EntryParsing` | every entry parser, the reflective child-parser factory of ACTION_START, and the engine loop of `readNextEntry` |
| `entry_loop.dfy` | `EntryLoop` | that loop over any `isParsable`/`parse` pair, as the engine classes run it |
| `abstract_log_reader.dfy` | `AbstractLogReaders` | class `AbstractLogReader` |
| `default_log_reader.dfy` | `DefaultLogReaders` | class `DefaultLogReader` |
| `peek_readers.dfy` | `PeekReaders` | the `readLine`/`peekLine` state of the older engine |
| `entry_readers.dfy` | `EntryReaders` | `readEntry`'s loop, `CreateGameEntryReader` and its two child readers, the fixture readers of the engine's own tests |
| `abstract_line_log_reader.dfy` | `AbstractLineLogReaders` | class `AbstractLineLogReader` |
| `create_game_reading.dfy` | `CreateGameReading` | a CREATE_GAME block read back by `CreateGameEntryReader`: the child readers, their tag loop and the players loop |
| `entry_reader_scenarios.dfy` | `EntryReaderScenarios` | the documented behaviour of `AbstractLineLogReader` on fixed logs |

The parsers are pure functions from a reader state to an outcome:

- `Ok(entry, state)`;
- `Fail(cause, state)`, a `NotParsableException` or `NoSuchElementException` that the engine catches;
- `Crash`, an unchecked exception that escapes the engine.

The engine classes are imperative Dafny. Each `LineReader` operation they give a parser is a method proved to move the object exactly as the matching state function says. Each `readNextEntry`/`readEntry` is a method whose loop over the parser set is proved to give the outcome and the new state that the engine's specification function gives. The properties (what an entry consumes, what `NotReadableException` carries, filtering, scoping of nested readers, round trips of the line formats) are proved about those functions.

## Model

| member | source | states |
|---|---|---|
| AbstractLogReaders.Report | src/main/java/com/github/skiwi2/hearthmonitor/logreader/AbstractLogReader.java:84-93 | an entry is returned exactly when the loop read one; `NoSuchElementException` escapes exactly when no line was left; an unchecked exception escapes exactly when a parser threw one |
| AbstractLogReaders.AbstractLogReader.View | src/main/java/com/github/skiwi2/hearthmonitor/logreader/AbstractLogReader.java:109-128 | the object's peek buffer, record and position always form a valid reader state for the parsers |
| AbstractLogReaders.AbstractLogReader.constructor | src/main/java/com/github/skiwi2/hearthmonitor/logreader/AbstractLogReader.java:34-39 | the reader reads the log lines that pass the filter predicate, in order, starting with an empty record and peek buffer |
| AbstractLogReaders.AbstractLogReader.Unfiltered | src/main/java/com/github/skiwi2/hearthmonitor/logreader/AbstractLogReader.java:48-50 | without a filter the reader reads every line of the log |
| AbstractLogReaders.AbstractLogReader.HasNextEntry | src/main/java/com/github/skiwi2/hearthmonitor/logreader/AbstractLogReader.java:97-99 | `hasNextEntry` is true exactly when a peeked line or an unread filtered line remains, and consumes nothing |
| AbstractLogReaders.AbstractLogReader.ReadLineFromPeekedLinesOrLog | src/main/java/com/github/skiwi2/hearthmonitor/logreader/AbstractLogReader.java:109-114 | the peeked line is returned first; only with an empty buffer is the next filtered line taken; none left is `NoSuchElementException`; the record is untouched |
| AbstractLogReaders.AbstractLogReader.ReadLineFromLogAndSave | src/main/java/com/github/skiwi2/hearthmonitor/logreader/AbstractLogReader.java:123-128 | the next line is consumed and appended to the record, as `readNextLine` of the parsers' line reader specifies |
| AbstractLogReaders.AbstractLogReader.NextLineMatches | src/main/java/com/github/skiwi2/hearthmonitor/logreader/AbstractLogReader.java:74-82 | false when no line is left; otherwise the next line is buffered, not consumed, and the condition's value on it is returned |
| AbstractLogReaders.AbstractLogReader.Replay | src/main/java/com/github/skiwi2/hearthmonitor/logreader/AbstractLogReader.java:62-83 | the object reaches any state a parser's reads and peeks lead to |
| AbstractLogReaders.AbstractLogReader.ReadNextEntry | src/main/java/com/github/skiwi2/hearthmonitor/logreader/AbstractLogReader.java:53-94 | the outcome and the new state are those of the engine function `EntryParsing.ReadEntry` on the reader's state |
| AbstractLogReaders.AbstractLogReader.TryEntryParsers | src/main/java/com/github/skiwi2/hearthmonitor/logreader/AbstractLogReader.java:57-93 | the loop tries the parsers in order and ends as the loop function `EntryLoop.Resolve` says |
| AbstractLogReaders.AbstractLogReader.ClearLinesInMemory | src/main/java/com/github/skiwi2/hearthmonitor/logreader/AbstractLogReader.java:84-84 | `linesInMemory.clear()` empties the record and changes nothing else |
| AbstractLogReaders.AbstractLogReader.TryEntryParser | src/main/java/com/github/skiwi2/hearthmonitor/logreader/AbstractLogReader.java:58-89 | one turn: a parser that does not accept the line is skipped; a successful parse returns its entry with the record cleared; a caught failure adds its cause and the loop continues |
| DefaultLogReaders.DefaultLogReader.View | src/main/java/com/github/skiwi2/hearthmonitor/logreader/DefaultLogReader.java:56-99 | the matching iterator and the record always form a valid reader state for the parsers |
| DefaultLogReaders.DefaultLogReader.constructor | src/main/java/com/github/skiwi2/hearthmonitor/logreader/DefaultLogReader.java:34-40 | the reader reads, through a fresh matching iterator, the log lines that pass the filter, in order |
| DefaultLogReaders.DefaultLogReader.Unfiltered | src/main/java/com/github/skiwi2/hearthmonitor/logreader/DefaultLogReader.java:51-53 | without a filter the reader reads every line of the log |
| DefaultLogReaders.DefaultLogReader.HasNextEntry | src/main/java/com/github/skiwi2/hearthmonitor/logreader/DefaultLogReader.java:97-99 | true exactly when a line remains; nothing is consumed |
| DefaultLogReaders.DefaultLogReader.ReadNextLine | src/main/java/com/github/skiwi2/hearthmonitor/logreader/DefaultLogReader.java:68-72 | the next line is consumed and recorded; none left is `NoSuchElementException` |
| DefaultLogReaders.DefaultLogReader.NextLineMatches | src/main/java/com/github/skiwi2/hearthmonitor/logreader/DefaultLogReader.java:80-82 | false when no line is left, otherwise the condition's value on the next line, which stays unread |
| DefaultLogReaders.DefaultLogReader.Replay | src/main/java/com/github/skiwi2/hearthmonitor/logreader/DefaultLogReader.java:66-83 | the object reaches any state a parser's reads and peeks lead to |
| DefaultLogReaders.DefaultLogReader.ReadNextEntry | src/main/java/com/github/skiwi2/hearthmonitor/logreader/DefaultLogReader.java:56-94 | the line is read through the matching iterator and recorded, the parser loop runs, and the outcome and the new state are those of `EntryParsing.ReadEntry` on the reader's state: the same engine as `AbstractLogReader` |
| DefaultLogReaders.DefaultLogReader.TryParsers | src/main/java/com/github/skiwi2/hearthmonitor/logreader/DefaultLogReader.java:61-93 | the loop over the parsers ends as `EntryLoop.Resolve` says |
| DefaultLogReaders.DefaultLogReader.ClearLinesInMemory | src/main/java/com/github/skiwi2/hearthmonitor/logreader/DefaultLogReader.java:84-84 | the record is emptied, nothing else changes |
| DefaultLogReaders.DefaultLogReader.TryParser | src/main/java/com/github/skiwi2/hearthmonitor/logreader/DefaultLogReader.java:62-89 | one turn of the loop, as in `AbstractLogReader` |
| MatchingIterators.MatchingIterator.FromIterator | src/main/java/com/github/skiwi2/hearthmonitor/logreader/MatchingIterator.java:33-35 | the iterator starts over the source with an empty peek buffer |
| MatchingIterators.MatchingIterator.Peek | src/main/java/com/github/skiwi2/hearthmonitor/logreader/MatchingIterator.java:63-73 | the next element is returned without being consumed; the source is advanced only when the buffer is empty, and the buffer then holds exactly that element |
| MatchingIterators.MatchingIterator.HasNext | src/main/java/com/github/skiwi2/hearthmonitor/logreader/MatchingIterator.java:38-41 | true exactly when an element remains; nothing is consumed |
| MatchingIterators.MatchingIterator.Next | src/main/java/com/github/skiwi2/hearthmonitor/logreader/MatchingIterator.java:44-49 | the buffered element first, else the next source element; the elements come out in source order |
| MatchingIterators.MatchingIterator.NextMatches | src/main/java/com/github/skiwi2/hearthmonitor/logreader/MatchingIterator.java:52-56 | false when exhausted, else the condition on the next element, which stays unconsumed |
| MatchingIterators.RemainingStartsWithBuffer | src/main/java/com/github/skiwi2/hearthmonitor/logreader/MatchingIterator.java:44-49 | the elements still to come are the buffered ones followed by the rest of the source |
| MatchingIterators.DrainWithPeeks | src/main/java/com/github/skiwi2/hearthmonitor/logreader/MatchingIterator.java:38-73 | interleaving `nextMatches`, `hasNext` and `next` delivers exactly the remaining elements, each once, in order |
| IteratorUtils.Filter | src/main/java/com/github/skiwi2/hearthmonitor/logreader/IteratorUtils.java:26-30 | the filtered view is no longer than the source and holds only elements passing the condition |
| IteratorUtils.FilterAppend | src/main/java/com/github/skiwi2/hearthmonitor/logreader/IteratorUtils.java:26-30 | filtering distributes over concatenation, so the order of the source is kept |
| IteratorUtils.FilterCounts | src/main/java/com/github/skiwi2/hearthmonitor/logreader/IteratorUtils.java:26-30 | each element occurs as often in the view as in the source if it passes the condition, and not at all otherwise |
| IteratorUtils.FilterMembership | src/main/java/com/github/skiwi2/hearthmonitor/logreader/IteratorUtils.java:26-30 | an element is in the view exactly when it is in the source and passes the condition |
| IteratorUtils.FilterEmptyIff | src/main/java/com/github/skiwi2/hearthmonitor/logreader/IteratorUtils.java:26-30 | the view is empty exactly when no element passes |
| IteratorUtils.FilterIdempotent | src/main/java/com/github/skiwi2/hearthmonitor/logreader/IteratorUtils.java:26-30 | filtering twice with the same condition is filtering once |
| IteratorUtils.FilterKeepsAll | src/main/java/com/github/skiwi2/hearthmonitor/logreader/AbstractLogReader.java:48-50 | the always-true filter of the unfiltered constructors keeps the source unchanged |
| LogReaderUtils.TakeWhile | src/main/java/com/github/skiwi2/hearthmonitor/logreader/LogReaderUtils.java:50-50 | the conditional line reader yields the longest prefix whose lines all satisfy the condition and stops at the first line that does not; a condition that throws on that line makes the read throw |
| LogReaderUtils.FromInputAndExtraLineReader | src/main/java/com/github/skiwi2/hearthmonitor/logreader/LogReaderUtils.java:34-39 | the nested reader first yields the input line, then exactly the parent's upcoming lines taken while the condition holds |
| LogReaderUtils.Resume | src/main/java/com/github/skiwi2/hearthmonitor/logreader/LogReaderUtils.java:49-66 | after the nested reader stops, the parent has consumed exactly the lines the nested reader pulled past its first line |
| LogReaderUtils.NestedPullsFromParent | src/main/java/com/github/skiwi2/hearthmonitor/logreader/LogReaderUtils.java:49-66 | the nested reader never takes more lines than the parent has left |
| LogReaderUtils.ScopedLines | src/main/java/com/github/skiwi2/hearthmonitor/logreader/LogReaderUtils.java:62-65 | each line after the first is the parent's upcoming line at the same offset and satisfies the condition |
| LogReaderUtils.ScopeEndsAtFirstFailure | src/main/java/com/github/skiwi2/hearthmonitor/logreader/LogReaderUtils.java:50-61 | the nested reader ends exactly before the first upcoming line that fails the condition |
| LineReaders.Evaluate | src/main/java/com/github/skiwi2/hearthmonitor/logreader/hearthstone/power/GameEntityEntryParser.java:87-88 | a read condition throws exactly for a named-logger line without the `[Logger] Method - content` shape |
| LineReaders.IndentedBeyondHolds | src/main/java/com/github/skiwi2/hearthmonitor/logreader/hearthstone/power/GameEntityEntryParser.java:87-88 | the condition holds exactly for named-logger lines whose content is indented beyond the given depth |
| LineReaders.Cleared | src/main/java/com/github/skiwi2/hearthmonitor/logreader/AbstractLogReader.java:84-84 | clearing leaves a valid state with an empty record |
| LineReaders.AdvancedRecords | src/main/java/com/github/skiwi2/hearthmonitor/logreader/AbstractLogReader.java:123-128 | every consumed line is recorded in order after the lines already recorded |
| LineReaders.HasNextLine | src/main/java/com/github/skiwi2/hearthmonitor/logreader/AbstractLogReader.java:97-99 | true exactly when a line remains; nothing is consumed |
| LineReaders.NextLineMatches | src/main/java/com/github/skiwi2/hearthmonitor/logreader/AbstractLogReader.java:74-82 | false when no line is left; otherwise the condition's value on the next line, which stays unconsumed; a throwing condition escapes |
| LineReaders.NextLineTest | src/main/java/com/github/skiwi2/hearthmonitor/logreader/AbstractLogReader.java:74-82 | with any condition, the peek consumes nothing |
| LineReaders.NextLineMatchesIsTest | src/main/java/com/github/skiwi2/hearthmonitor/logreader/AbstractLogReader.java:74-82 | the parsers' line conditions are ordinary predicates of `nextLineMatches` |
| LineReaders.ReadNextLine | src/main/java/com/github/skiwi2/hearthmonitor/logreader/AbstractLogReader.java:64-66 | the next line is returned and consumed; none left is `NoSuchElementException` |
| LineReaders.ReadRecords | src/main/java/com/github/skiwi2/hearthmonitor/logreader/AbstractLogReader.java:123-128 | a read appends its line to the record |
| LineReaders.HasNextLineRepeats | src/main/java/com/github/skiwi2/hearthmonitor/logreader/AbstractLogReader.java:97-99 | asking `hasNextLine` again gives the same answer |
| LineReaders.PeekThenRead | src/main/java/com/github/skiwi2/hearthmonitor/logreader/AbstractLogReader.java:74-82 | a line peeked by `nextLineMatches` is the line the next `readNextLine` returns, and reading it then ends in the same state as reading it directly |
| LogLineUtils.IsFromNamedLoggerIff | src/main/java/com/github/skiwi2/hearthmonitor/logreader/hearthstone/LogLineUtils.java:25-38 | a line is from a named logger exactly when it starts with `[`, one or more word characters and `]` |
| LogLineUtils.ParseLogLine | src/main/java/com/github/skiwi2/hearthmonitor/logreader/hearthstone/LogLineUtils.java:55-55 | a parsed line is exactly `[logger] method - content` with a word-character logger and a method of word characters, dots and parentheses |
| LogLineUtils.LogLineParts | src/main/java/com/github/skiwi2/hearthmonitor/logreader/hearthstone/LogLineUtils.java:55-55 | the parts found are the line's own logger, method and content |
| LogLineUtils.LogLineConcat | src/main/java/com/github/skiwi2/hearthmonitor/logreader/hearthstone/LogLineUtils.java:55-55 | the parts put back together give the line |
| LogLineUtils.ParseLogLineComplete | src/main/java/com/github/skiwi2/hearthmonitor/logreader/hearthstone/LogLineUtils.java:55-55 | every line of the log-line shape is parsed, to exactly its parts |
| LogLineUtils.LogLineIsFromNamedLogger | src/main/java/com/github/skiwi2/hearthmonitor/logreader/hearthstone/LogLineUtils.java:25-55 | every log line is from a named logger |
| LogLineUtils.Content | src/main/java/com/github/skiwi2/hearthmonitor/logreader/hearthstone/LogLineUtils.java:70-74 | the content exists exactly for lines of the log-line shape and is their content group |
| LogLineUtils.CountLeadingSpaces | src/main/java/com/github/skiwi2/hearthmonitor/logreader/hearthstone/LogLineUtils.java:75-85 | the count is the length of the longest prefix of spaces |
| LogLineUtils.NumberOfSpaces | src/main/java/com/github/skiwi2/hearthmonitor/logreader/hearthstone/LogLineUtils.java:69-86 | defined exactly for log lines, and then the number of leading spaces of the content |
| LogLineUtils.GetNumberOfSpaces | src/main/java/com/github/skiwi2/hearthmonitor/logreader/hearthstone/LogLineUtils.java:69-86 | the method returns `NumberOfSpaces`; a line that is not a log line is `NotParsableException` |
| LogLineUtils.CountSpaces | src/main/java/com/github/skiwi2/hearthmonitor/logreader/hearthstone/LogLineUtils.java:75-85 | the loop counts exactly the leading spaces |
| LogLineUtils.PowerContent | src/main/java/com/github/skiwi2/hearthmonitor/logreader/hearthstone/LogLineUtils.java:55-55 | a `[Power] GameState.DebugPrintPower() - ` line has its remainder as content |
| LogLineUtils.ZoneContent | src/main/java/com/github/skiwi2/hearthmonitor/logreader/hearthstone/LogLineUtils.java:55-55 | a `[Zone] ZoneChangeList.ProcessChanges() - ` line has its remainder as content |
| LogLineUtils.ExampleLogLine | src/test/java/com/github/skiwi2/hearthmonitor/logreader/hearthstone/LogLineUtilsTest.java:9-37 | the documented `Count=66` line is from a named logger and has `Count=66` as content |
| LogLineUtils.ExampleNotFromLogger | src/test/java/com/github/skiwi2/hearthmonitor/logreader/hearthstone/LogLineUtilsTest.java:9-37 | the engine-version line is not from a named logger and has no content |
| LogLineUtils.ExampleLeadingSpaces | src/test/java/com/github/skiwi2/hearthmonitor/logreader/hearthstone/LogLineUtilsTest.java:9-37 | the documented leading-space counts |
| IntMatchers.Wrap | src/main/java/com/github/skiwi2/hearthmonitor/logreader/hearthstone/IntMatcher.java:27-37 | Java `int` arithmetic: the result is congruent to the exact value modulo 2^32 and equals it when it fits |
| IntMatchers.TruncatedDivision | src/main/java/com/github/skiwi2/hearthmonitor/logreader/hearthstone/IntMatcher.java:39-41 | Java `/` rounds toward zero: the remainder has the dividend's sign and is smaller than the divisor |
| IntMatchers.ValueEquals | src/main/java/com/github/skiwi2/hearthmonitor/logreader/hearthstone/IntMatcher.java:43-45 | matches exactly the given value |
| IntMatchers.ValueNotEquals | src/main/java/com/github/skiwi2/hearthmonitor/logreader/hearthstone/IntMatcher.java:47-49 | matches exactly the other values |
| IntMatchers.ValueGreaterThan | src/main/java/com/github/skiwi2/hearthmonitor/logreader/hearthstone/IntMatcher.java:51-53 | matches exactly the larger values |
| IntMatchers.ValueLessThan | src/main/java/com/github/skiwi2/hearthmonitor/logreader/hearthstone/IntMatcher.java:55-57 | matches exactly the smaller values |
| IntMatchers.ValueGreaterThanOrEqual | src/main/java/com/github/skiwi2/hearthmonitor/logreader/hearthstone/IntMatcher.java:59-61 | matches exactly the values at least the given one |
| IntMatchers.ValueLessThanOrEqual | src/main/java/com/github/skiwi2/hearthmonitor/logreader/hearthstone/IntMatcher.java:63-65 | matches exactly the values at most the given one |
| IntMatchers.ApplyFunction | src/main/java/com/github/skiwi2/hearthmonitor/logreader/hearthstone/IntMatcher.java:23-25 | the comparison is kept and the function is applied to the match value |
| IntMatchers.Plus | src/main/java/com/github/skiwi2/hearthmonitor/logreader/hearthstone/IntMatcher.java:27-29 | the match value becomes the 32-bit sum |
| IntMatchers.Minus | src/main/java/com/github/skiwi2/hearthmonitor/logreader/hearthstone/IntMatcher.java:31-33 | the match value becomes the 32-bit difference |
| IntMatchers.Multiply | src/main/java/com/github/skiwi2/hearthmonitor/logreader/hearthstone/IntMatcher.java:35-37 | the match value becomes the 32-bit product |
| IntMatchers.Divide | src/main/java/com/github/skiwi2/hearthmonitor/logreader/hearthstone/IntMatcher.java:39-41 | division by zero fails (`ArithmeticException`); otherwise the match value becomes the truncated quotient |
| IntMatchers.NotEqualsNegatesEquals | src/main/java/com/github/skiwi2/hearthmonitor/logreader/hearthstone/IntMatcher.java:43-49 | `valueNotEquals` matches exactly what `valueEquals` does not |
| IntMatchers.OrderingFactories | src/main/java/com/github/skiwi2/hearthmonitor/logreader/hearthstone/IntMatcher.java:51-65 | the or-equal matchers are the strict ones or equality; each strict matcher is the negation of the opposite or-equal one |
| IntMatchers.ApplyFunctionComposes | src/main/java/com/github/skiwi2/hearthmonitor/logreader/hearthstone/IntMatcher.java:23-25 | applying two functions in turn is applying their composition |
| IntMatchers.PlusMinusRoundTrip | src/main/java/com/github/skiwi2/hearthmonitor/logreader/hearthstone/IntMatcher.java:27-33 | `minus(v)` undoes `plus(v)`, overflow included |
| IntMatchers.IntMatcherEdges | src/main/java/com/github/skiwi2/hearthmonitor/logreader/hearthstone/IntMatcher.java:27-41 | `MAX_VALUE + 1` wraps to `MIN_VALUE`; `-7 / 2` is `-3`; `MIN_VALUE / -1` is `MIN_VALUE`; division by zero fails |
| IntMatchers.WrapUnique | src/main/java/com/github/skiwi2/hearthmonitor/logreader/hearthstone/IntMatcher.java:27-37 | two 32-bit values congruent modulo 2^32 are equal |
| IntMatchers.IntMatcherExamples | src/test/java/com/github/skiwi2/hearthmonitor/logreader/hearthstone/IntMatcherTest.java:8-89 | the documented results of every factory and arithmetic operation on 4 |
| EntityObjects.Bracketed | src/main/java/com/github/skiwi2/hearthmonitor/logreader/hearthstone/power/EntityObjectParser.java:46-68 | a bracketed form is matched into groups that, put back between its delimiters, give the input |
| EntityObjects.BracketedIffJoin | src/main/java/com/github/skiwi2/hearthmonitor/logreader/hearthstone/power/EntityObjectParser.java:46-68 | an input matches a bracketed form exactly when it is that form joined from some groups |
| EntityObjects.Parse | src/main/java/com/github/skiwi2/hearthmonitor/logreader/hearthstone/power/EntityObjectParser.java:71-111 | the first form gives a card entity with a name, the second one without; anything else is a player entity named by the whole input |
| EntityObjects.RenderParse | src/main/java/com/github/skiwi2/hearthmonitor/logreader/hearthstone/power/EntityObjectParser.java:71-111 | parsing loses nothing: rendering the entity gives back the input |
| EntityObjects.FirstFormWins | src/main/java/com/github/skiwi2/hearthmonitor/logreader/hearthstone/power/EntityObjectParser.java:74-89 | an input of the first form is parsed by the first case |
| EntityObjects.SecondForm | src/main/java/com/github/skiwi2/hearthmonitor/logreader/hearthstone/power/EntityObjectParser.java:90-105 | an input of the second form is a card entity with a card type |
| EntityObjects.PlainNameIsPlayer | src/main/java/com/github/skiwi2/hearthmonitor/logreader/hearthstone/power/EntityObjectParser.java:106-110 | an input not starting with `[` is a player entity |
| EntityObjects.SkiwiIsPlayer | src/test/java/com/github/skiwi2/hearthmonitor/logreader/hearthstone/power/EntityObjectParserTest.java:17-57 | the test's player name is parsed as a player entity |
| EntityObjects.IsParsable | src/main/java/com/github/skiwi2/hearthmonitor/logreader/hearthstone/power/EntityObjectParser.java:26-28 | every text is accepted, so `parse` is always reached |
| Text.Split | src/main/java/com/github/skiwi2/hearthmonitor/logreader/hearthstone/power/TagChangeEntryParser.java:35-37 | a match cuts the text into one more group than there are delimiters, and joining them back gives the text |
| Text.SplitFindsLongestFirstGroup | src/main/java/com/github/skiwi2/hearthmonitor/logreader/hearthstone/power/TagChangeEntryParser.java:35-37 | greedy `(.*)`: whenever the text can be cut around the delimiters the pattern matches, and its first group is the longest possible |
| Text.SplitMatchesIffJoin | src/main/java/com/github/skiwi2/hearthmonitor/logreader/hearthstone/power/TagChangeEntryParser.java:35-37 | the pattern matches exactly the texts that can be cut into groups around the delimiters |
| Text.SplitExact | src/main/java/com/github/skiwi2/hearthmonitor/logreader/hearthstone/power/TagChangeEntryParser.java:35-37 | groups whose delimiters occur nowhere else past them are read back exactly |
| Text.MatchIndented | src/main/java/com/github/skiwi2/hearthmonitor/logreader/hearthstone/power/HideEntityEntryParser.java:47-49 | a match of `^prefix(\s*)keyword(.*)...$` cuts the line into the prefix, a whitespace run, the keyword and the groups |
| Text.MatchIndentedComplete | src/main/java/com/github/skiwi2/hearthmonitor/logreader/hearthstone/power/HideEntityEntryParser.java:47-49 | every line of that shape matches, with the whole whitespace run as indentation and a first group at least as long |
| Text.MatchIndentedExact | src/main/java/com/github/skiwi2/hearthmonitor/logreader/hearthstone/power/HideEntityEntryParser.java:47-49 | a line built from a whitespace run and unambiguous groups is read back as exactly that run length and those groups |
| PowerGrammar.MatchPrefixed | src/main/java/com/github/skiwi2/hearthmonitor/logreader/hearthstone/power/TagChangeEntryParser.java:35-37 | the groups of a prefixed pattern, joined with its delimiters after the prefix, give the line |
| PowerGrammar.MatchPrefixedExact | src/main/java/com/github/skiwi2/hearthmonitor/logreader/hearthstone/power/TagChangeEntryParser.java:35-37 | a prefixed line with unambiguous groups is read back as exactly those groups |
| PowerGrammar.GameEntityHeader | src/main/java/com/github/skiwi2/hearthmonitor/logreader/hearthstone/power/GameEntityEntryParser.java:50-51 | a match is the `[Power]` prefix, a whitespace run, `GameEntity EntityID=` and the id |
| PowerGrammar.PlayerHeader | src/main/java/com/github/skiwi2/hearthmonitor/logreader/hearthstone/power/PlayerEntryParser.java:55-58 | a match is the `[Power]` prefix, a whitespace run, `Player EntityID=` and the four fields and tail between ` PlayerID=`, ` GameAccountId=[hi=`, ` lo=` and `]` |
| PowerGrammar.ShowEntityHeader | src/main/java/com/github/skiwi2/hearthmonitor/logreader/hearthstone/power/ShowEntityEntryParser.java:51-53 | a match is the `[Power]` prefix, a whitespace run, `SHOW_ENTITY - Updating Entity=`, the entity, ` CardID=` and the card id |
| PowerGrammar.HideEntityLine | src/main/java/com/github/skiwi2/hearthmonitor/logreader/hearthstone/power/HideEntityEntryParser.java:47-49 | a match is the `[Power]` prefix, a whitespace run, `HIDE_ENTITY - Entity=` and entity, tag and value between ` tag=` and ` value=` |
| PowerGrammar.ActionStartHeader | src/main/java/com/github/skiwi2/hearthmonitor/logreader/hearthstone/power/ActionStartEntryParser.java:87-89 | a match is the `[Power]` prefix, a whitespace run, `ACTION_START Entity=` and the four groups between ` SubType=`, ` Index=` and ` Target=` |
| PowerGrammar.TransitioningLine | src/main/java/com/github/skiwi2/hearthmonitor/logreader/hearthstone/zone/TransitioningEntryParser.java:41-42 | a match is the `[Zone]` prefix, a whitespace run, `TRANSITIONING card `, the entity, ` to ` and the zone |
| PowerGrammar.FullEntityHeader | src/main/java/com/github/skiwi2/hearthmonitor/logreader/hearthstone/power/FullEntityEntryParser.java:43-45 | a match is the FULL_ENTITY prefix followed by the id, ` CardID=` and the card id |
| PowerGrammar.TagChangeLine | src/main/java/com/github/skiwi2/hearthmonitor/logreader/hearthstone/power/TagChangeEntryParser.java:35-37 | a match is the TAG_CHANGE prefix followed by entity, ` tag=`, tag, ` value=` and value |
| PowerGrammar.FullEntityTagLine | src/main/java/com/github/skiwi2/hearthmonitor/logreader/hearthstone/power/FullEntityEntryParser.java:54-55 | a match is the four-space `tag=` prefix followed by the tag, ` value=` and the value |
| PowerGrammar.HideEntityLineExact | src/main/java/com/github/skiwi2/hearthmonitor/logreader/hearthstone/power/HideEntityEntryParser.java:47-53 | a HIDE_ENTITY line built from spaces and unambiguous fields matches with exactly that indentation and those fields, and passes the restricted indentation test of its own depth |
| PowerGrammar.TagChangeLineExact | src/main/java/com/github/skiwi2/hearthmonitor/logreader/hearthstone/power/TagChangeEntryParser.java:21-37 | a TAG_CHANGE line built from unambiguous fields passes the prefix test and is read back as exactly those fields |
| PowerGrammar.TransitioningLineExact | src/main/java/com/github/skiwi2/hearthmonitor/logreader/hearthstone/zone/TransitioningEntryParser.java:41-46 | a TRANSITIONING line built from spaces, an entity and a zone matches with exactly those and passes the indentation test of its own depth |
| PowerGrammar.ShowEntityHeaderExact | src/main/java/com/github/skiwi2/hearthmonitor/logreader/hearthstone/power/ShowEntityEntryParser.java:51-57 | a SHOW_ENTITY header built from spaces, an entity and a card id matches with exactly those and passes the indentation test of its own depth |
| PowerGrammar.FullEntityHeaderExact | src/main/java/com/github/skiwi2/hearthmonitor/logreader/hearthstone/power/FullEntityEntryParser.java:32-45 | a FULL_ENTITY header built from an id and a card id passes the prefix test and is read back as exactly those |
| PowerGrammar.PlayerHeaderExact | src/main/java/com/github/skiwi2/hearthmonitor/logreader/hearthstone/power/PlayerEntryParser.java:55-63 | a Player header built from a whitespace run and unambiguous fields matches with exactly that indentation, the four fields and the tail |
| PowerGrammar.CreateGameHeader | src/main/java/com/github/skiwi2/hearthmonitor/logreader/hearthstone/power/CreateGameEntryParser.java:76-82 | a CREATE_GAME header is the prefix, some spaces and `CREATE_GAME`, and its indentation is the number of those spaces |
| PowerGrammar.TagLine | src/main/java/com/github/skiwi2/hearthmonitor/logreader/hearthstone/power/GameEntityEntryParser.java:67-68 | a tag line's indentation group holds at least four spaces |
| PowerGrammar.IsValidIndentation | src/main/java/com/github/skiwi2/hearthmonitor/logreader/hearthstone/power/GameEntityEntryParser.java:108-110 | an unrestricted parser accepts every indentation; a restricted one accepts exactly lines whose content has the parser's indentation, and throws on a line without content |
| PowerGrammar.TagLineRoundTrip | src/main/java/com/github/skiwi2/hearthmonitor/logreader/hearthstone/power/GameEntityEntryParser.java:67-68 | a tag line built from spaces, a tag and a value is read back as those |
| PowerGrammar.ShallowTagLine | src/main/java/com/github/skiwi2/hearthmonitor/logreader/hearthstone/power/GameEntityEntryParser.java:67-68 | a tag line indented fewer than four spaces does not match |
| PowerGrammar.SpacesIndentation | src/main/java/com/github/skiwi2/hearthmonitor/logreader/hearthstone/power/GameEntityEntryParser.java:108-110 | a header built with some spaces has exactly that indentation |
| PowerGrammar.ValidIndentationOf | src/main/java/com/github/skiwi2/hearthmonitor/logreader/hearthstone/power/GameEntityEntryParser.java:108-110 | the indentation test counts the content's leading spaces |
| PowerGrammar.LeadingSpaces | src/main/java/com/github/skiwi2/hearthmonitor/logreader/hearthstone/LogLineUtils.java:75-85 | spaces followed by a non-space count as their number |
| TagBlocks.ReadTagDepth | src/main/java/com/github/skiwi2/hearthmonitor/logreader/hearthstone/power/GameEntityEntryParser.java:91-99 | a tag line is accepted exactly when it lies at least four spaces deeper than its header |
| TagBlocks.ChildCondition | src/main/java/com/github/skiwi2/hearthmonitor/logreader/hearthstone/power/GameEntityEntryParser.java:87-88 | the read condition of a tag block: a named-logger line indented deeper than its header (deeper than 0 for FULL_ENTITY) |
| TagBlocks.TagBlock | src/main/java/com/github/skiwi2/hearthmonitor/logreader/hearthstone/power/GameEntityEntryParser.java:87-103 | the tag loop consumes lines and fails only with `NotParsableException` |
| TagBlocks.TagBlockRead | src/main/java/com/github/skiwi2/hearthmonitor/logreader/hearthstone/power/GameEntityEntryParser.java:87-103 | a successful loop consumed exactly the lines it turned into pairs, each deeper than the header and read as its pair, and stopped at a line that is not deeper |
| TagBlocks.TagBlockReadStep | src/main/java/com/github/skiwi2/hearthmonitor/logreader/hearthstone/power/GameEntityEntryParser.java:87-103 | the loop read the first deeper line as its first pair |
| TagBlocks.TagBlockUncons | src/main/java/com/github/skiwi2/hearthmonitor/logreader/hearthstone/power/GameEntityEntryParser.java:87-103 | after the first pair the loop goes on as from the next line |
| TagBlocks.TagsOfLength | src/main/java/com/github/skiwi2/hearthmonitor/logreader/hearthstone/power/GameEntityEntryParser.java:87-103 | one pair per consumed line |
| TagBlocks.TagsOfAt | src/main/java/com/github/skiwi2/hearthmonitor/logreader/hearthstone/power/GameEntityEntryParser.java:87-103 | the i-th pair is read from the i-th consumed line |
| TagBlocks.CollectLines | src/test/java/com/github/skiwi2/hearthmonitor/logreader/AbstractLogReaderTest.java:221-245 | the START reader keeps the lines before the next START, which it leaves peeked |
| TagBlocks.ExpectLines | src/test/java/com/github/skiwi2/hearthmonitor/logreader/AbstractLogReaderTest.java:190-200 | the fixture parser succeeds exactly when its expected lines follow, and then consumes exactly them |
| TagBlocks.TagBlockReadsWholeBlock | src/main/java/com/github/skiwi2/hearthmonitor/logreader/hearthstone/power/GameEntityEntryParser.java:87-103 | on a block of tag lines ended by a shallower line or the end of input, the loop returns exactly the block's pairs and stops at its end |
| TagBlocks.TagBlockCons | src/main/java/com/github/skiwi2/hearthmonitor/logreader/hearthstone/power/GameEntityEntryParser.java:87-103 | a tag line in front of a block adds its pair in front |
| TagBlocks.TagBlockAtEnd | src/main/java/com/github/skiwi2/hearthmonitor/logreader/hearthstone/power/GameEntityEntryParser.java:90-90 | with no deeper line next, the loop returns no pairs and consumes nothing |
| EntryParsing.HeaderHasContent | src/main/java/com/github/skiwi2/hearthmonitor/logreader/hearthstone/power/GameEntityEntryParser.java:53-56 | `isParsable` never throws: a line matching a header pattern has content |
| EntryParsing.RestrictedAcceptsOwnIndentation | src/main/java/com/github/skiwi2/hearthmonitor/logreader/hearthstone/power/GameEntityEntryParser.java:53-56 | a restricted parser accepts only headers at its own indentation |
| EntryParsing.ParseFixture | src/test/java/com/github/skiwi2/hearthmonitor/logreader/AbstractLogReaderTest.java:165-219 | the test's fixture parsers: after the header they read their expected lines |
| EntryParsing.ParseInfinite | src/test/java/com/github/skiwi2/hearthmonitor/logreader/AbstractLogReaderTest.java:221-245 | the test's START parser consumes only lines of its own entry |
| EntryParsing.WithTags | src/main/java/com/github/skiwi2/hearthmonitor/logreader/hearthstone/power/GameEntityEntryParser.java:70-106 | a parser built on the tag loop succeeds exactly when the loop does, with the loop's pairs and state, and fails with the loop's cause |
| EntryParsing.ParseGameEntity | src/main/java/com/github/skiwi2/hearthmonitor/logreader/hearthstone/power/GameEntityEntryParser.java:70-106 | a failed or successful GameEntity parse only moves the reader forward |
| EntryParsing.ParsePlayer | src/main/java/com/github/skiwi2/hearthmonitor/logreader/hearthstone/power/PlayerEntryParser.java:77-120 | a failed or successful Player parse only moves the reader forward |
| EntryParsing.ParseShowEntity | src/main/java/com/github/skiwi2/hearthmonitor/logreader/hearthstone/power/ShowEntityEntryParser.java:72-117 | a failed or successful ShowEntity parse only moves the reader forward |
| EntryParsing.ParseFullEntity | src/main/java/com/github/skiwi2/hearthmonitor/logreader/hearthstone/power/FullEntityEntryParser.java:57-85 | a failed or successful FullEntity parse only moves the reader forward |
| EntryParsing.ParseHideEntity | src/main/java/com/github/skiwi2/hearthmonitor/logreader/hearthstone/power/HideEntityEntryParser.java:56-85 | a HideEntity line at a valid indentation is an entry and reads nothing more; otherwise `NotParsableException`, or an escaping exception when the restricted indentation test cannot find content |
| EntryParsing.ParseTagChange | src/main/java/com/github/skiwi2/hearthmonitor/logreader/hearthstone/power/TagChangeEntryParser.java:39-56 | a TAG_CHANGE line is an entry and reads nothing more; anything else is `NotParsableException` |
| EntryParsing.ParseTransitioning | src/main/java/com/github/skiwi2/hearthmonitor/logreader/hearthstone/zone/TransitioningEntryParser.java:49-76 | a `[Zone]` transitioning line at the parser's indentation is an entry and reads nothing more; otherwise `NotParsableException`, or an escaping exception when the line has no content |
| EntryParsing.IsParsable | src/main/java/com/github/skiwi2/hearthmonitor/logreader/EntryParser.java:19-19 | each parser's `isParsable`: the fixture names, the header patterns with the indentation test of the restricted parsers, and the prefix tests of FULL_ENTITY and TAG_CHANGE |
| EntryParsing.Accepts | src/main/java/com/github/skiwi2/hearthmonitor/logreader/AbstractLogReader.java:58-60 | the engine loop skips exactly the parsers whose `isParsable` rejects the line |
| EntryParsing.Create | src/main/java/com/github/skiwi2/hearthmonitor/logreader/hearthstone/power/ActionStartEntryParser.java:103-130 | reflection succeeds exactly for the parser classes with `create`/`createForIndentation` (GameEntity, ShowEntity, HideEntity, ACTION_START) and builds a parser of the same class |
| EntryParsing.ChildParsers | src/main/java/com/github/skiwi2/hearthmonitor/logreader/hearthstone/power/ActionStartEntryParser.java:103-130 | the child parser set exists exactly when every parser class can be built, and holds one child per parser |
| EntryParsing.CreateAll | src/main/java/com/github/skiwi2/hearthmonitor/logreader/hearthstone/power/ActionStartEntryParser.java:103-130 | same, over the parsers still to build |
| EntryParsing.ReadEntry | src/main/java/com/github/skiwi2/hearthmonitor/logreader/AbstractLogReader.java:53-94 | no more lines exactly when the reader is exhausted; a returned entry or `NotReadableException` clears the record, and the exception carries exactly the lines consumed for that entry |
| EntryParsing.TryParsers | src/main/java/com/github/skiwi2/hearthmonitor/logreader/AbstractLogReader.java:57-93 | the loop never reports missing input; on an entry or exception the record is cleared and the exception carries the consumed lines |
| EntryParsing.Parse | src/main/java/com/github/skiwi2/hearthmonitor/logreader/EntryParser.java:12-33 | every parser moves the reader only forward on success and on caught failure |
| EntryParsing.ParseActionStart | src/main/java/com/github/skiwi2/hearthmonitor/logreader/hearthstone/power/ActionStartEntryParser.java:96-184 | ACTION_START moves the reader only forward |
| EntryParsing.ParseCreateGame | src/main/java/com/github/skiwi2/hearthmonitor/logreader/hearthstone/power/CreateGameEntryParser.java:84-119 | CREATE_GAME moves the reader only forward; a success is a CREATE_GAME entry with the header's indentation |
| EntryParsing.ReadGame | src/main/java/com/github/skiwi2/hearthmonitor/logreader/hearthstone/power/CreateGameEntryParser.java:108-115 | the nested reader gives one GameEntity entry and then only Player entries, read to the end of the scope |
| EntryParsing.CloseScope | src/main/java/com/github/skiwi2/hearthmonitor/logreader/hearthstone/power/ActionStartEntryParser.java:176-183 | a nested reader's `NotReadableException` becomes `NotParsableException`; on success the parent moves past the scope |
| EntryParsing.ReadChildren | src/main/java/com/github/skiwi2/hearthmonitor/logreader/hearthstone/power/ActionStartEntryParser.java:176-178 | the nested reader is read until it has no entry left, and fails only with `NotParsableException` |
| EntryParsing.OnlyAcceptingParsersRun | src/main/java/com/github/skiwi2/hearthmonitor/logreader/AbstractLogReader.java:57-60 | the loop gives the same result over the parser set as over its parsers that accept the line |
| EntryParsing.OneCausePerAcceptingParser | src/main/java/com/github/skiwi2/hearthmonitor/logreader/AbstractLogReader.java:86-93 | a `NotReadableException` carries one cause per accepting parser, in order |
| EntryParsing.NotReadableReport | src/main/java/com/github/skiwi2/hearthmonitor/logreader/AbstractLogReader.java:91-93 | when every parser fails, the exception lists the lines recorded so far, then the entry's first line, and one cause per accepting parser |
| EntryParsing.EntryFromAcceptingParser | src/main/java/com/github/skiwi2/hearthmonitor/logreader/AbstractLogReader.java:57-85 | an entry always comes from a parser that accepts the line |
| EntryParsing.EntryFromLater | src/main/java/com/github/skiwi2/hearthmonitor/logreader/AbstractLogReader.java:57-85 | an entry found later in the loop is still an accepting parser's |
| EntryParsing.EmptyParserSet | src/main/java/com/github/skiwi2/hearthmonitor/logreader/AbstractLogReader.java:91-93 | with no parsers the first line is returned as not readable |
| EntryParsing.WrongIndentationRejected | src/main/java/com/github/skiwi2/hearthmonitor/logreader/hearthstone/power/GameEntityEntryParser.java:108-110 | a restricted parser rejects a header at another indentation, in `isParsable` and in `parse` |
| EntryParsing.SingleLineParsers | src/main/java/com/github/skiwi2/hearthmonitor/logreader/hearthstone/power/HideEntityEntryParser.java:56-85 | the one-line parsers (HideEntity, TagChange, Transitioning) read nothing past their line |
| EntryParsing.GameEntityHeaderRoundTrip | src/main/java/com/github/skiwi2/hearthmonitor/logreader/hearthstone/power/GameEntityEntryParser.java:50-56 | a GameEntity header built from spaces and an id is accepted at that indentation; it is parsed exactly when the tag block below it is, to that id and that block's tags, and the parser stops where the block stops |
| EntryParsing.HideEntityRoundTrip | src/main/java/com/github/skiwi2/hearthmonitor/logreader/hearthstone/power/HideEntityEntryParser.java:52-85 | a HIDE_ENTITY line is accepted by the parser of its depth and parsed to its indentation, its entity read by `EntityObjects.Parse`, its tag and its value, consuming nothing more |
| EntryParsing.TagChangeRoundTrip | src/main/java/com/github/skiwi2/hearthmonitor/logreader/hearthstone/power/TagChangeEntryParser.java:21-56 | a TAG_CHANGE line is accepted and parsed to its entity, tag and value, consuming nothing more |
| EntryParsing.TransitioningRoundTrip | src/main/java/com/github/skiwi2/hearthmonitor/logreader/hearthstone/zone/TransitioningEntryParser.java:45-76 | a TRANSITIONING line is accepted by the parser of its depth and parsed to its indentation, its entity read by `EntityObjects.Parse` and its zone, consuming nothing more |
| EntryParsing.ShowEntityRoundTrip | src/main/java/com/github/skiwi2/hearthmonitor/logreader/hearthstone/power/ShowEntityEntryParser.java:56-117 | a SHOW_ENTITY header is accepted by the parser of its depth; it parses exactly when its tag block does, to its indentation, entity, card id and that block's tags, ending where the block ends |
| EntryParsing.PlayerRoundTrip | src/main/java/com/github/skiwi2/hearthmonitor/logreader/hearthstone/power/PlayerEntryParser.java:61-120 | a Player header is accepted and parses exactly when its tag block does, to its indentation, entity id, player id, account hi and lo and that block's tags |
| EntryParsing.FullEntityRoundTrip | src/main/java/com/github/skiwi2/hearthmonitor/logreader/hearthstone/power/FullEntityEntryParser.java:32-85 | a FULL_ENTITY header is accepted and parses exactly when its four-space tag block does, to its id, card id and that block's tags |
| EntryParsing.ActionStartConsumesItsScope | src/main/java/com/github/skiwi2/hearthmonitor/logreader/hearthstone/power/ActionStartEntryParser.java:133-138 | ACTION_START consumes its header and exactly the following lines indented deeper than it |
| EntryParsing.ActionStartCloses | src/main/java/com/github/skiwi2/hearthmonitor/logreader/hearthstone/power/ActionStartEntryParser.java:133-184 | on success the reader is left just past that scope |
| EntryParsing.UpcomingAfterRead | src/main/java/com/github/skiwi2/hearthmonitor/logreader/AbstractLogReader.java:64-66 | after a read, the upcoming lines are the rest of the source |
| EntryParsing.CreateGameConsumesItsScope | src/main/java/com/github/skiwi2/hearthmonitor/logreader/hearthstone/power/CreateGameEntryParser.java:87-95 | CREATE_GAME consumes its header and exactly the following lines indented deeper than the log content |
| EntryParsing.CreateGameCloses | src/main/java/com/github/skiwi2/hearthmonitor/logreader/hearthstone/power/CreateGameEntryParser.java:84-119 | on success the reader is left just past that scope |
| EntryParsing.CreateGameRoundTrip | src/main/java/com/github/skiwi2/hearthmonitor/logreader/hearthstone/power/CreateGameEntryParser.java:84-119 | a CREATE_GAME header followed by the block of a game entity and then the blocks of its players, all indented, is parsed to exactly that game entity and those players, in order; the reader stops after the last block |
| EntryParsing.GameRead | src/main/java/com/github/skiwi2/hearthmonitor/logreader/hearthstone/power/CreateGameEntryParser.java:107-113 | the nested reader reads the block of a game entity, then player blocks, back as exactly those entries |
| EntryParsing.PlayersRead | src/main/java/com/github/skiwi2/hearthmonitor/logreader/hearthstone/power/CreateGameEntryParser.java:110-113 | the `hasNextEntry` loop reads player blocks back as exactly those players, in order |
| EntryParsing.ChildStep | src/main/java/com/github/skiwi2/hearthmonitor/logreader/hearthstone/power/CreateGameEntryParser.java:107-111 | one `readNextEntry` of the nested reader on a child block returns that block's entry and stops right after the block |
| EntryParsing.ChildEntryRead | src/main/java/com/github/skiwi2/hearthmonitor/logreader/hearthstone/power/CreateGameEntryParser.java:124-301 | the nested reader reads a child block back as its entry and stops right after it when the next line is no deeper than the block's header |
| EntryParsing.ChildParsed | src/main/java/com/github/skiwi2/hearthmonitor/logreader/hearthstone/power/CreateGameEntryParser.java:164-195 | of the two child parsers, the one for the header's kind builds its entry, with the tags of the block below it |
| EntryParsing.PlayerChildParsed | src/main/java/com/github/skiwi2/hearthmonitor/logreader/hearthstone/power/CreateGameEntryParser.java:259-300 | a Player header is passed over by the GameEntity parser and read by the Player parser as its four fields and tags |
| EntryParsing.TagBlockFrom | src/main/java/com/github/skiwi2/hearthmonitor/logreader/hearthstone/power/CreateGameEntryParser.java:176-192 | the tag loop after a child header reads exactly the tags of its block, up to the first line no deeper than the header |
| EntryParsing.LayoutIndented | src/main/java/com/github/skiwi2/hearthmonitor/logreader/hearthstone/power/CreateGameEntryParser.java:87-95 | every line of a CREATE_GAME body made of indented blocks passes the nested reader's read condition |
| EntryParsing.NestedScope | src/main/java/com/github/skiwi2/hearthmonitor/logreader/hearthstone/power/CreateGameEntryParser.java:87-95 | the nested reader holds the line after the header and the indented lines after it, up to the first line that is not indented |
| EntryParsing.UnsupportedChildParser | src/main/java/com/github/skiwi2/hearthmonitor/logreader/hearthstone/power/ActionStartEntryParser.java:120-130 | a parser class without the factories makes ACTION_START fail with `NotParsableException` and read nothing |
| EntryParsing.ChildParsersOneLevelDeeper | src/main/java/com/github/skiwi2/hearthmonitor/logreader/hearthstone/power/ActionStartEntryParser.java:103-130 | a restricted ACTION_START builds its children for its indentation plus four; a nested ACTION_START shares the set |
| EntryLoop.ResolveCons | src/main/java/com/github/skiwi2/hearthmonitor/logreader/AbstractLogReader.java:57-90 | one turn of the loop over any accept/parse pair |
| EntryLoop.Resolve | src/main/java/com/github/skiwi2/hearthmonitor/logreader/AbstractLogReader.java:57-93 | the loop of `readNextEntry` over any `isParsable`/`parse` pair: accepting parsers in order, the first entry wins with the record cleared, a caught failure is kept and the next parser resumes where it stopped, all failing gives the record and the failures |
| EntryLoop.ParseLine | src/main/java/com/github/skiwi2/hearthmonitor/logreader/AbstractLogReader.java:62-83 | every parser, run on a given first line, moves the reader only forward |
| EntryLoop.ResolveIsTryParsers | src/main/java/com/github/skiwi2/hearthmonitor/logreader/AbstractLogReader.java:57-93 | the engine classes' loop is the engine function's loop |
| PeekReaders.Cleared | src/main/java/com/github/skiwi2/hearthmonitor/logreader/AbstractLineLogReader.java:58-66 | clearing the record keeps the peeked lines |
| PeekReaders.ReadLine | src/main/java/com/github/skiwi2/hearthmonitor/logreader/AbstractLineLogReader.java:104-109 | a read succeeds exactly while lines remain and consumes one line |
| PeekReaders.PeekLine | src/main/java/com/github/skiwi2/hearthmonitor/logreader/AbstractLineLogReader.java:47-56 | a peek consumes nothing |
| PeekReaders.ReadDrainsPeekedLines | src/main/java/com/github/skiwi2/hearthmonitor/logreader/AbstractLineLogReader.java:90-109 | a read returns the first peeked line when there is one, else the next line of the log, and records it |
| PeekReaders.PeekAppends | src/main/java/com/github/skiwi2/hearthmonitor/logreader/AbstractLineLogReader.java:47-56 | a peek succeeds exactly while the log has unpulled lines, appends the next one to the peeked lines, and leaves the record alone |
| PeekReaders.SuccessivePeeks | src/main/java/com/github/skiwi2/hearthmonitor/logreader/AbstractLineLogReader.java:47-56 | successive peeks return successive lines |
| PeekReaders.ReadAfterPeek | src/main/java/com/github/skiwi2/hearthmonitor/logreader/AbstractLineLogReader.java:90-95 | after a peek, a read returns the oldest peeked line |
| EntryReaders.TryReaders | src/main/java/com/github/skiwi2/hearthmonitor/logreader/AbstractLineLogReader.java:25-66 | the loop never reports missing input; an entry or `NotReadableException` clears the record, and the exception carries the record plus the consumed lines |
| EntryReaders.TryReadersCons | src/main/java/com/github/skiwi2/hearthmonitor/logreader/AbstractLineLogReader.java:25-62 | one turn of the loop |
| EntryReaders.ReadEntry | src/main/java/com/github/skiwi2/hearthmonitor/logreader/AbstractLineLogReader.java:23-67 | no more input exactly at the end of the log; otherwise the first line is consumed, and a `NotReadableException` carries exactly the lines consumed for the entry |
| EntryReaders.OnlyAcceptingReadersRun | src/main/java/com/github/skiwi2/hearthmonitor/logreader/AbstractLineLogReader.java:25-28 | only readers accepting the line run |
| EntryReaders.SingleAcceptingReader | src/main/java/com/github/skiwi2/hearthmonitor/logreader/AbstractLineLogReader.java:25-62 | when one reader accepts, the result is that reader's |
| EntryReaders.EmptyReaderSet | src/main/java/com/github/skiwi2/hearthmonitor/logreader/AbstractLineLogReader.java:64-66 | with no readers the first line is not readable |
| EntryReaders.ReadExpected | src/test/java/com/github/skiwi2/hearthmonitor/logreader/AbstractLineLogReaderTest.java:127-192 | a fixture reader succeeds exactly when its expected lines follow, and consumes them |
| EntryReaders.PeekTimes | src/test/java/com/github/skiwi2/hearthmonitor/logreader/AbstractLineLogReaderTest.java:209-272 | peeking k times pulls k more lines, up to the end of the log, and consumes none |
| EntryReaders.CollectUntil | src/test/java/com/github/skiwi2/hearthmonitor/logreader/AbstractLineLogReaderTest.java:274-309 | the START reader returns exactly the lines it consumed |
| EntryReaders.CollectUntilNextStart | src/test/java/com/github/skiwi2/hearthmonitor/logreader/AbstractLineLogReaderTest.java:274-309 | those lines are the ones before the next START line |
| EntryReaders.Run | src/main/java/com/github/skiwi2/hearthmonitor/logreader/hearthstone/power/CreateGameEntryReader.java:135-147 | a `\d+` or `\w+` group is the longest run of its class |
| EntryReaders.MatchRuns | src/main/java/com/github/skiwi2/hearthmonitor/logreader/hearthstone/power/CreateGameEntryReader.java:135-147 | the groups, placed after their literals, rebuild the matched text, and each is a nonempty run of its class |
| EntryReaders.MatchRunsComplete | src/main/java/com/github/skiwi2/hearthmonitor/logreader/hearthstone/power/CreateGameEntryReader.java:135-147 | text built from literals and maximal runs is matched with exactly those runs |
| EntryReaders.RunExact | src/main/java/com/github/skiwi2/hearthmonitor/logreader/hearthstone/power/CreateGameEntryReader.java:135-147 | a maximal run is found exactly |
| EntryReaders.GameEntityId | src/main/java/com/github/skiwi2/hearthmonitor/logreader/hearthstone/power/CreateGameEntryReader.java:135-136 | the id is a non-empty run of digits that the line carries right after `GameEntity EntityID=` |
| EntryReaders.PlayerLine | src/main/java/com/github/skiwi2/hearthmonitor/logreader/hearthstone/power/CreateGameEntryReader.java:221-224 | the four fields are non-empty digit runs that the line carries in order between the literals, closed by `]` |
| EntryReaders.TagValueLine | src/main/java/com/github/skiwi2/hearthmonitor/logreader/hearthstone/power/CreateGameEntryReader.java:146-147 | tag and value are non-empty word runs that the line carries after `tag=` and ` value=` |
| EntryReaders.TagValueLineRoundTrip | src/main/java/com/github/skiwi2/hearthmonitor/logreader/hearthstone/power/CreateGameEntryReader.java:146-147 | a tag line built from a tag and a value is read back as those |
| EntryReaders.GameEntityIdRoundTrip | src/main/java/com/github/skiwi2/hearthmonitor/logreader/hearthstone/power/CreateGameEntryReader.java:135-136 | a GameEntity line built from an id is read back with that id |
| EntryReaders.PlayerLineRoundTrip | src/main/java/com/github/skiwi2/hearthmonitor/logreader/hearthstone/power/CreateGameEntryReader.java:221-224 | a Player line built from its four numbers is read back with them |
| EntryReaders.TagLineTest | src/main/java/com/github/skiwi2/hearthmonitor/logreader/hearthstone/power/CreateGameEntryReader.java:160-165 | the loop goes on exactly for named-logger lines with more than four leading spaces; a named-logger line without content throws |
| EntryReaders.TagValues | src/main/java/com/github/skiwi2/hearthmonitor/logreader/hearthstone/power/CreateGameEntryReader.java:161-174 | one pair per tag line |
| EntryReaders.ReadTags | src/main/java/com/github/skiwi2/hearthmonitor/logreader/hearthstone/power/CreateGameEntryReader.java:160-174 | the peek loop consumes exactly the lines it reads as pairs and stops at the end of input or at a line that fails the test |
| EntryReaders.ReadTag | src/main/java/com/github/skiwi2/hearthmonitor/logreader/hearthstone/power/CreateGameEntryReader.java:161-174 | same, starting from a line already peeked |
| EntryReaders.TagsCons | src/main/java/com/github/skiwi2/hearthmonitor/logreader/hearthstone/power/CreateGameEntryReader.java:161-174 | a tag line in front adds its pair in front |
| EntryReaders.ReadTagLines | src/main/java/com/github/skiwi2/hearthmonitor/logreader/hearthstone/power/CreateGameEntryReader.java:160-174 | the child readers' tag loop consumes exactly the tag lines of the block |
| EntryReaders.ParseChild | src/main/java/com/github/skiwi2/hearthmonitor/logreader/hearthstone/power/CreateGameEntryReader.java:149-177 | the GameEntity reader returns the id of its line; the Player reader returns the four numbers of its line |
| EntryReaders.ChildParseAdvances | src/main/java/com/github/skiwi2/hearthmonitor/logreader/hearthstone/power/CreateGameEntryReader.java:149-276 | the child readers only move the reader forward |
| EntryReaders.ChildReadersDisjoint | src/main/java/com/github/skiwi2/hearthmonitor/logreader/hearthstone/power/CreateGameEntryReader.java:124-206 | no line is accepted by both child readers, so the order of the `HashSet` does not matter |
| EntryReaders.ChildParsable | src/main/java/com/github/skiwi2/hearthmonitor/logreader/hearthstone/power/CreateGameEntryReader.java:124-127 | the GameEntity and Player child readers accept a line by its prefix alone |
| EntryReaders.ChildReaderOrder | src/main/java/com/github/skiwi2/hearthmonitor/logreader/hearthstone/power/CreateGameEntryReader.java:83-86 | the result of the child loop is the same in either order of the two readers |
| EntryReaders.Nested | src/main/java/com/github/skiwi2/hearthmonitor/logreader/hearthstone/power/CreateGameEntryReader.java:79-87 | the nested reader starts valid at its first line with an empty record |
| EntryReaders.Resume | src/main/java/com/github/skiwi2/hearthmonitor/logreader/hearthstone/power/CreateGameEntryReader.java:77-87 | the parent has consumed exactly the lines the nested reader pulled past its first line |
| EntryReaders.ReadChild | src/main/java/com/github/skiwi2/hearthmonitor/logreader/hearthstone/power/CreateGameEntryReader.java:91-96 | one `readEntry` of the nested reader, with the engine's guarantees |
| EntryReaders.ReadPlayers | src/main/java/com/github/skiwi2/hearthmonitor/logreader/hearthstone/power/CreateGameEntryReader.java:94-101 | the Player loop ends at the end of the nested input, with only Player entries |
| EntryReaders.ParseCreateGame | src/main/java/com/github/skiwi2/hearthmonitor/logreader/hearthstone/power/CreateGameEntryReader.java:76-107 | a success reads the whole nested input and is a CREATE_GAME entry with a GameEntity |
| CreateGameReading.CreateGameReadBack | src/main/java/com/github/skiwi2/hearthmonitor/logreader/hearthstone/power/CreateGameEntryReader.java:77-107 | after the CREATE_GAME line, the block of a game entity and then the blocks of its players are parsed to exactly that game entity and those players, in order; the enclosing reader ends at the end of the log with nothing peeked |
| CreateGameReading.NestedReadBack | src/main/java/com/github/skiwi2/hearthmonitor/logreader/hearthstone/power/CreateGameEntryReader.java:79-101 | the nested reader's first `readEntry` returns the game entity and stops after its tags; the players loop then returns the players up to the end of its log |
| CreateGameReading.PlayersReadBack | src/main/java/com/github/skiwi2/hearthmonitor/logreader/hearthstone/power/CreateGameEntryReader.java:94-101 | the loop that ends on `NoMoreInputException` reads player blocks back as exactly those players and ends at the end of the nested log |
| CreateGameReading.ChildReadBack | src/main/java/com/github/skiwi2/hearthmonitor/logreader/hearthstone/power/CreateGameEntryReader.java:112-277 | one `readEntry` of the nested reader on a child block returns exactly that entry and stops after its tags with the next line, if any, peeked |
| CreateGameReading.GameEntityBlockRead | src/main/java/com/github/skiwi2/hearthmonitor/logreader/hearthstone/power/CreateGameEntryReader.java:149-177 | a GameEntity header is taken by the GameEntity reader, which builds the entity from its id and tags |
| CreateGameReading.PlayerBlockRead | src/main/java/com/github/skiwi2/hearthmonitor/logreader/hearthstone/power/CreateGameEntryReader.java:203-276 | a Player header is passed over by the GameEntity reader and taken by the Player reader, which builds the player from its four fields and tags |
| CreateGameReading.ChildLineRead | src/main/java/com/github/skiwi2/hearthmonitor/logreader/hearthstone/power/CreateGameEntryReader.java:124-158 | exactly one child reader accepts a child header, and its pattern reads the header back as the entry's fields |
| CreateGameReading.TagLoopReads | src/main/java/com/github/skiwi2/hearthmonitor/logreader/hearthstone/power/CreateGameEntryReader.java:160-174 | the peek loop reads exactly the tag lines in front of it, in order, and stops with the line after them, if any, peeked |
| CreateGameReading.TagLineContinues | src/main/java/com/github/skiwi2/hearthmonitor/logreader/hearthstone/power/CreateGameEntryReader.java:161-165 | a tag line, indented by eight, carries the loop on |
| CreateGameReading.ChildLineEndsTags | src/main/java/com/github/skiwi2/hearthmonitor/logreader/hearthstone/power/CreateGameEntryReader.java:161-165 | a child header, indented by four, ends the tag loop of the block before it |
| CreateGameReading.TagLineRead | src/main/java/com/github/skiwi2/hearthmonitor/logreader/hearthstone/power/CreateGameEntryReader.java:166-172 | `EXTRACT_TAG_VALUE_PATTERN` reads a tag line back as its tag and value |
| EntryReaders.Parse | src/main/java/com/github/skiwi2/hearthmonitor/logreader/AbstractLineLogReader.java:29-57 | every entry reader only moves the reader forward |
| EntryReaders.IsParsable | src/main/java/com/github/skiwi2/hearthmonitor/logreader/hearthstone/power/CreateGameEntryReader.java:71-74 | the CREATE_GAME reader accepts exactly the CREATE_GAME line; the fixture readers accept exactly their own name |
| EntryReaders.ReaderParseAdvances | src/main/java/com/github/skiwi2/hearthmonitor/logreader/AbstractLineLogReader.java:29-57 | same, as a property of the reader set |
| EntryReaders.Read | src/main/java/com/github/skiwi2/hearthmonitor/logreader/AbstractLineLogReader.java:23-67 | `readEntry` over the modelled readers: no more input exactly at the end of the log; a `NotReadableException` carries the record plus the lines consumed |
| AbstractLineLogReaders.Report | src/main/java/com/github/skiwi2/hearthmonitor/logreader/AbstractLineLogReader.java:58-66 | the entry, `NotReadableException` with its lines, or `NoMoreInputException`, exactly as the loop ended |
| AbstractLineLogReaders.AbstractLineLogReader.View | src/main/java/com/github/skiwi2/hearthmonitor/logreader/AbstractLineLogReader.java:90-109 | the peeked lines are the last lines taken from the log, just after the record |
| AbstractLineLogReaders.AbstractLineLogReader.constructor | src/main/java/com/github/skiwi2/hearthmonitor/logreader/AbstractLineLogReader.java:18-20 | the reader starts at the first line with nothing recorded or peeked |
| AbstractLineLogReaders.AbstractLineLogReader.ReadLineFromLog | src/main/java/com/github/skiwi2/hearthmonitor/logreader/AbstractLineLogReader.java:76-82 | the next line of the log; none left is `NoMoreInputException` |
| AbstractLineLogReaders.AbstractLineLogReader.ReadLineFromLogOrPeekedLines | src/main/java/com/github/skiwi2/hearthmonitor/logreader/AbstractLineLogReader.java:90-95 | the first peeked line is removed and returned; only with none left is the next log line read |
| AbstractLineLogReaders.AbstractLineLogReader.ReadLineFromLogAndSave | src/main/java/com/github/skiwi2/hearthmonitor/logreader/AbstractLineLogReader.java:104-109 | the line is consumed and recorded, as `PeekReaders.ReadLine` says |
| AbstractLineLogReaders.AbstractLineLogReader.PeekLineFromLog | src/main/java/com/github/skiwi2/hearthmonitor/logreader/AbstractLineLogReader.java:47-56 | a fresh log line is appended to the peeked lines, as `PeekReaders.PeekLine` says |
| AbstractLineLogReaders.AbstractLineLogReader.Replay | src/main/java/com/github/skiwi2/hearthmonitor/logreader/AbstractLineLogReader.java:29-57 | the object reaches any state an entry reader's reads and peeks lead to |
| AbstractLineLogReaders.AbstractLineLogReader.ClearLinesInMemory | src/main/java/com/github/skiwi2/hearthmonitor/logreader/AbstractLineLogReader.java:58-59 | the record is emptied, the peeked lines kept |
| AbstractLineLogReaders.AbstractLineLogReader.ReadEntry | src/main/java/com/github/skiwi2/hearthmonitor/logreader/AbstractLineLogReader.java:23-67 | the outcome and the new state are those of `EntryReaders.Read` |
| AbstractLineLogReaders.AbstractLineLogReader.TryEntryReaders | src/main/java/com/github/skiwi2/hearthmonitor/logreader/AbstractLineLogReader.java:25-66 | the loop ends as `EntryReaders.TryReaders` says |
| AbstractLineLogReaders.AbstractLineLogReader.TryEntryReader | src/main/java/com/github/skiwi2/hearthmonitor/logreader/AbstractLineLogReader.java:25-62 | one turn: skip, return the entry, or continue after a caught failure |
| EntryReaderScenarios.ReadsExpectedEntries | src/test/java/com/github/skiwi2/hearthmonitor/logreader/AbstractLineLogReaderTest.java:17-23 | on A, B the readers return A and then B |
| EntryReaderScenarios.ReadEntriesFromLogReader | src/test/java/com/github/skiwi2/hearthmonitor/logreader/AbstractLineLogReaderTest.java:17-32 | the reader object returns A, B and then throws `NoMoreInputException` |
| EntryReaderScenarios.ReadsNoMoreEntries | src/test/java/com/github/skiwi2/hearthmonitor/logreader/AbstractLineLogReaderTest.java:25-32 | after A and B there is no more input |
| EntryReaderScenarios.NoReadersAvailable | src/test/java/com/github/skiwi2/hearthmonitor/logreader/AbstractLineLogReaderTest.java:34-45 | with no readers, the line A is not readable |
| EntryReaderScenarios.EntrySpanningLines | src/test/java/com/github/skiwi2/hearthmonitor/logreader/AbstractLineLogReaderTest.java:47-54 | C consumes its lines 1, 2, 3 and B follows |
| EntryReaderScenarios.LastEntryNotReadable | src/test/java/com/github/skiwi2/hearthmonitor/logreader/AbstractLineLogReaderTest.java:56-69 | a C cut short by the end of the log is not readable, with lines C, 1, 2 |
| EntryReaderScenarios.ExpectedRunsOut | src/test/java/com/github/skiwi2/hearthmonitor/logreader/AbstractLineLogReaderTest.java:56-69 | C's reader reads 1 and 2 and fails at the end of the log where it expects 3 |
| EntryReaderScenarios.IncorrectInputSkipped | src/test/java/com/github/skiwi2/hearthmonitor/logreader/AbstractLineLogReaderTest.java:71-85 | C meeting 4 is not readable with lines C, 1, 2, 4, and B is read after it |
| EntryReaderScenarios.IncorrectInputNotReadable | src/test/java/com/github/skiwi2/hearthmonitor/logreader/AbstractLineLogReaderTest.java:71-85 | C meeting 4 is not readable with lines C, 1, 2, 4 |
| EntryReaderScenarios.ThreeExpectedMeetsFour | src/test/java/com/github/skiwi2/hearthmonitor/logreader/AbstractLineLogReaderTest.java:127-192 | C's reader stops after reading the 4 where it expects 3 |
| EntryReaderScenarios.PeekedLinesAreReadAgain | src/test/java/com/github/skiwi2/hearthmonitor/logreader/AbstractLineLogReaderTest.java:87-108 | peeked lines are read again by the next `readEntry` |
| EntryReaderScenarios.PeeksPastTheEnd | src/test/java/com/github/skiwi2/hearthmonitor/logreader/AbstractLineLogReaderTest.java:87-108 | peeks past the end of the log find nothing, and reading ends after the last line |
| EntryReaderScenarios.EntriesUpToNextStart | src/test/java/com/github/skiwi2/hearthmonitor/logreader/AbstractLineLogReaderTest.java:110-125 | each START entry holds the lines up to the next START |
| EntryReaderScenarios.StartEntry | src/test/java/com/github/skiwi2/hearthmonitor/logreader/AbstractLineLogReaderTest.java:274-309 | a START entry holds exactly the lines up to the next START or the end of the log |

## Left out

- File reading, monitoring a growing file, threads and `close()` are left out: these readers take a line source and wait for input, which a finite sequence of lines stands in for.
- The list-backed log readers are left out. They only adapt a `List` to an iterator, which the model takes as its sequence of lines.
- `Objects.requireNonNull` checks are left out. No value in the model can be null.
- The reflection of ACTION_START is the explicit factory `EntryParsing.Create` over a closed set of parser kinds. A kind without `create`/`createForIndentation` stands for a class whose reflective call fails.
- Parser sets are Java `HashSet`s, whose iteration order is unspecified. The model takes them as sequences in a fixed order. `EntryReaders.ChildReaderOrder` shows the order does not matter for CREATE_GAME. For the other engines the loop's result can depend on the order when two parsers accept a line, as in Java.
- Java regular expressions are modelled by functions for the particular patterns used (literal text, `\s*`, `\s{4,}`, `\w+`, `\d+` and greedy `(.*)` groups). They are not modelled by a regex engine.
- `LogLineUtils.countLeadingSpaces`, `getContentFromLineFromNamedLogger`, the `LineReader` helpers `readWhile`, `hasNextLine` and `nextLineMatches`, the `peekLine` default of the older `LineReader`, and the overload of `LogReaderUtils.fromInputAndExtraLineReader` that takes a set of `EntryReader`s (called at `CreateGameEntryReader.java:79-87`) are not part of this model's source files. They are modelled from their call sites. That overload is taken to build a reader whose log is its input line followed by the lines it pulls one by one through the parent's `readLine`, peeked lines first, and whose `readEntry` is the older engine's loop over the given readers (`EntryReaders.Nested`, `EntryReaders.Resume`). For the other helpers, the content of a line is the `LOG_LINE_PATTERN` group, and any other line throws an unchecked exception.
- The `Transitioning` factory that builds a parser from a zone and an indentation is the datatype constructor `TransitioningParser`.
- After an unchecked exception (`Crash`), the engines' contracts do not state the reader's state. The Java exception leaves it wherever the parser stopped, and nothing reads it again.
- `AbstractLogReaders.AbstractLogReader` and `DefaultLogReaders.DefaultLogReader` each have an `exhausted` field that the Java classes do not have. It records that the filtered iterator answered `hasNext` false, which a Java stream iterator remembers internally.
- The parsers are functions of the reader state, not objects calling back into the engine. Each engine method runs a parser function and then replays the same reads and peeks on the object (`Replay`). So the model does not capture a parser interleaving side effects with its reads.
- The filter of the log source is applied to the whole source up front (`IteratorUtils.Filter`). Java filters lazily, which gives the same lines in the same order.
- The entry classes and their builders are plain records in `LogEntries`. `equals`, `hashCode` and `toString` are not modelled.
- EntryParsing.ParseGameEntity, EntryParsing.ParsePlayer, EntryParsing.ParseShowEntity, EntryParsing.ParseFullEntity, EntryParsing.ParseHideEntity, EntryParsing.ParseTagChange and EntryParsing.ParseTransitioning: each parser's own contract states only that the reader moves forward. The fields they extract are stated by the round-trip lemmas `EntryParsing.GameEntityHeaderRoundTrip`, `HideEntityRoundTrip`, `TagChangeRoundTrip`, `TransitioningRoundTrip`, `ShowEntityRoundTrip`, `PlayerRoundTrip` and `FullEntityRoundTrip`, for lines whose delimiters occur only where the fields put them (`Text.Unambiguous`). The tag pairs are stated by `TagBlocks.TagBlockRead` and `TagBlocks.TagBlockReadsWholeBlock`.
- Text.Split and Text.MatchIndented: lines are taken to hold no line terminator. Java's `.` without DOTALL does not match `\n`, `\r`, `\u0085`, `\u2028` or `\u2029`. `BufferedReader.readLine` does not split on the last three, and a list-backed source may hold any of them. On such a line the model's `(.*)` groups match where `Matcher.find()` fails.
- EntryParsing.ParseActionStart: the fields of the entry are not stated. Only the consumed scope (`ActionStartConsumesItsScope`, `ActionStartCloses`) and the child parser set are.
- LineReaders.NextLineTest: the value of a peek with an arbitrary predicate is not stated. Only that it consumes nothing is stated, because an arbitrary predicate may throw.
- EntryParsing.ParseCreateGame, EntryParsing.ReadGame, EntryReaders.ReadPlayers and EntryReaders.ParseCreateGame: each one's own contract states only the kinds of the entries it returns and how much input it consumes. Which entries it returns is stated by the round-trip lemmas `EntryParsing.CreateGameRoundTrip` and `CreateGameReading.CreateGameReadBack`, for bodies made of well-formed blocks: a header, then one line per tag.
- CreateGameReading.CreateGameReadBack: stated for blocks written the way the log writes them. Child headers are indented by four and tag lines by eight, ids are runs of digits, and tags and values are runs of word characters. Lines with more text after the groups, which the patterns' trailing `.*` also accepts, are not covered.
- The child parsers of `CreateGameEntryParser` are its own nested classes `GameEntityEntryParser` and `PlayerEntryParser` (CreateGameEntryParser.java:124-301). The nested `PlayerEntryParser` is the same code as the top-level one. The nested `GameEntityEntryParser` is the top-level one without an indentation restriction. So the model uses `GameEntityParser(false, 0)` and `PlayerParser` for them.
