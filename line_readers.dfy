/**
 * The `LineReader` a log reader hands to its entry parsers (the anonymous
 * class inside `AbstractLogReader.readNextEntry`), described by the state of
 * the reader it reads from:
 *  - `source`: every line the reader delivers, in order, and `pos`: how many
 *    of them it has delivered,
 *  - `mark`: where the current entry began; the lines delivered since then
 *    are the ones recorded (`linesInMemory`),
 *  - `crashes`: asking for a line after the last one throws an unchecked
 *    exception (a read condition of an enclosing scope could not be evaluated),
 *  - `lookahead`: lines already pulled from the underlying source but not yet
 *    delivered (the peek buffer; never more than one),
 *  - `probed`: the reader has asked its source for a line past the last one.
 */
module LineReaders {
  import opened Wrappers
  import opened LogLineUtils

  /** The conditions the parsers test lines against with `nextLineMatches`. */
  datatype LineCondition =
    | Always                      // `line -> true`
    | NotEqualTo(text: string)    // `line -> !line.equals(text)`
    | IndentedBeyond(depth: nat)  // isFromNamedLogger(line) && countLeadingSpaces(content) > depth

  /**
   * The value of a condition on a line; None stands for the
   * `IllegalArgumentException` raised when a line from a named logger has no
   * content part.
   */
  function Evaluate(c: LineCondition, line: string): (r: Option<bool>)
    ensures r.None? <==> c.IndentedBeyond? && IsFromNamedLogger(line) && Content(line).None?
  {
    match c
    case Always => Some(true)
    case NotEqualTo(text) => Some(line != text)
    case IndentedBeyond(depth) =>
      if !IsFromNamedLogger(line) then Some(false)
      else
        match Content(line)
        case None => None
        case Some(content) => Some(CountLeadingSpaces(content) > depth)
  }

  /** A child condition holds exactly for log lines whose content is indented deeper than `depth`. */
  lemma IndentedBeyondHolds(depth: nat, line: string)
    ensures Evaluate(IndentedBeyond(depth), line) == Some(true) <==>
              ParseLogLine(line).Some? && CountLeadingSpaces(ParseLogLine(line).value.content) > depth
  {
    if ParseLogLine(line).Some? {
      LogLineIsFromNamedLogger(line);
    }
  }

  datatype ReaderState = ReaderState(source: seq<string>, pos: nat, mark: nat, crashes: bool, lookahead: nat, probed: bool)

  /**
   * The recorded lines start at or before the cursor, the peek buffer holds
   * at most one of the upcoming lines, and a probe happens only at the end.
   */
  predicate Valid(s: ReaderState) {
    && s.mark <= s.pos
    && s.lookahead <= 1 && s.pos + s.lookahead <= |s.source|
    && (s.probed ==> s.pos == |s.source|)
  }

  /** `linesInMemory`: the lines delivered since the current entry began. */
  function Memory(s: ReaderState): seq<string>
    requires Valid(s)
  {
    s.source[s.mark..s.pos]
  }

  /** The reader with its record of lines cleared (`linesInMemory.clear()`). */
  function Cleared(s: ReaderState): (r: ReaderState)
    requires Valid(s)
    ensures Valid(r) && Memory(r) == []
  {
    s.(mark := s.pos)
  }

  /** A line follows. */
  predicate More(s: ReaderState) {
    s.pos < |s.source|
  }

  /** The upcoming lines not yet pulled from the source. */
  function Pending(s: ReaderState): int {
    |s.source| - s.pos - s.lookahead
  }

  /**
   * `t` is a later state of the same reader: it has delivered at least as
   * many lines, has pulled no line back into its source and has not
   * forgotten a probe past the end.
   */
  predicate Follows(s: ReaderState, t: ReaderState) {
    && Valid(t)
    && t.source == s.source && s.pos <= t.pos
    && t.crashes == s.crashes
    && Pending(t) <= Pending(s)
    && (s.probed ==> t.probed)
  }

  /** A later state within the same entry: it has kept its record of lines. */
  predicate Advanced(s: ReaderState, t: ReaderState) {
    Follows(s, t) && t.mark == s.mark
  }

  /**
   * `lines` are the lines of the log from where the record began in `s` up
   * to the cursor in `t`: those recorded before plus those consumed since.
   */
  predicate RecordedUpTo(s: ReaderState, t: ReaderState, lines: seq<string>) {
    s.mark <= t.pos <= |s.source| && lines == s.source[s.mark..t.pos]
  }

  /** Within an entry, the record grows by exactly the lines consumed, in order. */
  lemma AdvancedRecords(s: ReaderState, t: ReaderState)
    requires Valid(s) && Advanced(s, t)
    ensures Memory(t) == Memory(s) + s.source[s.pos..t.pos]
  {
    assert s.source[s.mark..t.pos] == s.source[s.mark..s.pos] + s.source[s.pos..t.pos];
  }

  /** The outcome of one call on the line reader; `NoSuchElement` is the checked end of input. */
  datatype Step<T> = Done(value: T, state: ReaderState) | NoSuchElement(state: ReaderState) | Crashed

  /** `hasNextLine` (`hasNextEntry` of the reader): true iff a line follows; nothing is consumed. */
  function HasNextLine(s: ReaderState): (r: Step<bool>)
    requires Valid(s)
    ensures r.Crashed? <==> !More(s) && s.crashes
    ensures r.NoSuchElement? ==> false
    ensures r.Done? ==> (r.value <==> More(s)) && Advanced(s, r.state) && r.state.pos == s.pos
  {
    if More(s) then Done(true, s.(lookahead := 1))
    else if s.crashes then Crashed
    else Done(false, s.(probed := true))
  }

  /**
   * `nextLineMatches`: false at the end of input, otherwise the condition on
   * the next line, which stays buffered; nothing is consumed.
   */
  function NextLineMatches(s: ReaderState, c: LineCondition): (r: Step<bool>)
    requires Valid(s)
    ensures r.Crashed? <==> if More(s) then Evaluate(c, s.source[s.pos]).None? else s.crashes
    ensures r.NoSuchElement? ==> false
    ensures r.Done? ==> (r.value <==> More(s) && Evaluate(c, s.source[s.pos]) == Some(true))
    ensures r.Done? ==> Advanced(s, r.state) && r.state.pos == s.pos
  {
    if !More(s) then
      if s.crashes then Crashed else Done(false, s.(probed := true))
    else
      match Evaluate(c, s.source[s.pos])
      case None => Crashed
      case Some(b) => Done(b, s.(lookahead := 1))
  }

  /**
   * `nextLineMatches` with any predicate: `test` gives the predicate's value
   * on a line, None when it throws.
   */
  function NextLineTest(s: ReaderState, test: string -> Option<bool>): (r: Step<bool>)
    requires Valid(s)
    ensures r.Done? ==> Advanced(s, r.state) && r.state.pos == s.pos
  {
    if !More(s) then
      if s.crashes then Crashed else Done(false, s.(probed := true))
    else
      match test(s.source[s.pos])
      case None => Crashed
      case Some(b) => Done(b, s.(lookahead := 1))
  }

  /** The parsers' conditions are such predicates. */
  lemma NextLineMatchesIsTest(s: ReaderState, c: LineCondition)
    requires Valid(s)
    ensures NextLineMatches(s, c) == NextLineTest(s, line => Evaluate(c, line))
  {
  }

  /**
   * `readNextLine` (`readLineFromLogAndSave`): the next line, consumed and
   * recorded; past the end, `NoSuchElementException`.
   */
  function ReadNextLine(s: ReaderState): (r: Step<string>)
    requires Valid(s)
    ensures r.Crashed? <==> !More(s) && s.crashes
    ensures r.NoSuchElement? <==> !More(s) && !s.crashes
    ensures r.NoSuchElement? ==> Advanced(s, r.state) && r.state.pos == s.pos
    ensures r.Done? ==> && r.value == s.source[s.pos]
                        && Advanced(s, r.state) && r.state.pos == s.pos + 1 && r.state.lookahead == 0
  {
    if !More(s) then
      if s.crashes then Crashed else NoSuchElement(s.(probed := true))
    else
      Done(s.source[s.pos], s.(pos := s.pos + 1, lookahead := 0))
  }

  /** A read records exactly the line it consumes. */
  lemma ReadRecords(s: ReaderState)
    requires Valid(s) && ReadNextLine(s).Done?
    ensures Memory(ReadNextLine(s).state) == Memory(s) + [ReadNextLine(s).value]
  {
    assert s.source[s.mark..s.pos + 1] == s.source[s.mark..s.pos] + [s.source[s.pos]];
  }

  /** Asking twice whether a line follows gives the same answer and leaves the same state. */
  lemma HasNextLineRepeats(s: ReaderState)
    requires Valid(s) && HasNextLine(s).Done?
    ensures HasNextLine(HasNextLine(s).state) == HasNextLine(s)
  {
  }

  /** Testing the next line and then reading it gives that very line: a peek never skips. */
  lemma PeekThenRead(s: ReaderState, c: LineCondition)
    requires Valid(s) && NextLineMatches(s, c).Done? && NextLineMatches(s, c).value
    ensures ReadNextLine(NextLineMatches(s, c).state).Done?
    ensures ReadNextLine(NextLineMatches(s, c).state).value == s.source[s.pos]
    ensures ReadNextLine(NextLineMatches(s, c).state).state == ReadNextLine(s).state
  {
  }
}
