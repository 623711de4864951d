/**
 * The loops the entry parsers run over their `LineReader`: the tag/value
 * child lines under a header, and the line loops of the reader tests'
 * fixture parsers.
 */
module TagBlocks {
  import opened Wrappers
  import opened LogEntries
  import opened PowerGrammar
  import opened LineReaders

  /** Why one parser gave up: `NotParsableException` or `NoSuchElementException`. */
  datatype Cause = NotParsableCause | NoSuchElementCause

  /** The outcome of one parsing step: a value and the reader after it, a caught failure, or an escaping exception. */
  datatype Outcome<T> = Ok(value: T, state: ReaderState) | Fail(cause: Cause, state: ReaderState) | Crash

  /** The two shapes of tag/value children. */
  datatype TagStyle =
    | Nested(depth: nat)  // `(\s{4,})tag=(.*) value=(.*)`, indented at least `depth + 4`, read while deeper than `depth`
    | FullEntityStyle     // `-     tag=(.*) value=(.*)` (exactly four spaces), read while deeper than 0

  /** The read condition of a tag block: a log line indented deeper than its header. */
  function ChildCondition(style: TagStyle): LineCondition {
    match style
    case Nested(depth) => IndentedBeyond(depth)
    case FullEntityStyle => IndentedBeyond(0)
  }

  /** One child line read as a tag/value pair, or None for `NotParsableException`. */
  function ReadTag(style: TagStyle, line: string): Option<TagValue> {
    match style
    case FullEntityStyle => FullEntityTagLine(line)
    case Nested(depth) =>
      match TagLine(line)
      case None => None
      case Some(pair) => if pair.0 < depth + 4 then None else Some(pair.1)
  }

  /**
   * A nested tag line is read only when it lies at least four spaces deeper
   * than its header; any indentation less than that is `NotParsableException`.
   */
  lemma ReadTagDepth(depth: nat, line: string)
    ensures ReadTag(Nested(depth), line).Some? <==> TagLine(line).Some? && TagLine(line).value.0 >= depth + 4
    ensures ReadTag(Nested(depth), line).Some? ==> ReadTag(Nested(depth), line).value == TagLine(line).value.1
  {
  }

  /**
   * The tag loop of the GameEntity, Player, ShowEntity and FullEntity parsers:
   * while the next line satisfies the block's condition, read it and add its
   * pair; a line that is no tag line, or is indented too little, fails the
   * whole entry.
   */
  function TagBlock(style: TagStyle, s: ReaderState): (r: Outcome<seq<TagValue>>)
    requires Valid(s)
    ensures r.Ok? || r.Fail? ==> Advanced(s, r.state)
    ensures r.Fail? ==> r.cause == NotParsableCause
    decreases |s.source| - s.pos
  {
    var m := NextLineMatches(s, ChildCondition(style));
    if m.Crashed? then Crash
    else if !m.value then Ok([], m.state)
    else
      PeekThenRead(s, ChildCondition(style));
      var read := ReadNextLine(m.state);
      match ReadTag(style, read.value)
      case None => Fail(NotParsableCause, read.state)
      case Some(pair) =>
        var rest := TagBlock(style, read.state);
        if rest.Crash? then Crash
        else
          if rest.Fail? then rest else Ok([pair] + rest.value, rest.state)
  }

  /** Lines each passing `test` and read by `read` as the matching value. */
  predicate ReadAs<T(==)>(test: string -> Option<bool>, read: string -> Option<T>, lines: seq<string>, values: seq<T>) {
    if lines == [] then values == []
    else
      && values != []
      && test(lines[0]) == Some(true)
      && read(lines[0]) == Some(values[0])
      && ReadAs(test, read, lines[1..], values[1..])
  }

  /** The block's read condition as a test on lines. */
  function ChildTest(style: TagStyle): string -> Option<bool> {
    line => Evaluate(ChildCondition(style), line)
  }

  /** The block's child lines read as pairs. */
  function TagReader(style: TagStyle): string -> Option<TagValue> {
    line => ReadTag(style, line)
  }

  /**
   * The lines of a tag block, each satisfying the block's condition and read
   * as the matching pair. Stated as a single fact, so that a proof obligation
   * about it is not split into one obligation per line of `ReadAs`.
   */
  predicate TagsOf(style: TagStyle, lines: seq<string>, tags: seq<TagValue>) {
    ReadAs(ChildTest(style), TagReader(style), lines, tags) == true
  }

  /**
   * A tag block that is read is a run of child lines, each read as its
   * pair, ended by the end of input or by the first line outside the block.
   */
  lemma {:induction false} TagBlockRead(style: TagStyle, s: ReaderState)
    requires Valid(s) && TagBlock(style, s).Ok?
    ensures var r := TagBlock(style, s);
            && TagsOf(style, s.source[s.pos..r.state.pos], r.value)
            && (!More(r.state) || Evaluate(ChildCondition(style), r.state.source[r.state.pos]) == Some(false))
    decreases |s.source| - s.pos
  {
    if More(s) && Evaluate(ChildCondition(style), s.source[s.pos]) == Some(true) {
      TagBlockUncons(style, s);
      TagBlockRead(style, ReadNextLine(s).state);
      TagBlockReadStep(style, s);
    } else {
      EmptySlice(s.source, s.pos);
    }
  }

  /** `TagBlockRead` for a block past its first line, given it for the rest of the block. */
  lemma TagBlockReadStep(style: TagStyle, s: ReaderState)
    requires Valid(s) && TagBlock(style, s).Ok?
    requires More(s) && Evaluate(ChildCondition(style), s.source[s.pos]) == Some(true)
    requires var next := ReadNextLine(s).state;
             var rest := TagBlock(style, next);
             rest.Ok? && TagsOf(style, next.source[next.pos..rest.state.pos], rest.value)
    ensures var r := TagBlock(style, s);
            TagsOf(style, s.source[s.pos..r.state.pos], r.value)
  {
    TagBlockUncons(style, s);
    var rest := TagBlock(style, ReadNextLine(s).state);
    TagsOfStep(style, s.source, s.pos, rest.state.pos, ReadTag(style, s.source[s.pos]).value, rest.value);
  }

  /** A block read past its first line: that line's pair, then the rest of the block. */
  lemma TagBlockUncons(style: TagStyle, s: ReaderState)
    requires Valid(s) && TagBlock(style, s).Ok?
    requires More(s) && Evaluate(ChildCondition(style), s.source[s.pos]) == Some(true)
    ensures ReadTag(style, s.source[s.pos]).Some?
    ensures var rest := TagBlock(style, ReadNextLine(s).state);
            && rest.Ok?
            && TagBlock(style, s) == Ok([ReadTag(style, s.source[s.pos]).value] + rest.value, rest.state)
  {
    PeekThenRead(s, ChildCondition(style));
  }

  lemma EmptySlice<T>(xs: seq<T>, i: nat)
    requires i <= |xs|
    ensures xs[i..i] == []
  {
  }

  /** A tag line followed by the rest of a block. */
  lemma TagsOfStep(style: TagStyle, source: seq<string>, pos: nat, end: nat, tag: TagValue, tags: seq<TagValue>)
    requires pos < end <= |source|
    requires Evaluate(ChildCondition(style), source[pos]) == Some(true) && ReadTag(style, source[pos]) == Some(tag)
    requires TagsOf(style, source[pos + 1..end], tags)
    ensures TagsOf(style, source[pos..end], [tag] + tags)
  {
    ReadAsStep(line => Evaluate(ChildCondition(style), line), line => ReadTag(style, line), source, pos, end, tag, tags);
  }

  lemma ReadAsStep<T>(test: string -> Option<bool>, read: string -> Option<T>, source: seq<string>, pos: nat, end: nat, v: T, vs: seq<T>)
    requires pos < end <= |source|
    requires test(source[pos]) == Some(true) && read(source[pos]) == Some(v)
    requires ReadAs(test, read, source[pos + 1..end], vs)
    ensures ReadAs(test, read, source[pos..end], [v] + vs)
  {
    TailSlice(source, pos, end);
    assert ([v] + vs)[1..] == vs;
  }

  lemma TailSlice<T>(xs: seq<T>, i: nat, j: nat)
    requires i < j <= |xs|
    ensures xs[i..j][0] == xs[i] && xs[i..j][1..] == xs[i + 1..j]
  {
  }

  /** A tag block holds one pair per line. */
  lemma TagsOfLength(style: TagStyle, lines: seq<string>, tags: seq<TagValue>)
    requires TagsOf(style, lines, tags)
    ensures |tags| == |lines|
  {
    ReadAsLength(line => Evaluate(ChildCondition(style), line), line => ReadTag(style, line), lines, tags);
  }

  lemma {:induction false} ReadAsLength<T>(test: string -> Option<bool>, read: string -> Option<T>, lines: seq<string>, values: seq<T>)
    requires ReadAs(test, read, lines, values)
    ensures |values| == |lines|
  {
    if lines != [] {
      ReadAsLength(test, read, lines[1..], values[1..]);
    }
  }

  /** `TagsOf` line by line: the `i`-th line satisfies the block's condition and reads as the `i`-th pair. */
  lemma TagsOfAt(style: TagStyle, lines: seq<string>, tags: seq<TagValue>, i: nat)
    requires TagsOf(style, lines, tags) && i < |lines|
    ensures i < |tags|
    ensures Evaluate(ChildCondition(style), lines[i]) == Some(true)
    ensures ReadTag(style, lines[i]) == Some(tags[i])
  {
    ReadAsAt(line => Evaluate(ChildCondition(style), line), line => ReadTag(style, line), lines, tags, i);
  }

  lemma {:induction false} ReadAsAt<T>(test: string -> Option<bool>, read: string -> Option<T>, lines: seq<string>, values: seq<T>, i: nat)
    requires ReadAs(test, read, lines, values) && i < |lines|
    ensures i < |values| && test(lines[i]) == Some(true) && read(lines[i]) == Some(values[i])
    decreases i
  {
    if i > 0 {
      ReadAsAt(test, read, lines[1..], values[1..], i - 1);
      TailIndex(lines, i);
      TailIndex(values, i);
    }
  }

  lemma TailIndex<T>(xs: seq<T>, i: nat)
    requires 0 < i < |xs|
    ensures xs[1..][i - 1] == xs[i]
  {
  }

  /** Consuming the next line and then some more consumes a run starting with that line. */
  lemma ConsumedStep(source: seq<string>, pos: nat, end: nat)
    requires pos < end <= |source|
    ensures source[pos..end] == [source[pos]] + source[pos + 1..end]
  {
  }

  /**
   * The START parser of the tests: while the next line is not `stop`, read it
   * and keep it. The kept lines are exactly the consumed ones.
   */
  function CollectLines(stop: string, s: ReaderState): (r: Outcome<seq<string>>)
    requires Valid(s)
    ensures !r.Fail?
    ensures r.Ok? ==> && Advanced(s, r.state)
                      && r.value == s.source[s.pos..r.state.pos]
                      && stop !in r.value
                      && (!More(r.state) || r.state.source[r.state.pos] == stop)
    decreases |s.source| - s.pos
  {
    var m := NextLineMatches(s, NotEqualTo(stop));
    if m.Crashed? then Crash
    else if !m.value then Ok([], m.state)
    else
      PeekThenRead(s, NotEqualTo(stop));
      var read := ReadNextLine(m.state);
      var rest := CollectLines(stop, read.state);
      if rest.Crash? then Crash
      else
        ConsumedStep(s.source, s.pos, rest.state.pos);
        Ok([read.value] + rest.value, rest.state)
  }

  /** The D parser of the tests reads `expected` line by line; any other line fails it. */
  function ExpectLines(expected: seq<string>, s: ReaderState): (r: Outcome<()>)
    requires Valid(s)
    ensures r.Ok? || r.Fail? ==> Advanced(s, r.state)
    ensures r.Ok? <==> s.pos + |expected| <= |s.source| && s.source[s.pos..s.pos + |expected|] == expected
    ensures r.Ok? ==> r.state.pos == s.pos + |expected|
    decreases |expected|
  {
    if expected == [] then Ok((), s)
    else
      var read := ReadNextLine(s);
      if read.Crashed? then Crash
      else if read.NoSuchElement? then Fail(NoSuchElementCause, read.state)
      else
        if read.value != expected[0] then Fail(NotParsableCause, read.state)
        else
          var rest := ExpectLines(expected[1..], read.state);
          if rest.Crash? then Crash
          else
            PrefixStep(s.source, s.pos, expected);
            rest
  }

  lemma PrefixStep(source: seq<string>, pos: nat, expected: seq<string>)
    requires pos < |source| && expected != [] && source[pos] == expected[0]
    ensures (pos + |expected| <= |source| && source[pos..pos + |expected|] == expected) <==>
            (pos + 1 + |expected[1..]| <= |source| && source[pos + 1..pos + 1 + |expected[1..]|] == expected[1..])
  {
    if pos + |expected| <= |source| {
      assert source[pos..pos + |expected|] == [source[pos]] + source[pos + 1..pos + |expected|];
      assert expected == [expected[0]] + expected[1..];
    }
  }

  /**
   * The converse of `TagBlock`'s contract: a run of child lines that are all
   * tag lines at the right depth, ended by the end of input or by a line
   * outside the block, is read completely and exactly.
   */
  lemma {:induction false} TagBlockReadsWholeBlock(style: TagStyle, s: ReaderState, end: nat, tags: seq<TagValue>)
    requires Valid(s) && s.pos <= end <= |s.source| && !s.crashes
    requires TagsOf(style, s.source[s.pos..end], tags)
    requires end < |s.source| ==> Evaluate(ChildCondition(style), s.source[end]) == Some(false)
    ensures TagBlock(style, s).Ok?
    ensures TagBlock(style, s).value == tags
    ensures TagBlock(style, s).state.pos == end
    decreases end - s.pos
  {
    if end == s.pos {
      TagBlockAtEnd(style, s);
    } else {
      TagsOfUncons(style, s.source, s.pos, end, tags);
      var next := ReadNextLine(s).state;
      TagBlockReadsWholeBlock(style, next, end, tags[1..]);
      TagBlockCons(style, s, tags);
    }
  }

  /** `TagBlockReadsWholeBlock` for block lines given as any sequence equal to the reader's next lines. */
  lemma TagBlockReadsLines(style: TagStyle, s: ReaderState, end: nat, lines: seq<string>, tags: seq<TagValue>)
    requires Valid(s) && s.pos <= end <= |s.source| && !s.crashes
    requires lines == s.source[s.pos..end] && TagsOf(style, lines, tags)
    requires end < |s.source| ==> Evaluate(ChildCondition(style), s.source[end]) == Some(false)
    ensures TagBlock(style, s).Ok?
    ensures TagBlock(style, s).value == tags
    ensures TagBlock(style, s).state.pos == end
  {
    TagBlockReadsWholeBlock(style, s, end, tags);
  }

  /** A block whose first line reads as the first pair and whose rest reads as the other pairs. */
  lemma TagBlockCons(style: TagStyle, s: ReaderState, tags: seq<TagValue>)
    requires Valid(s) && More(s) && tags != []
    requires Evaluate(ChildCondition(style), s.source[s.pos]) == Some(true) && ReadTag(style, s.source[s.pos]) == Some(tags[0])
    requires TagBlock(style, ReadNextLine(s).state).Ok? && TagBlock(style, ReadNextLine(s).state).value == tags[1..]
    ensures TagBlock(style, s).Ok? && TagBlock(style, s).value == tags
    ensures TagBlock(style, s).state == TagBlock(style, ReadNextLine(s).state).state
  {
    PeekThenRead(s, ChildCondition(style));
    var rest := TagBlock(style, ReadNextLine(s).state);
    assert TagBlock(style, s) == Ok([tags[0]] + rest.value, rest.state);
    Recons(tags);
  }

  /** The first line of a tag block and the rest of it. */
  lemma TagsOfUncons(style: TagStyle, source: seq<string>, pos: nat, end: nat, tags: seq<TagValue>)
    requires pos < end <= |source| && TagsOf(style, source[pos..end], tags)
    ensures tags != [] && Evaluate(ChildCondition(style), source[pos]) == Some(true)
    ensures ReadTag(style, source[pos]) == Some(tags[0])
    ensures TagsOf(style, source[pos + 1..end], tags[1..])
  {
    ReadAsUncons(line => Evaluate(ChildCondition(style), line), line => ReadTag(style, line), source, pos, end, tags);
  }

  lemma ReadAsUncons<T>(test: string -> Option<bool>, read: string -> Option<T>, source: seq<string>, pos: nat, end: nat, values: seq<T>)
    requires pos < end <= |source| && ReadAs(test, read, source[pos..end], values)
    ensures values != [] && test(source[pos]) == Some(true) && read(source[pos]) == Some(values[0])
    ensures ReadAs(test, read, source[pos + 1..end], values[1..])
  {
    TailSlice(source, pos, end);
  }

  /** A non-empty sequence is its first element followed by the rest. */
  lemma Recons<T>(xs: seq<T>)
    requires xs != []
    ensures [xs[0]] + xs[1..] == xs
  {
  }

  /** A block ends, unread, at the end of input or at a line outside it. */
  lemma TagBlockAtEnd(style: TagStyle, s: ReaderState)
    requires Valid(s) && !s.crashes
    requires More(s) ==> Evaluate(ChildCondition(style), s.source[s.pos]) == Some(false)
    ensures TagBlock(style, s) == Ok([], NextLineMatches(s, ChildCondition(style)).state)
  {
  }
}
