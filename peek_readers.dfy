/**
 * The reader an `AbstractLineLogReader` hands its entry readers: `readLine`
 * takes the peeked lines first, then the log; every `peekLine` takes a fresh
 * line from the log and appends it to the peeked lines, so successive peeks
 * look further ahead. `linesInMemory` records the lines `readLine` returned
 * since the current entry began.
 */
module PeekReaders {
  import opened Wrappers

  /**
   * `source`: the lines `readLineFromLog` returns, in order; `pos`: how many
   * lines `readLine` has returned; `peeked`: how many lines sit in
   * `peekedLines` (the ones right after `pos`); `mark`: where
   * `linesInMemory` starts.
   */
  datatype PeekState = PeekState(source: seq<string>, pos: nat, mark: nat, peeked: nat)

  /** The record starts at or before the cursor, and the peeked lines lie within the log. */
  predicate Valid(s: PeekState) {
    s.mark <= s.pos && s.pos + s.peeked <= |s.source|
  }

  /** How many lines `readLineFromLog` has returned. */
  function Pulled(s: PeekState): nat {
    s.pos + s.peeked
  }

  /** `peekedLines`. */
  function PeekedLines(s: PeekState): seq<string>
    requires Valid(s)
  {
    s.source[s.pos..Pulled(s)]
  }

  /** `linesInMemory`. */
  function Memory(s: PeekState): seq<string>
    requires Valid(s)
  {
    s.source[s.mark..s.pos]
  }

  /** The reader with its record of lines cleared (`linesInMemory.clear()`). */
  function Cleared(s: PeekState): (r: PeekState)
    requires Valid(s)
    ensures Valid(r) && Memory(r) == [] && PeekedLines(r) == PeekedLines(s)
  {
    s.(mark := s.pos)
  }

  /**
   * `t` is a later state of the same reader: no line was given back to the
   * log or to the peek buffer.
   */
  predicate Follows(s: PeekState, t: PeekState) {
    && Valid(t)
    && t.source == s.source && s.pos <= t.pos && Pulled(s) <= Pulled(t)
  }

  /** A later state within the same entry: the record has not been cleared. */
  predicate Advanced(s: PeekState, t: PeekState) {
    Follows(s, t) && t.mark == s.mark
  }

  datatype LineRead = Line(value: string, state: PeekState) | NoMoreInput

  /** `readLine`, that is `readLineFromLogAndSave`: the next line, recorded; `NoMoreInputException` at the end. */
  function ReadLine(s: PeekState): (r: LineRead)
    requires Valid(s)
    ensures r.Line? <==> s.pos < |s.source|
    ensures r.Line? ==> Advanced(s, r.state) && r.state.pos == s.pos + 1
  {
    if s.pos == |s.source| then NoMoreInput
    else Line(s.source[s.pos], s.(pos := s.pos + 1, peeked := if s.peeked > 0 then s.peeked - 1 else 0))
  }

  datatype Peek = Peek(line: Option<string>, state: PeekState)

  /** `peekLineFromLog`: a fresh line from the log, appended to the peeked lines; empty at the end of the log. */
  function PeekLine(s: PeekState): (r: Peek)
    requires Valid(s)
    ensures Advanced(s, r.state) && r.state.pos == s.pos
  {
    if Pulled(s) == |s.source| then Peek(None, s)
    else Peek(Some(s.source[Pulled(s)]), s.(peeked := s.peeked + 1))
  }

  /**
   * `readLineFromLogOrPeekedLines` drains the peeked lines from the front
   * before it touches the log, and the line read is added to the record.
   */
  lemma ReadDrainsPeekedLines(s: PeekState)
    requires Valid(s)
    ensures PeekedLines(s) != [] ==>
              && ReadLine(s).Line? && ReadLine(s).value == PeekedLines(s)[0]
              && PeekedLines(ReadLine(s).state) == PeekedLines(s)[1..]
              && Pulled(ReadLine(s).state) == Pulled(s)
    ensures PeekedLines(s) == [] && Pulled(s) < |s.source| ==>
              && ReadLine(s).Line? && ReadLine(s).value == s.source[Pulled(s)]
              && PeekedLines(ReadLine(s).state) == [] && Pulled(ReadLine(s).state) == Pulled(s) + 1
    ensures ReadLine(s).Line? ==> Memory(ReadLine(s).state) == Memory(s) + [ReadLine(s).value]
  {
    if s.pos < |s.source| {
      assert s.source[s.mark..s.pos + 1] == s.source[s.mark..s.pos] + [s.source[s.pos]];
    }
  }

  /**
   * A peek takes the first line the log has not handed out yet and keeps
   * it in the peek buffer; nothing is consumed and nothing is recorded.
   */
  lemma PeekAppends(s: PeekState)
    requires Valid(s)
    ensures PeekLine(s).line.Some? <==> Pulled(s) < |s.source|
    ensures PeekLine(s).line.Some? ==>
              && PeekLine(s).line.value == s.source[Pulled(s)]
              && PeekedLines(PeekLine(s).state) == PeekedLines(s) + [PeekLine(s).line.value]
    ensures PeekLine(s).line.None? ==> PeekLine(s).state == s
    ensures Memory(PeekLine(s).state) == Memory(s)
  {
    if Pulled(s) < |s.source| {
      assert s.source[s.pos..Pulled(s) + 1] == s.source[s.pos..Pulled(s)] + [s.source[Pulled(s)]];
    }
  }

  /**
   * Successive peeks look further ahead: two peeks in a row return two
   * consecutive lines of the log, not the same line twice.
   */
  lemma SuccessivePeeks(s: PeekState)
    requires Valid(s) && Pulled(s) + 2 <= |s.source|
    ensures var first := PeekLine(s);
            var second := PeekLine(first.state);
            && first.line == Some(s.source[Pulled(s)])
            && second.line == Some(s.source[Pulled(s) + 1])
  {
  }

  /**
   * A read after a peek returns the peeked line only when nothing was
   * peeked before it; otherwise it returns the oldest peeked line.
   */
  lemma ReadAfterPeek(s: PeekState)
    requires Valid(s) && PeekLine(s).line.Some?
    ensures ReadLine(PeekLine(s).state).Line?
    ensures ReadLine(PeekLine(s).state).value == if s.peeked == 0 then PeekLine(s).line.value else PeekedLines(s)[0]
  {
  }
}
