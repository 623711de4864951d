/**
 * `DefaultLogReader`: a log reader whose lookahead is a `MatchingIterator`
 * over the filtered lines of the log source, with the record of the lines
 * consumed since the current entry began (`linesInMemory`).
 *
 * As for `AbstractLogReader`, the parsers are the functions of
 * `EntryParsing`; the reader's side of the `LineReader` it hands them is
 * written here as methods over the iterator, each proved to move the reader
 * as the matching function of `LineReaders` says, and `ReadNextEntry` is
 * proved to give the outcome `EntryParsing.ReadEntry` specifies.
 */
module DefaultLogReaders {
  import opened Wrappers
  import LogEntries
  import LineReaders
  import TagBlocks
  import EntryParsing
  import IteratorUtils
  import EntryLoop
  import MatchingIterators
  import opened AbstractLogReaders

  class DefaultLogReader {
    /** The set of entry parsers, in the order the loop visits them. */
    const entryParsers: seq<EntryParsing.Parser>
    /** `MatchingIterator.fromIterator` over the filtered lines of the log source. */
    const matchingIterator: MatchingIterators.MatchingIterator<string>
    var linesInMemory: seq<string>
    /** Bookkeeping of the model: the iterator has been found exhausted. */
    var exhausted: bool

    /** The record holds the lines `next` returned since the current entry began, in order. */
    ghost predicate Valid()
      reads this, matchingIterator
    {
      && matchingIterator.Valid()
      && |linesInMemory| <= matchingIterator.Returned()
      && linesInMemory == matchingIterator.source[matchingIterator.Returned() - |linesInMemory|..matchingIterator.Returned()]
      && (exhausted ==> matchingIterator.Returned() == |matchingIterator.source|)
    }

    /** The reader as the parsers see it; the iterator's buffer is the lookahead. */
    function View(): (s: LineReaders.ReaderState)
      reads this, matchingIterator
      requires Valid()
      ensures LineReaders.Valid(s)
    {
      var delivered := matchingIterator.Returned();
      LineReaders.ReaderState(matchingIterator.source, delivered, delivered - |linesInMemory|, false,
                              |matchingIterator.peekedElements|, exhausted)
    }

    /** The constructor with a filter predicate: only the lines that pass it are ever read. */
    constructor (entryParsers: seq<EntryParsing.Parser>, readIterator: seq<string>, filterPredicate: string -> bool)
      ensures Valid() && this.entryParsers == entryParsers && fresh(matchingIterator)
      ensures View() == LineReaders.ReaderState(IteratorUtils.Filter(readIterator, filterPredicate), 0, 0, false, 0, false)
    {
      this.entryParsers := entryParsers;
      var filteredIterator := IteratorUtils.Filter(readIterator, filterPredicate);
      matchingIterator := new MatchingIterators.MatchingIterator.FromIterator(filteredIterator);
      linesInMemory := [];
      exhausted := false;
    }

    /** The constructor without a filter predicate (`string -> true`): every line of the source is read. */
    constructor Unfiltered(entryParsers: seq<EntryParsing.Parser>, readIterator: seq<string>)
      ensures Valid() && this.entryParsers == entryParsers && fresh(matchingIterator)
      ensures View() == LineReaders.ReaderState(readIterator, 0, 0, false, 0, false)
    {
      this.entryParsers := entryParsers;
      IteratorUtils.FilterKeepsAll(readIterator, (line: string) => true);
      var filteredIterator := IteratorUtils.Filter(readIterator, (line: string) => true);
      matchingIterator := new MatchingIterators.MatchingIterator.FromIterator(filteredIterator);
      linesInMemory := [];
      exhausted := false;
    }

    /**
     * `hasNextEntry` (also the `hasNextLine` of the parsers' line reader):
     * `matchingIterator.hasNext()`, which buffers the next line; exactly
     * `LineReaders.HasNextLine`.
     */
    method HasNextEntry() returns (b: bool)
      requires Valid()
      modifies this, matchingIterator
      ensures Valid()
      ensures var step := LineReaders.HasNextLine(old(View()));
              step.Done? && b == step.value && View() == step.state
    {
      ghost var s := View();
      b := matchingIterator.HasNext();
      ghost var t := if b then s.(lookahead := 1) else s.(probed := true);
      if !b {
        exhausted := true;
      }
      assert Valid();
      assert View() == t;
    }

    /**
     * The `readNextLine` of the parsers' line reader (and the first line of
     * `readNextEntry`): `matchingIterator.next()`, recorded; exactly
     * `LineReaders.ReadNextLine`. None is `NoSuchElementException`.
     */
    method ReadNextLine() returns (r: Option<string>)
      requires Valid()
      modifies this, matchingIterator
      ensures Valid()
      ensures var step := LineReaders.ReadNextLine(old(View()));
              && !step.Crashed?
              && (r.None? <==> step.NoSuchElement?)
              && (r.Some? ==> r.value == step.value)
              && View() == step.state
    {
      ghost var s := View();
      r := matchingIterator.Next();
      if r.Some? {
        ghost var n := matchingIterator.Returned();
        assert n == s.pos + 1 && r.value == s.source[s.pos];
        assert linesInMemory + [r.value] == s.source[s.mark..n] by {
          assert linesInMemory == s.source[s.mark..s.pos];
          assert s.source[s.mark..n] == s.source[s.mark..s.pos] + [s.source[s.pos]];
        }
        linesInMemory := linesInMemory + [r.value];
        assert n - |linesInMemory| == s.mark;
      } else {
        exhausted := true;
      }
    }

    /**
     * The `nextLineMatches` of the parsers' line reader:
     * `matchingIterator.nextMatches(condition)`; exactly
     * `LineReaders.NextLineTest`. None is an exception of the condition.
     */
    method NextLineMatches(condition: string -> Option<bool>) returns (r: Option<bool>)
      requires Valid()
      modifies this, matchingIterator
      ensures Valid()
      ensures var step := LineReaders.NextLineTest(old(View()), condition);
              && (r.None? <==> step.Crashed?)
              && (step.Done? ==> r == Some(step.value) && View() == step.state)
    {
      ghost var s := View();
      r := matchingIterator.NextMatches(condition);
      ghost var t := if LineReaders.More(s) then s.(lookahead := 1) else s.(probed := true);
      if matchingIterator.Returned() == |matchingIterator.source| {
        exhausted := true;
      }
      assert Valid();
      assert View() == t;
    }

    /**
     * Brings the reader to the state `t` a parser left it in, through the
     * calls that lead there: one `readNextLine` per line the parser
     * consumed, then, if the parser left the next line buffered, a
     * `hasNextLine` that buffers it, or, if it found the log exhausted,
     * a `hasNextLine` that finds it so.
     */
    method Replay(t: LineReaders.ReaderState)
      requires Valid() && LineReaders.Advanced(View(), t)
      modifies this, matchingIterator
      ensures Valid() && View() == t
    {
      while matchingIterator.Returned() < t.pos
        invariant Valid() && LineReaders.Advanced(View(), t)
        decreases t.pos - matchingIterator.Returned()
      {
        var line := ReadNextLine();
      }
      if t.lookahead == 1 || t.probed {
        var has := HasNextEntry();
      }
    }

    /**
     * `readNextEntry`: consume and record one line, then run the parser loop
     * on it. The outcome, and the reader after it, are those of
     * `EntryParsing.ReadEntry`.
     */
    method ReadNextEntry() returns (r: Reading)
      requires Valid()
      modifies this, matchingIterator
      ensures Valid()
      ensures r == Report(EntryParsing.ReadEntry(entryParsers, old(View())))
      ensures !r.UncheckedException? ==> View() == EntryParsing.ReadEntry(entryParsers, old(View())).state
    {
      var first := ReadNextLine();
      if first.None? {
        return NoSuchElementException;
      }
      var line := first.value;
      EntryLoop.ResolveIsTryParsers(entryParsers, line, View(), []);
      r := TryParsers(EntryParsing.Accepts(line), EntryLoop.ParseLine(line));
    }

    /**
     * The loop of `readNextEntry` over `entryParsers`, where `accepts` and
     * `parse` are `isParsable` and `parse` on the line just read: the
     * parsers are tried in order until one builds an entry; when all fail,
     * the record is cleared and thrown with the exceptions they raised.
     */
    method TryParsers(accepts: EntryParsing.Parser -> bool, parse: EntryLoop.ParseFunction)
      returns (r: Reading)
      requires Valid() && EntryLoop.Advances(parse)
      modifies this, matchingIterator
      ensures Valid()
      ensures r == Report(EntryLoop.Resolve(entryParsers, accepts, parse, old(View()), []))
      ensures !r.UncheckedException? ==> View() == EntryLoop.Resolve(entryParsers, accepts, parse, old(View()), []).state
    {
      ghost var start := View();
      var occurredExceptions: seq<TagBlocks.Cause> := [];
      var i := 0;
      while i < |entryParsers|
        invariant 0 <= i <= |entryParsers| && Valid()
        invariant EntryLoop.Resolve(entryParsers[i..], accepts, parse, View(), occurredExceptions)
                  == EntryLoop.Resolve(entryParsers, accepts, parse, start, [])
      {
        assert entryParsers[i..] == [entryParsers[i]] + entryParsers[i + 1..];
        var done;
        done, occurredExceptions := TryParser(entryParsers[i], accepts, parse, entryParsers[i + 1..], occurredExceptions);
        if done.Some? {
          return done.value;
        }
        i := i + 1;
      }
      var notParsableLines := linesInMemory;
      ClearLinesInMemory();
      return NotReadableException(notParsableLines, occurredExceptions);
    }

    /** `linesInMemory.clear()`: the record of lines is emptied, nothing else changes. */
    method ClearLinesInMemory()
      requires Valid()
      modifies this
      ensures Valid() && View() == LineReaders.Cleared(old(View()))
    {
      linesInMemory := [];
    }

    /**
     * One turn of the loop: a parser that does not accept the line is
     * skipped; otherwise it runs, the reader is left where it stopped, and
     * either its entry is returned (the record cleared) or its exception is
     * kept and the loop goes on with `rest`.
     */
    method TryParser(entryParser: EntryParsing.Parser, accepts: EntryParsing.Parser -> bool, parse: EntryLoop.ParseFunction,
                          rest: seq<EntryParsing.Parser>, occurred: seq<TagBlocks.Cause>)
      returns (done: Option<Reading>, occurredExceptions: seq<TagBlocks.Cause>)
      requires Valid() && EntryLoop.Advances(parse)
      modifies this, matchingIterator
      ensures Valid()
      ensures var expected := EntryLoop.Resolve([entryParser] + rest, accepts, parse, old(View()), occurred);
              && (done.Some? ==> done.value == Report(expected))
              && (done.Some? && !done.value.UncheckedException? ==> View() == expected.state)
              && (done.None? ==> EntryLoop.Resolve(rest, accepts, parse, View(), occurredExceptions) == expected)
    {
      occurredExceptions := occurred;
      EntryLoop.ResolveCons(entryParser, rest, accepts, parse, View(), occurred);
      if !accepts(entryParser) {
        return None, occurredExceptions;
      }
      var outcome := parse(entryParser, View());
      match outcome
      case Crash =>
        return Some(UncheckedException), occurredExceptions;
      case Ok(entry, t) =>
        Replay(t);
        ClearLinesInMemory();
        return Some(Entry(entry)), occurredExceptions;
      case Fail(cause, t) =>
        Replay(t);
        occurredExceptions := occurredExceptions + [cause];
        return None, occurredExceptions;
    }
  }
}
