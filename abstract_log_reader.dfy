/**
 * `AbstractLogReader`: a log reader over the filtered lines of a log source,
 * with a peek buffer (`peekedLines`) and the record of the lines consumed
 * since the current entry began (`linesInMemory`).
 *
 * The entry parsers are the functions of `EntryParsing`, which describe a
 * parser by what it does to the state of the reader it reads from. The
 * reader's own side of the `LineReader` it hands them (`readNextLine`,
 * `hasNextLine`, `nextLineMatches`) is written here as methods, each proved
 * to move the reader exactly as the matching function of `LineReaders` says.
 * `ReadNextEntry` runs the loop over the parser set and is proved to give
 * the outcome `EntryParsing.ReadEntry` specifies.
 */
module AbstractLogReaders {
  import opened Wrappers
  import LogEntries
  import LineReaders
  import TagBlocks
  import EntryParsing
  import IteratorUtils
  import EntryLoop

  /** What the caller of `readNextEntry` observes: the entry, or the exception it throws. */
  datatype Reading =
    | Entry(entry: LogEntries.LogEntry)
    | NotReadableException(lines: seq<string>, causes: seq<TagBlocks.Cause>)
    | NoSuchElementException
    | UncheckedException

  /** The observable part of an outcome of the engine. */
  function Report(r: EntryParsing.EntryResult): (w: Reading)
    ensures w.Entry? <==> r.EntryRead?
    ensures w.NoSuchElementException? <==> r.NoMoreLines?
    ensures w.UncheckedException? <==> r.EntryCrashed?
  {
    match r
    case EntryRead(entry, _) => Entry(entry)
    case NotReadable(lines, causes, _) => NotReadableException(lines, causes)
    case NoMoreLines(_) => NoSuchElementException
    case EntryCrashed => UncheckedException
  }

  class AbstractLogReader {
    /** `entryParsers.get()`, in the order the loop visits them. */
    const entryParsers: seq<EntryParsing.Parser>
    /** The lines `filteredIterator` yields: the lines of the log source that pass the filter, in order. */
    const filtered: seq<string>
    /** How many lines `filteredIterator.next()` has returned. */
    var taken: nat
    var peekedLines: seq<string>
    var linesInMemory: seq<string>
    /** Bookkeeping of the model: a `hasNext` of the filtered iterator has answered false. */
    var exhausted: bool

    /**
     * The peek buffer holds at most the last line taken; the record holds
     * the lines delivered since the current entry began, in order.
     */
    ghost predicate Valid()
      reads this
    {
      && taken <= |filtered|
      && (peekedLines == [] || (1 <= taken && peekedLines == [filtered[taken - 1]]))
      && |linesInMemory| <= taken - |peekedLines|
      && linesInMemory == filtered[taken - |peekedLines| - |linesInMemory|..taken - |peekedLines|]
      && (exhausted ==> taken == |filtered| && peekedLines == [])
    }

    /** The reader as the parsers see it. */
    function View(): (s: LineReaders.ReaderState)
      reads this
      requires Valid()
      ensures LineReaders.Valid(s)
    {
      var delivered := taken - |peekedLines|;
      LineReaders.ReaderState(filtered, delivered, delivered - |linesInMemory|, false, |peekedLines|, exhausted)
    }

    /** The constructor with a filter predicate: only the lines that pass it are ever read. */
    constructor (entryParsers: seq<EntryParsing.Parser>, readIterator: seq<string>, filterPredicate: string -> bool)
      ensures Valid() && this.entryParsers == entryParsers
      ensures filtered == IteratorUtils.Filter(readIterator, filterPredicate)
      ensures View() == LineReaders.ReaderState(filtered, 0, 0, false, 0, false)
    {
      this.entryParsers := entryParsers;
      filtered := IteratorUtils.Filter(readIterator, filterPredicate);
      taken := 0;
      peekedLines := [];
      linesInMemory := [];
      exhausted := false;
    }

    /** The constructor without a filter predicate (`string -> true`): every line of the source is read. */
    constructor Unfiltered(entryParsers: seq<EntryParsing.Parser>, readIterator: seq<string>)
      ensures Valid() && this.entryParsers == entryParsers && filtered == readIterator
      ensures View() == LineReaders.ReaderState(filtered, 0, 0, false, 0, false)
    {
      this.entryParsers := entryParsers;
      IteratorUtils.FilterKeepsAll(readIterator, (line: string) => true);
      filtered := IteratorUtils.Filter(readIterator, (line: string) => true);
      taken := 0;
      peekedLines := [];
      linesInMemory := [];
      exhausted := false;
    }

    /**
     * `hasNextEntry` (also the `hasNextLine` of the parsers' line reader):
     * the answer of `LineReaders.HasNextLine`; nothing is consumed or recorded.
     */
    method HasNextEntry() returns (b: bool)
      requires Valid()
      modifies this
      ensures Valid()
      ensures LineReaders.HasNextLine(old(View())).Done?
      ensures b == LineReaders.HasNextLine(old(View())).value
      ensures View() == if b then old(View()) else LineReaders.HasNextLine(old(View())).state
    {
      b := |peekedLines| > 0 || taken < |filtered|;
      if !b {
        exhausted := true;
      }
    }

    /** `readLineFromPeekedLinesOrLog`: the peek buffer first, then the filtered source. */
    method ReadLineFromPeekedLinesOrLog() returns (r: Option<string>)
      requires Valid()
      modifies this
      ensures linesInMemory == old(linesInMemory) && peekedLines == []
      ensures old(peekedLines) != [] ==> r == Some(old(peekedLines)[0]) && taken == old(taken) && exhausted == old(exhausted)
      ensures old(peekedLines) == [] && old(taken) < |filtered| ==>
                r == Some(filtered[old(taken)]) && taken == old(taken) + 1 && exhausted == old(exhausted)
      ensures old(peekedLines) == [] && old(taken) == |filtered| ==> r.None? && taken == old(taken) && exhausted
    {
      if |peekedLines| > 0 {
        r := Some(peekedLines[0]);
        peekedLines := peekedLines[1..];
        return;
      }
      if taken == |filtered| {
        exhausted := true;
        return None;
      }
      r := Some(filtered[taken]);
      taken := taken + 1;
    }

    /**
     * `readLineFromLogAndSave` (the `readNextLine` of the parsers' line
     * reader): the next line, consumed and recorded, as in
     * `LineReaders.ReadNextLine`; None is `NoSuchElementException`.
     */
    method ReadLineFromLogAndSave() returns (r: Option<string>)
      requires Valid()
      modifies this
      ensures Valid()
      ensures var step := LineReaders.ReadNextLine(old(View()));
              && !step.Crashed?
              && (r.None? <==> step.NoSuchElement?)
              && (r.Some? ==> r.value == step.value)
              && View() == step.state
    {
      r := ReadLineFromPeekedLinesOrLog();
      if r.Some? {
        linesInMemory := linesInMemory + [r.value];
      }
    }

    /**
     * `nextLineMatches` of the parsers' line reader: false when no line
     * follows; otherwise the line is moved to the peek buffer and tested, as
     * in `LineReaders.NextLineTest` (and so `LineReaders.NextLineMatches` for
     * the parsers' conditions). None is an exception of the condition.
     */
    method NextLineMatches(condition: string -> Option<bool>) returns (r: Option<bool>)
      requires Valid()
      modifies this
      ensures Valid()
      ensures var step := LineReaders.NextLineTest(old(View()), condition);
              && (r.None? <==> step.Crashed?)
              && (step.Done? ==> r == Some(step.value) && View() == step.state)
    {
      var has := HasNextEntry();
      if !has {
        return Some(false);
      }
      var line := ReadLineFromPeekedLinesOrLog();
      peekedLines := peekedLines + [line.value];
      r := condition(line.value);
    }

    /**
     * Brings the reader to the state `t` a parser left it in, through the
     * calls that lead there: one `readNextLine` per line the parser
     * consumed, then, if the parser left the next line buffered, a
     * `nextLineMatches` that buffers it, or, if it found the log exhausted,
     * a `hasNextLine` that finds it so.
     */
    method Replay(t: LineReaders.ReaderState)
      requires Valid() && LineReaders.Advanced(View(), t)
      modifies this
      ensures Valid() && View() == t
    {
      while taken - |peekedLines| < t.pos
        invariant Valid() && LineReaders.Advanced(View(), t)
        decreases t.pos - (taken - |peekedLines|)
      {
        var line := ReadLineFromLogAndSave();
      }
      if t.lookahead == 1 {
        var matches := NextLineMatches(line => Some(true));
      } else if t.probed {
        var has := HasNextEntry();
      }
    }

    /**
     * `readNextEntry`: consume and record one line, then run the parser loop
     * on it. The outcome, and the reader after it, are those of
     * `EntryParsing.ReadEntry`.
     */
    method ReadNextEntry() returns (r: Reading)
      requires Valid()
      modifies this
      ensures Valid()
      ensures r == Report(EntryParsing.ReadEntry(entryParsers, old(View())))
      ensures !r.UncheckedException? ==> View() == EntryParsing.ReadEntry(entryParsers, old(View())).state
    {
      var first := ReadLineFromLogAndSave();
      if first.None? {
        return NoSuchElementException;
      }
      var line := first.value;
      EntryLoop.ResolveIsTryParsers(entryParsers, line, View(), []);
      r := TryEntryParsers(EntryParsing.Accepts(line), EntryLoop.ParseLine(line));
    }

    /**
     * The loop of `readNextEntry` over `entryParsers`, where `accepts` and
     * `parse` are `isParsable` and `parse` on the line just read: the
     * parsers are tried in order until one builds an entry; when all fail,
     * the record is cleared and thrown with the exceptions they raised.
     */
    method TryEntryParsers(accepts: EntryParsing.Parser -> bool, parse: EntryLoop.ParseFunction)
      returns (r: Reading)
      requires Valid() && EntryLoop.Advances(parse)
      modifies this
      ensures Valid()
      ensures r == Report(EntryLoop.Resolve(entryParsers, accepts, parse, old(View()), []))
      ensures !r.UncheckedException? ==> View() == EntryLoop.Resolve(entryParsers, accepts, parse, old(View()), []).state
    {
      ghost var start := View();
      var occurredExceptions: seq<TagBlocks.Cause> := [];
      var i := 0;
      while i < |entryParsers|
        invariant 0 <= i <= |entryParsers| && Valid()
        invariant EntryLoop.Resolve(entryParsers[i..], accepts, parse, View(), occurredExceptions)
                  == EntryLoop.Resolve(entryParsers, accepts, parse, start, [])
      {
        assert entryParsers[i..] == [entryParsers[i]] + entryParsers[i + 1..];
        var done;
        done, occurredExceptions := TryEntryParser(entryParsers[i], accepts, parse, entryParsers[i + 1..], occurredExceptions);
        if done.Some? {
          return done.value;
        }
        i := i + 1;
      }
      var notParsableLines := linesInMemory;
      ClearLinesInMemory();
      return NotReadableException(notParsableLines, occurredExceptions);
    }

    /** `linesInMemory.clear()`: the record of lines is emptied, nothing else changes. */
    method ClearLinesInMemory()
      requires Valid()
      modifies this
      ensures Valid() && View() == LineReaders.Cleared(old(View()))
    {
      linesInMemory := [];
    }

    /**
     * One turn of the loop: a parser that does not accept the line is
     * skipped; otherwise it runs, the reader is left where it stopped, and
     * either its entry is returned (the record cleared) or its exception is
     * kept and the loop goes on with `rest`.
     */
    method TryEntryParser(entryParser: EntryParsing.Parser, accepts: EntryParsing.Parser -> bool, parse: EntryLoop.ParseFunction,
                          rest: seq<EntryParsing.Parser>, occurred: seq<TagBlocks.Cause>)
      returns (done: Option<Reading>, occurredExceptions: seq<TagBlocks.Cause>)
      requires Valid() && EntryLoop.Advances(parse)
      modifies this
      ensures Valid()
      ensures var expected := EntryLoop.Resolve([entryParser] + rest, accepts, parse, old(View()), occurred);
              && (done.Some? ==> done.value == Report(expected) && (!done.value.UncheckedException? ==> View() == expected.state))
              && (done.None? ==> EntryLoop.Resolve(rest, accepts, parse, View(), occurredExceptions) == expected)
    {
      occurredExceptions := occurred;
      EntryLoop.ResolveCons(entryParser, rest, accepts, parse, View(), occurred);
      if !accepts(entryParser) {
        return None, occurredExceptions;
      }
      var outcome := parse(entryParser, View());
      match outcome
      case Crash =>
        return Some(UncheckedException), occurredExceptions;
      case Ok(entry, t) =>
        Replay(t);
        ClearLinesInMemory();
        return Some(Entry(entry)), occurredExceptions;
      case Fail(cause, t) =>
        Replay(t);
        occurredExceptions := occurredExceptions + [cause];
        return None, occurredExceptions;
    }
  }
}
