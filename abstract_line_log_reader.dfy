/**
 * `AbstractLineLogReader`: the older log reader. It reads the lines of its
 * log one at a time (`readLineFromLog`), keeps the lines its entry readers
 * peeked at (`peekedLines`) and records every line consumed since the
 * current entry began (`linesInMemory`).
 *
 * The entry readers are the functions of `EntryReaders`, which describe a
 * reader by what it does to the `PeekReaders` state of the log. The log
 * reader's own side of the `LineReader` it hands them (`readLine`,
 * `peekLine`) is written here as methods, each proved to move the reader as
 * the matching function of `PeekReaders` says, and `ReadEntry` is proved to
 * give the outcome of `EntryReaders.Read`.
 */
module AbstractLineLogReaders {
  import opened Wrappers
  import opened PeekReaders
  import LogEntries
  import EntryReaders

  /** What the caller of `readEntry` observes: the entry, or the exception it throws. */
  datatype LogReading =
    | Entry(entry: LogEntries.LogEntry)
    | NotReadableException(lines: seq<string>)
    | NoMoreInputException
    | UncheckedException

  /** The observable part of an outcome of the loop. */
  function Report(r: EntryReaders.Reading): (w: LogReading)
    ensures w.Entry? <==> r.EntryRead?
    ensures w.NotReadableException? <==> r.NotReadable?
    ensures w.NoMoreInputException? <==> r.NoMoreLines?
    ensures w.Entry? ==> w.entry == r.entry
    ensures w.NotReadableException? ==> w.lines == r.lines
  {
    match r
    case EntryRead(entry, _) => Entry(entry)
    case NotReadable(lines, _) => NotReadableException(lines)
    case NoMoreLines => NoMoreInputException
    case Crashed => UncheckedException
  }

  class AbstractLineLogReader {
    /** `entryReaders()`, in the order the loop visits them. */
    const entryReaders: seq<EntryReaders.EntryReader>
    /** The lines `readLineFromLog` returns, in order. */
    const log: seq<string>
    /** How many lines `readLineFromLog` has returned. */
    var fromLog: nat
    var peekedLines: seq<string>
    var linesInMemory: seq<string>

    /**
     * The peeked lines are the last lines taken from the log; the record
     * holds the lines consumed since the current entry began, in order,
     * just before them.
     */
    ghost predicate Valid()
      reads this
    {
      && fromLog <= |log|
      && |peekedLines| <= fromLog
      && peekedLines == log[fromLog - |peekedLines|..fromLog]
      && |linesInMemory| <= fromLog - |peekedLines|
      && linesInMemory == log[fromLog - |peekedLines| - |linesInMemory|..fromLog - |peekedLines|]
    }

    /** The reader as the entry readers see it. */
    function View(): (s: PeekState)
      reads this
      requires Valid()
      ensures PeekReaders.Valid(s) && Memory(s) == linesInMemory && PeekedLines(s) == peekedLines
    {
      var consumed := fromLog - |peekedLines|;
      PeekState(log, consumed, consumed - |linesInMemory|, |peekedLines|)
    }

    constructor (entryReaders: seq<EntryReaders.EntryReader>, log: seq<string>)
      ensures Valid() && this.entryReaders == entryReaders && this.log == log
      ensures View() == PeekState(log, 0, 0, 0)
    {
      this.entryReaders := entryReaders;
      this.log := log;
      fromLog := 0;
      peekedLines := [];
      linesInMemory := [];
    }

    /** `readLineFromLog`: the next line of the log; None is `NoMoreInputException`. */
    method ReadLineFromLog() returns (r: Option<string>)
      requires fromLog <= |log|
      modifies this`fromLog
      ensures old(fromLog) < |log| ==> r == Some(log[old(fromLog)]) && fromLog == old(fromLog) + 1
      ensures old(fromLog) == |log| ==> r.None? && fromLog == old(fromLog)
    {
      if fromLog == |log| {
        return None;
      }
      r := Some(log[fromLog]);
      fromLog := fromLog + 1;
    }

    /**
     * `readLineFromLogOrPeekedLines`: the first peeked line, removed from
     * the peek buffer; only when none is left, the next line of the log.
     * The line is not recorded yet.
     */
    method ReadLineFromLogOrPeekedLines() returns (r: Option<string>)
      requires Valid()
      modifies this`fromLog, this`peekedLines
      ensures linesInMemory == old(linesInMemory)
      ensures old(peekedLines) != [] ==>
                r == Some(old(peekedLines)[0]) && peekedLines == old(peekedLines)[1..] && fromLog == old(fromLog)
      ensures old(peekedLines) == [] && old(fromLog) < |log| ==>
                r == Some(log[old(fromLog)]) && peekedLines == [] && fromLog == old(fromLog) + 1
      ensures old(peekedLines) == [] && old(fromLog) == |log| ==> r.None? && peekedLines == [] && fromLog == old(fromLog)
    {
      if peekedLines != [] {
        r := Some(peekedLines[0]);
        peekedLines := peekedLines[1..];
        return;
      }
      r := ReadLineFromLog();
    }

    /**
     * `readLineFromLogAndSave` (the `readLine` of the entry readers' line
     * reader): the next line, consumed and recorded, as in
     * `PeekReaders.ReadLine`; None is `NoMoreInputException`.
     */
    method ReadLineFromLogAndSave() returns (r: Option<string>)
      requires Valid()
      modifies this`fromLog, this`peekedLines, this`linesInMemory
      ensures Valid()
      ensures var step := ReadLine(old(View()));
              && (r.None? <==> step.NoMoreInput?)
              && (r.None? ==> View() == old(View()))
              && (r.Some? ==> r.value == step.value && View() == step.state)
    {
      ghost var s := View();
      ReadDrainsPeekedLines(s);
      r := ReadLineFromLogOrPeekedLines();
      if r.Some? {
        linesInMemory := linesInMemory + [r.value];
        assert log[fromLog - |peekedLines| - |linesInMemory|..fromLog - |peekedLines|]
            == log[s.mark..s.pos] + [log[s.pos]];
      }
    }

    /**
     * `peekLineFromLog` (the `peekLine` of the entry readers' line reader):
     * a fresh line from the log, appended to the peeked lines, as in
     * `PeekReaders.PeekLine`; None when the log is exhausted.
     */
    method PeekLineFromLog() returns (r: Option<string>)
      requires Valid()
      modifies this`fromLog, this`peekedLines
      ensures Valid()
      ensures r == PeekLine(old(View())).line && View() == PeekLine(old(View())).state
    {
      var line := ReadLineFromLog();
      if line.None? {
        return None;
      }
      peekedLines := peekedLines + [line.value];
      r := line;
    }

    /**
     * Brings the reader to the state `t` an entry reader left it in,
     * through the calls that lead there: one `readLine` per line the entry
     * reader consumed, then one `peekLine` per line it left peeked.
     */
    method Replay(t: PeekState)
      requires Valid() && Advanced(View(), t)
      modifies this`fromLog, this`peekedLines, this`linesInMemory
      ensures Valid() && View() == t
    {
      while fromLog - |peekedLines| < t.pos
        invariant Valid() && Advanced(View(), t)
        decreases t.pos - (fromLog - |peekedLines|)
      {
        var line := ReadLineFromLogAndSave();
      }
      while fromLog < Pulled(t)
        invariant Valid() && Advanced(View(), t) && View().pos == t.pos
        decreases Pulled(t) - fromLog
      {
        var line := PeekLineFromLog();
      }
    }

    /** `linesInMemory.clear()`: the record of lines is emptied, nothing else changes. */
    method ClearLinesInMemory()
      requires Valid()
      modifies this`linesInMemory
      ensures Valid() && View() == Cleared(old(View()))
    {
      linesInMemory := [];
    }

    /**
     * `readEntry`: consume and record one line, then run the loop over the
     * entry readers on it. The outcome, and the reader after it, are those
     * of `EntryReaders.Read`.
     */
    method ReadEntry() returns (r: LogReading)
      requires Valid()
      modifies this`fromLog, this`peekedLines, this`linesInMemory
      ensures Valid()
      ensures var expected := EntryReaders.Read(entryReaders, old(View()));
              && r == Report(expected)
              && (expected.EntryRead? || expected.NotReadable? ==> View() == expected.state)
              && (expected.NoMoreLines? ==> View() == old(View()))
    {
      EntryReaders.ReaderParseAdvances();
      var first := ReadLineFromLogAndSave();
      if first.None? {
        return NoMoreInputException;
      }
      r := TryEntryReaders(first.value, EntryReaders.ReaderAccepts, EntryReaders.ReaderParse);
    }

    /**
     * The loop of `readEntry` over `entryReaders`, where `accepts` and
     * `parse` are `isParsable` and `parse`: the readers are tried in order
     * on `line` until one builds an entry; when all fail, the record is
     * cleared and thrown.
     */
    method TryEntryReaders(line: string, accepts: (EntryReaders.EntryReader, string) -> bool,
                           parse: (EntryReaders.EntryReader, string, PeekState) -> EntryReaders.Outcome<LogEntries.LogEntry>)
      returns (r: LogReading)
      requires Valid() && EntryReaders.Advances(parse)
      modifies this`fromLog, this`peekedLines, this`linesInMemory
      ensures Valid()
      ensures var expected := EntryReaders.TryReaders(entryReaders, line, accepts, parse, old(View()));
              && r == Report(expected)
              && (expected.EntryRead? || expected.NotReadable? ==> View() == expected.state)
    {
      ghost var start := View();
      var i := 0;
      while i < |entryReaders|
        invariant 0 <= i <= |entryReaders| && Valid()
        invariant EntryReaders.TryReaders(entryReaders[i..], line, accepts, parse, View())
                  == EntryReaders.TryReaders(entryReaders, line, accepts, parse, start)
      {
        assert entryReaders[i..] == [entryReaders[i]] + entryReaders[i + 1..];
        var done := TryEntryReader(entryReaders[i], line, accepts, parse, entryReaders[i + 1..]);
        if done.Some? {
          return done.value;
        }
        i := i + 1;
      }
      var notReadableLines := linesInMemory;
      ClearLinesInMemory();
      return NotReadableException(notReadableLines);
    }

    /**
     * One turn of the loop: a reader that does not accept the line is
     * skipped; otherwise it runs, the log reader is left where it stopped,
     * and either its entry is returned (the record cleared) or the loop
     * goes on with `rest`.
     */
    method TryEntryReader(entryReader: EntryReaders.EntryReader, line: string, accepts: (EntryReaders.EntryReader, string) -> bool,
                          parse: (EntryReaders.EntryReader, string, PeekState) -> EntryReaders.Outcome<LogEntries.LogEntry>,
                          rest: seq<EntryReaders.EntryReader>)
      returns (done: Option<LogReading>)
      requires Valid() && EntryReaders.Advances(parse)
      modifies this`fromLog, this`peekedLines, this`linesInMemory
      ensures Valid()
      ensures var expected := EntryReaders.TryReaders([entryReader] + rest, line, accepts, parse, old(View()));
              && (done.Some? ==> (expected.EntryRead? || expected.Crashed?) && done.value == Report(expected))
              && (done.Some? && expected.EntryRead? ==> View() == expected.state)
              && (done.None? ==> EntryReaders.TryReaders(rest, line, accepts, parse, View()) == expected)
    {
      EntryReaders.TryReadersCons(entryReader, rest, line, accepts, parse, View());
      if !accepts(entryReader, line) {
        return None;
      }
      var outcome := parse(entryReader, line, View());
      match outcome
      case Crash =>
        return Some(UncheckedException);
      case Ok(entry, t) =>
        Replay(t);
        ClearLinesInMemory();
        return Some(Entry(entry));
      case Fail(t) =>
        Replay(t);
        return None;
    }
  }
}
