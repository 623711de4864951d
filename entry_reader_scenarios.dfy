/**
 * The behaviour `AbstractLineLogReaderTest` asserts, on the readers of that
 * test: entries across several lines, the lines of an entry no reader can
 * read, a reader set that is empty, readers that peek, and a reader whose
 * entry ends at the next line it peeks.
 */
module EntryReaderScenarios {
  import opened PeekReaders
  import opened LogEntries
  import opened EntryReaders
  import AbstractLineLogReaders

  /** The reader over a fresh log: nothing read, peeked or recorded. */
  function Start(log: seq<string>): (s: PeekState)
    ensures Valid(s) && Memory(s) == [] && PeekedLines(s) == []
  {
    PeekState(log, 0, 0, 0)
  }

  /**
   * One `readEntry` whose line only the fixture reader `k` accepts: the
   * entry when its expected lines follow (then its peeks), otherwise the
   * lines recorded up to the one that did not match.
   */
  lemma ReadFixture(readers: seq<EntryReader>, k: nat, s: PeekState)
    requires Valid(s) && s.pos < |s.source| && k < |readers| && readers[k].FixtureReader?
    requires readers[k].name == s.source[s.pos]
    requires forall i :: 0 <= i < |readers| && i != k ==> !IsParsable(readers[i], s.source[s.pos])
    ensures var t := ReadLine(s).state;
            var e := ReadExpected(readers[k].expected, t);
            && (e.Ok? ==> Read(readers, s) == EntryRead(Fixture(readers[k].name), Cleared(PeekTimes(readers[k].peeks, e.state))))
            && (e.Fail? ==> Read(readers, s) == NotReadable(Memory(s) + s.source[s.pos..e.state.pos], Cleared(e.state)))
  {
    OnlyFixtureRuns(readers, k, s);
    FixtureOutcome(readers[k], s);
  }

  /** Only the fixture reader `k` accepts the line, so the loop is that reader's turn alone. */
  lemma OnlyFixtureRuns(readers: seq<EntryReader>, k: nat, s: PeekState)
    requires Valid(s) && s.pos < |s.source| && k < |readers| && readers[k].FixtureReader?
    requires readers[k].name == s.source[s.pos]
    requires forall i :: 0 <= i < |readers| && i != k ==> !IsParsable(readers[i], s.source[s.pos])
    ensures ReadLine(s).Line?
    ensures Read(readers, s) == TryReaders([readers[k]], ReadLine(s).value, ReaderAccepts, ReaderParse, ReadLine(s).state)
  {
    ReaderParseAdvances();
    var read := ReadLine(s);
    SingleAcceptingReader(readers, k, read.value, ReaderAccepts, ReaderParse, read.state);
  }

  /** The turn of a fixture reader on its own line: the entry when its expected lines follow, otherwise the lines up to the first that does not. */
  lemma FixtureOutcome(reader: EntryReader, s: PeekState)
    requires Valid(s) && s.pos < |s.source| && reader.FixtureReader? && reader.name == s.source[s.pos]
    ensures var read := ReadLine(s);
            var e := ReadExpected(reader.expected, read.state);
            var r := TryReaders([reader], read.value, ReaderAccepts, ReaderParse, read.state);
            && (e.Ok? ==> r == EntryRead(Fixture(reader.name), Cleared(PeekTimes(reader.peeks, e.state))))
            && (e.Fail? ==> r == NotReadable(Memory(s) + s.source[s.pos..e.state.pos], Cleared(e.state)))
  {
    ReaderParseAdvances();
    var read := ReadLine(s);
    FixtureParse(reader, read.value, read.state);
    OneReaderTurn(reader, read.value, ReaderAccepts, ReaderParse, read.state);
    var e := ReadExpected(reader.expected, read.state);
    if e.Fail? {
      assert s.source[s.mark..e.state.pos] == s.source[s.mark..s.pos] + s.source[s.pos..e.state.pos];
    }
  }

  /** The turn of a single reader that accepts the line: its entry, or the recorded lines when it fails. */
  lemma OneReaderTurn<P(!new)>(p: P, line: string, accepts: (P, string) -> bool,
                               parse: (P, string, PeekState) -> Outcome<LogEntry>, t: PeekState)
    requires Valid(t) && Advances(parse) && accepts(p, line)
    ensures var o := parse(p, line, t);
            var r := TryReaders([p], line, accepts, parse, t);
            && (o.Ok? ==> r == EntryRead(o.value, Cleared(o.state)))
            && (o.Fail? ==> r == NotReadable(Memory(o.state), Cleared(o.state)))
  {
    assert [p][0] == p && [p][1..] == [];
  }

  /** A fixture reader on its own line: accepted, and its parse follows its expected lines. */
  lemma FixtureParse(reader: EntryReader, line: string, t: PeekState)
    requires Valid(t) && reader.FixtureReader? && line == reader.name
    ensures ReaderAccepts(reader, line)
    ensures var e := ReadExpected(reader.expected, t);
            var o := ReaderParse(reader, line, t);
            && (e.Ok? ==> o == Ok(Fixture(reader.name), PeekTimes(reader.peeks, e.state)))
            && (e.Fail? ==> o == Fail(e.state))
  {
  }

  /**
   * The same step when the expected lines do follow: the entry ends after
   * them, and its peeks stay buffered for the next `readEntry`.
   */
  lemma ReadFixtureOk(readers: seq<EntryReader>, k: nat, expected: seq<string>, peeks: nat, s: PeekState)
    requires Valid(s) && s.pos < |s.source| && k < |readers|
    requires readers[k] == FixtureReader(s.source[s.pos], expected, peeks)
    requires forall i :: 0 <= i < |readers| && i != k ==> !IsParsable(readers[i], s.source[s.pos])
    requires s.pos + 1 + |expected| <= |s.source| && s.source[s.pos + 1..s.pos + 1 + |expected|] == expected
    ensures var q := s.pos + 1 + |expected|;
            var pulled := Max(Pulled(s), q) + peeks;
            var last := if pulled <= |s.source| then pulled else |s.source|;
            Read(readers, s) == EntryRead(Fixture(s.source[s.pos]), PeekState(s.source, q, q, last - q))
  {
    ReadFixture(readers, k, s);
    FixtureOkState(expected, peeks, s);
  }

  /** Where a fixture reader whose expected lines follow leaves the reader. */
  lemma FixtureOkState(expected: seq<string>, peeks: nat, s: PeekState)
    requires Valid(s) && s.pos < |s.source|
    requires s.pos + 1 + |expected| <= |s.source| && s.source[s.pos + 1..s.pos + 1 + |expected|] == expected
    ensures var e := ReadExpected(expected, ReadLine(s).state);
            var q := s.pos + 1 + |expected|;
            var pulled := Max(Pulled(s), q) + peeks;
            var last := if pulled <= |s.source| then pulled else |s.source|;
            e.Ok? && Cleared(PeekTimes(peeks, e.state)) == PeekState(s.source, q, q, last - q)
  {
    var t := ReadLine(s).state;
    assert t.pos == s.pos + 1 && Pulled(t) == Max(Pulled(s), s.pos + 1);
    var e := ReadExpected(expected, t);
    var q := s.pos + 1 + |expected|;
    assert Pulled(e.state) == Max(Pulled(s), q);
  }

  /** One `readEntry` of the START reader: the lines up to the next START or the end of the log. */
  lemma ReadInfinite(start: string, s: PeekState)
    requires Valid(s) && s.pos < |s.source| && s.source[s.pos] == start
    ensures var c := CollectUntil(start, ReadLine(s).state);
            Read([InfiniteReader(start)], s) == EntryRead(Infinite(c.value), Cleared(c.state))
  {
    ReaderParseAdvances();
    ReadDrainsPeekedLines(s);
  }

  /** A, B: single lines; C: the lines 1, 2, 3 must follow it. */
  const ABC: seq<EntryReader> := [FixtureReader("A", [], 0), FixtureReader("B", [], 0), FixtureReader("C", ["1", "2", "3"], 0)]

  /** A and B are read one after the other. */
  lemma ReadsExpectedEntries(log: seq<string>)
    requires log == ["A", "B"]
    ensures && Read(ABC, PeekState(log, 0, 0, 0)) == EntryRead(Fixture("A"), PeekState(log, 1, 1, 0))
            && Read(ABC, PeekState(log, 1, 1, 0)) == EntryRead(Fixture("B"), PeekState(log, 2, 2, 0))
  {
    assert ReadLine(PeekState(log, 0, 0, 0)) == Line("A", PeekState(log, 1, 0, 0));
    assert ABC[1].name != "A" && ABC[2].name != "A";
    ReadFixture(ABC, 0, PeekState(log, 0, 0, 0));
    assert ReadLine(PeekState(log, 1, 1, 0)) == Line("B", PeekState(log, 2, 1, 0));
    assert ABC[0].name != "B" && ABC[2].name != "B";
    ReadFixture(ABC, 1, PeekState(log, 1, 1, 0));
  }

  /** The log reader itself on A, B: two entries, then `NoMoreInputException`. */
  method ReadEntriesFromLogReader(log: seq<string>) returns (first: AbstractLineLogReaders.LogReading, second: AbstractLineLogReaders.LogReading,
                                                             third: AbstractLineLogReaders.LogReading)
    requires log == ["A", "B"]
    ensures first == AbstractLineLogReaders.Entry(Fixture("A")) && second == AbstractLineLogReaders.Entry(Fixture("B"))
    ensures third == AbstractLineLogReaders.NoMoreInputException
  {
    var reader := new AbstractLineLogReaders.AbstractLineLogReader(ABC, log);
    ReadsExpectedEntries(log);
    first := ReadFrom(reader, EntryRead(Fixture("A"), PeekState(log, 1, 1, 0)));
    second := ReadFrom(reader, EntryRead(Fixture("B"), PeekState(log, 2, 2, 0)));
    ReadsNoMoreEntries(log);
    third := ReadFrom(reader, NoMoreLines);
  }

  /** One `readEntry` of `reader`, whose outcome is known to be `expected`. */
  method ReadFrom(reader: AbstractLineLogReaders.AbstractLineLogReader, expected: Reading) returns (r: AbstractLineLogReaders.LogReading)
    requires reader.Valid() && EntryReaders.Read(reader.entryReaders, reader.View()) == expected
    modifies reader`fromLog, reader`peekedLines, reader`linesInMemory
    ensures reader.Valid() && r == AbstractLineLogReaders.Report(expected)
    ensures expected.EntryRead? ==> reader.View() == expected.state
  {
    r := reader.ReadEntry();
  }

  /** After A and B a third `readEntry` finds no more input. */
  lemma ReadsNoMoreEntries(log: seq<string>)
    requires log == ["A", "B"]
    ensures Read(ABC, PeekState(log, 2, 2, 0)) == NoMoreLines
  {
  }

  /** With no readers at all, the line read is returned as not readable. */
  lemma NoReadersAvailable(log: seq<string>)
    requires log == ["A", "B"]
    ensures Read([], PeekState(log, 0, 0, 0)) == NotReadable(["A"], PeekState(log, 1, 1, 0))
  {
    var s := PeekState(log, 0, 0, 0);
    ReaderParseAdvances();
    EmptyReaderSet(ReaderAccepts, ReaderParse, s);
    assert Memory(s) == [] && ReadLine(s).state == PeekState(log, 1, 0, 0);
  }

  /** C takes the three lines after it; B is read after them. */
  lemma EntrySpanningLines(log: seq<string>)
    requires log == ["A", "C", "1", "2", "3", "B"]
    ensures && Read(ABC, PeekState(log, 1, 1, 0)) == EntryRead(Fixture("C"), PeekState(log, 5, 5, 0))
            && Read(ABC, PeekState(log, 5, 5, 0)) == EntryRead(Fixture("B"), PeekState(log, 6, 6, 0))
  {
    assert ReadLine(PeekState(log, 1, 1, 0)) == Line("C", PeekState(log, 2, 1, 0));
    assert ABC[0].name != "C" && ABC[1].name != "C";
    assert log[2..5] == ["1", "2", "3"];
    ReadFixture(ABC, 2, PeekState(log, 1, 1, 0));
    assert ReadLine(PeekState(log, 5, 5, 0)) == Line("B", PeekState(log, 6, 5, 0));
    assert ABC[0].name != "B" && ABC[2].name != "B";
    ReadFixture(ABC, 1, PeekState(log, 5, 5, 0));
  }

  /** When the log ends inside C, its lines so far are returned as not readable. */
  lemma LastEntryNotReadable(log: seq<string>)
    requires log == ["A", "B", "C", "1", "2"]
    ensures Read(ABC, PeekState(log, 2, 2, 0)) == NotReadable(["C", "1", "2"], PeekState(log, 5, 5, 0))
  {
    var s := PeekState(log, 2, 2, 0);
    assert ReadLine(s) == Line("C", PeekState(log, 3, 2, 0));
    assert ABC[0].name != "C" && ABC[1].name != "C";
    ExpectedRunsOut(log);
    ReadFixture(ABC, 2, s);
    assert Memory(s) + log[2..5] == ["C", "1", "2"];
    assert Cleared(PeekState(log, 5, 2, 0)) == PeekState(log, 5, 5, 0);
  }

  /** C reads 1 and 2 and then meets the end of the log where it expects 3. */
  lemma ExpectedRunsOut(log: seq<string>)
    requires log == ["A", "B", "C", "1", "2"]
    ensures ReadExpected(["1", "2", "3"], PeekState(log, 3, 2, 0)) == Fail(PeekState(log, 5, 2, 0))
  {
    assert ReadLine(PeekState(log, 3, 2, 0)) == Line("1", PeekState(log, 4, 2, 0));
    assert ReadLine(PeekState(log, 4, 2, 0)) == Line("2", PeekState(log, 5, 2, 0));
    assert ReadExpected(["3"], PeekState(log, 5, 2, 0)) == Fail(PeekState(log, 5, 2, 0));
    assert ReadExpected(["2", "3"], PeekState(log, 4, 2, 0)) == Fail(PeekState(log, 5, 2, 0));
  }

  /**
   * When C meets a line other than the one it expects, the lines up to that
   * one are returned as not readable, and reading goes on after it.
   */
  lemma IncorrectInputSkipped(log: seq<string>)
    requires log == ["A", "C", "1", "2", "4", "B"]
    ensures && Read(ABC, PeekState(log, 1, 1, 0)) == NotReadable(["C", "1", "2", "4"], PeekState(log, 5, 5, 0))
            && Read(ABC, PeekState(log, 5, 5, 0)) == EntryRead(Fixture("B"), PeekState(log, 6, 6, 0))
  {
    IncorrectInputNotReadable(log);
    assert ReadLine(PeekState(log, 5, 5, 0)) == Line("B", PeekState(log, 6, 5, 0));
    assert ABC[0].name != "B" && ABC[2].name != "B";
    ReadFixture(ABC, 1, PeekState(log, 5, 5, 0));
  }

  lemma IncorrectInputNotReadable(log: seq<string>)
    requires log == ["A", "C", "1", "2", "4", "B"]
    ensures Read(ABC, PeekState(log, 1, 1, 0)) == NotReadable(["C", "1", "2", "4"], PeekState(log, 5, 5, 0))
  {
    var s := PeekState(log, 1, 1, 0);
    assert ReadLine(s) == Line("C", PeekState(log, 2, 1, 0));
    assert ABC[0].name != "C" && ABC[1].name != "C";
    ThreeExpectedMeetsFour(log);
    ReadFixture(ABC, 2, s);
    assert Memory(s) + log[1..5] == ["C", "1", "2", "4"];
    assert Cleared(PeekState(log, 5, 1, 0)) == PeekState(log, 5, 5, 0);
  }

  /** C reads 1 and 2 and stops at the 4 where it expects 3. */
  lemma ThreeExpectedMeetsFour(log: seq<string>)
    requires log == ["A", "C", "1", "2", "4", "B"]
    ensures ReadExpected(["1", "2", "3"], PeekState(log, 2, 1, 0)) == Fail(PeekState(log, 5, 1, 0))
  {
    assert ReadLine(PeekState(log, 2, 1, 0)) == Line("1", PeekState(log, 3, 1, 0));
    assert ReadLine(PeekState(log, 3, 1, 0)) == Line("2", PeekState(log, 4, 1, 0));
    assert ReadLine(PeekState(log, 4, 1, 0)) == Line("4", PeekState(log, 5, 1, 0));
    assert "4" != "3" by { assert "4"[0] != "3"[0]; }
    assert ReadExpected(["3"], PeekState(log, 4, 1, 0)) == Fail(PeekState(log, 5, 1, 0));
    assert ReadExpected(["2", "3"], PeekState(log, 3, 1, 0)) == Fail(PeekState(log, 5, 1, 0));
    assert ReadExpected(["1", "2", "3"], PeekState(log, 2, 1, 0)) == Fail(PeekState(log, 5, 1, 0));
  }

  /** A peeks one line; B expects 1 and then peeks one line; C peeks two lines. */
  const Peeking: seq<EntryReader> := [FixtureReader("A", [], 1), FixtureReader("B", ["1"], 1), FixtureReader("C", [], 2)]

  const PeekingLog: seq<string> := ["A", "A", "A", "B", "1", "B", "1", "C", "C", "B", "1", "A", "C"]

  /** The peeked lines are read again by the next `readEntry`: A, A, A, B, B in turn. */
  lemma PeekedLinesAreReadAgain(log: seq<string>)
    requires log == PeekingLog
    ensures && Read(Peeking, Start(log)) == EntryRead(Fixture("A"), PeekState(log, 1, 1, 1))
            && Read(Peeking, PeekState(log, 1, 1, 1)) == EntryRead(Fixture("A"), PeekState(log, 2, 2, 1))
            && Read(Peeking, PeekState(log, 2, 2, 1)) == EntryRead(Fixture("A"), PeekState(log, 3, 3, 1))
            && Read(Peeking, PeekState(log, 3, 3, 1)) == EntryRead(Fixture("B"), PeekState(log, 5, 5, 1))
            && Read(Peeking, PeekState(log, 5, 5, 1)) == EntryRead(Fixture("B"), PeekState(log, 7, 7, 1))
  {
    PeekingStep1(log);
    PeekingStep2(log);
    PeekingStep3(log);
    PeekingStep4(log);
    PeekingStep5(log);
  }

  /**
   * Peeks that run past the end of the log find nothing; reading still ends
   * after the last line: C, C, B, A, C and then no more input.
   */
  lemma PeeksPastTheEnd(log: seq<string>)
    requires log == PeekingLog
    ensures && Read(Peeking, PeekState(log, 7, 7, 1)) == EntryRead(Fixture("C"), PeekState(log, 8, 8, 2))
            && Read(Peeking, PeekState(log, 8, 8, 2)) == EntryRead(Fixture("C"), PeekState(log, 9, 9, 3))
            && Read(Peeking, PeekState(log, 9, 9, 3)) == EntryRead(Fixture("B"), PeekState(log, 11, 11, 2))
            && Read(Peeking, PeekState(log, 11, 11, 2)) == EntryRead(Fixture("A"), PeekState(log, 12, 12, 1))
            && Read(Peeking, PeekState(log, 12, 12, 1)) == EntryRead(Fixture("C"), PeekState(log, 13, 13, 0))
            && Read(Peeking, PeekState(log, 13, 13, 0)) == NoMoreLines
  {
    PeekingStep6(log);
    PeekingStep7(log);
    PeekingStep8(log);
    PeekingStep9(log);
    PeekingStep10(log);
  }

  // One `readEntry` of the peeking test each.

  /** An A whose line is not the last: one entry, and one line left peeked. */
  lemma PeekingReadsA(log: seq<string>, pos: nat, peeked: nat)
    requires pos + 1 < |log| && peeked <= 1 && log[pos] == "A"
    ensures Read(Peeking, PeekState(log, pos, pos, peeked)) == EntryRead(Fixture("A"), PeekState(log, pos + 1, pos + 1, 1))
  {
    assert Peeking[1].name != "A" && Peeking[2].name != "A";
    ReadFixtureOk(Peeking, 0, [], 1, PeekState(log, pos, pos, peeked));
  }

  lemma PeekingStep1(log: seq<string>)
    requires log == PeekingLog
    ensures Read(Peeking, Start(log)) == EntryRead(Fixture("A"), PeekState(log, 1, 1, 1))
  {
    PeekingReadsA(log, 0, 0);
  }

  lemma PeekingStep2(log: seq<string>)
    requires log == PeekingLog
    ensures Read(Peeking, PeekState(log, 1, 1, 1)) == EntryRead(Fixture("A"), PeekState(log, 2, 2, 1))
  {
    PeekingReadsA(log, 1, 1);
  }

  lemma PeekingStep3(log: seq<string>)
    requires log == PeekingLog
    ensures Read(Peeking, PeekState(log, 2, 2, 1)) == EntryRead(Fixture("A"), PeekState(log, 3, 3, 1))
  {
    PeekingReadsA(log, 2, 1);
  }

  lemma PeekingStep4(log: seq<string>)
    requires log == PeekingLog
    ensures Read(Peeking, PeekState(log, 3, 3, 1)) == EntryRead(Fixture("B"), PeekState(log, 5, 5, 1))
  {
    assert Peeking[0].name != "B" && Peeking[2].name != "B";
    ReadFixtureOk(Peeking, 1, ["1"], 1, PeekState(log, 3, 3, 1));
  }

  lemma PeekingStep5(log: seq<string>)
    requires log == PeekingLog
    ensures Read(Peeking, PeekState(log, 5, 5, 1)) == EntryRead(Fixture("B"), PeekState(log, 7, 7, 1))
  {
    assert Peeking[0].name != "B" && Peeking[2].name != "B";
    ReadFixtureOk(Peeking, 1, ["1"], 1, PeekState(log, 5, 5, 1));
  }

  lemma PeekingStep6(log: seq<string>)
    requires log == PeekingLog
    ensures Read(Peeking, PeekState(log, 7, 7, 1)) == EntryRead(Fixture("C"), PeekState(log, 8, 8, 2))
  {
    assert Peeking[0].name != "C" && Peeking[1].name != "C";
    ReadFixtureOk(Peeking, 2, [], 2, PeekState(log, 7, 7, 1));
  }

  lemma PeekingStep7(log: seq<string>)
    requires log == PeekingLog
    ensures Read(Peeking, PeekState(log, 8, 8, 2)) == EntryRead(Fixture("C"), PeekState(log, 9, 9, 3))
  {
    assert Peeking[0].name != "C" && Peeking[1].name != "C";
    ReadFixtureOk(Peeking, 2, [], 2, PeekState(log, 8, 8, 2));
  }

  lemma PeekingStep8(log: seq<string>)
    requires log == PeekingLog
    ensures Read(Peeking, PeekState(log, 9, 9, 3)) == EntryRead(Fixture("B"), PeekState(log, 11, 11, 2))
  {
    assert Peeking[0].name != "B" && Peeking[2].name != "B";
    ReadFixtureOk(Peeking, 1, ["1"], 1, PeekState(log, 9, 9, 3));
  }

  lemma PeekingStep9(log: seq<string>)
    requires log == PeekingLog
    ensures Read(Peeking, PeekState(log, 11, 11, 2)) == EntryRead(Fixture("A"), PeekState(log, 12, 12, 1))
  {
    assert Peeking[1].name != "A" && Peeking[2].name != "A";
    ReadFixtureOk(Peeking, 0, [], 1, PeekState(log, 11, 11, 2));
  }

  lemma PeekingStep10(log: seq<string>)
    requires log == PeekingLog
    ensures Read(Peeking, PeekState(log, 12, 12, 1)) == EntryRead(Fixture("C"), PeekState(log, 13, 13, 0))
  {
    assert Peeking[0].name != "C" && Peeking[1].name != "C";
    ReadFixtureOk(Peeking, 2, [], 2, PeekState(log, 12, 12, 1));
  }

  const StartLog: seq<string> := ["START", "1", "2", "3", "START", "START", "1", "2", "3", "4", "5"]

  /** Each START entry holds the lines up to the next START: 1, 2, 3; none; 1 to 5. */
  lemma EntriesUpToNextStart(log: seq<string>)
    requires log == StartLog
    ensures && Read([InfiniteReader("START")], PeekState(log, 0, 0, 0)) == EntryRead(Infinite(["1", "2", "3"]), PeekState(log, 4, 4, 1))
            && Read([InfiniteReader("START")], PeekState(log, 4, 4, 1)) == EntryRead(Infinite([]), PeekState(log, 5, 5, 1))
            && Read([InfiniteReader("START")], PeekState(log, 5, 5, 1)) == EntryRead(Infinite(["1", "2", "3", "4", "5"]), PeekState(log, 11, 11, 0))
  {
    FirstStartEntry(log);
    EmptyStartEntry(log);
    LastStartEntry(log);
  }

  lemma FirstStartEntry(log: seq<string>)
    requires log == StartLog
    ensures Read([InfiniteReader("START")], PeekState(log, 0, 0, 0)) == EntryRead(Infinite(["1", "2", "3"]), PeekState(log, 4, 4, 1))
  {
    assert log[1..4] == ["1", "2", "3"];
    assert "START" !in ["1", "2", "3"] by { assert "START"[0] != "1"[0] && "START"[0] != "2"[0] && "START"[0] != "3"[0]; }
    StartEntry(PeekState(log, 0, 0, 0), 4);
  }

  lemma EmptyStartEntry(log: seq<string>)
    requires log == StartLog
    ensures Read([InfiniteReader("START")], PeekState(log, 4, 4, 1)) == EntryRead(Infinite([]), PeekState(log, 5, 5, 1))
  {
    StartEntry(PeekState(log, 4, 4, 1), 5);
  }

  lemma LastStartEntry(log: seq<string>)
    requires log == StartLog
    ensures Read([InfiniteReader("START")], PeekState(log, 5, 5, 1)) == EntryRead(Infinite(["1", "2", "3", "4", "5"]), PeekState(log, 11, 11, 0))
  {
    assert log[6..11] == ["1", "2", "3", "4", "5"];
    StartEntry(PeekState(log, 5, 5, 1), 11);
  }

  /** A START entry at `s.pos` whose lines run up to `next`, the next START line or the end of the log. */
  lemma StartEntry(s: PeekState, next: nat)
    requires Valid(s) && s.pos < next <= |s.source| && s.source[s.pos] == "START" && s.peeked <= 1
    requires "START" !in s.source[s.pos + 1..next]
    requires next == |s.source| || s.source[next] == "START"
    ensures Read([InfiniteReader("START")], s) ==
            EntryRead(Infinite(s.source[s.pos + 1..next]), PeekState(s.source, next, next, if next < |s.source| then 1 else 0))
  {
    ReadInfinite("START", s);
    var t := ReadLine(s).state;
    assert t.pos == s.pos + 1 && t.peeked == 0;
    CollectUntilNextStart("START", t);
    var c := CollectUntil("START", t);
    assert c.state.pos <= next by {
      if next < |s.source| {
        assert s.source[next] == "START";
      }
    }
  }
}
