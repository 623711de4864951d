/**
 * The entry readers of the older engine (`AbstractLineLogReader`) and its
 * `readEntry` loop. An `EntryReader` sees the log through a `readLine` /
 * `peekLine` reader (`PeekReaders`); a reader that throws
 * `NotParsableException` or `NoMoreInputException` is skipped and the next
 * one is tried on the lines that follow; when all fail, `NotReadableException`
 * carries the recorded lines.
 */
module EntryReaders {
  import opened Wrappers
  import opened Text
  import opened PeekReaders
  import opened LogEntries
  import LogLineUtils
  import IteratorUtils

  /**
   * The outcome of one `parse`: the entry and the reader after it; a caught
   * failure (`NotParsableException` or `NoMoreInputException`) with the
   * reader where it stopped; or an exception `readEntry` does not catch.
   */
  datatype Outcome<T> = Ok(value: T, state: PeekState) | Fail(state: PeekState) | Crash

  /**
   * The outcome of `readEntry`: the entry, `NotReadableException` with its
   * lines, `NoMoreInputException` from the first read, or an exception the
   * loop does not catch. The states are the reader after the call.
   */
  datatype Reading =
    | EntryRead(entry: LogEntry, state: PeekState)
    | NotReadable(lines: seq<string>, state: PeekState)
    | NoMoreLines
    | Crashed

  /** `parse` hands back, when it returns or throws a caught exception, a later state of the same entry. */
  ghost predicate Advances<P(!new)>(parse: (P, string, PeekState) -> Outcome<LogEntry>) {
    forall p, line, s :: Valid(s) && !parse(p, line, s).Crash? ==> Advanced(s, parse(p, line, s).state)
  }

  // ---------------------------------------------------------------------
  // The readEntry loop, for any set of readers
  // ---------------------------------------------------------------------

  /**
   * The loop over the readers on the line just read: a reader that does
   * not accept the line is skipped; the first entry wins and clears the
   * record; a failing reader leaves the reader where it stopped; when all
   * fail, the recorded lines are thrown and the record is cleared.
   */
  function TryReaders<P(!new)>(readers: seq<P>, line: string, accepts: (P, string) -> bool,
                               parse: (P, string, PeekState) -> Outcome<LogEntry>, s: PeekState): (r: Reading)
    requires Valid(s) && Advances(parse)
    ensures !r.NoMoreLines?
    ensures r.EntryRead? || r.NotReadable? ==> Follows(s, r.state) && Memory(r.state) == []
    ensures r.NotReadable? ==> r.lines == Memory(s) + s.source[s.pos..r.state.pos]
    decreases |readers|
  {
    if readers == [] then NotReadable(Memory(s), Cleared(s))
    else if !accepts(readers[0], line) then TryReaders(readers[1..], line, accepts, parse, s)
    else
      match parse(readers[0], line, s)
      case Crash => Crashed
      case Ok(entry, t) => EntryRead(entry, Cleared(t))
      case Fail(t) =>
        var r := TryReaders(readers[1..], line, accepts, parse, t);
        ConsumedRun(s.source, s.mark, s.pos, t.pos, if r.NotReadable? then r.state.pos else t.pos);
        r
  }

  lemma ConsumedRun(source: seq<string>, mark: nat, pos: nat, mid: nat, end: nat)
    requires mark <= pos <= mid <= end <= |source|
    ensures source[mark..mid] + source[mid..end] == source[mark..pos] + source[pos..end]
  {
    assert source[mark..mid] + source[mid..end] == source[mark..end];
    assert source[mark..pos] + source[pos..end] == source[mark..end];
  }

  /** One turn of the loop: the first reader, then the rest of the set. */
  lemma TryReadersCons<P(!new)>(p: P, rest: seq<P>, line: string, accepts: (P, string) -> bool,
                                parse: (P, string, PeekState) -> Outcome<LogEntry>, s: PeekState)
    requires Valid(s) && Advances(parse)
    ensures !accepts(p, line) ==> TryReaders([p] + rest, line, accepts, parse, s) == TryReaders(rest, line, accepts, parse, s)
    ensures accepts(p, line) ==>
              var o := parse(p, line, s);
              && (o.Crash? ==> TryReaders([p] + rest, line, accepts, parse, s) == Crashed)
              && (o.Ok? ==> TryReaders([p] + rest, line, accepts, parse, s) == EntryRead(o.value, Cleared(o.state)))
              && (o.Fail? ==> TryReaders([p] + rest, line, accepts, parse, s) == TryReaders(rest, line, accepts, parse, o.state))
  {
    assert ([p] + rest)[0] == p && ([p] + rest)[1..] == rest;
  }

  /**
   * `readEntry`: read and record one line (`NoMoreInputException` when the
   * log is exhausted), then run the loop on it. A `NotReadableException`
   * lists every line recorded since the entry began, that one first.
   */
  function ReadEntry<P(!new)>(readers: seq<P>, accepts: (P, string) -> bool,
                              parse: (P, string, PeekState) -> Outcome<LogEntry>, s: PeekState): (r: Reading)
    requires Valid(s) && Advances(parse)
    ensures r.NoMoreLines? <==> s.pos == |s.source|
    ensures r.EntryRead? || r.NotReadable? ==> Follows(s, r.state) && s.pos < r.state.pos && Memory(r.state) == []
    ensures r.NotReadable? ==> r.lines == Memory(s) + s.source[s.pos..r.state.pos]
  {
    match ReadLine(s)
    case NoMoreInput => NoMoreLines
    case Line(line, t) =>
      var r := TryReaders(readers, line, accepts, parse, t);
      ReadDrainsPeekedLines(s);
      assert r.NotReadable? ==> s.source[s.pos..r.state.pos] == [line] + s.source[s.pos + 1..r.state.pos];
      r
  }

  /**
   * Only the readers whose `isParsable` accepts the line take part: the loop
   * over the whole set gives the outcome of the loop over the accepting
   * readers alone, in their order.
   */
  lemma {:induction false} OnlyAcceptingReadersRun<P(!new)>(readers: seq<P>, line: string, accepts: (P, string) -> bool,
                                                            parse: (P, string, PeekState) -> Outcome<LogEntry>, s: PeekState)
    requires Valid(s) && Advances(parse)
    ensures TryReaders(readers, line, accepts, parse, s)
         == TryReaders(IteratorUtils.Filter(readers, p => accepts(p, line)), line, accepts, parse, s)
    decreases |readers|
  {
    if readers != [] {
      var keep := p => accepts(p, line);
      var tail := IteratorUtils.Filter(readers[1..], keep);
      if accepts(readers[0], line) {
        var accepting := IteratorUtils.Filter(readers, keep);
        assert accepting == [readers[0]] + tail;
        assert accepting[0] == readers[0] && accepting[1..] == tail;
        var first := parse(readers[0], line, s);
        if first.Fail? {
          OnlyAcceptingReadersRun(readers[1..], line, accepts, parse, first.state);
        }
      } else {
        assert IteratorUtils.Filter(readers, keep) == tail;
        OnlyAcceptingReadersRun(readers[1..], line, accepts, parse, s);
      }
    }
  }

  /**
   * When at most one reader of the set accepts the line, the order in which
   * the set yields its readers does not change the outcome: the loop gives
   * what that one reader gives, or fails with the recorded lines.
   */
  lemma SingleAcceptingReader<P(!new)>(readers: seq<P>, k: nat, line: string, accepts: (P, string) -> bool,
                                       parse: (P, string, PeekState) -> Outcome<LogEntry>, s: PeekState)
    requires Valid(s) && Advances(parse) && k < |readers| && accepts(readers[k], line)
    requires forall i :: 0 <= i < |readers| && i != k ==> !accepts(readers[i], line)
    ensures TryReaders(readers, line, accepts, parse, s) == TryReaders([readers[k]], line, accepts, parse, s)
  {
    OnlyAcceptingReadersRun(readers, line, accepts, parse, s);
    OnlyAcceptingReadersRun([readers[k]], line, accepts, parse, s);
    OnlyOne(readers, k, p => accepts(p, line));
  }

  lemma {:induction false} OnlyOne<P>(xs: seq<P>, k: nat, keep: P -> bool)
    requires k < |xs| && keep(xs[k])
    requires forall i :: 0 <= i < |xs| && i != k ==> !keep(xs[i])
    ensures IteratorUtils.Filter(xs, keep) == [xs[k]] == IteratorUtils.Filter([xs[k]], keep)
    decreases |xs|
  {
    assert [xs[k]] == [xs[k]] + [];
    if k == 0 {
      IteratorUtils.FilterEmptyIff(xs[1..], keep);
    } else {
      OnlyOne(xs[1..], k - 1, keep);
    }
  }

  /**
   * With no reader at all, `readEntry` consumes the first line and fails
   * with the recorded lines, that one last; past the last line it throws
   * `NoMoreInputException`.
   */
  lemma EmptyReaderSet<P(!new)>(accepts: (P, string) -> bool, parse: (P, string, PeekState) -> Outcome<LogEntry>, s: PeekState)
    requires Valid(s) && Advances(parse) && s.pos < |s.source|
    ensures ReadEntry([], accepts, parse, s) == NotReadable(Memory(s) + [s.source[s.pos]], Cleared(ReadLine(s).state))
  {
    ReadDrainsPeekedLines(s);
  }

  // ---------------------------------------------------------------------
  // The readers of the tests
  // ---------------------------------------------------------------------

  function Max(a: nat, b: nat): nat {
    if a < b then b else a
  }

  /** The multi-line readers of the tests: read `expected` line by line; another line, or the end of the log, fails. */
  function ReadExpected(expected: seq<string>, s: PeekState): (r: Outcome<()>)
    requires Valid(s)
    ensures !r.Crash? && Advanced(s, r.state)
    ensures r.Ok? <==> s.pos + |expected| <= |s.source| && s.source[s.pos..s.pos + |expected|] == expected
    ensures r.Ok? ==> r.state.pos == s.pos + |expected| && Pulled(r.state) == Max(Pulled(s), r.state.pos)
    decreases |expected|
  {
    if expected == [] then Ok((), s)
    else
      match ReadLine(s)
      case NoMoreInput => Fail(s)
      case Line(line, t) =>
        if line != expected[0] then Fail(t)
        else
          var r := ReadExpected(expected[1..], t);
          ExpectedStep(s.source, s.pos, expected);
          r
  }

  lemma ExpectedStep(source: seq<string>, pos: nat, expected: seq<string>)
    requires expected != [] && pos < |source| && source[pos] == expected[0]
    ensures pos + |expected| <= |source| && source[pos..pos + |expected|] == expected <==>
            pos + 1 + |expected[1..]| <= |source| && source[pos + 1..pos + 1 + |expected[1..]|] == expected[1..]
  {
    if pos + |expected| <= |source| {
      assert source[pos..pos + |expected|] == [source[pos]] + source[pos + 1..pos + |expected|];
    }
  }

  /** `k` calls of `peekLine` whose answers are dropped. */
  function PeekTimes(k: nat, s: PeekState): (r: PeekState)
    requires Valid(s)
    ensures Advanced(s, r) && r.pos == s.pos
    ensures Pulled(r) == if Pulled(s) + k <= |s.source| then Pulled(s) + k else |s.source|
  {
    if k == 0 then s else PeekTimes(k - 1, PeekLine(s).state)
  }

  /**
   * The START reader of the tests: while a peek finds a line other than
   * `start`, read a line and keep it. The kept lines are the ones read.
   */
  function CollectUntil(start: string, s: PeekState): (r: Outcome<seq<string>>)
    requires Valid(s)
    ensures r.Ok? && Advanced(s, r.state) && r.value == s.source[s.pos..r.state.pos]
    decreases |s.source| - s.pos
  {
    var p := PeekLine(s);
    if p.line.None? || p.line.value == start then Ok([], p.state)
    else
      var read := ReadLine(p.state);
      var rest := CollectUntil(start, read.state);
      assert s.source[s.pos..rest.state.pos] == [read.value] + s.source[s.pos + 1..rest.state.pos];
      Ok([read.value] + rest.value, rest.state)
  }

  /**
   * With no line peeked ahead, the START reader stops at the next START line
   * (which stays peeked), or at the end of the log; no line it keeps is a
   * START line.
   */
  lemma {:induction false} CollectUntilNextStart(start: string, s: PeekState)
    requires Valid(s) && s.peeked == 0
    ensures var r := CollectUntil(start, s);
            && r.state.source == s.source && r.state.mark == s.mark
            && (forall i :: s.pos <= i < r.state.pos ==> s.source[i] != start)
            && ((r.state.pos == |s.source| && r.state.peeked == 0) ||
                (r.state.pos < |s.source| && s.source[r.state.pos] == start && r.state.peeked == 1))
    decreases |s.source| - s.pos
  {
    var p := PeekLine(s);
    if p.line.Some? && p.line.value != start {
      CollectUntilNextStart(start, ReadLine(p.state).state);
    }
  }

  // ---------------------------------------------------------------------
  // The patterns of CreateGameEntryReader
  // ---------------------------------------------------------------------

  const GameEntityHeader: string := LogLineUtils.PowerPrefix + "    GameEntity"
  const GameEntityIdPrefix: string := GameEntityHeader + " EntityID="
  const PlayerHeader: string := LogLineUtils.PowerPrefix + "    Player"
  const PlayerIdPrefix: string := PlayerHeader + " EntityID="
  const PlayerDelimiters: seq<string> := [" PlayerID=", " GameAccountId=[hi=", " lo="]
  const TagPrefix: string := LogLineUtils.PowerPrefix + "        tag="
  const CreateGameLine: string := LogLineUtils.PowerPrefix + "CREATE_GAME"

  /** Every character of `run` is in `cls`. */
  predicate IsRun(cls: CharClass, run: string) {
    RunLength(run, cls) == |run|
  }

  /** A greedy `cls+` at the start of `s`: the run, and the text after it. */
  function Run(s: string, cls: CharClass): (r: Option<(string, string)>)
    ensures r.None? <==> s == [] || !InClass(cls, s[0])
    ensures r.Some? ==> r.value.0 != [] && IsRun(cls, r.value.0) && s == r.value.0 + r.value.1
    ensures r.Some? && r.value.1 != [] ==> !InClass(cls, r.value.1[0])
  {
    var n := RunLength(s, cls);
    if n == 0 then None
    else
      RunLengthUnique(s[..n], cls, n);
      Some((s[..n], s[n..]))
  }

  /** The text `lits[0] + groups[0] + lits[1] + groups[1] + ...`. */
  function Assemble(lits: seq<string>, groups: seq<string>): string
    requires |lits| == |groups|
  {
    if lits == [] then [] else lits[0] + groups[0] + Assemble(lits[1..], groups[1..])
  }

  /**
   * `^Q(lits[0])(c0+)Q(lits[1])(c1+)...`: each literal, then a greedy run of
   * its class; the groups and the unmatched tail. A literal that starts with
   * a character outside the previous class leaves the greedy run no other
   * choice, so these are the groups `Matcher.group(i)` returns.
   */
  function MatchRuns(s: string, lits: seq<string>, classes: seq<CharClass>): (r: Option<(seq<string>, string)>)
    requires |lits| == |classes|
    ensures r.Some? ==> |r.value.0| == |lits| && s == Assemble(lits, r.value.0) + r.value.1
    ensures r.Some? ==> forall i :: 0 <= i < |lits| ==> r.value.0[i] != [] && IsRun(classes[i], r.value.0[i])
    decreases |lits|
  {
    if lits == [] then Some(([], s))
    else if !StartsWith(s, lits[0]) then None
    else
      match Run(s[|lits[0]|..], classes[0])
      case None => None
      case Some(split) =>
        match MatchRuns(split.1, lits[1..], classes[1..])
        case None => None
        case Some(more) =>
          AssembleStep(s, lits, split.0, split.1, more.0, more.1);
          Some(([split.0] + more.0, more.1))
  }

  lemma AssembleStep(s: string, lits: seq<string>, run: string, tail: string, groups: seq<string>, rest: string)
    requires lits != [] && |groups| == |lits| - 1 && StartsWith(s, lits[0]) && s[|lits[0]|..] == run + tail
    requires tail == Assemble(lits[1..], groups) + rest
    ensures s == Assemble(lits, [run] + groups) + rest
  {
    var g := [run] + groups;
    assert g[0] == run && g[1..] == groups;
    assert Assemble(lits, g) == lits[0] + run + Assemble(lits[1..], groups);
    assert s == lits[0] + (run + (Assemble(lits[1..], groups) + rest)) by {
      assert s == lits[0] + s[|lits[0]|..];
    }
    Regroup(lits[0], run, Assemble(lits[1..], groups), rest);
  }

  /** Each literal after the first starts with a character outside the class of the run before it. */
  predicate Separated(lits: seq<string>, classes: seq<CharClass>) {
    |lits| == |classes| &&
    forall i :: 1 <= i < |lits| ==> lits[i] != [] && !InClass(classes[i - 1], lits[i][0])
  }

  /** Runs of the right classes, separated by their literals, are found again by `MatchRuns`. */
  lemma {:induction false} MatchRunsComplete(lits: seq<string>, classes: seq<CharClass>, groups: seq<string>, rest: string)
    requires Separated(lits, classes) && |groups| == |lits|
    requires forall i :: 0 <= i < |lits| ==> groups[i] != [] && IsRun(classes[i], groups[i])
    requires lits != [] && rest != [] ==> !InClass(classes[|classes| - 1], rest[0])
    ensures MatchRuns(Assemble(lits, groups) + rest, lits, classes) == Some((groups, rest))
    decreases |lits|
  {
    if lits != [] {
      var s := Assemble(lits, groups) + rest;
      var tail := Assemble(lits[1..], groups[1..]) + rest;
      assert Separated(lits[1..], classes[1..]) by {
        forall i | 1 <= i < |lits| - 1
          ensures lits[1..][i] != [] && !InClass(classes[1..][i - 1], lits[1..][i][0])
        {
          assert lits[1..][i] == lits[i + 1] && classes[1..][i - 1] == classes[i];
        }
      }
      assert forall i :: 0 <= i < |lits| - 1 ==> groups[1..][i] == groups[i + 1] && classes[1..][i] == classes[i + 1];
      MatchRunsComplete(lits[1..], classes[1..], groups[1..], rest);
      if |lits| > 1 {
        AssembleHead(lits[1..], groups[1..], rest);
        assert lits[1] != [] && !InClass(classes[0], lits[1][0]);
      }
      RunExact(groups[0], tail, classes[0]);
      Regroup(lits[0], groups[0], Assemble(lits[1..], groups[1..]), rest);
      LiteralThen(s, lits[0], groups[0] + tail);
      MatchRunsUnfold(s, lits, classes, groups, tail, rest);
    } else {
      assert Assemble(lits, groups) + rest == rest;
    }
  }

  lemma Regroup(a: string, b: string, c: string, d: string)
    ensures a + b + c + d == a + (b + (c + d))
  {
  }

  lemma Append(a: string, b: string, c: string)
    ensures a + b + c == a + (b + c)
  {
  }

  lemma MatchRunsUnfold(s: string, lits: seq<string>, classes: seq<CharClass>, groups: seq<string>, tail: string, rest: string)
    requires |lits| == |classes| && lits != [] && groups != [] && StartsWith(s, lits[0])
    requires Run(s[|lits[0]|..], classes[0]) == Some((groups[0], tail))
    requires MatchRuns(tail, lits[1..], classes[1..]) == Some((groups[1..], rest))
    ensures MatchRuns(s, lits, classes) == Some((groups, rest))
  {
    assert [groups[0]] + groups[1..] == groups;
  }

  lemma AssembleHead(lits: seq<string>, groups: seq<string>, rest: string)
    requires |lits| == |groups| && lits != [] && lits[0] != []
    ensures (Assemble(lits, groups) + rest)[0] == lits[0][0]
  {
  }

  lemma LiteralThen(s: string, lit: string, after: string)
    requires s == lit + after
    ensures StartsWith(s, lit) && s[|lit|..] == after
  {
  }

  /** A maximal run followed by a character outside its class is the run `Run` finds. */
  lemma RunExact(run: string, tail: string, cls: CharClass)
    requires run != [] && IsRun(cls, run) && (tail != [] ==> !InClass(cls, tail[0]))
    ensures Run(run + tail, cls) == Some((run, tail))
  {
    assert forall i :: 0 <= i < |run| ==> (run + tail)[i] == run[i];
    RunLengthUnique(run + tail, cls, |run|);
    assert (run + tail)[..|run|] == run;
    assert (run + tail)[|run|..] == tail;
  }

  /** `EXTRACT_GAME_ENTITY_PATTERN`: the entity id, the digits after `GameEntity EntityID=`. */
  function GameEntityId(line: string): (r: Option<string>)
    ensures r.Some? ==> r.value != [] && IsRun(Digit, r.value) && StartsWith(line, GameEntityIdPrefix + r.value)
  {
    match MatchRuns(line, [GameEntityIdPrefix], [Digit])
    case None => None
    case Some(m) =>
      AssembleOne(GameEntityIdPrefix, m.0[0]);
      LeadingPart(GameEntityIdPrefix + m.0[0], m.1);
      Some(m.0[0])
  }

  datatype PlayerFields = PlayerFields(entityId: string, playerId: string, hi: string, lo: string)

  /** `EXTRACT_PLAYER_PATTERN`: four runs of digits, and a `]` right after the last. */
  function PlayerLine(line: string): (r: Option<PlayerFields>)
    ensures r.Some? ==> && r.value.entityId != [] && IsRun(Digit, r.value.entityId) && r.value.playerId != [] && IsRun(Digit, r.value.playerId)
                        && r.value.hi != [] && IsRun(Digit, r.value.hi) && r.value.lo != [] && IsRun(Digit, r.value.lo)
                        && StartsWith(line, PlayerIdPrefix + r.value.entityId + " PlayerID=" + r.value.playerId + " GameAccountId=[hi="
                                            + r.value.hi + " lo=" + r.value.lo + "]")
  {
    var lits := [PlayerIdPrefix] + PlayerDelimiters;
    match MatchRuns(line, lits, [Digit, Digit, Digit, Digit])
    case None => None
    case Some(m) =>
      if StartsWith(m.1, "]") then
        assert lits == [PlayerIdPrefix, " PlayerID=", " GameAccountId=[hi=", " lo="];
        PlayerMatchShape(line, m.0, m.1);
        Some(PlayerFields(m.0[0], m.0[1], m.0[2], m.0[3]))
      else None
  }

  /** The four runs `EXTRACT_PLAYER_PATTERN` matched, between its literals and before a `]`, start the line. */
  lemma PlayerMatchShape(line: string, g: seq<string>, rest: string)
    requires |g| == 4 && StartsWith(rest, "]")
    requires line == Assemble([PlayerIdPrefix, " PlayerID=", " GameAccountId=[hi=", " lo="], g) + rest
    ensures StartsWith(line, PlayerIdPrefix + g[0] + " PlayerID=" + g[1] + " GameAccountId=[hi=" + g[2] + " lo=" + g[3] + "]")
  {
    assert g == [g[0], g[1], g[2], g[3]];
    AssembleFour(PlayerIdPrefix, g[0], " PlayerID=", g[1], " GameAccountId=[hi=", g[2], " lo=", g[3]);
    var fields := PlayerIdPrefix + g[0] + " PlayerID=" + g[1] + " GameAccountId=[hi=" + g[2] + " lo=" + g[3];
    assert line == fields + rest;
    assert rest == "]" + rest[1..];
    Append(fields, "]", rest[1..]);
    LeadingPart(fields + "]", rest[1..]);
  }

  /** `EXTRACT_TAG_VALUE_PATTERN`: the word after `tag=` and the word after ` value=`. */
  function TagValueLine(line: string): (r: Option<TagValue>)
    ensures r.Some? ==> && r.value.tag != [] && IsRun(Word, r.value.tag) && r.value.value != [] && IsRun(Word, r.value.value)
                        && StartsWith(line, TagPrefix + r.value.tag + " value=" + r.value.value)
  {
    match MatchRuns(line, [TagPrefix, " value="], [Word, Word])
    case None => None
    case Some(m) =>
      AssembleTwo(TagPrefix, m.0[0], " value=", m.0[1]);
      LeadingPart(TagPrefix + m.0[0] + " value=" + m.0[1], m.1);
      Some(TagValue(m.0[0], m.0[1]))
  }

  /** A text starts with any of its prefixes. */
  lemma LeadingPart(a: string, b: string)
    ensures StartsWith(a + b, a)
  {
    assert (a + b)[..|a|] == a;
  }

  lemma AssembleOne(a: string, g: string)
    ensures Assemble([a], [g]) == a + g
  {
    assert Assemble([a][1..], [g][1..]) == [];
  }

  lemma AssembleTwo(a: string, g: string, b: string, h: string)
    ensures Assemble([a, b], [g, h]) == a + g + b + h
  {
    assert [a, b][1..] == [b] && [g, h][1..] == [h];
    AssembleOne(b, h);
  }

  lemma AssembleFour(a: string, g: string, b: string, h: string, c: string, i: string, d: string, j: string)
    ensures Assemble([a, b, c, d], [g, h, i, j]) == a + g + b + h + c + i + d + j
  {
    assert [a, b, c, d][1..] == [b, c, d] && [g, h, i, j][1..] == [h, i, j];
    assert [b, c, d][1..] == [c, d] && [h, i, j][1..] == [i, j];
    AssembleTwo(c, i, d, j);
  }

  /** A tag line is read back as its tag and value, whatever non-word text follows the value. */
  lemma TagValueLineRoundTrip(tag: string, value: string, tail: string)
    requires tag != [] && IsRun(Word, tag) && value != [] && IsRun(Word, value)
    requires tail != [] ==> !InClass(Word, tail[0])
    ensures TagValueLine(TagPrefix + tag + " value=" + value + tail) == Some(TagValue(tag, value))
  {
    var lits, groups := [TagPrefix, " value="], [tag, value];
    assert Separated(lits, [Word, Word]) by { assert lits[1][0] == ' '; }
    MatchRunsComplete(lits, [Word, Word], groups, tail);
    AssembleTwo(TagPrefix, tag, " value=", value);
  }

  /** A GameEntity line is read back as its entity id. */
  lemma GameEntityIdRoundTrip(id: string, tail: string)
    requires id != [] && IsRun(Digit, id)
    requires tail != [] ==> !InClass(Digit, tail[0])
    ensures GameEntityId(GameEntityIdPrefix + id + tail) == Some(id)
  {
    MatchRunsComplete([GameEntityIdPrefix], [Digit], [id], tail);
    AssembleOne(GameEntityIdPrefix, id);
  }

  /** A Player line is read back as its four fields. */
  lemma PlayerLineRoundTrip(f: PlayerFields, tail: string)
    requires f.entityId != [] && IsRun(Digit, f.entityId) && f.playerId != [] && IsRun(Digit, f.playerId)
    requires f.hi != [] && IsRun(Digit, f.hi) && f.lo != [] && IsRun(Digit, f.lo)
    ensures PlayerLine(PlayerIdPrefix + f.entityId + " PlayerID=" + f.playerId + " GameAccountId=[hi=" + f.hi
                       + " lo=" + f.lo + "]" + tail) == Some(f)
  {
    var lits := [PlayerIdPrefix, " PlayerID=", " GameAccountId=[hi=", " lo="];
    assert lits == [PlayerIdPrefix] + PlayerDelimiters;
    var classes := [Digit, Digit, Digit, Digit];
    var groups := [f.entityId, f.playerId, f.hi, f.lo];
    assert Separated(lits, classes) by {
      assert lits[1][0] == ' ' && lits[2][0] == ' ' && lits[3][0] == ' ';
    }
    MatchRunsComplete(lits, classes, groups, "]" + tail);
    AssembleFour(PlayerIdPrefix, f.entityId, " PlayerID=", f.playerId, " GameAccountId=[hi=", f.hi, " lo=", f.lo);
    var fields := PlayerIdPrefix + f.entityId + " PlayerID=" + f.playerId + " GameAccountId=[hi=" + f.hi + " lo=" + f.lo;
    Append(fields, "]", tail);
    assert StartsWith("]" + tail, "]");
  }

  // ---------------------------------------------------------------------
  // GameEntityEntryReader and PlayerEntryReader
  // ---------------------------------------------------------------------

  /** The line carries on the tags: a log line whose content starts with more than four spaces. */
  predicate ContinuesTags(line: string) {
    LogLineUtils.IsFromNamedLogger(line) && LogLineUtils.NumberOfSpaces(line).Some? && LogLineUtils.NumberOfSpaces(line).value > 4
  }

  /**
   * The test at the head of the tag loop: false for a line that is not from
   * a named logger or is indented by four spaces or fewer; None for the
   * `NotParsableException` of `getNumberOfSpaces` on a named-logger line
   * that is no log line.
   */
  function TagLineTest(line: string): (r: Option<bool>)
    ensures r == Some(true) <==> ContinuesTags(line)
    ensures r.None? <==> LogLineUtils.IsFromNamedLogger(line) && LogLineUtils.NumberOfSpaces(line).None?
  {
    if !LogLineUtils.IsFromNamedLogger(line) then Some(false)
    else
      match LogLineUtils.NumberOfSpaces(line)
      case None => None
      case Some(spaces) => Some(spaces > 4)
  }

  /** The tag and value of every line under `tagLine`, or None when one of them does not match. */
  function TagValues(tagLine: string -> Option<TagValue>, lines: seq<string>): (r: Option<seq<TagValue>>)
    ensures r.Some? ==> |r.value| == |lines|
  {
    if lines == [] then Some([])
    else
      var first := tagLine(lines[0]);
      var rest := TagValues(tagLine, lines[1..]);
      if first.Some? && rest.Some? then Some([first.value] + rest.value) else None
  }

  /**
   * The tag loop of both child readers, for the loop test `test` (None: the
   * test threw) and the tag pattern `tagLine`: peek; stop at the end of the
   * log or when the peeked line fails the test; otherwise read a line,
   * which must match the pattern, and peek again. The tags are those of the
   * lines read, and the last line peeked ends the tags.
   */
  function ReadTags(test: string -> Option<bool>, tagLine: string -> Option<TagValue>, s: PeekState): (r: Outcome<seq<TagValue>>)
    requires Valid(s)
    ensures !r.Crash? && Advanced(s, r.state)
    ensures r.Ok? ==> TagValues(tagLine, s.source[s.pos..r.state.pos]) == Some(r.value)
    ensures r.Ok? ==> Pulled(r.state) == |s.source| || (0 < Pulled(r.state) && test(s.source[Pulled(r.state) - 1]) == Some(false))
    decreases |s.source| - s.pos, 1
  {
    var p := PeekLine(s);
    if p.line.None? then Ok([], p.state)
    else
      var continues := test(p.line.value);
      if continues.None? then Fail(p.state)
      else if !continues.value then Ok([], p.state)
      else ReadTag(test, tagLine, p.state)
  }

  /** One turn of the tag loop after a peek that found more tags: read the tag line, then loop. */
  function ReadTag(test: string -> Option<bool>, tagLine: string -> Option<TagValue>, s: PeekState): (r: Outcome<seq<TagValue>>)
    requires Valid(s) && s.pos < |s.source|
    ensures !r.Crash? && Advanced(s, r.state)
    ensures r.Ok? ==> TagValues(tagLine, s.source[s.pos..r.state.pos]) == Some(r.value)
    ensures r.Ok? ==> Pulled(r.state) == |s.source| || (0 < Pulled(r.state) && test(s.source[Pulled(r.state) - 1]) == Some(false))
    decreases |s.source| - s.pos, 0
  {
    var read := ReadLine(s);
    var tv := tagLine(read.value);
    if tv.None? then Fail(read.state)
    else
      var rest := ReadTags(test, tagLine, read.state);
      if rest.Ok? then
        TagsCons(tagLine, s.source, s.pos, rest.state.pos, tv.value, rest.value);
        Ok([tv.value] + rest.value, rest.state)
      else rest
  }

  lemma TagsCons(tagLine: string -> Option<TagValue>, source: seq<string>, pos: nat, end: nat, tv: TagValue, tags: seq<TagValue>)
    requires pos < end <= |source| && tagLine(source[pos]) == Some(tv)
    requires TagValues(tagLine, source[pos + 1..end]) == Some(tags)
    ensures TagValues(tagLine, source[pos..end]) == Some([tv] + tags)
  {
    assert source[pos..end][1..] == source[pos + 1..end];
  }

  /** The tag loop of `CreateGameEntryReader`'s child readers. */
  function ReadTagLines(s: PeekState): (r: Outcome<seq<TagValue>>)
    requires Valid(s)
    ensures !r.Crash? && Advanced(s, r.state)
    ensures r.Ok? ==> TagValues(TagValueLine, s.source[s.pos..r.state.pos]) == Some(r.value)
    ensures r.Ok? ==> Pulled(r.state) == |s.source| || (0 < Pulled(r.state) && !ContinuesTags(s.source[Pulled(r.state) - 1]))
  {
    ReadTags(TagLineTest, TagValueLine, s)
  }

  datatype ChildReader = GameEntityReader | PlayerReader

  /** `isParsable` of the two child readers: a prefix test on the header. */
  predicate ChildParsable(c: ChildReader, line: string) {
    match c
    case GameEntityReader => StartsWith(line, GameEntityHeader)
    case PlayerReader => StartsWith(line, PlayerHeader)
  }

  /** `parse` of the two child readers: the header's fields (`NotParsableException` when it does not match), then the tags. */
  function ParseChild(c: ChildReader, line: string, s: PeekState): (r: Outcome<LogEntry>)
    requires Valid(s)
    ensures !r.Crash? && Advanced(s, r.state)
    ensures r.Ok? && c.GameEntityReader? ==> r.value.GameEntity? && GameEntityId(line) == Some(r.value.entityId)
    ensures r.Ok? && c.PlayerReader? ==>
              r.value.Player? && PlayerLine(line) == Some(PlayerFields(r.value.entityId, r.value.playerId, r.value.hi, r.value.lo))
  {
    match c
    case GameEntityReader =>
      (match GameEntityId(line)
       case None => Fail(s)
       case Some(id) =>
         var tags := ReadTagLines(s);
         if tags.Ok? then Ok(GameEntity(4, id, tags.value), tags.state) else Fail(tags.state))
    case PlayerReader =>
      match PlayerLine(line)
      case None => Fail(s)
      case Some(f) =>
        var tags := ReadTagLines(s);
        if tags.Ok? then Ok(Player(4, f.entityId, f.playerId, f.hi, f.lo, tags.value), tags.state) else Fail(tags.state)
  }

  const ChildAccepts: (ChildReader, string) -> bool := (c, line) => ChildParsable(c, line)
  const ChildParse: (ChildReader, string, PeekState) -> Outcome<LogEntry> :=
    (c, line, s) => if Valid(s) then ParseChild(c, line, s) else Crash

  lemma ChildParseAdvances()
    ensures Advances(ChildParse)
  {
  }

  /** The set of the nested reader: `GameEntityEntryReader` and `PlayerEntryReader`. */
  const ChildReaders: seq<ChildReader> := [GameEntityReader, PlayerReader]

  /** No line is accepted by both child readers, so the order in which the set yields them does not matter. */
  lemma ChildReadersDisjoint(line: string)
    ensures !(ChildParsable(GameEntityReader, line) && ChildParsable(PlayerReader, line))
  {
    var p := LogLineUtils.PowerPrefix;
    if ChildParsable(GameEntityReader, line) && ChildParsable(PlayerReader, line) {
      CharAfter(line, p, "    GameEntity", 4);
      CharAfter(line, p, "    Player", 4);
    }
  }

  lemma CharAfter(line: string, p: string, q: string, k: nat)
    requires StartsWith(line, p + q) && k < |q|
    ensures line[|p| + k] == q[k]
  {
    assert line[|p| + k] == (p + q)[|p| + k];
  }

  /**
   * The child set is a `HashSet`, whose order is unspecified; since no line
   * is accepted by both readers, either order gives the same outcome.
   */
  lemma ChildReaderOrder(line: string, s: PeekState)
    requires Valid(s)
    ensures TryReaders(ChildReaders, line, ChildAccepts, ChildParse, s)
         == TryReaders([PlayerReader, GameEntityReader], line, ChildAccepts, ChildParse, s)
  {
    ChildParseAdvances();
    ChildReadersDisjoint(line);
    var keep := c => ChildAccepts(c, line);
    OnlyAcceptingReadersRun(ChildReaders, line, ChildAccepts, ChildParse, s);
    OnlyAcceptingReadersRun([PlayerReader, GameEntityReader], line, ChildAccepts, ChildParse, s);
    assert ChildReaders == [GameEntityReader] + [PlayerReader];
    assert [PlayerReader, GameEntityReader] == [PlayerReader] + [GameEntityReader];
    IteratorUtils.FilterAppend([GameEntityReader], [PlayerReader], keep);
    IteratorUtils.FilterAppend([PlayerReader], [GameEntityReader], keep);
  }

  // ---------------------------------------------------------------------
  // CreateGameEntryReader
  // ---------------------------------------------------------------------

  /**
   * The reader `CreateGameEntryReader.parse` builds over the line `first`
   * and the parent's `readLine`, through the overload of
   * `fromInputAndExtraLineReader` that takes entry readers (that overload is
   * not part of this model; its behaviour is taken from the call): its log
   * is `first`, then the lines the parent still holds, each pulled from the
   * parent only when the nested reader asks for it.
   */
  function Nested(first: string, parent: PeekState): (n: PeekState)
    requires Valid(parent)
    ensures Valid(n) && n.pos == 0 && Memory(n) == [] && PeekedLines(n) == []
  {
    PeekState([first] + parent.source[parent.pos..], 0, 0, 0)
  }

  /**
   * The parent after the nested reader `n` pulled `Pulled(n) - 1` lines from
   * it through `readLine`: they are consumed and recorded in the parent,
   * whether the nested reader consumed them or only peeked at them.
   */
  function Resume(parent: PeekState, n: PeekState): (r: PeekState)
    requires Valid(parent) && Valid(n) && |n.source| == 1 + |parent.source| - parent.pos
    ensures Advanced(parent, r)
    ensures r.pos == parent.pos + (if Pulled(n) == 0 then 0 else Pulled(n) - 1)
  {
    var k := if Pulled(n) == 0 then 0 else Pulled(n) - 1;
    parent.(pos := parent.pos + k, peeked := if parent.peeked > k then parent.peeked - k else 0)
  }

  /** The nested `readEntry`, over the two child readers. */
  function ReadChild(n: PeekState): (r: Reading)
    requires Valid(n)
    ensures r.NoMoreLines? <==> n.pos == |n.source|
    ensures r.EntryRead? || r.NotReadable? ==> Follows(n, r.state) && n.pos < r.state.pos
  {
    ChildParseAdvances();
    ReadEntry(ChildReaders, ChildAccepts, ChildParse, n)
  }

  /**
   * The loop of `CreateGameEntryReader.parse` after the game entity: read
   * nested entries until `NoMoreInputException`; an entry that is not a
   * player is a `ClassCastException`; `NotReadableException` becomes
   * `NotParsableException`.
   */
  function ReadPlayers(n: PeekState): (r: Outcome<seq<LogEntry>>)
    requires Valid(n)
    ensures !r.Crash? ==> Follows(n, r.state) && |r.state.source| == |n.source|
    ensures r.Ok? ==> r.state.pos == |n.source| && forall i :: 0 <= i < |r.value| ==> r.value[i].Player?
    decreases |n.source| - n.pos
  {
    var child := ReadChild(n);
    if child.NoMoreLines? then Ok([], n)
    else if child.Crashed? then Crash
    else if child.NotReadable? then Fail(child.state)
    else if !child.entry.Player? then Crash
    else
      var rest := ReadPlayers(child.state);
      if rest.Ok? then Ok([child.entry] + rest.value, rest.state) else rest
  }

  /**
   * `CreateGameEntryReader.parse`: read one more line, build the nested
   * reader over it and the rest of the parent, read the game entity, then
   * players until the nested reader runs out of lines. The parent is left
   * after every line the nested reader pulled.
   */
  function ParseCreateGame(s: PeekState): (r: Outcome<LogEntry>)
    requires Valid(s)
    ensures !r.Crash? ==> Advanced(s, r.state)
    ensures r.Ok? ==> r.state.pos == |s.source|
    ensures r.Ok? ==> r.value.CreateGame? && r.value.gameEntity.GameEntity?
                      && forall i :: 0 <= i < |r.value.players| ==> r.value.players[i].Player?
  {
    var read := ReadLine(s);
    if read.NoMoreInput? then Fail(s)
    else
      var t := read.state;
      var gameEntity := ReadChild(Nested(read.value, t));
      if gameEntity.NotReadable? then Fail(Resume(t, gameEntity.state))
      else if !gameEntity.EntryRead? || !gameEntity.entry.GameEntity? then Crash
      else
        var players := ReadPlayers(gameEntity.state);
        if players.Crash? then Crash
        else if players.Fail? then Fail(Resume(t, players.state))
        else Ok(CreateGame(0, gameEntity.entry, players.value), Resume(t, players.state))
  }

  // ---------------------------------------------------------------------
  // The top-level readers
  // ---------------------------------------------------------------------

  /**
   * The entry readers: those of the tests (`FixtureReader`: accepts the line
   * `name`, reads the lines `expected`, then peeks `peeks` times; the START
   * reader) and `CreateGameEntryReader`.
   */
  datatype EntryReader =
    | FixtureReader(name: string, expected: seq<string>, peeks: nat)
    | InfiniteReader(start: string)
    | CreateGameReader

  predicate IsParsable(p: EntryReader, line: string) {
    match p
    case FixtureReader(name, _, _) => line == name
    case InfiniteReader(start) => line == start
    case CreateGameReader => line == CreateGameLine
  }

  /** `parse` of each reader, on the line `readEntry` read and the reader after it. */
  function Parse(p: EntryReader, line: string, s: PeekState): (r: Outcome<LogEntry>)
    requires Valid(s)
    ensures !r.Crash? ==> Advanced(s, r.state)
  {
    match p
    case FixtureReader(name, expected, peeks) =>
      if line != name then Fail(s)
      else
        (match ReadExpected(expected, s)
         case Ok(_, t) => Ok(Fixture(name), PeekTimes(peeks, t))
         case Fail(t) => Fail(t)
         case Crash => Crash)
    case InfiniteReader(start) =>
      if line != start then Fail(s)
      else
        var lines := CollectUntil(start, s);
        Ok(Infinite(lines.value), lines.state)
    case CreateGameReader => ParseCreateGame(s)
  }

  const ReaderAccepts: (EntryReader, string) -> bool := (p, line) => IsParsable(p, line)
  const ReaderParse: (EntryReader, string, PeekState) -> Outcome<LogEntry> :=
    (p, line, s) => if Valid(s) then Parse(p, line, s) else Crash

  lemma ReaderParseAdvances()
    ensures Advances(ReaderParse)
  {
  }

  /** `AbstractLineLogReader.readEntry` over a set of readers. */
  function Read(readers: seq<EntryReader>, s: PeekState): (r: Reading)
    requires Valid(s)
    ensures r.NoMoreLines? <==> s.pos == |s.source|
    ensures r.EntryRead? || r.NotReadable? ==> Follows(s, r.state) && s.pos < r.state.pos && Memory(r.state) == []
    ensures r.NotReadable? ==> && s.mark + |r.lines| == r.state.pos
                               && forall i :: 0 <= i < |r.lines| ==> r.lines[i] == s.source[s.mark + i]
  {
    ReaderParseAdvances();
    var r := ReadEntry(readers, ReaderAccepts, ReaderParse, s);
    assert r.NotReadable? ==> r.lines == s.source[s.mark..r.state.pos];
    r
  }
}
