/**
 * The entry-resolution engine of `AbstractLogReader.readNextEntry` and the
 * entry parsers it drives, as functions on the state of the reader they read
 * from (`LineReaders.ReaderState`).
 *
 * `readNextEntry` consumes and records one line, hands it to every parser
 * whose `isParsable` accepts it, in the order of the parser set, and returns
 * the first entry a parser builds. A parser that throws `NotParsableException`
 * or `NoSuchElementException` is skipped and the lines it consumed stay
 * consumed. When every parser fails, `NotReadableException` carries every line
 * recorded since the entry began and one cause per failed parser. Any other
 * exception escapes: that is `Crash`.
 *
 * The block parsers (`ACTION_START`, `CREATE_GAME`) read their children with a
 * nested reader built by `LogReaderUtils.fromInputAndExtraLineReader`, which
 * makes the engine mutually recursive.
 */
module EntryParsing {
  import opened Wrappers
  import opened Text
  import opened LogLineUtils
  import EntityObjects
  import opened LogEntries
  import opened PowerGrammar
  import opened LineReaders
  import opened LogReaderUtils
  import opened TagBlocks
  import IteratorUtils

  /** The outcome of `readNextEntry`. */
  datatype EntryResult =
    | EntryRead(entry: LogEntry, state: ReaderState)
    | NotReadable(lines: seq<string>, causes: seq<Cause>, state: ReaderState)
    | NoMoreLines(state: ReaderState)  // the first read throws NoSuchElementException
    | EntryCrashed

  /**
   * The entry parsers. A restricted parser (`createForIndentation(n)`) accepts
   * a header only when its content is indented by exactly `indentation`
   * spaces; an unrestricted one (`create()`) accepts any indentation.
   */
  datatype Parser =
    | FixtureParser(name: string, expected: seq<string>, peeks: bool)  // the A/B/C/D parsers of the reader tests
    | InfiniteParser(start: string)                                   // the tests' START parser
    | GameEntityParser(restricted: bool, indentation: nat)
    | PlayerParser
    | ShowEntityParser(restricted: bool, indentation: nat)
    | HideEntityParser(restricted: bool, indentation: nat)
    | FullEntityParser
    | TagChangeParser
    | TransitioningParser(indentation: nat)                           // always restricted
    | ActionStartParser(restricted: bool, indentation: nat, parsers: seq<Parser>)
    | CreateGameParser

  /** `isParsable`: the cheap test `readNextEntry` applies before calling `parse`. */
  predicate IsParsable(p: Parser, line: string) {
    match p
    case FixtureParser(name, _, _) => line == name
    case InfiniteParser(start) => line == start
    case GameEntityParser(restricted, indentation) =>
      GameEntityHeader(line).Some? && IsValidIndentation(restricted, indentation, line) == Some(true)
    case PlayerParser => PlayerHeader(line).Some?
    case ShowEntityParser(restricted, indentation) =>
      ShowEntityHeader(line).Some? && IsValidIndentation(restricted, indentation, line) == Some(true)
    case HideEntityParser(restricted, indentation) =>
      HideEntityLine(line).Some? && IsValidIndentation(restricted, indentation, line) == Some(true)
    case FullEntityParser => StartsWith(line, FullEntityPrefix)
    case TagChangeParser => StartsWith(line, TagChangePrefix)
    case TransitioningParser(indentation) =>
      TransitioningLine(line).Some? && IsValidIndentation(true, indentation, line) == Some(true)
    case ActionStartParser(restricted, indentation, _) =>
      ActionStartHeader(line).Some? && IsValidIndentation(restricted, indentation, line) == Some(true)
    case CreateGameParser => CreateGameHeader(line).Some?
  }

  /** The parsers whose `isParsable` accepts `line`. */
  function Accepts(line: string): Parser -> bool {
    p => IsParsable(p, line)
  }

  /**
   * `isParsable` never throws: a line matching a header pattern has a
   * content part, so the indentation test it goes on to make is defined.
   */
  lemma HeaderHasContent(line: string, prefix: string, keyword: string, delims: seq<string>)
    requires prefix == PowerPrefix || prefix == ZonePrefix
    requires keyword != [] && !InClass(Whitespace, keyword[0])
    requires MatchIndented(line, prefix, keyword, delims).Some?
    ensures Content(line).Some?
  {
    assert line == prefix + line[|prefix|..];
    if prefix == PowerPrefix {
      PowerContent(line[|prefix|..]);
    } else {
      ZoneContent(line[|prefix|..]);
    }
  }

  /**
   * The indentation-restricted parsers accept only headers at their own
   * indentation: for a restricted parser, `isParsable` implies the
   * header's content starts with exactly `indentation` spaces.
   */
  lemma RestrictedAcceptsOwnIndentation(p: Parser, line: string)
    requires p.GameEntityParser? || p.ShowEntityParser? || p.HideEntityParser? || p.ActionStartParser?
    requires p.restricted && IsParsable(p, line)
    ensures NumberOfSpaces(line) == Some(p.indentation)
  {
  }

  /** The fixture parsers: check the header, read the expected lines, then possibly ask whether a line follows. */
  function ParseFixture(name: string, expected: seq<string>, peeks: bool, input: string, s: ReaderState): (r: Outcome<LogEntry>)
    requires Valid(s)
    ensures r.Ok? || r.Fail? ==> Advanced(s, r.state)
  {
    if !StartsWith(input, name) then Fail(NotParsableCause, s)
    else
      var lines := ExpectLines(expected, s);
      if !lines.Ok? then (if lines.Crash? then Crash else Fail(lines.cause, lines.state))
      else if !peeks then Ok(Fixture(name), lines.state)
      else
        var h := HasNextLine(lines.state);
        if h.Crashed? then Crash
        else
          Ok(Fixture(name), h.state)
  }

  /** The START parser of the tests: keeps the lines up to the next line equal to `start`, which it leaves unread. */
  function ParseInfinite(start: string, input: string, s: ReaderState): (r: Outcome<LogEntry>)
    requires Valid(s)
    ensures r.Ok? || r.Fail? ==> Advanced(s, r.state)
  {
    if !StartsWith(input, start) then Fail(NotParsableCause, s)
    else
      var lines := CollectLines(start, s);
      if lines.Ok? then Ok(Infinite(lines.value), lines.state) else Crash
  }

  // ---------------------------------------------------------------------
  // The single-block parsers
  // ---------------------------------------------------------------------

  /** Passes a tag block's outcome on, building the entry from its pairs. */
  function WithTags(block: Outcome<seq<TagValue>>, build: seq<TagValue> -> LogEntry): (r: Outcome<LogEntry>)
    ensures r.Ok? <==> block.Ok?
    ensures r.Ok? ==> r.value == build(block.value) && r.state == block.state
    ensures r.Fail? ==> block.Fail? && r.cause == block.cause && r.state == block.state
  {
    match block
    case Ok(tags, t) => Ok(build(tags), t)
    case Fail(c, t) => Fail(c, t)
    case Crash => Crash
  }

  /** `GameEntityEntryParser.parse`. */
  function ParseGameEntity(restricted: bool, indentation: nat, input: string, s: ReaderState): (r: Outcome<LogEntry>)
    requires Valid(s)
    ensures r.Ok? || r.Fail? ==> Advanced(s, r.state)
  {
    match IsValidIndentation(restricted, indentation, input)
    case None => Crash
    case Some(false) => Fail(NotParsableCause, s)
    case Some(true) =>
      match GameEntityHeader(input)
      case None => Fail(NotParsableCause, s)
      case Some(m) =>
        WithTags(TagBlock(Nested(m.indentation), s), tags => GameEntity(m.indentation, m.groups[0], tags))
  }

  /** `PlayerEntryParser.parse` (and the identical nested parser of `CreateGameEntryParser`). */
  function ParsePlayer(input: string, s: ReaderState): (r: Outcome<LogEntry>)
    requires Valid(s)
    ensures r.Ok? || r.Fail? ==> Advanced(s, r.state)
  {
    match PlayerHeader(input)
    case None => Fail(NotParsableCause, s)
    case Some(m) =>
      var g := m.groups;
      WithTags(TagBlock(Nested(m.indentation), s), tags => Player(m.indentation, g[0], g[1], g[2], g[3], tags))
  }

  /** `ShowEntityEntryParser.parse`. */
  function ParseShowEntity(restricted: bool, indentation: nat, input: string, s: ReaderState): (r: Outcome<LogEntry>)
    requires Valid(s)
    ensures r.Ok? || r.Fail? ==> Advanced(s, r.state)
  {
    match IsValidIndentation(restricted, indentation, input)
    case None => Crash
    case Some(false) => Fail(NotParsableCause, s)
    case Some(true) =>
      match ShowEntityHeader(input)
      case None => Fail(NotParsableCause, s)
      case Some(m) =>
        var g := m.groups;
        WithTags(TagBlock(Nested(m.indentation), s), tags => ShowEntity(m.indentation, EntityObjects.Parse(g[0]), g[1], tags))
  }

  /** `FullEntityEntryParser.parse`. */
  function ParseFullEntity(input: string, s: ReaderState): (r: Outcome<LogEntry>)
    requires Valid(s)
    ensures r.Ok? || r.Fail? ==> Advanced(s, r.state)
  {
    match FullEntityHeader(input)
    case None => Fail(NotParsableCause, s)
    case Some(g) => WithTags(TagBlock(FullEntityStyle, s), tags => FullEntity(g[0], g[1], tags))
  }

  /** `HideEntityEntryParser.parse`: one line, nothing read. */
  function ParseHideEntity(restricted: bool, indentation: nat, input: string, s: ReaderState): (r: Outcome<LogEntry>)
    ensures r.Crash? <==> IsValidIndentation(restricted, indentation, input).None?
    ensures r.Ok? <==> IsValidIndentation(restricted, indentation, input) == Some(true) && HideEntityLine(input).Some?
    ensures r.Ok? ==> r.state == s && r.value.HideEntity?
    ensures r.Fail? ==> r.state == s && r.cause == NotParsableCause
  {
    match IsValidIndentation(restricted, indentation, input)
    case None => Crash
    case Some(false) => Fail(NotParsableCause, s)
    case Some(true) =>
      match HideEntityLine(input)
      case None => Fail(NotParsableCause, s)
      case Some(m) =>
        var g := m.groups;
        Ok(HideEntity(m.indentation, EntityObjects.Parse(g[0]), g[1], g[2]), s)
  }

  /** `TagChangeEntryParser.parse`: one line, nothing read; the entity stays raw text. */
  function ParseTagChange(input: string, s: ReaderState): (r: Outcome<LogEntry>)
    ensures !r.Crash?
    ensures r.Ok? <==> TagChangeLine(input).Some?
    ensures r.Ok? ==> r.state == s && r.value.TagChange?
    ensures r.Fail? ==> r.state == s && r.cause == NotParsableCause
  {
    match TagChangeLine(input)
    case None => Fail(NotParsableCause, s)
    case Some(g) => Ok(TagChange(g[0], g[1], g[2]), s)
  }

  /** `TransitioningEntryParser.parse`: one `[Zone]` line, nothing read. */
  function ParseTransitioning(indentation: nat, input: string, s: ReaderState): (r: Outcome<LogEntry>)
    ensures r.Crash? <==> IsValidIndentation(true, indentation, input).None?
    ensures r.Ok? <==> IsValidIndentation(true, indentation, input) == Some(true) && TransitioningLine(input).Some?
    ensures r.Ok? ==> r.state == s && r.value.Transitioning?
    ensures r.Fail? ==> r.state == s && r.cause == NotParsableCause
  {
    match IsValidIndentation(true, indentation, input)
    case None => Crash
    case Some(false) => Fail(NotParsableCause, s)
    case Some(true) =>
      match TransitioningLine(input)
      case None => Fail(NotParsableCause, s)
      case Some(m) => Ok(Transitioning(m.indentation, EntityObjects.Parse(m.groups[0]), m.groups[1]), s)
  }

  // ---------------------------------------------------------------------
  // The child parsers of ACTION_START and CREATE_GAME
  // ---------------------------------------------------------------------

  /**
   * The factory `ActionStartEntryParser.parse` applies, by reflection, to
   * each parser of its set: `createForIndentation(indentation + 4)` when
   * restricted and `create()` otherwise; a nested ACTION_START parser is
   * built over the enclosing parser's own set. Only the GameEntity,
   * ShowEntity, HideEntity and ActionStart parsers declare those factory
   * methods; for any other parser the lookup fails (None).
   */
  function Create(p: Parser, restricted: bool, indentation: nat, parsers: seq<Parser>): (r: Option<Parser>)
    ensures r.Some? <==> p.GameEntityParser? || p.ShowEntityParser? || p.HideEntityParser? || p.ActionStartParser?
    ensures r.Some? ==> && (r.value.GameEntityParser? || r.value.ShowEntityParser? || r.value.HideEntityParser? || r.value.ActionStartParser?)
                        && r.value.restricted == restricted
                        && r.value.indentation == (if restricted then indentation + 4 else 0)
                        && (r.value.ActionStartParser? ==> r.value.parsers == parsers)
                        && p.GameEntityParser? == r.value.GameEntityParser?
                        && p.ShowEntityParser? == r.value.ShowEntityParser?
                        && p.HideEntityParser? == r.value.HideEntityParser?
                        && p.ActionStartParser? == r.value.ActionStartParser?
  {
    var childIndentation := if restricted then indentation + 4 else 0;
    match p
    case GameEntityParser(_, _) => Some(GameEntityParser(restricted, childIndentation))
    case ShowEntityParser(_, _) => Some(ShowEntityParser(restricted, childIndentation))
    case HideEntityParser(_, _) => Some(HideEntityParser(restricted, childIndentation))
    case ActionStartParser(_, _, _) => Some(ActionStartParser(restricted, childIndentation, parsers))
    case _ => None
  }

  /** The child parsers of an ACTION_START parser, in order, or None when one of them has no factory. */
  function ChildParsers(parsers: seq<Parser>, restricted: bool, indentation: nat): (r: Option<seq<Parser>>)
    ensures r.Some? <==> forall i :: 0 <= i < |parsers| ==> Create(parsers[i], restricted, indentation, parsers).Some?
    ensures r.Some? ==> |r.value| == |parsers|
    ensures r.Some? ==> forall i :: 0 <= i < |parsers| ==> r.value[i] == Create(parsers[i], restricted, indentation, parsers).value
  {
    CreateAll(parsers, parsers, restricted, indentation)
  }

  function CreateAll(todo: seq<Parser>, parsers: seq<Parser>, restricted: bool, indentation: nat): (r: Option<seq<Parser>>)
    ensures r.Some? <==> forall i :: 0 <= i < |todo| ==> Create(todo[i], restricted, indentation, parsers).Some?
    ensures r.Some? ==> |r.value| == |todo|
    ensures r.Some? ==> forall i :: 0 <= i < |todo| ==> r.value[i] == Create(todo[i], restricted, indentation, parsers).value
  {
    if todo == [] then Some([])
    else
      match Create(todo[0], restricted, indentation, parsers)
      case None => None
      case Some(first) =>
        match CreateAll(todo[1..], parsers, restricted, indentation)
        case None => None
        case Some(rest) =>
          assert forall i :: 1 <= i < |todo| ==> todo[i] == todo[1..][i - 1];
          Some([first] + rest)
  }

  /** The parser set `CreateGameEntryParser` reads its children with: its nested GameEntity and Player parsers. */
  const CreateGameChildren: seq<Parser> := [GameEntityParser(false, 0), PlayerParser]

  // ---------------------------------------------------------------------
  // The engine
  // ---------------------------------------------------------------------

  /**
   * `readNextEntry` on a reader in state `s`. On success and on
   * `NotReadableException` the record of lines is cleared; the exception
   * carries the lines recorded before plus every line consumed.
   */
  function ReadEntry(parsers: seq<Parser>, s: ReaderState): (r: EntryResult)
    requires Valid(s)
    ensures r.NoMoreLines? <==> !More(s) && !s.crashes
    ensures r.NoMoreLines? ==> r.state == s.(probed := true)
    ensures r.EntryRead? || r.NotReadable? ==>
              && Follows(s, r.state) && s.pos < r.state.pos && Memory(r.state) == []
    ensures r.NotReadable? ==> RecordedUpTo(s, r.state, r.lines)
    decreases |s.source| - s.pos, 1, 0
  {
    var read := ReadNextLine(s);
    if read.Crashed? then EntryCrashed
    else if read.NoSuchElement? then NoMoreLines(read.state)
    else
      TryParsers(parsers, read.value, read.state, [])
  }

  /**
   * The loop of `readNextEntry` over the parser set: `causes` holds the
   * exceptions caught so far, `s` the reader after the first line.
   */
  function TryParsers(parsers: seq<Parser>, line: string, s: ReaderState, causes: seq<Cause>): (r: EntryResult)
    requires Valid(s)
    ensures !r.NoMoreLines?
    ensures r.EntryRead? || r.NotReadable? ==> Follows(s, r.state) && Memory(r.state) == []
    ensures r.NotReadable? ==> RecordedUpTo(s, r.state, r.lines)
    decreases |s.source| - s.pos, 4, |parsers|
  {
    if parsers == [] then NotReadable(Memory(s), causes, Cleared(s))
    else if !IsParsable(parsers[0], line) then TryParsers(parsers[1..], line, s, causes)
    else
      match Parse(parsers[0], line, s)
      case Crash => EntryCrashed
      case Ok(entry, t) => EntryRead(entry, Cleared(t))
      case Fail(c, t) =>
        TryParsers(parsers[1..], line, t, causes + [c])
  }

  /** `parse` of one parser on the header line `input`. */
  function Parse(p: Parser, input: string, s: ReaderState): (r: Outcome<LogEntry>)
    requires Valid(s)
    ensures r.Ok? || r.Fail? ==> Advanced(s, r.state)
    decreases |s.source| - s.pos, 3, 1
  {
    match p
    case FixtureParser(name, expected, peeks) => ParseFixture(name, expected, peeks, input, s)
    case InfiniteParser(start) => ParseInfinite(start, input, s)
    case GameEntityParser(restricted, indentation) => ParseGameEntity(restricted, indentation, input, s)
    case PlayerParser => ParsePlayer(input, s)
    case ShowEntityParser(restricted, indentation) => ParseShowEntity(restricted, indentation, input, s)
    case HideEntityParser(restricted, indentation) => ParseHideEntity(restricted, indentation, input, s)
    case FullEntityParser => ParseFullEntity(input, s)
    case TagChangeParser => ParseTagChange(input, s)
    case TransitioningParser(indentation) => ParseTransitioning(indentation, input, s)
    case ActionStartParser(restricted, indentation, parsers) => ParseActionStart(restricted, indentation, parsers, input, s)
    case CreateGameParser => ParseCreateGame(CreateGameChildren, input, s)
  }

  /**
   * `ActionStartEntryParser.parse`: check the indentation, build the child
   * parsers, take the next line, and read child entries with a nested reader
   * over that line and the following lines indented deeper than
   * `indentation`, until the nested reader has no line left. A child that
   * is not readable makes the block not parsable.
   */
  function ParseActionStart(restricted: bool, indentation: nat, parsers: seq<Parser>, input: string, s: ReaderState): (r: Outcome<LogEntry>)
    requires Valid(s)
    ensures r.Ok? || r.Fail? ==> Advanced(s, r.state)
    decreases |s.source| - s.pos, 3, 0
  {
    match IsValidIndentation(restricted, indentation, input)
    case None => Crash
    case Some(false) => Fail(NotParsableCause, s)
    case Some(true) =>
      match ChildParsers(parsers, restricted, indentation)
      case None => Fail(NotParsableCause, s)
      case Some(children) =>
        var read := ReadNextLine(s);
        if read.Crashed? then Crash
        else if read.NoSuchElement? then Fail(NoSuchElementCause, read.state)
        else
          var t := read.state;
          var c := IndentedBeyond(indentation);
          match ActionStartHeader(input)
          case None => Fail(NotParsableCause, t)
          case Some(m) =>
            var g := m.groups;
            var nested := FromInputAndExtraLineReader(read.value, t, c);
            match CloseScope(read.value, t, c, ReadChildren(children, nested, false))
            case Crash => Crash
            case Fail(cause, after) => Fail(cause, after)
            case Ok(entries, after) =>
              Ok(ActionStart(m.indentation, EntityObjects.Parse(g[0]), g[1], EntityObjects.Parse(g[2]),
                             EntityObjects.Parse(g[3]), entries), after)
  }

  /**
   * `CreateGameEntryParser.parse`: take the next line, and read with a nested
   * reader over it and the following lines indented deeper than 0 one game
   * entity, then players until the nested reader has no line left. An entry
   * of the other kind is a `ClassCastException`. `children` is the parser
   * set of the nested reader; the engine passes `CreateGameChildren`.
   */
  function ParseCreateGame(children: seq<Parser>, input: string, s: ReaderState): (r: Outcome<LogEntry>)
    requires Valid(s)
    ensures r.Ok? || r.Fail? ==> Advanced(s, r.state)
    ensures r.Ok? ==> && r.value.CreateGame? && CreateGameHeader(input) == Some(r.value.indentation)
                      && r.value.gameEntity.GameEntity?
                      && forall i :: 0 <= i < |r.value.players| ==> r.value.players[i].Player?
    decreases |s.source| - s.pos, 3, 0
  {
    var read := ReadNextLine(s);
    if read.Crashed? then Crash
    else if read.NoSuchElement? then Fail(NoSuchElementCause, read.state)
    else
      match CreateGameHeader(input)
      case None => Fail(NotParsableCause, read.state)
      case Some(indentation) => CreateGameBlock(children, indentation, read.value, read.state)
  }

  /**
   * The block of `CreateGameEntryParser.parse` once its header has matched at
   * `indentation` and the next line `line` has been read, leaving the
   * enclosing reader in state `t`.
   */
  function CreateGameBlock(children: seq<Parser>, indentation: nat, line: string, t: ReaderState): (r: Outcome<LogEntry>)
    requires Valid(t) && t.lookahead == 0
    ensures r.Ok? || r.Fail? ==> Advanced(t, r.state)
    ensures r.Ok? ==> && r.value.CreateGame? && r.value.indentation == indentation
                      && r.value.gameEntity.GameEntity?
                      && forall i :: 0 <= i < |r.value.players| ==> r.value.players[i].Player?
    decreases |t.source| - t.pos + 1, 2, 2
  {
    var c := IndentedBeyond(0);
    var nested := FromInputAndExtraLineReader(line, t, c);
    match CloseScope(line, t, c, ReadGame(children, nested))
    case Crash => Crash
    case Fail(cause, after) => Fail(cause, after)
    case Ok(game, after) => Ok(CreateGame(indentation, game.0, game.1), after)
  }

  /**
   * The reading loop of `CreateGameEntryParser.parse` on its nested reader,
   * with the child parser set `parsers`: one game entity, then players until
   * no line is left. An entry of the
   * other kind is a `ClassCastException`; a child that is not readable makes
   * the block not parsable.
   */
  function ReadGame(parsers: seq<Parser>, n: ReaderState): (r: Outcome<(LogEntry, seq<LogEntry>)>)
    requires Valid(n) && More(n)
    ensures r.Ok? || r.Fail? ==> Follows(n, r.state)
    ensures r.Fail? ==> r.cause == NotParsableCause
    ensures r.Ok? ==> !More(r.state) && r.state.probed
    ensures r.Ok? ==> r.value.0.GameEntity? && forall i :: 0 <= i < |r.value.1| ==> r.value.1[i].Player?
    decreases |n.source| - n.pos, 2, 1
  {
    var first := ReadEntry(parsers, n);
    if first.EntryCrashed? then Crash
    else if first.NoMoreLines? then assert false; Crash
    else if first.NotReadable? then Fail(NotParsableCause, first.state)
    else if !first.entry.GameEntity? then Crash
    else
      var players := ReadChildren(parsers, first.state, true);
      if players.Crash? then Crash
      else if players.Fail? then Fail(NotParsableCause, players.state)
      else Ok((first.entry, players.value), players.state)
  }

  /**
   * The enclosing reader once a block parser's nested reader (over `input`
   * and the lines of `t` satisfying `c`) has read the block's children: the
   * lines the nested reader pulled are consumed, and a child that was not
   * readable makes the block not parsable. A block read to its end has
   * consumed its whole scope.
   */
  function CloseScope<T>(input: string, t: ReaderState, c: LineCondition, children: Outcome<T>): (r: Outcome<T>)
    requires Valid(t) && t.lookahead == 0
    requires children.Ok? || children.Fail? ==> Follows(FromInputAndExtraLineReader(input, t, c), children.state)
    requires children.Ok? ==> !More(children.state) && children.state.probed
    ensures r.Crash? <==> children.Crash?
    ensures r.Ok? || r.Fail? ==> Advanced(t, r.state)
    ensures r.Fail? ==> r.cause == NotParsableCause
    ensures r.Ok? ==> && children.Ok? && r.value == children.value
                      && r.state.pos - t.pos == |TakeWhile(c, Upcoming(t), t.crashes).lines|
                      && (r.state.lookahead == 1 <==> More(r.state))
  {
    if children.Crash? then Crash
    else
      var nested := FromInputAndExtraLineReader(input, t, c);
      NestedPullsFromParent(input, t, c, children.state);
      var after := Resume(t, nested, children.state);
      if children.Fail? then Fail(NotParsableCause, after) else Ok(children.value, after)
  }

  /**
   * `while (logReader.hasNextEntry()) add(logReader.readNextEntry())` on a
   * nested reader; with `playersOnly`, every entry is cast to a player entry.
   * It ends only once the nested reader has probed past its last line.
   */
  function ReadChildren(parsers: seq<Parser>, n: ReaderState, playersOnly: bool): (r: Outcome<seq<LogEntry>>)
    requires Valid(n)
    ensures r.Ok? || r.Fail? ==> Follows(n, r.state)
    ensures r.Fail? ==> r.cause == NotParsableCause
    ensures r.Ok? ==> !More(r.state) && r.state.probed
    ensures r.Ok? && playersOnly ==> forall i :: 0 <= i < |r.value| ==> r.value[i].Player?
    decreases |n.source| - n.pos, 2, 0
  {
    var h := HasNextLine(n);
    if h.Crashed? then Crash
    else if !h.value then Ok([], h.state)
    else
      var entry := ReadEntry(parsers, h.state);
      if entry.EntryCrashed? then Crash
      else if entry.NoMoreLines? then assert false; Crash
      else if entry.NotReadable? then
        Fail(NotParsableCause, entry.state)
      else if playersOnly && !entry.entry.Player? then Crash
      else
        var rest := ReadChildren(parsers, entry.state, playersOnly);
        if rest.Crash? then Crash
        else
          if rest.Fail? then rest else Ok([entry.entry] + rest.value, rest.state)
  }

  // ---------------------------------------------------------------------
  // Properties of the engine
  // ---------------------------------------------------------------------

  /**
   * Only the parsers whose `isParsable` accepts the line take part: running
   * the loop over the whole set gives the same outcome as running it over
   * the accepting parsers alone, in their order.
   */
  lemma {:induction false} OnlyAcceptingParsersRun(parsers: seq<Parser>, line: string, s: ReaderState, causes: seq<Cause>)
    requires Valid(s)
    ensures TryParsers(parsers, line, s, causes) == TryParsers(IteratorUtils.Filter(parsers, Accepts(line)), line, s, causes)
    decreases |parsers|
  {
    if parsers != [] {
      var accepting := IteratorUtils.Filter(parsers, Accepts(line));
      var tail := IteratorUtils.Filter(parsers[1..], Accepts(line));
      if IsParsable(parsers[0], line) {
        assert accepting == [parsers[0]] + tail;
        assert accepting[0] == parsers[0] && accepting[1..] == tail;
        match Parse(parsers[0], line, s)
        case Crash =>
        case Ok(_, _) =>
        case Fail(c, t) => OnlyAcceptingParsersRun(parsers[1..], line, t, causes + [c]);
      } else {
        assert accepting == tail;
        OnlyAcceptingParsersRun(parsers[1..], line, s, causes);
      }
    }
  }

  /**
   * When no parser builds an entry, one exception is kept per parser that
   * accepted the line, after those caught before.
   */
  lemma {:induction false} OneCausePerAcceptingParser(parsers: seq<Parser>, line: string, s: ReaderState, causes: seq<Cause>)
    requires Valid(s)
    requires TryParsers(parsers, line, s, causes).NotReadable?
    ensures var r := TryParsers(parsers, line, s, causes);
            |r.causes| == |causes| + |IteratorUtils.Filter(parsers, Accepts(line))| && r.causes[..|causes|] == causes
    decreases |parsers|
  {
    if parsers != [] {
      var tail := IteratorUtils.Filter(parsers[1..], Accepts(line));
      if IsParsable(parsers[0], line) {
        assert IteratorUtils.Filter(parsers, Accepts(line)) == [parsers[0]] + tail;
        var t := Parse(parsers[0], line, s);
        OneCausePerAcceptingParser(parsers[1..], line, t.state, causes + [t.cause]);
        var r := TryParsers(parsers[1..], line, t.state, causes + [t.cause]);
        assert r.causes[..|causes|] == (r.causes[..|causes| + 1])[..|causes|];
      } else {
        OneCausePerAcceptingParser(parsers[1..], line, s, causes);
      }
    }
  }

  /**
   * `readNextEntry` consumes one line and consults only the parsers that
   * accept it; when it fails, the exception holds one cause per such parser
   * and every line consumed, starting with that one.
   */
  lemma NotReadableReport(parsers: seq<Parser>, s: ReaderState)
    requires Valid(s) && ReadEntry(parsers, s).NotReadable?
    ensures More(s)
    ensures |ReadEntry(parsers, s).causes| == |IteratorUtils.Filter(parsers, Accepts(s.source[s.pos]))|
    ensures ReadEntry(parsers, s).lines[..|Memory(s)| + 1] == Memory(s) + [s.source[s.pos]]
  {
    var read := ReadNextLine(s);
    var r := TryParsers(parsers, read.value, read.state, []);
    assert ReadEntry(parsers, s) == r;
    OneCausePerAcceptingParser(parsers, read.value, read.state, []);
    SlicePrefix(s.source, s.mark, s.pos, r.state.pos);
  }

  lemma SlicePrefix<T>(xs: seq<T>, a: nat, b: nat, c: nat)
    requires a <= b < c <= |xs|
    ensures xs[a..c][..b - a + 1] == xs[a..b] + [xs[b]]
  {
  }

  /**
   * An entry comes from a parser of the set that accepts the line: the first
   * one, in order, whose `parse` succeeded, after the parsers before it that
   * accepted the line failed.
   */
  lemma {:induction false} EntryFromAcceptingParser(parsers: seq<Parser>, line: string, s: ReaderState, causes: seq<Cause>)
    requires Valid(s)
    requires TryParsers(parsers, line, s, causes).EntryRead?
    ensures var r := TryParsers(parsers, line, s, causes);
            exists i, t :: EntryFrom(parsers, line, s, i, t, r.entry, r.state)
    decreases |parsers|
  {
    var r := TryParsers(parsers, line, s, causes);
    if !IsParsable(parsers[0], line) {
      assert TryParsers(parsers[1..], line, s, causes) == r;
      EntryFromAcceptingParser(parsers[1..], line, s, causes);
      EntryFromLater(parsers, line, s, s, r.entry, r.state);
    } else {
      var first := Parse(parsers[0], line, s);
      if first.Ok? {
        assert EntryFrom(parsers, line, s, 0, s, r.entry, r.state);
      } else {
        assert TryParsers(parsers[1..], line, first.state, causes + [first.cause]) == r;
        EntryFromAcceptingParser(parsers[1..], line, first.state, causes + [first.cause]);
        EntryFromLater(parsers, line, s, first.state, r.entry, r.state);
      }
    }
  }

  /**
   * `entry` (and the reader `state` after it) is what parser `i` of the set,
   * which accepts `line`, builds from a later state `t` of the reader `s`.
   */
  predicate EntryFrom(parsers: seq<Parser>, line: string, s: ReaderState, i: int, t: ReaderState, entry: LogEntry, state: ReaderState) {
    && 0 <= i < |parsers| && IsParsable(parsers[i], line) && Advanced(s, t) && Valid(t)
    && Parse(parsers[i], line, t).Ok?
    && Parse(parsers[i], line, t).value == entry
    && Cleared(Parse(parsers[i], line, t).state) == state
  }

  /** An entry built by a later parser from a later state is built by a parser of the whole set. */
  lemma EntryFromLater(parsers: seq<Parser>, line: string, s: ReaderState, s': ReaderState, entry: LogEntry, state: ReaderState)
    requires parsers != [] && Valid(s) && Advanced(s, s')
    requires exists i, t :: EntryFrom(parsers[1..], line, s', i, t, entry, state)
    ensures exists i, t :: EntryFrom(parsers, line, s, i, t, entry, state)
  {
    var i, t :| EntryFrom(parsers[1..], line, s', i, t, entry, state);
    assert parsers[i + 1] == parsers[1..][i];
    assert EntryFrom(parsers, line, s, i + 1, t, entry, state);
  }

  /**
   * With no parser at all, `readNextEntry` consumes the first line and fails
   * with exactly that line and no cause; past the last line it throws
   * `NoSuchElementException`.
   */
  lemma EmptyParserSet(s: ReaderState)
    requires Valid(s) && More(s)
    ensures ReadEntry([], s) == NotReadable(Memory(s) + [s.source[s.pos]], [], Cleared(ReadNextLine(s).state))
  {
    var read := ReadNextLine(s);
    ReadRecords(s);
    assert ReadEntry([], s) == TryParsers([], read.value, read.state, []);
  }

  /**
   * The indentation-restricted parsers turn down a header at another
   * indentation, both in `isParsable` and in `parse`, without reading a line.
   */
  lemma WrongIndentationRejected(p: Parser, line: string, s: ReaderState, spaces: nat)
    requires Valid(s)
    requires p.GameEntityParser? || p.ShowEntityParser? || p.HideEntityParser? || p.ActionStartParser? || p.TransitioningParser?
    requires !p.TransitioningParser? ==> p.restricted
    requires NumberOfSpaces(line) == Some(spaces) && spaces != p.indentation
    ensures !IsParsable(p, line)
    ensures Parse(p, line, s) == Fail(NotParsableCause, s)
  {
  }

  /** The HIDE_ENTITY, TAG_CHANGE and TRANSITIONING parsers never read a line. */
  lemma SingleLineParsers(p: Parser, line: string, s: ReaderState)
    requires Valid(s)
    requires p.HideEntityParser? || p.TagChangeParser? || p.TransitioningParser?
    ensures Parse(p, line, s).Ok? || Parse(p, line, s).Fail? ==> Parse(p, line, s).state == s
  {
  }

  /**
   * A GameEntity header is read back exactly by the parser at its
   * indentation: its entity id, with the tags of the block below it; the
   * parser stops where the block stops.
   */
  lemma GameEntityHeaderRoundTrip(ws: string, entityId: string, s: ReaderState)
    requires Valid(s)
    requires forall i :: 0 <= i < |ws| ==> ws[i] == ' '
    ensures var line := GameEntityText(ws, entityId);
            var r := Parse(GameEntityParser(true, |ws|), line, s);
            var block := TagBlock(Nested(|ws|), s);
            && IsParsable(GameEntityParser(true, |ws|), line)
            && (r.Ok? <==> block.Ok?)
            && (r.Ok? ==> r.value == GameEntity(|ws|, entityId, block.value) && r.state == block.state)
  {
    var line := GameEntityText(ws, entityId);
    GameEntityHeaderExact(ws, entityId);
    GameEntityParsed(true, |ws|, line, s);
  }

  /** A header the GameEntity parser's pattern matches, at its indentation, gives the entity with its block's tags. */
  lemma GameEntityParsed(restricted: bool, indentation: nat, line: string, s: ReaderState)
    requires Valid(s)
    requires IsValidIndentation(restricted, indentation, line) == Some(true) && GameEntityHeader(line).Some?
    ensures var m := GameEntityHeader(line).value;
            Parse(GameEntityParser(restricted, indentation), line, s)
              == WithTags(TagBlock(Nested(m.indentation), s), tags => GameEntity(m.indentation, m.groups[0], tags))
  {
  }

  /**
   * A HIDE_ENTITY line is read back field by field by the parser at its
   * indentation: the entity (through `EntityObjectParser`), the tag and the
   * value; no line is read.
   */
  lemma HideEntityRoundTrip(ws: string, entity: string, tag: string, value: string, s: ReaderState)
    requires Valid(s)
    requires forall i :: 0 <= i < |ws| ==> ws[i] == ' '
    requires Unambiguous([entity, tag, value], [" tag=", " value="])
    ensures var line := HideEntityText(ws, entity, tag, value);
            && IsParsable(HideEntityParser(true, |ws|), line)
            && Parse(HideEntityParser(true, |ws|), line, s) == Ok(HideEntity(|ws|, EntityObjects.Parse(entity), tag, value), s)
  {
    HideEntityLineExact(ws, entity, tag, value);
    HideEntityLineParsed(true, |ws|, HideEntityText(ws, entity, tag, value), s);
  }

  /** A header at the indentation of the HIDE_ENTITY parser that its pattern matches gives the entry built from the pattern's groups. */
  lemma HideEntityLineParsed(restricted: bool, indentation: nat, line: string, s: ReaderState)
    requires Valid(s)
    requires IsValidIndentation(restricted, indentation, line) == Some(true)
    requires HideEntityLine(line).Some?
    ensures var g := HideEntityLine(line).value.groups;
            ParseHideEntity(restricted, indentation, line, s)
              == Ok(HideEntity(HideEntityLine(line).value.indentation, EntityObjects.Parse(g[0]), g[1], g[2]), s)
  {
  }

  /** A header at the indentation of a SHOW_ENTITY parser that its pattern matches gives the entry built from the pattern's groups and the tag block after it. */
  lemma ShowEntityLineParsed(restricted: bool, indentation: nat, line: string, s: ReaderState)
    requires Valid(s)
    requires IsValidIndentation(restricted, indentation, line) == Some(true)
    requires ShowEntityHeader(line).Some?
    ensures var m := ShowEntityHeader(line).value;
            ParseShowEntity(restricted, indentation, line, s)
              == WithTags(TagBlock(Nested(m.indentation), s), tags => ShowEntity(m.indentation, EntityObjects.Parse(m.groups[0]), m.groups[1], tags))
  {
  }

  /** A header at the indentation of a TRANSITIONING parser that its pattern matches gives the entry built from the pattern's groups. */
  lemma TransitioningLineParsed(indentation: nat, line: string, s: ReaderState)
    requires Valid(s)
    requires IsValidIndentation(true, indentation, line) == Some(true)
    requires TransitioningLine(line).Some?
    ensures var m := TransitioningLine(line).value;
            ParseTransitioning(indentation, line, s)
              == Ok(Transitioning(m.indentation, EntityObjects.Parse(m.groups[0]), m.groups[1]), s)
  {
  }

  /** A TAG_CHANGE line is read back field by field; the entity stays raw text and no line is read. */
  lemma TagChangeRoundTrip(entity: string, tag: string, value: string, s: ReaderState)
    requires Valid(s)
    requires Unambiguous([entity, tag, value], [" tag=", " value="])
    ensures var line := TagChangeText(entity, tag, value);
            && IsParsable(TagChangeParser, line)
            && Parse(TagChangeParser, line, s) == Ok(TagChange(entity, tag, value), s)
  {
    TagChangeLineExact(entity, tag, value);
  }

  /**
   * A TRANSITIONING line is read back field by field by the parser at its
   * indentation: the entity (through `EntityObjectParser`) and the zone; no
   * line is read.
   */
  lemma TransitioningRoundTrip(ws: string, entity: string, zone: string, s: ReaderState)
    requires Valid(s)
    requires forall i :: 0 <= i < |ws| ==> ws[i] == ' '
    requires Unambiguous([entity, zone], [" to "])
    ensures var line := TransitioningText(ws, entity, zone);
            && IsParsable(TransitioningParser(|ws|), line)
            && Parse(TransitioningParser(|ws|), line, s) == Ok(Transitioning(|ws|, EntityObjects.Parse(entity), zone), s)
  {
    TransitioningLineExact(ws, entity, zone);
    TransitioningLineParsed(|ws|, TransitioningText(ws, entity, zone), s);
  }

  /**
   * A SHOW_ENTITY header is read back field by field by the parser at its
   * indentation: the entity (through `EntityObjectParser`) and the card id,
   * with the tags of the block below it; the parser stops where the block
   * stops.
   */
  lemma ShowEntityRoundTrip(ws: string, entity: string, cardId: string, s: ReaderState)
    requires Valid(s)
    requires forall i :: 0 <= i < |ws| ==> ws[i] == ' '
    requires Unambiguous([entity, cardId], [" CardID="])
    ensures var line := ShowEntityText(ws, entity, cardId);
            var r := Parse(ShowEntityParser(true, |ws|), line, s);
            var block := TagBlock(Nested(|ws|), s);
            && IsParsable(ShowEntityParser(true, |ws|), line)
            && (r.Ok? <==> block.Ok?)
            && (r.Ok? ==> r.value == ShowEntity(|ws|, EntityObjects.Parse(entity), cardId, block.value) && r.state == block.state)
  {
    ShowEntityHeaderExact(ws, entity, cardId);
    ShowEntityLineParsed(true, |ws|, ShowEntityText(ws, entity, cardId), s);
  }

  /**
   * A Player header is read back field by field at any indentation: the
   * entity id, the player id and both halves of the account id, with the
   * tags of the block below it.
   */
  lemma PlayerRoundTrip(ws: string, entityId: string, playerId: string, hi: string, lo: string, tail: string, s: ReaderState)
    requires Valid(s)
    requires forall i :: 0 <= i < |ws| ==> InClass(Whitespace, ws[i])
    requires Unambiguous([entityId, playerId, hi, lo, tail], PlayerDelimiters)
    ensures var line := PowerPrefix + ws + PlayerKeyword + PlayerFieldsText(entityId, playerId, hi, lo, tail);
            var r := Parse(PlayerParser, line, s);
            var block := TagBlock(Nested(|ws|), s);
            && IsParsable(PlayerParser, line)
            && (r.Ok? <==> block.Ok?)
            && (r.Ok? ==> r.value == Player(|ws|, entityId, playerId, hi, lo, block.value) && r.state == block.state)
  {
    PlayerHeaderExact(ws, entityId, playerId, hi, lo, tail);
  }

  /**
   * A FULL_ENTITY header is read back field by field: the id and the card
   * id, with the tags of the block below it.
   */
  lemma FullEntityRoundTrip(id: string, cardId: string, s: ReaderState)
    requires Valid(s)
    requires Unambiguous([id, cardId], [" CardID="])
    ensures var line := FullEntityText(id, cardId);
            var r := Parse(FullEntityParser, line, s);
            var block := TagBlock(FullEntityStyle, s);
            && IsParsable(FullEntityParser, line)
            && (r.Ok? <==> block.Ok?)
            && (r.Ok? ==> r.value == FullEntity(id, cardId, block.value) && r.state == block.state)
  {
    FullEntityHeaderExact(id, cardId);
  }

  // ---------------------------------------------------------------------
  // A CREATE_GAME block read back
  // ---------------------------------------------------------------------

  /** The header line a child of CREATE_GAME is written as: its indentation in spaces, then its fields. */
  function ChildHeaderText(e: LogEntry): string
    requires e.GameEntity? || e.Player?
  {
    if e.GameEntity? then GameEntityText(Spaces(e.indentation), e.entityId)
    else PowerPrefix + Spaces(e.indentation) + PlayerKeyword + PlayerFieldsText(e.entityId, e.playerId, e.hi, e.lo, "")
  }

  /**
   * `lines` are the block of the child entry `e`: its header, then one tag
   * line per tag. A player's fields hold no delimiter of its pattern where
   * the pattern would cut them differently.
   */
  predicate ChildBlock(lines: seq<string>, e: LogEntry) {
    && (e.GameEntity? || e.Player?)
    && |lines| >= 1 && lines[0] == ChildHeaderText(e)
    && (e.Player? ==> Unambiguous([e.entityId, e.playerId, e.hi, e.lo, ""], PlayerDelimiters))
    && TagsOf(Nested(e.indentation), lines[1..], e.tags)
  }

  /**
   * `lines` are the blocks of `entries`, one after another, each header
   * indented no deeper than the one before. Stated through `LayoutOf` as a
   * single fact, so that a proof obligation about it is not split into one
   * obligation per line of the definition.
   */
  predicate Layout(lines: seq<string>, entries: seq<LogEntry>) {
    LayoutOf(lines, entries) == true
  }

  /** The definition of `Layout`, block by block. */
  predicate LayoutOf(lines: seq<string>, entries: seq<LogEntry>)
    decreases |entries|
  {
    if entries == [] then lines == []
    else
      var e := entries[0];
      && (e.GameEntity? || e.Player?)
      && 1 + |e.tags| <= |lines|
      && ChildBlock(lines[..1 + |e.tags|], e)
      && (|entries| > 1 ==> (entries[1].GameEntity? || entries[1].Player?) && entries[1].indentation <= e.indentation)
      && LayoutOf(lines[1 + |e.tags|..], entries[1..])
  }

  /** A child header is indented deeper than `depth` exactly when its entry's indentation is. */
  lemma ChildHeaderDepth(e: LogEntry, depth: nat)
    requires e.GameEntity? || e.Player?
    ensures Evaluate(IndentedBeyond(depth), ChildHeaderText(e)) == Some(e.indentation > depth)
  {
    var ws := Spaces(e.indentation);
    if e.GameEntity? {
      assert GameEntityKeyword[0] == 'G';
      assert GameEntityText(ws, e.entityId) == PowerPrefix + (ws + (GameEntityKeyword + e.entityId));
      HeaderDepth(ws, GameEntityKeyword, e.entityId, depth);
    } else {
      var rest := PlayerFieldsText(e.entityId, e.playerId, e.hi, e.lo, "");
      assert PlayerKeyword[0] == 'P';
      assert PowerPrefix + ws + PlayerKeyword + rest == PowerPrefix + (ws + (PlayerKeyword + rest));
      HeaderDepth(ws, PlayerKeyword, rest, depth);
    }
  }

  /** A `[Power]` line whose content is `ws` spaces then a keyword is indented deeper than `depth` exactly when `|ws|` is. */
  lemma HeaderDepth(ws: string, keyword: string, rest: string, depth: nat)
    requires forall i :: 0 <= i < |ws| ==> ws[i] == ' '
    requires keyword != [] && keyword[0] != ' '
    ensures Evaluate(IndentedBeyond(depth), PowerPrefix + (ws + (keyword + rest))) == Some(|ws| > depth)
  {
    assert (keyword + rest)[0] == keyword[0];
    LeadingSpaces(ws, keyword + rest);
    PowerContent(ws + (keyword + rest));
    IndentedBeyondHolds(depth, PowerPrefix + (ws + (keyword + rest)));
  }

  /** A line deeper than some depth is deeper than 0. */
  lemma DeeperThanZero(depth: nat, line: string)
    requires Evaluate(IndentedBeyond(depth), line) == Some(true)
    ensures Evaluate(IndentedBeyond(0), line) == Some(true)
  {
  }

  /** A layout starts with the block of its first entry, followed by the layout of the rest. */
  lemma LayoutHead(lines: seq<string>, entries: seq<LogEntry>)
    requires entries != [] && Layout(lines, entries)
    ensures var e := entries[0];
            && (e.GameEntity? || e.Player?) && 1 + |e.tags| <= |lines|
            && ChildBlock(lines[..1 + |e.tags|], e)
            && (|entries| > 1 ==> (entries[1].GameEntity? || entries[1].Player?) && entries[1].indentation <= e.indentation)
            && Layout(lines[1 + |e.tags|..], entries[1..])
  {
  }

  /** A layout with a line in it holds at least one entry, and starts with that entry's header. */
  lemma LayoutFirstLine(lines: seq<string>, entries: seq<LogEntry>)
    requires lines != [] && Layout(lines, entries)
    ensures entries != [] && (entries[0].GameEntity? || entries[0].Player?) && lines[0] == ChildHeaderText(entries[0])
  {
    var e := entries[0];
    assert ChildBlock(lines[..1 + |e.tags|], e);
    assert lines[0] == lines[..1 + |e.tags|][0];
  }

  /** The line after the first block of a layout, if any, is no deeper than that block's header. */
  lemma LayoutBlockEnd(lines: seq<string>, entries: seq<LogEntry>)
    requires entries != [] && Layout(lines, entries)
    ensures var e := entries[0];
            (e.GameEntity? || e.Player?) && 1 + |e.tags| <= |lines|
            && (1 + |e.tags| < |lines| ==> Evaluate(IndentedBeyond(e.indentation), lines[1 + |e.tags|]) == Some(false))
  {
    var e := entries[0];
    var k := 1 + |e.tags|;
    LayoutHead(lines, entries);
    if k < |lines| {
      LayoutFirstLine(lines[k..], entries[1..]);
      assert lines[k] == lines[k..][0];
      ChildHeaderDepth(entries[1..][0], e.indentation);
    }
  }

  /** Every line of a layout of indented entries is indented deeper than 0. */
  lemma {:induction false} LayoutIndented(lines: seq<string>, entries: seq<LogEntry>)
    requires Layout(lines, entries)
    requires forall i :: 0 <= i < |entries| ==> (entries[i].GameEntity? || entries[i].Player?) && entries[i].indentation > 0
    ensures entries != [] ==> lines != []
    ensures forall i :: 0 <= i < |lines| ==> Evaluate(IndentedBeyond(0), lines[i]) == Some(true)
    decreases |entries|
  {
    if entries != [] {
      var e := entries[0];
      var k := 1 + |e.tags|;
      var block := lines[..k];
      assert forall i :: 0 <= i < |entries[1..]| ==> entries[1..][i] == entries[i + 1];
      LayoutIndented(lines[k..], entries[1..]);
      forall i | 0 <= i < |lines|
        ensures Evaluate(IndentedBeyond(0), lines[i]) == Some(true)
      {
        if i == 0 {
          assert lines[0] == block[0];
          ChildHeaderDepth(e, 0);
        } else if i < k {
          assert lines[i] == block[1..][i - 1];
          TagsOfAt(Nested(e.indentation), block[1..], e.tags, i - 1);
          DeeperThanZero(e.indentation, lines[i]);
        } else {
          assert lines[i] == lines[k..][i - k];
        }
      }
    }
  }

  /**
   * The nested reader of CREATE_GAME reads a child block back as its entry
   * and stops right after the block, when the line after it (if any) is no
   * deeper than the block's header.
   */
  lemma ChildEntryRead(m: ReaderState, e: LogEntry)
    requires Valid(m) && !m.crashes && (e.GameEntity? || e.Player?) && m.pos + 1 + |e.tags| <= |m.source|
    requires ChildBlock(m.source[m.pos..][..1 + |e.tags|], e)
    requires BlockClosedAt(e.indentation, m.source, m.pos + 1 + |e.tags|)
    ensures var r := ReadEntry(CreateGameChildren, m);
            r.EntryRead? && r.entry == e && r.state.pos == m.pos + 1 + |e.tags|
  {
    ChildHeaderAt(m.source, m.pos, e);
    ChildBlockTags(m, e);
    ChildHeaderRead(m, e);
  }

  /**
   * The tag block of a child block at the next line of a reader reads back
   * as the entry's tags and ends right after the block, when the line after
   * it (if any) is no deeper than the header.
   */
  lemma ChildBlockTags(m: ReaderState, e: LogEntry)
    requires Valid(m) && !m.crashes && (e.GameEntity? || e.Player?) && m.pos + 1 + |e.tags| <= |m.source|
    requires ChildBlock(m.source[m.pos..][..1 + |e.tags|], e)
    requires BlockClosedAt(e.indentation, m.source, m.pos + 1 + |e.tags|)
    ensures var block := TagBlock(Nested(e.indentation), m.(pos := m.pos + 1, lookahead := 0));
            block.Ok? && block.value == e.tags && block.state.pos == m.pos + 1 + |e.tags|
  {
    TagBlockFrom(e.indentation, m, e.tags);
  }

  /** A child block starting at line `i` starts with the child header. */
  lemma ChildHeaderAt(source: seq<string>, i: nat, e: LogEntry)
    requires (e.GameEntity? || e.Player?) && i + 1 + |e.tags| <= |source|
    requires ChildBlock(source[i..][..1 + |e.tags|], e)
    ensures source[i] == ChildHeaderText(e)
    ensures e.Player? ==> Unambiguous([e.entityId, e.playerId, e.hi, e.lo, ""], PlayerDelimiters)
  {
    TakeOfDrop(source, i, |e.tags|);
  }

  /** The `k` lines after a header at `i` are the next lines of a reader that has read the header. */
  lemma LinesAfterHeader(source: seq<string>, i: nat, k: nat, t: ReaderState)
    requires i + 1 + k <= |source| && t.source == source && t.pos == i + 1
    ensures source[i..][..1 + k][1..] == t.source[t.pos..i + 1 + k]
  {
    TakeOfDrop(source, i, k);
  }

  /** The first `1 + k` elements from `i` on are the element at `i` followed by the `k` after it. */
  lemma TakeOfDrop<T>(xs: seq<T>, i: nat, k: nat)
    requires i + 1 + k <= |xs|
    ensures xs[i..][..1 + k][0] == xs[i]
    ensures xs[i..][..1 + k][1..] == xs[i + 1..i + 1 + k]
  {
  }

  /** A child header followed by a tag block holding the child's tags is read as the child. */
  lemma ChildHeaderRead(m: ReaderState, e: LogEntry)
    requires Valid(m) && More(m) && (e.GameEntity? || e.Player?) && m.source[m.pos] == ChildHeaderText(e)
    requires var block := TagBlock(Nested(e.indentation), m.(pos := m.pos + 1, lookahead := 0));
             block.Ok? && block.value == e.tags
    requires e.Player? ==> Unambiguous([e.entityId, e.playerId, e.hi, e.lo, ""], PlayerDelimiters)
    ensures ReadEntry(CreateGameChildren, m)
         == EntryRead(e, Cleared(TagBlock(Nested(e.indentation), m.(pos := m.pos + 1, lookahead := 0)).state))
  {
    ReadEntryStep(CreateGameChildren, m);
    ChildParsed(e, m.(pos := m.pos + 1, lookahead := 0));
  }

  /** The line at `end`, if there is one, is indented no deeper than `depth`: a block at that depth ends before it. */
  predicate BlockClosedAt(depth: nat, source: seq<string>, end: nat) {
    end < |source| ==> Evaluate(IndentedBeyond(depth), source[end]) == Some(false)
  }

  /** A child's tag block, ended by a line no deeper than its header, is read whole after that header. */
  lemma TagBlockFrom(depth: nat, m: ReaderState, tags: seq<TagValue>)
    requires Valid(m) && !m.crashes && m.pos + 1 + |tags| <= |m.source|
    requires TagsOf(Nested(depth), m.source[m.pos..][..1 + |tags|][1..], tags)
    requires BlockClosedAt(depth, m.source, m.pos + 1 + |tags|)
    ensures TagBlock(Nested(depth), m.(pos := m.pos + 1, lookahead := 0)).Ok?
    ensures TagBlock(Nested(depth), m.(pos := m.pos + 1, lookahead := 0)).value == tags
    ensures TagBlock(Nested(depth), m.(pos := m.pos + 1, lookahead := 0)).state.pos == m.pos + 1 + |tags|
  {
    LinesAfterHeader(m.source, m.pos, |tags|, m.(pos := m.pos + 1, lookahead := 0));
    TagBlockUpTo(depth, m.source, m.(pos := m.pos + 1, lookahead := 0), m.pos + 1 + |tags|, m.source[m.pos..][..1 + |tags|][1..], tags);
  }

  /** A tag block whose lines up to `end` hold `tags`, closed at `end`, is read whole up to `end`. */
  lemma TagBlockUpTo(depth: nat, source: seq<string>, t: ReaderState, end: nat, lines: seq<string>, tags: seq<TagValue>)
    requires Valid(t) && !t.crashes && t.source == source && t.pos <= end <= |source|
    requires lines == t.source[t.pos..end] && TagsOf(Nested(depth), lines, tags)
    requires BlockClosedAt(depth, source, end)
    ensures TagBlock(Nested(depth), t).Ok?
    ensures TagBlock(Nested(depth), t).value == tags
    ensures TagBlock(Nested(depth), t).state.pos == end
  {
    ClosedBlockStops(depth, source, end);
    TagBlockReadsLines(Nested(depth), t, end, lines, tags);
  }

  /** A block closed at `end` fails the tag loop's test there: its loop stops. */
  lemma ClosedBlockStops(depth: nat, source: seq<string>, end: nat)
    requires BlockClosedAt(depth, source, end)
    ensures end < |source| ==> Evaluate(ChildCondition(Nested(depth)), source[end]) == Some(false)
  {
  }

  /** `readNextEntry` on a reader with a line left hands that line to the parser loop. */
  lemma ReadEntryStep(parsers: seq<Parser>, m: ReaderState)
    requires Valid(m) && More(m)
    ensures ReadEntry(parsers, m) == TryParsers(parsers, m.source[m.pos], m.(pos := m.pos + 1, lookahead := 0), [])
  {
  }

  /** The child parsers read a child header back as its entry, with the tags of the block below it. */
  lemma ChildParsed(e: LogEntry, t: ReaderState)
    requires Valid(t) && (e.GameEntity? || e.Player?)
    requires TagBlock(Nested(e.indentation), t).Ok? && TagBlock(Nested(e.indentation), t).value == e.tags
    requires e.Player? ==> Unambiguous([e.entityId, e.playerId, e.hi, e.lo, ""], PlayerDelimiters)
    ensures TryParsers(CreateGameChildren, ChildHeaderText(e), t, [])
         == EntryRead(e, Cleared(TagBlock(Nested(e.indentation), t).state))
  {
    if e.GameEntity? {
      GameEntityHeaderExact(Spaces(e.indentation), e.entityId);
      GameEntityParsed(false, 0, ChildHeaderText(e), t);
      FirstParserReads(CreateGameChildren, ChildHeaderText(e), t);
    } else {
      PlayerChildParsed(e, t, ChildHeaderText(e));
    }
  }

  /** The header of a player is passed over by the game entity parser and read by the player parser with its tags. */
  lemma PlayerChildParsed(e: LogEntry, t: ReaderState, line: string)
    requires Valid(t) && e.Player? && line == ChildHeaderText(e)
    requires TagBlock(Nested(e.indentation), t).Ok? && TagBlock(Nested(e.indentation), t).value == e.tags
    requires Unambiguous([e.entityId, e.playerId, e.hi, e.lo, ""], PlayerDelimiters)
    ensures TryParsers(CreateGameChildren, line, t, []) == EntryRead(e, Cleared(TagBlock(Nested(e.indentation), t).state))
  {
    var ws := Spaces(e.indentation);
    assert forall i :: 0 <= i < |ws| ==> InClass(Whitespace, ws[i]);
    PlayerHeaderExact(ws, e.entityId, e.playerId, e.hi, e.lo, "");
    GameEntityOrPlayer(line);
    PlayerParserSecond(line, t);
    PlayerParsedWith(e, t, line);
  }

  /** A line the game entity parser does not take goes to the player parser. */
  lemma PlayerParserSecond(line: string, t: ReaderState)
    requires Valid(t) && GameEntityHeader(line).None?
    ensures TryParsers(CreateGameChildren, line, t, []) == TryParsers([PlayerParser], line, t, [])
  {
    assert CreateGameChildren[1..] == [PlayerParser];
  }

  /** The player parser reads a player's header as that player, with the tags of its block. */
  lemma PlayerParsedWith(e: LogEntry, t: ReaderState, line: string)
    requires Valid(t) && e.Player?
    requires PlayerHeader(line) == Some(Indented(e.indentation, [e.entityId, e.playerId, e.hi, e.lo, ""]))
    requires TagBlock(Nested(e.indentation), t).Ok? && TagBlock(Nested(e.indentation), t).value == e.tags
    ensures TryParsers([PlayerParser], line, t, []) == EntryRead(e, Cleared(TagBlock(Nested(e.indentation), t).state))
  {
    FirstParserReads([PlayerParser], line, t);
  }

  /** A first parser that accepts the line and builds an entry ends the loop with it. */
  lemma FirstParserReads(parsers: seq<Parser>, line: string, t: ReaderState)
    requires Valid(t) && parsers != [] && IsParsable(parsers[0], line) && Parse(parsers[0], line, t).Ok?
    ensures var r := Parse(parsers[0], line, t);
            TryParsers(parsers, line, t, []) == EntryRead(r.value, Cleared(r.state))
  {
  }

  /** The first block of a layout is read as its entry, and the reader stops right after it. */
  lemma ChildStep(m: ReaderState, entries: seq<LogEntry>)
    requires Valid(m) && !m.crashes && entries != []
    requires Layout(m.source[m.pos..], entries)
    ensures var entry := ReadEntry(CreateGameChildren, m);
            && entry.EntryRead? && entry.entry == entries[0]
            && Valid(entry.state) && !entry.state.crashes
            && entry.state.source == m.source && entry.state.pos == m.pos + 1 + |entries[0].tags|
  {
    LayoutFirstBlockEnd(m.source, m.pos, entries);
    LayoutRest(m.source, m.pos, entries);
    ChildEntryRead(m, entries[0]);
  }

  /** A reader that has read the first block of a layout is left with the layout of the other entries. */
  lemma LayoutAfterBlock(m: ReaderState, entries: seq<LogEntry>, after: ReaderState)
    requires m.pos <= |m.source| && entries != [] && Layout(m.source[m.pos..], entries)
    requires after.source == m.source && after.pos == m.pos + 1 + |entries[0].tags|
    ensures after.pos <= |after.source| && Layout(after.source[after.pos..], entries[1..])
  {
    LayoutRest(m.source, m.pos, entries);
    LayoutSame(after.source[after.pos..], m.source[after.pos..], entries[1..]);
  }

  /** The line after the first block of a layout that starts at `i`, if any, is no deeper than that block's header. */
  lemma LayoutFirstBlockEnd(source: seq<string>, i: nat, entries: seq<LogEntry>)
    requires i <= |source| && entries != [] && Layout(source[i..], entries)
    ensures BlockClosedAt(entries[0].indentation, source, i + 1 + |entries[0].tags|)
  {
    LayoutBlockEnd(source[i..], entries);
  }

  /** After the first block of a layout that starts at `i`, the layout of the other entries starts. */
  lemma LayoutRest(source: seq<string>, i: nat, entries: seq<LogEntry>)
    requires i <= |source| && entries != [] && Layout(source[i..], entries)
    ensures var end := i + 1 + |entries[0].tags|;
            end <= |source| && Layout(source[end..], entries[1..])
  {
    LayoutHead(source[i..], entries);
    DropDrop(source, i, 1 + |entries[0].tags|);
  }

  /** A layout of some lines is a layout of any equal lines. */
  lemma LayoutSame(xs: seq<string>, ys: seq<string>, entries: seq<LogEntry>)
    requires xs == ys && Layout(ys, entries)
    ensures Layout(xs, entries)
  {
  }

  /** Dropping `i` then `k` elements is dropping `i + k`. */
  lemma DropDrop<T>(xs: seq<T>, i: nat, k: nat)
    requires i + k <= |xs|
    ensures xs[i..][k..] == xs[i + k..]
  {
  }

  /** The players' loop of CREATE_GAME reads a layout of player blocks back as exactly those players. */
  lemma {:induction false} PlayersRead(n: ReaderState, players: seq<LogEntry>)
    requires Valid(n) && !n.crashes
    requires Layout(n.source[n.pos..], players)
    requires forall i :: 0 <= i < |players| ==> players[i].Player?
    ensures var r := ReadChildren(CreateGameChildren, n, true);
            r.Ok? && r.value == players
    decreases |players|
  {
    if players == [] {
      ChildrenEnd(CreateGameChildren, n, true);
    } else {
      var h := n.(lookahead := 1);
      ChildStep(h, players);
      var entry := ReadEntry(CreateGameChildren, h);
      LayoutAfterBlock(h, players, entry.state);
      assert forall i :: 0 <= i < |players[1..]| ==> players[1..][i] == players[i + 1];
      PlayersRead(entry.state, players[1..]);
      ChildrenCons(CreateGameChildren, n, true, players[0], players[1..]);
      Recons(players);
    }
  }

  /** The children loop at the end of a log that does not crash reads nothing. */
  lemma ChildrenEnd(parsers: seq<Parser>, n: ReaderState, playersOnly: bool)
    requires Valid(n) && !n.crashes && !More(n)
    ensures ReadChildren(parsers, n, playersOnly).Ok? && ReadChildren(parsers, n, playersOnly).value == []
  {
  }

  /** The children loop reads the entry at the next line, then the rest of the children. */
  lemma ChildrenCons(parsers: seq<Parser>, n: ReaderState, playersOnly: bool, e: LogEntry, rest: seq<LogEntry>)
    requires Valid(n) && More(n)
    requires var entry := ReadEntry(parsers, n.(lookahead := 1));
             && entry.EntryRead? && entry.entry == e && (playersOnly ==> e.Player?)
             && ReadChildren(parsers, entry.state, playersOnly).Ok?
             && ReadChildren(parsers, entry.state, playersOnly).value == rest
    ensures ReadChildren(parsers, n, playersOnly).Ok? && ReadChildren(parsers, n, playersOnly).value == [e] + rest
  {
  }

  /** The reading loop of CREATE_GAME reads a layout of a game entity block then player blocks back as exactly those entries. */
  lemma GameRead(n: ReaderState, entries: seq<LogEntry>)
    requires Valid(n) && !n.crashes
    requires Layout(n.source[n.pos..], entries)
    requires entries != [] && entries[0].GameEntity? && forall i :: 1 <= i < |entries| ==> entries[i].Player?
    ensures More(n)
    ensures ReadGame(CreateGameChildren, n).Ok? && ReadGame(CreateGameChildren, n).value == (entries[0], entries[1..])
  {
    ChildStep(n, entries);
    var first := ReadEntry(CreateGameChildren, n);
    LayoutAfterBlock(n, entries, first.state);
    assert forall i :: 0 <= i < |entries[1..]| ==> entries[1..][i] == entries[i + 1];
    PlayersRead(first.state, entries[1..]);
    GameCons(CreateGameChildren, n, entries[0], entries[1..]);
  }

  /** The reading loop of CREATE_GAME reads a game entity at the next line, then the players after it. */
  lemma GameCons(parsers: seq<Parser>, n: ReaderState, e: LogEntry, players: seq<LogEntry>)
    requires Valid(n) && More(n)
    requires var first := ReadEntry(parsers, n);
             && first.EntryRead? && first.entry == e && e.GameEntity?
             && ReadChildren(parsers, first.state, true).Ok?
             && ReadChildren(parsers, first.state, true).value == players
    ensures ReadGame(parsers, n).Ok? && ReadGame(parsers, n).value == (e, players)
  {
  }

  /**
   * A CREATE_GAME block read back: after a CREATE_GAME header, the block of
   * a game entity then those of its players, all indented, are read as
   * exactly those entries, and the reader stops after the last block when
   * the line after it (if any) is not indented.
   */
  lemma CreateGameRoundTrip(input: string, indentation: nat, s: ReaderState, entries: seq<LogEntry>, end: nat)
    requires Valid(s) && !s.crashes && s.pos <= end <= |s.source|
    requires CreateGameHeader(input) == Some(indentation)
    requires entries != [] && entries[0].GameEntity? && forall i :: 1 <= i < |entries| ==> entries[i].Player?
    requires forall i :: 0 <= i < |entries| ==> (entries[i].GameEntity? || entries[i].Player?) && entries[i].indentation > 0
    requires Layout(s.source[s.pos..end], entries)
    requires end < |s.source| ==> Evaluate(IndentedBeyond(0), s.source[end]) == Some(false)
    ensures var r := ParseCreateGame(CreateGameChildren, input, s);
            && r.Ok? && r.value == CreateGame(indentation, entries[0], entries[1..])
            && r.state.pos == end
  {
    LayoutInScope(s, entries, end);
    NestedScope(s, end);
    var t := s.(pos := s.pos + 1, lookahead := 0);
    var nested := FromInputAndExtraLineReader(s.source[s.pos], t, IndentedBeyond(0));
    LayoutSame(nested.source[nested.pos..], s.source[s.pos..end], entries);
    GameRead(nested, entries);
    CreateGameCons(CreateGameChildren, input, indentation, s, (entries[0], entries[1..]));
  }

  /** A layout of indented entries is not empty, and every line after its first is indented. */
  lemma LayoutInScope(s: ReaderState, entries: seq<LogEntry>, end: nat)
    requires s.pos <= end <= |s.source| && entries != []
    requires forall i :: 0 <= i < |entries| ==> (entries[i].GameEntity? || entries[i].Player?) && entries[i].indentation > 0
    requires Layout(s.source[s.pos..end], entries)
    ensures s.pos < end
    ensures forall j :: s.pos < j < end ==> Evaluate(IndentedBeyond(0), s.source[j]) == Some(true)
  {
    LayoutIndented(s.source[s.pos..end], entries);
    IndentedSlice(s.source, s.pos, end);
  }

  /** When every line of a slice is indented, so is every line of the source in its range. */
  lemma IndentedSlice(source: seq<string>, i: nat, end: nat)
    requires i <= end <= |source|
    requires forall k :: 0 <= k < |source[i..end]| ==> Evaluate(IndentedBeyond(0), source[i..end][k]) == Some(true)
    ensures forall j :: i <= j < end ==> Evaluate(IndentedBeyond(0), source[j]) == Some(true)
  {
    forall j | i <= j < end
      ensures Evaluate(IndentedBeyond(0), source[j]) == Some(true)
    {
      assert source[j] == source[i..end][j - i];
    }
  }

  /** The nested reader of CREATE_GAME holds the header's next line and the indented lines after it, up to the first line not indented. */
  lemma NestedScope(s: ReaderState, end: nat)
    requires Valid(s) && !s.crashes && s.pos < end <= |s.source|
    requires forall j :: s.pos < j < end ==> Evaluate(IndentedBeyond(0), s.source[j]) == Some(true)
    requires end < |s.source| ==> Evaluate(IndentedBeyond(0), s.source[end]) == Some(false)
    ensures var t := s.(pos := s.pos + 1, lookahead := 0);
            var c := IndentedBeyond(0);
            var nested := FromInputAndExtraLineReader(s.source[s.pos], t, c);
            && !nested.crashes && nested.source[nested.pos..] == s.source[s.pos..end]
            && t.pos + |TakeWhile(c, Upcoming(t), t.crashes).lines| == end
  {
    var t := s.(pos := s.pos + 1, lookahead := 0);
    var c := IndentedBeyond(0);
    ScopeUpTo(s.source[s.pos], t, c, end);
    SliceCons(s.source, s.pos, end);
  }

  /** A non-empty slice is its first element followed by the rest. */
  lemma SliceCons<T>(xs: seq<T>, i: nat, j: nat)
    requires i < j <= |xs|
    ensures xs[i..j] == [xs[i]] + xs[i + 1..j]
  {
    assert forall k :: 0 <= k < j - i ==> xs[i..j][k] == ([xs[i]] + xs[i + 1..j])[k];
  }

  /** CREATE_GAME reads its nested reader's game, and the enclosing reader resumes after the block's scope. */
  lemma CreateGameCons(children: seq<Parser>, input: string, indentation: nat, s: ReaderState, game: (LogEntry, seq<LogEntry>))
    requires Valid(s) && More(s) && CreateGameHeader(input) == Some(indentation)
    requires var t := s.(pos := s.pos + 1, lookahead := 0);
             var nested := FromInputAndExtraLineReader(s.source[s.pos], t, IndentedBeyond(0));
             ReadGame(children, nested).Ok? && ReadGame(children, nested).value == game
    ensures var t := s.(pos := s.pos + 1, lookahead := 0);
            var r := ParseCreateGame(children, input, s);
            && r.Ok? && r.value == CreateGame(indentation, game.0, game.1)
            && r.state.pos == t.pos + |TakeWhile(IndentedBeyond(0), Upcoming(t), t.crashes).lines|
  {
    var t := s.(pos := s.pos + 1, lookahead := 0);
    var c := IndentedBeyond(0);
    var nested := FromInputAndExtraLineReader(s.source[s.pos], t, c);
    CloseScopeOk(s.source[s.pos], t, c, ReadGame(children, nested));
    CreateGameBlockValue(children, indentation, s.source[s.pos], t);
    CreateGameHeaderRead(children, input, indentation, s);
  }

  /** A matched CREATE_GAME header reads the next line and goes on with the block. */
  lemma CreateGameHeaderRead(children: seq<Parser>, input: string, indentation: nat, s: ReaderState)
    requires Valid(s) && More(s) && CreateGameHeader(input) == Some(indentation)
    ensures ParseCreateGame(children, input, s)
         == CreateGameBlock(children, indentation, s.source[s.pos], s.(pos := s.pos + 1, lookahead := 0))
  {
    assert ReadNextLine(s) == Done(s.source[s.pos], s.(pos := s.pos + 1, lookahead := 0));
  }

  /** A CREATE_GAME block gives the entry built from the game its closed scope gives, and ends where the scope closes. */
  lemma CreateGameBlockValue(children: seq<Parser>, indentation: nat, line: string, t: ReaderState)
    requires Valid(t) && t.lookahead == 0
    requires var nested := FromInputAndExtraLineReader(line, t, IndentedBeyond(0));
             CloseScope(line, t, IndentedBeyond(0), ReadGame(children, nested)).Ok?
    ensures var nested := FromInputAndExtraLineReader(line, t, IndentedBeyond(0));
            var closed := CloseScope(line, t, IndentedBeyond(0), ReadGame(children, nested));
            var r := CreateGameBlock(children, indentation, line, t);
            && r.Ok? && r.value == CreateGame(indentation, closed.value.0, closed.value.1)
            && r.state == closed.state
  {
  }

  /** A block whose children are read to the end of its scope closes with those children, and the enclosing reader resumes after the scope. */
  lemma CloseScopeOk<T>(input: string, t: ReaderState, c: LineCondition, children: Outcome<T>)
    requires Valid(t) && t.lookahead == 0
    requires children.Ok? && Follows(FromInputAndExtraLineReader(input, t, c), children.state)
    requires !More(children.state) && children.state.probed
    ensures var r := CloseScope(input, t, c, children);
            && r.Ok? && r.value == children.value
            && r.state.pos - t.pos == |TakeWhile(c, Upcoming(t), t.crashes).lines|
  {
  }

  /**
   * An ACTION_START parser that succeeds consumes its header's next line
   * and then exactly the following lines inside its scope: the longest run
   * indented deeper than the parser's own indentation. When a line outside
   * the scope follows, the nested reader's last look-ahead has pulled it into
   * the peek buffer.
   */
  lemma ActionStartConsumesItsScope(restricted: bool, indentation: nat, parsers: seq<Parser>, line: string, s: ReaderState)
    requires Valid(s)
    requires ParseActionStart(restricted, indentation, parsers, line, s).Ok?
    ensures More(s)
    ensures var r := ParseActionStart(restricted, indentation, parsers, line, s).state;
            && r.pos - s.pos == 1 + |TakeWhile(IndentedBeyond(indentation), s.source[s.pos + 1..], s.crashes).lines|
            && (r.lookahead == 1 <==> More(r))
  {
    ActionStartCloses(restricted, indentation, parsers, line, s);
    var read := ReadNextLine(s);
    UpcomingAfterRead(s);
  }

  /** A successful ACTION_START parse ends where its nested reader's scope is closed. */
  lemma ActionStartCloses(restricted: bool, indentation: nat, parsers: seq<Parser>, line: string, s: ReaderState)
    requires Valid(s)
    requires ParseActionStart(restricted, indentation, parsers, line, s).Ok?
    ensures More(s) && ChildParsers(parsers, restricted, indentation).Some?
    ensures var read := ReadNextLine(s);
            var c := IndentedBeyond(indentation);
            var nested := FromInputAndExtraLineReader(read.value, read.state, c);
            var closed := CloseScope(read.value, read.state, c, ReadChildren(ChildParsers(parsers, restricted, indentation).value, nested, false));
            closed.Ok? && ParseActionStart(restricted, indentation, parsers, line, s).state == closed.state
  {
  }

  lemma UpcomingAfterRead(s: ReaderState)
    requires Valid(s) && More(s)
    ensures Upcoming(ReadNextLine(s).state) == s.source[s.pos + 1..]
  {
  }

  /**
   * A CREATE_GAME parser that succeeds consumes its header's next line and
   * then exactly the following lines indented deeper than 0.
   */
  lemma CreateGameConsumesItsScope(children: seq<Parser>, line: string, s: ReaderState)
    requires Valid(s)
    requires ParseCreateGame(children, line, s).Ok?
    ensures More(s)
    ensures var r := ParseCreateGame(children, line, s).state;
            && r.pos - s.pos == 1 + |TakeWhile(IndentedBeyond(0), s.source[s.pos + 1..], s.crashes).lines|
            && (r.lookahead == 1 <==> More(r))
  {
    CreateGameCloses(children, line, s);
    UpcomingAfterRead(s);
  }

  /** A successful CREATE_GAME parse ends where its nested reader's scope is closed. */
  lemma CreateGameCloses(children: seq<Parser>, line: string, s: ReaderState)
    requires Valid(s)
    requires ParseCreateGame(children, line, s).Ok?
    ensures More(s)
    ensures var read := ReadNextLine(s);
            var c := IndentedBeyond(0);
            var nested := FromInputAndExtraLineReader(read.value, read.state, c);
            var closed := CloseScope(read.value, read.state, c, ReadGame(children, nested));
            closed.Ok? && ParseCreateGame(children, line, s).state == closed.state
  {
    var read := ReadNextLine(s);
    var indentation := CreateGameHeader(line).value;
    CreateGameHeaderRead(children, line, indentation, s);
    CreateGameBlockCloses(children, indentation, read.value, read.state);
  }

  /** A CREATE_GAME block that succeeds ends where its nested reader's scope is closed. */
  lemma CreateGameBlockCloses(children: seq<Parser>, indentation: nat, line: string, t: ReaderState)
    requires Valid(t) && t.lookahead == 0
    requires CreateGameBlock(children, indentation, line, t).Ok?
    ensures var nested := FromInputAndExtraLineReader(line, t, IndentedBeyond(0));
            var closed := CloseScope(line, t, IndentedBeyond(0), ReadGame(children, nested));
            closed.Ok? && CreateGameBlock(children, indentation, line, t).state == closed.state
  {
  }

  /**
   * An ACTION_START parser whose set holds a parser with no factory method
   * (Player, FullEntity, TagChange, Transitioning, CreateGame or a test
   * fixture) never builds an entry: the reflective lookup fails before any
   * line is read.
   */
  lemma UnsupportedChildParser(restricted: bool, indentation: nat, parsers: seq<Parser>, k: nat, line: string, s: ReaderState)
    requires Valid(s) && k < |parsers|
    requires !(parsers[k].GameEntityParser? || parsers[k].ShowEntityParser? || parsers[k].HideEntityParser? || parsers[k].ActionStartParser?)
    ensures var r := Parse(ActionStartParser(restricted, indentation, parsers), line, s);
            r.Crash? || r == Fail(NotParsableCause, s)
  {
    assert Create(parsers[k], restricted, indentation, parsers).None?;
  }

  /**
   * The children of a restricted ACTION_START parser sit four spaces deeper
   * and a nested ACTION_START parser shares the enclosing set; the children
   * of an unrestricted one are unrestricted.
   */
  lemma ChildParsersOneLevelDeeper(restricted: bool, indentation: nat, parsers: seq<Parser>, i: nat)
    requires ChildParsers(parsers, restricted, indentation).Some? && i < |parsers|
    ensures var child := ChildParsers(parsers, restricted, indentation).value[i];
            && child.restricted == restricted
            && child.indentation == (if restricted then indentation + 4 else 0)
            && (child.ActionStartParser? <==> parsers[i].ActionStartParser?)
            && (child.ActionStartParser? ==> child.parsers == parsers)
  {
  }

}
