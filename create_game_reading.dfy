/**
 * A CREATE_GAME block read back by the older engine's
 * `CreateGameEntryReader`: the lines of a game entity and its players, each
 * a header followed by one line per tag, are read by the nested reader as
 * exactly those entries, in order, and the whole rest of the log is
 * consumed.
 */
module CreateGameReading {
  import opened Wrappers
  import opened Text
  import opened PeekReaders
  import opened LogEntries
  import opened LogLineUtils
  import opened EntryReaders

  // ---------------------------------------------------------------------
  // The lines of a CREATE_GAME block
  // ---------------------------------------------------------------------

  /** The line of one tag, as `EXTRACT_TAG_VALUE_PATTERN` reads it. */
  function TagLineText(tv: TagValue): string {
    TagPrefix + (tv.tag + (" value=" + tv.value))
  }

  /** One line per tag, in order. */
  function TagLines(tags: seq<TagValue>): (r: seq<string>)
    ensures |r| == |tags|
    ensures forall i :: 0 <= i < |tags| ==> r[i] == TagLineText(tags[i])
  {
    if tags == [] then [] else [TagLineText(tags[0])] + TagLines(tags[1..])
  }

  /** The fields of a player's header after `EntityID=`, as `EXTRACT_PLAYER_PATTERN` reads them. */
  function PlayerFieldsText(e: LogEntry): string
    requires e.Player?
  {
    e.entityId + (" PlayerID=" + (e.playerId + (" GameAccountId=[hi=" + (e.hi + (" lo=" + (e.lo + "]"))))))
  }

  /** The header line of a game entity or a player, as the child readers' patterns read it. */
  function ChildLineText(e: LogEntry): string
    requires e.GameEntity? || e.Player?
  {
    if e.GameEntity? then GameEntityIdPrefix + e.entityId
    else PlayerIdPrefix + PlayerFieldsText(e)
  }

  /** Every entry is a game entity or a player: the entries the child readers build. */
  predicate ChildKinds(entries: seq<LogEntry>) {
    forall i :: 0 <= i < |entries| ==> entries[i].GameEntity? || entries[i].Player?
  }

  /** The blocks of `entries`, one after another: each header, then its tag lines. */
  function ChildLines(entries: seq<LogEntry>): seq<string>
    requires ChildKinds(entries)
  {
    if entries == [] then []
    else [ChildLineText(entries[0])] + TagLines(entries[0].tags) + ChildLines(entries[1..])
  }

  /** A tag whose name and value are non-empty runs of word characters, as `(\w+)` captures them. */
  predicate ReadableTag(tv: TagValue) {
    tv.tag != [] && IsRun(Word, tv.tag) && tv.value != [] && IsRun(Word, tv.value)
  }

  /**
   * A game entity or player as the child readers build it: indented by
   * four, with non-empty runs of digits for its ids and readable tags.
   */
  predicate ReadableChild(e: LogEntry) {
    && (e.GameEntity? || e.Player?)
    && e.indentation == 4
    && e.entityId != [] && IsRun(Digit, e.entityId)
    && (e.Player? ==> && e.playerId != [] && IsRun(Digit, e.playerId)
                      && e.hi != [] && IsRun(Digit, e.hi) && e.lo != [] && IsRun(Digit, e.lo))
    && forall i :: 0 <= i < |e.tags| ==> ReadableTag(e.tags[i])
  }

  /** Every entry is a player the child readers can read back. */
  predicate ReadablePlayers(players: seq<LogEntry>) {
    forall i :: 0 <= i < |players| ==> players[i].Player? && ReadableChild(players[i])
  }

  /** The lines from `p` on are the tag lines of `tags`. */
  predicate TagLinesAt(source: seq<string>, p: nat, tags: seq<TagValue>) {
    p + |tags| <= |source| && forall i :: 0 <= i < |tags| ==> source[p + i] == TagLineText(tags[i])
  }

  /** The same lines, taken one at a time, with each tag readable. */
  predicate ReadableTagLinesAt(source: seq<string>, p: nat, tags: seq<TagValue>)
    decreases |tags|
  {
    && p + |tags| <= |source|
    && (tags != [] ==> && source[p] == TagLineText(tags[0]) && ReadableTag(tags[0])
                       && ReadableTagLinesAt(source, p + 1, tags[1..]))
  }

  /** The tag loop stops at `end`: the log ends there, or the line there fails the loop's test. */
  predicate TagsEndAt(source: seq<string>, end: nat) {
    end < |source| ==> TagLineTest(source[end]) == Some(false)
  }

  // ---------------------------------------------------------------------
  // What the tag loop's test and the patterns make of these lines
  // ---------------------------------------------------------------------

  /** The tag loop's test on a `[Power]` line: it goes on exactly when the content is indented by more than four spaces. */
  lemma PowerLineTest(content: string, k: nat)
    requires k < |content| && content[k] != ' '
    requires forall i :: 0 <= i < k ==> content[i] == ' '
    ensures TagLineTest(PowerPrefix + content) == Some(k > 4)
  {
    RunLengthUnique(content, Space, k);
    PowerContent(content);
    LogLineIsFromNamedLogger(PowerPrefix + content);
  }

  /** A text that starts with `k` spaces and then another character still does with more text after it. */
  lemma SpacesThen(lit: string, rest: string, k: nat)
    requires k < |lit| && lit[k] != ' '
    requires forall i :: 0 <= i < k ==> lit[i] == ' '
    ensures (lit + rest)[k] != ' ' && forall i :: 0 <= i < k ==> (lit + rest)[i] == ' '
  {
  }

  /** A tag line, indented by eight, carries the tag loop on. */
  lemma TagLineContinues(tv: TagValue)
    ensures TagLineTest(TagLineText(tv)) == Some(true)
  {
    var lit, rest := "        tag=", tv.tag + (" value=" + tv.value);
    Append(PowerPrefix, lit, rest);
    SpacesThen(lit, rest, 8);
    PowerLineTest(lit + rest, 8);
  }

  /** A child header, indented by four, ends the tag loop of the block before it. */
  lemma ChildLineEndsTags(e: LogEntry)
    requires e.GameEntity? || e.Player?
    ensures TagLineTest(ChildLineText(e)) == Some(false)
  {
    var lit := if e.GameEntity? then "    GameEntity" else "    Player";
    var fields := if e.GameEntity? then e.entityId else PlayerFieldsText(e);
    assert ChildLineText(e) == PowerPrefix + lit + " EntityID=" + fields;
    Regroup(PowerPrefix, lit, " EntityID=", fields);
    SpacesThen(lit, " EntityID=" + fields, 4);
    PowerLineTest(lit + (" EntityID=" + fields), 4);
  }

  /** `EXTRACT_TAG_VALUE_PATTERN` reads a tag line back as its tag. */
  lemma TagLineRead(tv: TagValue)
    requires ReadableTag(tv)
    ensures TagValueLine(TagLineText(tv)) == Some(tv)
  {
    TagValueLineRoundTrip(tv.tag, tv.value, "");
    var line := TagPrefix + tv.tag + " value=" + tv.value;
    assert line + "" == line;
    Append(TagPrefix + tv.tag, " value=", tv.value);
    Append(TagPrefix, tv.tag, " value=" + tv.value);
  }

  /** Nine parts joined from the left are the first part followed by the others joined from the right. */
  lemma RegroupNine(x: string, a: string, b: string, c: string, d: string, e: string, f: string, g: string, h: string)
    ensures x + a + b + c + d + e + f + g + h == x + (a + (b + (c + (d + (e + (f + (g + h)))))))
  {
    Append(x + a + b + c + d + e + f, g, h);
    Append(x + a + b + c + d + e, f, g + h);
    Append(x + a + b + c + d, e, f + (g + h));
    Append(x + a + b + c, d, e + (f + (g + h)));
    Append(x + a + b, c, d + (e + (f + (g + h))));
    Append(x + a, b, c + (d + (e + (f + (g + h)))));
    Append(x, a, b + (c + (d + (e + (f + (g + h))))));
  }

  /**
   * Exactly one child reader accepts a child header, and its pattern reads
   * the header back as the entry's fields.
   */
  lemma ChildLineRead(e: LogEntry)
    requires ReadableChild(e)
    ensures e.GameEntity? ==> && ChildParsable(GameEntityReader, ChildLineText(e))
                              && GameEntityId(ChildLineText(e)) == Some(e.entityId)
    ensures e.Player? ==> && !ChildParsable(GameEntityReader, ChildLineText(e))
                          && ChildParsable(PlayerReader, ChildLineText(e))
                          && PlayerLine(ChildLineText(e)) == Some(PlayerFields(e.entityId, e.playerId, e.hi, e.lo))
  {
    var line := ChildLineText(e);
    if e.GameEntity? {
      GameEntityIdRoundTrip(e.entityId, "");
      assert line + "" == line;
      Append(GameEntityHeader, " EntityID=", e.entityId);
      LeadingPart(GameEntityHeader, " EntityID=" + e.entityId);
    } else {
      var f := PlayerFields(e.entityId, e.playerId, e.hi, e.lo);
      PlayerLineRoundTrip(f, "");
      var joined := PlayerIdPrefix + e.entityId + " PlayerID=" + e.playerId + " GameAccountId=[hi=" + e.hi + " lo=" + e.lo + "]";
      assert joined + "" == joined;
      RegroupNine(PlayerIdPrefix, e.entityId, " PlayerID=", e.playerId, " GameAccountId=[hi=", e.hi, " lo=", e.lo, "]");
      Append(PlayerHeader, " EntityID=", PlayerFieldsText(e));
      LeadingPart(PlayerHeader, " EntityID=" + PlayerFieldsText(e));
      ChildReadersDisjoint(line);
    }
  }

  // ---------------------------------------------------------------------
  // The layout of the blocks
  // ---------------------------------------------------------------------

  /**
   * Where the blocks of `entries` start at `p`, the first header is at `p`,
   * its tag lines follow, and the other blocks start right after them.
   */
  lemma ChildLinesHead(source: seq<string>, p: nat, entries: seq<LogEntry>)
    requires p <= |source| && entries != []
    requires ChildKinds(entries)
    requires source[p..] == ChildLines(entries)
    ensures var e := entries[0];
            var end := p + 1 + |e.tags|;
            && end <= |source| && source[p] == ChildLineText(e) && TagLinesAt(source, p + 1, e.tags)
            && source[end..] == ChildLines(entries[1..])
  {
    SplitBlock(source, p, ChildLineText(entries[0]), TagLines(entries[0].tags), ChildLines(entries[1..]));
    TagLinesSlice(source, p + 1, entries[0].tags);
  }

  /** A non-empty sequence is its first element followed by the rest. */
  lemma HeadTail<T>(xs: seq<T>)
    requires xs != []
    ensures [xs[0]] + xs[1..] == xs
  {
  }

  /** A header line, then a body, then the rest, from `p` on. */
  lemma SplitBlock(source: seq<string>, p: nat, head: string, body: seq<string>, rest: seq<string>)
    requires p <= |source| && source[p..] == [head] + body + rest
    ensures p + 1 + |body| <= |source| && source[p] == head
    ensures source[p + 1..p + 1 + |body|] == body && source[p + 1 + |body|..] == rest
  {
    assert source[p] == source[p..][0];
    assert source[p + 1..p + 1 + |body|] == source[p..][1..1 + |body|];
    assert source[p + 1 + |body|..] == source[p..][1 + |body|..];
  }

  /** Lines that are the tag lines of `tags`, seen one by one. */
  lemma TagLinesSlice(source: seq<string>, q: nat, tags: seq<TagValue>)
    requires q + |tags| <= |source| && source[q..q + |tags|] == TagLines(tags)
    ensures TagLinesAt(source, q, tags)
  {
    forall i | 0 <= i < |tags|
      ensures source[q + i] == TagLineText(tags[i])
    {
      assert source[q + i] == source[q..q + |tags|][i];
    }
  }

  /** Where further blocks start at `end`, or the log ends there, the tag loop stops at `end`. */
  lemma ChildLinesEnd(source: seq<string>, end: nat, entries: seq<LogEntry>)
    requires end <= |source|
    requires ChildKinds(entries)
    requires source[end..] == ChildLines(entries)
    ensures TagsEndAt(source, end)
  {
    if end < |source| {
      assert source[end] == source[end..][0] == ChildLineText(entries[0]);
      ChildLineEndsTags(entries[0]);
    }
  }

  // ---------------------------------------------------------------------
  // Reading the blocks back
  // ---------------------------------------------------------------------

  /** The tag loop stops at the end of the log, or at a line that fails its test, which it leaves peeked. */
  lemma TagLoopStops(source: seq<string>, mark: nat, pos: nat)
    requires mark <= pos <= |source| && TagsEndAt(source, pos)
    ensures ReadTagLines(PeekState(source, pos, mark, 0)) == Ok([], PeekState(source, pos, mark, if pos < |source| then 1 else 0))
  {
  }

  /** A line that passes the test is read as a tag, and the loop goes on from the line after it. */
  lemma TagLoopStep(source: seq<string>, mark: nat, pos: nat, tags: seq<TagValue>, end: nat)
    requires mark <= pos && tags != [] && ReadableTagLinesAt(source, pos, tags) && end <= |source|
    requires ReadTagLines(PeekState(source, pos + 1, mark, 0))
          == Ok(tags[1..], PeekState(source, end, mark, if end < |source| then 1 else 0))
    ensures ReadTagLines(PeekState(source, pos, mark, 0)) == Ok(tags, PeekState(source, end, mark, if end < |source| then 1 else 0))
  {
    TagLoopPeeks(source, mark, pos, tags[0]);
    TagLoopReadsLine(source, mark, pos, tags[0]);
    HeadTail(tags);
  }

  /** At a tag line, the loop peeks it and goes on to read it. */
  lemma TagLoopPeeks(source: seq<string>, mark: nat, pos: nat, tv: TagValue)
    requires mark <= pos < |source| && source[pos] == TagLineText(tv) && ReadableTag(tv)
    ensures ReadTagLines(PeekState(source, pos, mark, 0)) == ReadTag(TagLineTest, TagValueLine, PeekState(source, pos, mark, 1))
  {
    TagLineContinues(tv);
  }

  /** Reading a peeked tag line gives its tag, then the tags the loop reads after it. */
  lemma TagLoopReadsLine(source: seq<string>, mark: nat, pos: nat, tv: TagValue)
    requires mark <= pos < |source| && source[pos] == TagLineText(tv) && ReadableTag(tv)
    ensures var rest := ReadTagLines(PeekState(source, pos + 1, mark, 0));
            rest.Ok? ==> ReadTag(TagLineTest, TagValueLine, PeekState(source, pos, mark, 1)) == Ok([tv] + rest.value, rest.state)
  {
    TagLineRead(tv);
    assert ReadLine(PeekState(source, pos, mark, 1)) == Line(source[pos], PeekState(source, pos + 1, mark, 0));
  }

  /** Readable tag lines, as a run, are readable tag lines one at a time. */
  lemma {:induction false} TagLinesOneByOne(source: seq<string>, p: nat, tags: seq<TagValue>)
    requires TagLinesAt(source, p, tags) && forall i :: 0 <= i < |tags| ==> ReadableTag(tags[i])
    ensures ReadableTagLinesAt(source, p, tags)
    decreases |tags|
  {
    if tags != [] {
      assert source[p] == source[p + 0];
      forall i | 0 <= i < |tags[1..]|
        ensures source[p + 1 + i] == TagLineText(tags[1..][i])
      {
        assert source[p + 1 + i] == source[p + (i + 1)];
      }
      TagLinesOneByOne(source, p + 1, tags[1..]);
    }
  }

  /**
   * The tag loop of the child readers, started on a reader with nothing
   * peeked in front of tag lines: it reads exactly those tags and stops
   * with the line after them, if any, peeked.
   */
  lemma {:induction false} TagLoopReads(source: seq<string>, mark: nat, pos: nat, tags: seq<TagValue>, end: nat)
    requires mark <= pos && end == pos + |tags|
    requires ReadableTagLinesAt(source, pos, tags) && TagsEndAt(source, end)
    ensures ReadTagLines(PeekState(source, pos, mark, 0)) == Ok(tags, PeekState(source, end, mark, if end < |source| then 1 else 0))
    decreases |tags|
  {
    if tags == [] {
      TagLoopStops(source, mark, end);
    } else {
      TagLoopReads(source, mark, pos + 1, tags[1..], end);
      TagLoopStep(source, mark, pos, tags, end);
    }
  }

  /**
   * The nested `readEntry` on a child block, with at most its header
   * peeked: the header picks its reader, the entry is read back whole,
   * and the reader stops after the tags with the line after them, if any,
   * peeked and nothing recorded.
   */
  lemma ChildReadBack(n: PeekState, e: LogEntry, end: nat)
    requires Valid(n) && n.peeked <= 1 && ReadableChild(e) && end == n.pos + 1 + |e.tags|
    requires end <= |n.source| && n.source[n.pos] == ChildLineText(e)
    requires TagLinesAt(n.source, n.pos + 1, e.tags) && TagsEndAt(n.source, end)
    ensures ReadChild(n) == EntryRead(e, PeekState(n.source, end, end, if end < |n.source| then 1 else 0))
  {
    ReadChildLine(n);
    TagLinesOneByOne(n.source, n.pos + 1, e.tags);
    TagLoopReads(n.source, n.mark, n.pos + 1, e.tags, end);
    ChildBlockRead(ChildLineText(e), e, PeekState(n.source, n.pos + 1, n.mark, 0), PeekState(n.source, end, n.mark, if end < |n.source| then 1 else 0));
  }

  /** The nested `readEntry` reads its next line, drawing on the one peeked if any, and runs the child set on it. */
  lemma ReadChildLine(n: PeekState)
    requires Valid(n) && n.pos < |n.source| && n.peeked <= 1
    ensures ReadChild(n) == TryReaders(ChildReaders, n.source[n.pos], ChildAccepts, ChildParse, PeekState(n.source, n.pos + 1, n.mark, 0))
  {
    assert ReadLine(n) == Line(n.source[n.pos], PeekState(n.source, n.pos + 1, n.mark, 0));
  }

  /** The header of a game entity or a player picks its reader, which builds the entry from it and its tags. */
  lemma ChildBlockRead(line: string, e: LogEntry, t: PeekState, last: PeekState)
    requires Valid(t) && ReadableChild(e) && line == ChildLineText(e)
    requires ReadTagLines(t) == Ok(e.tags, last)
    ensures TryReaders(ChildReaders, line, ChildAccepts, ChildParse, t) == EntryRead(e, Cleared(last))
  {
    if e.GameEntity? {
      GameEntityBlockRead(line, e, t, last);
    } else {
      PlayerBlockRead(line, e, t, last);
    }
  }

  /** The header of a game entity is taken by `GameEntityEntryReader`, which builds the entity from it and its tags. */
  lemma GameEntityBlockRead(line: string, e: LogEntry, t: PeekState, last: PeekState)
    requires Valid(t) && ReadableChild(e) && e.GameEntity? && line == ChildLineText(e)
    requires ReadTagLines(t) == Ok(e.tags, last)
    ensures TryReaders(ChildReaders, line, ChildAccepts, ChildParse, t) == EntryRead(e, Cleared(last))
  {
    ChildLineRead(e);
    ChildParseAdvances();
    assert ChildParse(GameEntityReader, line, t) == Ok(e, last);
    TryReadersCons(GameEntityReader, [PlayerReader], line, ChildAccepts, ChildParse, t);
  }

  /** The header of a player is passed over by `GameEntityEntryReader` and taken by `PlayerEntryReader`. */
  lemma PlayerBlockRead(line: string, e: LogEntry, t: PeekState, last: PeekState)
    requires Valid(t) && ReadableChild(e) && e.Player? && line == ChildLineText(e)
    requires ReadTagLines(t) == Ok(e.tags, last)
    ensures TryReaders(ChildReaders, line, ChildAccepts, ChildParse, t) == EntryRead(e, Cleared(last))
  {
    ChildLineRead(e);
    ChildParseAdvances();
    assert ChildParse(PlayerReader, line, t) == Ok(e, last);
    TryReadersCons(GameEntityReader, [PlayerReader], line, ChildAccepts, ChildParse, t);
    TryReadersCons(PlayerReader, [], line, ChildAccepts, ChildParse, t);
  }

  /** The players loop from `n` returns `players` and runs to the end of the nested reader's log, with nothing peeked. */
  predicate PlayersReadFrom(n: PeekState, players: seq<LogEntry>)
    requires Valid(n)
  {
    var r := ReadPlayers(n);
    r.Ok? && r.value == players && r.state.pos == |n.source| && r.state.peeked == 0
  }

  /**
   * The loop after the game entity, on the blocks of players: it reads
   * exactly those players, in order, up to the end of the nested reader's
   * log, with nothing peeked.
   */
  lemma {:induction false} PlayersReadBack(n: PeekState, players: seq<LogEntry>)
    requires Valid(n) && n.peeked <= 1
    requires ReadablePlayers(players) && n.source[n.pos..] == ChildLines(players)
    ensures PlayersReadFrom(n, players) == true
    decreases |players|
  {
    if players == [] {
      PlayersNone(n);
    } else {
      var end := n.pos + 1 + |players[0].tags|;
      var m := PeekState(n.source, end, end, if end < |n.source| then 1 else 0);
      PlayerHeadRead(n, players, end);
      PlayersReadBack(m, players[1..]);
      PlayersStep(n, players, m);
    }
  }

  /** At the end of the nested reader's log, the players loop returns no players. */
  lemma PlayersNone(n: PeekState)
    requires Valid(n) && n.source[n.pos..] == ChildLines([])
    ensures PlayersReadFrom(n, []) == true
  {
    assert |n.source[n.pos..]| == 0;
  }

  /** The first block of players: the nested `readEntry` reads that player, and the other blocks follow. */
  lemma PlayerHeadRead(n: PeekState, players: seq<LogEntry>, end: nat)
    requires Valid(n) && n.peeked <= 1 && ReadablePlayers(players) && players != []
    requires n.source[n.pos..] == ChildLines(players) && end == n.pos + 1 + |players[0].tags|
    ensures end <= |n.source| && players[0].Player? && ReadablePlayers(players[1..])
    ensures ReadChild(n) == EntryRead(players[0], PeekState(n.source, end, end, if end < |n.source| then 1 else 0))
    ensures n.source[end..] == ChildLines(players[1..])
  {
    PlayersTail(players);
    ChildLinesHead(n.source, n.pos, players);
    ChildLinesEnd(n.source, end, players[1..]);
    ChildReadBack(n, players[0], end);
  }

  /** The first of readable players is one, and the rest are readable players. */
  lemma PlayersTail(players: seq<LogEntry>)
    requires ReadablePlayers(players) && players != []
    ensures players[0].Player? && ReadableChild(players[0])
    ensures ChildKinds(players) && ChildKinds(players[1..]) && ReadablePlayers(players[1..])
  {
    forall i | 0 <= i < |players[1..]|
      ensures players[1..][i].Player? && ReadableChild(players[1..][i])
    {
      assert players[1..][i] == players[i + 1];
    }
  }

  /** One turn of the players loop: a player read by the nested reader, then the players after it. */
  lemma PlayersStep(n: PeekState, players: seq<LogEntry>, m: PeekState)
    requires Valid(n) && Valid(m) && players != [] && players[0].Player? && |m.source| == |n.source|
    requires ReadChild(n) == EntryRead(players[0], m) && PlayersReadFrom(m, players[1..]) == true
    ensures PlayersReadFrom(n, players) == true
  {
    PlayersTurn(n, players[0], m);
    HeadTail(players);
  }

  /** The players loop after reading a player: that player, then what the loop returns from there. */
  lemma PlayersTurn(n: PeekState, e: LogEntry, m: PeekState)
    requires Valid(n) && ReadChild(n) == EntryRead(e, m) && e.Player?
    ensures var rest := ReadPlayers(m);
            rest.Ok? ==> ReadPlayers(n) == Ok([e] + rest.value, rest.state)
  {
  }

  /**
   * The rest of a log as `CreateGameEntryReader.parse` reads it back: the
   * block of a game entity, then the blocks of its players, each with a
   * header and tags the child readers accept.
   */
  predicate GameBlocks(src: seq<string>, entries: seq<LogEntry>) {
    && entries != [] && entries[0].GameEntity?
    && (forall i :: 1 <= i < |entries| ==> entries[i].Player?)
    && (forall i :: 0 <= i < |entries| ==> ReadableChild(entries[i]))
    && src == ChildLines(entries)
  }

  /**
   * `CreateGameEntryReader.parse` read back: when the rest of the log is
   * the block of a game entity followed by the blocks of its players, it
   * returns exactly that game entity and those players, in order, and
   * leaves the enclosing reader at the end of the log with nothing peeked.
   */
  lemma CreateGameReadBack(s: PeekState, entries: seq<LogEntry>)
    requires Valid(s) && GameBlocks(s.source[s.pos..], entries)
    ensures ParseCreateGame(s) == Ok(CreateGame(0, entries[0], entries[1..]), s.(pos := |s.source|, peeked := 0))
  {
    NestedReadBack(s.source[s.pos..], entries);
    CreateGameFinish(s, entries, 1 + |entries[0].tags|);
  }

  /**
   * What the nested reader over `src` returns: its first `readEntry` the
   * entry `game`, stopping at `end` with the line there, if any, peeked;
   * the players loop after it `players`, up to the end of `src`.
   */
  predicate NestedReadsBack(src: seq<string>, game: LogEntry, players: seq<LogEntry>, end: nat) {
    && end <= |src|
    && ReadChild(PeekState(src, 0, 0, 0)) == EntryRead(game, PeekState(src, end, end, if end < |src| then 1 else 0))
    && PlayersReadFrom(PeekState(src, end, end, if end < |src| then 1 else 0), players)
  }

  /**
   * The nested reader over the blocks of a game entity and its players:
   * its first `readEntry` returns the game entity and stops after its tags,
   * and the players loop then returns the players, up to the end of its log.
   */
  lemma NestedReadBack(src: seq<string>, entries: seq<LogEntry>)
    requires GameBlocks(src, entries)
    ensures entries != [] && 0 < |src| && NestedReadsBack(src, entries[0], entries[1..], 1 + |entries[0].tags|) == true
  {
    var end := 1 + |entries[0].tags|;
    CreateGameEntriesSplit(entries);
    assert src[0..] == src;
    ChildLinesHead(src, 0, entries);
    ChildLinesEnd(src, end, entries[1..]);
    ChildReadBack(PeekState(src, 0, 0, 0), entries[0], end);
    PlayersReadBack(PeekState(src, end, end, if end < |src| then 1 else 0), entries[1..]);
  }

  /** The entries of a game, as blocks the child readers can read back: of the right kinds, and players after the first. */
  lemma CreateGameEntriesSplit(entries: seq<LogEntry>)
    requires entries != [] && entries[0].GameEntity?
    requires forall i :: 1 <= i < |entries| ==> entries[i].Player?
    requires forall i :: 0 <= i < |entries| ==> ReadableChild(entries[i])
    ensures ReadableChild(entries[0]) && ChildKinds(entries) && ChildKinds(entries[1..]) && ReadablePlayers(entries[1..])
  {
    assert ReadableChild(entries[0]);
    forall i | 0 <= i < |entries[1..]|
      ensures entries[1..][i].Player? && ReadableChild(entries[1..][i])
    {
      assert entries[1..][i] == entries[i + 1];
    }
  }

  /** `parse` on a log whose rest the nested reader reads whole: a game entity, then players up to its end. */
  lemma CreateGameFinish(s: PeekState, entries: seq<LogEntry>, end: nat)
    requires Valid(s) && s.pos < |s.source| && entries != [] && entries[0].GameEntity?
    requires NestedReadsBack(s.source[s.pos..], entries[0], entries[1..], end) == true
    ensures ParseCreateGame(s) == Ok(CreateGame(0, entries[0], entries[1..]), s.(pos := |s.source|, peeked := 0))
  {
    var src := s.source[s.pos..];
    var g := PeekState(src, end, end, if end < |src| then 1 else 0);
    var last := ReadPlayers(g).state;
    NestedOnRest(s);
    CreateGameSteps(s, PeekState(src, 0, 0, 0), entries[0], g, entries[1..], last);
    ResumeAtEnd(ReadLine(s).state, last);
  }

  /** The nested reader's log is the line `parse` read, then the rest of the enclosing log: the rest of the log from that line. */
  lemma NestedOnRest(s: PeekState)
    requires Valid(s) && s.pos < |s.source|
    ensures var read := ReadLine(s);
            && read.Line? && read.state.source == s.source && read.state.pos == s.pos + 1 && read.state.mark == s.mark
            && Nested(read.value, read.state) == PeekState(s.source[s.pos..], 0, 0, 0)
  {
    assert ReadLine(s).value == s.source[s.pos];
    assert [s.source[s.pos]] + s.source[s.pos + 1..] == s.source[s.pos..];
  }

  /** `parse`, given what the nested reader reads: the game entity, then the players. */
  lemma CreateGameSteps(s: PeekState, n: PeekState, game: LogEntry, g: PeekState, players: seq<LogEntry>, last: PeekState)
    requires Valid(s) && s.pos < |s.source| && ReadLine(s).Line?
    requires n == Nested(ReadLine(s).value, ReadLine(s).state)
    requires ReadChild(n) == EntryRead(game, g) && game.GameEntity? && Valid(g)
    requires ReadPlayers(g) == Ok(players, last)
    ensures ParseCreateGame(s) == Ok(CreateGame(0, game, players), Resume(ReadLine(s).state, last))
  {
  }

  /** The enclosing reader after the nested one read its whole log: at the end of its own log, with nothing peeked. */
  lemma ResumeAtEnd(t: PeekState, last: PeekState)
    requires Valid(t) && Valid(last) && |last.source| == 1 + |t.source| - t.pos
    requires last.pos == |last.source| && last.peeked == 0
    ensures Resume(t, last) == t.(pos := |t.source|, peeked := 0)
  {
  }
}
