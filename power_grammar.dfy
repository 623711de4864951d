/**
 * The line patterns of the `[Power]` and `[Zone]` parsers. Each is a literal
 * prefix, an optional `(\s*)` indentation run, a literal keyword and `(.*)`
 * groups between literal delimiters, read with `Text.MatchIndented` or
 * `MatchPrefixed`.
 */
module PowerGrammar {
  import opened Wrappers
  import opened Text
  import opened LogLineUtils
  import opened LogEntries

  /** `^prefix(.*)d0(.*)...$`: the groups after a literal prefix, or None. */
  function MatchPrefixed(line: string, prefix: string, delims: seq<string>): (r: Option<seq<string>>)
    ensures r.Some? ==> |r.value| == |delims| + 1 && line == prefix + Join(r.value, delims)
  {
    if !StartsWith(line, prefix) then None
    else
      match Split(line[|prefix|..], delims)
      case None => None
      case Some(groups) =>
        assert line == line[..|prefix|] + line[|prefix|..];
        Some(groups)
  }

  const GameEntityKeyword: string := "GameEntity " + "EntityID="
  const PlayerKeyword: string := "Player " + "EntityID="
  const PlayerDelimiters: seq<string> := [" PlayerID=", " GameAccountId=[hi=", " lo=", "]"]
  const ShowEntityKeyword: string := "SHOW_ENTITY - " + "Updating Entity="
  const HideEntityKeyword: string := "HIDE_ENTITY - " + "Entity="
  const ActionStartKeyword: string := "ACTION_START " + "Entity="
  const ActionStartDelimiters: seq<string> := [" SubType=", " Index=", " Target="]
  const TransitioningKeyword: string := "TRANSITIONING " + "card "
  const CreateGameKeyword: string := "CREATE_GAME"
  const TagKeyword: string := "tag="
  const FullEntityPrefix: string := PowerPrefix + "FULL_ENTITY - " + "Creating ID="
  const FullEntityTagPrefix: string := PowerPrefix + "    " + "tag="
  const TagChangePrefix: string := PowerPrefix + "TAG_CHANGE " + "Entity="

  /** `GameEntity EntityID=(.*)$` after the indentation: the entity id. */
  function GameEntityHeader(line: string): (r: Option<Indented>)
    ensures r.Some? ==> IsMatch(line, PowerPrefix, GameEntityKeyword, [], r.value)
  {
    MatchIndented(line, PowerPrefix, GameEntityKeyword, [])
  }

  /** `Player EntityID=(.*) PlayerID=(.*) GameAccountId=[hi=(.*) lo=(.*)\].*$`: four groups and the tail. */
  function PlayerHeader(line: string): (r: Option<Indented>)
    ensures r.Some? ==> IsMatch(line, PowerPrefix, PlayerKeyword, PlayerDelimiters, r.value)
  {
    MatchIndented(line, PowerPrefix, PlayerKeyword, PlayerDelimiters)
  }

  /** `SHOW_ENTITY - Updating Entity=(.*) CardID=(.*)$`: entity and card id. */
  function ShowEntityHeader(line: string): (r: Option<Indented>)
    ensures r.Some? ==> IsMatch(line, PowerPrefix, ShowEntityKeyword, [" CardID="], r.value)
  {
    MatchIndented(line, PowerPrefix, ShowEntityKeyword, [" CardID="])
  }

  /** `HIDE_ENTITY - Entity=(.*) tag=(.*) value=(.*)$`: entity, tag and value. */
  function HideEntityLine(line: string): (r: Option<Indented>)
    ensures r.Some? ==> IsMatch(line, PowerPrefix, HideEntityKeyword, [" tag=", " value="], r.value)
  {
    MatchIndented(line, PowerPrefix, HideEntityKeyword, [" tag=", " value="])
  }

  /** `ACTION_START Entity=(.*) SubType=(.*) Index=(.*) Target=(.*)$`. */
  function ActionStartHeader(line: string): (r: Option<Indented>)
    ensures r.Some? ==> IsMatch(line, PowerPrefix, ActionStartKeyword, ActionStartDelimiters, r.value)
  {
    MatchIndented(line, PowerPrefix, ActionStartKeyword, ActionStartDelimiters)
  }

  /** The `[Zone]` line `TRANSITIONING card (.*) to (.*)$`: entity and target zone. */
  function TransitioningLine(line: string): (r: Option<Indented>)
    ensures r.Some? ==> IsMatch(line, ZonePrefix, TransitioningKeyword, [" to "], r.value)
  {
    MatchIndented(line, ZonePrefix, TransitioningKeyword, [" to "])
  }

  /** `^prefix(\s*)CREATE_GAME$`: the indentation of a CREATE_GAME header, or None. */
  function CreateGameHeader(line: string): (r: Option<nat>)
    ensures r.Some? ==> exists ws :: |ws| == r.value && IsIndentedShape(line, PowerPrefix, CreateGameKeyword, [], ws, [""])
  {
    match MatchIndented(line, PowerPrefix, CreateGameKeyword, [])
    case None => None
    case Some(m) =>
      if m.groups[0] != "" then None
      else
        assert IsIndentedShape(line, PowerPrefix, CreateGameKeyword, [], line[|PowerPrefix|..|PowerPrefix| + m.indentation], [""]);
        Some(m.indentation)
  }

  /** `FULL_ENTITY - Creating ID=(.*) CardID=(.*)$`: id and card id. */
  function FullEntityHeader(line: string): (r: Option<seq<string>>)
    ensures r.Some? ==> |r.value| == 2 && line == FullEntityPrefix + Join(r.value, [" CardID="])
  {
    MatchPrefixed(line, FullEntityPrefix, [" CardID="])
  }

  /** `TAG_CHANGE Entity=(.*) tag=(.*) value=(.*)`: entity, tag and value. */
  function TagChangeLine(line: string): (r: Option<seq<string>>)
    ensures r.Some? ==> |r.value| == 3 && line == TagChangePrefix + Join(r.value, [" tag=", " value="])
  {
    MatchPrefixed(line, TagChangePrefix, [" tag=", " value="])
  }

  /**
   * The child line `^prefix(\s{4,})tag=(.*) value=(.*)$`: its indentation
   * (four or more) and its pair.
   */
  function TagLine(line: string): (r: Option<(nat, TagValue)>)
    ensures r.Some? ==> r.value.0 >= 4
  {
    match MatchIndented(line, PowerPrefix, TagKeyword, [" value="])
    case None => None
    case Some(m) => if m.indentation < 4 then None else Some((m.indentation, TagValue(m.groups[0], m.groups[1])))
  }

  /** The FULL_ENTITY child line, indented by exactly four spaces: `-     tag=(.*) value=(.*)$`. */
  function FullEntityTagLine(line: string): (r: Option<TagValue>)
    ensures r.Some? ==> line == FullEntityTagPrefix + r.value.tag + " value=" + r.value.value
  {
    match MatchPrefixed(line, FullEntityTagPrefix, [" value="])
    case None => None
    case Some(groups) => Some(TagValue(groups[0], groups[1]))
  }

  /**
   * `isValidIndentation`: an unrestricted parser accepts every indentation; a
   * restricted one only a content indented by exactly its own spaces. None is
   * the `IllegalArgumentException` of a line with no content part.
   */
  function IsValidIndentation(restricted: bool, indentation: nat, line: string): (r: Option<bool>)
    ensures r.None? <==> restricted && Content(line).None?
    ensures r == Some(true) <==> !restricted || NumberOfSpaces(line) == Some(indentation)
  {
    if !restricted then Some(true)
    else
      match Content(line)
      case None => None
      case Some(content) => Some(CountLeadingSpaces(content) == indentation)
  }

  /**
   * A tag line is read back exactly: its indentation and its pair, whenever
   * the value does not itself hold ` value=`.
   */
  lemma TagLineRoundTrip(ws: string, tag: string, value: string)
    requires |ws| >= 4 && forall i :: 0 <= i < |ws| ==> InClass(Whitespace, ws[i])
    requires forall p :: |tag| < p <= |tag| + |value| ==> !OccursAt(tag + " value=" + value, " value=", p)
    ensures TagLine(PowerPrefix + ws + TagKeyword + (tag + " value=" + value)) == Some((|ws|, TagValue(tag, value)))
  {
    MatchIndentedOneExact(PowerPrefix, ws, TagKeyword, tag, " value=", value);
  }

  /** A prefixed line with unambiguous groups is read back exactly. */
  lemma MatchPrefixedExact(prefix: string, groups: seq<string>, delims: seq<string>)
    requires |groups| == |delims| + 1 && Unambiguous(groups, delims)
    ensures MatchPrefixed(prefix + Join(groups, delims), prefix, delims) == Some(groups)
  {
    var line := prefix + Join(groups, delims);
    assert line[..|prefix|] == prefix && line[|prefix|..] == Join(groups, delims);
    SplitExact(groups, delims);
  }

  /** The HIDE_ENTITY line with indentation `ws` and the given fields. */
  function HideEntityText(ws: string, entity: string, tag: string, value: string): string {
    PowerPrefix + (ws + HideEntityKeyword + (entity + " tag=" + tag + " value=" + value))
  }

  /**
   * A HIDE_ENTITY line is read back exactly: its indentation, entity, tag
   * and value; indented with spaces, it is at the indentation it shows.
   */
  lemma HideEntityLineExact(ws: string, entity: string, tag: string, value: string)
    requires forall i :: 0 <= i < |ws| ==> ws[i] == ' '
    requires Unambiguous([entity, tag, value], [" tag=", " value="])
    ensures HideEntityLine(HideEntityText(ws, entity, tag, value)) == Some(Indented(|ws|, [entity, tag, value]))
    ensures IsValidIndentation(true, |ws|, HideEntityText(ws, entity, tag, value)) == Some(true)
  {
    var rest := entity + " tag=" + tag + " value=" + value;
    assert Join([tag, value], [" value="]) == tag + " value=" + value;
    assert Join([entity, tag, value], [" tag=", " value="]) == rest;
    assert HideEntityKeyword[0] == 'H';
    assert PowerPrefix + (ws + HideEntityKeyword + rest) == PowerPrefix + ws + HideEntityKeyword + rest;
    assert forall i :: 0 <= i < |ws| ==> InClass(Whitespace, ws[i]);
    MatchIndentedExact(PowerPrefix, ws, HideEntityKeyword, [entity, tag, value], [" tag=", " value="]);
    SpacesIndentation(PowerPrefix, ws, HideEntityKeyword, rest, true, |ws|);
  }

  /** The TAG_CHANGE line with the given fields. */
  function TagChangeText(entity: string, tag: string, value: string): string {
    TagChangePrefix + (entity + " tag=" + tag + " value=" + value)
  }

  /** A TAG_CHANGE line is read back exactly: its entity, tag and value. */
  lemma TagChangeLineExact(entity: string, tag: string, value: string)
    requires Unambiguous([entity, tag, value], [" tag=", " value="])
    ensures StartsWith(TagChangeText(entity, tag, value), TagChangePrefix)
    ensures TagChangeLine(TagChangeText(entity, tag, value)) == Some([entity, tag, value])
  {
    var line := TagChangeText(entity, tag, value);
    assert line[..|TagChangePrefix|] == TagChangePrefix;
    assert Join([tag, value], [" value="]) == tag + " value=" + value;
    assert Join([entity, tag, value], [" tag=", " value="]) == entity + " tag=" + tag + " value=" + value;
    MatchPrefixedExact(TagChangePrefix, [entity, tag, value], [" tag=", " value="]);
  }

  /** The TRANSITIONING line with indentation `ws` and the given fields. */
  function TransitioningText(ws: string, entity: string, zone: string): string {
    ZonePrefix + (ws + TransitioningKeyword + (entity + " to " + zone))
  }

  /**
   * A TRANSITIONING line is read back exactly: its indentation, entity and
   * target zone; indented with spaces, it is at the indentation it shows.
   */
  lemma TransitioningLineExact(ws: string, entity: string, zone: string)
    requires forall i :: 0 <= i < |ws| ==> ws[i] == ' '
    requires Unambiguous([entity, zone], [" to "])
    ensures TransitioningLine(TransitioningText(ws, entity, zone)) == Some(Indented(|ws|, [entity, zone]))
    ensures IsValidIndentation(true, |ws|, TransitioningText(ws, entity, zone)) == Some(true)
  {
    var rest := entity + " to " + zone;
    assert Join([entity, zone], [" to "]) == rest;
    assert TransitioningKeyword[0] == 'T';
    assert ZonePrefix + (ws + TransitioningKeyword + rest) == ZonePrefix + ws + TransitioningKeyword + rest;
    assert forall i :: 0 <= i < |ws| ==> InClass(Whitespace, ws[i]);
    MatchIndentedExact(ZonePrefix, ws, TransitioningKeyword, [entity, zone], [" to "]);
    SpacesIndentation(ZonePrefix, ws, TransitioningKeyword, rest, true, |ws|);
  }

  /** `n` spaces: the indentation the game writes. */
  function Spaces(n: nat): (r: string)
    ensures |r| == n && forall i :: 0 <= i < n ==> r[i] == ' '
  {
    if n == 0 then "" else Spaces(n - 1) + " "
  }

  /** The GameEntity header with indentation `ws` and the given entity id. */
  function GameEntityText(ws: string, entityId: string): string {
    PowerPrefix + (ws + GameEntityKeyword + entityId)
  }

  /**
   * A GameEntity header is read back exactly: its indentation and its
   * entity id, whatever the id holds; indented with spaces, it is at the
   * indentation it shows.
   */
  lemma GameEntityHeaderExact(ws: string, entityId: string)
    requires forall i :: 0 <= i < |ws| ==> ws[i] == ' '
    ensures GameEntityHeader(GameEntityText(ws, entityId)) == Some(Indented(|ws|, [entityId]))
    ensures IsValidIndentation(true, |ws|, GameEntityText(ws, entityId)) == Some(true)
  {
    assert GameEntityKeyword[0] == 'G';
    assert PowerPrefix + (ws + GameEntityKeyword + entityId) == PowerPrefix + ws + GameEntityKeyword + entityId;
    assert forall i :: 0 <= i < |ws| ==> InClass(Whitespace, ws[i]);
    MatchIndentedRestExact(PowerPrefix, ws, GameEntityKeyword, entityId);
    SpacesIndentation(PowerPrefix, ws, GameEntityKeyword, entityId, true, |ws|);
  }

  /** No line is both a GameEntity header and a Player header. */
  lemma GameEntityOrPlayer(line: string)
    ensures GameEntityHeader(line).None? || PlayerHeader(line).None?
  {
    assert GameEntityKeyword[0] == 'G' && PlayerKeyword[0] == 'P';
    KeywordsExclusive(line, PowerPrefix, GameEntityKeyword, [], PlayerKeyword, PlayerDelimiters);
  }

  /** The SHOW_ENTITY header with indentation `ws` and the given fields. */
  function ShowEntityText(ws: string, entity: string, cardId: string): string {
    PowerPrefix + (ws + ShowEntityKeyword + (entity + " CardID=" + cardId))
  }

  /**
   * A SHOW_ENTITY header is read back exactly: its indentation, entity and
   * card id; indented with spaces, it is at the indentation it shows.
   */
  lemma ShowEntityHeaderExact(ws: string, entity: string, cardId: string)
    requires forall i :: 0 <= i < |ws| ==> ws[i] == ' '
    requires Unambiguous([entity, cardId], [" CardID="])
    ensures ShowEntityHeader(ShowEntityText(ws, entity, cardId)) == Some(Indented(|ws|, [entity, cardId]))
    ensures IsValidIndentation(true, |ws|, ShowEntityText(ws, entity, cardId)) == Some(true)
  {
    var rest := entity + " CardID=" + cardId;
    assert Join([entity, cardId], [" CardID="]) == rest;
    assert ShowEntityKeyword[0] == 'S';
    assert PowerPrefix + (ws + ShowEntityKeyword + rest) == PowerPrefix + ws + ShowEntityKeyword + rest;
    assert forall i :: 0 <= i < |ws| ==> InClass(Whitespace, ws[i]);
    MatchIndentedExact(PowerPrefix, ws, ShowEntityKeyword, [entity, cardId], [" CardID="]);
    SpacesIndentation(PowerPrefix, ws, ShowEntityKeyword, rest, true, |ws|);
  }

  /** The FULL_ENTITY header with the given fields. */
  function FullEntityText(id: string, cardId: string): string {
    FullEntityPrefix + (id + " CardID=" + cardId)
  }

  /** A FULL_ENTITY header is read back exactly: its id and card id. */
  lemma FullEntityHeaderExact(id: string, cardId: string)
    requires Unambiguous([id, cardId], [" CardID="])
    ensures StartsWith(FullEntityText(id, cardId), FullEntityPrefix)
    ensures FullEntityHeader(FullEntityText(id, cardId)) == Some([id, cardId])
  {
    var line := FullEntityText(id, cardId);
    assert line[..|FullEntityPrefix|] == FullEntityPrefix;
    assert Join([id, cardId], [" CardID="]) == id + " CardID=" + cardId;
    MatchPrefixedExact(FullEntityPrefix, [id, cardId], [" CardID="]);
  }

  /** The text of a Player header after its keyword, with the tail the pattern's final `.*` skips. */
  function PlayerFieldsText(entityId: string, playerId: string, hi: string, lo: string, tail: string): string {
    entityId + " PlayerID=" + playerId + " GameAccountId=[hi=" + hi + " lo=" + lo + "]" + tail
  }

  /** A Player header is read back exactly: its indentation, its four fields and the tail. */
  lemma PlayerHeaderExact(ws: string, entityId: string, playerId: string, hi: string, lo: string, tail: string)
    requires forall i :: 0 <= i < |ws| ==> InClass(Whitespace, ws[i])
    requires Unambiguous([entityId, playerId, hi, lo, tail], PlayerDelimiters)
    ensures PlayerHeader(PowerPrefix + ws + PlayerKeyword + PlayerFieldsText(entityId, playerId, hi, lo, tail))
         == Some(Indented(|ws|, [entityId, playerId, hi, lo, tail]))
  {
    var groups := [entityId, playerId, hi, lo, tail];
    var d := PlayerDelimiters;
    assert Join(groups[4..], d[4..]) == tail;
    assert Join(groups[3..], d[3..]) == lo + "]" + tail;
    assert Join(groups[2..], d[2..]) == hi + " lo=" + (lo + "]" + tail);
    assert Join(groups[1..], d[1..]) == playerId + " GameAccountId=[hi=" + (hi + " lo=" + (lo + "]" + tail));
    assert Join(groups, d) == PlayerFieldsText(entityId, playerId, hi, lo, tail);
    assert PlayerKeyword[0] == 'P';
    MatchIndentedExact(PowerPrefix, ws, PlayerKeyword, groups, d);
  }

  /** A line indented by fewer than four characters is no tag line. */
  lemma ShallowTagLine(ws: string, rest: string)
    requires |ws| < 4 && forall i :: 0 <= i < |ws| ==> InClass(Whitespace, ws[i])
    ensures TagLine(PowerPrefix + ws + TagKeyword + rest) == None
  {
    var line := PowerPrefix + ws + TagKeyword + rest;
    if MatchIndented(line, PowerPrefix, TagKeyword, [" value="]).Some? {
      var content := line[|PowerPrefix|..];
      assert content == ws + TagKeyword + rest;
      RunLengthUnique(content, Whitespace, |ws|);
    }
  }

  /**
   * The indentation a restricted parser checks is the number of spaces of
   * the header's indentation run, for any header written with spaces.
   */
  lemma SpacesIndentation(prefix: string, ws: string, keyword: string, rest: string, restricted: bool, indentation: nat)
    requires prefix == PowerPrefix || prefix == ZonePrefix
    requires keyword != [] && keyword[0] != ' '
    requires forall i :: 0 <= i < |ws| ==> ws[i] == ' '
    ensures IsValidIndentation(restricted, indentation, prefix + (ws + keyword + rest)) ==
              Some(!restricted || |ws| == indentation)
  {
    var content := ws + keyword + rest;
    LeadingSpaces(ws, keyword + rest);
    assert content == ws + (keyword + rest);
    if prefix == PowerPrefix {
      PowerContent(content);
    } else {
      ZoneContent(content);
    }
    ValidIndentationOf(restricted, indentation, prefix + content, content);
  }

  lemma ValidIndentationOf(restricted: bool, indentation: nat, line: string, content: string)
    requires Content(line) == Some(content)
    ensures IsValidIndentation(restricted, indentation, line) == Some(!restricted || CountLeadingSpaces(content) == indentation)
  {
  }

  lemma LeadingSpaces(ws: string, rest: string)
    requires forall i :: 0 <= i < |ws| ==> ws[i] == ' '
    requires rest != [] && rest[0] != ' '
    ensures CountLeadingSpaces(ws + rest) == |ws|
  {
    RunLengthUnique(ws + rest, Space, |ws|);
  }
}
