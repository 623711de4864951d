/**
 * `EntityObjectParser`: reads the entity field of a Power log line. A card is
 * written `[name=… id=… zone=… zonePos=… cardId=… player=…]` or
 * `[id=… cardId=… type=… zone=… zonePos=… player=…]`; anything else names a
 * player.
 */
module EntityObjects {
  import opened Wrappers
  import opened Text

  /**
   * The log objects the parser builds. A card built from the first form has
   * no type, one built from the second form has no name.
   */
  datatype EntityObject =
    | CardEntity(name: Option<string>, id: string, cardType: Option<string>, zone: string,
                 zonePos: string, cardId: string, player: string)
    | PlayerEntity(playerName: string)

  const Case1Delimiters: seq<string> := [" id=", " zone=", " zonePos=", " cardId=", " player="]
  const Case2Delimiters: seq<string> := [" cardId=", " type=", " zone=", " zonePos=", " player="]

  /**
   * The groups of `^open(.*)d0(.*)…d4(.*)\]$`: the text between `open` and
   * the final ']' split around the delimiters, or None.
   */
  function Bracketed(input: string, open: string, delims: seq<string>): (r: Option<seq<string>>)
    ensures r.Some? ==> |r.value| == |delims| + 1 && input == open + Join(r.value, delims) + "]"
  {
    if |input| < |open| + 1 || !StartsWith(input, open) || input[|input| - 1] != ']' then None
    else
      match Split(input[|open|..|input| - 1], delims)
      case None => None
      case Some(groups) =>
        assert input == input[..|open|] + input[|open|..|input| - 1] + [input[|input| - 1]];
        Some(groups)
  }

  /** The bracketed pattern matches exactly the texts `open + Join(groups, delims) + "]"`. */
  lemma BracketedIffJoin(input: string, open: string, delims: seq<string>)
    ensures Bracketed(input, open, delims).Some? <==>
      exists groups :: |groups| == |delims| + 1 && input == open + Join(groups, delims) + "]"
  {
    if exists groups :: |groups| == |delims| + 1 && input == open + Join(groups, delims) + "]" {
      var groups :| |groups| == |delims| + 1 && input == open + Join(groups, delims) + "]";
      assert input[|open|..|input| - 1] == Join(groups, delims);
      SplitFindsLongestFirstGroup(Join(groups, delims), delims, groups);
    }
  }

  /** `isParsable`: every text is accepted. */
  predicate IsParsable(input: string) {
    true
  }

  /**
   * `parse`: the first card form when it matches, else the second, else a
   * player named by the whole input. It never fails.
   */
  function Parse(input: string): (r: EntityObject)
    ensures r.CardEntity? && r.name.Some? ==>
              input == "[name=" + Join([r.name.value, r.id, r.zone, r.zonePos, r.cardId, r.player], Case1Delimiters) + "]"
    ensures r.CardEntity? && r.name.None? ==>
              && r.cardType.Some?
              && Bracketed(input, "[name=", Case1Delimiters).None?
              && input == "[id=" + Join([r.id, r.cardId, r.cardType.value, r.zone, r.zonePos, r.player], Case2Delimiters) + "]"
    ensures r.PlayerEntity? <==>
              Bracketed(input, "[name=", Case1Delimiters).None? && Bracketed(input, "[id=", Case2Delimiters).None?
    ensures r.PlayerEntity? ==> r.playerName == input
  {
    match Bracketed(input, "[name=", Case1Delimiters)
    case Some(g) => CardEntity(Some(g[0]), g[1], None, g[2], g[3], g[4], g[5])
    case None =>
      match Bracketed(input, "[id=", Case2Delimiters)
      case Some(g) => CardEntity(None, g[0], Some(g[2]), g[3], g[4], g[1], g[5])
      case None => PlayerEntity(input)
  }

  /** Writes an entity in the form its fields say it was read from. */
  function Render(e: EntityObject): string {
    match e
    case PlayerEntity(playerName) => playerName
    case CardEntity(name, id, cardType, zone, zonePos, cardId, player) =>
      if name.Some? then "[name=" + Join([name.value, id, zone, zonePos, cardId, player], Case1Delimiters) + "]"
      else
        var t := if cardType.Some? then cardType.value else "";
        "[id=" + Join([id, cardId, t, zone, zonePos, player], Case2Delimiters) + "]"
  }

  /** Parsing loses nothing: rendering the parsed entity gives back the input, for every input. */
  lemma RenderParse(input: string)
    ensures Render(Parse(input)) == input
  {
  }

  /** A text of the first form is always read as a named card, whatever the second form would say. */
  lemma FirstFormWins(groups: seq<string>)
    requires |groups| == 6
    ensures Parse("[name=" + Join(groups, Case1Delimiters) + "]").CardEntity?
    ensures Parse("[name=" + Join(groups, Case1Delimiters) + "]").name.Some?
  {
    BracketedIffJoin("[name=" + Join(groups, Case1Delimiters) + "]", "[name=", Case1Delimiters);
  }

  /** A text of the second form that is not of the first is read as a typed card. */
  lemma SecondForm(groups: seq<string>)
    requires |groups| == 6
    requires Bracketed("[id=" + Join(groups, Case2Delimiters) + "]", "[name=", Case1Delimiters).None?
    ensures Parse("[id=" + Join(groups, Case2Delimiters) + "]").CardEntity?
    ensures Parse("[id=" + Join(groups, Case2Delimiters) + "]").cardType.Some?
  {
    BracketedIffJoin("[id=" + Join(groups, Case2Delimiters) + "]", "[id=", Case2Delimiters);
  }

  /** A text that does not start with '[' always names a player: the test's `skiwi`. */
  lemma PlainNameIsPlayer(input: string)
    requires input == [] || input[0] != '['
    ensures Parse(input) == PlayerEntity(input)
  {
  }

  lemma SkiwiIsPlayer()
    ensures Parse("skiwi") == PlayerEntity("skiwi")
  {
    PlainNameIsPlayer("skiwi");
  }
}
