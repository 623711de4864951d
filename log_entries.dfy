/**
 * The log entries the parsers build, as records of the fields they extract
 * (the `logapi` entry classes and their builders).
 */
module LogEntries {
  import opened EntityObjects

  datatype TagValue = TagValue(tag: string, value: string)

  datatype LogEntry =
    | Fixture(name: string)           // the single-class entries of the reader tests (A, B, C, D)
    | Infinite(content: seq<string>)  // the entry of the tests' peeking START reader
    | GameEntity(indentation: nat, entityId: string, tags: seq<TagValue>)
    | Player(indentation: nat, entityId: string, playerId: string, hi: string, lo: string, tags: seq<TagValue>)
    | ShowEntity(indentation: nat, entity: EntityObject, cardId: string, tags: seq<TagValue>)
    | HideEntity(indentation: nat, entity: EntityObject, tag: string, value: string)
    | FullEntity(id: string, cardId: string, tags: seq<TagValue>)
    | TagChange(entityText: string, tag: string, value: string)
    | Transitioning(indentation: nat, entity: EntityObject, targetZone: string)
    | ActionStart(indentation: nat, entity: EntityObject, subType: string, index: EntityObject,
                  target: EntityObject, children: seq<LogEntry>)
    | CreateGame(indentation: nat, gameEntity: LogEntry, players: seq<LogEntry>)
}
