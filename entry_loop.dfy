/**
 * The loop of `readNextEntry` over the parser set, written for any
 * `isParsable` and `parse` (the readers only see parsers through the
 * `EntryParser` interface), and the proof that for the `isParsable` and
 * `parse` of `EntryParsing` it is `EntryParsing.TryParsers`.
 */
module EntryLoop {
  import opened LineReaders
  import opened TagBlocks
  import LogEntries
  import EntryParsing

  /** The parsers the loop runs over. */
  type EntryParser = EntryParsing.Parser

  /** `parse`: a parser run on a reader in a given state. */
  type ParseFunction = (EntryParser, ReaderState) -> Outcome<LogEntries.LogEntry>

  /** `parse` hands back, when it returns normally, a later state of the same entry. */
  ghost predicate Advances(parse: ParseFunction) {
    forall p, s :: Valid(s) && (parse(p, s).Ok? || parse(p, s).Fail?) ==> Advanced(s, parse(p, s).state)
  }

  /**
   * The parsers that `accepts` lets through are tried in order on a reader
   * in state `s`; the first entry wins, a failure is kept and the next
   * parser starts where the failing one stopped; when all fail, the record
   * is thrown with the kept failures.
   */
  function Resolve(parsers: seq<EntryParser>, accepts: EntryParser -> bool,
                   parse: ParseFunction,
                   s: ReaderState, causes: seq<Cause>): (r: EntryParsing.EntryResult)
    requires Valid(s) && Advances(parse)
    decreases |parsers|
  {
    if parsers == [] then EntryParsing.NotReadable(Memory(s), causes, Cleared(s))
    else if !accepts(parsers[0]) then Resolve(parsers[1..], accepts, parse, s, causes)
    else
      match parse(parsers[0], s)
      case Crash => EntryParsing.EntryCrashed
      case Ok(entry, t) => EntryParsing.EntryRead(entry, Cleared(t))
      case Fail(c, t) =>
        Resolve(parsers[1..], accepts, parse, t, causes + [c])
  }

  /** One turn of the loop: the first parser, then the rest of the set. */
  lemma ResolveCons(p: EntryParser, rest: seq<EntryParser>, accepts: EntryParser -> bool,
                    parse: ParseFunction,
                    s: ReaderState, causes: seq<Cause>)
    requires Valid(s) && Advances(parse)
    ensures !accepts(p) ==> Resolve([p] + rest, accepts, parse, s, causes) == Resolve(rest, accepts, parse, s, causes)
    ensures accepts(p) ==>
              var o := parse(p, s);
              && (o.Crash? ==> Resolve([p] + rest, accepts, parse, s, causes) == EntryParsing.EntryCrashed)
              && (o.Ok? ==> Resolve([p] + rest, accepts, parse, s, causes) == EntryParsing.EntryRead(o.value, Cleared(o.state)))
              && (o.Fail? ==> Resolve([p] + rest, accepts, parse, s, causes) == Resolve(rest, accepts, parse, o.state, causes + [o.cause]))
  {
    assert ([p] + rest)[0] == p && ([p] + rest)[1..] == rest;
  }

  /** `parse` of the parsers of `EntryParsing` on the header line `line`, made total. */
  function ParseLine(line: string): (P: ParseFunction)
    ensures Advances(P)
  {
    (p, s) => if Valid(s) then EntryParsing.Parse(p, line, s) else Crash
  }

  /** With the `isParsable` and `parse` of `EntryParsing`, the loop is `TryParsers`. */
  lemma {:induction false} ResolveIsTryParsers(parsers: seq<EntryParsing.Parser>, line: string, s: ReaderState, causes: seq<Cause>)
    requires Valid(s)
    ensures Resolve(parsers, EntryParsing.Accepts(line), ParseLine(line), s, causes) == EntryParsing.TryParsers(parsers, line, s, causes)
    decreases |parsers|
  {
    if parsers != [] {
      if EntryParsing.IsParsable(parsers[0], line) {
        var o := EntryParsing.Parse(parsers[0], line, s);
        if o.Fail? {
          ResolveIsTryParsers(parsers[1..], line, o.state, causes + [o.cause]);
        }
      } else {
        ResolveIsTryParsers(parsers[1..], line, s, causes);
      }
    }
  }
}
