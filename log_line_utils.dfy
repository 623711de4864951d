/**
 * `LogLineUtils`: recognising Hearthstone log lines of the form
 * `[LoggerName] Class.MethodCall() - content`, reading their content and
 * counting the spaces that indent it.
 */
module LogLineUtils {
  import opened Wrappers
  import opened Text

  /** `^\[\w+\].*`: a '[', a non-empty run of word characters, then ']'. */
  predicate IsFromNamedLogger(line: string) {
    |line| >= 1 && line[0] == '[' &&
    var n := RunLength(line[1..], Word);
    n >= 1 && n + 1 < |line| && line[n + 1] == ']'
  }

  /** Every character of `s` is in the class: the greedy run covers all of `s`. */
  predicate AllIn(cls: CharClass, s: string) {
    RunLength(s, cls) == |s|
  }

  /** `isFromNamedLogger` holds exactly for the lines that start with `[name]` for a non-empty word `name`. */
  lemma IsFromNamedLoggerIff(line: string)
    ensures IsFromNamedLogger(line) <==>
      exists name: string, rest: string :: name != [] && AllIn(Word, name) && line == "[" + name + "]" + rest
  {
    if IsFromNamedLogger(line) {
      var n := RunLength(line[1..], Word);
      var name, rest := line[1..n + 1], line[n + 2..];
      assert forall i :: 0 <= i < |name| ==> name[i] == line[1..][i];
      RunLengthUnique(name, Word, n);
      assert line == "[" + name + "]" + rest;
    }
    if exists name: string, rest: string :: name != [] && AllIn(Word, name) && line == "[" + name + "]" + rest {
      var name: string, rest: string :| name != [] && AllIn(Word, name) && line == "[" + name + "]" + rest;
      assert line[1..] == name + "]" + rest;
      RunLengthUnique(line[1..], Word, |name|);
    }
  }

  /** The three parts of `^\[\w+\] [\w.\(\)]+ - (.*)$`. */
  datatype LogLine = LogLine(logger: string, methodCall: string, content: string)

  /** `line` is `[logger] method - content` with a word logger name and a method name of `[\w.()]` characters. */
  predicate IsLogLine(line: string, l: LogLine) {
    l.logger != [] && AllIn(Word, l.logger) && l.methodCall != [] && AllIn(MethodName, l.methodCall) &&
    line == "[" + l.logger + "] " + l.methodCall + " - " + l.content
  }

  /**
   * The match of `LOG_LINE_PATTERN`, or None. The logger name and the method
   * name are maximal runs because the character after each (']' and ' ') is
   * outside its class, so greedy matching cannot give them back.
   */
  function ParseLogLine(line: string): (r: Option<LogLine>)
    ensures r.Some? ==> IsLogLine(line, r.value)
  {
    if !IsFromNamedLogger(line) then None
    else
      var n := RunLength(line[1..], Word);
      var rest := line[n + 2..];
      if |rest| < 1 || rest[0] != ' ' then None
      else
        var m := RunLength(rest[1..], MethodName);
        var after := rest[m + 1..];
        if m == 0 || !StartsWith(after, " - ") then None
        else
          var l := LogLine(line[1..n + 1], rest[1..m + 1], after[3..]);
          LogLineParts(line, n, m);
          Some(l)
  }

  /** Reassembles a line from the pieces `ParseLogLine` cuts it into. */
  lemma LogLineParts(line: string, n: nat, m: nat)
    requires n >= 1 && n + 2 <= |line| && line[0] == '[' && line[n + 1] == ']'
    requires RunLength(line[1..], Word) == n
    requires var rest := line[n + 2..];
      && |rest| >= 1 && rest[0] == ' ' && m >= 1 && RunLength(rest[1..], MethodName) == m
      && StartsWith(rest[m + 1..], " - ")
    ensures var rest := line[n + 2..]; var after := rest[m + 1..];
      IsLogLine(line, LogLine(line[1..n + 1], rest[1..m + 1], after[3..]))
  {
    var rest := line[n + 2..];
    var after := rest[m + 1..];
    var logger, methodCall, content := line[1..n + 1], rest[1..m + 1], after[3..];
    assert forall i :: 0 <= i < n ==> logger[i] == line[1..][i];
    RunLengthUnique(logger, Word, n);
    assert forall i :: 0 <= i < m ==> methodCall[i] == rest[1..][i];
    RunLengthUnique(methodCall, MethodName, m);
    LogLineConcat(line, n, m);
  }

  lemma LogLineConcat(line: string, n: nat, m: nat)
    requires n + 2 <= |line| && line[0] == '[' && line[n + 1] == ']'
    requires var rest := line[n + 2..];
      && |rest| >= m + 1 && rest[0] == ' ' && StartsWith(rest[m + 1..], " - ")
    ensures var rest := line[n + 2..]; var after := rest[m + 1..];
      line == "[" + line[1..n + 1] + "] " + rest[1..m + 1] + " - " + after[3..]
  {
    var rest := line[n + 2..];
    var after := rest[m + 1..];
    var logger, methodCall, content := line[1..n + 1], rest[1..m + 1], after[3..];
    assert after == " - " + content by {
      assert after == after[..3] + after[3..];
    }
    assert rest == " " + methodCall + after by {
      assert rest == rest[..1] + rest[1..m + 1] + rest[m + 1..];
    }
    assert line == "[" + logger + "]" + rest by {
      assert line == line[..1] + line[1..n + 1] + line[n + 1..n + 2] + line[n + 2..];
    }
    Reassemble(line, logger, methodCall, content, rest, after);
  }

  lemma Reassemble(line: string, logger: string, methodCall: string, content: string, rest: string, after: string)
    requires after == " - " + content
    requires rest == " " + methodCall + after
    ensures line == "[" + logger + "]" + rest <==> line == "[" + logger + "] " + methodCall + " - " + content
  {
    assert "] " == "]" + " ";
    assert " - " == " " + "-" + " ";
  }

  /** Every line of the shape is recognised, with exactly those parts: the shape determines the parts. */
  lemma ParseLogLineComplete(line: string, l: LogLine)
    requires IsLogLine(line, l)
    ensures ParseLogLine(line) == Some(l)
  {
    var tail := " " + l.methodCall + " - " + l.content;
    Reassemble(line, l.logger, l.methodCall, l.content, tail, " - " + l.content);
    LoggerPart(line, l.logger, tail);
    MethodCallPart(tail, l.methodCall, l.content);
    var after := tail[|l.methodCall| + 1..];
    assert after[3..] == l.content;
    assert StartsWith(after, " - ");
  }

  /** The logger part of a line `[logger]tail`: the word run after '[' is the logger name. */
  lemma LoggerPart(line: string, logger: string, tail: string)
    requires logger != [] && AllIn(Word, logger) && tail != [] && tail[0] == ' '
    requires line == "[" + logger + "]" + tail
    ensures IsFromNamedLogger(line) && RunLength(line[1..], Word) == |logger|
    ensures line[1..|logger| + 1] == logger && line[|logger| + 2..] == tail
  {
    var a := |logger|;
    assert line[1..] == logger + "]" + tail;
    assert forall i :: 0 <= i < a ==> line[1..][i] == logger[i];
    RunLengthUnique(line[1..], Word, a);
  }

  /** The method-call part of a tail ` methodCall - content`. */
  lemma MethodCallPart(tail: string, methodCall: string, content: string)
    requires methodCall != [] && AllIn(MethodName, methodCall)
    requires tail == " " + methodCall + " - " + content
    ensures RunLength(tail[1..], MethodName) == |methodCall|
    ensures tail[1..|methodCall| + 1] == methodCall && tail[|methodCall| + 1..] == " - " + content
  {
    var b := |methodCall|;
    assert tail[1..] == methodCall + " - " + content;
    assert forall i :: 0 <= i < b ==> tail[1..][i] == methodCall[i];
    RunLengthUnique(tail[1..], MethodName, b);
  }

  /** A log line is always from a named logger. */
  lemma LogLineIsFromNamedLogger(line: string)
    requires ParseLogLine(line).Some?
    ensures IsFromNamedLogger(line)
  {
  }

  /**
   * `getContentFromLineFromNamedLogger`: the content after " - ", or None
   * for the `IllegalArgumentException` thrown on any other line.
   */
  function Content(line: string): (r: Option<string>)
    ensures r.Some? <==> ParseLogLine(line).Some?
    ensures r.Some? ==> r.value == ParseLogLine(line).value.content
  {
    match ParseLogLine(line)
    case None => None
    case Some(l) => Some(l.content)
  }

  /** `countLeadingSpaces`: the number of ' ' characters that start the text. */
  function CountLeadingSpaces(s: string): (n: nat)
    ensures n <= |s|
    ensures forall i :: 0 <= i < n ==> s[i] == ' '
    ensures n < |s| ==> s[n] != ' '
  {
    RunLength(s, Space)
  }

  /** The leading-space count of a log line's content, or None when the line is no log line. */
  function NumberOfSpaces(line: string): (r: Option<nat>)
    ensures r.Some? <==> Content(line).Some?
    ensures r.Some? ==> r.value == CountLeadingSpaces(Content(line).value)
  {
    match Content(line)
    case None => None
    case Some(content) => Some(CountLeadingSpaces(content))
  }

  /**
   * `getNumberOfSpaces`: None stands for the `NotParsableException` thrown
   * when the line is not a log line; otherwise the number of ' ' characters
   * that start its content, counted up to the first other character.
   */
  method GetNumberOfSpaces(line: string) returns (r: Option<nat>)
    ensures r == NumberOfSpaces(line)
  {
    var matcher := Content(line);
    if matcher.None? {
      return None;
    }
    var spaces := CountSpaces(matcher.value);
    return Some(spaces);
  }

  /** The counting loop of `getNumberOfSpaces`: it stops at the first character that is not ' '. */
  method CountSpaces(content: string) returns (spaces: nat)
    ensures spaces == CountLeadingSpaces(content)
  {
    spaces := 0;
    var i := 0;
    while i < |content|
      invariant 0 <= i <= |content| && spaces == i
      invariant forall j :: 0 <= j < i ==> content[j] == ' '
    {
      var character := content[i];
      if character == ' ' {
        spaces := spaces + 1;
      } else {
        break;
      }
      i := i + 1;
    }
    RunLengthUnique(content, Space, spaces);
  }

  /** The literal prefix of every `[Power]` line the parsers read. */
  const PowerPrefix: string := "[Power] " + "GameState.DebugPrintPower()" + " - "
  /** The literal prefix of every `[Zone]` line the parsers read. */
  const ZonePrefix: string := "[Zone] " + "ZoneChangeList.ProcessChanges()" + " - "

  /** On a `[Power]` line the content is everything after the prefix. */
  lemma PowerContent(rest: string)
    ensures ParseLogLine(PowerPrefix + rest) == Some(LogLine("Power", "GameState.DebugPrintPower()", rest))
    ensures Content(PowerPrefix + rest) == Some(rest)
  {
    PowerNames();
    PowerPrefixParts(rest);
    ParseLogLineComplete(PowerPrefix + rest, LogLine("Power", "GameState.DebugPrintPower()", rest));
  }

  /** On a `[Zone]` line the content is everything after the prefix. */
  lemma ZoneContent(rest: string)
    ensures ParseLogLine(ZonePrefix + rest) == Some(LogLine("Zone", "ZoneChangeList.ProcessChanges()", rest))
    ensures Content(ZonePrefix + rest) == Some(rest)
  {
    ZoneNames();
    ZonePrefixParts(rest);
    ParseLogLineComplete(ZonePrefix + rest, LogLine("Zone", "ZoneChangeList.ProcessChanges()", rest));
  }

  lemma PowerNames()
    ensures AllIn(Word, "Power") && AllIn(MethodName, "GameState.DebugPrintPower()")
  {
    RunLengthUnique("Power", Word, 5);
    RunLengthUnique("GameState.DebugPrintPower()", MethodName, 27);
  }

  lemma PowerPrefixParts(rest: string)
    ensures PowerPrefix + rest == "[" + "Power" + "] " + "GameState.DebugPrintPower()" + " - " + rest
  {
  }

  lemma ZoneNames()
    ensures AllIn(Word, "Zone") && AllIn(MethodName, "ZoneChangeList.ProcessChanges()")
  {
    RunLengthUnique("Zone", Word, 4);
    RunLengthUnique("ZoneChangeList.ProcessChanges()", MethodName, 31);
  }

  lemma ZonePrefixParts(rest: string)
    ensures ZonePrefix + rest == "[" + "Zone" + "] " + "ZoneChangeList.ProcessChanges()" + " - " + rest
  {
  }

  // Long literals are written as concatenations of shorter ones, which denote the same strings.

  /** The log line example of LogLineUtilsTest: its content is what follows " - ". */
  lemma ExampleLogLine()
    ensures IsFromNamedLogger("[Power] " + "GameState.DebugPrintPowerList()" + " - Count=66")
    ensures Content("[Power] " + "GameState.DebugPrintPowerList()" + " - Count=66") == Some("Count=66")
  {
    var line := "[Power] " + "GameState.DebugPrintPowerList()" + " - Count=66";
    var l := LogLine("Power", "GameState.DebugPrintPowerList()", "Count=66");
    ExampleParts();
    ParseLogLineComplete(line, l);
  }

  lemma ExampleParts()
    ensures IsLogLine("[Power] " + "GameState.DebugPrintPowerList()" + " - Count=66",
                      LogLine("Power", "GameState.DebugPrintPowerList()", "Count=66"))
  {
    ExampleNames();
    ExampleConcat();
  }

  lemma ExampleNames()
    ensures AllIn(Word, "Power") && AllIn(MethodName, "GameState.DebugPrintPowerList()")
  {
    RunLengthUnique("Power", Word, 5);
    RunLengthUnique("GameState.DebugPrintPowerList()", MethodName, 31);
  }

  lemma ExampleConcat()
    ensures "[Power] " + "GameState.DebugPrintPowerList()" + " - Count=66" ==
            "[" + "Power" + "] " + "GameState.DebugPrintPowerList()" + " - " + "Count=66"
  {
    assert "[Power] " == "[" + "Power" + "] ";
    assert " - Count=66" == " - " + "Count=66";
  }

  /** The engine start-up line of LogLineUtilsTest comes from no named logger and has no content. */
  lemma ExampleNotFromLogger()
    ensures !IsFromNamedLogger("Initialize engine version: " + "4.5.5p3 (b8dc95101aa8)")
    ensures Content("Initialize engine version: " + "4.5.5p3 (b8dc95101aa8)") == None
  {
    assert ("Initialize engine version: " + "4.5.5p3 (b8dc95101aa8)")[0] == 'I';
  }

  /** The leading-space examples of LogLineUtilsTest. */
  lemma ExampleLeadingSpaces()
    ensures CountLeadingSpaces("CREATE_GAME") == 0
    ensures CountLeadingSpaces("    GameEntity EntityID=1") == 4
  {
    RunLengthUnique("    GameEntity EntityID=1", Space, 4);
  }
}
