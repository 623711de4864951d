/**
 * The pieces of `java.util.regex` that the log grammar uses, on lines that
 * hold no line terminator:
 *  - a greedy run of one character class (`\s*`, `\w+`, `\d+`, a run of ' '),
 *  - literal text (`Pattern.quote`),
 *  - greedy `(.*)` groups separated by literal delimiters and anchored by `$`.
 * A greedy group backtracks from its longest choice to its shortest and keeps
 * the first choice for which the rest of the pattern matches; `Split` does the
 * same, so it returns exactly the groups `Matcher.group(i)` would.
 */
module Text {
  import opened Wrappers

  /** The character classes the patterns use. */
  datatype CharClass =
    | Space       // the literal ' ' counted by getNumberOfSpaces
    | Whitespace  // \s
    | Word        // \w
    | Digit       // \d
    | MethodName  // [\w.\(\)]

  predicate IsWordChar(c: char) {
    ('a' <= c <= 'z') || ('A' <= c <= 'Z') || ('0' <= c <= '9') || c == '_'
  }

  predicate InClass(cls: CharClass, c: char) {
    match cls
    case Space => c == ' '
    case Whitespace => c == ' ' || c == '\t' || c == '\n' || c == '\U{000B}' || c == '\U{000C}' || c == '\r'
    case Word => IsWordChar(c)
    case Digit => '0' <= c <= '9'
    case MethodName => IsWordChar(c) || c == '.' || c == '(' || c == ')'
  }

  /** Length of the longest prefix of `s` made of `cls` characters: what a greedy `cls*` matches. */
  function RunLength(s: string, cls: CharClass): (n: nat)
    ensures n <= |s|
    ensures forall i :: 0 <= i < n ==> InClass(cls, s[i])
    ensures n < |s| ==> !InClass(cls, s[n])
  {
    if s == [] || !InClass(cls, s[0]) then 0 else 1 + RunLength(s[1..], cls)
  }

  /** A run of `cls` characters that is followed by a character outside the class (or by the end) is the run. */
  lemma {:induction false} RunLengthUnique(s: string, cls: CharClass, n: nat)
    requires n <= |s|
    requires forall i :: 0 <= i < n ==> InClass(cls, s[i])
    requires n < |s| ==> !InClass(cls, s[n])
    ensures RunLength(s, cls) == n
  {
    if n > 0 {
      RunLengthUnique(s[1..], cls, n - 1);
    }
  }

  predicate StartsWith(s: string, prefix: string) {
    |prefix| <= |s| && s[..|prefix|] == prefix
  }

  /** `d` occurs in `s` starting at index `i`. */
  predicate OccursAt(s: string, d: string, i: int) {
    0 <= i && i + |d| <= |s| && s[i..i + |d|] == d
  }

  /** The text a pattern `(.*) d0 (.*) d1 ... (.*)` matches when its groups are `groups`. */
  function Join(groups: seq<string>, delims: seq<string>): string
    requires |groups| == |delims| + 1
    decreases |delims|
  {
    if delims == [] then groups[0] else groups[0] + delims[0] + Join(groups[1..], delims[1..])
  }

  /**
   * The groups of `^(.*) d0 (.*) d1 ... (.*)$` on `s`, as Java's backtracking
   * matcher finds them, or None when the pattern does not match.
   */
  function Split(s: string, delims: seq<string>): (r: Option<seq<string>>)
    decreases |delims|, 1, 0
    ensures r.Some? ==> |r.value| == |delims| + 1 && Join(r.value, delims) == s
  {
    if delims == [] then Some([s]) else SplitFrom(s, delims, |s|)
  }

  /** Tries the first group at lengths `i`, `i - 1`, ..., 0, keeping the first that lets the rest match. */
  function SplitFrom(s: string, delims: seq<string>, i: int): (r: Option<seq<string>>)
    requires delims != [] && i <= |s|
    decreases |delims|, 0, i + 1
    ensures r.Some? ==> |r.value| == |delims| + 1 && Join(r.value, delims) == s && |r.value[0]| <= i
  {
    if i < 0 then None
    else if OccursAt(s, delims[0], i) then
      match Split(s[i + |delims[0]|..], delims[1..])
      case Some(rest) =>
        assert s == s[..i] + delims[0] + s[i + |delims[0]|..];
        assert ([s[..i]] + rest)[1..] == rest;
        Some([s[..i]] + rest)
      case None => SplitFrom(s, delims, i - 1)
    else SplitFrom(s, delims, i - 1)
  }

  /** Reading a joined text back: its first group, the first delimiter right after it, and the rest. */
  lemma JoinParts(groups: seq<string>, delims: seq<string>)
    requires |groups| == |delims| + 1 && delims != []
    ensures var s := Join(groups, delims);
      OccursAt(s, delims[0], |groups[0]|) && s[..|groups[0]|] == groups[0] &&
      s[|groups[0]| + |delims[0]|..] == Join(groups[1..], delims[1..])
  {
  }

  /**
   * Greedy matching: whenever the text can be cut into groups around the
   * delimiters, `Split` matches, and its first group is the longest possible.
   */
  lemma {:induction false} SplitFindsLongestFirstGroup(s: string, delims: seq<string>, groups: seq<string>)
    requires |groups| == |delims| + 1 && Join(groups, delims) == s
    ensures Split(s, delims).Some?
    ensures |groups[0]| <= |Split(s, delims).value[0]|
    decreases |delims|, 1
  {
    if delims != [] {
      SplitFromFindsLongest(s, delims, groups, |s|);
    }
  }

  lemma {:induction false} SplitFromFindsLongest(s: string, delims: seq<string>, groups: seq<string>, i: int)
    requires delims != [] && |groups| == |delims| + 1 && Join(groups, delims) == s
    requires |groups[0]| <= i <= |s|
    ensures SplitFrom(s, delims, i).Some?
    ensures |groups[0]| <= |SplitFrom(s, delims, i).value[0]|
    decreases |delims|, 0, i
  {
    JoinParts(groups, delims);
    if OccursAt(s, delims[0], i) && Split(s[i + |delims[0]|..], delims[1..]).Some? {
    } else if i == |groups[0]| {
      SplitFindsLongestFirstGroup(s[i + |delims[0]|..], delims[1..], groups[1..]);
    } else {
      SplitFromFindsLongest(s, delims, groups, i - 1);
    }
  }

  /** `Split` matches exactly the texts that can be cut into groups around the delimiters. */
  lemma SplitMatchesIffJoin(s: string, delims: seq<string>)
    ensures Split(s, delims).Some? <==>
      exists groups :: |groups| == |delims| + 1 && Join(groups, delims) == s
  {
    if exists groups :: |groups| == |delims| + 1 && Join(groups, delims) == s {
      var groups :| |groups| == |delims| + 1 && Join(groups, delims) == s;
      SplitFindsLongestFirstGroup(s, delims, groups);
    }
  }

  /**
   * Each delimiter occurs, past the group before it, nowhere but where the
   * groups put it: the groups a greedy matcher reads back are then these.
   */
  predicate Unambiguous(groups: seq<string>, delims: seq<string>)
    requires |groups| == |delims| + 1
    decreases |delims|
  {
    || delims == []
    || (&& (forall p :: |groups[0]| < p <= |Join(groups, delims)| ==> !OccursAt(Join(groups, delims), delims[0], p))
        && Unambiguous(groups[1..], delims[1..]))
  }

  /** Unambiguous groups are read back exactly. */
  lemma {:induction false} SplitExact(groups: seq<string>, delims: seq<string>)
    requires |groups| == |delims| + 1 && Unambiguous(groups, delims)
    ensures Split(Join(groups, delims), delims) == Some(groups)
    decreases |delims|, 1
  {
    if delims == [] {
      assert groups == [groups[0]];
    } else {
      SplitFromExact(groups, delims, |Join(groups, delims)|);
    }
  }

  lemma {:induction false} SplitFromExact(groups: seq<string>, delims: seq<string>, i: int)
    requires delims != [] && |groups| == |delims| + 1 && Unambiguous(groups, delims)
    requires |groups[0]| <= i <= |Join(groups, delims)|
    ensures SplitFrom(Join(groups, delims), delims, i) == Some(groups)
    decreases |delims|, 0, i
  {
    var s := Join(groups, delims);
    JoinParts(groups, delims);
    if i == |groups[0]| {
      SplitExact(groups[1..], delims[1..]);
      assert [s[..i]] + groups[1..] == groups;
    } else {
      assert !OccursAt(s, delims[0], i);
      SplitFromExact(groups, delims, i - 1);
    }
  }

  /** The whitespace run of an indented header and the `(.*)` groups after its keyword. */
  datatype Indented = Indented(indentation: nat, groups: seq<string>)

  /** `line` has the shape `prefix ws keyword Join(groups, delims)` with `ws` all whitespace. */
  predicate IsIndentedShape(line: string, prefix: string, keyword: string, delims: seq<string>, ws: string, groups: seq<string>) {
    |groups| == |delims| + 1 && (forall i :: 0 <= i < |ws| ==> InClass(Whitespace, ws[i])) &&
    line == prefix + ws + keyword + Join(groups, delims)
  }

  /** `m` is a match of `^prefix(\s*)keyword(.*)d0(.*)...$` on `line`: its run and groups cut the line back into its literal parts. */
  predicate IsMatch(line: string, prefix: string, keyword: string, delims: seq<string>, m: Indented) {
    |prefix| + m.indentation <= |line| && IsIndentedShape(line, prefix, keyword, delims, line[|prefix|..|prefix| + m.indentation], m.groups)
  }

  /**
   * The pattern `^prefix(\s*)keyword(.*)d0(.*)...$`: the length of the
   * whitespace run and the groups, or None when the line does not match.
   * The keyword starts with a non-whitespace character, so the run is always
   * the maximal one.
   */
  function MatchIndented(line: string, prefix: string, keyword: string, delims: seq<string>): (r: Option<Indented>)
    requires keyword != [] && !InClass(Whitespace, keyword[0])
    ensures r.Some? ==>
              && |prefix| + r.value.indentation <= |line|
              && IsIndentedShape(line, prefix, keyword, delims, line[|prefix|..|prefix| + r.value.indentation], r.value.groups)
  {
    if !StartsWith(line, prefix) then None
    else
      var content := line[|prefix|..];
      var ws := RunLength(content, Whitespace);
      var rest := content[ws..];
      if !StartsWith(rest, keyword) then None
      else
        match Split(rest[|keyword|..], delims)
        case None => None
        case Some(groups) =>
          IndentedParts(line, prefix, keyword, delims, ws, groups);
          Some(Indented(ws, groups))
  }

  /** A line cut as `MatchIndented` cuts it has the indented shape. */
  lemma IndentedParts(line: string, prefix: string, keyword: string, delims: seq<string>, ws: nat, groups: seq<string>)
    requires StartsWith(line, prefix) && ws <= |line| - |prefix|
    requires forall i :: 0 <= i < ws ==> InClass(Whitespace, line[|prefix|..][i])
    requires StartsWith(line[|prefix|..][ws..], keyword)
    requires |groups| == |delims| + 1 && Join(groups, delims) == line[|prefix|..][ws..][|keyword|..]
    ensures IsIndentedShape(line, prefix, keyword, delims, line[|prefix|..|prefix| + ws], groups)
  {
    var content := line[|prefix|..];
    var rest := content[ws..];
    assert line == prefix + content;
    assert content == content[..ws] + rest;
    assert rest == keyword + rest[|keyword|..];
    assert line[|prefix|..|prefix| + ws] == content[..ws];
  }

  /**
   * Every line of that shape matches: the run found is the line's whole
   * whitespace run and the first group is the longest possible.
   */
  lemma MatchIndentedComplete(line: string, prefix: string, keyword: string, delims: seq<string>, ws: string, groups: seq<string>)
    requires keyword != [] && !InClass(Whitespace, keyword[0])
    requires IsIndentedShape(line, prefix, keyword, delims, ws, groups)
    ensures MatchIndented(line, prefix, keyword, delims).Some?
    ensures MatchIndented(line, prefix, keyword, delims).value.indentation == |ws|
    ensures |groups[0]| <= |MatchIndented(line, prefix, keyword, delims).value.groups[0]|
  {
    var content := line[|prefix|..];
    assert content == ws + keyword + Join(groups, delims);
    RunLengthUnique(content, Whitespace, |ws|);
    assert content[|ws|..] == keyword + Join(groups, delims);
    assert content[|ws|..][|keyword|..] == Join(groups, delims);
    SplitFindsLongestFirstGroup(Join(groups, delims), delims, groups);
  }

  /**
   * With one delimiter that occurs after the first group nowhere but where the
   * groups put it, the groups are read back exactly.
   */
  lemma SplitOneExact(a: string, d: string, b: string)
    requires forall p :: |a| < p <= |a| + |b| ==> !OccursAt(a + d + b, d, p)
    ensures Split(a + d + b, [d]) == Some([a, b])
  {
    SplitOneFrom(a, d, b, |a + d + b|);
  }

  lemma {:induction false} SplitOneFrom(a: string, d: string, b: string, i: int)
    requires |a| <= i <= |a + d + b|
    requires forall p :: |a| < p <= |a| + |b| ==> !OccursAt(a + d + b, d, p)
    ensures SplitFrom(a + d + b, [d], i) == Some([a, b])
    decreases i
  {
    var s := a + d + b;
    if i == |a| {
      assert s[..i] == a && s[i..i + |d|] == d && s[i + |d|..] == b;
      assert OccursAt(s, d, i);
      assert [d][1..] == [];
      assert Split(s[i + |d|..], [d][1..]) == Some([b]);
      assert [a] + [b] == [a, b];
    } else {
      assert !OccursAt(s, d, i);
      SplitOneFrom(a, d, b, i - 1);
    }
  }

  /** A header with one delimiter is read back exactly: its whitespace run and both groups. */
  lemma MatchIndentedOneExact(prefix: string, ws: string, keyword: string, a: string, d: string, b: string)
    requires keyword != [] && !InClass(Whitespace, keyword[0])
    requires forall i :: 0 <= i < |ws| ==> InClass(Whitespace, ws[i])
    requires forall p :: |a| < p <= |a| + |b| ==> !OccursAt(a + d + b, d, p)
    ensures MatchIndented(prefix + ws + keyword + (a + d + b), prefix, keyword, [d]) == Some(Indented(|ws|, [a, b]))
  {
    var line := prefix + ws + keyword + (a + d + b);
    assert Join([a, b], [d]) == a + d + b;
    MatchIndentedComplete(line, prefix, keyword, [d], ws, [a, b]);
    var content := line[|prefix|..];
    assert content == ws + keyword + (a + d + b);
    RunLengthUnique(content, Whitespace, |ws|);
    assert content[|ws|..][|keyword|..] == a + d + b;
    SplitOneExact(a, d, b);
  }

  /** A header with unambiguous groups is read back exactly: its whitespace run and its groups. */
  lemma MatchIndentedExact(prefix: string, ws: string, keyword: string, groups: seq<string>, delims: seq<string>)
    requires keyword != [] && !InClass(Whitespace, keyword[0])
    requires forall i :: 0 <= i < |ws| ==> InClass(Whitespace, ws[i])
    requires |groups| == |delims| + 1 && Unambiguous(groups, delims)
    ensures MatchIndented(prefix + ws + keyword + Join(groups, delims), prefix, keyword, delims) == Some(Indented(|ws|, groups))
  {
    var line := prefix + ws + keyword + Join(groups, delims);
    var content := line[|prefix|..];
    assert content == ws + keyword + Join(groups, delims);
    RunLengthUnique(content, Whitespace, |ws|);
    assert content[|ws|..][|keyword|..] == Join(groups, delims);
    SplitExact(groups, delims);
  }

  /** A header with no delimiter is read back exactly: its whitespace run and the rest of the line. */
  lemma MatchIndentedRestExact(prefix: string, ws: string, keyword: string, rest: string)
    requires keyword != [] && !InClass(Whitespace, keyword[0])
    requires forall i :: 0 <= i < |ws| ==> InClass(Whitespace, ws[i])
    ensures MatchIndented(prefix + ws + keyword + rest, prefix, keyword, []) == Some(Indented(|ws|, [rest]))
  {
    var line := prefix + ws + keyword + rest;
    var content := line[|prefix|..];
    assert content == ws + keyword + rest;
    RunLengthUnique(content, Whitespace, |ws|);
    assert content[|ws|..][|keyword|..] == rest;
  }

  /** Two patterns whose keywords start differently never match the same line. */
  lemma KeywordsExclusive(line: string, prefix: string, k1: string, d1: seq<string>, k2: string, d2: seq<string>)
    requires k1 != [] && !InClass(Whitespace, k1[0])
    requires k2 != [] && !InClass(Whitespace, k2[0])
    requires k1[0] != k2[0]
    ensures MatchIndented(line, prefix, k1, d1).None? || MatchIndented(line, prefix, k2, d2).None?
  {
  }
}
