/**
 * `LogReaderUtils.fromInputAndExtraLineReader`: the nested log reader a block
 * parser builds over its own line reader. It delivers the header's next line
 * unchecked, then the enclosing reader's lines while the read condition holds,
 * pulling each one from the enclosing reader only when it needs it.
 */
module LogReaderUtils {
  import opened Wrappers
  import opened LineReaders

  /** The lines a condition-scoped reader (`LineReader.readWhile`) can deliver, and whether asking past them crashes. */
  datatype Scope = Scope(lines: seq<string>, crashes: bool)

  /**
   * `readWhile(lineReader, condition)`: the longest prefix of `lines` whose
   * every line satisfies the condition. Asking past it crashes when the
   * condition could not be evaluated on the line that ends it, or, when the
   * prefix is everything, when the enclosing reader itself crashes there.
   */
  function TakeWhile(c: LineCondition, lines: seq<string>, crashes: bool): (r: Scope)
    ensures |r.lines| <= |lines| && r.lines == lines[..|r.lines|]
    ensures forall i :: 0 <= i < |r.lines| ==> Evaluate(c, lines[i]) == Some(true)
    ensures |r.lines| < |lines| ==> Evaluate(c, lines[|r.lines|]) != Some(true)
    ensures |r.lines| < |lines| ==> (r.crashes <==> Evaluate(c, lines[|r.lines|]).None?)
    ensures |r.lines| == |lines| ==> r.crashes == crashes
  {
    if lines == [] then Scope([], crashes)
    else
      match Evaluate(c, lines[0])
      case None => Scope([], true)
      case Some(false) => Scope([], false)
      case Some(true) =>
        var rest := TakeWhile(c, lines[1..], crashes);
        Scope([lines[0]] + rest.lines, rest.crashes)
  }

  /** The lines `s` has yet to deliver. */
  function Upcoming(s: ReaderState): seq<string>
    requires Valid(s)
  {
    s.source[s.pos..]
  }

  /**
   * The state of the reader returned by `fromInputAndExtraLineReader(input,
   * lineReader, condition, …)` when `lineReader` reads from `parent`: nothing
   * recorded yet, `input` first (already in hand), then the scoped lines.
   */
  function FromInputAndExtraLineReader(input: string, parent: ReaderState, c: LineCondition): (r: ReaderState)
    requires Valid(parent)
    ensures Valid(r) && Memory(r) == [] && r.pos == 0 && More(r) && r.source[0] == input
    ensures Pending(r) == |r.source| - 1 <= |parent.source| - parent.pos
    ensures r.source[1..] == TakeWhile(c, Upcoming(parent), parent.crashes).lines
  {
    var scope := TakeWhile(c, Upcoming(parent), parent.crashes);
    ReaderState([input] + scope.lines, 0, 0, scope.crashes, 1, false)
  }

  /**
   * The enclosing reader once the nested one has gone from `start` to `end`:
   * every line the nested reader pulled is consumed and recorded by the
   * enclosing one, and a nested probe past the scope leaves the line that
   * ended it in the enclosing reader's peek buffer.
   */
  function Resume(parent: ReaderState, start: ReaderState, end: ReaderState): (r: ReaderState)
    requires Valid(parent) && parent.lookahead == 0
    requires 0 <= Pending(start) - Pending(end) <= |parent.source| - parent.pos
    ensures Advanced(parent, r)
    ensures r.pos - parent.pos == Pending(start) - Pending(end)
    ensures r.probed <==> parent.probed || (end.probed && !More(r))
    ensures r.lookahead == 1 <==> end.probed && More(r)
  {
    var pos := parent.pos + (Pending(start) - Pending(end));
    ReaderState(parent.source, pos, parent.mark, parent.crashes,
                if end.probed && pos < |parent.source| then 1 else 0,
                parent.probed || (end.probed && pos == |parent.source|))
  }

  /** A nested reader never pulls more lines than its enclosing reader still holds. */
  lemma NestedPullsFromParent(input: string, parent: ReaderState, c: LineCondition, end: ReaderState)
    requires Valid(parent) && Follows(FromInputAndExtraLineReader(input, parent, c), end)
    ensures 0 <= Pending(FromInputAndExtraLineReader(input, parent, c)) - Pending(end) <= |parent.source| - parent.pos
  {
  }

  /**
   * Scoping: a nested reader started on `parent` delivers, after `input`,
   * only lines of `parent` satisfying the condition, in their order, and
   * never a line after the first one that fails it.
   */
  lemma {:induction false} ScopedLines(input: string, parent: ReaderState, c: LineCondition, i: nat)
    requires Valid(parent)
    requires 1 <= i < |FromInputAndExtraLineReader(input, parent, c).source|
    ensures var nested := FromInputAndExtraLineReader(input, parent, c);
            && nested.source[i] == parent.source[parent.pos + i - 1]
            && Evaluate(c, nested.source[i]) == Some(true)
            && forall j :: parent.pos <= j < parent.pos + i ==> Evaluate(c, parent.source[j]) == Some(true)
  {
    var up := Upcoming(parent);
    var scope := TakeWhile(c, up, parent.crashes);
    ConsIndex(input, scope.lines, i);
    PrefixIndex(up, |scope.lines|, i - 1);
    UpcomingIndex(parent, i - 1);
    forall j | parent.pos <= j < parent.pos + i
      ensures Evaluate(c, parent.source[j]) == Some(true)
    {
      UpcomingIndex(parent, j - parent.pos);
    }
  }

  /**
   * A nested reader over `input` and the lines of `parent` up to `end`, when
   * exactly those lines satisfy the condition and the line at `end`, if
   * any, fails it: its log is `input` then those lines, and it throws past
   * them only when no line ended the scope and `parent` throws.
   */
  lemma {:induction false} ScopeUpTo(input: string, parent: ReaderState, c: LineCondition, end: nat)
    requires Valid(parent) && parent.pos <= end <= |parent.source|
    requires forall j :: parent.pos <= j < end ==> Evaluate(c, parent.source[j]) == Some(true)
    requires end < |parent.source| ==> Evaluate(c, parent.source[end]) == Some(false)
    ensures var nested := FromInputAndExtraLineReader(input, parent, c);
            && nested.source == [input] + parent.source[parent.pos..end]
            && nested.crashes == (end == |parent.source| && parent.crashes)
  {
    var up := Upcoming(parent);
    var scope := TakeWhile(c, up, parent.crashes);
    var k := end - parent.pos;
    var n := |scope.lines|;
    if n < k {
      UpcomingIndex(parent, n);
      assert false;
    } else if n > k {
      assert false;
    }
    assert scope.lines == up[..k] == parent.source[parent.pos..end];
  }

  lemma ConsIndex<T>(x: T, xs: seq<T>, i: nat)
    requires 1 <= i <= |xs|
    ensures ([x] + xs)[i] == xs[i - 1]
  {
  }

  lemma PrefixIndex<T>(xs: seq<T>, n: nat, i: nat)
    requires i < n <= |xs|
    ensures xs[..n][i] == xs[i]
  {
  }

  lemma UpcomingIndex(s: ReaderState, k: nat)
    requires Valid(s) && s.pos + k < |s.source|
    ensures Upcoming(s)[k] == s.source[s.pos + k]
  {
  }

  /**
   * A nested reader ends exactly at the first line of `parent` failing the
   * condition: every earlier line is inside the scope.
   */
  lemma {:induction false} ScopeEndsAtFirstFailure(input: string, parent: ReaderState, c: LineCondition, k: nat)
    requires Valid(parent)
    requires parent.pos + k < |parent.source| && Evaluate(c, parent.source[parent.pos + k]) != Some(true)
    requires forall j :: parent.pos <= j < parent.pos + k ==> Evaluate(c, parent.source[j]) == Some(true)
    ensures |FromInputAndExtraLineReader(input, parent, c).source| == k + 1
  {
    var up := Upcoming(parent);
    var scope := TakeWhile(c, up, parent.crashes);
    assert up[k] == parent.source[parent.pos + k];
    forall j | 0 <= j < k
      ensures Evaluate(c, up[j]) == Some(true)
    {
      assert up[j] == parent.source[parent.pos + j];
    }
  }
}
