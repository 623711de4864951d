/**
 * `MatchingIterator.fromIterator`: an iterator with a one-element lookahead
 * buffer, so that a caller can test the next element against a condition
 * without consuming it.
 */
module MatchingIterators {
  import opened Wrappers

  class MatchingIterator<E> {
    /** The elements the wrapped iterator hands out, in order. */
    const source: seq<E>
    /** How many of them the wrapped iterator has handed out so far. */
    var pos: nat
    /** Elements taken from the wrapped iterator but not yet returned by `next`. */
    var peekedElements: seq<E>

    /** The buffer is empty or holds exactly the last element taken from the wrapped iterator. */
    ghost predicate Valid()
      reads this
    {
      pos <= |source| && (peekedElements == [] || (1 <= pos && peekedElements == [source[pos - 1]]))
    }

    /** How many elements `next` has returned so far. */
    function Returned(): nat
      reads this
      requires Valid()
    {
      pos - |peekedElements|
    }

    /** The elements `next` will still return, in order. */
    ghost function Remaining(): seq<E>
      reads this
      requires Valid()
    {
      source[Returned()..]
    }

    constructor FromIterator(source: seq<E>)
      ensures Valid() && this.source == source
      ensures Returned() == 0 && Remaining() == source && peekedElements == []
    {
      this.source := source;
      pos := 0;
      peekedElements := [];
    }

    /**
     * The private `peek`: the next element, taken from the wrapped iterator
     * only when the buffer is empty, and left in the buffer.
     */
    method Peek() returns (r: Option<E>)
      requires Valid()
      modifies this
      ensures Valid() && Returned() == old(Returned())
      ensures r == if Returned() == |source| then None else Some(source[Returned()])
      ensures old(peekedElements) != [] ==> pos == old(pos) && peekedElements == old(peekedElements)
      ensures r.Some? ==> peekedElements == [r.value]
      ensures r.None? ==> peekedElements == [] && pos == old(pos)
    {
      if |peekedElements| > 0 {
        return Some(peekedElements[0]);
      }
      if pos == |source| {
        return None;
      }
      var element := source[pos];
      pos := pos + 1;
      peekedElements := peekedElements + [element];
      return Some(element);
    }

    /** True iff a next element exists; nothing is consumed. */
    method HasNext() returns (b: bool)
      requires Valid()
      modifies this
      ensures Valid() && Returned() == old(Returned())
      ensures b <==> Returned() < |source|
      ensures b ==> |peekedElements| == 1
      ensures !b ==> peekedElements == [] && pos == old(pos)
    {
      var peekElement := Peek();
      b := peekElement.Some?;
    }

    /** The next element; None stands for the `NoSuchElementException` of an exhausted iterator. */
    method Next() returns (r: Option<E>)
      requires Valid()
      modifies this
      ensures Valid() && peekedElements == []
      ensures r == if old(Returned()) == |source| then None else Some(source[old(Returned())])
      ensures Returned() == if r.None? then old(Returned()) else old(Returned()) + 1
    {
      if |peekedElements| > 0 {
        r := Some(peekedElements[0]);
        peekedElements := peekedElements[1..];
        return;
      }
      if pos == |source| {
        return None;
      }
      r := Some(source[pos]);
      pos := pos + 1;
    }

    /**
     * False when exhausted, otherwise the condition applied to the next
     * element, which stays buffered; nothing is consumed. A condition that
     * throws is a None condition value, and the exception propagates (None).
     */
    method NextMatches(condition: E -> Option<bool>) returns (r: Option<bool>)
      requires Valid()
      modifies this
      ensures Valid() && Returned() == old(Returned())
      ensures r == if Returned() == |source| then Some(false) else condition(source[Returned()])
      ensures Returned() < |source| ==> |peekedElements| == 1
      ensures Returned() == |source| ==> peekedElements == [] && pos == old(pos)
    {
      var peekElement := Peek();
      if peekElement.None? {
        return Some(false);
      }
      r := condition(peekElement.value);
    }
  }

  /** The buffered view of the iterator agrees with the elements still to come. */
  lemma RemainingStartsWithBuffer<E>(it: MatchingIterator<E>)
    requires it.Valid()
    ensures it.Remaining() == it.peekedElements + it.source[it.pos..]
  {
  }

  /**
   * Drains the iterator while asking `hasNext` and `nextMatches` before every
   * `next`, as its users do: the elements returned are the wrapped sequence,
   * whatever peeks were interleaved.
   */
  method DrainWithPeeks<E>(it: MatchingIterator<E>, condition: E -> Option<bool>) returns (taken: seq<E>)
    requires it.Valid()
    modifies it
    ensures it.Valid() && it.Remaining() == []
    ensures taken == old(it.Remaining())
  {
    ghost var start := it.Returned();
    taken := [];
    var more := it.HasNext();
    while more
      invariant it.Valid() && start <= it.Returned() <= |it.source|
      invariant taken == it.source[start..it.Returned()]
      invariant more <==> it.Returned() < |it.source|
      decreases |it.source| - it.Returned()
    {
      var matches := it.NextMatches(condition);
      var has := it.HasNext();
      var next := it.Next();
      Extend(it.source, start, it.Returned() - 1);
      taken := taken + [next.value];
      more := it.HasNext();
    }
  }

  lemma Extend<E>(s: seq<E>, i: nat, j: nat)
    requires i <= j < |s|
    ensures s[i..j + 1] == s[i..j] + [s[j]]
  {
  }

  /** The scenario of MatchingIteratorTest: peeks never change what `next` returns. */
  method PeekScenario() {
    var it := new MatchingIterator<string>.FromIterator(["a", "b", "c"]);
    var has := it.HasNext();
    assert has;
    var matches := it.NextMatches(s => Some(s != "a"));
    assert matches == Some(false);
    matches := it.NextMatches(s => Some(s == "a"));
    assert matches == Some(true);
    var next := it.Next();
    assert next == Some("a");
    next := it.Next();
    assert next == Some("b");
    next := it.Next();
    assert next == Some("c");
    has := it.HasNext();
    assert !has;
    matches := it.NextMatches(s => Some(true));
    assert matches == Some(false);
    next := it.Next();
    assert next == None;
  }
}
