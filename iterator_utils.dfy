/**
 * `IteratorUtils.filteredIterator`: a lazy view of an iterator that skips the
 * elements failing a condition. Over a finite source the elements it yields,
 * in order, are `Filter(source, condition)`.
 */
module IteratorUtils {

  /** The elements of `s` that satisfy `keep`, in their original order. */
  function Filter<E>(s: seq<E>, keep: E -> bool): (r: seq<E>)
    ensures |r| <= |s|
    ensures forall i :: 0 <= i < |r| ==> keep(r[i])
  {
    if s == [] then [] else (if keep(s[0]) then [s[0]] else []) + Filter(s[1..], keep)
  }

  /** Filtering distributes over concatenation: the relative order of the kept elements is the source's. */
  lemma {:induction false} FilterAppend<E>(a: seq<E>, b: seq<E>, keep: E -> bool)
    ensures Filter(a + b, keep) == Filter(a, keep) + Filter(b, keep)
  {
    if a == [] {
      assert a + b == b;
    } else {
      assert (a + b)[1..] == a[1..] + b;
      FilterAppend(a[1..], b, keep);
    }
  }

  /** An element is yielded exactly as often as it occurs in the source, if it satisfies the condition, and never otherwise. */
  lemma {:induction false} FilterCounts<E>(s: seq<E>, keep: E -> bool, x: E)
    ensures multiset(Filter(s, keep))[x] == if keep(x) then multiset(s)[x] else 0
  {
    if s != [] {
      FilterCounts(s[1..], keep, x);
      assert s == [s[0]] + s[1..];
      assert multiset(s) == multiset([s[0]]) + multiset(s[1..]);
    }
  }

  /** Membership: `x` is yielded iff it is in the source and satisfies the condition. */
  lemma FilterMembership<E>(s: seq<E>, keep: E -> bool, x: E)
    ensures x in Filter(s, keep) <==> x in s && keep(x)
  {
    FilterCounts(s, keep, x);
    assert x in Filter(s, keep) <==> x in multiset(Filter(s, keep));
    assert x in s <==> x in multiset(s);
  }

  /** The filtered iterator is exhausted (`hasNext` false) exactly when no remaining element satisfies the condition. */
  lemma {:induction false} FilterEmptyIff<E>(s: seq<E>, keep: E -> bool)
    ensures Filter(s, keep) == [] <==> forall i :: 0 <= i < |s| ==> !keep(s[i])
  {
    if s != [] {
      FilterEmptyIff(s[1..], keep);
      assert forall i :: 1 <= i < |s| ==> s[i] == s[1..][i - 1];
    }
  }

  /** Filtering twice with the same condition changes nothing. */
  lemma {:induction false} FilterIdempotent<E>(s: seq<E>, keep: E -> bool)
    ensures Filter(Filter(s, keep), keep) == Filter(s, keep)
  {
    if s != [] {
      FilterIdempotent(s[1..], keep);
      FilterAppend(if keep(s[0]) then [s[0]] else [], Filter(s[1..], keep), keep);
    }
  }

  /** A condition every element satisfies (the readers' default `string -> true`) lets the whole source through. */
  lemma {:induction false} FilterKeepsAll<E>(s: seq<E>, keep: E -> bool)
    requires forall x :: keep(x)
    ensures Filter(s, keep) == s
  {
    if s != [] {
      FilterKeepsAll(s[1..], keep);
      assert s == [s[0]] + s[1..];
    }
  }
}
