/**
 * `IntMatcher`: an immutable pair of a Java `int` match value and a
 * comparison; `matches(x)` applies the comparison to the match value and `x`.
 * Arithmetic on the match value is Java `int` arithmetic: it wraps around
 * at 32 bits, and division truncates toward zero and fails on a zero divisor.
 */
module IntMatchers {
  import opened Wrappers

  const Two31: int := 0x8000_0000
  const Two32: int := 0x1_0000_0000

  /** A Java `int`. */
  newtype Int32 = x: int | -0x8000_0000 <= x < 0x8000_0000

  /** The Java `int` that an exact result wraps around to. */
  function Wrap(x: int): (r: Int32)
    ensures (r as int - x) % Two32 == 0
    ensures -Two31 <= x < Two31 ==> r as int == x
  {
    ((x + Two31) % Two32 - Two31) as Int32
  }

  function Abs(x: int): nat {
    if x < 0 then -x else x
  }

  /** Java's `/` on exact integers: the quotient of the magnitudes, negated when the signs differ. */
  function TruncatedDiv(a: int, b: int): int
    requires b != 0
  {
    if (a < 0) == (b < 0) then Abs(a) / Abs(b) else -(Abs(a) / Abs(b))
  }

  /**
   * The quotient truncates toward zero: the remainder `a - q * b` is smaller
   * than the divisor in magnitude and never has the opposite sign of `a`.
   */
  lemma TruncatedDivision(a: int, b: int)
    requires b != 0
    ensures var q := TruncatedDiv(a, b);
      && Abs(a - q * b) < Abs(b)
      && (a - q * b == 0 || (a - q * b < 0 <==> a < 0))
      && Abs(q) <= Abs(a)
  {
    var x: int, y: int := Abs(a), Abs(b);
    var n: int := x / y;
    NaturalDivision(x, y);
    var m := n * y;
    var q := TruncatedDiv(a, b);
    assert Abs(q) == n;
    if a < 0 && b < 0 {
      assert q == n && b == -y;
      NegatedProducts(n, y);
      assert q * b == -m;
    } else if a < 0 {
      assert q == -n && b == y;
      NegatedProducts(n, y);
      assert q * b == -m;
    } else if b < 0 {
      assert q == -n && b == -y;
      NegatedProducts(n, y);
      assert q * b == m;
    } else {
      assert q == n && b == y;
      assert q * b == m;
    }
  }

  lemma NegatedProducts(n: int, y: int)
    ensures (-n) * (-y) == n * y && (-n) * y == -(n * y) && n * (-y) == -(n * y)
  {
  }

  /** Euclid's division of naturals: the quotient times the divisor stays within the dividend by less than the divisor. */
  lemma NaturalDivision(x: nat, y: nat)
    requires y > 0
    ensures x - y < (x / y) * y <= x
    ensures 0 <= x / y <= x
  {
    var n := x / y;
    assert x == n * y + x % y;
    MulAtLeast(n, y);
  }

  lemma {:induction false} MulAtLeast(n: nat, y: nat)
    requires y >= 1
    ensures n <= n * y
  {
    if y > 1 {
      MulAtLeast(n, y - 1);
      assert n * y == n * (y - 1) + n;
    }
  }

  /** The `BiPredicate<Integer, Integer>` each static factory installs, applied as `test(matchValue, value)`. */
  datatype Comparison =
    | Equal          // Integer::equals
    | NotEqual       // (i, j) -> !i.equals(j)
    | Below          // (i, j) -> i < j
    | Above          // (i, j) -> i > j
    | AtMost         // (i, j) -> i <= j
    | AtLeast        // (i, j) -> i >= j

  predicate Test(c: Comparison, i: Int32, j: Int32) {
    match c
    case Equal => i == j
    case NotEqual => i != j
    case Below => i < j
    case Above => i > j
    case AtMost => i <= j
    case AtLeast => i >= j
  }

  datatype IntMatcher = IntMatcher(matchValue: Int32, matchPredicate: Comparison)

  /** `matches`: the installed comparison applied to the match value and `value`. */
  predicate Matches(m: IntMatcher, value: Int32) {
    Test(m.matchPredicate, m.matchValue, value)
  }

  /** `valueEquals(v)` matches exactly `v`. */
  function ValueEquals(v: Int32): (m: IntMatcher)
    ensures forall x :: Matches(m, x) <==> x == v
  {
    IntMatcher(v, Equal)
  }

  /** `valueNotEquals(v)` matches everything but `v`. */
  function ValueNotEquals(v: Int32): (m: IntMatcher)
    ensures forall x :: Matches(m, x) <==> x != v
  {
    IntMatcher(v, NotEqual)
  }

  /** `valueGreaterThan(v)` matches the values above `v`. */
  function ValueGreaterThan(v: Int32): (m: IntMatcher)
    ensures forall x :: Matches(m, x) <==> x > v
  {
    IntMatcher(v, Below)
  }

  /** `valueLessThan(v)` matches the values below `v`. */
  function ValueLessThan(v: Int32): (m: IntMatcher)
    ensures forall x :: Matches(m, x) <==> x < v
  {
    IntMatcher(v, Above)
  }

  /** `valueGreaterThanOrEqual(v)` matches `v` and the values above it. */
  function ValueGreaterThanOrEqual(v: Int32): (m: IntMatcher)
    ensures forall x :: Matches(m, x) <==> x >= v
  {
    IntMatcher(v, AtMost)
  }

  /** `valueLessThanOrEqual(v)` matches `v` and the values below it. */
  function ValueLessThanOrEqual(v: Int32): (m: IntMatcher)
    ensures forall x :: Matches(m, x) <==> x <= v
  {
    IntMatcher(v, AtLeast)
  }

  /**
   * `applyFunction`: a matcher with the same comparison whose match value is
   * the function's image of the old one; it matches `x` exactly when the old
   * comparison holds between the new value and `x`.
   */
  function ApplyFunction(m: IntMatcher, f: Int32 -> Int32): (r: IntMatcher)
    ensures r.matchPredicate == m.matchPredicate && r.matchValue == f(m.matchValue)
    ensures forall x :: Matches(r, x) <==> Test(m.matchPredicate, f(m.matchValue), x)
  {
    IntMatcher(f(m.matchValue), m.matchPredicate)
  }

  /** `plus(v)`: the match value becomes `matchValue + v`, wrapped to 32 bits. */
  function Plus(m: IntMatcher, v: Int32): (r: IntMatcher)
    ensures r.matchPredicate == m.matchPredicate
    ensures (r.matchValue as int - (m.matchValue as int + v as int)) % Two32 == 0
    ensures -Two31 <= m.matchValue as int + v as int < Two31 ==> r.matchValue as int == m.matchValue as int + v as int
  {
    var r := ApplyFunction(m, i => Wrap(i as int + v as int));
    assert r.matchValue == Wrap(m.matchValue as int + v as int);
    r
  }

  /** `minus(v)`: the match value becomes `matchValue - v`, wrapped to 32 bits. */
  function Minus(m: IntMatcher, v: Int32): (r: IntMatcher)
    ensures r.matchPredicate == m.matchPredicate
    ensures (r.matchValue as int - (m.matchValue as int - v as int)) % Two32 == 0
    ensures -Two31 <= m.matchValue as int - v as int < Two31 ==> r.matchValue as int == m.matchValue as int - v as int
  {
    var r := ApplyFunction(m, i => Wrap(i as int - v as int));
    assert r.matchValue == Wrap(m.matchValue as int - v as int);
    r
  }

  /** `multiply(v)`: the match value becomes `matchValue * v`, wrapped to 32 bits. */
  function Multiply(m: IntMatcher, v: Int32): (r: IntMatcher)
    ensures r.matchPredicate == m.matchPredicate
    ensures (r.matchValue as int - m.matchValue as int * v as int) % Two32 == 0
    ensures -Two31 <= m.matchValue as int * v as int < Two31 ==> r.matchValue as int == m.matchValue as int * v as int
  {
    var r := ApplyFunction(m, i => Wrap(i as int * v as int));
    assert r.matchValue == Wrap(m.matchValue as int * v as int);
    r
  }

  /**
   * `divide(v)`: the match value becomes `matchValue / v` truncated toward
   * zero; None stands for the `ArithmeticException` of a zero divisor. The
   * only quotient that overflows, `MIN_VALUE / -1`, wraps to `MIN_VALUE`.
   */
  function Divide(m: IntMatcher, v: Int32): (r: Option<IntMatcher>)
    ensures r.None? <==> v == 0
    ensures r.Some? ==> r.value.matchPredicate == m.matchPredicate
    ensures r.Some? ==>
              var q := r.value.matchValue as int;
              var a := m.matchValue as int;
              if a == -Two31 && v == -1 then q == -Two31
              else Abs(a - q * v as int) < Abs(v as int) && (a - q * v as int == 0 || (a - q * v as int < 0 <==> a < 0))
  {
    if v == 0 then None
    else
      var r := ApplyFunction(m, i => Wrap(TruncatedDiv(i as int, v as int)));
      assert r.matchValue == Wrap(TruncatedDiv(m.matchValue as int, v as int));
      TruncatedDivision(m.matchValue as int, v as int);
      Some(r)
  }

  /** `valueNotEquals` matches exactly where `valueEquals` does not. */
  lemma NotEqualsNegatesEquals(v: Int32, x: Int32)
    ensures Matches(ValueNotEquals(v), x) <==> !Matches(ValueEquals(v), x)
  {
  }

  /** The strict and non-strict comparisons are related as on the integers. */
  lemma OrderingFactories(v: Int32, x: Int32)
    ensures Matches(ValueGreaterThanOrEqual(v), x) <==> Matches(ValueGreaterThan(v), x) || Matches(ValueEquals(v), x)
    ensures Matches(ValueLessThanOrEqual(v), x) <==> Matches(ValueLessThan(v), x) || Matches(ValueEquals(v), x)
    ensures Matches(ValueLessThan(v), x) <==> !Matches(ValueGreaterThanOrEqual(v), x)
    ensures Matches(ValueGreaterThan(v), x) <==> !Matches(ValueLessThanOrEqual(v), x)
  {
  }

  /** Applying two functions in turn is applying their composition. */
  lemma ApplyFunctionComposes(m: IntMatcher, f: Int32 -> Int32, g: Int32 -> Int32)
    ensures ApplyFunction(ApplyFunction(m, f), g) == ApplyFunction(m, i => g(f(i)))
  {
  }

  /** `plus` then `minus` of the same amount restores the matcher, even across a wrap-around. */
  lemma PlusMinusRoundTrip(m: IntMatcher, v: Int32)
    ensures Minus(Plus(m, v), v) == m
  {
    var p := Plus(m, v).matchValue as int;
    var r := Minus(Plus(m, v), v).matchValue as int;
    var a := m.matchValue as int;
    assert (p - (a + v as int)) % Two32 == 0;
    assert (r - (p - v as int)) % Two32 == 0;
    WrapUnique(r, a);
  }

  /** Java `int` arithmetic at the edges: `MAX_VALUE + 1` wraps to `MIN_VALUE`; dividing by zero fails. */
  lemma IntMatcherEdges()
    ensures Matches(Plus(ValueEquals(0x7fff_ffff), 1), -0x8000_0000)
    ensures Divide(ValueEquals(4), 0).None?
    ensures Matches(Divide(ValueEquals(-7), 2).value, -3)
    ensures Matches(Divide(ValueEquals(-0x8000_0000), -1).value, -0x8000_0000)
  {
    TruncatedDivision(-7, 2);
  }

  /** Two Java `int`s that agree modulo 2^32 are equal. */
  lemma WrapUnique(x: int, y: int)
    requires -Two31 <= x < Two31 && -Two31 <= y < Two31
    requires (x - y) % Two32 == 0
    ensures x == y
  {
  }

  /** The examples of IntMatcherTest. */
  lemma IntMatcherExamples()
    ensures !Matches(ValueEquals(4), 3) && Matches(ValueEquals(4), 4) && !Matches(ValueEquals(4), 5)
    ensures Matches(ValueNotEquals(4), 3) && !Matches(ValueNotEquals(4), 4) && Matches(ValueNotEquals(4), 5)
    ensures !Matches(ValueGreaterThan(4), 3) && !Matches(ValueGreaterThan(4), 4) && Matches(ValueGreaterThan(4), 5)
    ensures Matches(ValueLessThan(4), 3) && !Matches(ValueLessThan(4), 4) && !Matches(ValueLessThan(4), 5)
    ensures !Matches(ValueGreaterThanOrEqual(4), 3) && Matches(ValueGreaterThanOrEqual(4), 4)
    ensures Matches(ValueGreaterThanOrEqual(4), 5)
    ensures Matches(ValueLessThanOrEqual(4), 3) && Matches(ValueLessThanOrEqual(4), 4)
    ensures !Matches(ValueLessThanOrEqual(4), 5)
    ensures Matches(ApplyFunction(ValueEquals(4), i => Wrap(i as int * 2 + 1)), 9)
    ensures Matches(Plus(ValueEquals(4), 4), 8)
    ensures Matches(Minus(ValueEquals(4), 4), 0)
    ensures Matches(Multiply(ValueEquals(4), 2), 8)
    ensures Divide(ValueEquals(4), 2).Some? && Matches(Divide(ValueEquals(4), 2).value, 2)
  {
  }
}
