/** Integer arithmetic behind the progress rollups: the `reduce` sum of the
    percents and JavaScript's `Math.round` of a quotient. */
module Numeric {

  /** `xs.reduce((sum, x) => sum + x, 0)` */
  function Sum(xs: seq<int>): int {
    if xs == [] then 0 else Sum(xs[..|xs| - 1]) + xs[|xs| - 1]
  }

  /** `Math.round(num / den)`: the integer nearest to num/den, a tie going up.
      Exact for integer operands: a quotient lying within 1/(2*den) of a tie
      is computed in floating point with an error far below that distance. */
  function RoundDiv(num: int, den: int): (r: int)
    requires den > 0
    ensures 2 * den * r - den <= 2 * num < 2 * den * r + den
  {
    var q := (2 * num + den) / (2 * den);
    assert q * (2 * den) <= 2 * num + den < q * (2 * den) + 2 * den;
    q
  }

  /** Multiplying by a positive factor keeps the order. */
  lemma MulMonotone(a: int, b: int, c: int)
    requires a > 0 && b <= c
    ensures a * b <= a * c
  {
    assert a * c - a * b == a * (c - b);
  }

  /** The rounding contract pins the result down: only one integer satisfies it. */
  lemma RoundDivUnique(num: int, den: int, k: int)
    requires den > 0
    requires 2 * den * k - den <= 2 * num < 2 * den * k + den
    ensures RoundDiv(num, den) == k
  {
    var r := RoundDiv(num, den);
    if r > k {
      MulMonotone(2 * den, k + 1, r);
    } else if r < k {
      MulMonotone(2 * den, r + 1, k);
    }
  }

  /** A quotient between two integers rounds to a value between them. */
  lemma RoundDivWithin(num: int, den: int, lo: int, hi: int)
    requires den > 0
    requires den * lo <= num <= den * hi
    ensures lo <= RoundDiv(num, den) <= hi
  {
    var r := RoundDiv(num, den);
    assert 2 * den * r == 2 * (den * r);
    if r > hi {
      MulMonotone(den, hi + 1, r);
    } else if r < lo {
      MulMonotone(den, r + 1, lo);
    }
  }

  lemma {:induction false} SumAppend(xs: seq<int>, x: int)
    ensures Sum(xs + [x]) == Sum(xs) + x
  {
    assert (xs + [x])[..|xs + [x]| - 1] == xs;
  }

  /** Every term in [lo, hi] bounds the sum by |xs|*lo and |xs|*hi. */
  lemma {:induction false} SumBounds(xs: seq<int>, lo: int, hi: int)
    requires forall i :: 0 <= i < |xs| ==> lo <= xs[i] <= hi
    ensures |xs| * lo <= Sum(xs) <= |xs| * hi
  {
    if xs != [] {
      SumBounds(xs[..|xs| - 1], lo, hi);
    }
  }

  /** The sum only reaches |xs|*hi when every term equals `hi`. */
  lemma {:induction false} SumAtMax(xs: seq<int>, hi: int)
    requires forall i :: 0 <= i < |xs| ==> xs[i] <= hi
    ensures Sum(xs) == |xs| * hi <==> forall i :: 0 <= i < |xs| ==> xs[i] == hi
  {
    if xs != [] {
      var init := xs[..|xs| - 1];
      SumAtMax(init, hi);
      SumUpper(init, hi);
      if Sum(xs) == |xs| * hi {
        forall i | 0 <= i < |xs| ensures xs[i] == hi {
          if i < |xs| - 1 { assert xs[i] == init[i]; }
        }
      }
    }
  }

  lemma {:induction false} SumUpper(xs: seq<int>, hi: int)
    requires forall i :: 0 <= i < |xs| ==> xs[i] <= hi
    ensures Sum(xs) <= |xs| * hi
  {
    if xs != [] {
      SumUpper(xs[..|xs| - 1], hi);
    }
  }

  /** The sum does not depend on the order of the terms. */
  lemma {:induction false} SumPermutation(xs: seq<int>, ys: seq<int>)
    requires multiset(xs) == multiset(ys)
    ensures Sum(xs) == Sum(ys)
    decreases |xs|
  {
    if xs != [] {
      var x := xs[|xs| - 1];
      var init := xs[..|xs| - 1];
      assert xs == init + [x];
      assert x in multiset(ys);
      var i :| 0 <= i < |ys| && ys[i] == x;
      var rest := ys[..i] + ys[i + 1..];
      assert ys == ys[..i] + [x] + ys[i + 1..];
      assert multiset(xs) == multiset(init) + multiset{x};
      assert multiset(ys) == multiset(ys[..i]) + multiset{x} + multiset(ys[i + 1..]);
      assert multiset(rest) == multiset(ys[..i]) + multiset(ys[i + 1..]);
      forall y ensures multiset(init)[y] == multiset(rest)[y] {
        assert multiset(xs)[y] == multiset(ys)[y];
      }
      assert multiset(init) == multiset(rest);
      SumPermutation(init, rest);
      SumMoveToEnd(ys[..i], x, ys[i + 1..]);
    }
  }

  /** Moving one term to the end leaves the sum alone. */
  lemma {:induction false} SumMoveToEnd(a: seq<int>, x: int, b: seq<int>)
    ensures Sum(a + [x] + b) == Sum(a + b) + x
    decreases |b|
  {
    if b == [] {
      assert a + [x] + b == a + [x];
      assert a + b == a;
      SumAppend(a, x);
    } else {
      var y := b[|b| - 1];
      var b' := b[..|b| - 1];
      assert a + [x] + b == (a + [x] + b') + [y];
      assert a + b == (a + b') + [y];
      SumAppend(a + [x] + b', y);
      SumAppend(a + b', y);
      SumMoveToEnd(a, x, b');
    }
  }
}
