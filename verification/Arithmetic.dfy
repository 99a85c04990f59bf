/** Multiplication and division by a variable, one step at a time, and the sizes of sets. */
module Arithmetic {

  lemma {:induction false} MulLess(x: int, y: int, a: int)
    requires a > 0 && x < y
    ensures x * a + a <= y * a
    decreases y - x
  {
    if x + 1 < y {
      MulLess(x, y - 1, a);
    }
    assert (y - 1) * a + a == y * a;
  }

  lemma DivMod(p: int, k: int, j: nat, a: nat)
    requires j < a && p == k * a + j
    ensures p / a == k && p % a == j
  {
    var d := p / a;
    assert p == d * a + p % a;
    if d < k {
      MulLess(d, k, a);
    } else if k < d {
      MulLess(k, d, a);
    }
  }

  lemma SubsetSize<T>(a: set<T>, b: set<T>)
    requires a <= b
    ensures |a| <= |b|
  {
    assert b == a + (b - a);
    assert |b| == |a| + |b - a|;
  }
}
