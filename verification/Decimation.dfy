/** A transform of n * n samples through transforms of n: the samples read as a square, its columns transformed,
    twisted, and transformed again the other way. */
module Decimation {
  import opened Arithmetic
  import opened BitReversal
  import opened Fourier

  // ---------------------------------------------------------------- sums

  lemma {:induction false} SumAppend(s: seq<Complex>, t: seq<Complex>, z: Complex)
    ensures Sum(s + t, z) == Add(Sum(s, z), Mul(Pow(z, |s|), Sum(t, z)))
  {
    if t == [] {
      assert s + t == s;
    } else {
      var r, a := t[..|t| - 1], t[|t| - 1];
      assert s + t == (s + r) + [a] && t == r + [a];
      SumAppend(s, r, z);
      SumOne(s + r, a, z);
      SumOne(r, a, z);
      PowAdd(z, |s|, |r|);
      AppendOne(Sum(s, z), Sum(r, z), a, Pow(z, |s|), Pow(z, |r|));
    }
  }

  lemma AppendOne(s: Complex, r: Complex, a: Complex, p: Complex, q: Complex)
    ensures Add(Add(s, Mul(p, r)), Mul(a, Mul(p, q))) == Add(s, Mul(p, Add(r, Mul(a, q))))
  {
    MulAssoc(a, p, q);
    MulComm(a, p);
    MulAssoc(p, a, q);
  }

  function Plus(a: seq<Complex>, b: seq<Complex>, c: Complex): (r: seq<Complex>)
    requires |a| == |b|
    ensures |r| == |a|
  {
    seq(|a|, j requires 0 <= j < |a| => Add(a[j], Mul(b[j], c)))
  }

  lemma {:induction false} SumLinear(a: seq<Complex>, b: seq<Complex>, c: Complex, z: Complex)
    requires |a| == |b|
    ensures Sum(Plus(a, b, c), z) == Add(Sum(a, z), Mul(Sum(b, z), c))
  {
    if a == [] {
    } else {
      var n := |a| - 1;
      var x, y, p := a[n], b[n], Pow(z, n);
      assert a == a[..n] + [x] && b == b[..n] + [y];
      assert Plus(a, b, c) == Plus(a[..n], b[..n], c) + [Add(x, Mul(y, c))];
      SumLinear(a[..n], b[..n], c, z);
      SumOne(a[..n], x, z);
      SumOne(b[..n], y, z);
      SumOne(Plus(a[..n], b[..n], c), Add(x, Mul(y, c)), z);
      LinearOne(Sum(a[..n], z), Sum(b[..n], z), x, y, c, p);
    }
  }

  lemma LinearOne(s: Complex, t: Complex, x: Complex, y: Complex, c: Complex, p: Complex)
    ensures Add(Add(s, Mul(t, c)), Mul(Add(x, Mul(y, c)), p)) == Add(Add(s, Mul(x, p)), Mul(Add(t, Mul(y, p)), c))
  {
    MulAssoc(y, c, p);
    MulComm(c, p);
    MulAssoc(y, p, c);
  }

  /** The numbers of `d`, each times a power of `y`. */
  function Twisted(d: seq<Complex>, y: Complex): (r: seq<Complex>)
    ensures |r| == |d|
  {
    seq(|d|, j requires 0 <= j < |d| => Mul(Pow(y, j), d[j]))
  }

  lemma {:induction false} PowBase(u: Complex, y: Complex, n: nat)
    ensures Pow(Mul(u, y), n) == Mul(Pow(u, n), Pow(y, n))
  {
    if n == 0 {
      MulOne(ONE);
    } else {
      PowBase(u, y, n - 1);
      Interleave(Pow(u, n - 1), Pow(y, n - 1), u, y);
    }
  }

  lemma Interleave(a: Complex, b: Complex, u: Complex, y: Complex)
    ensures Mul(Mul(a, b), Mul(u, y)) == Mul(Mul(a, u), Mul(b, y))
  {
    MulAssoc(a, b, Mul(u, y));
    MulAssoc(b, u, y);
    MulComm(b, u);
    MulAssoc(u, b, y);
    MulAssoc(a, u, Mul(b, y));
  }

  lemma {:induction false} SumTwisted(d: seq<Complex>, u: Complex, y: Complex)
    ensures Sum(Twisted(d, y), u) == Sum(d, Mul(u, y))
  {
    if d != [] {
      var n := |d| - 1;
      var x := d[n];
      assert d == d[..n] + [x];
      assert Twisted(d, y) == Twisted(d[..n], y) + [Mul(Pow(y, n), x)];
      SumTwisted(d[..n], u, y);
      SumOne(d[..n], x, Mul(u, y));
      SumOne(Twisted(d[..n], y), Mul(Pow(y, n), x), u);
      PowBase(u, y, n);
      TwistOne(x, Pow(u, n), Pow(y, n));
    }
  }

  lemma TwistOne(x: Complex, p: Complex, q: Complex)
    ensures Mul(Mul(q, x), p) == Mul(x, Mul(p, q))
  {
    MulComm(q, x);
    MulAssoc(x, q, p);
    MulComm(q, p);
  }

  lemma {:induction false} PowPow(z: Complex, a: nat, b: nat, q: nat)
    requires q == a * b
    ensures Pow(z, q) == Pow(Pow(z, a), b)
    decreases b
  {
    if b == 0 {
      assert q == 0;
    } else {
      var r := q - a;
      assert r == a * (b - 1);
      PowPow(z, a, b - 1, r);
      PowAdd(z, r, a);
    }
  }

  // ---------------------------------------------------------------- columns

  /** Column `j` of the samples written in `m` rows of `n`. */
  function Column(s: seq<Complex>, n: nat, m: nat, j: nat): (c: seq<Complex>)
    requires |s| == m * n && j < n
    ensures |c| == m
  {
    seq(m, h requires 0 <= h < m => InSquare(n, m, h, j); s[h * n + j])
  }

  lemma InSquare(n: nat, m: nat, h: nat, j: nat)
    requires h < m && j < n
    ensures h * n + j < m * n
  {
    MulLess(h, m, n);
  }

  /** The sums over the columns. */
  function Partials(s: seq<Complex>, n: nat, m: nat, y: Complex): (r: seq<Complex>)
    requires |s| == m * n
    ensures |r| == n
  {
    seq(n, j requires 0 <= j < n => Sum(Column(s, n, m, j), y))
  }

  lemma {:induction false} SumZeros(s: seq<Complex>, z: Complex)
    requires forall j | 0 <= j < |s| :: s[j] == ZERO
    ensures Sum(s, z) == ZERO
  {
    if s != [] {
      var n := |s| - 1;
      var t := s[..n];
      SumZeros(t, z);
      assert s == t + [ZERO];
      SumOne(t, ZERO, z);
    }
  }

  lemma OneRowMore(s: seq<Complex>, n: nat, m: nat, t: seq<Complex>, r: seq<Complex>, y: Complex)
    requires m > 0 && |s| == m * n && |t| == (m - 1) * n && |r| == n && s == t + r
    ensures Partials(s, n, m, y) == Plus(Partials(t, n, m - 1, y), r, Pow(y, m - 1))
  {
    forall j: nat | j < n
      ensures Partials(s, n, m, y)[j] == Add(Partials(t, n, m - 1, y)[j], Mul(r[j], Pow(y, m - 1)))
    {
      ColumnGrows(s, n, m, t, r, j);
      SumOne(Column(t, n, m - 1, j), r[j], y);
    }
  }

  lemma ColumnGrows(s: seq<Complex>, n: nat, m: nat, t: seq<Complex>, r: seq<Complex>, j: nat)
    requires m > 0 && |s| == m * n && |t| == (m - 1) * n && |r| == n && s == t + r && j < n
    ensures Column(s, n, m, j) == Column(t, n, m - 1, j) + [r[j]]
  {
    var c, d := Column(s, n, m, j), Column(t, n, m - 1, j) + [r[j]];
    forall h: nat | h < m
      ensures c[h] == d[h]
    {
      InSquare(n, m, h, j);
      if h < m - 1 {
        InSquare(n, m - 1, h, j);
      }
    }
  }

  lemma NoRows(s: seq<Complex>, n: nat, z: Complex, y: Complex)
    requires |s| == 0
    ensures Sum(s, z) == Sum(Partials(s, n, 0, y), z)
  {
    SumZeros(Partials(s, n, 0, y), z);
  }

  /** A sum over all samples from the sums over the columns. */
  lemma {:induction false} ColumnSum(s: seq<Complex>, n: nat, m: nat, z: Complex)
    requires |s| == m * n
    ensures Sum(s, z) == Sum(Partials(s, n, m, Pow(z, n)), z)
  {
    if m == 0 {
      NoRows(s, n, z, Pow(z, n));
    } else {
      var k := |s| - n;
      var t, r := s[..k], s[k..];
      ColumnSum(t, n, m - 1, z);
      LastRow(s, n, m, t, r, z);
    }
  }

  lemma LastRow(s: seq<Complex>, n: nat, m: nat, t: seq<Complex>, r: seq<Complex>, z: Complex)
    requires m > 0 && |s| == m * n && |t| == (m - 1) * n && |r| == n && s == t + r
    requires Sum(t, z) == Sum(Partials(t, n, m - 1, Pow(z, n)), z)
    ensures Sum(s, z) == Sum(Partials(s, n, m, Pow(z, n)), z)
  {
    var y := Pow(z, n);
    OneRowMore(s, n, m, t, r, y);
    SumLinear(Partials(t, n, m - 1, y), r, Pow(y, m - 1), z);
    SumAppend(t, r, z);
    assert |t| == n * (m - 1);
    PowPow(z, n, m - 1, |t|);
    MulComm(Pow(z, |t|), Sum(r, z));
  }

  // ---------------------------------------------------------------- roots

  lemma {:induction false} FamilyPower(v: seq<Complex>, q: nat, r: nat)
    requires Family(v) && q <= r < |v|
    ensures Pow(v[r], Pow2(r - q)) == v[q]
  {
    if q == r {
      assert Pow(v[r], 1) == Mul(Pow(v[r], 0), v[r]);
      MulOne(v[r]);
    } else {
      var h := Pow2(r - q - 1);
      assert RootOf(v, r - 1);
      FamilyPower(v, q, r - 1);
      PowSquare(v[r], h);
      PowAdd(v[r], h, h);
    }
  }

  /** The powers of a number that is its own inverse. */
  lemma {:induction false} SignPower(z: Complex, d: nat)
    requires Mul(z, z) == ONE
    ensures Pow(z, d) == if d % 2 == 0 then ONE else z
  {
    if d > 0 {
      SignPower(z, d - 1);
      MulOne(z);
    }
  }

  lemma PowOne(z: Complex, n: nat)
    requires z == ONE
    ensures Pow(z, n) == z
  {
    MulOne(z);
    SignPower(z, n);
  }

  /** A power of w to a multiple of its order plus k. */
  lemma PastOrder(w: Complex, n: nat, l: nat, k: nat, q: nat)
    requires Pow(w, n) == ONE && q == n * l
    ensures Pow(w, q + k) == Pow(w, k)
  {
    OrderMultiple(w, n, l, q);
    Beyond(w, q, k, Pow(w, k));
  }

  lemma OrderMultiple(w: Complex, n: nat, l: nat, q: nat)
    requires Pow(w, n) == ONE && q == n * l
    ensures Pow(w, q) == ONE
  {
    PowPow(w, n, l, q);
    PowOne(Pow(w, n), l);
  }

  lemma Beyond(w: Complex, n: nat, k: nat, y: Complex)
    requires Pow(w, n) == ONE && Pow(w, k) == y
    ensures Pow(w, n + k) == y
  {
    PowAdd(w, n, k);
    MulOne(y);
  }

  lemma Turned(big: Complex, n: nat, p: nat)
    ensures Pow(Pow(big, p), n) == Pow(Pow(big, n), p)
  {
    var q := n * p;
    assert q == p * n;
    PowPow(big, p, n, q);
    PowPow(big, n, p, q);
  }

  lemma SplitExponent(big: Complex, w: Complex, n: nat, l: nat, k: nat, q: nat)
    requires Pow(big, n) == w && q == n * l
    ensures Pow(big, q + k) == Mul(Pow(w, l), Pow(big, k))
  {
    PowPow(big, n, l, q);
    PowAdd(big, q, k);
  }

  /** With roots of orders n and n * n: what the first exponent comes to. */
  lemma TurnedRoot(big: Complex, w: Complex, n: nat, k: nat, p: nat)
    requires Pow(big, n) == w && Pow(w, p) == Pow(w, k)
    ensures Pow(Pow(big, p), n) == Pow(w, k)
  {
    Turned(big, n, p);
  }

  /** The transforms of the columns, entry `k` of each, twisted by the root of order n * n. */
  function Middle(s: seq<Complex>, n: nat, big: Complex, w: Complex, k: nat): (r: seq<Complex>)
    requires |s| == n * n
    ensures |r| == n
  {
    Twisted(Partials(s, n, n, Pow(w, k)), Pow(big, k))
  }

  /** The transform of n * n samples, entry n l + k: entry l of the transform of the twisted entries k of the
      transforms of the columns. */
  lemma SquareTransform(s: seq<Complex>, n: nat, big: Complex, w: Complex, k: nat, l: nat, q: nat)
    requires |s| == n * n && Pow(big, n) == w && Pow(w, n) == ONE && q == n * l
    ensures Dft(s, big, q + k) == Dft(Middle(s, n, big, w, k), w, l)
  {
    PastOrder(w, n, l, k, q);
    ThroughColumns(s, n, big, w, k, l, q);
  }

  lemma ThroughColumns(s: seq<Complex>, n: nat, big: Complex, w: Complex, k: nat, l: nat, q: nat)
    requires |s| == n * n && Pow(big, n) == w && q == n * l && Pow(w, q + k) == Pow(w, k)
    ensures Dft(s, big, q + k) == Dft(Middle(s, n, big, w, k), w, l)
  {
    TurnedRoot(big, w, n, k, q + k);
    SplitExponent(big, w, n, l, k, q);
    ColumnSum(s, n, n, Pow(big, q + k));
    SumTwisted(Partials(s, n, n, Pow(w, k)), Pow(w, l), Pow(big, k));
  }

  /** The roots of orders 2^m and 2^2m of one family. */
  lemma SquareRoots(v: seq<Complex>, m: nat, n: nat, big: Complex, w: Complex)
    requires Family(v) && 2 * m < |v| && n == Pow2(m) && big == v[2 * m] && w == v[m]
    ensures Pow(big, n) == w && Pow(w, n) == ONE
  {
    FamilyPower(v, m, 2 * m);
    FamilyPower(v, 0, m);
  }
}
