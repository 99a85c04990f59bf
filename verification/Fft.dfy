/** `reverse` and `single_FFT1D` of `src/apps.c` over exact reals: the radix-2 transform, in place on interleaved
    real and imaginary parts, computes the discrete Fourier transform. */
module Fft {
  import opened Arithmetic
  import opened BitReversal
  import opened Fourier

  // ---------------------------------------------------------------- interleaved arrays

  /** From `b` on, `x` holds the numbers of `c`, real part before imaginary part. */
  ghost predicate Shows(x: array<real>, b: nat, c: seq<Complex>)
    reads x
  {
    && b + 2 * |c| <= x.Length
    && forall i | 0 <= i < |c| :: x[b + 2 * i] == c[i].re && x[b + 2 * i + 1] == c[i].im
  }

  /** `x` is `was` but for the `n` numbers from `b` on. */
  ghost predicate Within(x: array<real>, was: seq<real>, b: nat, n: nat)
    reads x
  {
    |was| == x.Length && forall i | 0 <= i < x.Length && !(b <= i < b + 2 * n) :: x[i] == was[i]
  }

  method SwapNumbers(x: array<real>, b: nat, ghost was: seq<real>, ghost c: seq<Complex>, j: nat, k: nat)
    returns (ghost d: seq<Complex>)
    requires Shows(x, b, c) && j < |c| && k < |c|
    requires Within(x, was, b, |c|)
    modifies x
    ensures d == c[j := c[k]][k := c[j]] && Shows(x, b, d) && Within(x, was, b, |c|)
  {
    d := c[j := c[k]][k := c[j]];
    x[b + 2 * j], x[b + 2 * k] := x[b + 2 * k], x[b + 2 * j];
    x[b + 2 * j + 1], x[b + 2 * k + 1] := x[b + 2 * k + 1], x[b + 2 * j + 1];
  }

  // ---------------------------------------------------------------- bit reversal

  ghost function Reversed(c: seq<Complex>, m: nat): (r: seq<Complex>)
    requires |c| == Pow2(m)
    ensures |r| == |c|
  {
    seq(|c|, p requires 0 <= p < |c| => c[Rev(m, p)])
  }

  lemma ReversedTwice(c: seq<Complex>, m: nat)
    requires |c| == Pow2(m)
    ensures Reversed(Reversed(c, m), m) == c
  {
    forall p: nat | p < |c|
      ensures Rev(m, Rev(m, p)) == p
    {
      Involution(m, p);
    }
  }

  /** Places below `k`, and those they change with, have their final contents. */
  ghost predicate Partly(c: seq<Complex>, d: seq<Complex>, m: nat, k: nat) {
    && |c| == Pow2(m) == |d|
    && forall p: nat | p < |c| :: d[p] == c[if p < k || Rev(m, p) < k then Rev(m, p) else p]
  }

  lemma SwapOne(c: seq<Complex>, d: seq<Complex>, m: nat, k: nat)
    requires Partly(c, d, m, k) && k < |c|
    ensures var j := Rev(m, k); Partly(c, if j > k then d[j := d[k]][k := d[j]] else d, m, k + 1)
  {
    var j := Rev(m, k);
    Involution(m, k);
    var e := if j > k then d[j := d[k]][k := d[j]] else d;
    forall p: nat | p < |c|
      ensures e[p] == c[if p < k + 1 || Rev(m, p) < k + 1 then Rev(m, p) else p]
    {
      Involution(m, p);
    }
  }

  method Reverse(n: nat, m: nat, x: array<real>, b: nat, ghost was: seq<real>, ghost c: seq<Complex>) returns (ghost d: seq<Complex>)
    requires n == Pow2(m) == |c| && Shows(x, b, c)
    requires Within(x, was, b, n)
    modifies x
    ensures d == Reversed(c, m) && Shows(x, b, d) && Within(x, was, b, n)
  {
    var k := 0;
    d := c;
    while k < n
      invariant k <= n && Partly(c, d, m, k)
      invariant Shows(x, b, d) && Within(x, was, b, n)
    {
      SwapOne(c, d, m, k);
      var j := ReverseBit(m, k);
      if j > k {
        d := SwapNumbers(x, b, was, d, j, k);
      }
      k := k + 1;
    }
    assert d == Reversed(c, m);
  }

  // ---------------------------------------------------------------- the partial transforms

  /** The samples behind block `k` of 2^q places. */
  ghost function Samples(c: seq<Complex>, m: nat, q: nat, k: nat): (s: seq<Complex>)
    requires q <= m && |c| == Pow2(m) && k < Pow2(m - q)
    ensures |s| == Pow2(q)
  {
    var stride := Pow2(m - q);
    seq(Pow2(q), t requires 0 <= t < Pow2(q) => InRange(m, q, Rev(m - q, k), t); c[Rev(m - q, k) + t * stride])
  }

  lemma {:induction false} PowProduct(m: nat, q: nat)
    requires q <= m
    ensures Pow2(m) == Pow2(q) * Pow2(m - q)
  {
    if q > 0 {
      PowProduct(m - 1, q - 1);
      Doubled(Pow2(q - 1), Pow2(m - q));
    }
  }

  lemma Doubled(a: nat, b: nat)
    ensures 2 * (a * b) == (2 * a) * b
  {
  }

  lemma InRange(m: nat, q: nat, i: nat, t: nat)
    requires q <= m && i < Pow2(m - q) && t < Pow2(q)
    ensures i + t * Pow2(m - q) < Pow2(m)
  {
    PowProduct(m, q);
    MulLess(t, Pow2(q), Pow2(m - q));
  }

  /** The even samples behind a block are those behind its first half, the odd ones those behind its second. */
  lemma HalfSamples(c: seq<Complex>, m: nat, q: nat, k: nat)
    requires 0 < q <= m && |c| == Pow2(m) && k < Pow2(m - q)
    ensures Evens(Samples(c, m, q, k)) == Samples(c, m, q - 1, 2 * k)
    ensures Odds(Samples(c, m, q, k)) == Samples(c, m, q - 1, 2 * k + 1)
  {
    forall t: nat | t < Pow2(q - 1)
      ensures Samples(c, m, q, k)[2 * t] == Samples(c, m, q - 1, 2 * k)[t]
      ensures Samples(c, m, q, k)[2 * t + 1] == Samples(c, m, q - 1, 2 * k + 1)[t]
    {
      HalfSample(c, m, q, k, t);
    }
  }

  lemma HalfSample(c: seq<Complex>, m: nat, q: nat, k: nat, t: nat)
    requires 0 < q <= m && |c| == Pow2(m) && k < Pow2(m - q) && t < Pow2(q - 1)
    ensures Samples(c, m, q, k)[2 * t] == Samples(c, m, q - 1, 2 * k)[t]
    ensures Samples(c, m, q, k)[2 * t + 1] == Samples(c, m, q - 1, 2 * k + 1)[t]
  {
    var p, i := Pow2(m - q), Rev(m - q, k);
    assert Pow2(m - (q - 1)) == 2 * p;
    assert Rev(m - q + 1, 2 * k) == i && Rev(m - q + 1, 2 * k + 1) == p + i;
    InRange(m, q, i, 2 * t);
    InRange(m, q, i, 2 * t + 1);
    Strides(t, p);
  }

  lemma Strides(t: nat, p: nat)
    ensures (2 * t) * p == t * (2 * p) && (2 * t + 1) * p == t * (2 * p) + p
  {
  }

  lemma BlockOf(m: nat, q: nat, p: nat)
    requires q <= m && p < Pow2(m)
    ensures 0 <= p / Pow2(q) < Pow2(m - q)
  {
    PowProduct(m, q);
    QuotientBelow(p, Pow2(q), Pow2(m - q));
  }

  lemma QuotientBelow(p: nat, a: nat, b: nat)
    requires a > 0 && p < a * b
    ensures 0 <= p / a < b
  {
    var d := p / a;
    assert p == d * a + p % a;
    if b < d {
      MulLess(b, d, a);
    } else if d < 0 {
      MulLess(d, 0, a);
    }
  }

  ghost function BlockNo(m: nat, q: nat, p: nat): (k: nat)
    requires q <= m && p < Pow2(m)
    ensures k < Pow2(m - q)
  {
    BlockOf(m, q, p);
    p / Pow2(q)
  }

  ghost function Offset(q: nat, p: nat): nat {
    p % Pow2(q)
  }

  lemma Located(m: nat, q: nat, p: nat, k: nat, j: nat)
    requires q <= m && p < Pow2(m) && j < Pow2(q) && p == k * Pow2(q) + j
    ensures BlockNo(m, q, p) == k && Offset(q, p) == j
  {
    DivMod(p, k, j, Pow2(q));
  }

  /** What place `p` holds after stage `q`. */
  ghost function Entry(c: seq<Complex>, m: nat, v: seq<Complex>, q: nat, p: nat): Complex
    requires q <= m < |v| && p < |c| == Pow2(m)
  {
    Dft(Samples(c, m, q, BlockNo(m, q, p)), v[q], Offset(q, p))
  }

  /** Before the first stage every place holds one sample, the bit-reversed one. */
  lemma FirstEntry(c: seq<Complex>, m: nat, v: seq<Complex>, p: nat)
    requires m < |v| && p < |c| == Pow2(m)
    ensures Entry(c, m, v, 0, p) == Reversed(c, m)[p]
  {
    Located(m, 0, p, p, 0);
    var s := Samples(c, m, 0, p);
    assert s == [c[Rev(m, p)]];
    SumOne([], s[0], Pow(v[0], 0));
    assert [] + [s[0]] == s;
    MulOne(s[0]);
  }

  /** After the last stage every place holds its entry of the transform. */
  lemma LastEntry(c: seq<Complex>, m: nat, v: seq<Complex>, p: nat)
    requires m < |v| && p < |c| == Pow2(m)
    ensures Entry(c, m, v, m, p) == Dft(c, v[m], p)
  {
    Located(m, m, p, 0, p);
    var s := Samples(c, m, m, 0);
    forall t: nat | t < |c|
      ensures s[t] == c[t]
    {
      assert Rev(0, 0) + t * Pow2(0) == t;
    }
    assert s == c;
  }

  lemma CrossPlaces(m: nat, q: nat, k: nat, j: nat, i: nat, h: nat)
    requires 0 < q <= m && j < Pow2(q - 1)
    requires i == k * Pow2(q) + j && h == i + Pow2(q - 1) < Pow2(m)
    ensures BlockNo(m, q, i) == k == BlockNo(m, q, h) && Offset(q, i) == j && Offset(q, h) == j + Pow2(q - 1)
    ensures BlockNo(m, q - 1, i) == 2 * k && Offset(q - 1, i) == j
    ensures BlockNo(m, q - 1, h) == 2 * k + 1 && Offset(q - 1, h) == j
  {
    var a := Pow2(q - 1);
    Strides(k, a);
    Located(m, q, i, k, j);
    Located(m, q, h, k, j + a);
    Located(m, q - 1, i, 2 * k, j);
    Located(m, q - 1, h, 2 * k + 1, j);
  }

  /** One butterfly of stage `q` in block `k`. */
  lemma CrossEntries(c: seq<Complex>, m: nat, v: seq<Complex>, q: nat, k: nat, j: nat, i: nat, h: nat)
    requires 0 < q <= m < |v| && |c| == Pow2(m) && Family(v) && k < Pow2(m - q) && j < Pow2(q - 1)
    requires i == k * Pow2(q) + j && h == i + Pow2(q - 1) < |c|
    ensures var e, tau := Entry(c, m, v, q - 1, i), Mul(Pow(v[q], j), Entry(c, m, v, q - 1, h));
            Entry(c, m, v, q, i) == Add(e, tau) && Entry(c, m, v, q, h) == Fourier.Sub(e, tau)
  {
    CrossPlaces(m, q, k, j, i, h);
    HalfSamples(c, m, q, k);
    Butterfly(Samples(c, m, q, k), v, q, j, Entry(c, m, v, q - 1, i), Entry(c, m, v, q - 1, h));
  }

  // ---------------------------------------------------------------- the stages

  /** The tables of roots one after the other: powers of w[q], as many as half its order, for q from 1 up. */
  ghost predicate Table(u: array<real>, m: nat, w: seq<Complex>)
    reads u
  {
    && |w| == m + 1
    && forall q, j: nat | 1 <= q <= m && j < Pow2(q - 1) :: TableEntry(u, w, q, j)
  }

  ghost predicate TableEntry(u: array<real>, w: seq<Complex>, q: nat, j: nat)
    requires 1 <= q < |w|
    reads u
  {
    var i := 2 * (Pow2(q - 1) - 1 + j);
    i + 1 < u.Length && u[i] == Pow(w[q], j).re && u[i + 1] == Pow(w[q], j).im
  }

  /** In the middle of stage `q`: block `base` is finished up to butterfly `j`, blocks before it entirely. */
  ghost predicate Past(q: nat, base: nat, j: nat, p: nat)
    requires q > 0
  {
    p < base || base <= p < base + j || base + Pow2(q - 1) <= p < base + Pow2(q - 1) + j
  }

  ghost function Crossed(c: seq<Complex>, m: nat, v: seq<Complex>, q: nat, base: nat, j: nat): (d: seq<Complex>)
    requires 0 < q <= m < |v| && |c| == Pow2(m)
    ensures |d| == |c|
  {
    seq(|c|, p requires 0 <= p < |c| => Entry(c, m, v, if Past(q, base, j, p) then q else q - 1, p))
  }

  /** Every place holds what it should after stage `q`. */
  ghost function Stage(c: seq<Complex>, m: nat, v: seq<Complex>, q: nat): (d: seq<Complex>)
    requires q <= m < |v| && |c| == Pow2(m)
    ensures |d| == |c|
  {
    seq(|c|, p requires 0 <= p < |c| => Entry(c, m, v, q, p))
  }

  method Put(x: array<real>, b: nat, ghost was: seq<real>, ghost d: seq<Complex>, i: nat, re: real, im: real) returns (ghost e: seq<Complex>)
    requires Shows(x, b, d) && i < |d|
    requires Within(x, was, b, |d|)
    modifies x
    ensures e == d[i := Complex(re, im)] && Shows(x, b, e) && Within(x, was, b, |d|)
  {
    x[b + 2 * i] := re;
    x[b + 2 * i + 1] := im;
    e := d[i := Complex(re, im)];
  }

  ghost function Pair(d: seq<Complex>, i: nat, h: nat, omega: Complex): (e: seq<Complex>)
    requires i < |d| && h < |d|
    ensures |e| == |d|
  {
    d[h := Fourier.Sub(d[i], Mul(omega, d[h]))][i := Add(d[i], Mul(omega, d[h]))]
  }

  /** The butterfly itself: two numbers of the block change. */
  method CrossOne(x: array<real>, b: nat, ghost was: seq<real>, ghost d: seq<Complex>, i: nat, h: nat, omega_r: real, omega_c: real)
    returns (ghost e: seq<Complex>)
    requires Shows(x, b, d) && i < h < |d|
    requires Within(x, was, b, |d|)
    modifies x
    ensures e == Pair(d, i, h, Complex(omega_r, omega_c))
    ensures Shows(x, b, e) && Within(x, was, b, |d|)
  {
    var x_r, x_c := x[b + 2 * h], x[b + 2 * h + 1];
    var tau_r := omega_r * x_r - omega_c * x_c;
    var tau_c := omega_r * x_c + omega_c * x_r;
    ghost var tau := Mul(Complex(omega_r, omega_c), Complex(x_r, x_c));
    assert Complex(x_r, x_c) == d[h] && Complex(tau_r, tau_c) == tau;
    x_r, x_c := x[b + 2 * i], x[b + 2 * i + 1];
    assert Complex(x_r - tau_r, x_c - tau_c) == Fourier.Sub(d[i], tau);
    assert Complex(x_r + tau_r, x_c + tau_c) == Add(d[i], tau);
    e := Put(x, b, was, d, h, x_r - tau_r, x_c - tau_c);
    e := Put(x, b, was, e, i, x_r + tau_r, x_c + tau_c);
  }

  lemma CrossedOne(c: seq<Complex>, m: nat, v: seq<Complex>, q: nat, k: nat, base: nat, j: nat, i: nat, h: nat)
    requires 0 < q <= m < |v| && |c| == Pow2(m) && Family(v)
    requires base == k * Pow2(q) && k < Pow2(m - q) && j < Pow2(q - 1) && base + Pow2(q) <= |c|
    requires i == base + j && h == i + Pow2(q - 1)
    ensures Pair(Crossed(c, m, v, q, base, j), i, h, Pow(v[q], j)) == Crossed(c, m, v, q, base, j + 1)
  {
    var d, e := Crossed(c, m, v, q, base, j), Crossed(c, m, v, q, base, j + 1);
    CrossEntries(c, m, v, q, k, j, i, h);
    assert !Past(q, base, j, i) && !Past(q, base, j, h);
    assert Past(q, base, j + 1, i) && Past(q, base, j + 1, h);
    forall p: nat | p < |c| && p != i && p != h
      ensures d[p] == e[p]
    {
      assert Past(q, base, j, p) == Past(q, base, j + 1, p);
    }
  }

  lemma CrossedStart(c: seq<Complex>, m: nat, v: seq<Complex>, q: nat)
    requires 0 < q <= m < |v| && |c| == Pow2(m)
    ensures Crossed(c, m, v, q, 0, 0) == Stage(c, m, v, q - 1)
    ensures Crossed(c, m, v, q, |c|, 0) == Stage(c, m, v, q)
  {
  }

  lemma CrossedNext(c: seq<Complex>, m: nat, v: seq<Complex>, q: nat, base: nat, next: nat)
    requires 0 < q <= m < |v| && |c| == Pow2(m) && next == base + Pow2(q)
    ensures Crossed(c, m, v, q, base, Pow2(q - 1)) == Crossed(c, m, v, q, next, 0)
  {
    forall p | 0 <= p < |c|
      ensures Past(q, base, Pow2(q - 1), p) == Past(q, next, 0, p)
    {
    }
  }

  /** The table entry, its imaginary part multiplied by the direction. */
  lemma Omega(u: array<real>, m: nat, w: seq<Complex>, forward: bool, q: nat, j: nat)
    requires Table(u, m, w) && 1 <= q <= m && j < Pow2(q - 1)
    ensures TableEntry(u, w, q, j)
    ensures var i := 2 * (Pow2(q - 1) - 1 + j);
            Complex(u[i], if forward then u[i + 1] else -u[i + 1]) == Pow(Directed(w, forward)[q], j)
  {
    assert TableEntry(u, w, q, j);
    if !forward {
      PowConj(w[q], j);
    }
  }

  method Twiddle(direction: int, u: array<real>, lstar: nat, j: nat, ghost m: nat, ghost w: seq<Complex>, ghost q: nat)
    returns (omega_r: real, omega_c: real)
    requires direction == 1 || direction == -1
    requires Table(u, m, w) && 1 <= q <= m && j < lstar == Pow2(q - 1)
    ensures Complex(omega_r, omega_c) == Pow(Directed(w, direction == 1)[q], j)
  {
    Omega(u, m, w, direction == 1, q, j);
    omega_r := u[2 * (lstar - 1 + j)];
    omega_c := direction as real * u[2 * (lstar - 1 + j) + 1];
  }

  /** Butterfly `j` of block `k`. */
  method Cross(direction: int, u: array<real>, x: array<real>, b: nat, ghost was: seq<real>, base: nat, lstar: nat, j: nat, ghost m: nat,
               ghost w: seq<Complex>, ghost v: seq<Complex>, ghost c: seq<Complex>, ghost q: nat, ghost k: nat)
    requires direction == 1 || direction == -1
    requires u != x && |w| == m + 1 && Family(v) && Table(u, m, w) && v == Directed(w, direction == 1)
    requires |c| == Pow2(m) && 0 < q <= m && j < lstar == Pow2(q - 1)
    requires base == k * Pow2(q) && k < Pow2(m - q) && base + Pow2(q) <= |c|
    requires Shows(x, b, Crossed(c, m, v, q, base, j))
    requires Within(x, was, b, |c|)
    modifies x
    ensures Shows(x, b, Crossed(c, m, v, q, base, j + 1)) && Within(x, was, b, |c|)
  {
    var omega_r, omega_c := Twiddle(direction, u, lstar, j, m, w, q);
    var i, h := base + j, base + j + lstar;
    ghost var d, omega := Crossed(c, m, v, q, base, j), Pow(v[q], j);
    CrossedOne(c, m, v, q, k, base, j, i, h);
    assert Complex(omega_r, omega_c) == omega;
    ghost var e := CrossOne(x, b, was, d, i, h, omega_r, omega_c);
    assert e == Pair(d, i, h, omega);
  }

  method CrossBlock(direction: int, u: array<real>, x: array<real>, b: nat, ghost was: seq<real>, base: nat, lstar: nat, ghost m: nat,
                    ghost w: seq<Complex>, ghost v: seq<Complex>, ghost c: seq<Complex>, ghost q: nat, ghost k: nat)
    requires direction == 1 || direction == -1
    requires u != x && |w| == m + 1 && Family(v) && Table(u, m, w) && v == Directed(w, direction == 1)
    requires |c| == Pow2(m) && 0 < q <= m && lstar == Pow2(q - 1)
    requires base == k * Pow2(q) && k < Pow2(m - q) && base + Pow2(q) <= |c|
    requires Shows(x, b, Crossed(c, m, v, q, base, 0))
    requires Within(x, was, b, |c|)
    modifies x
    ensures Shows(x, b, Crossed(c, m, v, q, base, lstar)) && Within(x, was, b, |c|)
  {
    var j := 0;
    while j < lstar
      invariant j <= lstar && Shows(x, b, Crossed(c, m, v, q, base, j)) && Within(x, was, b, |c|)
    {
      Cross(direction, u, x, b, was, base, lstar, j, m, w, v, c, q, k);
      j := j + 1;
    }
  }

  method CrossAll(direction: int, n: nat, u: array<real>, x: array<real>, b: nat, ghost was: seq<real>, q: nat, ghost m: nat,
                  ghost w: seq<Complex>, ghost v: seq<Complex>, ghost c: seq<Complex>)
    requires direction == 1 || direction == -1
    requires u != x && |w| == m + 1 && Family(v) && Table(u, m, w) && v == Directed(w, direction == 1)
    requires n == |c| == Pow2(m) && 1 <= q <= m
    requires Shows(x, b, Stage(c, m, v, q - 1))
    requires Within(x, was, b, n)
    modifies x
    ensures Shows(x, b, Stage(c, m, v, q)) && Within(x, was, b, n)
  {
    var L := Pow2(q);
    PowProduct(m, q);
    DivMod(n, Pow2(m - q), 0, L);
    var r := n / L;
    var lstar := L / 2;
    var k := 0;
    CrossedStart(c, m, v, q);
    while k < r
      invariant k <= r && Shows(x, b, Crossed(c, m, v, q, k * L, 0)) && Within(x, was, b, n)
    {
      MulLess(k, r, L);
      CrossBlock(direction, u, x, b, was, k * L, lstar, m, w, v, c, q, k);
      CrossedNext(c, m, v, q, k * L, (k + 1) * L);
      k := k + 1;
    }
  }

  /** The transform of `c`: entry `p` is the sum of c[t] times the p t-th power of the root. */
  ghost function Transform(c: seq<Complex>, root: Complex): seq<Complex> {
    seq(|c|, p requires 0 <= p < |c| => Dft(c, root, p))
  }

  /** Forwards the principal root w[m], backwards its conjugate. */
  ghost function Root(w: seq<Complex>, m: nat, direction: int): Complex
    requires m < |w|
  {
    if direction == 1 then w[m] else Conj(w[m])
  }

  /** single_FFT1D. */
  method SingleFft1D(direction: int, m: nat, n: nat, u: array<real>, x: array<real>, b: nat, ghost was: seq<real>,
                     ghost w: seq<Complex>, ghost c: seq<Complex>)
    requires direction == 1 || direction == -1
    requires n == Pow2(m) == |c| && Shows(x, b, c)
    requires u != x && Family(w) && Table(u, m, w)
    requires Within(x, was, b, n)
    modifies x
    ensures Shows(x, b, Transform(c, if direction == 1 then w[m] else Complex(w[m].re, -w[m].im))) && Within(x, was, b, n)
  {
    ghost var v := Directed(w, direction == 1);
    assert Family(v) by {
      DirectedRoots(w, direction == 1);
    }
    CrossStages(direction, m, n, u, x, b, was, w, v, c, Root(w, m, direction));
  }

  /** The reversal and the stages, `q` the stage about to begin. */
  method CrossStages(direction: int, m: nat, n: nat, u: array<real>, x: array<real>, b: nat, ghost was: seq<real>,
                     ghost w: seq<Complex>, ghost v: seq<Complex>, ghost c: seq<Complex>, ghost root: Complex)
    requires direction == 1 || direction == -1
    requires u != x && |w| == m + 1 && Family(v) && Table(u, m, w) && v == Directed(w, direction == 1) && v[m] == root
    requires n == Pow2(m) == |c| && Shows(x, b, c)
    requires Within(x, was, b, n)
    modifies x
    ensures Shows(x, b, Transform(c, root)) && Within(x, was, b, n)
  {
    Started(c, m, v);
    ghost var d := Reverse(n, m, x, b, was, c);
    var q := 1;
    while q <= m
      invariant 1 <= q <= m + 1 && Shows(x, b, Stage(c, m, v, q - 1)) && Within(x, was, b, n)
    {
      CrossAll(direction, n, u, x, b, was, q, m, w, v, c);
      q := q + 1;
    }
    Finished(c, m, v, root);
  }

  lemma Started(c: seq<Complex>, m: nat, v: seq<Complex>)
    requires m < |v| && |c| == Pow2(m)
    ensures Stage(c, m, v, 0) == Reversed(c, m)
  {
    forall p: nat | p < |c|
      ensures Stage(c, m, v, 0)[p] == Reversed(c, m)[p]
    {
      FirstEntry(c, m, v, p);
    }
  }

  lemma Finished(c: seq<Complex>, m: nat, v: seq<Complex>, root: Complex)
    requires m < |v| && |c| == Pow2(m) && v[m] == root
    ensures Stage(c, m, v, m) == Transform(c, root)
  {
    forall p: nat | p < |c|
      ensures Stage(c, m, v, m)[p] == Dft(c, v[m], p)
    {
      LastEntry(c, m, v, p);
    }
  }
}
