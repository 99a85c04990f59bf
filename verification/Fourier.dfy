/** Exact complex numbers, the discrete Fourier transform, and its split into even and odd samples. */
module Fourier {
  import opened BitReversal

  datatype Complex = Complex(re: real, im: real)

  const ZERO := Complex(0.0, 0.0)
  const ONE := Complex(1.0, 0.0)

  function Add(a: Complex, b: Complex): Complex {
    Complex(a.re + b.re, a.im + b.im)
  }

  function Sub(a: Complex, b: Complex): Complex {
    Complex(a.re - b.re, a.im - b.im)
  }

  function Mul(a: Complex, b: Complex): Complex {
    Complex(a.re * b.re - a.im * b.im, a.re * b.im + a.im * b.re)
  }

  function Neg(a: Complex): Complex {
    Complex(-a.re, -a.im)
  }

  function Conj(a: Complex): Complex {
    Complex(a.re, -a.im)
  }

  function Pow(z: Complex, n: nat): Complex {
    if n == 0 then ONE else Mul(Pow(z, n - 1), z)
  }

  lemma MulAssoc(a: Complex, b: Complex, c: Complex)
    ensures Mul(Mul(a, b), c) == Mul(a, Mul(b, c))
  {
  }

  lemma MulComm(a: Complex, b: Complex)
    ensures Mul(a, b) == Mul(b, a)
  {
  }

  lemma ConjMul(a: Complex, b: Complex)
    ensures Mul(Conj(a), Conj(b)) == Conj(Mul(a, b))
  {
  }

  lemma NegMul(a: Complex, b: Complex)
    ensures Mul(Neg(a), b) == Neg(Mul(a, b)) == Mul(a, Neg(b)) && Mul(Neg(a), Neg(b)) == Mul(a, b)
  {
  }

  lemma MulOne(a: Complex)
    ensures Mul(a, ONE) == a == Mul(ONE, a)
  {
  }

  lemma {:induction false} PowAdd(z: Complex, m: nat, n: nat)
    ensures Pow(z, m + n) == Mul(Pow(z, m), Pow(z, n))
  {
    if n > 0 {
      PowAdd(z, m, n - 1);
      MulAssoc(Pow(z, m), Pow(z, n - 1), z);
    }
  }

  lemma {:induction false} PowSquare(z: Complex, n: nat)
    ensures Pow(Mul(z, z), n) == Mul(Pow(z, n), Pow(z, n))
  {
    if n > 0 {
      PowSquare(z, n - 1);
      var p := Pow(z, n - 1);
      MulAssoc(Mul(p, p), z, z);
      MulAssoc(p, p, z);
      MulComm(p, z);
      MulAssoc(p, z, p);
      MulAssoc(Mul(p, z), p, z);
    }
  }

  lemma {:induction false} PowConj(z: Complex, n: nat)
    ensures Pow(Conj(z), n) == Conj(Pow(z, n))
  {
    if n > 0 {
      PowConj(z, n - 1);
      ConjMul(Pow(z, n - 1), z);
    }
  }

  // ---------------------------------------------------------------- the transform

  /** The sum of s[t] * z^t over all t. */
  function Sum(s: seq<Complex>, z: Complex): Complex {
    if s == [] then ZERO else Add(Sum(s[..|s| - 1], z), Mul(s[|s| - 1], Pow(z, |s| - 1)))
  }

  /** Entry `j` of the discrete Fourier transform of `s` over the root of unity `w`. */
  function Dft(s: seq<Complex>, w: Complex, j: nat): Complex {
    Sum(s, Pow(w, j))
  }

  function Evens(s: seq<Complex>): (r: seq<Complex>)
    requires |s| % 2 == 0
    ensures |r| == |s| / 2
  {
    seq(|s| / 2, i requires 0 <= i < |s| / 2 => s[2 * i])
  }

  function Odds(s: seq<Complex>): (r: seq<Complex>)
    requires |s| % 2 == 0
    ensures |r| == |s| / 2
  {
    seq(|s| / 2, i requires 0 <= i < |s| / 2 => s[2 * i + 1])
  }

  /** Two more terms of the sum. */
  lemma SumTwo(s: seq<Complex>, a: Complex, b: Complex, z: Complex)
    ensures Sum(s + [a, b], z) == Add(Sum(s, z), Add(Mul(a, Pow(z, |s|)), Mul(b, Pow(z, |s| + 1))))
  {
    var u := s + [a, b];
    assert u[..|s| + 1] == s + [a];
    assert (s + [a])[..|s|] == s;
  }

  lemma SumOne(s: seq<Complex>, a: Complex, z: Complex)
    ensures Sum(s + [a], z) == Add(Sum(s, z), Mul(a, Pow(z, |s|)))
  {
    assert (s + [a])[..|s|] == s;
  }

  /** E + z O plus a z^2k + b z^(2k+1) is E' + z O'. */
  lemma Regroup(e: Complex, o: Complex, a: Complex, b: Complex, z: Complex, p: Complex)
    ensures Add(Add(e, Mul(z, o)), Add(Mul(a, p), Mul(b, Mul(p, z)))) == Add(Add(e, Mul(a, p)), Mul(z, Add(o, Mul(b, p))))
  {
    MulAssoc(b, p, z);
    MulComm(Mul(b, p), z);
  }

  /** A sum over all samples from the sums over the even and the odd ones. */
  lemma {:induction false} SumSplit(s: seq<Complex>, z: Complex)
    requires |s| % 2 == 0
    ensures Sum(s, z) == Add(Sum(Evens(s), Mul(z, z)), Mul(z, Sum(Odds(s), Mul(z, z))))
  {
    if s != [] {
      var n := |s| - 2;
      var t, a, b := s[..n], s[n], s[n + 1];
      assert s == t + [a, b];
      assert Evens(s) == Evens(t) + [a];
      assert Odds(s) == Odds(t) + [b];
      SumSplit(t, z);
      SumTwo(t, a, b, z);
      SumOne(Evens(t), a, Mul(z, z));
      SumOne(Odds(t), b, Mul(z, z));
      PowSquare(z, n / 2);
      PowAdd(z, n / 2, n / 2);
      Regroup(Sum(Evens(t), Mul(z, z)), Sum(Odds(t), Mul(z, z)), a, b, z, Pow(z, n));
    }
  }

  // ---------------------------------------------------------------- roots of unity

  /** v[q] is a principal root of unity of order 2^q: v[1] is -1 and each is the square of the next. */
  ghost predicate Family(v: seq<Complex>) {
    && |v| > 0 && v[0] == ONE
    && (|v| > 1 ==> v[1] == Neg(ONE))
    && forall q | 0 <= q < |v| - 1 :: RootOf(v, q)
  }

  ghost predicate RootOf(v: seq<Complex>, q: nat)
    requires q + 1 < |v|
  {
    Mul(v[q + 1], v[q + 1]) == v[q]
  }

  lemma {:induction false} HalfTurn(v: seq<Complex>, q: nat)
    requires Family(v) && 0 < q < |v|
    ensures Pow(v[q], Pow2(q - 1)) == Neg(ONE)
  {
    if q == 1 {
      assert Pow(v[1], 1) == Mul(Pow(v[1], 0), v[1]);
      MulOne(v[1]);
    } else {
      var h := Pow2(q - 2);
      HalfTurn(v, q - 1);
      assert RootOf(v, q - 1);
      PowSquare(v[q], h);
      PowAdd(v[q], h, h);
    }
  }

  /** The direction of a transform turns the roots round. */
  function Directed(w: seq<Complex>, forward: bool): (v: seq<Complex>)
    ensures |v| == |w|
  {
    seq(|w|, q requires 0 <= q < |w| => if forward then w[q] else Conj(w[q]))
  }

  /** Turned round, each root is still the square of the next; so a family turned round is a family. */
  lemma DirectedRoots(w: seq<Complex>, forward: bool)
    requires Family(w)
    ensures forall q | 0 <= q < |w| - 1 :: RootOf(Directed(w, forward), q)
  {
    forall q | 0 <= q < |w| - 1
      ensures RootOf(Directed(w, forward), q)
    {
      assert RootOf(w, q);
      ConjMul(w[q + 1], w[q + 1]);
    }
  }

  lemma DirectedFamily(w: seq<Complex>, forward: bool)
    requires Family(w)
    ensures Family(Directed(w, forward))
  {
    DirectedRoots(w, forward);
  }

  /** Half the samples on, the power of the root changes sign. */
  lemma Opposite(v: seq<Complex>, q: nat, j: nat)
    requires Family(v) && 0 < q < |v|
    ensures Pow(v[q], j + Pow2(q - 1)) == Neg(Pow(v[q], j))
  {
    HalfTurn(v, q);
    PowAdd(v[q], j, Pow2(q - 1));
    NegMul(Pow(v[q], j), ONE);
    MulOne(Pow(v[q], j));
  }

  /** Entry `j` of the transform of the even samples plus the twiddled entry of the odd ones. */
  function Joined(e: Complex, o: Complex, z: Complex): Complex {
    Add(e, Mul(z, o))
  }

  lemma JoinedSum(s: seq<Complex>, z: Complex, y: Complex)
    requires |s| % 2 == 0 && y == Mul(z, z)
    ensures Sum(s, z) == Joined(Sum(Evens(s), y), Sum(Odds(s), y), z)
    ensures Sum(s, Neg(z)) == Joined(Sum(Evens(s), y), Sum(Odds(s), y), Neg(z))
  {
    NegMul(z, z);
    SumSplit(s, z);
    SumSplit(s, Neg(z));
  }

  /** One butterfly: entries `j` and `j + L` of the transform of 2 L samples from entry `j` of the transforms
      of the even and of the odd ones. */
  lemma Butterfly(s: seq<Complex>, v: seq<Complex>, q: nat, j: nat, e: Complex, o: Complex)
    requires Family(v) && 0 < q < |v| && |s| % 2 == 0
    requires e == Dft(Evens(s), v[q - 1], j) && o == Dft(Odds(s), v[q - 1], j)
    ensures Dft(s, v[q], j) == Add(e, Mul(Pow(v[q], j), o))
    ensures Dft(s, v[q], j + Pow2(q - 1)) == Sub(e, Mul(Pow(v[q], j), o))
  {
    var z := Pow(v[q], j);
    assert RootOf(v, q - 1);
    PowSquare(v[q], j);
    Opposite(v, q, j);
    JoinedSum(s, z, Pow(v[q - 1], j));
    NegMul(z, o);
  }
}
