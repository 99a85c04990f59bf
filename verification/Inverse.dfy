/** A transform in one direction undoes the transform in the other, up to a factor: the number of samples. */
module Inverse {
  import opened BitReversal
  import opened Decimation
  import opened Fft
  import opened Fourier

  function Times(n: nat, a: Complex): Complex {
    Complex(n as real * a.re, n as real * a.im)
  }

  function Ones(n: nat): (s: seq<Complex>)
    ensures |s| == n
  {
    seq(n, _ => ONE)
  }

  // ---------------------------------------------------------------- sums of powers

  lemma {:induction false} SumOnes(n: nat, z: Complex)
    requires z == ONE
    ensures Sum(Ones(n), z) == Times(n, z)
  {
    if n == 0 {
      NoTimes(z);
    } else {
      SumOnes(n - 1, z);
      OnesMore(n, z);
      OneMore(n, z);
    }
  }

  lemma OnesMore(n: nat, z: Complex)
    requires n > 0 && z == ONE
    ensures Sum(Ones(n), z) == Add(Sum(Ones(n - 1), z), z)
  {
    assert Ones(n) == Ones(n - 1) + [z];
    SumOne(Ones(n - 1), z, z);
    PowOne(z, n - 1);
    MulOne(z);
  }

  lemma NoTimes(z: Complex)
    ensures Times(0, z) == ZERO
  {
  }

  lemma OneMore(n: nat, z: Complex)
    requires n > 0
    ensures Add(Times(n - 1, z), z) == Times(n, z)
  {
  }

  /** The powers of a root other than one cancel out. */
  lemma {:induction false} RootsCancel(v: seq<Complex>, m: nat, d: nat)
    requires Family(v) && m < |v| && 0 < d < Pow2(m)
    ensures Sum(Ones(Pow2(m)), Pow(v[m], d)) == ZERO
  {
    var h, u := Pow2(m - 1), Pow(v[m], d);
    assert Ones(2 * h) == Ones(h) + Ones(h);
    SumAppend(Ones(h), Ones(h), u);
    HalfPower(v, m, d, h);
    if d % 2 == 0 {
      RootsCancel(v, m - 1, d / 2);
      assert RootOf(v, m - 1);
      PowPow(v[m], 2, d / 2, d);
      Square(v[m]);
      MulOne(Sum(Ones(h), u));
    } else {
      HalfCancels(v, m, h, Sum(Ones(h), u));
    }
  }

  lemma Square(z: Complex)
    ensures Pow(z, 2) == Mul(z, z)
  {
    assert Pow(z, 1) == Mul(Pow(z, 0), z);
    MulOne(z);
  }

  /** Half-way round an even power is one and an odd one that of the root itself. */
  lemma HalfPower(v: seq<Complex>, m: nat, d: nat, h: nat)
    requires Family(v) && 0 < m < |v| && h == Pow2(m - 1)
    ensures Pow(Pow(v[m], d), h) == if d % 2 == 0 then ONE else Pow(v[m], h)
  {
    FamilyPower(v, 0, m);
    PowAdd(v[m], h, h);
    Turned(v[m], h, d);
    SignPower(Pow(v[m], h), d);
  }

  lemma HalfCancels(v: seq<Complex>, m: nat, h: nat, s: Complex)
    requires Family(v) && 0 < m < |v| && h == Pow2(m - 1)
    ensures Add(s, Mul(Pow(v[m], h), s)) == ZERO
  {
    HalfTurn(v, m);
    NegMul(ONE, s);
    MulOne(s);
  }

  // ---------------------------------------------------------------- the roots turned round

  /** Every root has absolute value one. */
  lemma {:induction false} UnitRoot(v: seq<Complex>, q: nat)
    requires Family(v) && q < |v|
    ensures Mul(v[q], Conj(v[q])) == ONE
  {
    if q > 0 {
      UnitRoot(v, q - 1);
      assert RootOf(v, q - 1);
      UnitSquare(v[q]);
    }
  }

  lemma UnitSquare(z: Complex)
    requires Mul(Mul(z, z), Conj(Mul(z, z))) == ONE
    ensures Mul(z, Conj(z)) == ONE
  {
    var n := z.re * z.re + z.im * z.im;
    MulConj(z);
    MulConj(Mul(z, z));
    NormSquare(z.re, z.im);
    OnlyOne(n);
  }

  /** A number times its conjugate: the square of its absolute value. */
  lemma MulConj(z: Complex)
    ensures Mul(z, Conj(z)) == Complex(z.re * z.re + z.im * z.im, 0.0)
  {
  }

  lemma NormSquare(a: real, b: real)
    ensures (a * a - b * b) * (a * a - b * b) + (a * b + b * a) * (a * b + b * a) == (a * a + b * b) * (a * a + b * b)
  {
  }

  lemma OnlyOne(n: real)
    requires n >= 0.0 && n * n == 1.0
    ensures n == 1.0
  {
    if n < 1.0 {
      Smaller(n, n, 1.0);
    } else if n > 1.0 {
      Smaller(n, 1.0, n);
    }
  }

  lemma Smaller(n: real, a: real, b: real)
    requires n >= 0.0 && a <= b
    ensures n * a <= n * b
  {
  }

  lemma {:induction false} PowUnit(w: Complex, x: Complex, n: nat)
    requires Mul(x, w) == ONE
    ensures Mul(Pow(x, n), Pow(w, n)) == ONE
  {
    PowBase(x, w, n);
    PowOne(Mul(x, w), n);
  }

  /** The j-th power of the inverse times the t-th power of the root. */
  lemma Meet(w: Complex, x: Complex, j: nat, t: nat)
    requires Mul(x, w) == ONE
    ensures Mul(Pow(x, j), Pow(w, t)) == if t >= j then Pow(w, t - j) else Pow(x, j - t)
  {
    if t >= j {
      PowUnit(w, x, j);
      PowAdd(w, j, t - j);
      MulAssoc(Pow(x, j), Pow(w, j), Pow(w, t - j));
      MulOne(Pow(w, t - j));
    } else {
      PowUnit(w, x, t);
      PowAdd(x, j - t, t);
      MulAssoc(Pow(x, j - t), Pow(x, t), Pow(w, t));
      MulOne(Pow(x, j - t));
    }
  }

  /** What one sample contributes to another's place. */
  ghost predicate Picks(w: Complex, x: Complex, n: nat, j: nat, t: nat) {
    Sum(Ones(n), Mul(Pow(x, j), Pow(w, t))) == if t == j then Times(n, ONE) else ZERO
  }

  lemma SamePicks(w: Complex, x: Complex, n: nat, j: nat)
    requires Mul(x, w) == ONE
    ensures Picks(w, x, n, j, j)
  {
    PowUnit(w, x, j);
    SumOnes(n, Mul(Pow(x, j), Pow(w, j)));
  }

  lemma LaterPicks(v: seq<Complex>, m: nat, x: Complex, j: nat, t: nat)
    requires Family(v) && m < |v| && Mul(x, v[m]) == ONE && j < t < Pow2(m)
    ensures Picks(v[m], x, Pow2(m), j, t)
  {
    Meet(v[m], x, j, t);
    RootsCancel(v, m, t - j);
  }

  lemma EarlierPicks(u: seq<Complex>, m: nat, w: Complex, j: nat, t: nat)
    requires Family(u) && m < |u| && Mul(u[m], w) == ONE && t < j < Pow2(m)
    ensures Picks(w, u[m], Pow2(m), j, t)
  {
    Meet(w, u[m], j, t);
    RootsCancel(u, m, j - t);
  }

  // ---------------------------------------------------------------- there and back

  /** The first `n` entries of the transform of fewer samples. */
  ghost function Spectrum(c: seq<Complex>, w: Complex, n: nat): (s: seq<Complex>)
    ensures |s| == n
  {
    seq(n, k requires 0 <= k < n => Dft(c, w, k))
  }

  /** One more sample. */
  lemma SpectrumMore(c: seq<Complex>, a: Complex, w: Complex, n: nat)
    ensures Spectrum(c + [a], w, n) == Plus(Spectrum(c, w, n), Twisted(Ones(n), Pow(w, |c|)), a)
  {
    forall k: nat | k < n
      ensures Spectrum(c + [a], w, n)[k] == Plus(Spectrum(c, w, n), Twisted(Ones(n), Pow(w, |c|)), a)[k]
    {
      var p := Pow(Pow(w, |c|), k);
      SumOne(c, a, Pow(w, k));
      Turned(w, |c|, k);
      MulOne(p);
      MulComm(a, p);
    }
  }

  lemma {:induction false} Back(c: seq<Complex>, w: Complex, x: Complex, n: nat, j: nat)
    requires |c| <= n && forall t: nat | t < n :: Picks(w, x, n, j, t)
    ensures Sum(Spectrum(c, w, n), Pow(x, j)) == if j < |c| then Times(n, c[j]) else ZERO
  {
    if c == [] {
      SumZeros(Spectrum(c, w, n), Pow(x, j));
    } else {
      var t := |c| - 1;
      var b, a, z := c[..t], c[t], Pow(x, j);
      assert c == b + [a];
      Back(b, w, x, n, j);
      SpectrumMore(b, a, w, n);
      SumLinear(Spectrum(b, w, n), Twisted(Ones(n), Pow(w, t)), a, z);
      SumTwisted(Ones(n), z, Pow(w, t));
      assert Picks(w, x, n, j, t);
      Picked(Sum(Ones(n), Mul(z, Pow(w, t))), n, a);
      WithZero(if j < t then Times(n, c[j]) else Times(n, a));
    }
  }

  lemma Picked(g: Complex, n: nat, a: Complex)
    ensures g == Times(n, ONE) ==> Mul(g, a) == Times(n, a)
    ensures g == ZERO ==> Mul(g, a) == ZERO
  {
  }

  lemma WithZero(a: Complex)
    ensures Add(a, ZERO) == a == Add(ZERO, a) && Add(ZERO, ZERO) == ZERO
  {
  }

  /** The root of the other direction is the inverse. */
  lemma Inverses(v: seq<Complex>, m: nat, direction: int)
    requires Family(v) && m < |v| && (direction == 1 || direction == -1)
    ensures Mul(Root(v, m, -direction), Root(v, m, direction)) == ONE
  {
    UnitRoot(v, m);
    MulComm(v[m], Conj(v[m]));
  }

  lemma FamilyOf(v: seq<Complex>, m: nat, direction: int) returns (a: seq<Complex>)
    requires Family(v) && m < |v| && (direction == 1 || direction == -1)
    ensures Family(a) && |a| == |v| && a[m] == Root(v, m, direction)
  {
    a := Directed(v, direction == 1);
    DirectedFamily(v, direction == 1);
  }

  lemma LaterAt(v: seq<Complex>, m: nat, direction: int, j: nat, t: nat)
    requires Family(v) && m < |v| && (direction == 1 || direction == -1) && j < t < Pow2(m)
    ensures Picks(Root(v, m, direction), Root(v, m, -direction), Pow2(m), j, t)
  {
    var a := FamilyOf(v, m, direction);
    Inverses(v, m, direction);
    LaterPicks(a, m, Root(v, m, -direction), j, t);
  }

  lemma EarlierAt(v: seq<Complex>, m: nat, direction: int, j: nat, t: nat)
    requires Family(v) && m < |v| && (direction == 1 || direction == -1) && t < j < Pow2(m)
    ensures Picks(Root(v, m, direction), Root(v, m, -direction), Pow2(m), j, t)
  {
    var b := FamilyOf(v, m, -direction);
    Inverses(v, m, direction);
    EarlierPicks(b, m, Root(v, m, direction), j, t);
  }

  lemma DirectedPicks(v: seq<Complex>, m: nat, direction: int, j: nat, t: nat)
    requires Family(v) && m < |v| && (direction == 1 || direction == -1) && j < Pow2(m) && t < Pow2(m)
    ensures Picks(Root(v, m, direction), Root(v, m, -direction), Pow2(m), j, t)
  {
    if t == j {
      Inverses(v, m, direction);
      SamePicks(Root(v, m, direction), Root(v, m, -direction), Pow2(m), j);
    } else if t > j {
      LaterAt(v, m, direction, j, t);
    } else {
      EarlierAt(v, m, direction, j, t);
    }
  }

  lemma EntryBack(c: seq<Complex>, v: seq<Complex>, m: nat, direction: int, w: Complex, x: Complex, j: nat)
    requires Family(v) && m < |v| && |c| == Pow2(m) && (direction == 1 || direction == -1) && j < |c|
    requires w == Root(v, m, direction) && x == Root(v, m, -direction)
    ensures Dft(Transform(c, w), x, j) == Times(|c|, c[j])
  {
    forall t: nat | t < |c|
      ensures Picks(w, x, |c|, j, t)
    {
      DirectedPicks(v, m, direction, j, t);
    }
    assert Transform(c, w) == Spectrum(c, w, |c|);
    Back(c, w, x, |c|, j);
  }

  /** A transform and one the other way leave every sample as many times as large as there are samples. */
  lemma ThereAndBack(c: seq<Complex>, v: seq<Complex>, m: nat, direction: int)
    requires Family(v) && m < |v| && |c| == Pow2(m) && (direction == 1 || direction == -1)
    ensures var back := Transform(Transform(c, Root(v, m, direction)), Root(v, m, -direction));
            |back| == |c| && forall j | 0 <= j < |c| :: back[j] == Times(|c|, c[j])
  {
    forall j | 0 <= j < |c|
      ensures Dft(Transform(c, Root(v, m, direction)), Root(v, m, -direction), j) == Times(|c|, c[j])
    {
      EntryBack(c, v, m, direction, Root(v, m, direction), Root(v, m, -direction), j);
    }
  }
}
