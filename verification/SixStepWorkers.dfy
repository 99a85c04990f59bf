/** When a worker's rows of the transform come out right: each has arrays of its own and computes only its own rows of
    them, and the transpositions read them all. */
module SixStepWorkers {
  import opened Arithmetic
  import opened BitReversal
  import opened Decimation
  import opened Fft
  import opened Fourier
  import opened SixStep

  type Grid = seq<seq<Complex>>

  /** Rows `a` to `b` hold their part of the transform. */
  ghost predicate RowsRight(f: Grid, s: seq<Complex>, big: Complex, a: nat, b: nat)
    requires Square(f)
  {
    forall l: nat, k: nat, q: nat | a <= l < b && l < |f| && k < |f| && q == |f| * l :: EntryIs(f, s, big, l, k, q)
  }

  /** Whatever the samples, and whatever the scratch array held before. */
  ghost predicate AlwaysRight(n: nat, w: Complex, big: Complex, a: nat, b: nat)
    requires a <= b <= n && n > 0
  {
    forall x: Grid, scratch: Grid | Square(x) && Square(scratch) && |x| == n == |scratch| ::
      RowsRight(WorkerSteps(x, scratch, w, big, a, b), Flat(x), big, a, b)
  }

  /** In the rows of another worker a worker finds the samples as they were. */
  lemma OthersUntouched(x: Grid, scratch: Grid, w: Complex, big: Complex, a: nat, b: nat, h: nat, v: nat)
    requires Square(x) && Square(scratch) && a <= b <= |x| == |scratch|
    requires a <= h < b && v < |x| && !(a <= v < b)
    ensures WorkerSteps(x, scratch, w, big, a, b)[h][v] == x[v][h]
  {
    var twisted := FirstRound(x, scratch, w, big, a, b);
    var middle := Upto(Flip(twisted), x, a, b);
    var done := Upto(TransformedRows(middle, w), middle, a, b);
    UptoAt(Flip(twisted), x, a, b, v);
    UptoAt(TransformedRows(middle, w), middle, a, b, v);
    UptoAt(Flip(done), twisted, a, b, h);
  }

  // ---------------------------------------------------------------- one sample

  /** A first sample of one, and all others zero. */
  ghost function Impulse(n: nat): (x: Grid)
    requires n > 0
    ensures |x| == n && Square(x)
  {
    seq(n, h requires 0 <= h < n => ImpulseRow(n, h))
  }

  ghost function ImpulseRow(n: nat, h: nat): (r: seq<Complex>)
    ensures |r| == n
  {
    seq(n, v requires 0 <= v < n => if h == 0 && v == 0 then ONE else ZERO)
  }

  /** A sum in which only the first sample is not zero. */
  lemma {:induction false} SumFirst(s: seq<Complex>, u: Complex, z: Complex)
    requires s != [] && s[0] == u && forall j | 0 < j < |s| :: s[j] == ZERO
    ensures Sum(s, z) == u
  {
    var t := s[..|s| - 1];
    if t == [] {
      FirstTerm(s, u, z);
    } else {
      SumFirst(t, u, z);
      assert s == t + [ZERO];
      SumOne(t, ZERO, z);
      NoTerm(u, Pow(z, |t|));
    }
  }

  lemma FirstTerm(s: seq<Complex>, u: Complex, z: Complex)
    requires s == [u]
    ensures Sum(s, z) == u
  {
    assert s == [] + [u];
    SumOne([], u, z);
    MulOne(u);
  }

  lemma NoTerm(u: Complex, p: Complex)
    ensures Add(u, Mul(ZERO, p)) == u
  {
  }

  lemma FlatImpulse(n: nat)
    requires n > 0
    ensures |Flat(Impulse(n))| > 0 && Flat(Impulse(n))[0] == ONE
    ensures forall t | 0 < t < |Flat(Impulse(n))| :: Flat(Impulse(n))[t] == ZERO
  {
    FlatAt(Impulse(n), 0, 0);
    forall t: nat | 0 < t < n * n
      ensures Flat(Impulse(n))[t] == ZERO
    {
      InRow(t, n);
      assert t == (t / n) * n + t % n;
    }
  }

  lemma ImpulseTransform(n: nat, z: Complex)
    requires n > 0
    ensures Sum(Flat(Impulse(n)), z) == ONE
  {
    FlatImpulse(n);
    SumFirst(Flat(Impulse(n)), ONE, z);
  }

  /** The transform of the impulse is one everywhere; a worker that has not all the rows leaves a zero. */
  lemma ImpulseWrong(n: nat, scratch: Grid, w: Complex, big: Complex, a: nat, b: nat, h: nat, v: nat, q: nat)
    requires n > 0 && Square(scratch) && |scratch| == n && a <= h < b <= n && v < n && !(a <= v < b)
    ensures var f := WorkerSteps(Impulse(n), scratch, w, big, a, b);
            f[h][v] == ZERO && Dft(Flat(Impulse(n)), big, q + v) == ONE
            && !EntryIs(f, Flat(Impulse(n)), big, h, v, q)
  {
    OthersUntouched(Impulse(n), scratch, w, big, a, b, h, v);
    ImpulseTransform(n, Pow(big, q + v));
  }

  // ---------------------------------------------------------------- exactly one worker

  /** A worker's rows are always right if and only if it has all the rows. */
  lemma RightIffAll(r: seq<Complex>, m: nat, n: nat, a: nat, b: nat)
    requires Family(r) && 2 * m < |r| && n == Pow2(m) && a < b <= n
    ensures AlwaysRight(n, r[m], r[2 * m], a, b) <==> a == 0 && b == n
  {
    if a == 0 && b == n {
      AllRight(r, m, n);
    } else {
      PartWrong(n, r[m], r[2 * m], a, b, if a > 0 then 0 else n - 1);
    }
  }

  lemma PartWrong(n: nat, w: Complex, big: Complex, a: nat, b: nat, v: nat)
    requires a < b <= n && v < n && !(a <= v < b)
    ensures !AlwaysRight(n, w, big, a, b)
  {
    var x, q := Impulse(n), n * a;
    ImpulseWrong(n, x, w, big, a, b, a, v, q);
    NotRight(WorkerSteps(x, x, w, big, a, b), Flat(x), big, a, b, a, v, q);
  }

  lemma NotRight(f: Grid, s: seq<Complex>, big: Complex, a: nat, b: nat, h: nat, v: nat, q: nat)
    requires Square(f) && a <= h < b && h < |f| && v < |f| && q == |f| * h && !EntryIs(f, s, big, h, v, q)
    ensures !RowsRight(f, s, big, a, b)
  {
  }

  lemma AllRight(r: seq<Complex>, m: nat, n: nat)
    requires Family(r) && 2 * m < |r| && n == Pow2(m)
    ensures AlwaysRight(n, r[m], r[2 * m], 0, n)
  {
    forall x: Grid, scratch: Grid | Square(x) && Square(scratch) && |x| == n == |scratch|
      ensures RowsRight(WorkerSteps(x, scratch, r[m], r[2 * m], 0, n), Flat(x), r[2 * m], 0, n)
    {
      AllRowsSteps(x, scratch, r[m], r[2 * m]);
      SixStepsTransform(x, r, m);
    }
  }

  /** With equal shares, that is if and only if there is a single worker. */
  lemma RightIffAlone(r: seq<Complex>, m: nat, n: nat, node: nat, first: nat, last: nat, workers: nat, lines: nat)
    requires Family(r) && 2 * m < |r| && n == Pow2(m) && Shared(n, node, first, last, workers, lines)
    ensures first < last && (AlwaysRight(n, r[m], r[2 * m], first, last) <==> workers == 1)
  {
    Shares(n, node, first, last, workers, lines);
    RightIffAll(r, m, n, first, last);
  }

  lemma Shares(n: nat, node: nat, first: nat, last: nat, workers: nat, lines: nat)
    requires Shared(n, node, first, last, workers, lines)
    ensures first < last && (first == 0 && last == n <==> workers == 1)
  {
    var rows := n / workers;
    assert EqualShares(n, node, first, last, workers, lines, rows);
    PartOf(n, workers, rows, node);
  }

  lemma PartOf(n: nat, workers: nat, rows: nat, node: nat)
    requires n > 0 && n == workers * rows && node < workers
    ensures rows > 0 && (node * rows == 0 && rows == n <==> workers == 1)
  {
    if rows == n && workers > 1 {
      MulLess(1, workers, n);
    }
  }
}
