/** `FFT1D` and `twiddle_Col` of `src/apps.c`: the transform of the n * n samples in a matrix by three transpositions
    and two rounds of row transforms, each worker on rows of its own in arrays of its own. */
module SixStep {
  import opened Arithmetic
  import opened BitReversal
  import opened Decimation
  import opened Fft
  import opened Fourier
  import T = Transpose

  // ---------------------------------------------------------------- the rows of a matrix

  ghost predicate Square(r: seq<seq<Complex>>) {
    |r| > 0 && forall h | 0 <= h < |r| :: |r[h]| == |r|
  }

  ghost function Row(a: seq<real>, n: nat, p: nat, h: nat): (r: seq<Complex>)
    requires T.Matrix(a, n, p) && h < n
    ensures |r| == n
  {
    seq(n, v requires 0 <= v < n => T.Cell(a, n, p, h, v))
  }

  ghost function Rows(a: seq<real>, n: nat, p: nat): (r: seq<seq<Complex>>)
    requires T.Matrix(a, n, p)
    ensures |r| == n && (n > 0 ==> Square(r))
  {
    seq(n, h requires 0 <= h < n => Row(a, n, p, h))
  }

  /** The rows one after the other, without the padding. */
  ghost function Flat(r: seq<seq<Complex>>): (s: seq<Complex>)
    requires Square(r)
    ensures |s| == |r| * |r|
  {
    seq(|r| * |r|, t requires 0 <= t < |r| * |r| => InRow(t, |r|); r[t / |r|][t % |r|])
  }

  lemma InRow(t: nat, n: nat)
    requires t < n * n
    ensures n > 0 && 0 <= t / n < n && 0 <= t % n < n
  {
    if n > 0 {
      QuotientBelow(t, n, n);
    }
  }

  ghost function Flip(r: seq<seq<Complex>>): (f: seq<seq<Complex>>)
    requires Square(r)
    ensures |f| == |r| && Square(f)
  {
    seq(|r|, h requires 0 <= h < |r| => FlipRow(r, h))
  }

  ghost function FlipRow(r: seq<seq<Complex>>, h: nat): (f: seq<Complex>)
    requires Square(r) && h < |r|
    ensures |f| == |r|
  {
    seq(|r|, v requires 0 <= v < |r| => r[v][h])
  }

  ghost function TransformedRows(r: seq<seq<Complex>>, w: Complex): (f: seq<seq<Complex>>)
    requires Square(r)
    ensures |f| == |r| && Square(f)
  {
    seq(|r|, h requires 0 <= h < |r| => Transform(r[h], w))
  }

  /** Every row transformed, and row `h` twisted by the powers of the h-th power of `big`. */
  ghost function TwistedRows(r: seq<seq<Complex>>, w: Complex, big: Complex): (f: seq<seq<Complex>>)
    requires Square(r)
    ensures |f| == |r| && Square(f)
  {
    seq(|r|, h requires 0 <= h < |r| => Twisted(Transform(r[h], w), Pow(big, h)))
  }

  ghost function SixSteps(r: seq<seq<Complex>>, w: Complex, big: Complex): (f: seq<seq<Complex>>)
    requires Square(r)
    ensures |f| == |r| && Square(f)
  {
    Flip(TransformedRows(Flip(TwistedRows(Flip(r), w, big)), w))
  }

  /** Rows `a` to `b` from `f`, the others from `r`. */
  ghost function Upto(f: seq<seq<Complex>>, r: seq<seq<Complex>>, a: nat, b: nat): (u: seq<seq<Complex>>)
    requires a <= b <= |r| == |f|
    ensures |u| == |r| && (Square(r) && Square(f) ==> Square(u))
  {
    r[..a] + f[a..b] + r[b..]
  }

  lemma UptoAt(f: seq<seq<Complex>>, r: seq<seq<Complex>>, a: nat, b: nat, h: nat)
    requires a <= b <= |r| == |f| && h < |r|
    ensures Upto(f, r, a, b)[h] == if a <= h < b then f[h] else r[h]
  {
  }

  lemma UptoNext(f: seq<seq<Complex>>, r: seq<seq<Complex>>, a: nat, j: nat)
    requires a <= j < |r| == |f|
    ensures Upto(f, r, a, j)[j] == r[j] && Upto(f, r, a, j)[j := f[j]] == Upto(f, r, a, j + 1)
  {
  }

  lemma UptoEnds(f: seq<seq<Complex>>, r: seq<seq<Complex>>, a: nat)
    requires a <= |r| == |f|
    ensures Upto(f, r, a, a) == r && Upto(f, r, 0, |r|) == f
  {
  }

  /** The first round of a worker: its rows of the transposed samples, transformed and twisted. */
  ghost function FirstRound(x: seq<seq<Complex>>, scratch: seq<seq<Complex>>, w: Complex, big: Complex, a: nat, b: nat)
    : (f: seq<seq<Complex>>)
    requires Square(x) && Square(scratch) && a <= b <= |x| == |scratch|
    ensures |f| == |x| && Square(f)
  {
    var columns := Upto(Flip(x), scratch, a, b);
    Upto(TwistedRows(columns, w, big), columns, a, b)
  }

  /** The second: its rows of the transposed result, transformed. */
  ghost function SecondRound(x: seq<seq<Complex>>, scratch: seq<seq<Complex>>, w: Complex, a: nat, b: nat)
    : (f: seq<seq<Complex>>)
    requires Square(x) && Square(scratch) && a <= b <= |x| == |scratch|
    ensures |f| == |x| && Square(f)
  {
    var middle := Upto(Flip(scratch), x, a, b);
    Upto(TransformedRows(middle, w), middle, a, b)
  }

  /** What a worker makes of the samples `x` and of what its `scratch` held before: the six steps, each on rows `a` to
      `b` only, the transpositions from its own arrays. */
  ghost function WorkerSteps(x: seq<seq<Complex>>, scratch: seq<seq<Complex>>, w: Complex, big: Complex, a: nat, b: nat)
    : (f: seq<seq<Complex>>)
    requires Square(x) && Square(scratch) && a <= b <= |x| == |scratch|
    ensures |f| == |x| && Square(f)
  {
    var twisted := FirstRound(x, scratch, w, big, a, b);
    Upto(Flip(SecondRound(x, twisted, w, a, b)), twisted, a, b)
  }

  // ---------------------------------------------------------------- the six steps are the transform

  lemma FlatAt(r: seq<seq<Complex>>, h: nat, j: nat)
    requires Square(r) && h < |r| && j < |r|
    ensures h * |r| + j < |r| * |r| && Flat(r)[h * |r| + j] == r[h][j]
  {
    InSquare(|r|, |r|, h, j);
    DivMod(h * |r| + j, h, j, |r|);
  }

  lemma FlippedRow(r: seq<seq<Complex>>, j: nat)
    requires Square(r) && j < |r|
    ensures Flip(r)[j] == Column(Flat(r), |r|, |r|, j)
  {
    forall h: nat | h < |r|
      ensures Flip(r)[j][h] == Column(Flat(r), |r|, |r|, j)[h]
    {
      FlatAt(r, h, j);
    }
  }

  /** Row `k` before the second round. */
  lemma MiddleRow(r: seq<seq<Complex>>, w: Complex, big: Complex, k: nat)
    requires Square(r) && k < |r|
    ensures Flip(TwistedRows(Flip(r), w, big))[k] == Middle(Flat(r), |r|, big, w, k)
  {
    var a, b := Flip(TwistedRows(Flip(r), w, big))[k], Middle(Flat(r), |r|, big, w, k);
    forall j: nat | j < |r|
      ensures a[j] == b[j]
    {
      MiddleEntry(r, w, big, k, j);
    }
  }

  lemma MiddleEntry(r: seq<seq<Complex>>, w: Complex, big: Complex, k: nat, j: nat)
    requires Square(r) && k < |r| && j < |r|
    ensures Flip(TwistedRows(Flip(r), w, big))[k][j] == Middle(Flat(r), |r|, big, w, k)[j]
  {
    FlippedRow(r, j);
    Turned(big, k, j);
    var c := Column(Flat(r), |r|, |r|, j);
    assert Flip(TwistedRows(Flip(r), w, big))[k][j] == Twisted(Transform(c, w), Pow(big, j))[k];
    assert Partials(Flat(r), |r|, |r|, Pow(w, k))[j] == Sum(c, Pow(w, k)) == Dft(c, w, k);
  }

  lemma SixStepsEntry(r: seq<seq<Complex>>, v: seq<Complex>, m: nat, l: nat, k: nat, q: nat)
    requires Square(r) && l < |r| && k < |r| && q == |r| * l
    requires Family(v) && 2 * m < |v| && |r| == Pow2(m)
    ensures SixSteps(r, v[m], v[2 * m])[l][k] == Dft(Flat(r), v[2 * m], q + k)
  {
    var w, big := v[m], v[2 * m];
    SquareRoots(v, m, |r|, big, w);
    Entries(r, w, big, l, k, q);
  }

  lemma Entries(r: seq<seq<Complex>>, w: Complex, big: Complex, l: nat, k: nat, q: nat)
    requires Square(r) && l < |r| && k < |r| && q == |r| * l
    requires Pow(big, |r|) == w && Pow(w, |r|) == ONE
    ensures SixSteps(r, w, big)[l][k] == Dft(Flat(r), big, q + k)
  {
    MiddleRow(r, w, big, k);
    SquareTransform(Flat(r), |r|, big, w, k, l, q);
  }

  // ---------------------------------------------------------------- rows in an array

  lemma RowShows(x: array<real>, n: nat, p: nat, h: nat, b: nat)
    requires T.Matrix(x[..], n, p) && h < n && b == 2 * (h * p)
    ensures Shows(x, b, Row(x[..], n, p, h))
  {
    MulLess(h, n, p);
  }

  lemma RowOnly(x: array<real>, was: seq<real>, n: nat, p: nat, h: nat, b: nat, c: seq<Complex>)
    requires T.Matrix(x[..], n, p) && h < n && b == 2 * (h * p)
    requires T.Matrix(was, n, p) && |c| == n && Shows(x, b, c) && Within(x, was, b, n)
    ensures Rows(x[..], n, p) == Rows(was, n, p)[h := c]
  {
    forall g: nat | g < n
      ensures Row(x[..], n, p, g) == if g == h then c else Row(was, n, p, g)
    {
      OneRow(x, was, n, p, h, b, c, g);
    }
  }

  lemma OneRow(x: array<real>, was: seq<real>, n: nat, p: nat, h: nat, b: nat, c: seq<Complex>, g: nat)
    requires T.Matrix(x[..], n, p) && h < n && b == 2 * (h * p) && g < n
    requires T.Matrix(was, n, p) && |c| == n && Shows(x, b, c) && Within(x, was, b, n)
    ensures Row(x[..], n, p, g) == if g == h then c else Row(was, n, p, g)
  {
    if g < h {
      MulLess(g, h, p);
    } else if h < g {
      MulLess(h, g, p);
    }
    forall v: nat | v < n
      ensures T.Cell(x[..], n, p, g, v) == if g == h then c[v] else T.Cell(was, n, p, g, v)
    {
      T.IndexIn(n, p, g, v);
    }
  }

  ghost predicate EqualShares(n: nat, node: nat, first: nat, last: nat, workers: nat, lines: nat, rows: nat) {
    && n == workers * rows && first == node * rows && last == first + rows
    && lines > 0 && T.Blocks(rows, lines) > 0 && rows % T.Blocks(rows, lines) == 0
  }

  /** The worker `node` of `workers` has an equal share of the rows, which the blocks of its transpositions fill. */
  ghost predicate Shared(n: nat, node: nat, first: nat, last: nat, workers: nat, lines: nat) {
    && node < workers && n > 0 && first <= last <= n
    && forall rows: nat | rows == n / workers :: EqualShares(n, node, first, last, workers, lines, rows)
  }

  method TransposeShare(n: nat, src: array<real>, dest: array<real>, node: nat, first: nat, last: nat, pad: nat,
                        workers: nat, lines: nat)
    requires Shared(n, node, first, last, workers, lines) && dest != src
    requires T.Matrix(src[..], n, n + pad) && T.Matrix(dest[..], n, n + pad)
    modifies dest
    ensures T.Matrix(dest[..], n, n + pad)
    ensures Rows(dest[..], n, n + pad) == old(Upto(Flip(Rows(src[..], n, n + pad)), Rows(dest[..], n, n + pad), first, last))
  {
    ghost var was, rows := dest[..], n / workers;
    assert EqualShares(n, node, first, last, workers, lines, rows);
    T.MatrixTranspose(n, src, dest, node, first, last, pad, workers, lines);
    T.ShareComplete(node, workers, rows, T.Blocks(rows, lines));
    ShareCopied(dest[..], src[..], was, n, n + pad, first, last);
  }

  lemma ShareCopied(now: seq<real>, src: seq<real>, was: seq<real>, n: nat, p: nat, a: nat, b: nat)
    requires n > 0 && a <= b <= n && T.Copied(now, src, was, n, p, T.Rect(a, b, 0, n))
    ensures Rows(now, n, p) == Upto(Flip(Rows(src, n, p)), Rows(was, n, p), a, b)
  {
    var u := Upto(Flip(Rows(src, n, p)), Rows(was, n, p), a, b);
    forall h: nat | h < n
      ensures Rows(now, n, p)[h] == u[h]
    {
      RowCopied(now, src, was, n, p, a, b, h);
      UptoAt(Flip(Rows(src, n, p)), Rows(was, n, p), a, b, h);
    }
  }

  lemma RowCopied(now: seq<real>, src: seq<real>, was: seq<real>, n: nat, p: nat, a: nat, b: nat, h: nat)
    requires n > 0 && h < n && a <= b <= n && T.Copied(now, src, was, n, p, T.Rect(a, b, 0, n))
    ensures Row(now, n, p, h) == if a <= h < b then FlipRow(Rows(src, n, p), h) else Row(was, n, p, h)
  {
    forall v: nat | v < n
      ensures Row(now, n, p, h)[v] == if a <= h < b then Rows(src, n, p)[v][h] else Row(was, n, p, h)[v]
    {
      assert (h, v) in T.Rect(a, b, 0, n) <==> a <= h < b;
    }
  }

  // ---------------------------------------------------------------- one row

  /** Entry `i` of row `j` of the table is the i-th power of the j-th power of the root of order n * n. */
  ghost predicate RootMatrix(u: seq<real>, n: nat, p: nat, big: Complex) {
    && T.Matrix(u, n, p)
    && forall j: nat, i: nat | j < n && i < n :: T.Cell(u, n, p, j, i) == Pow(Pow(big, j), i)
  }

  ghost function Turn(z: Complex, direction: int): Complex {
    if direction == 1 then z else Conj(z)
  }

  /** The table entry, its imaginary part multiplied by the direction. */
  lemma MatrixOmega(u: seq<real>, n: nat, p: nat, big: Complex, direction: int, j: nat, i: nat)
    requires RootMatrix(u, n, p, big) && j < n && i < n
    ensures T.Index(p, j, i) + 1 < |u|
    ensures Turn(Complex(u[T.Index(p, j, i)], u[T.Index(p, j, i) + 1]), direction) == Pow(Pow(Turn(big, direction), j), i)
  {
    T.IndexIn(n, p, j, i);
    assert T.Cell(u, n, p, j, i) == Pow(Pow(big, j), i);
    if direction != 1 {
      PowConj(big, j);
      PowConj(Pow(big, j), i);
    }
  }

  /** The first `i` numbers twisted. */
  ghost function Part(c: seq<Complex>, y: Complex, i: nat): (d: seq<Complex>)
    requires i <= |c|
    ensures |d| == |c|
  {
    Twisted(c, y)[..i] + c[i..]
  }

  lemma PartNext(c: seq<Complex>, y: Complex, i: nat)
    requires i < |c|
    ensures Part(c, y, i)[i] == c[i]
    ensures Part(c, y, i)[i := Mul(Pow(y, i), c[i])] == Part(c, y, i + 1)
  {
  }

  lemma Product(a: Complex, b: Complex, re: real, im: real)
    requires re == a.re * b.re - a.im * b.im && im == a.re * b.im + a.im * b.re
    ensures Complex(re, im) == Mul(a, b)
  {
  }

  method TwiddleOne(omega_r: real, omega_c: real, x: array<real>, b: nat, i: nat, ghost was: seq<real>,
                    ghost c: seq<Complex>, ghost y: Complex)
    requires i < |c| && Shows(x, b, Part(c, y, i)) && Within(x, was, b, |c|)
    requires Complex(omega_r, omega_c) == Pow(y, i)
    modifies x
    ensures Shows(x, b, Part(c, y, i + 1)) && Within(x, was, b, |c|)
  {
    PartNext(c, y, i);
    var x_r, x_c := x[b + 2 * i], x[b + 2 * i + 1];
    var z_r, z_c := omega_r * x_r - omega_c * x_c, omega_r * x_c + omega_c * x_r;
    Product(Complex(omega_r, omega_c), Complex(x_r, x_c), z_r, z_c);
    assert Complex(x_r, x_c) == c[i];
    ghost var e := Put(x, b, was, Part(c, y, i), i, z_r, z_c);
  }

  method MatrixTwiddle(direction: int, n: nat, j: nat, i: nat, u: array<real>, pad: nat, ghost big: Complex)
    returns (omega_r: real, omega_c: real)
    requires direction == 1 || direction == -1
    requires j < n && i < n && RootMatrix(u[..], n, n + pad, big)
    ensures Complex(omega_r, omega_c) == Pow(Pow(Turn(big, direction), j), i)
  {
    MatrixOmega(u[..], n, n + pad, big, direction, j, i);
    omega_r := u[2 * (j * (n + pad) + i)];
    omega_c := direction as real * u[2 * (j * (n + pad) + i) + 1];
  }

  /** twiddle_Col: number `i` of the row times entry `i` of row `j` of the table. */
  method TwiddleCol(direction: int, n: nat, j: nat, u: array<real>, x: array<real>, b: nat, pad: nat,
                    ghost was: seq<real>, ghost c: seq<Complex>, ghost big: Complex)
    requires direction == 1 || direction == -1
    requires u != x && j < n == |c| && RootMatrix(u[..], n, n + pad, big)
    requires Shows(x, b, c) && Within(x, was, b, n)
    modifies x
    ensures Shows(x, b, Twisted(c, Pow(Turn(big, direction), j))) && Within(x, was, b, n)
  {
    ghost var y := Pow(Turn(big, direction), j);
    var i := 0;
    assert Part(c, y, 0) == c;
    while i < n
      invariant i <= n && Shows(x, b, Part(c, y, i)) && Within(x, was, b, n)
    {
      var omega_r, omega_c := MatrixTwiddle(direction, n, j, i, u, pad, big);
      TwiddleOne(omega_r, omega_c, x, b, i, was, c, y);
      i := i + 1;
    }
    assert Part(c, y, n) == Twisted(c, y);
  }

  /** The transform of row `j`. */
  method FftRow(direction: int, m: nat, n: nat, p: nat, u: array<real>, x: array<real>, j: nat, ghost w: seq<Complex>)
    requires direction == 1 || direction == -1
    requires n == Pow2(m) && j < n && T.Matrix(x[..], n, p)
    requires u != x && Family(w) && Table(u, m, w)
    modifies x
    ensures Rows(x[..], n, p) == old(Rows(x[..], n, p)[j := Transform(Row(x[..], n, p, j), Root(w, m, direction))])
  {
    ghost var was, c := x[..], Row(x[..], n, p, j);
    RowShows(x, n, p, j, 2 * (j * p));
    SingleFft1D(direction, m, n, u, x, 2 * (j * p), was, w, c);
    RowOnly(x, was, n, p, j, 2 * (j * p), Transform(c, Root(w, m, direction)));
  }

  // ---------------------------------------------------------------- the whole transform

  lemma TransformNext(r: seq<seq<Complex>>, f: seq<seq<Complex>>, z: Complex, a: nat, j: nat, now: seq<seq<Complex>>)
    requires Square(r) && a <= j < |r| && f == TransformedRows(r, z) && now == Upto(f, r, a, j)
    ensures now[j := Transform(now[j], z)] == Upto(f, r, a, j + 1)
  {
    UptoNext(f, r, a, j);
  }

  /** One row of the second round. */
  method FftNext(direction: int, m: nat, n: nat, p: nat, u: array<real>, x: array<real>, ghost first: nat, j: nat,
                 ghost w: seq<Complex>, ghost z: Complex, ghost r: seq<seq<Complex>>, ghost f: seq<seq<Complex>>)
    requires direction == 1 || direction == -1
    requires n == Pow2(m) && first <= j < n && T.Matrix(x[..], n, p)
    requires u != x && Family(w) && Table(u, m, w) && z == Root(w, m, direction)
    requires Square(r) && |r| == n && f == TransformedRows(r, z) && Rows(x[..], n, p) == Upto(f, r, first, j)
    modifies x
    ensures T.Matrix(x[..], n, p) && Rows(x[..], n, p) == Upto(f, r, first, j + 1)
  {
    TransformNext(r, f, z, first, j, Rows(x[..], n, p));
    FftRow(direction, m, n, p, u, x, j, w);
  }

  /** The second round: the worker's rows transformed. */
  method FftRows(direction: int, m: nat, n: nat, p: nat, u: array<real>, x: array<real>, first: nat, last: nat,
                 ghost w: seq<Complex>, ghost z: Complex)
    requires direction == 1 || direction == -1
    requires n == Pow2(m) && T.Matrix(x[..], n, p) && first <= last <= n
    requires u != x && Family(w) && Table(u, m, w) && z == Root(w, m, direction)
    modifies x
    ensures T.Matrix(x[..], n, p)
    ensures var r := old(Rows(x[..], n, p)); Rows(x[..], n, p) == Upto(TransformedRows(r, z), r, first, last)
  {
    ghost var r := Rows(x[..], n, p);
    ghost var f := TransformedRows(r, z);
    var j := first;
    UptoEnds(f, r, first);
    while j < last
      invariant first <= j <= last && T.Matrix(x[..], n, p) && Rows(x[..], n, p) == Upto(f, r, first, j)
    {
      FftNext(direction, m, n, p, u, x, first, j, w, z, r, f);
      j := j + 1;
    }
  }

  /** The transform of row `j`, twisted. */
  method FftTwiddleRow(direction: int, m: nat, n: nat, pad: nat, u: array<real>, umain2: array<real>, x: array<real>,
                       j: nat, ghost w: seq<Complex>, ghost big: Complex, ghost z: Complex, ghost y: Complex)
    requires direction == 1 || direction == -1
    requires n == Pow2(m) && j < n && T.Matrix(x[..], n, n + pad)
    requires u != x && Family(w) && Table(u, m, w) && umain2 != x && RootMatrix(umain2[..], n, n + pad, big)
    requires z == Root(w, m, direction) && y == Turn(big, direction)
    modifies x
    ensures T.Matrix(x[..], n, n + pad)
    ensures var r := old(Rows(x[..], n, n + pad));
            Rows(x[..], n, n + pad) == r[j := Twisted(Transform(r[j], z), Pow(y, j))]
  {
    var b := 2 * (j * (n + pad));
    ghost var was, c := x[..], Row(x[..], n, n + pad, j);
    RowShows(x, n, n + pad, j, b);
    SingleFft1D(direction, m, n, u, x, b, was, w, c);
    TwiddleCol(direction, n, j, umain2, x, b, pad, was, Transform(c, z), big);
    RowOnly(x, was, n, n + pad, j, b, Twisted(Transform(c, z), Pow(y, j)));
  }

  lemma TwistNext(r: seq<seq<Complex>>, f: seq<seq<Complex>>, z: Complex, y: Complex, a: nat, j: nat,
                  now: seq<seq<Complex>>)
    requires Square(r) && a <= j < |r| && f == TwistedRows(r, z, y) && now == Upto(f, r, a, j)
    ensures now[j := Twisted(Transform(now[j], z), Pow(y, j))] == Upto(f, r, a, j + 1)
  {
    UptoNext(f, r, a, j);
  }

  /** One row of the first round. */
  method FftTwiddleNext(direction: int, m: nat, n: nat, pad: nat, u: array<real>, umain2: array<real>, x: array<real>,
                        ghost first: nat, j: nat, ghost w: seq<Complex>, ghost big: Complex, ghost z: Complex,
                        ghost y: Complex, ghost r: seq<seq<Complex>>, ghost f: seq<seq<Complex>>)
    requires direction == 1 || direction == -1
    requires n == Pow2(m) && first <= j < n && T.Matrix(x[..], n, n + pad)
    requires u != x && Family(w) && Table(u, m, w) && umain2 != x && RootMatrix(umain2[..], n, n + pad, big)
    requires z == Root(w, m, direction) && y == Turn(big, direction)
    requires Square(r) && |r| == n && f == TwistedRows(r, z, y) && Rows(x[..], n, n + pad) == Upto(f, r, first, j)
    modifies x
    ensures T.Matrix(x[..], n, n + pad) && Rows(x[..], n, n + pad) == Upto(f, r, first, j + 1)
  {
    TwistNext(r, f, z, y, first, j, Rows(x[..], n, n + pad));
    FftTwiddleRow(direction, m, n, pad, u, umain2, x, j, w, big, z, y);
  }

  /** The first round: the worker's rows transformed and twisted. */
  method FftTwiddleRows(direction: int, m: nat, n: nat, pad: nat, u: array<real>, umain2: array<real>, x: array<real>,
                        first: nat, last: nat, ghost w: seq<Complex>, ghost big: Complex, ghost z: Complex,
                        ghost y: Complex)
    requires direction == 1 || direction == -1
    requires n == Pow2(m) && T.Matrix(x[..], n, n + pad) && first <= last <= n
    requires u != x && Family(w) && Table(u, m, w) && umain2 != x && RootMatrix(umain2[..], n, n + pad, big)
    requires z == Root(w, m, direction) && y == Turn(big, direction)
    modifies x
    ensures T.Matrix(x[..], n, n + pad)
    ensures var r := old(Rows(x[..], n, n + pad)); Rows(x[..], n, n + pad) == Upto(TwistedRows(r, z, y), r, first, last)
  {
    ghost var r := Rows(x[..], n, n + pad);
    ghost var f := TwistedRows(r, z, y);
    var j := first;
    UptoEnds(f, r, first);
    while j < last
      invariant first <= j <= last && T.Matrix(x[..], n, n + pad)
      invariant Rows(x[..], n, n + pad) == Upto(f, r, first, j)
    {
      FftTwiddleNext(direction, m, n, pad, u, umain2, x, first, j, w, big, z, y, r, f);
      j := j + 1;
    }
  }

  method FirstSteps(direction: int, m: nat, n: nat, x: array<real>, scratch: array<real>, upriv: array<real>,
                    umain2: array<real>, node: nat, first: nat, last: nat, pad: nat, workers: nat, lines: nat,
                    ghost w: seq<Complex>, ghost big: Complex, ghost z: Complex, ghost y: Complex)
    requires direction == 1 || direction == -1
    requires n == Pow2(m) && Shared(n, node, first, last, workers, lines)
    requires x != scratch && upriv != scratch && umain2 != scratch
    requires T.Matrix(x[..], n, n + pad) && T.Matrix(scratch[..], n, n + pad)
    requires Family(w) && Table(upriv, m, w) && RootMatrix(umain2[..], n, n + pad, big)
    requires z == Root(w, m, direction) && y == Turn(big, direction)
    modifies scratch
    ensures T.Matrix(scratch[..], n, n + pad)
    ensures Rows(scratch[..], n, n + pad) ==
              old(FirstRound(Rows(x[..], n, n + pad), Rows(scratch[..], n, n + pad), z, y, first, last))
  {
    TransposeShare(n, x, scratch, node, first, last, pad, workers, lines);
    FftTwiddleRows(direction, m, n, pad, upriv, umain2, scratch, first, last, w, big, z, y);
  }

  method SecondSteps(direction: int, m: nat, n: nat, x: array<real>, scratch: array<real>, upriv: array<real>,
                     node: nat, first: nat, last: nat, pad: nat, workers: nat, lines: nat, ghost w: seq<Complex>,
                     ghost z: Complex)
    requires direction == 1 || direction == -1
    requires n == Pow2(m) && Shared(n, node, first, last, workers, lines)
    requires x != scratch && upriv != x && T.Matrix(x[..], n, n + pad) && T.Matrix(scratch[..], n, n + pad)
    requires Family(w) && Table(upriv, m, w) && z == Root(w, m, direction)
    modifies x
    ensures T.Matrix(x[..], n, n + pad)
    ensures Rows(x[..], n, n + pad) ==
              old(SecondRound(Rows(x[..], n, n + pad), Rows(scratch[..], n, n + pad), z, first, last))
  {
    TransposeShare(n, scratch, x, node, first, last, pad, workers, lines);
    FftRows(direction, m, n, n + pad, upriv, x, first, last, w, z);
  }

  /** The steps of FFT1D. */
  method Steps(direction: int, m: nat, n: nat, x: array<real>, scratch: array<real>, upriv: array<real>,
               umain2: array<real>, node: nat, first: nat, last: nat, pad: nat, workers: nat, lines: nat,
               ghost w: seq<Complex>, ghost big: Complex, ghost z: Complex, ghost y: Complex)
    requires direction == 1 || direction == -1
    requires n == Pow2(m) && Shared(n, node, first, last, workers, lines)
    requires x != scratch && upriv != x && upriv != scratch && umain2 != x && umain2 != scratch
    requires T.Matrix(x[..], n, n + pad) && T.Matrix(scratch[..], n, n + pad)
    requires Family(w) && Table(upriv, m, w) && RootMatrix(umain2[..], n, n + pad, big)
    requires z == Root(w, m, direction) && y == Turn(big, direction)
    modifies x, scratch
    ensures T.Matrix(scratch[..], n, n + pad)
    ensures Rows(scratch[..], n, n + pad) ==
              old(WorkerSteps(Rows(x[..], n, n + pad), Rows(scratch[..], n, n + pad), z, y, first, last))
  {
    FirstSteps(direction, m, n, x, scratch, upriv, umain2, node, first, last, pad, workers, lines, w, big, z, y);
    SecondSteps(direction, m, n, x, scratch, upriv, node, first, last, pad, workers, lines, w, z);
    TransposeShare(n, x, scratch, node, first, last, pad, workers, lines);
  }

  lemma FamilyPrefix(w: seq<Complex>, v: seq<Complex>)
    requires Family(w) && 0 < |v| && v <= w
    ensures Family(v)
  {
    forall q | 0 <= q < |v| - 1
      ensures RootOf(v, q)
    {
      assert RootOf(w, q);
    }
  }

  lemma TurnedAre(w: seq<Complex>, v: seq<Complex>, m: nat, direction: int)
    requires direction == 1 || direction == -1
    requires 2 * m < |w| && v <= w && |v| == m + 1
    ensures Turn(w[2 * m], direction) == Directed(w, direction == 1)[2 * m]
    ensures Root(v, m, direction) == Directed(w, direction == 1)[m]
  {
  }

  /** Row after row, the rows are the transform of the samples; row `l` begins with entry `q`. */
  ghost predicate Transforms(f: seq<seq<Complex>>, s: seq<Complex>, big: Complex) {
    Square(f) && forall l: nat, k: nat, q: nat | l < |f| && k < |f| && q == |f| * l :: EntryIs(f, s, big, l, k, q)
  }

  ghost predicate EntryIs(f: seq<seq<Complex>>, s: seq<Complex>, big: Complex, l: nat, k: nat, q: nat)
    requires Square(f) && l < |f| && k < |f|
  {
    f[l][k] == Dft(s, big, q + k)
  }

  /** With principal roots of orders n and n * n, the six steps are the transform of n * n samples. */
  lemma SixStepsTransform(r: seq<seq<Complex>>, v: seq<Complex>, m: nat)
    requires Square(r) && Family(v) && 2 * m < |v| && |r| == Pow2(m)
    ensures Transforms(SixSteps(r, v[m], v[2 * m]), Flat(r), v[2 * m])
  {
    forall l: nat, k: nat, q: nat | l < |r| && k < |r| && q == |r| * l
      ensures EntryIs(SixSteps(r, v[m], v[2 * m]), Flat(r), v[2 * m], l, k, q)
    {
      SixStepsEntry(r, v, m, l, k, q);
    }
  }

  /** A single worker does the six steps on all rows. */
  lemma AllRowsSteps(x: seq<seq<Complex>>, scratch: seq<seq<Complex>>, w: Complex, big: Complex)
    requires Square(x) && Square(scratch) && |x| == |scratch|
    ensures WorkerSteps(x, scratch, w, big, 0, |x|) == SixSteps(x, w, big)
  {
    UptoEnds(Flip(x), scratch, 0);
    var twisted := TwistedRows(Flip(x), w, big);
    UptoEnds(twisted, Flip(x), 0);
    UptoEnds(Flip(twisted), x, 0);
    var done := TransformedRows(Flip(twisted), w);
    UptoEnds(done, Flip(twisted), 0);
    UptoEnds(Flip(done), twisted, 0);
  }

  /** FFT1D by worker `node`: what its `scratch` holds at the end; and if it is the only worker, row `l` of `scratch` is
      entries n l to n l + n - 1 of the transform of the samples in the rows of `x`. */
  method Fft1D(direction: int, logCount: nat, x: array<real>, scratch: array<real>, upriv: array<real>,
               umain2: array<real>, node: nat, first: nat, last: nat, pad: nat, workers: nat, lines: nat,
               ghost m: nat, ghost w: seq<Complex>, ghost v: seq<Complex>)
    requires direction == 1 || direction == -1
    requires var n := Pow2(m);
             && Shared(n, node, first, last, workers, lines)
             && T.Matrix(x[..], n, n + pad) && T.Matrix(scratch[..], n, n + pad)
    requires x != scratch && upriv != x && upriv != scratch && umain2 != x && umain2 != scratch
    requires m == logCount / 2 && Family(w) && 2 * m < |w| && v == w[..m + 1] && Table(upriv, m, v)
    requires RootMatrix(umain2[..], Pow2(m), Pow2(m) + pad, w[2 * m])
    modifies x, scratch
    ensures var n := Pow2(m); T.Matrix(scratch[..], n, n + pad)
    ensures var n := Pow2(m);
            Rows(scratch[..], n, n + pad) ==
              old(WorkerSteps(Rows(x[..], n, n + pad), Rows(scratch[..], n, n + pad), Root(v, m, direction),
                              Turn(w[2 * m], direction), first, last))
    ensures var n := Pow2(m);
            workers == 1 ==>
              Transforms(Rows(scratch[..], n, n + pad), old(Flat(Rows(x[..], n, n + pad))),
                         if direction == 1 then w[2 * m] else Complex(w[2 * m].re, -w[2 * m].im))
  {
    var m1 := logCount / 2;
    var n := Pow2(m1);
    ghost var r, s := Rows(x[..], n, n + pad), Rows(scratch[..], n, n + pad);
    FamilyPrefix(w, v);
    Steps(direction, m1, n, x, scratch, upriv, umain2, node, first, last, pad, workers, lines, v, w[2 * m],
          Root(v, m, direction), Turn(w[2 * m], direction));
    if workers == 1 {
      OnlyWorker(r, s, w, v, m, direction, node, first, last, lines);
    }
  }

  lemma WholeShare(n: nat, node: nat, first: nat, last: nat, lines: nat)
    requires Shared(n, node, first, last, 1, lines)
    ensures first == 0 && last == n
  {
    assert EqualShares(n, node, first, last, 1, lines, n / 1);
  }

  lemma OnlyWorker(r: seq<seq<Complex>>, s: seq<seq<Complex>>, w: seq<Complex>, v: seq<Complex>, m: nat, direction: int,
                   node: nat, first: nat, last: nat, lines: nat)
    requires direction == 1 || direction == -1
    requires Square(r) && Square(s) && |r| == Pow2(m) == |s| && Shared(|r|, node, first, last, 1, lines)
    requires Family(w) && 2 * m < |w| && v <= w && |v| == m + 1
    ensures var big := Turn(w[2 * m], direction);
            Transforms(WorkerSteps(r, s, Root(v, m, direction), big, first, last), Flat(r), big)
  {
    WholeShare(|r|, node, first, last, lines);
    AllRowsSteps(r, s, Root(v, m, direction), Turn(w[2 * m], direction));
    TurnedAre(w, v, m, direction);
    DirectedRoots(w, direction == 1);
    SixStepsTransform(r, Directed(w, direction == 1), m);
  }
}
