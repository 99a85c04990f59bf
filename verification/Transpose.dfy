/** `matrix_transpose` of `src/apps.c`: each of several workers copies its rows of the transposed matrix, block by
    block, from padded rows of interleaved real and imaginary parts. */
module Transpose {
  import opened Arithmetic
  import opened Fourier

  /** Where number `v` of row `h` begins when rows are `p` numbers apart. */
  function Index(p: nat, h: nat, v: nat): nat {
    2 * (h * p + v)
  }

  lemma IndexIn(n: nat, p: nat, h: nat, v: nat)
    requires h < n && v < p
    ensures Index(p, h, v) + 1 < 2 * (n * p)
  {
    MulLess(h, n, p);
  }

  lemma IndexDistinct(p: nat, h: nat, v: nat, x: nat, y: nat)
    requires v < p && y < p && (h, v) != (x, y)
    ensures Index(p, h, v) != Index(p, x, y)
  {
    if h < x {
      MulLess(h, x, p);
    } else if x < h {
      MulLess(x, h, p);
    }
  }

  /** A square matrix of `n` rows of `p` numbers. */
  ghost predicate Matrix(a: seq<real>, n: nat, p: nat) {
    n <= p && |a| == 2 * (n * p)
  }

  ghost function Cell(a: seq<real>, n: nat, p: nat, h: nat, v: nat): Complex
    requires Matrix(a, n, p) && h < n && v < p
  {
    IndexIn(n, p, h, v);
    Complex(a[Index(p, h, v)], a[Index(p, h, v) + 1])
  }

  /** `now` is `was` but for the cells of `done`, which are those of `src` transposed. */
  ghost predicate Copied(now: seq<real>, src: seq<real>, was: seq<real>, n: nat, p: nat, done: set<(nat, nat)>) {
    && Matrix(now, n, p) && Matrix(src, n, p) && Matrix(was, n, p)
    && (forall c | c in done :: c.0 < n && c.1 < n)
    && forall h: nat, v: nat | h < n && v < p ::
         Cell(now, n, p, h, v) == if (h, v) in done then Cell(src, n, p, v, h) else Cell(was, n, p, h, v)
  }

  ghost function Rect(h0: nat, h1: nat, v0: nat, v1: nat): set<(nat, nat)> {
    set h: nat, v: nat | h0 <= h < h1 && v0 <= v < v1 :: (h, v)
  }

  /** A write of one number leaves the others alone. */
  lemma OtherCell(s: seq<real>, n: nat, p: nat, h: nat, v: nat, re: real, im: real, x: nat, y: nat)
    requires Matrix(s, n, p) && h < n && v < p && x < n && y < p
    ensures Index(p, h, v) + 1 < |s|
    ensures var i := Index(p, h, v);
            Cell(s[i := re][i + 1 := im], n, p, x, y) == if (x, y) == (h, v) then Complex(re, im) else Cell(s, n, p, x, y)
  {
    IndexIn(n, p, h, v);
    IndexIn(n, p, x, y);
    if (x, y) != (h, v) {
      IndexDistinct(p, h, v, x, y);
    }
  }

  lemma Wrote(s: seq<real>, src: seq<real>, was: seq<real>, n: nat, p: nat, h: nat, v: nat, done: set<(nat, nat)>)
    requires h < n && v < n && Copied(s, src, was, n, p, done)
    ensures Index(p, h, v) + 1 < |s|
    ensures var i, c := Index(p, h, v), Cell(src, n, p, v, h);
            Copied(s[i := c.re][i + 1 := c.im], src, was, n, p, done + {(h, v)})
  {
    var c := Cell(src, n, p, v, h);
    IndexIn(n, p, h, v);
    forall x: nat, y: nat | x < n && y < p
      ensures Cell(s[Index(p, h, v) := c.re][Index(p, h, v) + 1 := c.im], n, p, x, y) ==
                if (x, y) in done + {(h, v)} then Cell(src, n, p, y, x) else Cell(was, n, p, x, y)
    {
      OtherCell(s, n, p, h, v, c.re, c.im, x, y);
    }
  }

  /** One complex number. */
  method CopyCell(dest: array<real>, src: array<real>, n: nat, p: nat, h: nat, v: nat,
                  ghost was: seq<real>, ghost done: set<(nat, nat)>)
    requires dest != src && h < n && v < n && Copied(dest[..], src[..], was, n, p, done)
    modifies dest
    ensures Copied(dest[..], src[..], was, n, p, done + {(h, v)})
  {
    IndexIn(n, p, h, v);
    IndexIn(n, p, v, h);
    ghost var s := dest[..];
    Wrote(s, src[..], was, n, p, h, v, done);
    dest[2 * (h * p + v)] := src[2 * (v * p + h)];
    dest[2 * (h * p + v) + 1] := src[2 * (v * p + h) + 1];
    assert dest[..] == s[Index(p, h, v) := src[Index(p, v, h)]][Index(p, h, v) + 1 := src[Index(p, v, h) + 1]];
  }

  // ---------------------------------------------------------------- blocks

  lemma RectJoinsDown(h0: nat, h1: nat, h2: nat, v0: nat, v1: nat)
    requires h0 <= h1 <= h2
    ensures Rect(h0, h2, v0, v1) == Rect(h0, h1, v0, v1) + Rect(h1, h2, v0, v1)
  {
  }

  lemma RectJoinsRight(h0: nat, h1: nat, v0: nat, v1: nat, v2: nat)
    requires v0 <= v1 <= v2
    ensures Rect(h0, h1, v0, v2) == Rect(h0, h1, v0, v1) + Rect(h0, h1, v1, v2)
  {
  }

  lemma RectNone(h0: nat, h1: nat, v0: nat, v1: nat)
    requires h1 <= h0 || v1 <= v0
    ensures Rect(h0, h1, v0, v1) == {}
  {
  }

  /** One column of a block: cells (h0 .. h0 + size, v). */
  method CopyColumn(dest: array<real>, src: array<real>, n: nat, p: nat, h0: nat, v: nat, size: nat,
                    ghost was: seq<real>, ghost done: set<(nat, nat)>)
    requires dest != src && h0 + size <= n && v < n && Copied(dest[..], src[..], was, n, p, done)
    modifies dest
    ensures Copied(dest[..], src[..], was, n, p, done + Rect(h0, h0 + size, v, v + 1))
  {
    var j := 0;
    ghost var d := done;
    RectNone(h0, h0, v, v + 1);
    while j < size
      invariant j <= size && d == done + Rect(h0, h0 + j, v, v + 1) && Copied(dest[..], src[..], was, n, p, d)
    {
      CopyCell(dest, src, n, p, h0 + j, v, was, d);
      RectJoinsDown(h0, h0 + j, h0 + j + 1, v, v + 1);
      d := d + {(h0 + j, v)};
      j := j + 1;
    }
  }

  method CopyBlock(dest: array<real>, src: array<real>, n: nat, p: nat, h0: nat, v0: nat, size: nat,
                   ghost was: seq<real>, ghost done: set<(nat, nat)>)
    requires dest != src && h0 + size <= n && v0 + size <= n && Copied(dest[..], src[..], was, n, p, done)
    modifies dest
    ensures Copied(dest[..], src[..], was, n, p, done + Rect(h0, h0 + size, v0, v0 + size))
  {
    var i := 0;
    ghost var d := done;
    RectNone(h0, h0 + size, v0, v0);
    while i < size
      invariant i <= size && d == done + Rect(h0, h0 + size, v0, v0 + i) && Copied(dest[..], src[..], was, n, p, d)
    {
      CopyColumn(dest, src, n, p, h0, v0 + i, size, was, d);
      RectJoinsRight(h0, h0 + size, v0, v0 + i, v0 + i + 1);
      d := d + Rect(h0, h0 + size, v0 + i, v0 + i + 1);
      i := i + 1;
    }
  }

  /** `k` times `size`, one at a time. */
  function Reps(k: nat, size: nat): nat {
    if k == 0 then 0 else Reps(k - 1, size) + size
  }

  lemma {:induction false} RepsIs(k: nat, size: nat)
    ensures Reps(k, size) == k * size
  {
    if k > 0 {
      RepsIs(k - 1, size);
      assert (k - 1) * size + size == k * size;
    }
  }

  lemma {:induction false} RepsGrow(k: nat, num: nat, size: nat)
    requires k <= num
    ensures Reps(k, size) <= Reps(num, size)
  {
    if k < num {
      RepsGrow(k, num - 1, size);
    }
  }

  /** Blocks side by side down the worker's rows, all in the same columns. */
  method CopyBlockRow(dest: array<real>, src: array<real>, n: nat, p: nat, first: nat, v0: nat, size: nat, num: nat,
                      ghost last: nat, ghost was: seq<real>, ghost done: set<(nat, nat)>)
    requires dest != src && last == first + Reps(num, size) <= n && v0 + size <= n
    requires Copied(dest[..], src[..], was, n, p, done)
    modifies dest
    ensures Copied(dest[..], src[..], was, n, p, done + Rect(first, last, v0, v0 + size))
  {
    var hOff, m := first, 0;
    ghost var d := done;
    while m < num
      invariant m <= num && hOff == first + Reps(m, size)
      invariant d == done + Rect(first, hOff, v0, v0 + size) && Copied(dest[..], src[..], was, n, p, d)
    {
      RepsGrow(m + 1, num, size);
      CopyBlock(dest, src, n, p, hOff, v0, size, was, d);
      d := d + Rect(hOff, hOff + size, v0, v0 + size);
      hOff := hOff + size;
      m := m + 1;
    }
  }

  /** All the blocks for the columns of one worker, `num` by `num` of them. */
  method CopyStrip(dest: array<real>, src: array<real>, n: nat, p: nat, first: nat, v0: nat, size: nat, num: nat,
                   ghost last: nat, ghost end: nat, ghost was: seq<real>, ghost done: set<(nat, nat)>)
    requires dest != src && last == first + Reps(num, size) <= n && end == v0 + Reps(num, size) <= n
    requires Copied(dest[..], src[..], was, n, p, done)
    modifies dest
    ensures Copied(dest[..], src[..], was, n, p, done + Rect(first, last, v0, end))
  {
    var vOff, k := v0, 0;
    ghost var d := done;
    while k < num
      invariant k <= num && vOff == v0 + Reps(k, size)
      invariant d == done + Rect(first, last, v0, vOff) && Copied(dest[..], src[..], was, n, p, d)
    {
      RepsGrow(k + 1, num, size);
      CopyBlockRow(dest, src, n, p, first, vOff, size, num, last, was, d);
      d := d + Rect(first, last, vOff, vOff + size);
      vOff := vOff + size;
      k := k + 1;
    }
  }

  lemma Step(m: nat, num: nat, size: nat)
    requires m < num
    ensures (m + 1) * size == m * size + size <= num * size
  {
    if size > 0 {
      MulLess(m, num, size);
    }
  }

  // ---------------------------------------------------------------- one worker

  /** The columns of the workers from `a` to `b` (exclusive), as far as the blocks reach into each. */
  ghost function Strips(first: nat, last: nat, rows: nat, width: nat, a: nat, b: nat): set<(nat, nat)>
    decreases b - a
  {
    if a >= b then {} else Strips(first, last, rows, width, a, b - 1) + Rect(first, last, (b - 1) * rows, (b - 1) * rows + width)
  }

  lemma {:induction false} StripsJoin(first: nat, last: nat, rows: nat, width: nat, a: nat, b: nat, c: nat)
    requires a <= b <= c
    ensures Strips(first, last, rows, width, a, c) ==
              Strips(first, last, rows, width, a, b) + Strips(first, last, rows, width, b, c)
    decreases c - b
  {
    if b < c {
      StripsJoin(first, last, rows, width, a, b, c - 1);
    }
  }

  /** How many blocks, and how long a side: enough that two of them fill the cache lines given. */
  function Blocks(rows: nat, lines: nat): (num: nat)
    requires lines > 0
  {
    2 * rows / lines + if 2 * rows / lines * lines != 2 * rows then 1 else 0
  }

  /** The least number of blocks of `lines` words that hold two words for each of the rows. */
  lemma BlocksLeast(rows: nat, lines: nat)
    requires lines > 0
    ensures Blocks(rows, lines) * lines >= 2 * rows
    ensures forall k: nat | k < Blocks(rows, lines) :: k * lines < 2 * rows
  {
    var q, r := 2 * rows / lines, 2 * rows % lines;
    assert 2 * rows == q * lines + r;
    assert (q + 1) * lines == q * lines + lines;
    forall k: nat | k < Blocks(rows, lines)
      ensures k * lines < 2 * rows
    {
      if r == 0 {
        MulLess(k, q, lines);
      } else if k < q {
        MulLess(k, q, lines);
      }
    }
  }

  lemma OneStrip(first: nat, last: nat, rows: nat, width: nat, l: nat, vOff: nat)
    requires vOff == l * rows
    ensures Strips(first, last, rows, width, l, l + 1) == Rect(first, last, vOff, vOff + width)
  {
    assert Strips(first, last, rows, width, l, l) == {};
  }

  /** The columns of worker `l`. */
  method CopyWorkerColumns(dest: array<real>, src: array<real>, n: nat, p: nat, first: nat, rows: nat, size: nat,
                           num: nat, l: nat, ghost last: nat, ghost width: nat, ghost was: seq<real>,
                           ghost done: set<(nat, nat)>)
    requires dest != src && width == Reps(num, size) <= rows && last == first + width <= n && (l + 1) * rows <= n
    requires Copied(dest[..], src[..], was, n, p, done)
    modifies dest
    ensures Copied(dest[..], src[..], was, n, p, done + Strips(first, last, rows, width, l, l + 1))
  {
    var vOff := l * rows;
    assert vOff + rows == (l + 1) * rows;
    OneStrip(first, last, rows, width, l, vOff);
    ghost var end := vOff + width;
    CopyStrip(dest, src, n, p, first, vOff, size, num, last, end, was, done);
  }

  lemma OneStripMore(first: nat, last: nat, rows: nat, width: nat, from: nat, l: nat, done: set<(nat, nat)>)
    requires from <= l
    ensures done + Strips(first, last, rows, width, from, l) + Strips(first, last, rows, width, l, l + 1) ==
              done + Strips(first, last, rows, width, from, l + 1)
  {
    StripsJoin(first, last, rows, width, from, l, l + 1);
  }

  method CopyStrips(dest: array<real>, src: array<real>, n: nat, p: nat, first: nat, rows: nat, size: nat, num: nat,
                    from: nat, to: nat, ghost last: nat, ghost width: nat, ghost was: seq<real>,
                    ghost done: set<(nat, nat)>)
    requires dest != src && width == Reps(num, size) <= rows && last == first + width <= n
    requires from <= to && to * rows <= n
    requires Copied(dest[..], src[..], was, n, p, done)
    modifies dest
    ensures Copied(dest[..], src[..], was, n, p, done + Strips(first, last, rows, width, from, to))
  {
    var l := from;
    ghost var d := done;
    assert d == done + Strips(first, last, rows, width, from, from);
    while l < to
      invariant from <= l <= to && d == done + Strips(first, last, rows, width, from, l)
      invariant Copied(dest[..], src[..], was, n, p, d)
    {
      Step(l, to, rows);
      CopyWorkerColumns(dest, src, n, p, first, rows, size, num, l, last, width, was, d);
      OneStripMore(first, last, rows, width, from, l, done);
      d := d + Strips(first, last, rows, width, l, l + 1);
      l := l + 1;
    }
  }

  /** What one worker copies: with `num` blocks a side of rows / num, `num` times that many rows and columns of
      every worker's part. */
  ghost function Share(node: nat, workers: nat, rows: nat, num: nat): set<(nat, nat)>
    requires num > 0
  {
    var width := num * (rows / num);
    Strips(node * rows, node * rows + width, rows, width, 0, workers)
  }

  lemma WidthIn(rows: nat, num: nat)
    requires num > 0
    ensures num * (rows / num) <= rows
    ensures num * (rows / num) == rows <==> rows % num == 0
  {
    assert rows == (rows / num) * num + rows % num;
  }

  lemma SomeBlocks(rows: nat, lines: nat)
    requires rows > 0 && lines > 0
    ensures Blocks(rows, lines) > 0
  {
    if 2 * rows / lines <= 0 {
      assert 2 * rows / lines * lines <= 0;
    }
  }

  /** matrix_transpose by worker `node`, whose rows are `first` to `last`. */
  method MatrixTranspose(n: nat, src: array<real>, dest: array<real>, node: nat, first: nat, last: nat, pad: nat,
                         workers: nat, lines: nat)
    requires lines > 0 && node < workers && dest != src
    requires var rows := n / workers; rows > 0 && first == node * rows && last == first + rows
    requires Matrix(src[..], n, n + pad) && Matrix(dest[..], n, n + pad)
    modifies dest
    ensures var rows := n / workers;
            && Blocks(rows, lines) > 0
            && Copied(dest[..], src[..], old(dest[..]), n, n + pad, Share(node, workers, rows, Blocks(rows, lines)))
  {
    ghost var was := dest[..];
    var rows := n / workers;
    var size := last - first;
    SomeBlocks(size, lines);
    var num := 2 * size / lines;
    if num * lines != 2 * size {
      num := num + 1;
    }
    WidthIn(rows, num);
    AllRows(n, workers, node);
    size := size / num;
    RepsIs(num, size);
    CopyShare(dest, src, n, n + pad, first, rows, size, num, node, workers, first + num * size, num * size, was);
  }

  /** First the columns of the workers after this one, then of those before, then its own. */
  method CopyShare(dest: array<real>, src: array<real>, n: nat, p: nat, first: nat, rows: nat, size: nat, num: nat,
                   node: nat, workers: nat, ghost end: nat, ghost width: nat, ghost was: seq<real>)
    requires dest != src && width == Reps(num, size) <= rows && end == first + width <= n
    requires node < workers && workers * rows <= n && node * rows <= n && (node + 1) * rows <= n
    requires Copied(dest[..], src[..], was, n, p, {})
    modifies dest
    ensures Copied(dest[..], src[..], was, n, p, Strips(first, end, rows, width, 0, workers))
  {
    ghost var a, b := Strips(first, end, rows, width, node + 1, workers), Strips(first, end, rows, width, 0, node);
    ghost var c := Strips(first, end, rows, width, node, node + 1);
    ThreeParts(first, end, rows, width, node, workers);
    CopyStrips(dest, src, n, p, first, rows, size, num, node + 1, workers, end, width, was, {});
    CopyStrips(dest, src, n, p, first, rows, size, num, 0, node, end, width, was, {} + a);
    CopyStrips(dest, src, n, p, first, rows, size, num, node, node + 1, end, width, was, {} + a + b);
  }

  lemma ThreeParts(first: nat, end: nat, rows: nat, width: nat, node: nat, workers: nat)
    requires node < workers
    ensures {} + Strips(first, end, rows, width, node + 1, workers) + Strips(first, end, rows, width, 0, node)
              + Strips(first, end, rows, width, node, node + 1) == Strips(first, end, rows, width, 0, workers)
  {
    StripsJoin(first, end, rows, width, 0, node, node + 1);
    StripsJoin(first, end, rows, width, 0, node + 1, workers);
  }

  lemma AllRows(n: nat, workers: nat, node: nat)
    requires node < workers
    ensures node * (n / workers) + n / workers <= n && workers * (n / workers) <= n
    ensures node * (n / workers) <= n && (node + 1) * (n / workers) <= n
  {
    Step(node, workers, n / workers);
    assert n == (n / workers) * workers + n % workers;
  }

  // ---------------------------------------------------------------- all workers

  lemma {:induction false} StripsHave(first: nat, last: nat, rows: nat, width: nat, b: nat, h: nat, v: nat)
    requires width <= rows
    ensures (h, v) in Strips(first, last, rows, width, 0, b) <==>
              first <= h < last && exists l: nat :: l < b && Column(rows, width, l, v)
  {
    if b > 0 {
      StripsHave(first, last, rows, width, b - 1, h, v);
      assert Column(rows, width, b - 1, v) <==> (b - 1) * rows <= v < (b - 1) * rows + width;
    }
  }

  /** Column `v` is one that the blocks of strip `l` reach. */
  ghost predicate Column(rows: nat, width: nat, l: nat, v: nat) {
    l * rows <= v < l * rows + width
  }

  lemma FullStrips(first: nat, rows: nat, workers: nat, n: nat)
    requires rows > 0 && n == workers * rows
    ensures Strips(first, first + rows, rows, rows, 0, workers) == Rect(first, first + rows, 0, n)
  {
    var strips, rect := Strips(first, first + rows, rows, rows, 0, workers), Rect(first, first + rows, 0, n);
    forall c | c in strips
      ensures c in rect
    {
      StripsHave(first, first + rows, rows, rows, workers, c.0, c.1);
      InSomeStrip(rows, workers, c.1);
    }
    forall c | c in rect
      ensures c in strips
    {
      StripsHave(first, first + rows, rows, rows, workers, c.0, c.1);
      InSomeStrip(rows, workers, c.1);
    }
  }

  lemma ShortStrips(first: nat, rows: nat, width: nat, workers: nat, n: nat)
    requires width < rows && workers > 0 && n > 0
    ensures Strips(first, first + width, rows, width, 0, workers) != Rect(first, first + rows, 0, n)
  {
    StripsHave(first, first + width, rows, width, workers, first + width, 0);
    assert (first + width, 0) in Rect(first, first + rows, 0, n);
  }

  /** A worker copies all its rows if and only if the number of blocks divides the number of its rows. */
  lemma ShareComplete(node: nat, workers: nat, rows: nat, num: nat)
    requires num > 0 && rows > 0 && workers > 0
    ensures Share(node, workers, rows, num) == Rect(node * rows, node * rows + rows, 0, workers * rows) <==> rows % num == 0
  {
    var width, first, n := num * (rows / num), node * rows, workers * rows;
    WidthIn(rows, num);
    MulLess(0, workers, rows);
    if width == rows {
      FullStrips(first, rows, workers, n);
    } else {
      ShortStrips(first, rows, width, workers, n);
    }
  }

  lemma InSomeStrip(rows: nat, workers: nat, v: nat)
    requires rows > 0
    ensures v < workers * rows <==> exists l: nat :: l < workers && Column(rows, rows, l, v)
  {
    var q := v / rows;
    assert v == q * rows + v % rows;
    if v < workers * rows {
      if workers <= q {
        Multiple(workers, q, rows);
      }
      if q < 0 {
        MulLess(q, 0, rows);
      }
      assert Column(rows, rows, q, v);
    } else {
      forall l: nat | l < workers
        ensures !Column(rows, rows, l, v)
      {
        MulLess(l, workers, rows);
      }
    }
  }

  lemma Multiple(a: nat, b: nat, c: nat)
    requires a <= b
    ensures a * c <= b * c
  {
    assert (b - a) * c >= 0;
  }

  lemma StripsApart(a0: nat, a1: nat, b0: nat, b1: nat, rows: nat, width: nat, workers: nat)
    requires width <= rows && (a1 <= b0 || b1 <= a0)
    ensures Strips(a0, a1, rows, width, 0, workers) !! Strips(b0, b1, rows, width, 0, workers)
  {
    forall c | c in Strips(a0, a1, rows, width, 0, workers)
      ensures c !in Strips(b0, b1, rows, width, 0, workers)
    {
      StripsHave(a0, a1, rows, width, workers, c.0, c.1);
      StripsHave(b0, b1, rows, width, workers, c.0, c.1);
    }
  }

  /** Different workers write different cells. */
  lemma SharesDisjoint(a: nat, b: nat, workers: nat, rows: nat, num: nat)
    requires num > 0 && a < b
    ensures Share(a, workers, rows, num) !! Share(b, workers, rows, num)
  {
    var width, x, y := num * (rows / num), a * rows, b * rows;
    Step(a, b, rows);
    StripsApart(x, x + width, y, y + width, rows, width, workers);
  }

  // ---------------------------------------------------------------- any interleaving

  ghost function WithCell(s: seq<real>, src: seq<real>, n: nat, p: nat, c: (nat, nat)): (t: seq<real>)
    requires Matrix(s, n, p) && Matrix(src, n, p) && c.0 < n && c.1 < n
    ensures |t| == |s|
  {
    IndexIn(n, p, c.0, c.1);
    var x := Cell(src, n, p, c.1, c.0);
    s[Index(p, c.0, c.1) := x.re][Index(p, c.0, c.1) + 1 := x.im]
  }

  /** The cells of `src` transposed, written one after the other in the order given. */
  ghost function Written(was: seq<real>, src: seq<real>, n: nat, p: nat, cells: seq<(nat, nat)>): (now: seq<real>)
    requires Matrix(was, n, p) && Matrix(src, n, p) && forall c | c in cells :: c.0 < n && c.1 < n
    ensures |now| == |was|
  {
    if cells == [] then was
    else
      WithCell(Written(was, src, n, p, cells[..|cells| - 1]), src, n, p, cells[|cells| - 1])
  }

  /** Whatever the order in which the workers' writes come, the result depends only on which cells are written. */
  lemma {:induction false} AnyOrder(was: seq<real>, src: seq<real>, n: nat, p: nat, cells: seq<(nat, nat)>)
    requires Matrix(was, n, p) && Matrix(src, n, p) && forall c | c in cells :: c.0 < n && c.1 < n
    ensures Copied(Written(was, src, n, p, cells), src, was, n, p, set c | c in cells)
  {
    if cells != [] {
      var rest, c := cells[..|cells| - 1], cells[|cells| - 1];
      AnyOrder(was, src, n, p, rest);
      var s, done := Written(was, src, n, p, rest), set x | x in rest;
      Wrote(s, src, was, n, p, c.0, c.1, done);
      assert (c.0, c.1) == c;
      assert (set x | x in cells) == done + {c};
      assert Written(was, src, n, p, cells) == WithCell(s, src, n, p, c);
    }
  }

  /** All the workers' writes, in any order, make the exact transpose and leave the padding alone. */
  lemma WorkersTranspose(was: seq<real>, src: seq<real>, n: nat, p: nat, workers: nat, rows: nat, num: nat,
                         cells: seq<(nat, nat)>)
    requires Matrix(was, n, p) && Matrix(src, n, p) && workers > 0 && rows > 0 && n == workers * rows
    requires num > 0 && rows % num == 0
    requires forall c :: c in cells <==> exists w: nat :: w < workers && c in Share(w, workers, rows, num)
    ensures forall c | c in cells :: c.0 < n && c.1 < n
    ensures var now := Written(was, src, n, p, cells);
            forall h: nat, v: nat | h < n && v < p ::
              Cell(now, n, p, h, v) == if v < n then Cell(src, n, p, v, h) else Cell(was, n, p, h, v)
  {
    forall h: nat, v: nat
      ensures (h, v) in cells <==> h < n && v < n
    {
      AllCells(workers, rows, num, h, v);
    }
    AnyOrder(was, src, n, p, cells);
  }

  lemma AllCells(workers: nat, rows: nat, num: nat, h: nat, v: nat)
    requires workers > 0 && rows > 0 && num > 0 && rows % num == 0
    ensures (exists w: nat :: w < workers && (h, v) in Share(w, workers, rows, num)) <==>
              h < workers * rows && v < workers * rows
  {
    forall w: nat | w < workers
      ensures (h, v) in Share(w, workers, rows, num) <==> Column(rows, rows, w, h) && v < workers * rows
    {
      ShareComplete(w, workers, rows, num);
    }
    InSomeStrip(rows, workers, h);
  }
}
