/** The mesh of `src/noc_functions.c`: Manhattan distance through a core numbering, and counting the cores of a region
    by walking the rows of a diamond clipped to the grid. */
module Mesh {
  import opened Arithmetic

  /** Column and row of a place on the grid. */
  type Cell = (int, int)

  function Abs(n: int): nat {
    if n < 0 then -n else n
  }

  /** `toGrid` numbers the grid places of the cores, `toCore` is its inverse. */
  ghost predicate Numbering(width: nat, height: nat, toGrid: seq<nat>, toCore: seq<nat>) {
    && width > 0 && |toGrid| == width * height == |toCore|
    && (forall c | 0 <= c < |toGrid| :: toGrid[c] < |toCore| && toCore[toGrid[c]] == c)
    && (forall p | 0 <= p < |toCore| :: toCore[p] < |toGrid| && toGrid[toCore[p]] == p)
  }

  function CellOf(width: nat, p: nat): Cell
    requires width > 0
  {
    (p % width, p / width)
  }

  function CellDistance(a: Cell, b: Cell): nat {
    Abs(a.0 - b.0) + Abs(a.1 - b.1)
  }

  function Distance(width: nat, toGrid: seq<nat>, a: nat, b: nat): nat
    requires width > 0 && a < |toGrid| && b < |toGrid|
  {
    CellDistance(CellOf(width, toGrid[a]), CellOf(width, toGrid[b]))
  }

  lemma DistanceIsMetric(width: nat, toGrid: seq<nat>, a: nat, b: nat, c: nat)
    requires width > 0 && a < |toGrid| && b < |toGrid| && c < |toGrid|
    ensures Distance(width, toGrid, a, b) == Distance(width, toGrid, b, a)
    ensures Distance(width, toGrid, a, c) <= Distance(width, toGrid, a, b) + Distance(width, toGrid, b, c)
  {
  }

  // ---------------------------------------------------------------- rows of the diamond

  ghost function Interval(lo: int, hi: int, row: int): set<Cell>
    requires lo <= hi
    decreases hi - lo
  {
    if lo == hi then {} else {(hi - 1, row)} + Interval(lo, hi - 1, row)
  }

  lemma {:induction false} IntervalHas(lo: int, hi: int, row: int, c: Cell)
    requires lo <= hi
    ensures c in Interval(lo, hi, row) <==> c.1 == row && lo <= c.0 < hi
    decreases hi - lo
  {
    if lo < hi {
      IntervalHas(lo, hi - 1, row, c);
    }
  }

  lemma {:induction false} IntervalSize(lo: int, hi: int, row: int)
    requires lo <= hi
    ensures |Interval(lo, hi, row)| == hi - lo
    decreases hi - lo
  {
    if lo < hi {
      IntervalSize(lo, hi - 1, row);
      IntervalHas(lo, hi - 1, row, (hi - 1, row));
    }
  }

  /** The cells of rows `from` to `to` (exclusive) at distance at most `r` from column `x`, row `y`. */
  ghost function Diamond(width: nat, x: int, y: int, r: int, from: int, to: int): set<Cell> {
    set i, j | 0 <= i < width && from <= j < to && Abs(i - x) + Abs(j - y) <= r :: (i, j)
  }

  /** What one row adds to the count. */
  function RowCount(width: nat, x: nat, l: nat): nat
    requires x < width
  {
    1 + (if x + l < width then l else width - x - 1) + (if x >= l then l else x)
  }

  lemma RowIsInterval(width: nat, x: nat, y: int, r: int, row: int)
    requires x < width && Abs(row - y) <= r
    ensures |Diamond(width, x, y, r, row, row + 1)| == RowCount(width, x, r - Abs(row - y))
  {
    var l := r - Abs(row - y);
    var lo, hi := if x >= l then x - l else 0, if x + l < width then x + l + 1 else width;
    var d, s := Diamond(width, x, y, r, row, row + 1), Interval(lo, hi, row);
    forall c: Cell
      ensures c in d <==> c in s
    {
      IntervalHas(lo, hi, row, c);
    }
    assert d == s;
    IntervalSize(lo, hi, row);
  }

  lemma JoinRows(width: nat, x: int, y: int, r: int, from: int, mid: int, to: int)
    requires from <= mid <= to
    ensures |Diamond(width, x, y, r, from, to)| == |Diamond(width, x, y, r, from, mid)| + |Diamond(width, x, y, r, mid, to)|
  {
    var a, b := Diamond(width, x, y, r, from, mid), Diamond(width, x, y, r, mid, to);
    assert Diamond(width, x, y, r, from, to) == a + b;
    assert a !! b;
  }

  lemma RowInGrid(width: nat, height: nat, p: nat)
    requires width > 0 && p < width * height
    ensures 0 <= p / width < height && 0 <= p % width < width
  {
    var d := p / width;
    assert p == d * width + p % width;
    if height <= d {
      if height < d {
        MulLess(height, d, width);
      }
    } else if d < 0 {
      MulLess(d, 0, width);
    }
  }

  // ---------------------------------------------------------------- cores and cells

  /** The cores at most `r` hops from `centre`. */
  ghost function Region(width: nat, toGrid: seq<nat>, centre: nat, r: int): set<nat>
    requires width > 0 && centre < |toGrid|
  {
    set c: nat | c < |toGrid| && Distance(width, toGrid, centre, c) <= r
  }

  /** Distinct images are as many as their arguments. */
  lemma {:induction false} ImageSize(s: set<nat>, t: set<Cell>, f: nat -> Cell)
    requires forall a, b | a in s && b in s && f(a) == f(b) :: a == b
    requires t == set a | a in s :: f(a)
    ensures |t| == |s|
  {
    if s != {} {
      var a :| a in s;
      var s', t' := s - {a}, t - {f(a)};
      assert t' == set b | b in s' :: f(b);
      ImageSize(s', t', f);
    }
  }

  lemma SameCell(width: nat, p: nat, q: nat)
    requires width > 0 && CellOf(width, p) == CellOf(width, q)
    ensures p == q
  {
    assert p == (p / width) * width + p % width;
    assert q == (q / width) * width + q % width;
  }

  /** The place of a cell on the grid. */
  lemma PlaceOf(width: nat, height: nat, i: nat, j: nat)
    requires i < width && j < height
    ensures j * width + i < width * height && CellOf(width, j * width + i) == (i, j)
  {
    DivMod(j * width + i, j, i, width);
    MulLess(j, height, width);
  }

  /** The count is the number of cores in the region, for every numbering, centre and radius. */
  lemma RegionIsDiamond(width: nat, height: nat, toGrid: seq<nat>, toCore: seq<nat>, centre: nat, r: int)
    requires Numbering(width, height, toGrid, toCore) && centre < |toGrid|
    ensures var c := CellOf(width, toGrid[centre]);
            |Region(width, toGrid, centre, r)| == |Diamond(width, c.0, c.1, r, 0, height)|
  {
    var c := CellOf(width, toGrid[centre]);
    var s, t := Region(width, toGrid, centre, r), Diamond(width, c.0, c.1, r, 0, height);
    var f := (n: nat) => if n < |toGrid| then CellOf(width, toGrid[n]) else (0, 0);
    forall a, b | a in s && b in s && f(a) == f(b)
      ensures a == b
    {
      SameCell(width, toGrid[a], toGrid[b]);
    }
    forall a | a in s
      ensures f(a) in t
    {
      RowInGrid(width, height, toGrid[a]);
    }
    forall d | d in t
      ensures exists a :: a in s && f(a) == d
    {
      PlaceOf(width, height, d.0, d.1);
      var a := toCore[d.1 * width + d.0];
      assert f(a) == d && a in s;
    }
    assert t == set a | a in s :: f(a);
    ImageSize(s, t, f);
  }

  /** The count: rows downwards from the centre's, then upwards. */
  method CountRows(width: nat, height: nat, x: nat, y0: nat, r: int) returns (count: nat)
    requires x < width && y0 < height
    ensures count == |Diamond(width, x, y0, r, 0, height)|
  {
    var y, l := y0, r;
    count := 0;
    assert Diamond(width, x, y0, r, y0 + 1, y0 + 1) == {};
    while y >= 0 && l >= 0
      invariant -1 <= y <= y0 && l == r - (y0 - y) && l >= (if r < 0 then r else -1)
      invariant count == |Diamond(width, x, y0, r, y + 1, y0 + 1)|
      decreases y
    {
      RowIsInterval(width, x, y0, r, y);
      JoinRows(width, x, y0, r, y, y + 1, y0 + 1);
      count := count + 1;
      if x + l < width {
        count := count + l;
      } else {
        count := count + width - x - 1;
      }
      if x - l >= 0 {
        count := count + l;
      } else {
        count := count + x;
      }
      y := y - 1;
      l := l - 1;
    }
    JoinRows(width, x, y0, r, 0, y + 1, y0 + 1);
    y := y0 + 1;
    l := r - 1;
    while y < height && l >= 0
      invariant y0 + 1 <= y <= height && l == r - (y - y0)
      invariant count == |Diamond(width, x, y0, r, 0, y)|
      decreases height - y
    {
      RowIsInterval(width, x, y0, r, y);
      JoinRows(width, x, y0, r, 0, y, y + 1);
      count := count + 1;
      if x + l < width {
        count := count + l;
      } else {
        count := count + width - x - 1;
      }
      if x - l >= 0 {
        count := count + l;
      } else {
        count := count + x;
      }
      y := y + 1;
      l := l - 1;
    }
    JoinRows(width, x, y0, r, 0, y, height);
  }

  /** region_count. */
  method RegionCount(width: nat, height: nat, toGrid: seq<nat>, ghost toCore: seq<nat>, centre: nat, r: int)
    returns (count: nat)
    requires Numbering(width, height, toGrid, toCore) && centre < |toGrid|
    ensures count == |Region(width, toGrid, centre, r)|
    ensures r >= 0 ==> count > 0
  {
    RegionIsDiamond(width, height, toGrid, toCore, centre, r);
    assert r >= 0 ==> centre in Region(width, toGrid, centre, r);
    RowInGrid(width, height, toGrid[centre]);
    count := CountRows(width, height, toGrid[centre] % width, toGrid[centre] / width, r);
  }

  // ---------------------------------------------------------------- clusters

  /** Start and length of part `i` when `n` divides into `parts`, the first n % parts of them one longer. */
  function PartStart(n: nat, parts: nat, i: nat): nat
    requires parts > 0
  {
    i * (n / parts) + if i < n % parts then i else n % parts
  }

  function PartSize(n: nat, parts: nat, i: nat): nat
    requires parts > 0
  {
    n / parts + if i < n % parts then 1 else 0
  }

  lemma PartsFollow(n: nat, parts: nat, i: nat)
    requires parts > 0
    ensures PartStart(n, parts, i + 1) == PartStart(n, parts, i) + PartSize(n, parts, i)
  {
    var d := n / parts;
    assert (i + 1) * d == i * d + d;
  }

  lemma PartsEnd(n: nat, parts: nat)
    requires parts > 0
    ensures PartStart(n, parts, 0) == 0 && PartStart(n, parts, parts) == n
  {
  }

  ghost predicate InPart(n: nat, parts: nat, i: nat, x: nat)
    requires parts > 0
  {
    PartStart(n, parts, i) <= x < PartStart(n, parts, i) + PartSize(n, parts, i)
  }

  lemma {:induction false} StartsGrow(n: nat, parts: nat, i: nat, j: nat)
    requires parts > 0 && i <= j
    ensures PartStart(n, parts, i) <= PartStart(n, parts, j)
  {
    if i < j {
      StartsGrow(n, parts, i, j - 1);
      PartsFollow(n, parts, j - 1);
    }
  }

  /** Some part before `k` has `x` in it if `x` lies before the start of part `k`. */
  lemma {:induction false} SomePart(n: nat, parts: nat, x: nat, k: nat) returns (i: nat)
    requires parts > 0 && x < PartStart(n, parts, k)
    ensures i < k && InPart(n, parts, i, x)
  {
    if k == 0 {
      PartsEnd(n, parts);
      assert false;
    }
    PartsFollow(n, parts, k - 1);
    if x < PartStart(n, parts, k - 1) {
      i := SomePart(n, parts, x, k - 1);
    } else {
      i := k - 1;
    }
  }

  lemma OnePart(n: nat, parts: nat, x: nat, i: nat, j: nat)
    requires parts > 0 && InPart(n, parts, i, x) && InPart(n, parts, j, x)
    ensures i == j
  {
    PartsFollow(n, parts, i);
    PartsFollow(n, parts, j);
    if i < j {
      StartsGrow(n, parts, i + 1, j);
    } else if j < i {
      StartsGrow(n, parts, j + 1, i);
    }
  }

  /** Cell (x, y) is in the cluster of controller `num`, with `across` clusters side by side and `down` below
      each other. */
  ghost predicate InCluster(width: nat, height: nat, across: nat, down: nat, num: nat, x: nat, y: nat)
    requires across > 0 && down > 0
  {
    InPart(width, across, num % across, x) && InPart(height, down, Quotient(num, across), y)
  }

  function Quotient(a: nat, b: nat): nat
    requires b > 0
  {
    a / b
  }

  /** Every cell of the grid is in the cluster of exactly one controller. */
  lemma ClustersTile(width: nat, height: nat, across: nat, down: nat, x: nat, y: nat) returns (num: nat)
    requires across > 0 && down > 0 && x < width && y < height
    ensures num < across * down && InCluster(width, height, across, down, num, x, y)
    ensures forall k: nat | InCluster(width, height, across, down, k, x, y) :: k == num
  {
    PartsEnd(width, across);
    PartsEnd(height, down);
    var i := SomePart(width, across, x, across);
    var j := SomePart(height, down, y, down);
    num := j * across + i;
    DivMod(num, j, i, across);
    MulLess(j, down, across);
    forall k: nat | InCluster(width, height, across, down, k, x, y)
      ensures k == num
    {
      OnePart(width, across, x, k % across, i);
      OnePart(height, down, y, Quotient(k, across), j);
      assert k == Quotient(k, across) * across + k % across;
    }
  }

  /** One direction of get_cluster_info: `start` is scaled by the undivided size before that grows. */
  method Part(n: nat, parts: nat, i: nat) returns (start: nat, size: nat)
    requires parts > 0
    ensures start == PartStart(n, parts, i) && size == PartSize(n, parts, i)
  {
    size := n / parts;
    start := i * size;
    var diff := n % parts;
    if diff > 0 && i < diff {
      start := start + i;
      size := size + 1;
    } else {
      start := start + diff;
    }
  }

  /** get_cluster_info: corner and size of the cluster of controller `num`. */
  method GetClusterInfo(width: nat, height: nat, numIdags: nat, across: nat, num: nat)
    returns (corner: nat, w: nat, h: nat)
    requires 0 < across && numIdags / across > 0
    ensures var down := numIdags / across;
            && w == PartSize(width, across, num % across) && h == PartSize(height, down, Quotient(num, across))
            && corner == PartStart(height, down, Quotient(num, across)) * width + PartStart(width, across, num % across)
    // the first clusters in each direction are one longer, as many as the division leaves over
    ensures var down, i, j := numIdags / across, num % across, num / across;
            && w == width / across + (if i < width % across then 1 else 0)
            && h == height / down + (if j < height % down then 1 else 0)
            && corner == (j * (height / down) + (if j < height % down then j else height % down)) * width
                         + i * (width / across) + (if i < width % across then i else width % across)
  {
    var down := numIdags / across;
    var x, y;
    x, w := Part(width, across, num % across);
    y, h := Part(height, down, Quotient(num, across));
    corner := y * width + x;
  }
}
