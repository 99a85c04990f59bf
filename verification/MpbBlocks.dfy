/** The dynamic MPB allocator of `RCCE_malloc.c` on block lists as values: the list is written from the
    block after the tail round to the tail. The same code with byte granularity is `RCCE_shmalloc.c`. */
module MpbBlocks {
  import opened Arithmetic
  import opened BitReversal
  import opened Wrappers

  /** A block starts at `space`; `free` is 0 when it is malloced, its whole length when it is not. */
  datatype Blk = Blk(space: int, free: int)

  /** An allocation that has been handed out: address and length. */
  datatype Live = Live(addr: int, size: int)

  // ---------------------------------------------------------------- the operations

  function Init(mem: int, size: nat): seq<Blk> {
    [Blk(mem, size)]
  }

  /** First block before the tail with room for `size`, searching from index `i`; the tail's index if none. */
  function FirstFit(bs: seq<Blk>, size: nat, i: nat): (r: nat)
    requires i < |bs|
    ensures i <= r < |bs|
    ensures r < |bs| - 1 ==> bs[r].free >= size
    ensures forall k | i <= k < r :: bs[k].free < size
    decreases |bs| - i
  {
    if i == |bs| - 1 || bs[i].free >= size then i else FirstFit(bs, size, i + 1)
  }

  /** Block `i` gives up its first `size` bytes; a remainder, and any remainder of the tail, is a new block. */
  function Take(bs: seq<Blk>, i: nat, size: nat): seq<Blk>
    requires i < |bs| && size <= bs[i].free
  {
    var b := bs[i];
    if b.free > size || i == |bs| - 1 then
      bs[..i] + [Blk(b.space, 0), Blk(b.space + size, b.free - size)] + bs[i + 1..]
    else
      bs[i := Blk(b.space, 0)]
  }

  function Malloc(bs: seq<Blk>, line: nat, size: nat): (seq<Blk>, Option<int>)
    requires |bs| > 0 && line > 0
  {
    var last := |bs| - 1;
    if size == 0 || size % line != 0 then (bs, None)
    else if bs[last].free >= size then (Take(bs, last, size), Some(bs[last].space))
    else
      var i := FirstFit(bs, size, 0);
      if i == last then (bs, None) else (Take(bs, i, size), Some(bs[i].space))
  }

  /** Index of the block that starts at `ptr`, searching from `i`; the tail's index if there is none. */
  function Find(bs: seq<Blk>, ptr: int, i: nat): (r: nat)
    requires i < |bs|
    ensures i <= r < |bs|
    ensures r < |bs| - 1 ==> bs[r].space == ptr
    ensures forall k | i <= k < r :: bs[k].space != ptr
    decreases |bs| - i
  {
    if i == |bs| - 1 || bs[i].space == ptr then i else Find(bs, ptr, i + 1)
  }

  function Free(bs: seq<Blk>, ptr: int): seq<Blk>
    requires |bs| > 0
  {
    var last := |bs| - 1;
    var i := Find(bs, ptr, 0);
    if i == last then bs
    else
      var size := bs[i + 1].space - bs[i].space;
      var joinsLeft := i > 0 && bs[i - 1].free > 0;
      var joinsRight := bs[i + 1].free > 0 || i + 1 == last;
      if joinsLeft && joinsRight then
        bs[..i - 1] + [Blk(bs[i - 1].space, bs[i - 1].free + size + bs[i + 1].free)] + bs[i + 2..]
      else if joinsLeft then
        bs[..i - 1] + [Blk(bs[i - 1].space, bs[i - 1].free + size)] + bs[i + 1..]
      else if joinsRight then
        bs[..i] + [Blk(bs[i].space, size + bs[i + 1].free)] + bs[i + 2..]
      else
        bs[i := Blk(bs[i].space, size)]
  }

  /** PAD32byte. */
  function Pad32(n: nat): (r: nat)
    ensures r % 32 == 0 && n <= r < n + 32
  {
    if n % 32 == 0 then n else n + 32 - n % 32
  }

  /** Some block has room for one line. */
  ghost predicate HasLine(bs: seq<Blk>) {
    exists k :: 0 <= k < |bs| && bs[k].free >= 32
  }

  /** The first length, halving from `chunk`, for which Malloc succeeds. */
  ghost function FirstGranted(bs: seq<Blk>, chunk: nat): nat
    requires |bs| > 0 && HasLine(bs) && chunk >= 32 && chunk % 32 == 0
    decreases chunk
  {
    if Malloc(bs, 32, chunk).1.Some? then chunk
    else
      LineGranted(bs);
      FirstGranted(bs, Pad32(chunk / 2))
  }

  lemma LineGranted(bs: seq<Blk>)
    requires |bs| > 0 && HasLine(bs)
    ensures Malloc(bs, 32, 32).1.Some?
  {
  }

  /** A refusal leaves the list alone and the halved request is still at least one line, for which there is
      room if there is any: the halving goes on to the same answer. */
  lemma NotGranted(bs: seq<Blk>, chunk: nat)
    requires |bs| > 0 && HasLine(bs) && chunk >= 32 && chunk % 32 == 0 && Malloc(bs, 32, chunk).1.None?
    ensures Malloc(bs, 32, chunk).0 == bs
    ensures 32 <= Pad32(chunk / 2) < chunk && FirstGranted(bs, chunk) == FirstGranted(bs, Pad32(chunk / 2))
  {
    LineGranted(bs);
  }

  /** `turns` rounds of the request loop, or fewer if it ends before: the list, the address and the length. */
  function Requested(bs: seq<Blk>, chunk: nat, turns: nat): (seq<Blk>, Option<int>, nat)
    requires |bs| > 0
    decreases turns
  {
    if turns == 0 || chunk < 32 then (bs, None, chunk)
    else
      var (next, p) := Malloc(bs, 32, chunk);
      if p.Some? then (next, p, chunk) else Requested(bs, Pad32(chunk / 2), turns - 1)
  }

  lemma RequestNext(bs: seq<Blk>, chunk: nat, turns: nat)
    requires |bs| > 0 && chunk >= 32 && turns > 0
    ensures var (next, p) := Malloc(bs, 32, chunk);
            Requested(bs, chunk, turns) == if p.Some? then (next, p, chunk) else Requested(bs, Pad32(chunk / 2), turns - 1)
  {
  }

  lemma PadFalls(chunk: nat, turns: nat)
    requires chunk % 32 == 0 && Pad32(chunk / 2) < chunk <= 32 * turns
    ensures Pad32(chunk / 2) <= 32 * (turns - 1)
  {
  }

  /** With a free line the loop ends with the first length that is granted. */
  lemma {:induction false} RequestEnds(bs: seq<Blk>, chunk: nat, turns: nat)
    requires |bs| > 0 && HasLine(bs) && chunk >= 32 && chunk % 32 == 0 && 32 * turns >= chunk
    ensures var (next, p, length) := Requested(bs, chunk, turns);
            p.Some? && length == FirstGranted(bs, chunk) && (next, p) == Malloc(bs, 32, length)
    decreases chunk
  {
    RequestNext(bs, chunk, turns);
    if Malloc(bs, 32, chunk).1.None? {
      NotGranted(bs, chunk);
      PadFalls(chunk, turns);
      RequestEnds(bs, Pad32(chunk / 2), turns - 1);
    }
  }

  /** The request after `k` refusals. */
  ghost function Halved(chunk: nat, k: nat): nat {
    if k == 0 then chunk else Pad32(Halved(chunk, k - 1) / 2)
  }

  /** Half of `m` lines, and half of what is left, and so on, `k` times, always rounded up to whole lines. */
  lemma {:induction false} HalvedLines(m: nat, k: nat)
    ensures Halved(32 * m, k) == 32 * ((m + Pow2(k) - 1) / Pow2(k))
  {
    if k == 0 {
      assert Pow2(0) == 1;
    } else {
      HalvedLines(m, k - 1);
      var q := (m + Pow2(k - 1) - 1) / Pow2(k - 1);
      HalfLines(q);
      HalfOfQuotient(m, Pow2(k - 1));
    }
  }

  lemma HalfLines(q: nat)
    ensures Pad32(32 * q / 2) == 32 * ((q + 1) / 2)
  {
  }

  /** Rounding up twice is rounding up once. */
  lemma HalfOfQuotient(m: nat, p: nat)
    requires p > 0
    ensures ((m + p - 1) / p + 1) / 2 == (m + 2 * p - 1) / (2 * p)
  {
    var q, r := (m + 2 * p - 1) / (2 * p), (m + 2 * p - 1) % (2 * p);
    assert m + p - 1 == (2 * q - 1) * p + r;
    if r < p {
      DivMod(m + p - 1, 2 * q - 1, r, p);
    } else {
      DivMod(m + p - 1, 2 * q, r - p, p);
    }
  }

  /** With a free line a request is granted the first of these lengths for which there is room. */
  lemma {:induction false} GrantedHalf(bs: seq<Blk>, m: nat, j: nat) returns (k: nat)
    requires |bs| > 0 && HasLine(bs) && m > 0 && Halved(32 * m, j) >= 32 && Halved(32 * m, j) % 32 == 0
    ensures k >= j && FirstGranted(bs, Halved(32 * m, j)) == Halved(32 * m, k) && Malloc(bs, 32, Halved(32 * m, k)).1.Some?
    ensures forall i: nat | j <= i < k :: Malloc(bs, 32, Halved(32 * m, i)).1.None?
    decreases Halved(32 * m, j)
  {
    k := j;
    if Malloc(bs, 32, Halved(32 * m, j)).1.None? {
      NotGranted(bs, Halved(32 * m, j));
      k := GrantedHalf(bs, m, j + 1);
    }
  }

  /** With no free line every request of the halving loop is refused and none falls below one line. */
  lemma {:induction false} NoLineNoExit(bs: seq<Blk>, size: nat, k: nat)
    requires |bs| > 0 && !HasLine(bs) && size > 0
    ensures Halved(Pad32(size), k) >= 32
    ensures Malloc(bs, 32, Halved(Pad32(size), k)) == (bs, None)
  {
    if k > 0 {
      NoLineNoExit(bs, size, k - 1);
    }
  }

  lemma {:induction false} RequestGoesOn(bs: seq<Blk>, size: nat, k: nat, turns: nat)
    requires |bs| > 0 && !HasLine(bs) && size > 0
    ensures Requested(bs, Halved(Pad32(size), k), turns) == (bs, None, Halved(Pad32(size), k + turns))
    decreases turns
  {
    if turns > 0 {
      NoLineNoExit(bs, size, k);
      RequestGoesOn(bs, size, k + 1, turns - 1);
    }
  }

  /** A request is answered, after however many rounds, if and only if some line is free; until then it goes on. */
  lemma AnsweredIff(bs: seq<Blk>, size: nat)
    requires |bs| > 0 && size > 0
    ensures (exists turns: nat :: Requested(bs, Pad32(size), turns).1.Some?) <==> HasLine(bs)
  {
    if HasLine(bs) {
      RequestEnds(bs, Pad32(size), Pad32(size));
    } else {
      forall turns: nat
        ensures Requested(bs, Pad32(size), turns).1.None?
      {
        RequestGoesOn(bs, size, 0, turns);
      }
    }
  }

  /** Such a list is reached from any region: one request for all of it is granted, and from then on no request of
      the halving loop is. */
  lemma FullRegion(mem: int, size: nat, request: nat, k: nat)
    requires size > 0 && size % 32 == 0 && request > 0
    ensures var (bs, p) := Malloc(Init(mem, size), 32, size);
            p == Some(mem) && |bs| > 0 && !HasLine(bs) && Malloc(bs, 32, Halved(Pad32(request), k)) == (bs, None)
  {
    var bs := Malloc(Init(mem, size), 32, size).0;
    assert bs == [Blk(mem, 0), Blk(mem + size, 0)];
    NoLineNoExit(bs, request, k);
  }

  // ---------------------------------------------------------------- the invariant

  /** `x` ends where `y` begins, is wholly free or wholly used, and free only before a used block. */
  ghost predicate Meets(x: Blk, y: Blk, yIsTail: bool) {
    && x.space < y.space
    && (x.free == 0 || (x.free == y.space - x.space && !yIsTail && y.free == 0))
  }

  /** The blocks tile [lo, hi); every block before the tail is wholly free or wholly used and not empty;
      a free block is followed by a used one. */
  ghost predicate Valid(bs: seq<Blk>, lo: int, hi: int) {
    && |bs| > 0
    && bs[0].space == lo
    && bs[|bs| - 1].free >= 0 && bs[|bs| - 1].space + bs[|bs| - 1].free == hi
    && (forall k | 0 <= k < |bs| - 1 :: Meets(bs[k], bs[k + 1], k + 1 == |bs| - 1))
  }

  ghost predicate Aligned(bs: seq<Blk>, line: nat, lo: int)
    requires line > 0
  {
    forall k | 0 <= k < |bs| :: (bs[k].space - lo) % line == 0
  }

  /** The allocations handed out and not returned. */
  ghost function LiveOf(bs: seq<Blk>): set<Live> {
    if |bs| <= 1 then {}
    else (if bs[0].free == 0 then {Live(bs[0].space, bs[1].space - bs[0].space)} else {}) + LiveOf(bs[1..])
  }

  // ---------------------------------------------------------------- cutting lists

  lemma {:induction false} LiveSplit(bs: seq<Blk>, k: nat)
    requires k < |bs|
    ensures LiveOf(bs) == LiveOf(bs[..k + 1]) + LiveOf(bs[k..])
  {
    if k == 0 {
      assert bs[0..] == bs;
    } else {
      LiveSplit(bs[1..], k - 1);
      assert bs[1..][..k] == bs[..k + 1][1..];
      assert bs[1..][k - 1..] == bs[k..];
    }
  }

  /** The last block of a piece only marks where the piece ends. */
  lemma {:induction false} LiveEnd(a: seq<Blk>, x: Blk, y: Blk)
    requires x.space == y.space
    ensures LiveOf(a + [x]) == LiveOf(a + [y])
  {
    if a != [] {
      LiveEnd(a[1..], x, y);
      assert (a + [x])[1..] == a[1..] + [x] && (a + [y])[1..] == a[1..] + [y];
    }
  }

  /** A list that ends with the stretch `m`, and one that goes on with `b` after it. */
  lemma LiveTail(a: seq<Blk>, m: seq<Blk>)
    requires |m| > 0
    ensures LiveOf(a + m) == LiveOf(a + [m[0]]) + LiveOf(m)
  {
    LiveSplit(a + m, |a|);
    assert (a + m)[..|a| + 1] == a + [m[0]];
    assert (a + m)[|a|..] == m;
  }

  /** The marker that ends a stretch followed by `b`. */
  ghost function End(b: seq<Blk>): seq<Blk> {
    if b == [] then [] else [b[0]]
  }

  lemma LivePieces(a: seq<Blk>, m: seq<Blk>, b: seq<Blk>)
    requires |m| > 0
    ensures LiveOf(a + m + b) == LiveOf(a + [m[0]]) + LiveOf(m + End(b)) + LiveOf(b)
  {
    assert a + m + b == a + (m + b);
    LiveTail(a, m + b);
    if b == [] {
      assert m + b == m && m + End(b) == m;
    } else {
      LiveTail(m, b);
    }
  }

  /** The allocations of short stretches. */
  lemma LiveShort(x: Blk, y: Blk, z: Blk)
    ensures LiveOf([x]) == {}
    ensures LiveOf([x, y]) == if x.free == 0 then {Live(x.space, y.space - x.space)} else {}
    ensures LiveOf([x, y, z]) == LiveOf([x, y]) + LiveOf([y, z])
  {
    assert [x, y][1..] == [y];
    assert [x, y, z][1..] == [y, z];
  }

  lemma {:induction false} LiveAt(bs: seq<Blk>, x: Live) returns (k: nat)
    requires x in LiveOf(bs)
    ensures k + 1 < |bs| && bs[k].free == 0 && x == Live(bs[k].space, bs[k + 1].space - bs[k].space)
  {
    if bs[0].free == 0 && x == Live(bs[0].space, bs[1].space - bs[0].space) {
      k := 0;
    } else {
      var j := LiveAt(bs[1..], x);
      k := j + 1;
    }
  }

  lemma {:induction false} LiveHas(bs: seq<Blk>, k: nat)
    requires k + 1 < |bs| && bs[k].free == 0
    ensures Live(bs[k].space, bs[k + 1].space - bs[k].space) in LiveOf(bs)
  {
    if k > 0 {
      LiveHas(bs[1..], k - 1);
    }
  }

  lemma {:induction false} Increasing(bs: seq<Blk>, lo: int, hi: int, j: nat, k: nat)
    requires Valid(bs, lo, hi) && j < k < |bs|
    ensures bs[j].space < bs[k].space
  {
    assert Meets(bs[k - 1], bs[k], k == |bs| - 1);
    if j + 1 < k {
      Increasing(bs, lo, hi, j, k - 1);
    }
  }
}
