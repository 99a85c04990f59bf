/** What the allocator promises: the block list always tiles the region in canonical form, a request fails
    exactly when no gap is long enough, and the list depends on nothing but the live allocations. */
module MpbLaws {
  import opened MpbBlocks
  import opened Wrappers

  // ---------------------------------------------------------------- every operation keeps the invariant

  lemma InitValid(lo: int, size: nat)
    ensures Valid(Init(lo, size), lo, lo + size) && LiveOf(Init(lo, size)) == {}
  {
  }

  /** Replacing the stretch `m` of a valid list by a stretch `n` that fits in its place. */
  lemma SpliceValid(a: seq<Blk>, m: seq<Blk>, n: seq<Blk>, b: seq<Blk>, lo: int, hi: int)
    requires |m| > 0 && |n| > 0 && Valid(a + m + b, lo, hi)
    requires m[0].space == n[0].space
    requires forall k | 0 <= k < |n| - 1 :: Meets(n[k], n[k + 1], b == [] && k + 1 == |n| - 1)
    requires b != [] ==> Meets(n[|n| - 1], b[0], |b| == 1)
    requires b == [] ==> n[|n| - 1].free >= 0 && n[|n| - 1].space + n[|n| - 1].free == hi
    requires a != [] && a[|a| - 1].free > 0 ==> n[0].free == 0 && (|n| > 1 || b != [])
    ensures Valid(a + n + b, lo, hi)
  {
    var was, r := a + m + b, a + n + b;
    forall k | 0 <= k < |r| - 1
      ensures Meets(r[k], r[k + 1], k + 1 == |r| - 1)
    {
      if k < |a| {
        assert Meets(was[k], was[k + 1], k + 1 == |was| - 1);
        assert r[k] == a[k];
      } else if k < |a| + |n| {
        assert r[k] == n[k - |a|];
        assert r[k + 1] == if k + 1 < |a| + |n| then n[k + 1 - |a|] else b[0];
      } else {
        var d := k - |a| - |n|;
        assert r[k] == b[d] && r[k + 1] == b[d + 1];
        var o := |a| + |m| + d;
        assert was[o] == b[d] && was[o + 1] == b[d + 1];
        assert Meets(was[o], was[o + 1], o + 1 == |was| - 1);
      }
    }
    if b != [] {
      assert r[|r| - 1] == b[|b| - 1] == was[|was| - 1];
    }
  }

  /** What Take puts in the place of block `i`. */
  ghost function Taken(x: Blk, size: nat, isTail: bool): seq<Blk>
  {
    [Blk(x.space, 0)] + (if x.free > size || isTail then [Blk(x.space + size, x.free - size)] else [])
  }

  lemma TakeIs(bs: seq<Blk>, i: nat, size: nat)
    requires i < |bs| && size <= bs[i].free
    ensures bs == bs[..i] + [bs[i]] + bs[i + 1..]
    ensures Take(bs, i, size) == bs[..i] + Taken(bs[i], size, i == |bs| - 1) + bs[i + 1..]
  {
  }

  lemma TakeValid(bs: seq<Blk>, lo: int, hi: int, i: nat, size: nat)
    requires Valid(bs, lo, hi) && i < |bs| && 0 < size <= bs[i].free
    ensures Valid(Take(bs, i, size), lo, hi)
  {
    TakeIs(bs, i, size);
    assert i + 1 < |bs| ==> Meets(bs[i], bs[i + 1], i + 1 == |bs| - 1);
    assert i > 0 ==> Meets(bs[i - 1], bs[i], i == |bs| - 1);
    SpliceValid(bs[..i], [bs[i]], Taken(bs[i], size, i == |bs| - 1), bs[i + 1..], lo, hi);
  }

  lemma TakenLive(x: Blk, size: nat, end: seq<Blk>)
    requires 0 < size <= x.free && |end| <= 1 && (|end| == 1 ==> x.free == end[0].space - x.space)
    ensures LiveOf(Taken(x, size, end == []) + end) == {Live(x.space, size)}
    ensures LiveOf([x] + end) == {}
  {
    var used, rest := Blk(x.space, 0), Blk(x.space + size, x.free - size);
    if end == [] {
      LiveShort(x, x, x);
      LiveShort(used, rest, rest);
      assert [x] + end == [x] && Taken(x, size, true) + end == [used, rest];
    } else {
      TakenLiveMiddle(x, size, end[0]);
      assert end == [end[0]];
    }
  }

  lemma TakenLiveMiddle(x: Blk, size: nat, e: Blk)
    requires 0 < size <= x.free == e.space - x.space
    ensures LiveOf(Taken(x, size, false) + [e]) == {Live(x.space, size)}
    ensures LiveOf([x] + [e]) == {}
  {
    var used, rest := Blk(x.space, 0), Blk(x.space + size, x.free - size);
    assert [x] + [e] == [x, e];
    LiveShort(x, e, e);
    if x.free > size {
      assert Taken(x, size, false) + [e] == [used, rest, e];
      LiveShort(used, rest, e);
      LiveShort(rest, e, e);
    } else {
      assert Taken(x, size, false) + [e] == [used, e];
      LiveShort(used, e, e);
    }
  }

  lemma TakeLive(bs: seq<Blk>, lo: int, hi: int, i: nat, size: nat)
    requires Valid(bs, lo, hi) && i < |bs| && 0 < size <= bs[i].free
    ensures LiveOf(Take(bs, i, size)) == LiveOf(bs) + {Live(bs[i].space, size)}
  {
    var a, x, b := bs[..i], bs[i], bs[i + 1..];
    assert i + 1 < |bs| ==> Meets(bs[i], bs[i + 1], i + 1 == |bs| - 1);
    TakeIs(bs, i, size);
    TakeLiveAround(a, x, size, b);
  }

  lemma TakeLiveAround(a: seq<Blk>, x: Blk, size: nat, b: seq<Blk>)
    requires 0 < size <= x.free && (b != [] ==> x.free == b[0].space - x.space)
    ensures LiveOf(a + Taken(x, size, b == []) + b) == LiveOf(a + [x] + b) + {Live(x.space, size)}
  {
    var n := Taken(x, size, b == []);
    LivePieces(a, [x], b);
    LivePieces(a, n, b);
    LiveEnd(a, x, n[0]);
    TakenLive(x, size, End(b));
  }

  lemma TakeAligned(bs: seq<Blk>, line: nat, lo: int, i: nat, size: nat)
    requires line > 0 && Aligned(bs, line, lo) && i < |bs| && size <= bs[i].free && size % line == 0
    ensures Aligned(Take(bs, i, size), line, lo)
  {
    var r := Take(bs, i, size);
    SumOfMultiples(bs[i].space - lo, size, line);
    forall k | 0 <= k < |r|
      ensures (r[k].space - lo) % line == 0
    {
      assert r[k].space == bs[i].space + size || exists j :: 0 <= j < |bs| && r[k].space == bs[j].space by {
        if k <= i {
          assert r[k].space == bs[k].space;
        } else if |r| == |bs| {
          assert r[k] == bs[k];
        } else if k > i + 1 {
          assert r[k] == bs[k - 1];
        }
      }
    }
  }

  lemma SumOfMultiples(x: int, y: int, line: int)
    requires line > 0 && x % line == 0 && y % line == 0
    ensures (x + y) % line == 0
  {
    var p, q := x / line, y / line;
    assert x + y == line * (p + q);
    RemainderOfMultiple(p + q, (x + y) / line, (x + y) % line, line);
  }

  lemma RemainderOfMultiple(q: int, d: int, r: int, line: int)
    requires line > 0 && 0 <= r < line && line * q == line * d + r
    ensures r == 0
  {
    assert line * (q - d) == r;
    assert q - d >= 1 ==> line * (q - d) >= line;
    assert q - d <= -1 ==> line * (q - d) <= -line;
  }

  /** Granting a request adds exactly that allocation, at an address handed to nobody else; refusing one
      changes nothing. */
  lemma MallocKeeps(bs: seq<Blk>, lo: int, hi: int, line: nat, size: nat)
    requires Valid(bs, lo, hi) && line > 0 && Aligned(bs, line, lo)
    ensures var (bs', p) := Malloc(bs, line, size);
            && Valid(bs', lo, hi) && Aligned(bs', line, lo)
            && (p.None? ==> bs' == bs)
            && (p.Some? ==> LiveOf(bs') == LiveOf(bs) + {Live(p.value, size)}
                            && forall x | x in LiveOf(bs) :: x.addr != p.value)
  {
    var (bs', p) := Malloc(bs, line, size);
    if p.Some? {
      var i := if bs[|bs| - 1].free >= size then |bs| - 1 else FirstFit(bs, size, 0);
      TakeValid(bs, lo, hi, i, size);
      TakeLive(bs, lo, hi, i, size);
      TakeAligned(bs, line, lo, i, size);
      forall x | x in LiveOf(bs)
        ensures x.addr != p.value
      {
        var k := LiveAt(bs, x);
        if k < i {
          Increasing(bs, lo, hi, k, i);
        } else if i < k {
          Increasing(bs, lo, hi, i, k);
        }
      }
    }
  }

  ghost function Without(live: set<Live>, ptr: int): set<Live> {
    set x | x in live && x.addr != ptr
  }

  predicate JoinsLeft(bs: seq<Blk>, i: nat)
    requires i < |bs| - 1
  {
    i > 0 && bs[i - 1].free > 0
  }

  predicate JoinsRight(bs: seq<Blk>, i: nat)
    requires i < |bs| - 1
  {
    bs[i + 1].free > 0 || i + 1 == |bs| - 1
  }

  /** First and last block (exclusive) that freeing block `i` merges, and the block they become. */
  function From(bs: seq<Blk>, i: nat): nat
    requires i < |bs| - 1
  {
    if JoinsLeft(bs, i) then i - 1 else i
  }

  function To(bs: seq<Blk>, i: nat): nat
    requires i < |bs| - 1
  {
    if JoinsRight(bs, i) then i + 2 else i + 1
  }

  function Merged(bs: seq<Blk>, lo: int, hi: int, i: nat): Blk
    requires Valid(bs, lo, hi) && i < |bs| - 1
  {
    var end := if To(bs, i) == |bs| then hi else bs[To(bs, i)].space;
    Blk(bs[From(bs, i)].space, end - bs[From(bs, i)].space)
  }

  lemma Around(bs: seq<Blk>, lo: int, hi: int, i: nat)
    requires Valid(bs, lo, hi) && i < |bs| - 1
    ensures Meets(bs[i], bs[i + 1], i + 1 == |bs| - 1)
    ensures i > 0 ==> Meets(bs[i - 1], bs[i], false)
    ensures i > 1 ==> Meets(bs[i - 2], bs[i - 1], false)
    ensures i + 2 < |bs| ==> Meets(bs[i + 1], bs[i + 2], i + 2 == |bs| - 1)
  {
  }

  lemma FreeShape(bs: seq<Blk>, ptr: int)
    requires |bs| > 0 && Find(bs, ptr, 0) < |bs| - 1
    ensures var i := Find(bs, ptr, 0);
            var sum := (if JoinsLeft(bs, i) then bs[i - 1].free else 0) + (bs[i + 1].space - bs[i].space)
                       + (if JoinsRight(bs, i) then bs[i + 1].free else 0);
            Free(bs, ptr) == bs[..From(bs, i)] + [Blk(bs[From(bs, i)].space, sum)] + bs[To(bs, i)..]
  {
    var i := Find(bs, ptr, 0);
    if !JoinsLeft(bs, i) && !JoinsRight(bs, i) {
      var x := Blk(bs[i].space, bs[i + 1].space - bs[i].space);
      assert bs[i := x] == bs[..i] + [x] + bs[i + 1..];
    }
  }

  /** Freeing block `i` replaces the stretch it merges with by one free block. */
  lemma FreeIs(bs: seq<Blk>, lo: int, hi: int, ptr: int)
    requires Valid(bs, lo, hi)
    ensures var i := Find(bs, ptr, 0);
            if i == |bs| - 1 then Free(bs, ptr) == bs
            else Free(bs, ptr) == bs[..From(bs, i)] + [Merged(bs, lo, hi, i)] + bs[To(bs, i)..]
                 && Merged(bs, lo, hi, i).free > 0
  {
    var i := Find(bs, ptr, 0);
    if i < |bs| - 1 {
      FreeShape(bs, ptr);
      MergedIs(bs, lo, hi, i);
    }
  }

  /** The merged length is what Free adds up. */
  lemma MergedIs(bs: seq<Blk>, lo: int, hi: int, i: nat)
    requires Valid(bs, lo, hi) && i < |bs| - 1
    ensures var x, own := Merged(bs, lo, hi, i), bs[i + 1].space - bs[i].space;
            && x.space == (if JoinsLeft(bs, i) then bs[i - 1].space else bs[i].space)
            && x.free == (if JoinsLeft(bs, i) then bs[i - 1].free else 0) + own
                         + (if JoinsRight(bs, i) then bs[i + 1].free else 0)
            && x.free > 0
  {
    Around(bs, lo, hi, i);
  }

  /** The merged block meets what stays on either side of it. */
  lemma MergedFits(bs: seq<Blk>, lo: int, hi: int, i: nat)
    requires Valid(bs, lo, hi) && i < |bs| - 1
    ensures var x, f, t := Merged(bs, lo, hi, i), From(bs, i), To(bs, i);
            && f < t <= |bs| && x.space == bs[f].space
            && (if t < |bs| then Meets(x, bs[t], t == |bs| - 1) else x.free >= 0 && x.space + x.free == hi)
            && (f > 0 ==> bs[f - 1].free <= 0)
  {
    Around(bs, lo, hi, i);
  }

  lemma SpliceOne(bs: seq<Blk>, x: Blk, f: nat, t: nat, lo: int, hi: int)
    requires Valid(bs, lo, hi) && f < t <= |bs| && x.space == bs[f].space && (f > 0 ==> bs[f - 1].free <= 0)
    requires if t < |bs| then Meets(x, bs[t], t == |bs| - 1) else x.free >= 0 && x.space + x.free == hi
    ensures Valid(bs[..f] + [x] + bs[t..], lo, hi)
  {
    var a, m, b := bs[..f], bs[f..t], bs[t..];
    assert a + m + b == bs;
    assert a != [] ==> a[|a| - 1] == bs[f - 1];
    SpliceValid(a, m, [x], b, lo, hi);
  }

  lemma FreeValid(bs: seq<Blk>, lo: int, hi: int, ptr: int)
    requires Valid(bs, lo, hi)
    ensures Valid(Free(bs, ptr), lo, hi)
  {
    FreeIs(bs, lo, hi, ptr);
    var i := Find(bs, ptr, 0);
    if i < |bs| - 1 {
      MergedFits(bs, lo, hi, i);
      SpliceOne(bs, Merged(bs, lo, hi, i), From(bs, i), To(bs, i), lo, hi);
    }
  }

  lemma FreeAligned(bs: seq<Blk>, lo: int, hi: int, line: nat, ptr: int)
    requires Valid(bs, lo, hi) && line > 0 && Aligned(bs, line, lo)
    ensures Aligned(Free(bs, ptr), line, lo)
  {
    FreeIs(bs, lo, hi, ptr);
    var i := Find(bs, ptr, 0);
    var r := Free(bs, ptr);
    if i < |bs| - 1 {
      var f, t := From(bs, i), To(bs, i);
      forall k | 0 <= k < |r|
        ensures (r[k].space - lo) % line == 0
      {
        assert r[k].space == if k <= f then bs[k].space else bs[k - f - 1 + t].space;
      }
    }
  }

  /** All a merged stretch contributed was the block being freed, if that was in use. */
  lemma StretchLive(l: seq<Blk>, x: Blk, y: Blk, r: seq<Blk>)
    requires |l| <= 1 && |r| <= 1
    requires l != [] ==> l[0].free > 0
    requires r != [] ==> y.free > 0
    ensures LiveOf(l + [x, y] + r) == if x.free == 0 then {Live(x.space, y.space - x.space)} else {}
  {
    LiveShort(x, y, y);
    if r != [] {
      LiveShort(x, y, r[0]);
      LiveShort(y, r[0], r[0]);
      assert [x, y] + r == [x, y, r[0]];
    } else {
      assert [x, y] + r == [x, y];
    }
    var m := [x, y] + r;
    assert l + [x, y] + r == l + m;
    if l == [] {
      assert l + m == m;
    } else {
      assert (l + m)[1..] == m;
    }
  }

  lemma ReplacedLive(a: seq<Blk>, m: seq<Blk>, x: Blk, b: seq<Blk>)
    requires |m| > 0 && m[0].space == x.space && x.free > 0
    ensures LiveOf(a + m + b) == LiveOf(a + [x] + b) + LiveOf(m + End(b))
  {
    LivePieces(a, m, b);
    LivePieces(a, [x], b);
    LiveEnd(a, m[0], x);
    if b == [] {
      assert [x] + End(b) == [x];
      LiveShort(x, x, x);
    } else {
      assert [x] + End(b) == [x, b[0]];
      LiveShort(x, b[0], b[0]);
    }
  }

  lemma FreeLiveSplit(bs: seq<Blk>, lo: int, hi: int, ptr: int)
    requires Valid(bs, lo, hi) && Find(bs, ptr, 0) < |bs| - 1
    ensures var i := Find(bs, ptr, 0);
            LiveOf(bs) == LiveOf(Free(bs, ptr)) +
                          if bs[i].free == 0 then {Live(bs[i].space, bs[i + 1].space - bs[i].space)} else {}
  {
    var i := Find(bs, ptr, 0);
    var f, t := From(bs, i), To(bs, i);
    FreeIs(bs, lo, hi, ptr);
    MergedLive(bs, lo, hi, i);
    SplitLive(bs, f, t, Merged(bs, lo, hi, i), Free(bs, ptr));
  }

  lemma SplitLive(bs: seq<Blk>, f: nat, t: nat, x: Blk, r: seq<Blk>)
    requires f < t <= |bs| && bs[f].space == x.space && x.free > 0
    requires r == bs[..f] + [x] + bs[t..]
    ensures LiveOf(bs) == LiveOf(r) + LiveOf(bs[f..t] + End(bs[t..]))
  {
    assert bs == bs[..f] + bs[f..t] + bs[t..];
    ReplacedLive(bs[..f], bs[f..t], x, bs[t..]);
  }

  lemma MergedLive(bs: seq<Blk>, lo: int, hi: int, i: nat)
    requires Valid(bs, lo, hi) && i < |bs| - 1
    ensures LiveOf(bs[From(bs, i)..To(bs, i)] + End(bs[To(bs, i)..])) ==
            if bs[i].free == 0 then {Live(bs[i].space, bs[i + 1].space - bs[i].space)} else {}
  {
    var f, t := From(bs, i), To(bs, i);
    var l := bs[f..i];
    var r := if JoinsRight(bs, i) && t < |bs| then [bs[t]] else [];
    Around(bs, lo, hi, i);
    assert bs[f..t] + End(bs[t..]) == l + [bs[i], bs[i + 1]] + r;
    StretchLive(l, bs[i], bs[i + 1], r);
  }

  /** A returned address is live no longer, and that is all that changes. */
  lemma FreeKeeps(bs: seq<Blk>, lo: int, hi: int, line: nat, ptr: int)
    requires Valid(bs, lo, hi) && line > 0 && Aligned(bs, line, lo)
    ensures Valid(Free(bs, ptr), lo, hi) && Aligned(Free(bs, ptr), line, lo)
    ensures LiveOf(Free(bs, ptr)) == Without(LiveOf(bs), ptr)
  {
    FreeValid(bs, lo, hi, ptr);
    FreeAligned(bs, lo, hi, line, ptr);
    var i, r := Find(bs, ptr, 0), Free(bs, ptr);
    if i < |bs| - 1 {
      FreeLiveSplit(bs, lo, hi, ptr);
      OnlyAt(bs, lo, hi, i);
      NotInMerged(bs, lo, hi, ptr);
    } else {
      FreeIs(bs, lo, hi, ptr);
      forall x | x in LiveOf(bs)
        ensures x.addr != ptr
      {
        var k := LiveAt(bs, x);
      }
    }
  }

  /** Addresses tell allocations apart. */
  lemma OnlyAt(bs: seq<Blk>, lo: int, hi: int, i: nat)
    requires Valid(bs, lo, hi) && i < |bs| - 1
    ensures forall x | x in LiveOf(bs) && x.addr == bs[i].space ::
              bs[i].free == 0 && x == Live(bs[i].space, bs[i + 1].space - bs[i].space)
  {
    forall x | x in LiveOf(bs) && x.addr == bs[i].space
      ensures bs[i].free == 0 && x == Live(bs[i].space, bs[i + 1].space - bs[i].space)
    {
      var k := LiveAt(bs, x);
      if k < i {
        Increasing(bs, lo, hi, k, i);
      } else if i < k {
        Increasing(bs, lo, hi, i, k);
      }
    }
  }

  lemma NotInMerged(bs: seq<Blk>, lo: int, hi: int, ptr: int)
    requires Valid(bs, lo, hi) && Find(bs, ptr, 0) < |bs| - 1
    requires Valid(Free(bs, ptr), lo, hi)
    ensures forall x | x in LiveOf(Free(bs, ptr)) :: x.addr != ptr
  {
    var i, r := Find(bs, ptr, 0), Free(bs, ptr);
    var f, t := From(bs, i), To(bs, i);
    FreeIs(bs, lo, hi, ptr);
    forall x | x in LiveOf(r)
      ensures x.addr != ptr
    {
      var k := LiveAt(r, x);
      var was := if k < f then k else k - f - 1 + t;
      if k != f {
        assert r[k] == bs[was];
        Increasing(bs, lo, hi, if was < i then was else i, if was < i then i else was);
      }
    }
  }

  // ---------------------------------------------------------------- live allocations

  /** What the callers see: allocations lie inside the region, start on a line, have a positive length and
      do not overlap. */
  lemma LiveAllocations(bs: seq<Blk>, lo: int, hi: int, line: nat, x: Live, y: Live)
    requires Valid(bs, lo, hi) && line > 0 && Aligned(bs, line, lo)
    requires x in LiveOf(bs) && y in LiveOf(bs) && x != y
    ensures lo <= x.addr && 0 < x.size && x.addr + x.size <= hi && (x.addr - lo) % line == 0
    ensures x.addr + x.size <= y.addr || y.addr + y.size <= x.addr
  {
    var j := LiveAt(bs, x);
    var k := LiveAt(bs, y);
    assert Meets(bs[j], bs[j + 1], j + 1 == |bs| - 1);
    if j > 0 {
      Increasing(bs, lo, hi, 0, j);
    }
    if j + 1 < |bs| - 1 {
      Increasing(bs, lo, hi, j + 1, |bs| - 1);
    }
    if j + 1 < k {
      Increasing(bs, lo, hi, j + 1, k);
    } else if k + 1 < j {
      Increasing(bs, lo, hi, k + 1, j);
    }
  }

  /** The stretch [at, at + size) lies in the region and touches no live allocation. */
  ghost predicate Gap(bs: seq<Blk>, lo: int, hi: int, at: int, size: int) {
    && lo <= at && at + size <= hi
    && forall x | x in LiveOf(bs) :: at + size <= x.addr || x.addr + x.size <= at
  }

  lemma {:induction false} BlockOf(bs: seq<Blk>, lo: int, hi: int, at: int, k: nat) returns (i: nat)
    requires Valid(bs, lo, hi) && k < |bs| && bs[k].space <= at
    ensures k <= i < |bs| && bs[i].space <= at && (i < |bs| - 1 ==> at < bs[i + 1].space)
    decreases |bs| - k
  {
    if k == |bs| - 1 || at < bs[k + 1].space {
      i := k;
    } else {
      i := BlockOf(bs, lo, hi, at, k + 1);
    }
  }

  lemma FreeBlockIsGap(bs: seq<Blk>, lo: int, hi: int, i: nat, size: nat)
    requires Valid(bs, lo, hi) && i < |bs| && 0 < size <= bs[i].free
    ensures Gap(bs, lo, hi, bs[i].space, size)
  {
    if i > 0 {
      Increasing(bs, lo, hi, 0, i);
    }
    assert i < |bs| - 1 ==> Meets(bs[i], bs[i + 1], i + 1 == |bs| - 1);
    if i < |bs| - 2 {
      Increasing(bs, lo, hi, i + 1, |bs| - 1);
    }
    forall x | x in LiveOf(bs)
      ensures bs[i].space + size <= x.addr || x.addr + x.size <= bs[i].space
    {
      var k := LiveAt(bs, x);
      if k + 1 < i {
        Increasing(bs, lo, hi, k + 1, i);
      } else if i + 1 < k {
        Increasing(bs, lo, hi, i + 1, k);
      }
    }
  }

  lemma GapIsFreeBlock(bs: seq<Blk>, lo: int, hi: int, at: int, size: nat) returns (i: nat)
    requires Valid(bs, lo, hi) && 0 < size && Gap(bs, lo, hi, at, size)
    ensures i < |bs| && bs[i].free >= size && bs[i].space <= at
  {
    i := BlockOf(bs, lo, hi, at, 0);
    if i < |bs| - 1 {
      assert Meets(bs[i], bs[i + 1], i + 1 == |bs| - 1);
      if bs[i].free == 0 {
        LiveHas(bs, i);
        assert false;
      }
      assert Meets(bs[i + 1], bs[i + 2], i + 2 == |bs| - 1);
      LiveHas(bs, i + 1);
    }
  }

  /** A well-formed request is refused exactly when no stretch of that length is free anywhere in the
      region: the allocator never fails because of how it keeps its books. */
  lemma RefusedIffNoGap(bs: seq<Blk>, lo: int, hi: int, line: nat, size: nat)
    requires Valid(bs, lo, hi) && line > 0 && size > 0 && size % line == 0
    ensures Malloc(bs, line, size).1 == None <==> !exists at :: Gap(bs, lo, hi, at, size)
    ensures Malloc(bs, line, size).1 == None <==> forall k | 0 <= k < |bs| :: bs[k].free < size
  {
    var (bs', p) := Malloc(bs, line, size);
    if p.Some? {
      var i := if bs[|bs| - 1].free >= size then |bs| - 1 else FirstFit(bs, size, 0);
      FreeBlockIsGap(bs, lo, hi, i, size);
    } else {
      forall at
        ensures !Gap(bs, lo, hi, at, size)
      {
        if Gap(bs, lo, hi, at, size) {
          var i := GapIsFreeBlock(bs, lo, hi, at, size);
          assert false;
        }
      }
    }
  }

  /** Which stretch a request is given: the start of the free end of the region, if that is long enough, and otherwise the
      lowest that is free. */
  lemma WhichGap(bs: seq<Blk>, lo: int, hi: int, line: nat, size: nat)
    requires Valid(bs, lo, hi) && line > 0
    ensures var (bs', p) := Malloc(bs, line, size);
            var tail := bs[|bs| - 1].space;
            if size == 0 || size % line != 0 then p == None
            else if hi - tail >= size then p == Some(tail)
            else p.Some? ==> Gap(bs, lo, hi, p.value, size) && forall at | Gap(bs, lo, hi, at, size) :: p.value <= at
  {
    var (bs', p) := Malloc(bs, line, size);
    if size > 0 && bs[|bs| - 1].free < size && p.Some? {
      var i := FirstFit(bs, size, 0);
      FreeBlockIsGap(bs, lo, hi, i, size);
      forall at | Gap(bs, lo, hi, at, size)
        ensures p.value <= at
      {
        var j := GapIsFreeBlock(bs, lo, hi, at, size);
        if i < j {
          Increasing(bs, lo, hi, i, j);
        }
      }
    }
  }

  // ---------------------------------------------------------------- the list is a function of what is live

  lemma TailValid(bs: seq<Blk>, lo: int, hi: int)
    requires Valid(bs, lo, hi) && |bs| > 1
    ensures Valid(bs[1..], bs[1].space, hi) && lo < bs[1].space
  {
    assert Meets(bs[0], bs[1], 1 == |bs| - 1);
    forall k | 0 <= k < |bs[1..]| - 1
      ensures Meets(bs[1..][k], bs[1..][k + 1], k + 1 == |bs[1..]| - 1)
    {
      assert Meets(bs[k + 1], bs[k + 2], k + 2 == |bs| - 1);
    }
  }

  lemma LiveAbove(bs: seq<Blk>, lo: int, hi: int)
    requires Valid(bs, lo, hi)
    ensures forall x | x in LiveOf(bs) :: lo <= x.addr
  {
    forall x | x in LiveOf(bs)
      ensures lo <= x.addr
    {
      var k := LiveAt(bs, x);
      if k > 0 {
        Increasing(bs, lo, hi, 0, k);
      }
    }
  }

  /** The first used block of a valid list, which is its first or second one. */
  ghost function FirstUsed(bs: seq<Blk>): nat {
    if |bs| > 1 && bs[0].free > 0 then 1 else 0
  }

  lemma FirstUsedIsLeast(bs: seq<Blk>, lo: int, hi: int)
    requires Valid(bs, lo, hi) && |bs| > 1
    ensures var u := FirstUsed(bs);
            && u + 1 < |bs| && bs[u].free == 0
            && Live(bs[u].space, bs[u + 1].space - bs[u].space) in LiveOf(bs)
            && (forall x | x in LiveOf(bs) :: bs[u].space <= x.addr)
            && (forall x | x in LiveOf(bs) && x.addr == bs[u].space :: x.size == bs[u + 1].space - bs[u].space)
  {
    var u := FirstUsed(bs);
    assert Meets(bs[0], bs[1], 1 == |bs| - 1);
    LiveHas(bs, u);
    OnlyAt(bs, lo, hi, u);
    forall x | x in LiveOf(bs)
      ensures bs[u].space <= x.addr
    {
      var k := LiveAt(bs, x);
      if k > u {
        Increasing(bs, lo, hi, u, k);
      }
    }
  }

  /** Two valid lists over one region with the same allocations start alike. */
  lemma SameStart(bs: seq<Blk>, cs: seq<Blk>, lo: int, hi: int)
    requires Valid(bs, lo, hi) && Valid(cs, lo, hi) && LiveOf(bs) == LiveOf(cs)
    ensures |bs| > 1 <==> |cs| > 1
    ensures |bs| > 1 ==> bs[0] == cs[0] && bs[1].space == cs[1].space
  {
    if |bs| > 1 {
      FirstUsedIsLeast(bs, lo, hi);
    }
    if |cs| > 1 {
      FirstUsedIsLeast(cs, lo, hi);
    }
    if |bs| > 1 && |cs| > 1 {
      assert Meets(bs[0], bs[1], 1 == |bs| - 1) && Meets(cs[0], cs[1], 1 == |cs| - 1);
      assert bs[FirstUsed(bs)].space == cs[FirstUsed(cs)].space;
    }
  }

  /** The canonical form: region and live allocations determine the block list. */
  lemma {:induction false} Canonical(bs: seq<Blk>, cs: seq<Blk>, lo: int, hi: int)
    requires Valid(bs, lo, hi) && Valid(cs, lo, hi) && LiveOf(bs) == LiveOf(cs)
    ensures bs == cs
    decreases |bs|
  {
    SameStart(bs, cs, lo, hi);
    if |bs| > 1 {
      TailValid(bs, lo, hi);
      TailValid(cs, lo, hi);
      SameRest(bs, cs, lo, hi);
      Canonical(bs[1..], cs[1..], bs[1].space, hi);
      assert bs == [bs[0]] + bs[1..] && cs == [cs[0]] + cs[1..];
    }
  }

  lemma SameRest(bs: seq<Blk>, cs: seq<Blk>, lo: int, hi: int)
    requires Valid(bs, lo, hi) && Valid(cs, lo, hi) && LiveOf(bs) == LiveOf(cs)
    requires |bs| > 1 && |cs| > 1 && bs[0] == cs[0] && bs[1].space == cs[1].space
    requires Valid(bs[1..], bs[1].space, hi) && Valid(cs[1..], bs[1].space, hi) && lo < bs[1].space
    ensures LiveOf(bs[1..]) == LiveOf(cs[1..])
  {
    LiveAbove(bs[1..], bs[1].space, hi);
    LiveAbove(cs[1..], bs[1].space, hi);
    var first := if bs[0].free == 0 then {Live(bs[0].space, bs[1].space - bs[0].space)} else {};
    assert LiveOf(bs[1..]) == LiveOf(bs) - first;
    assert LiveOf(cs[1..]) == LiveOf(cs) - first;
  }

  /** Returning a fresh allocation at once restores the block list. */
  lemma MallocThenFree(bs: seq<Blk>, lo: int, hi: int, line: nat, size: nat)
    requires Valid(bs, lo, hi) && line > 0 && Aligned(bs, line, lo)
    ensures var (bs', p) := Malloc(bs, line, size);
            p.Some? ==> |bs'| > 0 && Free(bs', p.value) == bs
  {
    MallocKeeps(bs, lo, hi, line, size);
    var (bs', p) := Malloc(bs, line, size);
    if p.Some? {
      FreeKeeps(bs', lo, hi, line, p.value);
      assert Without(LiveOf(bs'), p.value) == LiveOf(bs);
      Canonical(Free(bs', p.value), bs, lo, hi);
    }
  }

  /** Freeing what is not live, for instance for the second time, changes nothing. */
  lemma FreeUnknown(bs: seq<Blk>, lo: int, hi: int, line: nat, ptr: int)
    requires Valid(bs, lo, hi) && line > 0 && Aligned(bs, line, lo)
    ensures Free(bs, ptr) == bs <==> forall x | x in LiveOf(bs) :: x.addr != ptr
    ensures |Free(bs, ptr)| > 0 && Free(Free(bs, ptr), ptr) == Free(bs, ptr)
  {
    FreeKeeps(bs, lo, hi, line, ptr);
    if forall x | x in LiveOf(bs) :: x.addr != ptr {
      assert Without(LiveOf(bs), ptr) == LiveOf(bs);
      Canonical(Free(bs, ptr), bs, lo, hi);
    }
    FreeKeeps(Free(bs, ptr), lo, hi, line, ptr);
    assert Without(LiveOf(Free(bs, ptr)), ptr) == LiveOf(Free(bs, ptr));
    Canonical(Free(Free(bs, ptr), ptr), Free(bs, ptr), lo, hi);
  }

  /** The order of frees is irrelevant. */
  lemma FreesCommute(bs: seq<Blk>, lo: int, hi: int, line: nat, p: int, q: int)
    requires Valid(bs, lo, hi) && line > 0 && Aligned(bs, line, lo)
    ensures |Free(bs, p)| > 0 && |Free(bs, q)| > 0 && Free(Free(bs, p), q) == Free(Free(bs, q), p)
  {
    FreeKeeps(bs, lo, hi, line, p);
    FreeKeeps(bs, lo, hi, line, q);
    FreeKeeps(Free(bs, p), lo, hi, line, q);
    FreeKeeps(Free(bs, q), lo, hi, line, p);
    assert Without(Without(LiveOf(bs), p), q) == Without(Without(LiveOf(bs), q), p);
    Canonical(Free(Free(bs, p), q), Free(Free(bs, q), p), lo, hi);
  }

  // ---------------------------------------------------------------- whole histories

  datatype Op = Get(size: nat) | Put(ptr: int)

  function Apply(bs: seq<Blk>, line: nat, op: Op): seq<Blk>
    requires |bs| > 0 && line > 0
  {
    match op
    case Get(size) => Malloc(bs, line, size).0
    case Put(ptr) => Free(bs, ptr)
  }

  ghost predicate History(bs: seq<seq<Blk>>, ops: seq<Op>, lo: int, size: nat, line: nat) {
    && line > 0 && |bs| == |ops| + 1 && bs[0] == Init(lo, size)
    && forall i | 0 <= i < |ops| :: |bs[i]| > 0 && bs[i + 1] == Apply(bs[i], line, ops[i])
  }

  lemma ApplyKeeps(bs: seq<Blk>, lo: int, hi: int, line: nat, op: Op)
    requires Valid(bs, lo, hi) && line > 0 && Aligned(bs, line, lo)
    ensures Valid(Apply(bs, line, op), lo, hi) && Aligned(Apply(bs, line, op), line, lo)
  {
    match op
    case Get(size) => MallocKeeps(bs, lo, hi, line, size);
    case Put(ptr) => FreeKeeps(bs, lo, hi, line, ptr);
  }

  lemma NothingLive(bs: seq<Blk>, lo: int, size: nat)
    requires Valid(bs, lo, lo + size) && LiveOf(bs) == {}
    ensures bs == Init(lo, size)
  {
    InitValid(lo, size);
    Canonical(bs, Init(lo, size), lo, lo + size);
  }

  /** After any calls whatever, the list is the canonical one for the allocations still live; when nothing
      is live it is the single block it began as. */
  lemma {:induction false} AlwaysValid(bs: seq<seq<Blk>>, ops: seq<Op>, lo: int, size: nat, line: nat, n: nat)
    requires History(bs, ops, lo, size, line) && n <= |ops|
    ensures Valid(bs[n], lo, lo + size) && Aligned(bs[n], line, lo)
    ensures LiveOf(bs[n]) == {} ==> bs[n] == Init(lo, size)
  {
    InitValid(lo, size);
    if n > 0 {
      AlwaysValid(bs, ops, lo, size, line, n - 1);
      ApplyKeeps(bs[n - 1], lo, lo + size, line, ops[n - 1]);
    }
    if LiveOf(bs[n]) == {} {
      NothingLive(bs[n], lo, size);
    }
  }
}