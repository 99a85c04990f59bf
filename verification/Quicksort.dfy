/** The fat-pivot quicksort of `RCCE_qsort.c`: insertion sort below seven elements, a sampled pivot, a
    four-pointer partition that parks keys equal to the pivot at both ends, two block swaps that bring them
    to the middle, and two recursive calls. Positions count elements, not bytes. */
module Quicksort {

  // ---------------------------------------------------------------- the comparison

  function IdCompare(v1: int, v2: int): int {
    if v1 < v2 then -1 else if v1 > v2 then 1 else 0
  }

  /** A total preorder, as a C comparison function. */
  ghost predicate Order<T(!new)>(cmp: (T, T) -> int) {
    && (forall x, y :: Turns(x, y, cmp))
    && (forall x, y, z :: Chains(x, y, z, cmp))
  }

  ghost predicate Turns<T>(x: T, y: T, cmp: (T, T) -> int) {
    cmp(x, y) < 0 <==> cmp(y, x) > 0
  }

  ghost predicate Chains<T>(x: T, y: T, z: T, cmp: (T, T) -> int) {
    cmp(x, y) <= 0 && cmp(y, z) <= 0 ==> cmp(x, z) <= 0
  }

  // ---------------------------------------------------------------- what sorting means

  ghost predicate SortedIn<T>(s: seq<T>, lo: nat, hi: nat, cmp: (T, T) -> int)
    requires hi <= |s|
  {
    forall i, j | lo <= i < j < hi :: cmp(s[i], s[j]) <= 0
  }

  /** `now` is `was` with the places `lo` to `hi` (exclusive) permuted. */
  ghost predicate Shuffled<T>(was: seq<T>, now: seq<T>, lo: nat, hi: nat)
    requires lo <= hi <= |was|
  {
    && |now| == |was|
    && now[..lo] == was[..lo] && now[hi..] == was[hi..]
    && multiset(now[lo..hi]) == multiset(was[lo..hi])
  }

  ghost function Swapped<T>(s: seq<T>, i: nat, j: nat): (r: seq<T>)
    requires i < |s| && j < |s|
    ensures |r| == |s|
  {
    s[i := s[j]][j := s[i]]
  }

  lemma SwapShuffles<T>(was: seq<T>, s: seq<T>, i: nat, j: nat, lo: nat, hi: nat)
    requires lo <= i < hi && lo <= j < hi <= |was| && Shuffled(was, s, lo, hi)
    ensures Shuffled(was, Swapped(s, i, j), lo, hi)
  {
    var m := s[lo..hi];
    assert Swapped(s, i, j)[lo..hi] == m[i - lo := m[j - lo]][j - lo := m[i - lo]];
  }

  lemma Widen<T>(was: seq<T>, now: seq<T>, lo: nat, hi: nat, l: nat, h: nat)
    requires l <= lo <= hi <= h <= |was| && Shuffled(was, now, lo, hi)
    ensures Shuffled(was, now, l, h)
  {
    assert was[l..h] == was[..lo][l..] + was[lo..hi] + was[hi..][..h - hi];
    assert now[l..h] == now[..lo][l..] + now[lo..hi] + now[hi..][..h - hi];
    assert now[..l] == now[..lo][..l] && was[..l] == was[..lo][..l];
    assert now[h..] == now[hi..][h - hi..] && was[h..] == was[hi..][h - hi..];
  }

  /** Whatever holds of all the keys in a stretch still holds when they are permuted. */
  lemma ShuffleKeeps<T>(was: seq<T>, now: seq<T>, lo: nat, hi: nat, p: T -> bool)
    requires lo <= hi <= |was| && Shuffled(was, now, lo, hi)
    requires forall k | lo <= k < hi :: p(was[k])
    ensures forall k | lo <= k < hi :: p(now[k])
  {
    forall k | lo <= k < hi
      ensures p(now[k])
    {
      assert now[k] == now[lo..hi][k - lo];
      assert now[k] in multiset(was[lo..hi]);
    }
  }

  ghost predicate Distinguishes<T>(keys: seq<T>, cmp: (T, T) -> int) {
    forall x, y | x in keys && y in keys && cmp(x, y) <= 0 && cmp(y, x) <= 0 :: x == y
  }

  lemma SameHead<T>(s: seq<T>, t: seq<T>, cmp: (T, T) -> int)
    requires SortedIn(s, 0, |s|, cmp) && SortedIn(t, 0, |t|, cmp) && multiset(s) == multiset(t)
    requires s != [] && t != [] && Distinguishes(s, cmp)
    ensures s[0] == t[0]
  {
    assert s[0] in multiset(t) && t[0] in multiset(s);
    var i :| 0 <= i < |t| && t[i] == s[0];
    var j :| 0 <= j < |s| && s[j] == t[0];
    if i > 0 && j > 0 {
      assert cmp(s[0], s[j]) <= 0 && cmp(t[0], t[i]) <= 0;
    }
  }

  lemma TailSorted<T>(s: seq<T>, cmp: (T, T) -> int)
    requires s != [] && SortedIn(s, 0, |s|, cmp)
    ensures SortedIn(s[1..], 0, |s| - 1, cmp) && (forall x | x in s[1..] :: x in s)
    ensures multiset(s[1..]) == multiset(s) - multiset{s[0]}
  {
    assert s == [s[0]] + s[1..];
  }

  /** For a comparison that tells all keys apart the sorted arrangement is unique. */
  lemma {:induction false} SortedUnique<T>(s: seq<T>, t: seq<T>, cmp: (T, T) -> int)
    requires SortedIn(s, 0, |s|, cmp) && SortedIn(t, 0, |t|, cmp) && multiset(s) == multiset(t)
    requires Distinguishes(s, cmp)
    ensures s == t
  {
    assert |multiset(s)| == |s| && |multiset(t)| == |t|;
    if s != [] {
      SameHead(s, t, cmp);
      TailSorted(s, cmp);
      TailSorted(t, cmp);
      SortedUnique(s[1..], t[1..], cmp);
    }
  }

  /** Sorting core identifiers has one possible outcome. */
  lemma IdsSortOneWay(s: seq<int>, t: seq<int>)
    requires SortedIn(s, 0, |s|, IdCompare) && SortedIn(t, 0, |t|, IdCompare) && multiset(s) == multiset(t)
    ensures s == t
  {
    SortedUnique(s, t, IdCompare);
  }

  // ---------------------------------------------------------------- swapping

  /** The contents before are passed in as `s`, those after handed back. */
  method Swap<T>(a: array<T>, i: nat, j: nat, ghost was: seq<T>, ghost s: seq<T>, ghost lo: nat, ghost hi: nat)
    returns (ghost t: seq<T>)
    requires s == a[..] && lo <= i < hi && lo <= j < hi <= |s| == |was| && Shuffled(was, s, lo, hi)
    modifies a
    ensures t == a[..] && t == Swapped(s, i, j) && Shuffled(was, t, lo, hi)
  {
    SwapShuffles(was, s, i, j, lo, hi);
    t := Swapped(s, i, j);
    var x := a[i];
    a[i] := a[j];
    a[j] := x;
    assert a[..] == t;
  }

  /** `s` with the `n` keys from `i` on exchanged, one by one, with the `n` keys from `j` on. */
  ghost function Exchange<T>(s: seq<T>, i: nat, j: nat, n: nat): (t: seq<T>)
    requires i + n <= j && j + n <= |s|
    ensures |t| == |s|
  {
    if n == 0 then s else Swapped(Exchange(s, i, j, n - 1), i + n - 1, j + n - 1)
  }

  lemma {:induction false} Exchanged<T>(s: seq<T>, i: nat, j: nat, n: nat)
    requires i + n <= j && j + n <= |s|
    ensures forall k | 0 <= k < |s| && !(i <= k < i + n) && !(j <= k < j + n) :: Exchange(s, i, j, n)[k] == s[k]
    ensures forall k | i <= k < i + n :: Exchange(s, i, j, n)[k] == s[k - i + j]
    ensures forall k | j <= k < j + n :: Exchange(s, i, j, n)[k] == s[k - j + i]
  {
    if n > 0 {
      Exchanged(s, i, j, n - 1);
    }
  }

  lemma ExchangeNext<T>(s: seq<T>, i: nat, j: nat, m: nat)
    requires i + m < j && j + m < |s|
    ensures Exchange(s, i, j, m + 1) == Swapped(Exchange(s, i, j, m), i + m, j + m)
  {
  }

  /** Exchanges the `n` keys from `i` on with the `n` keys from `j` on. */
  method VecSwap<T>(a: array<T>, i: nat, j: nat, n: nat, ghost was: seq<T>, ghost s: seq<T>, ghost lo: nat, ghost hi: nat)
    returns (ghost t: seq<T>)
    requires s == a[..] && lo <= i && i + n <= j && j + n <= hi <= |s| == |was| && Shuffled(was, s, lo, hi)
    modifies a
    ensures t == a[..] && t == Exchange(s, i, j, n) && Shuffled(was, t, lo, hi)
  {
    var m := 0;
    t := s;
    while m < n
      invariant m <= n && t == a[..] && t == Exchange(s, i, j, m)
      invariant Shuffled(was, t, lo, hi)
    {
      ExchangeNext(s, i, j, m);
      t := Swap(a, i + m, j + m, was, t, lo, hi);
      m := m + 1;
    }
  }

  // ---------------------------------------------------------------- fewer than seven keys

  /** Sorted up to `m`, except that the key at `p` has not yet sunk far enough. */
  ghost predicate SortedBut<T>(s: seq<T>, cmp: (T, T) -> int, lo: nat, m: nat, p: nat)
    requires m <= |s|
  {
    forall i, j | lo <= i < j < m && j != p :: cmp(s[i], s[j]) <= 0
  }

  lemma SinkOne<T(!new)>(s: seq<T>, cmp: (T, T) -> int, lo: nat, m: nat, p: nat)
    requires Order(cmp) && lo < p < m <= |s| && SortedBut(s, cmp, lo, m, p) && cmp(s[p - 1], s[p]) > 0
    ensures SortedBut(Swapped(s, p, p - 1), cmp, lo, m, p - 1)
  {
    assert Turns(s[p], s[p - 1], cmp);
  }

  lemma Sunk<T(!new)>(s: seq<T>, cmp: (T, T) -> int, lo: nat, m: nat, p: nat)
    requires Order(cmp) && lo <= p < m <= |s| && SortedBut(s, cmp, lo, m, p)
    requires p > lo ==> cmp(s[p - 1], s[p]) <= 0
    ensures SortedIn(s, lo, m, cmp)
  {
    forall i, j | lo <= i < j < m
      ensures cmp(s[i], s[j]) <= 0
    {
      if j == p && i < p - 1 {
        assert Chains(s[i], s[p - 1], s[p], cmp);
      }
    }
  }

  method InsertionSort<T(!new)>(a: array<T>, lo: nat, hi: nat, cmp: (T, T) -> int)
    requires Order(cmp) && lo <= hi <= a.Length
    modifies a
    ensures Shuffled(old(a[..]), a[..], lo, hi) && SortedIn(a[..], lo, hi, cmp)
  {
    ghost var was := a[..];
    ghost var s := was;
    var pm := lo + 1;
    while pm < hi
      invariant lo < pm && s == a[..]
      invariant Shuffled(was, s, lo, hi)
      invariant if pm <= hi then SortedIn(s, lo, pm, cmp) else lo == hi
    {
      s := Sink(a, lo, pm, was, s, hi, cmp);
      pm := pm + 1;
    }
  }

  method Sink<T(!new)>(a: array<T>, lo: nat, pm: nat, ghost was: seq<T>, ghost s: seq<T>, ghost hi: nat,
                       cmp: (T, T) -> int)
    returns (ghost t: seq<T>)
    requires s == a[..] && Order(cmp) && lo <= pm < hi <= |s| == |was|
    requires Shuffled(was, s, lo, hi) && SortedIn(s, lo, pm, cmp)
    modifies a
    ensures t == a[..] && Shuffled(was, t, lo, hi) && SortedIn(t, lo, pm + 1, cmp)
  {
    var pl := pm;
    t := s;
    while pl > lo && cmp(a[pl - 1], a[pl]) > 0
      invariant lo <= pl <= pm && t == a[..]
      invariant Shuffled(was, t, lo, hi)
      invariant SortedBut(t, cmp, lo, pm + 1, pl)
    {
      SinkOne(t, cmp, lo, pm + 1, pl);
      t := Swap(a, pl, pl - 1, was, t, lo, hi);
      pl := pl - 1;
    }
    Sunk(t, cmp, lo, pm + 1, pl);
  }

  // ---------------------------------------------------------------- the pivot

  /** Index of the median of three keys. */
  function Med3<T>(s: seq<T>, i: nat, j: nat, k: nat, cmp: (T, T) -> int): (r: nat)
    requires i < |s| && j < |s| && k < |s|
    ensures r == i || r == j || r == k
  {
    if cmp(s[i], s[j]) < 0 then
      if cmp(s[j], s[k]) < 0 then j else if cmp(s[i], s[k]) < 0 then k else i
    else
      if cmp(s[j], s[k]) > 0 then j else if cmp(s[i], s[k]) > 0 then k else i
  }

  ghost predicate Between<T>(x: T, y: T, z: T, cmp: (T, T) -> int) {
    cmp(x, y) <= 0 <= cmp(z, y) || cmp(z, y) <= 0 <= cmp(x, y)
  }

  lemma Med3IsMedian<T(!new)>(s: seq<T>, i: nat, j: nat, k: nat, cmp: (T, T) -> int)
    requires Order(cmp) && i < |s| && j < |s| && k < |s|
    ensures var r := Med3(s, i, j, k, cmp);
            || (r == i && Between(s[j], s[i], s[k], cmp))
            || (r == j && Between(s[i], s[j], s[k], cmp))
            || (r == k && Between(s[i], s[k], s[j], cmp))
  {
    assert Turns(s[i], s[j], cmp) && Turns(s[i], s[k], cmp) && Turns(s[j], s[k], cmp);
    assert Turns(s[j], s[i], cmp) && Turns(s[k], s[i], cmp) && Turns(s[k], s[j], cmp);
  }

  /** The median of the medians of three groups of three spread over the stretch. */
  function Ninther<T>(s: seq<T>, lo: nat, n: nat, cmp: (T, T) -> int): (r: nat)
    requires n > 40 && lo + n <= |s|
    ensures lo <= r < lo + n
  {
    var d, m, h := n / 8, lo + n / 2, lo + n - 1;
    assert 0 < d && 2 * d < n / 2 && 8 * d <= n;
    Med3(s, Med3(s, lo, lo + d, lo + 2 * d, cmp), Med3(s, m - d, m, m + d, cmp), Med3(s, h - 2 * d, h - d, h, cmp), cmp)
  }

  /** Middle key, median of three, or median of nine. */
  function ChoosePivot<T>(s: seq<T>, lo: nat, n: nat, cmp: (T, T) -> int): (pm: nat)
    requires n >= 7 && lo + n <= |s|
    ensures lo <= pm < lo + n
  {
    if n == 7 then lo + n / 2
    else if n <= 40 then Med3(s, lo, lo + n / 2, lo + n - 1, cmp)
    else Ninther(s, lo, n, cmp)
  }

  /** Where the pivot is kept while partitioning: swapped to the front of the stretch, or in a copy when
      a key is exactly one machine word. */
  datatype Pivot<T> = InPlace | Copy(key: T)

  function Key<T>(pv: Pivot<T>, a: array<T>, lo: nat): T
    requires lo < a.Length
    reads a
  {
    match pv
    case InPlace => a[lo]
    case Copy(key) => key
  }

  /** A pivot kept in place stays in place: it is the first key to be parked. */
  ghost predicate Kept<T>(pv: Pivot<T>, s: seq<T>, p: T, lo: nat, pa: nat, pb: nat)
    requires lo < |s|
  {
    match pv
    case InPlace => s[lo] == p && (pb > lo ==> pa > lo)
    case Copy(key) => key == p
  }

  // ---------------------------------------------------------------- the partition

  /** From `lo`: keys equal to `p`, smaller keys, keys not looked at yet, larger keys, keys equal to `p`. */
  ghost predicate Parts<T>(s: seq<T>, p: T, cmp: (T, T) -> int, lo: nat, pa: nat, pb: nat, pc: int, pd: int, hi: nat) {
    && lo <= pa <= pb <= pc + 1 <= pd + 1 <= hi <= |s|
    && (forall k | lo <= k < pa :: cmp(s[k], p) == 0)
    && (forall k | pa <= k < pb :: cmp(s[k], p) < 0)
    && (forall k | pc < k <= pd :: cmp(s[k], p) > 0)
    && (forall k | pd < k < hi :: cmp(s[k], p) == 0)
  }

  lemma ParkLeft<T>(s: seq<T>, p: T, cmp: (T, T) -> int, lo: nat, pa: nat, pb: nat, pc: int, pd: int, hi: nat)
    requires Parts(s, p, cmp, lo, pa, pb, pc, pd, hi) && pb <= pc && cmp(s[pb], p) == 0
    ensures Parts(Swapped(s, pa, pb), p, cmp, lo, pa + 1, pb + 1, pc, pd, hi)
  {
  }

  lemma ParkRight<T>(s: seq<T>, p: T, cmp: (T, T) -> int, lo: nat, pa: nat, pb: nat, pc: int, pd: int, hi: nat)
    requires Parts(s, p, cmp, lo, pa, pb, pc, pd, hi) && pb <= pc && cmp(s[pc], p) == 0
    ensures Parts(Swapped(s, pc, pd), p, cmp, lo, pa, pb, pc - 1, pd - 1, hi)
  {
  }

  lemma Cross<T>(s: seq<T>, p: T, cmp: (T, T) -> int, lo: nat, pa: nat, pb: nat, pc: int, pd: int, hi: nat)
    requires Parts(s, p, cmp, lo, pa, pb, pc, pd, hi) && pb <= pc && cmp(s[pb], p) > 0 && cmp(s[pc], p) < 0
    ensures pb < pc && Parts(Swapped(s, pb, pc), p, cmp, lo, pa, pb + 1, pc - 1, pd, hi)
  {
  }

  /** From the left, over keys not larger than the pivot. */
  method ScanUp<T(!new)>(a: array<T>, pv: Pivot<T>, cmp: (T, T) -> int, ghost was: seq<T>, ghost s: seq<T>, ghost p: T,
                         lo: nat, pa0: nat, pb0: nat, pc: int, ghost pd: int, ghost hi: nat)
    returns (pa: nat, pb: nat, ghost t: seq<T>)
    requires s == a[..] && Order(cmp) && lo < hi <= |s| == |was| && Shuffled(was, s, lo, hi)
    requires Parts(s, p, cmp, lo, pa0, pb0, pc, pd, hi) && Kept(pv, s, p, lo, pa0, pb0)
    modifies a
    ensures t == a[..] && Shuffled(was, t, lo, hi) && pb0 <= pb
    ensures Parts(t, p, cmp, lo, pa, pb, pc, pd, hi) && Kept(pv, t, p, lo, pa, pb)
    ensures pb <= pc ==> cmp(t[pb], p) > 0
  {
    pa, pb, t := pa0, pb0, s;
    while pb <= pc && cmp(a[pb], Key(pv, a, lo)) <= 0
      invariant t == a[..] && Shuffled(was, t, lo, hi) && pb0 <= pb
      invariant Parts(t, p, cmp, lo, pa, pb, pc, pd, hi) && Kept(pv, t, p, lo, pa, pb)
      decreases pc - pb
    {
      assert Turns(p, p, cmp);
      if cmp(a[pb], Key(pv, a, lo)) == 0 {
        ParkLeft(t, p, cmp, lo, pa, pb, pc, pd, hi);
        t := Swap(a, pa, pb, was, t, lo, hi);
        pa := pa + 1;
      }
      pb := pb + 1;
    }
  }

  /** From the right, over keys not smaller than the pivot. */
  method ScanDown<T(!new)>(a: array<T>, pv: Pivot<T>, cmp: (T, T) -> int, ghost was: seq<T>, ghost s: seq<T>,
                           ghost p: T, lo: nat, ghost pa: nat, pb: nat, pc0: int, pd0: int, ghost hi: nat)
    returns (pc: int, pd: int, ghost t: seq<T>)
    requires s == a[..] && Order(cmp) && lo < hi <= |s| == |was| && Shuffled(was, s, lo, hi)
    requires Parts(s, p, cmp, lo, pa, pb, pc0, pd0, hi) && Kept(pv, s, p, lo, pa, pb)
    requires pb <= pc0 ==> cmp(s[pb], p) > 0
    modifies a
    ensures t == a[..] && Shuffled(was, t, lo, hi) && pc <= pc0
    ensures Parts(t, p, cmp, lo, pa, pb, pc, pd, hi) && Kept(pv, t, p, lo, pa, pb)
    ensures pb <= pc ==> cmp(t[pb], p) > 0 && cmp(t[pc], p) < 0
  {
    pc, pd, t := pc0, pd0, s;
    assert Turns(p, p, cmp);
    while pb <= pc && cmp(a[pc], Key(pv, a, lo)) >= 0
      invariant t == a[..] && Shuffled(was, t, lo, hi) && pc <= pc0
      invariant Parts(t, p, cmp, lo, pa, pb, pc, pd, hi) && Kept(pv, t, p, lo, pa, pb)
      invariant pb <= pc ==> cmp(t[pb], p) > 0
      decreases pc - pb
    {
      if cmp(a[pc], Key(pv, a, lo)) == 0 {
        ParkRight(t, p, cmp, lo, pa, pb, pc, pd, hi);
        t := Swap(a, pc, pd, was, t, lo, hi);
        pd := pd - 1;
      }
      pc := pc - 1;
    }
  }

  method Partition<T(!new)>(a: array<T>, pv: Pivot<T>, cmp: (T, T) -> int, ghost was: seq<T>, ghost s: seq<T>,
                            ghost p: T, lo: nat, hi: nat)
    returns (pa: nat, pb: nat, pc: int, pd: int, ghost t: seq<T>)
    requires s == a[..] && Order(cmp) && lo < hi <= |s| == |was| && Shuffled(was, s, lo, hi)
    requires Kept(pv, s, p, lo, lo, lo)
    modifies a
    ensures t == a[..] && Shuffled(was, t, lo, hi)
    ensures pb == pc + 1 && Parts(t, p, cmp, lo, pa, pb, pc, pd, hi)
  {
    pa, pb, pc, pd, t := lo, lo, hi - 1, hi - 1, s;
    while true
      invariant t == a[..] && Shuffled(was, t, lo, hi)
      invariant Parts(t, p, cmp, lo, pa, pb, pc, pd, hi) && Kept(pv, t, p, lo, pa, pb)
      decreases pc - pb + 1
    {
      pa, pb, t := ScanUp(a, pv, cmp, was, t, p, lo, pa, pb, pc, pd, hi);
      pc, pd, t := ScanDown(a, pv, cmp, was, t, p, lo, pa, pb, pc, pd, hi);
      if pb > pc {
        break;
      }
      assert Turns(p, p, cmp);
      Cross(t, p, cmp, lo, pa, pb, pc, pd, hi);
      t := Swap(a, pb, pc, was, t, lo, hi);
      pb, pc := pb + 1, pc - 1;
    }
  }

  /** Smaller keys, keys equal to `p`, larger keys. */
  ghost predicate Split<T>(s: seq<T>, p: T, cmp: (T, T) -> int, lo: nat, l: nat, r: nat, hi: nat) {
    && lo <= l <= r <= hi <= |s|
    && (forall k | lo <= k < l :: cmp(s[k], p) < 0)
    && (forall k | l <= k < r :: cmp(s[k], p) == 0)
    && (forall k | r <= k < hi :: cmp(s[k], p) > 0)
  }

  function Lesser(x: nat, y: nat): nat {
    if x <= y then x else y
  }

  lemma LeftGathered<T>(s: seq<T>, t: seq<T>, p: T, cmp: (T, T) -> int, lo: nat, pa: nat, pb: nat, n: nat)
    requires lo <= pa <= pb <= |s| && n == Lesser(pa - lo, pb - pa)
    requires t == Exchange(s, lo, pb - n, n)
    requires forall k | lo <= k < pa :: cmp(s[k], p) == 0
    requires forall k | pa <= k < pb :: cmp(s[k], p) < 0
    ensures forall k | lo <= k < lo + (pb - pa) :: cmp(t[k], p) < 0
    ensures forall k | lo + (pb - pa) <= k < pb :: cmp(t[k], p) == 0
    ensures forall k | pb <= k < |s| :: t[k] == s[k]
  {
    Exchanged(s, lo, pb - n, n);
  }

  lemma RightGathered<T>(s: seq<T>, t: seq<T>, p: T, cmp: (T, T) -> int, pb: nat, pd: int, hi: nat, n: nat)
    requires pb <= pd + 1 <= hi <= |s| && n == Lesser(pd + 1 - pb, hi - pd - 1)
    requires t == Exchange(s, pb, hi - n, n)
    requires forall k | pb <= k <= pd :: cmp(s[k], p) > 0
    requires forall k | pd < k < hi :: cmp(s[k], p) == 0
    ensures forall k | pb <= k < hi - (pd + 1 - pb) :: cmp(t[k], p) == 0
    ensures forall k | hi - (pd + 1 - pb) <= k < hi :: cmp(t[k], p) > 0
    ensures forall k | 0 <= k < pb :: t[k] == s[k]
  {
    Exchanged(s, pb, hi - n, n);
  }

  /** The keys parked on the left are in the middle, those on the right are not yet. */
  ghost predicate HalfGathered<T>(s: seq<T>, p: T, cmp: (T, T) -> int, lo: nat, l: nat, pb: nat, pd: int, hi: nat) {
    && lo <= l <= pb <= pd + 1 <= hi <= |s|
    && (forall k | lo <= k < l :: cmp(s[k], p) < 0)
    && (forall k | l <= k < pb :: cmp(s[k], p) == 0)
    && (forall k | pb <= k <= pd :: cmp(s[k], p) > 0)
    && (forall k | pd < k < hi :: cmp(s[k], p) == 0)
  }

  lemma LeftHalf<T>(s: seq<T>, t: seq<T>, p: T, cmp: (T, T) -> int, lo: nat, pa: nat, pb: nat, pc: int, pd: int,
                    hi: nat, l: nat, j: nat, n: nat)
    requires pb == pc + 1 && Parts(s, p, cmp, lo, pa, pb, pc, pd, hi)
    requires n == Lesser(pa - lo, pb - pa) && j == pb - n && l == lo + (pb - pa) && t == Exchange(s, lo, j, n)
    ensures HalfGathered(t, p, cmp, lo, l, pb, pd, hi)
  {
    LeftGathered(s, t, p, cmp, lo, pa, pb, n);
  }

  lemma RightHalf<T>(s: seq<T>, t: seq<T>, p: T, cmp: (T, T) -> int, lo: nat, l: nat, pb: nat, pd: int, hi: nat,
                     r: nat, j: nat, n: nat)
    requires HalfGathered(s, p, cmp, lo, l, pb, pd, hi)
    requires n == Lesser(pd + 1 - pb, hi - pd - 1) && j == hi - n && r == hi - (pd + 1 - pb) && t == Exchange(s, pb, j, n)
    ensures Split(t, p, cmp, lo, l, r, hi)
  {
    RightGathered(s, t, p, cmp, pb, pd, hi, n);
  }

  /** Brings the keys parked on the left, then those parked on the right, to the middle. */
  method Gather<T>(a: array<T>, cmp: (T, T) -> int, ghost was: seq<T>, ghost s: seq<T>, ghost p: T,
                   lo: nat, pa: nat, pb: nat, pc: int, pd: int, hi: nat)
    returns (l: nat, r: nat, ghost t: seq<T>)
    requires s == a[..] && lo < hi <= |s| == |was| && Shuffled(was, s, lo, hi)
    requires pb == pc + 1 && Parts(s, p, cmp, lo, pa, pb, pc, pd, hi)
    modifies a
    ensures t == a[..] && Shuffled(was, t, lo, hi)
    ensures Split(t, p, cmp, lo, l, r, hi)
  {
    l, r := lo + (pb - pa), hi - (pd - pc);
    var n := Lesser(pa - lo, pb - pa);
    var j := pb - n;
    ghost var u := VecSwap(a, lo, j, n, was, s, lo, hi);
    LeftHalf(s, u, p, cmp, lo, pa, pb, pc, pd, hi, l, j, n);
    n := Lesser(pd - pc, hi - pd - 1);
    j := hi - n;
    t := VecSwap(a, pb, j, n, was, u, lo, hi);
    RightHalf(u, t, p, cmp, lo, l, pb, pd, hi, r, j, n);
  }

  // ---------------------------------------------------------------- the whole sort

  lemma SplitSorted<T(!new)>(s: seq<T>, p: T, cmp: (T, T) -> int, lo: nat, l: nat, r: nat, hi: nat)
    requires Order(cmp) && Split(s, p, cmp, lo, l, r, hi)
    requires SortedIn(s, lo, l, cmp) && SortedIn(s, r, hi, cmp)
    ensures SortedIn(s, lo, hi, cmp)
  {
    forall i, j | lo <= i < j < hi
      ensures cmp(s[i], s[j]) <= 0
    {
      assert Chains(s[i], p, s[j], cmp) && Turns(p, s[j], cmp) && Turns(s[j], p, cmp);
    }
  }

  lemma SomeEqual<T(!new)>(was: seq<T>, s: seq<T>, p: T, cmp: (T, T) -> int, lo: nat, l: nat, r: nat, hi: nat,
                            pm: nat)
    requires Order(cmp) && Split(s, p, cmp, lo, l, r, hi) && hi <= |was| && Shuffled(was, s, lo, hi)
    requires lo <= pm < hi && p == was[pm]
    ensures l < r
  {
    assert p == was[lo..hi][pm - lo];
    assert p in multiset(s[lo..hi]);
    var k :| 0 <= k < |s[lo..hi]| && s[lo..hi][k] == p;
    assert s[lo + k] == p && Turns(p, p, cmp);
  }

  /** Sorting one side of a split leaves it a split. */
  lemma StillSplit<T>(s: seq<T>, t: seq<T>, p: T, cmp: (T, T) -> int, lo: nat, l: nat, r: nat, hi: nat)
    requires Split(s, p, cmp, lo, l, r, hi)
    requires Shuffled(s, t, lo, l) || Shuffled(s, t, r, hi)
    ensures Split(t, p, cmp, lo, l, r, hi)
  {
    if Shuffled(s, t, lo, l) {
      ShuffleKeeps(s, t, lo, l, x => cmp(x, p) < 0);
      assert forall k | l <= k < hi :: t[k] == t[l..][k - l] == s[l..][k - l] == s[k];
    } else {
      ShuffleKeeps(s, t, r, hi, x => cmp(x, p) > 0);
      assert forall k | lo <= k < r :: t[k] == t[..r][k] == s[..r][k] == s[k];
    }
  }

  /** PVINIT. `wordKeys` says that a key is one aligned machine word. */
  method SetPivot<T>(a: array<T>, pm: nat, lo: nat, hi: nat, wordKeys: bool)
    returns (pv: Pivot<T>, ghost t: seq<T>)
    requires lo <= pm < hi <= a.Length
    modifies a
    ensures t == a[..] && Shuffled(old(a[..]), t, lo, hi) && Kept(pv, t, old(a[pm]), lo, lo, lo)
  {
    t := a[..];
    if wordKeys {
      pv := Copy(a[pm]);
    } else {
      pv := InPlace;
      t := Swap(a, lo, pm, t, t, lo, hi);
    }
  }

  /** Everything before the recursive calls: the ends of the two stretches still to be sorted. */
  method Divide<T(!new)>(a: array<T>, lo: nat, hi: nat, wordKeys: bool, cmp: (T, T) -> int)
    returns (l: nat, r: nat, ghost p: T)
    requires Order(cmp) && lo + 7 <= hi <= a.Length
    modifies a
    ensures Shuffled(old(a[..]), a[..], lo, hi)
    ensures l < r && Split(a[..], p, cmp, lo, l, r, hi)
    ensures p == old(a[..])[ChoosePivot(old(a[..]), lo, hi - lo, cmp)]
  {
    ghost var was := a[..];
    var pm := ChoosePivot(a[..], lo, hi - lo, cmp);
    p := a[pm];
    var pv, t0 := SetPivot(a, pm, lo, hi, wordKeys);
    var pa, pb, pc, pd, t1 := Partition(a, pv, cmp, was, t0, p, lo, hi);
    ghost var t;
    l, r, t := Gather(a, cmp, was, t1, p, lo, pa, pb, pc, pd, hi);
    SomeEqual(was, t, p, cmp, lo, l, r, hi, pm);
  }

  lemma Chain<T>(s: seq<T>, t: seq<T>, u: seq<T>, lo: nat, hi: nat, l: nat, h: nat)
    requires lo <= l <= h <= hi <= |s| && Shuffled(s, t, lo, hi) && Shuffled(t, u, l, h)
    ensures Shuffled(s, u, lo, hi)
  {
    Widen(t, u, l, h, lo, hi);
  }

  lemma SortedElsewhere<T>(s: seq<T>, t: seq<T>, cmp: (T, T) -> int, lo: nat, l: nat, r: nat, hi: nat)
    requires lo <= l <= r <= hi <= |s| && Shuffled(s, t, r, hi) && SortedIn(s, lo, l, cmp)
    ensures SortedIn(t, lo, l, cmp)
  {
    assert forall k | lo <= k < l :: t[k] == t[..r][k] == s[..r][k] == s[k];
  }

  /** The array before, after the division, and after each of the recursive calls. */
  lemma Assembled<T(!new)>(s0: seq<T>, s1: seq<T>, s2: seq<T>, s3: seq<T>, p: T, cmp: (T, T) -> int,
                           lo: nat, l: nat, r: nat, hi: nat)
    requires Order(cmp) && lo <= l <= r <= hi <= |s0|
    requires Shuffled(s0, s1, lo, hi) && Split(s1, p, cmp, lo, l, r, hi)
    requires Shuffled(s1, s2, lo, l) && SortedIn(s2, lo, l, cmp)
    requires Shuffled(s2, s3, r, hi) && SortedIn(s3, r, hi, cmp)
    ensures Shuffled(s0, s3, lo, hi) && SortedIn(s3, lo, hi, cmp)
  {
    StillSplit(s1, s2, p, cmp, lo, l, r, hi);
    StillSplit(s2, s3, p, cmp, lo, l, r, hi);
    Chain(s0, s1, s2, lo, hi, lo, l);
    Chain(s0, s2, s3, lo, hi, r, hi);
    SortedElsewhere(s2, s3, cmp, lo, l, r, hi);
    SplitSorted(s3, p, cmp, lo, l, r, hi);
  }

  /** RCCE_qsort on the keys from `lo` to `hi` (exclusive). */
  method QSort<T(!new)>(a: array<T>, lo: nat, hi: nat, wordKeys: bool, cmp: (T, T) -> int)
    requires Order(cmp) && lo <= hi <= a.Length
    modifies a
    ensures Shuffled(old(a[..]), a[..], lo, hi)
    ensures SortedIn(a[..], lo, hi, cmp)
    decreases hi - lo
  {
    if hi - lo < 7 {
      InsertionSort(a, lo, hi, cmp);
      return;
    }
    ghost var s0 := a[..];
    var l, r, p := Divide(a, lo, hi, wordKeys, cmp);
    ghost var s1 := a[..];
    if l - lo > 1 {
      QSort(a, lo, l, wordKeys, cmp);
    }
    ghost var s2 := a[..];
    if hi - r > 1 {
      QSort(a, r, hi, wordKeys, cmp);
    }
    Assembled(s0, s1, s2, a[..], p, cmp, lo, l, r, hi);
  }
}
