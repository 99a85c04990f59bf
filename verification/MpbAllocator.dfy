/** The allocator as the library keeps it: block headers on a circular list reached through its tail.
    The methods are proved to act on the list, read from the block after the tail, as the operations of
    MpbBlocks do on values. `line` is 32 for the MPB and 1 for off-chip shared memory. */
module MpbAllocator {
  import opened MpbBlocks
  import opened Wrappers

  class Block {
    var freeSize: int
    var space: int
    var next: Block?

    constructor (freeSize: int, space: int)
      ensures this.freeSize == freeSize && this.space == space && next == null
    {
      this.freeSize, this.space, next := freeSize, space, null;
    }
  }

  ghost predicate Distinct(s: seq<Block>) {
    forall i, j | 0 <= i < j < |s| :: s[i] != s[j]
  }

  lemma InsertDistinct(s: seq<Block>, i: nat, x: Block)
    requires i < |s| && Distinct(s) && x !in s
    ensures Distinct(Insert(s, i, x))
  {
  }

  lemma RemoveDistinct(s: seq<Block>, i: nat, j: nat)
    requires i <= j <= |s| && Distinct(s)
    ensures Distinct(Remove(s, i, j))
  {
  }

  /** The circle with `x` put in after place `i`. */
  ghost function Insert(s: seq<Block>, i: nat, x: Block): (r: seq<Block>)
    requires i < |s|
    ensures |r| == |s| + 1
    ensures forall k | 0 <= k < |r| :: r[k] == if k <= i then s[k] else if k == i + 1 then x else s[k - 1]
    ensures forall b | b in r :: b in s || b == x
  {
    s[..i + 1] + [x] + s[i + 1..]
  }

  /** The circle without places `i` to `j` (exclusive). */
  ghost function Remove(s: seq<Block>, i: nat, j: nat): (r: seq<Block>)
    requires i <= j <= |s|
    ensures |r| == |s| - (j - i)
    ensures forall k | 0 <= k < |r| :: r[k] == if k < i then s[k] else s[k + j - i]
    ensures forall b | b in r :: b in s
  {
    s[..i] + s[j..]
  }

  /** Block `i` wholly free. */
  ghost function Released(bs: seq<Blk>, i: nat): (r: seq<Blk>)
    requires i + 1 < |bs|
    ensures |r| == |bs|
  {
    bs[i := Blk(bs[i].space, bs[i + 1].space - bs[i].space)]
  }

  /** Block `i`, free, joined to its free neighbours. */
  ghost function Coalesced(bs: seq<Blk>, i: nat): seq<Blk>
    requires i + 1 < |bs|
  {
    var joinsRight := bs[i + 1].free > 0 || i + 1 == |bs| - 1;
    if i > 0 && bs[i - 1].free > 0 then
      if joinsRight then
        bs[..i - 1] + [Blk(bs[i - 1].space, bs[i - 1].free + bs[i].free + bs[i + 1].free)] + bs[i + 2..]
      else
        bs[..i - 1] + [Blk(bs[i - 1].space, bs[i - 1].free + bs[i].free)] + bs[i + 1..]
    else if joinsRight then
      bs[..i] + [Blk(bs[i].space, bs[i].free + bs[i + 1].free)] + bs[i + 2..]
    else
      bs
  }

  /** Slices that leave out block `i` do not see it change. */
  lemma SlicesKept(bs: seq<Blk>, i: nat, x: Blk)
    requires i + 1 < |bs|
    ensures var r := bs[i := x]; r[i + 1..] == bs[i + 1..] && r[i + 2..] == bs[i + 2..] && r[..i] == bs[..i]
    ensures i > 0 ==> bs[i := x][..i - 1] == bs[..i - 1]
  {
  }

  lemma GrownLast(bs: seq<Blk>, i: nat, j: nat, x: Blk)
    requires 0 < i <= j <= |bs|
    ensures (bs[..i] + bs[j..])[i - 1 := x] == bs[..i - 1] + [x] + bs[j..]
  {
  }

  lemma FreeIs(bs: seq<Blk>, ptr: int, i: nat)
    requires |bs| > 0 && i == Find(bs, ptr, 0)
    ensures MpbBlocks.Free(bs, ptr) == if i == |bs| - 1 then bs else Coalesced(Released(bs, i), i)
  {
    if i < |bs| - 1 {
      var x := Blk(bs[i].space, bs[i + 1].space - bs[i].space);
      var r := Released(bs, i);
      SlicesKept(bs, i, x);
      assert r[i] == x && r[i + 1] == bs[i + 1] && (i > 0 ==> r[i - 1] == bs[i - 1]);
      if i > 0 && bs[i - 1].free > 0 {
        JoinedLeft(bs, ptr, i, x, r);
      } else {
        NotJoinedLeft(bs, ptr, i, x, r);
      }
    }
  }

  lemma JoinedLeft(bs: seq<Blk>, ptr: int, i: nat, x: Blk, r: seq<Blk>)
    requires 0 < i < |bs| - 1 && i == Find(bs, ptr, 0) && bs[i - 1].free > 0 && |r| == |bs|
    requires x == Blk(bs[i].space, bs[i + 1].space - bs[i].space)
    requires r[i] == x && r[i + 1] == bs[i + 1] && r[i - 1] == bs[i - 1]
    requires r[..i - 1] == bs[..i - 1] && r[i + 1..] == bs[i + 1..] && r[i + 2..] == bs[i + 2..]
    ensures MpbBlocks.Free(bs, ptr) == Coalesced(r, i)
  {
  }

  lemma NotJoinedLeft(bs: seq<Blk>, ptr: int, i: nat, x: Blk, r: seq<Blk>)
    requires i < |bs| - 1 && i == Find(bs, ptr, 0) && |r| == |bs|
    requires i > 0 ==> bs[i - 1].free <= 0 && r[i - 1] == bs[i - 1]
    requires x == Blk(bs[i].space, bs[i + 1].space - bs[i].space)
    requires r == bs[i := x] && r[..i] == bs[..i] && r[i + 2..] == bs[i + 2..]
    ensures MpbBlocks.Free(bs, ptr) == Coalesced(r, i)
  {
  }

  class Allocator {
    const line: nat
    var tail: Block
    /** The circle, cut open after the tail. */
    ghost var nodes: seq<Block>

    ghost predicate Linked()
      reads this, nodes
    {
      && line > 0
      && |nodes| > 0
      && tail == nodes[|nodes| - 1]
      && Distinct(nodes)
      && (forall i | 0 <= i < |nodes| - 1 :: nodes[i].next == nodes[i + 1])
      && nodes[|nodes| - 1].next == nodes[0]
    }

    ghost function Blocks(): (bs: seq<Blk>)
      reads this, nodes
      ensures |bs| == |nodes|
    {
      seq(|nodes|, i requires 0 <= i < |nodes| reads this, nodes => Blk(nodes[i].space, nodes[i].freeSize))
    }

    /** RCCE_malloc_init and RCCE_shmalloc_init. */
    constructor (line: nat, mem: int, size: nat)
      requires line > 0
      ensures Linked() && fresh(nodes) && this.line == line
      ensures Blocks() == Init(mem, size)
    {
      this.line := line;
      var b := new Block(size, mem);
      tail := b;
      nodes := [b];
      new;
      tail.next := tail;
    }

    /** The tail has room: it becomes the used block and what is left of it the new tail. */
    method TakeTail(size: nat) returns (p: int)
      requires Linked() && size <= tail.freeSize
      modifies this, nodes
      ensures Linked() && (forall b | b in nodes :: b in old(nodes) || fresh(b))
      ensures p == old(tail.space)
      ensures Blocks() == Take(old(Blocks()), old(|nodes|) - 1, size)
    {
      ghost var was, n := Blocks(), |nodes| - 1;
      var b1 := tail;
      var b2 := new Block(b1.freeSize - size, b1.space + size);
      b2.next := b1.next;
      b1.next := b2;
      b1.freeSize := 0;
      tail := b2;
      nodes := nodes + [b2];
      p := b1.space;
      assert forall k | 0 <= k < n :: Blocks()[k] == was[k];
    }

    /** First fit from the head of the list; the predecessor of the block found. */
    method Search(size: nat) returns (found: bool, b1: Block, ghost i: nat)
      requires Linked()
      ensures i < |nodes| && i == FirstFit(Blocks(), size, 0)
      ensures b1 in nodes && b1.next == nodes[i]
      ensures found == (nodes[i].freeSize >= size)
      ensures !found ==> i == |nodes| - 1
    {
      b1 := tail;
      i := 0;
      while b1.next.freeSize < size
        invariant 0 <= i < |nodes| && b1 in nodes && b1.next == nodes[i]
        invariant FirstFit(Blocks(), size, 0) == FirstFit(Blocks(), size, i)
        decreases |nodes| - i
      {
        if b1.next == tail {
          return false, b1, i;
        }
        b1 := b1.next;
        i := i + 1;
      }
      found := true;
    }

    /** Block `b2`, number `i` on the list and not the tail, is used up or split. */
    method TakeBlock(b2: Block, size: nat, ghost i: nat)
      requires Linked() && i < |nodes| - 1 && b2 == nodes[i] && size <= b2.freeSize
      modifies this, nodes
      ensures Linked() && (forall b | b in nodes :: b in old(nodes) || fresh(b))
      ensures b2.space == old(b2.space)
      ensures Blocks() == Take(old(Blocks()), i, size)
    {
      if b2.freeSize > size {
        Split(b2, size, i);
      } else {
        b2.freeSize := 0;
      }
    }

    method Split(b2: Block, size: nat, ghost i: nat)
      requires Linked() && i < |nodes| - 1 && b2 == nodes[i] && size < b2.freeSize
      modifies this, nodes
      ensures Linked() && (forall b | b in nodes :: b in old(nodes) || fresh(b))
      ensures b2.space == old(b2.space)
      ensures Blocks() == Take(old(Blocks()), i, size)
    {
      ghost var was, bs := nodes, Blocks();
      var b3 := new Block(b2.freeSize - size, b2.space + size);
      b3.next := b2.next;
      b2.next := b3;
      b2.freeSize := 0;
      InsertDistinct(was, i, b3);
      nodes := Insert(was, i, b3);
      assert Linked();
      ghost var r := Take(bs, i, size);
      assert |r| == |nodes|;
      assert forall k | 0 <= k < |r| :: r[k] == if k < i then bs[k] else if k == i then Blk(bs[i].space, 0)
                                        else if k == i + 1 then Blk(b3.space, b3.freeSize) else bs[k - 1];
    }

    method Malloc(size: nat) returns (p: Option<int>)
      requires Linked()
      modifies this, nodes
      ensures Linked() && (forall b | b in nodes :: b in old(nodes) || fresh(b))
      ensures (Blocks(), p) == MpbBlocks.Malloc(old(Blocks()), line, size)
    {
      if size == 0 || size % line != 0 {
        return None;
      }
      if tail.freeSize >= size {
        var at := TakeTail(size);
        return Some(at);
      }
      var found, b1, i := Search(size);
      if !found {
        return None;
      }
      var b2 := b1.next;
      TakeBlock(b2, size, i);
      p := Some(b2.space);
    }

    /** The block that starts at `ptr`, through its predecessor; the tail if there is none. */
    method Locate(ptr: int) returns (b1: Block, ghost i: nat)
      requires Linked()
      ensures i < |nodes| && i == Find(Blocks(), ptr, 0)
      ensures b1.next == nodes[i] && b1 == nodes[if i == 0 then |nodes| - 1 else i - 1]
    {
      b1 := tail;
      i := 0;
      while b1.next.space != ptr && b1.next != tail
        invariant 0 <= i < |nodes| && b1.next == nodes[i] && b1 == nodes[if i == 0 then |nodes| - 1 else i - 1]
        invariant Find(Blocks(), ptr, 0) == Find(Blocks(), ptr, i)
        decreases |nodes| - i
      {
        b1 := b1.next;
        i := i + 1;
      }
    }

    /** Takes the blocks after `b1` up to `b`, which may be the tail, off the circle. */
    method Unlink(b1: Block, b: Block, ghost i: nat, ghost j: nat)
      requires Linked() && i < j < |nodes| && b1 == nodes[i] && b == nodes[j]
      modifies this, b1`next
      ensures Linked() && nodes == Remove(old(nodes), i + 1, j + 1)
    {
      ghost var was := nodes;
      RemoveDistinct(was, i + 1, j + 1);
      b1.next := b.next;
      if b == tail {
        tail := b1;
      }
      nodes := Remove(was, i + 1, j + 1);
    }

    /** The blocks that are left on the circle are as they were. */
    lemma RemovedBlocks(was: seq<Block>, bs: seq<Blk>, i: nat, j: nat)
      requires i <= j <= |was| == |bs| && nodes == Remove(was, i, j)
      requires forall k | 0 <= k < |was| :: bs[k] == Blk(was[k].space, was[k].freeSize)
      ensures Blocks() == bs[..i] + bs[j..]
    {
    }

    method Grow(b: Block, more: int, ghost i: nat)
      requires Linked() && i < |nodes| && b == nodes[i]
      modifies b`freeSize
      ensures Linked()
      ensures Blocks() == old(Blocks()[i := Blk(b.space, b.freeSize + more)])
    {
      b.freeSize := b.freeSize + more;
    }

    /** Blocks `b1`, `b2`, `b3` in a row become `b1`. */
    method MergeBoth(b1: Block, b2: Block, b3: Block, ghost i: nat)
      requires Linked() && 0 < i < |nodes| - 1 && b1 == nodes[i - 1] && b2 == nodes[i] && b3 == nodes[i + 1]
      modifies this, nodes
      ensures Linked() && (forall b | b in nodes :: b in old(nodes))
      ensures var bs := old(Blocks());
              Blocks() == bs[..i - 1] + [Blk(bs[i - 1].space, bs[i - 1].free + bs[i].free + bs[i + 1].free)] + bs[i + 2..]
    {
      var more := b3.freeSize + b2.freeSize;
      ghost var was, bs := nodes, Blocks();
      Unlink(b1, b3, i - 1, i + 1);
      RemovedBlocks(was, bs, i, i + 2);
      Grow(b1, more, i - 1);
      GrownLast(bs, i, i + 2, Blk(bs[i - 1].space, bs[i - 1].free + bs[i].free + bs[i + 1].free));
    }

    /** Blocks `b1`, `b2` in a row become `b1`; also used with the successor in the place of `b2`. */
    method MergeNext(b1: Block, b2: Block, ghost i: nat)
      requires Linked() && i < |nodes| - 1 && b1 == nodes[i] && b2 == nodes[i + 1]
      modifies this, nodes
      ensures Linked() && (forall b | b in nodes :: b in old(nodes))
      ensures var bs := old(Blocks());
              Blocks() == bs[..i] + [Blk(bs[i].space, bs[i].free + bs[i + 1].free)] + bs[i + 2..]
    {
      var more := b2.freeSize;
      ghost var was, bs := nodes, Blocks();
      Unlink(b1, b2, i, i + 1);
      RemovedBlocks(was, bs, i + 1, i + 2);
      Grow(b1, more, i);
      GrownLast(bs, i + 1, i + 2, Blk(bs[i].space, bs[i].free + bs[i + 1].free));
    }

    /** Joins block `b2`, just freed, to whichever of its neighbours are free. */
    method Coalesce(b1: Block, b2: Block, b3: Block, ghost i: nat)
      requires Linked() && i < |nodes| - 1 && b2 == nodes[i] && b3 == nodes[i + 1]
      requires b1 == nodes[if i == 0 then |nodes| - 1 else i - 1]
      modifies this, nodes
      ensures Linked() && (forall b | b in nodes :: b in old(nodes))
      ensures Blocks() == Coalesced(old(Blocks()), i)
    {
      assert b1 != tail <==> i > 0;
      var j1 := b1.freeSize > 0 && b1 != tail;
      var j2 := b3.freeSize > 0 || b3 == tail;
      if j1 {
        if j2 {
          MergeBoth(b1, b2, b3, i);
        } else {
          MergeNext(b1, b2, i - 1);
        }
      } else if j2 {
        MergeNext(b2, b3, i);
      }
    }

    /** The target block becomes wholly free. */
    method Release(b2: Block, b3: Block, ghost i: nat)
      requires Linked() && i < |nodes| - 1 && b2 == nodes[i] && b3 == nodes[i + 1]
      modifies b2`freeSize
      ensures Linked()
      ensures Blocks() == Released(old(Blocks()), i)
    {
      ghost var bs := Blocks();
      b2.freeSize := b3.space - b2.space;
      assert forall k | 0 <= k < |nodes| && k != i :: Blocks()[k] == bs[k];
    }

    method Free(ptr: int)
      requires Linked()
      modifies this, nodes
      ensures Linked() && (forall b | b in nodes :: b in old(nodes))
      ensures Blocks() == MpbBlocks.Free(old(Blocks()), ptr)
    {
      ghost var bs := Blocks();
      var b1, i := Locate(ptr);
      var b2 := b1.next;
      FreeIs(bs, ptr, i);
      if b2 == tail {
        return;
      }
      var b3 := b2.next;
      Release(b2, b3, i);
      Coalesce(b1, b2, b3, i);
    }

    /** Asks for `size` bytes rounded up to whole lines, halving the request until it is granted; at most `turns`
        rounds of the loop, which the library does not leave while no line is free (AnsweredIff). */
    method MallocRequest(size: nat, turns: nat) returns (combuf: Option<int>, chunk: nat)
      requires Linked() && line == 32
      modifies this, nodes
      ensures Linked() && (forall b | b in nodes :: b in old(nodes) || fresh(b))
      ensures (Blocks(), combuf, chunk) == Requested(old(Blocks()), Pad32(size), turns)
    {
      ghost var bs := Blocks();
      var left := turns;
      combuf := None;
      chunk := Pad32(size);
      while combuf.None? && chunk >= 32 && left > 0
        invariant Linked() && (forall b | b in nodes :: b in old(nodes) || fresh(b))
        invariant forall i | 0 <= i < |nodes| :: nodes[i] in old(nodes) || fresh(nodes[i])
        invariant Requested(bs, Pad32(size), turns) ==
                    if combuf.None? then Requested(bs, chunk, left) else (Blocks(), combuf, chunk)
        invariant combuf.None? ==> Blocks() == bs
        decreases left
      {
        combuf := Malloc(chunk);
        if combuf.None? {
          chunk := Pad32(chunk / 2);
        }
        left := left - 1;
      }
    }
  }
}
