/** The list a node keeps of its cores, in order, each with the node it is offered to, and what the handlers'
    walks do to it. */
module CoreList {

  const NOBODY := -1
  const MOVING := -2

  /** `to` is offered_to; -1 means nobody: the core is free for the node's own use. */
  datatype Entry = Entry(core: nat, to: int)

  type List = seq<Entry>

  function CoresOf(l: List): (cores: seq<nat>)
    ensures |cores| == |l| && forall i | 0 <= i < |l| :: cores[i] == l[i].core
  {
    if l == [] then [] else CoresOf(l[..|l| - 1]) + [l[|l| - 1].core]
  }

  lemma {:induction false} HasCore(l: List, e: Entry)
    requires e in l
    ensures e.core in CoresOf(l)
  {
    var i :| 0 <= i < |l| && l[i] == e;
    assert CoresOf(l)[i] == e.core;
  }

  /** The first entry for core `c` from place `i` on, or the end of the list. */
  function Find(l: List, c: nat, i: nat): (j: nat)
    requires i <= |l|
    ensures i <= j <= |l| && (j < |l| ==> l[j].core == c) && forall x | i <= x < j :: l[x].core != c
    decreases |l| - i
  {
    if i == |l| || l[i].core == c then i else Find(l, c, i + 1)
  }

  /** Walks that leave out the head of the list begin here. */
  function Second(l: List): (i: nat)
    ensures i <= |l| && (i == 1 || l == [])
  {
    if l == [] then 0 else 1
  }

  predicate Inside(at: seq<nat>, l: List) {
    forall x | 0 <= x < |at| :: at[x] < |l|
  }

  /** The entries at `at` offered to `r`, one after the other. */
  function Marked(l: List, at: seq<nat>, r: nat): (m: List)
    requires Inside(at, l)
    ensures |m| == |l| && forall i | 0 <= i < |l| :: m[i].core == l[i].core
  {
    if at == [] then l
    else
      var m, i := Marked(l, at[..|at| - 1], r), at[|at| - 1];
      m[i := Entry(m[i].core, r)]
  }

  function CoresAt(l: List, at: seq<nat>): (cores: seq<nat>)
    requires Inside(at, l)
    ensures |cores| == |at| && forall x | 0 <= x < |at| :: cores[x] == l[at[x]].core
  {
    if at == [] then [] else CoresAt(l, at[..|at| - 1]) + [l[at[|at| - 1]].core]
  }

  /** A core no longer offered, if it is on the list and, where `look` says so, still down as offered to `r`. */
  function BackOne(l: List, c: nat, r: int, look: bool): (m: List)
    ensures |m| == |l| && forall i | 0 <= i < |l| :: m[i].core == l[i].core
  {
    var j := Find(l, c, Second(l));
    if j < |l| && (look ==> l[j].to == r) then l[j := Entry(c, NOBODY)] else l
  }

  function Back(l: List, cores: seq<nat>, r: int, look: bool): (m: List)
    ensures |m| == |l| && forall i | 0 <= i < |l| :: m[i].core == l[i].core
  {
    if cores == [] then l else BackOne(Back(l, cores[..|cores| - 1], r, look), cores[|cores| - 1], r, look)
  }

  /** The first entry for the core taken out. */
  function DropOne(l: List, c: nat): List {
    var j := Find(l, c, 0);
    if j < |l| then l[..j] + l[j + 1..] else l
  }

  function Drop(l: List, cores: seq<nat>): List {
    if cores == [] then l else DropOne(Drop(l, cores[..|cores| - 1]), cores[|cores| - 1])
  }

  /** New entries for the cores, but not for `self`, which is entered on its own. */
  function Fresh(cores: seq<nat>, self: int): List {
    if cores == [] then []
    else
      var c := cores[|cores| - 1];
      Fresh(cores[..|cores| - 1], self) + if c == self then [] else [Entry(c, NOBODY)]
  }

  /** The first entry after the head for core `c` offered to `m`, or the end. */
  function FindHeld(l: List, c: nat, m: int, i: nat): (j: nat)
    requires i <= |l|
    ensures i <= j <= |l| && (j < |l| ==> l[j] == Entry(c, m)) && forall x | i <= x < j :: l[x] != Entry(c, m)
    decreases |l| - i
  {
    if i == |l| || l[i] == Entry(c, m) then i else FindHeld(l, c, m, i + 1)
  }

  function Returned(l: List, c: nat, m: int): (t: List)
    ensures |t| == |l| && forall i | 0 <= i < |l| :: t[i].core == l[i].core
  {
    var j := FindHeld(l, c, m, Second(l));
    if j < |l| then l[j := Entry(c, NOBODY)] else l
  }

  // ---------------------------------------------------------------- free entries

  /** How many entries say that core `c` is free. */
  ghost function Free(l: List, c: nat): nat {
    multiset(l)[Entry(c, NOBODY)]
  }

  /** How often core `c` is among `cores`. */
  ghost function Times(cores: seq<nat>, c: nat): nat {
    multiset(cores)[c]
  }

  function One(b: bool): nat {
    if b then 1 else 0
  }

  lemma FreeIs(l: List, c: nat)
    ensures Free(l, c) > 0 <==> Entry(c, NOBODY) in l
  {
  }

  lemma FreeSet(l: List, j: nat, e: Entry, c: nat)
    requires j < |l|
    ensures Free(l[j := e], c) + One(l[j] == Entry(c, NOBODY)) == Free(l, c) + One(e == Entry(c, NOBODY))
  {
    assert l == l[..j] + [l[j]] + l[j + 1..];
    assert l[j := e] == l[..j] + [e] + l[j + 1..];
  }

  lemma FreeDrop(l: List, j: nat, c: nat)
    requires j < |l|
    ensures Free(l[..j] + l[j + 1..], c) + One(l[j] == Entry(c, NOBODY)) == Free(l, c)
  {
    assert l == l[..j] + [l[j]] + l[j + 1..];
  }

  lemma FreeTwice(l: List, i: nat, j: nat, c: nat)
    requires i < j < |l| && l[i] == Entry(c, NOBODY) == l[j]
    ensures Free(l, c) >= 2
  {
    FreeDrop(l, i, c);
    assert (l[..i] + l[i + 1..])[j - 1] == l[j];
  }

  lemma FreeJoin(l: List, m: List, c: nat)
    ensures Free(l + m, c) == Free(l, c) + Free(m, c)
  {
  }

  predicate Distinct(at: seq<nat>) {
    forall x, y | 0 <= x < y < |at| :: at[x] != at[y]
  }

  lemma {:induction false} MarkedAt(l: List, at: seq<nat>, r: nat, i: nat)
    requires Inside(at, l) && i < |l|
    ensures Marked(l, at, r)[i] == if i in at then Entry(l[i].core, r) else l[i]
  {
    if at != [] {
      MarkedAt(l, at[..|at| - 1], r, i);
      assert i in at <==> i in at[..|at| - 1] || i == at[|at| - 1];
    }
  }

  /** Offering cores takes them from the free ones, and only them. */
  lemma {:induction false} FreeMarked(l: List, at: seq<nat>, r: nat, c: nat)
    requires Distinct(at) && Inside(at, l) && forall x | 0 <= x < |at| :: l[at[x]].to == NOBODY
    ensures Free(Marked(l, at, r), c) + Times(CoresAt(l, at), c) == Free(l, c)
  {
    if at != [] {
      var rest, i := at[..|at| - 1], at[|at| - 1];
      FreeMarked(l, rest, r, c);
      MarkedAt(l, rest, r, i);
      FreeSet(Marked(l, rest, r), i, Entry(l[i].core, r), c);
    }
  }

  lemma FreeBackOne(l: List, c: nat, r: int, look: bool, d: nat)
    ensures Free(l, d) <= Free(BackOne(l, c, r, look), d) <= Free(l, d) + One(c == d)
  {
    var j := Find(l, c, Second(l));
    if j < |l| {
      FreeSet(l, j, Entry(c, NOBODY), d);
    }
  }

  lemma {:induction false} FreeBack(l: List, cores: seq<nat>, r: int, look: bool, d: nat)
    ensures Free(l, d) <= Free(Back(l, cores, r, look), d) <= Free(l, d) + Times(cores, d)
  {
    if cores != [] {
      var rest, c := cores[..|cores| - 1], cores[|cores| - 1];
      FreeBack(l, rest, r, look, d);
      FreeBackOne(Back(l, rest, r, look), c, r, look, d);
      assert cores == rest + [c];
    }
  }

  lemma FreeDropOne(l: List, c: nat, d: nat)
    ensures Free(DropOne(l, c), d) <= Free(l, d)
  {
    var j := Find(l, c, 0);
    if j < |l| {
      FreeDrop(l, j, d);
    }
  }

  lemma {:induction false} FreeDropped(l: List, cores: seq<nat>, d: nat)
    ensures Free(Drop(l, cores), d) <= Free(l, d)
  {
    if cores != [] {
      FreeDropped(l, cores[..|cores| - 1], d);
      FreeDropOne(Drop(l, cores[..|cores| - 1]), cores[|cores| - 1], d);
    }
  }

  lemma {:induction false} FreeFresh(cores: seq<nat>, self: int, d: nat)
    ensures Free(Fresh(cores, self), d) == if d == self then 0 else Times(cores, d)
  {
    if cores != [] {
      var rest, c := cores[..|cores| - 1], cores[|cores| - 1];
      FreeFresh(rest, self, d);
      assert cores == rest + [c];
      var last: List := if c == self then [] else [Entry(c, NOBODY)];
      FreeJoin(Fresh(rest, self), last, d);
    }
  }

  lemma FreeReturned(l: List, c: nat, m: int, d: nat)
    ensures Free(l, d) <= Free(Returned(l, c, m), d) <= Free(l, d) + One(c == d)
  {
    var j := FindHeld(l, c, m, Second(l));
    if j < |l| {
      FreeSet(l, j, Entry(c, NOBODY), d);
    }
  }

  // ---------------------------------------------------------------- the head of the list

  lemma {:induction false} HeadStays(l: List, cores: seq<nat>)
    requires l != [] && l[0].core !in cores
    ensures Drop(l, cores) != [] && Drop(l, cores)[0] == l[0]
  {
    if cores != [] {
      HeadStays(l, cores[..|cores| - 1]);
      assert cores[|cores| - 1] in cores;
    }
  }

  lemma {:induction false} BackNone(cores: seq<nat>, r: int, look: bool)
    ensures Back([], cores, r, look) == []
  {
    if cores != [] {
      BackNone(cores[..|cores| - 1], r, look);
    }
  }

  lemma {:induction false} DropNone(cores: seq<nat>)
    ensures Drop([], cores) == []
  {
    if cores != [] {
      DropNone(cores[..|cores| - 1]);
    }
  }

  lemma {:induction false} BackHead(l: List, cores: seq<nat>, r: int, look: bool)
    requires l != []
    ensures Back(l, cores, r, look)[0] == l[0]
  {
    if cores != [] {
      BackHead(l, cores[..|cores| - 1], r, look);
    }
  }

  // ---------------------------------------------------------------- which cores come back

  /** The first entry for the core is one that a refusal, or a reject, frees. */
  predicate Hit(l: List, c: nat, r: int, look: bool) {
    var j := Find(l, c, Second(l));
    j < |l| && (look ==> l[j].to == r)
  }

  /** Other cores' entries do not matter. */
  lemma BackOther(l: List, c: nat, r: int, look: bool, d: nat)
    requires c != d
    ensures var m := BackOne(l, c, r, look);
            Free(m, d) == Free(l, d) && Hit(m, d, r, look) == Hit(l, d, r, look)
  {
    var m := BackOne(l, c, r, look);
    FreeBackOne(l, c, r, look, d);
    SameFind(l, m, d, Second(l));
  }

  lemma {:induction false} SameFind(l: List, m: List, d: nat, i: nat)
    requires |l| == |m| && i <= |l|
    requires forall x | 0 <= x < |l| :: l[x] == m[x] || (l[x].core == m[x].core != d)
    ensures Find(l, d, i) == Find(m, d, i)
    decreases |l| - i
  {
    if i < |l| {
      SameFind(l, m, d, i + 1);
    }
  }

  /** A core given back once is free if and only if its first entry was one that is freed. */
  lemma {:induction false} BackFrees(l: List, cores: seq<nat>, r: int, look: bool, d: nat)
    requires Free(l, d) == 0 && Times(cores, d) <= 1
    ensures Free(Back(l, cores, r, look), d) == One(d in cores && Hit(l, d, r, look))
    ensures d !in cores ==> Hit(Back(l, cores, r, look), d, r, look) == Hit(l, d, r, look)
  {
    if cores != [] {
      var rest, c := cores[..|cores| - 1], cores[|cores| - 1];
      assert cores == rest + [c];
      BackFrees(l, rest, r, look, d);
      var m := Back(l, rest, r, look);
      if c != d {
        BackOther(m, c, r, look, d);
      } else {
        assert d !in rest;
        LastBack(m, d, r, look);
      }
    }
  }

  lemma LastBack(m: List, d: nat, r: int, look: bool)
    requires Free(m, d) == 0
    ensures Free(BackOne(m, d, r, look), d) == One(Hit(m, d, r, look))
  {
    var j := Find(m, d, Second(m));
    if j < |m| {
      FreeSet(m, j, Entry(d, NOBODY), d);
      assert m[j] in m;
    }
  }

  // ---------------------------------------------------------------- which cores an acceptance takes away

  /** The first entry for the core says that it is free. */
  predicate FirstFree(l: List, c: nat) {
    var j := Find(l, c, 0);
    j < |l| && l[j].to == NOBODY
  }

  lemma {:induction false} FindIs(l: List, c: nat, i: nat, j: nat)
    requires i <= j <= |l| && (j < |l| ==> l[j].core == c) && forall x | i <= x < j :: l[x].core != c
    ensures Find(l, c, i) == j
    decreases j - i
  {
    if i < j {
      FindIs(l, c, i + 1, j);
    }
  }

  lemma FindWithout(l: List, j: nat, d: nat)
    requires j < |l| && l[j].core != d
    ensures FirstFree(l[..j] + l[j + 1..], d) == FirstFree(l, d)
  {
    var i, m := Find(l, d, 0), l[..j] + l[j + 1..];
    assert i < j ==> l[i].core == d;
    var x := if i < j then i else i - 1;
    forall y | 0 <= y < x
      ensures m[y].core != d
    {
      assert m[y] == if y < j then l[y] else l[y + 1];
    }
    FindIs(m, d, 0, x);
  }

  /** Another core's entry taken out. */
  lemma DropOther(l: List, c: nat, d: nat)
    requires c != d
    ensures FirstFree(DropOne(l, c), d) == FirstFree(l, d) && Free(DropOne(l, c), d) == Free(l, d)
  {
    var j := Find(l, c, 0);
    if j < |l| {
      FreeDrop(l, j, d);
      FindWithout(l, j, d);
    }
  }

  /** Of the cores an acceptance takes off the list, those are no longer free whose first entry was the free one. */
  lemma {:induction false} DropFrees(l: List, cores: seq<nat>, d: nat)
    requires Times(cores, d) <= 1
    ensures Free(Drop(l, cores), d) + One(d in cores && FirstFree(l, d)) == Free(l, d)
    ensures d !in cores ==> FirstFree(Drop(l, cores), d) == FirstFree(l, d)
  {
    if cores != [] {
      var rest, c := cores[..|cores| - 1], cores[|cores| - 1];
      assert cores == rest + [c];
      DropFrees(l, rest, d);
      var m := Drop(l, rest);
      if c != d {
        DropOther(m, c, d);
      } else {
        assert d !in rest;
        LastDropped(m, d);
      }
    }
  }

  lemma LastDropped(m: List, d: nat)
    ensures Free(DropOne(m, d), d) + One(FirstFree(m, d)) == Free(m, d)
  {
    var j := Find(m, d, 0);
    if j < |m| {
      FreeDrop(m, j, d);
    }
  }
}
