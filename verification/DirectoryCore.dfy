/** The directory as the controller keeps it, changed in place by the handlers' loops; and the loop by which a
    controller splits a manager's message among the controllers of the cores in it. */
module DirectoryCore {
  import opened DirectoryOps

  class Directory {
    var off: map<int, int>
    var dds: seq<Row>
    /** DDS_count: how many agents are listed. */
    var listed: int

    ghost function Value(): Dir
      reads this
    {
      Dir(off, dds)
    }

    ghost predicate Valid()
      reads this
    {
      dds != [] && listed == |dds|
    }

    /** A controller starts with all its cores free and only itself on the list. */
    constructor (self: int, cores: set<int>)
      requires self >= 0
      ensures Valid() && Matched(Value()) && off == map c | c in cores :: FREE
    {
      off := map c | c in cores :: FREE;
      dds := [Row(self, |cores|)];
      listed := 1;
      new;
      assert Owned(off, FREE) == cores;
    }

    /** The walk along the list for an agent. */
    method Locate(a: int, start: nat) returns (i: nat)
      requires start <= |dds|
      ensures i == Find(dds, a, start)
    {
      i := start;
      while i < |dds| && dds[i].agent != a
        invariant start <= i <= |dds| && Find(dds, a, start) == Find(dds, a, i)
        decreases |dds| - i
      {
        i := i + 1;
      }
    }

    method HandTo(a: int, c: int)
      requires Valid() && c in off
      modifies this`off, this`dds
      ensures Valid() && off == old(off)[c := a]
      ensures dds == if old(off)[c] == FREE then Head(old(dds), -1) else old(dds)
    {
      if off[c] == FREE {
        dds := dds[0 := Row(dds[0].agent, dds[0].cores - 1)];
        off := off[c := a];
      } else if off[c] != a {
        off := off[c := a];
      }
    }

    /** One core of an ADD message. */
    method HandOne(a: int, cores: seq<int>, i: nat, ghost was: map<int, int>, ghost list: seq<Row>)
      requires Valid() && i < |cores| && list != [] && Different(cores) && forall c | c in cores :: c in was
      requires Value() == Dir(AddedTo(was, a, cores[..i]), Head(list, -CountIn(was, cores[..i], FREE)))
      modifies this`off, this`dds
      ensures Valid()
      ensures Value() == Dir(AddedTo(was, a, cores[..i + 1]), Head(list, -CountIn(was, cores[..i + 1], FREE)))
    {
      ghost var d := Value();
      AddOne(was, a, cores, i);
      HandTo(a, cores[i]);
      OneAdded(was, list, a, cores, i, d, Value());
    }

    /** The local part of an ADD message; the handlers pass the length of the whole message as `cnt`. */
    method AddCores(a: int, cores: seq<int>, cnt: int)
      requires Valid() && Known(Value(), cores)
      modifies this
      ensures Valid() && Value() == Add(old(Value()), a, cores, cnt)
    {
      var i := 0;
      ghost var was, list := off, dds;
      NoneAdded(was, list, a);
      while i < |cores|
        invariant i <= |cores| && Valid()
        invariant Value() == Dir(AddedTo(was, a, cores[..i]), Head(list, -CountIn(was, cores[..i], FREE)))
      {
        HandOne(a, cores, i, was, list);
        i := i + 1;
      }
      assert cores[..i] == cores;
      Join(a, cnt);
    }

    /** Counts the cores for the agent, who may be new. */
    method Join(a: int, cnt: int)
      requires Valid()
      modifies this`dds, this`listed
      ensures Valid() && dds == Credit(old(dds), a, cnt)
    {
      var j := Locate(a, 0);
      if j < |dds| {
        dds := dds[j := Row(a, dds[j].cores + cnt)];
      } else {
        dds := dds + [Row(a, cnt)];
        listed := listed + 1;
      }
    }

    /** The local part of a REM message. */
    method RemCores(from: int, to: int, cores: seq<int>)
      requires Valid() && Known(Value(), cores)
      modifies this
      ensures Valid() && Value() == Rem(old(Value()), from, to, cores)
    {
      assert TakenFrom(off, from, to, []) == off;
      var i := 0;
      while i < |cores|
        invariant i <= |cores| && Valid() && dds == old(dds)
        invariant off == TakenFrom(old(off), from, to, cores[..i])
      {
        var c := cores[i];
        TakeOne(old(off), from, to, cores, i);
        if off[c] == FREE {
          off := off[c := to];
        } else if off[c] == from {
          off := off[c := MOVING];
        }
        i := i + 1;
      }
      assert cores[..i] == cores;
      Leave(from, |cores|);
    }

    /** Takes cores off an agent's count, and the agent off the list with the last. */
    method Leave(from: int, cnt: int)
      requires Valid()
      modifies this`dds, this`listed
      ensures Valid() && dds == Debit(old(dds), from, cnt)
    {
      var j := Locate(from, 0);
      if j < |dds| && j != 0 {
        dds := dds[j := Row(from, dds[j].cores - cnt)];
        if dds[j].cores == 0 {
          listed := listed - 1;
          dds := dds[..j] + dds[j + 1..];
        }
      }
    }

    method TakeBack(self: int, a: int, c: int) returns (taken: bool)
      requires Valid() && c in off
      modifies this`off, this`dds
      ensures Valid() && taken == (c != self && old(off)[c] == a)
      ensures off == if taken then old(off)[c := FREE] else old(off)
      ensures dds == if taken then Head(old(dds), 1) else old(dds)
    {
      taken := c != self && off[c] == a;
      if taken {
        off := off[c := FREE];
        dds := dds[0 := Row(dds[0].agent, dds[0].cores + 1)];
      }
    }

    /** One core of a FINISH message. */
    method TakeBackOne(self: int, a: int, cores: seq<int>, i: nat, ghost was: map<int, int>, ghost list: seq<Row>,
                       ghost back: seq<int>)
      returns (ghost next: seq<int>)
      requires Valid() && i < |cores| && list != [] && Different(cores) && (forall c | c in cores :: c in was) && a != FREE
      requires back == Returned(was, self, a, cores[..i]) && off == FreedIn(was, back) && dds == Head(list, |back|)
      modifies this`off, this`dds
      ensures Valid() && next == Returned(was, self, a, cores[..i + 1])
      ensures off == FreedIn(was, next) && dds == Head(list, |next|)
    {
      next := Returned(was, self, a, cores[..i + 1]);
      ghost var off0, dds0 := off, dds;
      ReturnOne(was, self, a, cores, i, back);
      var taken := TakeBack(self, a, cores[i]);
      OneBack(was, list, self, a, cores, i, back, Dir(off0, dds0), Dir(off, dds), taken);
    }

    /** FINISH. */
    method FinishApp(self: int, a: int, cores: seq<int>)
      requires Valid() && Known(Value(), cores) && a != FREE
      modifies this
      ensures Valid() && Value() == Finish(old(Value()), self, a, cores)
    {
      var i := 0;
      ghost var was, list, back := off, dds, [];
      while i < |cores|
        invariant i <= |cores| && Valid() && back == Returned(was, self, a, cores[..i])
        invariant off == FreedIn(was, back) && dds == Head(list, |back|)
      {
        back := TakeBackOne(self, a, cores, i, was, list, back);
        i := i + 1;
      }
      assert cores[..i] == cores;
      Forget(a);
    }

    /** The agent leaves the list. */
    method Forget(a: int)
      requires Valid()
      modifies this`dds, this`listed
      ensures Valid() && dds == Drop(old(dds), a)
    {
      var j := Locate(a, 1);
      if j < |dds| {
        listed := listed - 1;
        dds := dds[..j] + dds[j + 1..];
      }
    }
  }

  lemma HeadMore(dds: seq<Row>, n: int, k: int)
    requires dds != []
    ensures Head(Head(dds, n), k) == Head(dds, n + k)
  {
  }

  lemma Prefix(cores: seq<int>, i: nat)
    requires i < |cores| && Different(cores)
    ensures cores[..i + 1] == cores[..i] + [cores[i]] && cores[..i + 1][..i] == cores[..i] && cores[i] !in cores[..i]
  {
  }

  lemma AddOne(off: map<int, int>, a: int, cores: seq<int>, i: nat)
    requires i < |cores| && Different(cores) && forall c | c in cores :: c in off
    ensures var was, c := AddedTo(off, a, cores[..i]), cores[i];
            && was[c] == off[c] && AddedTo(off, a, cores[..i + 1]) == was[c := a]
            && CountIn(off, cores[..i + 1], FREE) == CountIn(off, cores[..i], FREE) + if off[c] == FREE then 1 else 0
  {
    Prefix(cores, i);
  }

  lemma NoneAdded(off: map<int, int>, list: seq<Row>, a: int)
    requires list != []
    ensures AddedTo(off, a, []) == off && Head(list, 0) == list
  {
  }

  lemma OneAdded(was: map<int, int>, list: seq<Row>, a: int, cores: seq<int>, i: nat, d: Dir, t: Dir)
    requires i < |cores| && list != [] && Different(cores) && forall c | c in cores :: c in was
    requires d == Dir(AddedTo(was, a, cores[..i]), Head(list, -CountIn(was, cores[..i], FREE))) && cores[i] in d.off
    requires t == Dir(d.off[cores[i] := a], if d.off[cores[i]] == FREE then Head(d.dds, -1) else d.dds)
    ensures t == Dir(AddedTo(was, a, cores[..i + 1]), Head(list, -CountIn(was, cores[..i + 1], FREE)))
  {
    AddOne(was, a, cores, i);
    HeadMore(list, -CountIn(was, cores[..i], FREE), -1);
  }

  lemma TakeOne(off: map<int, int>, from: int, to: int, cores: seq<int>, i: nat)
    requires i < |cores| && Different(cores) && forall c | c in cores :: c in off
    ensures var was, c := TakenFrom(off, from, to, cores[..i]), cores[i];
            && was[c] == off[c]
            && TakenFrom(off, from, to, cores[..i + 1]) ==
               was[c := if off[c] == FREE then to else if off[c] == from then MOVING else off[c]]
  {
    Prefix(cores, i);
  }

  lemma ReturnOne(off: map<int, int>, self: int, a: int, cores: seq<int>, i: nat, back: seq<int>)
    requires i < |cores| && Different(cores) && forall c | c in cores :: c in off
    requires back == Returned(off, self, a, cores[..i])
    ensures var c, next := cores[i], Returned(off, self, a, cores[..i + 1]);
            && c in off && FreedIn(off, back)[c] == off[c]
            && next == (if c != self && off[c] == a then back + [c] else back)
            && FreedIn(off, next) == if c != self && off[c] == a then FreedIn(off, back)[c := FREE] else FreedIn(off, back)
  {
    Prefix(cores, i);
    var c := cores[i];
    assert c in cores && c !in back;
    FreedMore(off, back, c);
  }

  lemma OneBack(was: map<int, int>, list: seq<Row>, self: int, a: int, cores: seq<int>, i: nat, back: seq<int>, d: Dir, t: Dir,
                taken: bool)
    requires i < |cores| && list != [] && Different(cores) && forall c | c in cores :: c in was
    requires back == Returned(was, self, a, cores[..i]) && d.off == FreedIn(was, back) && d.dds == Head(list, |back|)
    requires cores[i] in d.off && taken == (cores[i] != self && d.off[cores[i]] == a)
    requires t == if taken then Dir(d.off[cores[i] := FREE], Head(d.dds, 1)) else d
    ensures var next := Returned(was, self, a, cores[..i + 1]); t == Dir(FreedIn(was, next), Head(list, |next|))
  {
    ReturnOne(was, self, a, cores, i, back);
    HeadMore(list, |back|, 1);
  }

  lemma FreedMore(off: map<int, int>, back: seq<int>, c: int)
    requires c in off
    ensures FreedIn(off, back + [c]) == FreedIn(off, back)[c := FREE]
  {
  }

  // ---------------------------------------------------------------- splitting a message

  /** The cores of a message that belong to one controller, in order. */
  function PartOf(nodes: seq<nat>, owner: nat -> int, idag: int): (r: seq<nat>)
    ensures forall c :: c in r <==> c in nodes && owner(c) == idag
  {
    if nodes == [] then []
    else
      var last := nodes[|nodes| - 1];
      PartOf(nodes[..|nodes| - 1], owner, idag) + if owner(last) == idag then [last] else []
  }

  /** A core further on in the message comes further on in its controller's part. */
  lemma PartLast(s: seq<nat>, c: nat, owner: nat -> int, idag: int)
    ensures PartOf(s + [c], owner, idag) == PartOf(s, owner, idag) + if owner(c) == idag then [c] else []
  {
    assert (s + [c])[..|s|] == s;
  }

  datatype Part = Part(idag: int, cores: seq<nat>)

  /** Every part is all that its controller has in the message, and no controller has two. */
  ghost predicate Proper(parts: seq<Part>, nodes: seq<nat>, owner: nat -> int) {
    && (forall i | 0 <= i < |parts| :: parts[i].cores == PartOf(nodes, owner, parts[i].idag) && parts[i].cores != [])
    && (forall i, j | 0 <= i < j < |parts| :: parts[i].idag != parts[j].idag)
  }

  /** Each controller that has a core in the message gets one part, with exactly its cores. */
  ghost predicate Splits(parts: seq<Part>, nodes: seq<nat>, owner: nat -> int) {
    Proper(parts, nodes, owner) && forall c | c in nodes :: Reached(parts, owner(c))
  }

  lemma ProperMore(parts: seq<Part>, nodes: seq<nat>, owner: nat -> int, t: int, got: seq<nat>)
    requires Proper(parts, nodes, owner) && !Reached(parts, t) && got == PartOf(nodes, owner, t) && got != []
    ensures Proper(parts + [Part(t, got)], nodes, owner)
  {
    var more := parts + [Part(t, got)];
    forall i, j | 0 <= i < j < |more|
      ensures more[i].idag != more[j].idag
    {
      assert more[i] == parts[i];
      assert parts[i].idag == t ==> Reached(parts, t);
    }
    forall i | 0 <= i < |more|
      ensures more[i].cores == PartOf(nodes, owner, more[i].idag) && more[i].cores != []
    {
      assert i < |parts| ==> more[i] == parts[i];
    }
  }

  lemma AllReached(parts: seq<Part>, nodes: seq<nat>, left: seq<int>, owner: nat -> int)
    requires Blanked(parts, nodes, left, owner) && Blanks(left) == |left|
    ensures forall c | c in nodes :: Reached(parts, owner(c))
  {
    BlanksBound(left);
    forall c | c in nodes
      ensures Reached(parts, owner(c))
    {
      var k :| 0 <= k < |nodes| && nodes[k] == c;
      assert left[k] == -1;
    }
  }

  ghost predicate Reached(parts: seq<Part>, idag: int) {
    exists i :: 0 <= i < |parts| && parts[i].idag == idag
  }

  /** What is left of the message: the places of the cores of the controllers reached so far hold -1. */
  ghost predicate Blanked(parts: seq<Part>, nodes: seq<nat>, left: seq<int>, owner: nat -> int) {
    && |left| == |nodes|
    && forall k | 0 <= k < |nodes| :: left[k] == if Reached(parts, owner(nodes[k])) then -1 else nodes[k]
  }

  /** How many places have been blanked. */
  function Blanks(left: seq<int>): nat {
    if left == [] then 0 else Blanks(left[..|left| - 1]) + if left[|left| - 1] == -1 then 1 else 0
  }

  lemma {:induction false} BlanksBound(left: seq<int>)
    ensures Blanks(left) <= |left|
    ensures Blanks(left) == |left| <==> forall k | 0 <= k < |left| :: left[k] == -1
  {
    if left != [] {
      BlanksBound(left[..|left| - 1]);
    }
  }

  lemma {:induction false} BlankOne(left: seq<int>, i: nat)
    requires i < |left| && left[i] != -1
    ensures Blanks(left[i := -1]) == Blanks(left) + 1
  {
    var n := |left| - 1;
    if i < n {
      assert left[i := -1][..n] == left[..n][i := -1];
      BlankOne(left[..n], i);
    } else {
      assert left[i := -1][..n] == left[..n];
    }
  }

  lemma {:induction false} PartEmpty(nodes: seq<nat>, owner: nat -> int, idag: int)
    requires forall k | 0 <= k < |nodes| :: owner(nodes[k]) != idag
    ensures PartOf(nodes, owner, idag) == []
  {
    if nodes != [] {
      PartEmpty(nodes[..|nodes| - 1], owner, idag);
    }
  }

  lemma {:induction false} PartPrefix(nodes: seq<nat>, owner: nat -> int, idag: int, i: nat)
    requires i <= |nodes| && forall k | i <= k < |nodes| :: owner(nodes[k]) != idag
    ensures PartOf(nodes, owner, idag) == PartOf(nodes[..i], owner, idag)
  {
    if i == |nodes| {
      assert nodes[..i] == nodes;
    } else {
      PartPrefix(nodes[..|nodes| - 1], owner, idag, i);
      assert nodes[..|nodes| - 1][..i] == nodes[..i];
    }
  }

  /** Half-way through the scan for one part: `t` is the controller it is for, -1 before one is found. */
  ghost predicate Scanned(parts: seq<Part>, nodes: seq<nat>, left: seq<int>, owner: nat -> int, t: int, i: nat, got: seq<nat>) {
    && |left| == |nodes| && i <= |nodes| && t >= -1
    && (forall k | 0 <= k < i :: left[k] == if Reached(parts, owner(nodes[k])) || owner(nodes[k]) == t then -1 else nodes[k])
    && (forall k | i <= k < |nodes| :: left[k] == if Reached(parts, owner(nodes[k])) then -1 else nodes[k])
    && if t == -1 then got == [] && forall k | 0 <= k < i :: left[k] == -1
       else !Reached(parts, t) && got == PartOf(nodes[..i], owner, t) && got != []
  }

  lemma ScanOne(parts: seq<Part>, nodes: seq<nat>, left: seq<int>, owner: nat -> int, t: int, i: nat, got: seq<nat>)
    requires Scanned(parts, nodes, left, owner, t, i, got) && i < |nodes| && forall c | c in nodes :: owner(c) >= 0
    ensures var o := owner(nodes[i]);
            if left[i] == -1 then Scanned(parts, nodes, left, owner, t, i + 1, got)
            else if t == -1 || o == t then Scanned(parts, nodes, left[i := -1], owner, o, i + 1, got + [nodes[i]])
            else Scanned(parts, nodes, left, owner, t, i + 1, got)
  {
    assert nodes[..i + 1] == nodes[..i] + [nodes[i]] && nodes[..i + 1][..i] == nodes[..i];
    assert nodes[i] in nodes;
    if left[i] != -1 && t == -1 {
      PartEmpty(nodes[..i], owner, owner(nodes[i]));
    }
  }

  /** The whole scan: the places of one more controller are blanked and its part is complete. */
  lemma ScanEnd(parts: seq<Part>, nodes: seq<nat>, left: seq<int>, owner: nat -> int, t: int, i: nat, got: seq<nat>)
    requires Scanned(parts, nodes, left, owner, t, i, got) && t != -1
    requires i < |nodes| ==> forall k | 0 <= k < |left| :: left[k] == -1
    requires forall c | c in nodes :: owner(c) >= 0
    ensures got == PartOf(nodes, owner, t) && Blanked(parts + [Part(t, got)], nodes, left, owner)
  {
    var more := parts + [Part(t, got)];
    assert forall a :: Reached(more, a) <==> Reached(parts, a) || a == t by {
      forall a
        ensures Reached(more, a) <==> Reached(parts, a) || a == t
      {
        assert more[|parts|].idag == t;
        assert forall k | 0 <= k < |parts| :: more[k] == parts[k];
      }
    }
    forall k | i <= k < |nodes|
      ensures owner(nodes[k]) != t
    {
      assert left[k] == -1;
    }
    PartPrefix(nodes, owner, t, i);
  }

  /** One place of the scan. */
  method ScanPlace(left: array<int>, owner: nat -> int, t0: int, i: nat, got0: seq<nat>, done0: nat,
                   ghost parts: seq<Part>, ghost nodes: seq<nat>)
    returns (t: int, got: seq<nat>, done: nat)
    requires forall c | c in nodes :: owner(c) >= 0
    requires i < |nodes| && Scanned(parts, nodes, left[..], owner, t0, i, got0) && done0 == Blanks(left[..])
    modifies left
    ensures Scanned(parts, nodes, left[..], owner, t, i + 1, got) && done == Blanks(left[..])
    ensures done0 <= done && (t != t0 ==> t0 == -1 && done0 < done) && (t0 != -1 ==> t != -1)
    ensures t == -1 ==> done == done0
  {
    t, got, done := t0, got0, done0;
    ghost var was := left[..];
    ScanOne(parts, nodes, was, owner, t, i, got);
    if left[i] != -1 {
      assert nodes[i] in nodes;
      var c := left[i];
      if t == -1 {
        t := owner(c);
      }
      if owner(c) == t {
        BlankOne(was, i);
        got := got + [c];
        left[i] := -1;
        done := done + 1;
        assert left[..] == was[i := -1];
      }
    }
  }

  /** One scan over what is left of the message: the part of the first controller met. */
  method ScanPart(left: array<int>, owner: nat -> int, processed: nat, ghost parts: seq<Part>, ghost nodes: seq<nat>)
    returns (t: int, got: seq<nat>, done: nat)
    requires forall c | c in nodes :: owner(c) >= 0
    requires Blanked(parts, nodes, left[..], owner) && processed == Blanks(left[..]) < |nodes|
    modifies left
    ensures !Reached(parts, t) && got == PartOf(nodes, owner, t) && got != []
    ensures Blanked(parts + [Part(t, got)], nodes, left[..], owner) && processed < done == Blanks(left[..])
  {
    t, got, done := -1, [], processed;
    var i := 0;
    while i < left.Length && done != left.Length
      invariant i <= left.Length == |nodes| && Scanned(parts, nodes, left[..], owner, t, i, got)
      invariant done == Blanks(left[..]) && if t == -1 then done == processed else processed < done
    {
      t, got, done := ScanPlace(left, owner, t, i, got, done, parts, nodes);
      i := i + 1;
    }
    BlanksBound(left[..]);
    ScanEnd(parts, nodes, left[..], owner, t, i, got);
  }

  /** The loop by which a controller groups the cores of a manager's message by their controllers. */
  method SplitMessage(left: array<int>, owner: nat -> int, ghost nodes: seq<nat>) returns (parts: seq<Part>)
    requires |nodes| == left.Length && (forall k | 0 <= k < |nodes| :: left[k] == nodes[k])
    requires forall c | c in nodes :: owner(c) >= 0
    modifies left
    ensures Splits(parts, nodes, owner)
  {
    parts := [];
    var processed := 0;
    NoBlanks(left[..]);
    BlanksBound(left[..]);
    while processed < left.Length
      invariant Proper(parts, nodes, owner) && Blanked(parts, nodes, left[..], owner)
      invariant processed == Blanks(left[..]) <= left.Length
      decreases left.Length - processed
    {
      var t, got, done := ScanPart(left, owner, processed, parts, nodes);
      ProperMore(parts, nodes, owner, t, got);
      BlanksBound(left[..]);
      parts, processed := parts + [Part(t, got)], done;
    }
    AllReached(parts, nodes, left[..], owner);
  }

  lemma {:induction false} NoBlanks(left: seq<int>)
    requires forall k | 0 <= k < |left| :: left[k] != -1
    ensures Blanks(left) == 0
  {
    if left != [] {
      NoBlanks(left[..|left| - 1]);
    }
  }
}
