/** A controller's directory of its cores, kept by the ADD_CORES_DDS, REM_CORES_DDS and FINISH handlers of
    `src/signal_handlers.c`: who each core is offered to, and a list of agents with core counts whose head is the
    controller itself and counts the free cores. */
module DirectoryOps {
  import opened Arithmetic

  const FREE := -1

  /** Taken away from its old agent, but the message that says who has it now is still to come. */
  const MOVING := -2

  datatype Row = Row(agent: int, cores: int)

  datatype Dir = Dir(off: map<int, int>, dds: seq<Row>)

  // ---------------------------------------------------------------- the agent list

  /** Place of agent `a` on the list from place `i` on; the length of the list if it is not there. */
  function Find(dds: seq<Row>, a: int, i: nat): (r: nat)
    requires i <= |dds|
    ensures i <= r <= |dds|
    ensures r < |dds| ==> dds[r].agent == a
    ensures forall k | i <= k < r :: dds[k].agent != a
    decreases |dds| - i
  {
    if i == |dds| || dds[i].agent == a then i else Find(dds, a, i + 1)
  }

  /** `n` more cores for agent `a`, who joins at the end of the list if new. */
  function Credit(dds: seq<Row>, a: int, n: int): seq<Row> {
    var i := Find(dds, a, 0);
    if i < |dds| then dds[i := Row(a, dds[i].cores + n)] else dds + [Row(a, n)]
  }

  function Without(dds: seq<Row>, j: nat): (r: seq<Row>)
    requires j < |dds|
    ensures |r| == |dds| - 1
    ensures forall k | 0 <= k < |r| :: r[k] == dds[if k < j then k else k + 1]
  {
    dds[..j] + dds[j + 1..]
  }

  /** `n` cores fewer for agent `a`, who leaves the list with the last; never the head. */
  function Debit(dds: seq<Row>, a: int, n: int): seq<Row> {
    var i := Find(dds, a, 0);
    if i == |dds| || i == 0 then dds
    else if dds[i].cores == n then Without(dds, i)
    else dds[i := Row(a, dds[i].cores - n)]
  }

  /** Agent `a` off the list, whatever its count; never the head. */
  function Drop(dds: seq<Row>, a: int): seq<Row>
    requires dds != []
  {
    var i := Find(dds, a, 1);
    if i == |dds| then dds else Without(dds, i)
  }

  function Head(dds: seq<Row>, n: int): seq<Row>
    requires dds != []
  {
    dds[0 := Row(dds[0].agent, dds[0].cores + n)]
  }

  // ---------------------------------------------------------------- the three messages, on values

  /** How many of the listed cores are offered to `a`. */
  function CountIn(off: map<int, int>, cores: seq<int>, a: int): int
    requires forall c | c in cores :: c in off
  {
    if cores == [] then 0
    else
      var last := cores[|cores| - 1];
      CountIn(off, cores[..|cores| - 1], a) + if off[last] == a then 1 else 0
  }

  ghost predicate Different(s: seq<int>) {
    forall i, j | 0 <= i < j < |s| :: s[i] != s[j]
  }

  ghost predicate Known(d: Dir, cores: seq<int>) {
    && d.dds != []
    && (forall c | c in cores :: c in d.off)
    && Different(cores)
  }

  function AddedTo(off: map<int, int>, a: int, cores: seq<int>): map<int, int> {
    map c | c in off :: if c in cores then a else off[c]
  }

  function TakenFrom(off: map<int, int>, from: int, to: int, cores: seq<int>): map<int, int> {
    map c | c in off :: if c in cores && off[c] == FREE then to else if c in cores && off[c] == from then MOVING else off[c]
  }

  function FreedIn(off: map<int, int>, back: seq<int>): map<int, int> {
    map c | c in off :: if c in back then FREE else off[c]
  }

  /** ADD: the cores are agent `a`'s, and `cnt` is added to its count. */
  function Add(d: Dir, a: int, cores: seq<int>, cnt: int): Dir
    requires Known(d, cores)
  {
    Dir(AddedTo(d.off, a, cores),
        Credit(Head(d.dds, -CountIn(d.off, cores, FREE)), a, cnt))
  }

  /** REM: the cores go from agent `from` to agent `to`. */
  function Rem(d: Dir, from: int, to: int, cores: seq<int>): Dir
    requires Known(d, cores)
  {
    Dir(TakenFrom(d.off, from, to, cores), Debit(d.dds, from, |cores|))
  }

  /** FINISH: agent `a` has ended and gives the cores back; `self` is the first core of the controller's own list,
      which the handler passes over. */
  function Finish(d: Dir, self: int, a: int, cores: seq<int>): Dir
    requires Known(d, cores)
  {
    var back := Returned(d.off, self, a, cores);
    Dir(FreedIn(d.off, back), Drop(Head(d.dds, |back|), a))
  }

  /** The listed cores that are offered to `a`, without `self`. */
  function Returned(off: map<int, int>, self: int, a: int, cores: seq<int>): (r: seq<int>)
    requires forall c | c in cores :: c in off
    ensures forall c :: c in r <==> c in cores && off[c] == a && c != self
  {
    if cores == [] then []
    else
      var last := cores[|cores| - 1];
      Returned(off, self, a, cores[..|cores| - 1]) + if off[last] == a && last != self then [last] else []
  }

  // ---------------------------------------------------------------- when counts and cores agree

  ghost function Owned(off: map<int, int>, a: int): set<int> {
    set c | c in off && off[c] == a
  }

  ghost predicate Distinct(dds: seq<Row>) {
    forall i, j | 0 <= i < j < |dds| :: dds[i].agent != dds[j].agent
  }

  /** The count the list has for an agent. */
  function Tally(dds: seq<Row>, a: int): int {
    var i := Find(dds, a, 0);
    if i < |dds| then dds[i].cores else 0
  }

  ghost predicate TallyRight(d: Dir, a: int) {
    Tally(d.dds, a) == |Owned(d.off, a)|
  }

  /** The agents on the list, each with cores, behind the controller itself. */
  ghost predicate Listing(dds: seq<Row>) {
    && dds != [] && Distinct(dds) && dds[0].agent >= 0
    && forall i | 1 <= i < |dds| :: dds[i].agent >= 0 && dds[i].cores > 0
  }

  /** Every count is the number of cores offered to that agent, and no core is on its way between agents. */
  ghost predicate Matched(d: Dir) {
    && Listing(d.dds)
    && d.dds[0].cores == |Owned(d.off, FREE)| && Owned(d.off, d.dds[0].agent) == {}
    && (forall a | a >= 0 && a != d.dds[0].agent :: TallyRight(d, a))
    && forall c | c in d.off :: d.off[c] == FREE || d.off[c] >= 0
  }

  // ---------------------------------------------------------------- either order

  lemma FindIs(dds: seq<Row>, a: int, r: nat)
    requires r <= |dds| && (r < |dds| ==> dds[r].agent == a) && forall k | 0 <= k < r :: dds[k].agent != a
    ensures Find(dds, a, 0) == r
  {
  }

  lemma FindSame(x: seq<Row>, y: seq<Row>, a: int)
    requires |x| == |y| && forall k | 0 <= k < |x| :: x[k].agent == y[k].agent
    ensures Find(x, a, 0) == Find(y, a, 0)
  {
    FindIs(y, a, Find(x, a, 0));
  }

  lemma FindAppend(dds: seq<Row>, e: Row, a: int)
    requires e.agent != a
    ensures Find(dds + [e], a, 0) == var i := Find(dds, a, 0); if i < |dds| then i else |dds| + 1
  {
    var i := Find(dds, a, 0);
    FindIs(dds + [e], a, if i < |dds| then i else |dds| + 1);
  }

  lemma FindWithout(dds: seq<Row>, j: nat, a: int)
    requires j < |dds| && dds[j].agent != a
    ensures Find(Without(dds, j), a, 0) == var i := Find(dds, a, 0); if i < j then i else i - 1
  {
    var i := Find(dds, a, 0);
    FindIs(Without(dds, j), a, if i < j then i else i - 1);
  }

  /** Credit to one agent and debit to another commute, down to the order of the list. */
  lemma CreditDebit(dds: seq<Row>, a: int, n: int, b: int, m: int)
    requires dds != [] && a != b
    ensures Debit(Credit(dds, a, n), b, m) == Credit(Debit(dds, b, m), a, n)
  {
    var i, j := Find(dds, a, 0), Find(dds, b, 0);
    var x, y := Credit(dds, a, n), Debit(dds, b, m);
    if i < |dds| {
      FindSame(dds, x, b);
    } else {
      FindAppend(dds, Row(a, n), b);
    }
    if 0 < j < |dds| {
      if dds[j].cores == m {
        FindWithout(dds, j, a);
        CreditWithout(dds, a, n, i, j);
      } else {
        FindSame(dds, y, a);
      }
    }
  }

  lemma CreditWithout(dds: seq<Row>, a: int, n: int, i: nat, j: nat)
    requires j < |dds| && dds[j].agent != a && i == Find(dds, a, 0)
    ensures var x := Credit(dds, a, n); j < |x| && Credit(Without(dds, j), a, n) == Without(x, j)
  {
    FindWithout(dds, j, a);
  }

  lemma EitherOrderCores(d: Dir, from: int, to: int, cores: seq<int>, cnt: int)
    requires Known(d, cores) && from != to && from != FREE && to != FREE
    requires forall c | c in cores :: d.off[c] == from
    ensures Rem(Add(d, to, cores, cnt), from, to, cores).off == Add(Rem(d, from, to, cores), to, cores, cnt).off
  {
  }

  lemma AddCounts(d: Dir, a: int, cores: seq<int>, cnt: int)
    requires Known(d, cores) && forall c | c in cores :: d.off[c] != FREE
    ensures Add(d, a, cores, cnt).dds == Credit(d.dds, a, cnt)
  {
    NoneFree(d.off, cores);
    assert Head(d.dds, 0) == d.dds;
  }

  lemma RemCores(d: Dir, from: int, to: int, cores: seq<int>)
    requires Known(d, cores) && from != FREE && forall c | c in cores :: d.off[c] == from
    ensures Known(Rem(d, from, to, cores), cores) && forall c | c in cores :: Rem(d, from, to, cores).off[c] == MOVING
  {
  }

  /** When the old agent has the cores, ADD and REM can come in either order. */
  lemma EitherOrder(d: Dir, from: int, to: int, cores: seq<int>, cnt: int)
    requires Known(d, cores) && from != to && from != FREE && to != FREE
    requires forall c | c in cores :: d.off[c] == from
    ensures Known(Add(d, to, cores, cnt), cores) && Known(Rem(d, from, to, cores), cores)
    ensures Rem(Add(d, to, cores, cnt), from, to, cores) == Add(Rem(d, from, to, cores), to, cores, cnt)
  {
    EitherOrderCores(d, from, to, cores, cnt);
    AddCounts(d, to, cores, cnt);
    RemCores(d, from, to, cores);
    AddCounts(Rem(d, from, to, cores), to, cores, cnt);
    CreditDebit(d.dds, to, cnt, from, |cores|);
  }

  lemma {:induction false} NoneFree(off: map<int, int>, cores: seq<int>)
    requires forall c | c in cores :: c in off && off[c] != FREE
    ensures CountIn(off, cores, FREE) == 0
  {
    if cores != [] {
      NoneFree(off, cores[..|cores| - 1]);
    }
  }

  // ---------------------------------------------------------------- what a message leaves

  /** After ADD all the cores are the agent's, and those that were free have left the controller's own count. */
  lemma AddLeaves(d: Dir, a: int, cores: seq<int>, cnt: int)
    requires Known(d, cores)
    ensures var t := Add(d, a, cores, cnt);
            && t.off.Keys == d.off.Keys && (forall c | c in d.off :: t.off[c] == if c in cores then a else d.off[c])
            && forall x :: Tally(t.dds, x) == Tally(d.dds, x) + (if x == a then cnt else 0)
                             - if x == d.dds[0].agent then |set c | c in cores && d.off[c] == -1| else 0
  {
    CountSize(d.off, cores, FREE);
    assert SetOf(cores) * Owned(d.off, FREE) == set c | c in cores && d.off[c] == -1;
    var n := -CountIn(d.off, cores, FREE);
    forall x
      ensures Tally(Add(d, a, cores, cnt).dds, x) == Tally(d.dds, x) + (if x == a then cnt else 0) + if x == d.dds[0].agent then n else 0
    {
      FindSame(d.dds, Head(d.dds, n), x);
      CreditTally(Head(d.dds, n), a, cnt, x);
    }
  }

  /** Whoever is on the list keeps the place, and an agent that ADD brings is the last. */
  lemma AddPlaces(d: Dir, a: int, cores: seq<int>, cnt: int)
    requires Known(d, cores)
    ensures var t := Add(d, a, cores, cnt);
            && |t.dds| == |d.dds| + (if Listed(d.dds, a) then 0 else 1)
            && forall i | 0 <= i < |t.dds| :: t.dds[i].agent == if i < |d.dds| then d.dds[i].agent else a
  {
    FindSame(d.dds, Head(d.dds, -CountIn(d.off, cores, FREE)), a);
    assert Listed(d.dds, a) <==> Find(d.dds, a, 0) < |d.dds|;
  }

  /** After REM a core that was free is the new agent's, one that was the old agent's is on its way, and another's stays;
      the count of the old agent, unless it is the head of the list, falls by the length of the message. */
  lemma RemLeaves(d: Dir, from: int, to: int, cores: seq<int>)
    requires Known(d, cores) && Distinct(d.dds)
    ensures var t := Rem(d, from, to, cores);
            && t.off.Keys == d.off.Keys
            && (forall c | c in d.off ::
                  t.off[c] == if c !in cores then d.off[c] else if d.off[c] == -1 then to
                              else if d.off[c] == from then -2 else d.off[c])
            && forall x :: Tally(t.dds, x) == Tally(d.dds, x) -
                             if x == from && x != d.dds[0].agent && Listed(d.dds, x) then |cores| else 0
  {
    forall x
      ensures Tally(Rem(d, from, to, cores).dds, x) == Tally(d.dds, x) -
              if x == from && x != d.dds[0].agent && Listed(d.dds, x) then |cores| else 0
    {
      if 0 < Find(d.dds, from, 0) < |d.dds| {
        DebitTally(d.dds, from, |cores|, x);
      }
    }
  }

  ghost predicate Listed(dds: seq<Row>, a: int) {
    exists i :: 0 <= i < |dds| && dds[i].agent == a
  }

  /** After FINISH exactly the named cores of the ended agent, the first of the controller's own list apart, are free and
      counted by the controller, and the agent is off the list. */
  lemma FinishLeaves(d: Dir, self: int, a: int, cores: seq<int>)
    requires Known(d, cores) && Distinct(d.dds) && a != d.dds[0].agent
    ensures var t := Finish(d, self, a, cores);
            && t.off.Keys == d.off.Keys
            && (forall c | c in d.off :: t.off[c] == if c in cores && c != self && d.off[c] == a then -1 else d.off[c])
            && forall x :: Tally(t.dds, x) == if x == a then 0 else
                 Tally(d.dds, x) + if x == d.dds[0].agent then |set c | c in cores && c != self && d.off[c] == a| else 0
  {
    var back := Returned(d.off, self, a, cores);
    ReturnedDistinct(d.off, self, a, cores);
    DistinctSize(back);
    assert SetOf(back) == set c | c in cores && c != self && d.off[c] == a;
    forall x
      ensures Tally(Finish(d, self, a, cores).dds, x) == if x == a then 0 else
                Tally(d.dds, x) + if x == d.dds[0].agent then |back| else 0
    {
      FindSame(d.dds, Head(d.dds, |back|), x);
      DropTally(Head(d.dds, |back|), a, x);
    }
  }

  // ---------------------------------------------------------------- counts agree again

  ghost function SetOf(cores: seq<int>): set<int> {
    set c | c in cores
  }

  lemma {:induction false} DistinctSize(cores: seq<int>)
    requires Different(cores)
    ensures |SetOf(cores)| == |cores|
  {
    if cores != [] {
      var rest, last := cores[..|cores| - 1], cores[|cores| - 1];
      DistinctSize(rest);
      assert SetOf(cores) == SetOf(rest) + {last};
      assert last !in rest;
    }
  }

  lemma {:induction false} CountSize(off: map<int, int>, cores: seq<int>, a: int)
    requires forall c | c in cores :: c in off
    requires Different(cores)
    ensures CountIn(off, cores, a) == |SetOf(cores) * Owned(off, a)|
  {
    if cores != [] {
      var rest, last := cores[..|cores| - 1], cores[|cores| - 1];
      CountSize(off, rest, a);
      assert last !in rest;
      if off[last] == a {
        assert SetOf(cores) * Owned(off, a) == SetOf(rest) * Owned(off, a) + {last};
      } else {
        assert SetOf(cores) * Owned(off, a) == SetOf(rest) * Owned(off, a);
      }
    }
  }

  lemma CreditTally(dds: seq<Row>, a: int, n: int, x: int)
    ensures Tally(Credit(dds, a, n), x) == Tally(dds, x) + if x == a then n else 0
  {
    var i := Find(dds, a, 0);
    if i < |dds| {
      FindSame(dds, Credit(dds, a, n), x);
    } else if x == a {
      FindIs(dds + [Row(a, n)], a, |dds|);
    } else {
      FindAppend(dds, Row(a, n), x);
    }
  }

  lemma CreditListing(dds: seq<Row>, a: int, n: int)
    requires Listing(dds) && a >= 0 && a != dds[0].agent && n > 0
    ensures Listing(Credit(dds, a, n)) && Credit(dds, a, n)[0] == dds[0]
  {
  }

  lemma WithoutTally(dds: seq<Row>, i: nat, x: int)
    requires Distinct(dds) && i < |dds|
    ensures Tally(Without(dds, i), x) == if x == dds[i].agent then 0 else Tally(dds, x)
  {
    if x == dds[i].agent {
      FindIs(Without(dds, i), x, |dds| - 1);
    } else {
      FindWithout(dds, i, x);
    }
  }

  lemma DebitTally(dds: seq<Row>, a: int, n: int, x: int)
    requires Distinct(dds) && 0 < Find(dds, a, 0) < |dds|
    ensures Tally(Debit(dds, a, n), x) == Tally(dds, x) - if x == a then n else 0
  {
    var i := Find(dds, a, 0);
    if dds[i].cores == n {
      WithoutTally(dds, i, x);
    } else {
      FindSame(dds, Debit(dds, a, n), x);
    }
  }

  lemma DebitListing(dds: seq<Row>, a: int, n: int)
    requires Listing(dds) && 0 < Find(dds, a, 0) < |dds| && n <= Tally(dds, a)
    ensures Listing(Debit(dds, a, n)) && Debit(dds, a, n)[0] == dds[0]
  {
    var i := Find(dds, a, 0);
    if dds[i].cores == n {
      WithoutListing(dds, i);
    }
  }

  lemma WithoutListing(dds: seq<Row>, i: nat)
    requires Listing(dds) && 0 < i < |dds|
    ensures Listing(Without(dds, i)) && Without(dds, i)[0] == dds[0]
  {
  }

  /** Handing the cores over moves their number from one agent's to the other's. */
  lemma OwnedAfter(off: map<int, int>, next: map<int, int>, s: set<int>, from: int, to: int, a: int)
    requires next.Keys == off.Keys && from != to && forall c | c in s :: c in off && off[c] == from
    requires forall c | c in off :: next[c] == if c in s then to else off[c]
    ensures |Owned(next, a)| == |Owned(off, a)| + (if a == to then |s| else if a == from then -|s| else 0)
  {
    var was, now := Owned(off, a), Owned(next, a);
    forall c | c in s
      ensures c in Owned(off, from)
    {
    }
    forall c: int
      ensures c in now <==> if c in s then to == a else c in was
    {
      assert c in next <==> c in off;
    }
    if a == to {
      assert now == was + s && was !! s;
    } else if a == from {
      assert now == was - s && s <= was;
    } else {
      assert now == was;
    }
  }

  /** After a hand-over, whichever message came first, counts and cores agree again if and only if the count added
      is the number of cores handed over. */
  lemma HandOverMatches(d: Dir, from: int, to: int, cores: seq<int>, cnt: int)
    requires Matched(d) && Known(d, cores) && cores != [] && forall c | c in cores :: d.off[c] == from
    requires from != to && from >= 0 && to >= 0 && to != d.dds[0].agent
    ensures Known(Add(d, to, cores, cnt), cores)
    ensures Matched(Rem(Add(d, to, cores, cnt), from, to, cores)) <==> cnt == |cores|
  {
    var t := Rem(Add(d, to, cores, cnt), from, to, cores);
    FromListed(d, from, cores);
    AddCounts(d, to, cores, cnt);
    HandOverCounts(d, from, to, cores, cnt, t);
    var self := d.dds[0].agent;
    DistinctSize(cores);
    OwnedAfter(d.off, t.off, SetOf(cores), from, to, to);
    assert TallyRight(d, to);
    if Matched(t) {
      assert TallyRight(t, to);
    }
    if cnt == |cores| {
      forall a | a >= 0 && a != self
        ensures TallyRight(t, a)
      {
        assert TallyRight(d, a);
        OwnedAfter(d.off, t.off, SetOf(cores), from, to, a);
      }
      OwnedAfter(d.off, t.off, SetOf(cores), from, to, FREE);
      HandOverListing(d, from, to, cores, t);
      assert Owned(t.off, self) == {};
    }
  }

  /** An agent that has cores is on the list, behind the head, with at least as many. */
  lemma FromListed(d: Dir, from: int, cores: seq<int>)
    requires Matched(d) && Known(d, cores) && cores != [] && forall c | c in cores :: d.off[c] == from
    requires from >= 0
    ensures 0 < Find(d.dds, from, 0) < |d.dds| && |cores| <= Tally(d.dds, from) && from != d.dds[0].agent
  {
    var c := cores[0];
    assert c in cores && d.off[c] == from;
    assert c in Owned(d.off, from);
    assert TallyRight(d, from);
    DistinctSize(cores);
    SubsetSize(SetOf(cores), Owned(d.off, from));
  }

  lemma HandOverCounts(d: Dir, from: int, to: int, cores: seq<int>, cnt: int, t: Dir)
    requires Distinct(d.dds) && Known(d, cores) && from != to && 0 < Find(d.dds, from, 0) < |d.dds|
    requires t.dds == Debit(Credit(d.dds, to, cnt), from, |cores|)
    ensures forall a :: Tally(t.dds, a) == Tally(d.dds, a) + (if a == to then cnt else if a == from then -|cores| else 0)
  {
    var x := Credit(d.dds, to, cnt);
    CreditFind(d.dds, to, cnt, from);
    forall a
      ensures Tally(t.dds, a) == Tally(d.dds, a) + (if a == to then cnt else if a == from then -|cores| else 0)
    {
      CreditTally(d.dds, to, cnt, a);
      DebitTally(x, from, |cores|, a);
    }
  }

  lemma CreditFind(dds: seq<Row>, a: int, n: int, b: int)
    requires Distinct(dds) && a != b && Find(dds, b, 0) < |dds|
    ensures Distinct(Credit(dds, a, n)) && Find(Credit(dds, a, n), b, 0) == Find(dds, b, 0) < |Credit(dds, a, n)|
  {
    if Find(dds, a, 0) < |dds| {
      FindSame(dds, Credit(dds, a, n), b);
    } else {
      FindAppend(dds, Row(a, n), b);
    }
  }

  lemma HandOverListing(d: Dir, from: int, to: int, cores: seq<int>, t: Dir)
    requires Listing(d.dds) && cores != [] && from != to && to >= 0 && to != d.dds[0].agent
    requires 0 < Find(d.dds, from, 0) < |d.dds| && |cores| <= Tally(d.dds, from)
    requires t.dds == Debit(Credit(d.dds, to, |cores|), from, |cores|)
    ensures Listing(t.dds) && t.dds[0] == d.dds[0]
  {
    CreditListing(d.dds, to, |cores|);
    CreditFind(d.dds, to, |cores|, from);
    CreditTally(d.dds, to, |cores|, from);
    DebitListing(Credit(d.dds, to, |cores|), from, |cores|);
  }

  /** The same for cores that were free: they also leave the controller's own count. */
  lemma FreshMatches(d: Dir, to: int, cores: seq<int>, cnt: int)
    requires Matched(d) && Known(d, cores) && cores != [] && forall c | c in cores :: d.off[c] == FREE
    requires to >= 0 && to != d.dds[0].agent
    ensures Matched(Add(d, to, cores, cnt)) <==> cnt == |cores|
  {
    var t, h := Add(d, to, cores, cnt), Head(d.dds, -|cores|);
    DistinctSize(cores);
    CountSize(d.off, cores, FREE);
    assert SetOf(cores) * Owned(d.off, FREE) == SetOf(cores);
    assert t.dds == Credit(h, to, cnt);
    OwnedAfter(d.off, t.off, SetOf(cores), FREE, to, to);
    HeadTally(d.dds, -|cores|, to);
    CreditTally(h, to, cnt, to);
    assert TallyRight(d, to);
    if Matched(t) {
      CreditHead(h, to, cnt);
      assert TallyRight(t, to);
    }
    if cnt == |cores| {
      forall a | a >= 0 && a != d.dds[0].agent
        ensures TallyRight(t, a)
      {
        assert TallyRight(d, a);
        HeadTally(d.dds, -|cores|, a);
        CreditTally(h, to, cnt, a);
        OwnedAfter(d.off, t.off, SetOf(cores), FREE, to, a);
      }
      OwnedAfter(d.off, t.off, SetOf(cores), FREE, to, FREE);
      CreditListing(h, to, cnt);
      assert Owned(t.off, d.dds[0].agent) == {};
    }
  }

  lemma HeadTally(dds: seq<Row>, n: int, a: int)
    requires dds != [] && a != dds[0].agent
    ensures Tally(Head(dds, n), a) == Tally(dds, a)
  {
    FindSame(dds, Head(dds, n), a);
  }

  lemma CreditHead(dds: seq<Row>, a: int, n: int)
    requires dds != [] && a != dds[0].agent
    ensures Credit(dds, a, n)[0] == dds[0]
  {
  }

  lemma {:induction false} ReturnedDistinct(off: map<int, int>, self: int, a: int, cores: seq<int>)
    requires forall c | c in cores :: c in off
    requires Different(cores)
    ensures Different(Returned(off, self, a, cores))
  {
    if cores != [] {
      var rest, last := cores[..|cores| - 1], cores[|cores| - 1];
      ReturnedDistinct(off, self, a, rest);
      assert last !in rest;
      assert last !in Returned(off, self, a, rest);
    }
  }

  /** After an application has ended, counts and cores agree if and only if the message named all its cores here
      and none of them heads the controller's own list; that core is never another node's (HeadNotGivenBack). */
  lemma FinishMatches(d: Dir, self: int, a: int, cores: seq<int>)
    requires Matched(d) && Known(d, cores) && a >= 0 && a != d.dds[0].agent
    ensures Matched(Finish(d, self, a, cores)) <==> forall c | c in d.off && d.off[c] == a :: c in cores && c != self
  {
    var t, back := Finish(d, self, a, cores), Returned(d.off, self, a, cores);
    var h := Head(d.dds, |back|);
    ReturnedDistinct(d.off, self, a, cores);
    DistinctSize(back);
    DropCounts(h, a);
    OwnedAfter(d.off, t.off, SetOf(back), a, FREE, a);
    if Matched(t) {
      assert TallyRight(t, a);
      forall c | c in d.off && d.off[c] == a
        ensures c in cores && c != self
      {
        assert c !in Owned(t.off, a);
      }
    }
    if forall c | c in d.off && d.off[c] == a :: c in cores && c != self {
      forall x | x >= 0 && x != d.dds[0].agent
        ensures TallyRight(t, x)
      {
        assert TallyRight(d, x);
        HeadTally(d.dds, |back|, x);
        DropTally(h, a, x);
        OwnedAfter(d.off, t.off, SetOf(back), a, FREE, x);
      }
      assert Owned(t.off, a) == {};
      OwnedAfter(d.off, t.off, SetOf(back), a, FREE, FREE);
      assert Owned(t.off, d.dds[0].agent) == {};
    }
  }

  lemma DropTally(dds: seq<Row>, a: int, x: int)
    requires dds != [] && Distinct(dds) && a != dds[0].agent
    ensures Tally(Drop(dds, a), x) == if x == a then 0 else Tally(dds, x)
  {
    var i := Find(dds, a, 1);
    FindIs(dds, a, i);
    if i < |dds| {
      WithoutTally(dds, i, x);
    }
  }

  lemma DropCounts(dds: seq<Row>, a: int)
    requires dds != [] && a != dds[0].agent && Listing(dds)
    ensures Listing(Drop(dds, a)) && Drop(dds, a)[0] == dds[0] && Tally(Drop(dds, a), a) == 0
  {
    DropTally(dds, a, a);
  }

  // ---------------------------------------------------------------- a directory that stops matching

  /** A controller, agent 1, with core 4 free and cores 5 and 6 at agent 7. */
  const SMALL := Dir(map[4 := FREE, 5 := 7, 6 := 7], [Row(1, 1), Row(7, 2)])

  lemma SmallMatched()
    ensures Matched(SMALL)
  {
    assert Owned(SMALL.off, FREE) == {4} && Owned(SMALL.off, 7) == {5, 6};
    FindIs(SMALL.dds, 7, 1);
    forall a | a >= 0 && a != 1
      ensures TallyRight(SMALL, a)
    {
      if a != 7 {
        FindIs(SMALL.dds, a, 2);
        assert Owned(SMALL.off, a) == {};
      }
    }
  }

  /** Two cores change hands and the message has one of them, the other being another controller's: with the length
      of the whole message added, the counts are wrong, whether the core was at an agent or free. */
  lemma ShortMessage()
    ensures Matched(SMALL) && Known(SMALL, [5]) && Known(Add(SMALL, 8, [5], 2), [5]) && Known(SMALL, [4])
    ensures !Matched(Rem(Add(SMALL, 8, [5], 2), 7, 8, [5])) && !Matched(Add(SMALL, 8, [4], 2))
  {
    SmallMatched();
    HandOverMatches(SMALL, 7, 8, [5], 2);
    FreshMatches(SMALL, 8, [4], 2);
  }
}
