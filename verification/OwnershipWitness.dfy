/** Runs over the rings from the start in which a core is lost, one for every way in which it can be: reports that come
    after the next owner has given the core back, a FINISH that finds an older owner's report in between, and a refusal to
    a controller that has heard such a report since its offer. */
module OwnershipWitness {
  import opened CoreList
  import opened Ownership
  import opened OwnershipLosses
  import opened OwnershipRing

  ghost predicate Reached(k: Cluster, x: Net, t: Net) {
    Valid(k) && exists acts :: Leads(k, x, acts, t)
  }

  ghost predicate Leads(k: Cluster, x: Net, acts: seq<Action>, t: Net)
    requires Valid(k)
  {
    PossibleNet(k, x, acts) && AfterNet(k, x, acts) == t
  }

  lemma {:induction false} OneMore(k: Cluster, x: Net, acts: seq<Action>, a: Action)
    requires Valid(k) && PossibleNet(k, x, acts) && CanStep(k, AfterNet(k, x, acts), a)
    ensures Leads(k, x, acts + [a], NextNet(k, AfterNet(k, x, acts), a))
    decreases |acts|
  {
    if acts == [] {
      assert [] + [a] == [a];
    } else {
      OneMore(k, NextNet(k, x, acts[0]), acts[1..], a);
      assert (acts + [a])[1..] == acts[1..] + [a];
    }
  }

  lemma Step(k: Cluster, x: Net, a: Action)
    requires Valid(k) && Reached(k, Begin(), x) && CanStep(k, x, a)
    ensures Reached(k, Begin(), NextNet(k, x, a))
  {
    var acts :| Leads(k, Begin(), acts, x);
    OneMore(k, Begin(), acts, a);
  }

  // ---------------------------------------------------------------- lists and messages

  /** Cores offered to nobody. */
  function Plain(cores: seq<nat>): (l: List)
    ensures |l| == |cores| && forall i | 0 <= i < |l| :: l[i] == Entry(cores[i], NOBODY)
  {
    seq(|cores|, i requires 0 <= i < |cores| => Entry(cores[i], NOBODY))
  }

  lemma {:induction false} FreshPlain(cores: seq<nat>, self: int)
    requires forall i | 0 <= i < |cores| :: cores[i] != self
    ensures Fresh(cores, self) == Plain(cores)
  {
    if cores != [] {
      FreshPlain(cores[..|cores| - 1], self);
    }
  }

  lemma {:induction false} FreshOwn(self: nat, rest: seq<nat>)
    requires self !in rest
    ensures [Entry(self, NOBODY)] + Fresh([self] + rest, self) == Plain([self] + rest)
  {
    var cores := [self] + rest;
    var m := cores[..|cores| - 1];
    if rest == [] {
      assert m == [];
    } else {
      assert m == [self] + rest[..|rest| - 1];
      FreshOwn(self, rest[..|rest| - 1]);
    }
  }

  lemma {:induction false} OfferedPlain(cores: seq<nat>)
    ensures OfferedOut(Plain(cores)) == 0
  {
    if cores != [] {
      OfferedPlain(cores[..|cores| - 1]);
      assert Plain(cores)[..|cores| - 1] == Plain(cores[..|cores| - 1]);
    }
  }

  /** Nobody reports a core that is not there. */
  ghost predicate Known(updates: multiset<Update>) {
    forall u | u in updates :: u.core < 10
  }

  lemma {:induction false} AddKnown(cores: seq<nat>, agent: nat)
    requires forall i | 0 <= i < |cores| :: cores[i] < 10
    ensures Known(AddAll(cores, agent))
  {
    if cores != [] {
      AddKnown(cores[..|cores| - 1], agent);
    }
  }

  lemma ReportOne(c: nat, agent: nat, was: nat)
    ensures AddAll([c], agent) == multiset{AddMsg(c, agent)} && RemAll([c], was, agent) == multiset{RemMsg(c, was, agent)}
  {
    assert [c][..0] == [];
  }

  // ---------------------------------------------------------------- a small cluster

  /** Controller 0 with cores 0 to 9. */
  ghost predicate Ten(k: Cluster) {
    Valid(k) && (forall n: nat :: n in k.nodes <==> n < 10) && forall n | n in k.nodes :: k.home[n] == 0
  }

  lemma TenCores()
    ensures Ten(Cluster({0, 1, 2, 3, 4, 5, 6, 7, 8, 9},
                        map[0 := 0, 1 := 0, 2 := 0, 3 := 0, 4 := 0, 5 := 0, 6 := 0, 7 := 0, 8 := 0, 9 := 0]))
  {
  }

  /** The controller has core i at place i of its list. */
  ghost predicate Home(s: State) {
    |s.At(0)| == 10 && forall i: nat | i < 10 :: s.At(0)[i].core == i
  }

  function Begin(): Net {
    Net(State(map[0 := seq(10, i => if i >= 0 then Entry(i, NOBODY) else Entry(0, NOBODY))], map[], {}, {}, multiset{}),
        n => [])
  }

  ghost predicate From(k: Cluster, x: Net) {
    Ten(k) && Reached(k, Begin(), x) && Home(x.s) && Known(x.s.updates)
  }

  lemma Begins(k: Cluster)
    requires Ten(k)
    ensures StartNet(k, Begin()) && From(k, Begin())
  {
    assert Leads(k, Begin(), [], Begin());
  }

  lemma AtHome(s: State, c: nat)
    requires Home(s) && c < 10
    ensures Find(s.At(0), c, 0) == c
  {
    FindIs(s.At(0), c, 0, c);
  }

  /** Only the controller's marks and the reports on their way differ. */
  ghost predicate Same(x: Net, t: Net) {
    && t.s.offers == x.s.offers && t.s.inits == x.s.inits && t.s.finishing == x.s.finishing && SameRings(x, t)
    && forall n: nat | n != 0 :: t.s.At(n) == x.s.At(n)
  }

  ghost predicate SameRings(x: Net, t: Net) {
    forall n: nat :: t.rings(n) == x.rings(n)
  }

  /** `signal` is new at the end of ring `g`. */
  ghost predicate OneSignal(x: Net, t: Net, g: nat, signal: Signal) {
    forall n: nat :: t.rings(n) == x.rings(n) + if n == g then [signal] else []
  }

  ghost predicate Silent(x: Net) {
    forall n: nat :: x.rings(n) == []
  }

  lemma HearAdd(k: Cluster, x: Net, c: nat, agent: nat) returns (t: Net)
    requires From(k, x) && AddMsg(c, agent) in x.s.updates
    ensures From(k, t) && Same(x, t) && t.s.updates == x.s.updates - multiset{AddMsg(c, agent)}
    ensures t.s.At(0)[c] == Entry(c, agent)
  {
    AtHome(x.s, c);
    Step(k, x, AddCores(c, agent));
    t := NextNet(k, x, AddCores(c, agent));
  }

  lemma HearRem(k: Cluster, x: Net, c: nat, was: nat, now: nat) returns (t: Net)
    requires From(k, x) && RemMsg(c, was, now) in x.s.updates
    ensures From(k, t) && Same(x, t) && t.s.updates == x.s.updates - multiset{RemMsg(c, was, now)}
  {
    AtHome(x.s, c);
    Step(k, x, RemCores(c, was, now));
    t := NextNet(k, x, RemCores(c, was, now));
  }

  /** The controller hears all reports. */
  lemma {:induction false} HearAll(k: Cluster, x: Net) returns (t: Net)
    requires From(k, x)
    ensures From(k, t) && Same(x, t) && t.s.updates == multiset{}
    decreases |x.s.updates|
  {
    t := x;
    if x.s.updates != multiset{} {
      var u :| u in x.s.updates;
      if u.AddMsg? {
        t := HearAdd(k, x, u.core, u.agent);
      } else {
        t := HearRem(k, x, u.core, u.was, u.now);
      }
      t := HearAll(k, t);
    }
  }

  // ---------------------------------------------------------------- offers made and accepted

  /** No offer waits for a decision. */
  ghost predicate Settled(offers: map<(nat, nat), Offer>) {
    forall p | p in offers :: offers[p].status == Accepted
  }

  /** `g` can offer the cores at `at` to `r`, which has read all its signals. */
  ghost predicate CanOffer(k: Cluster, x: Net, g: nat, r: nat, at: seq<nat>) {
    From(k, x) && Enabled(k, x.s, MakeOffer(g, r, at)) && x.rings(r) == []
  }

  /** The state with the cores at `at` of `g` offered to `r`. */
  ghost function WithOffer(s: State, g: nat, r: nat, at: seq<nat>, status: Status): State
    requires Inside(at, s.At(g))
  {
    s.With(g, Marked(s.At(g), at, r)).(offers := s.offers[(g, r) := Offer(CoresAt(s.At(g), at), status)])
  }

  lemma Made(k: Cluster, x: Net, g: nat, r: nat, at: seq<nat>) returns (t: Net)
    requires CanOffer(k, x, g, r, at)
    ensures From(k, t) && t.s == WithOffer(x.s, g, r, at, Sent) && OneSignal(x, t, r, OfferFrom(g))
  {
    Step(k, x, MakeOffer(g, r, at));
    t := NextNet(k, x, MakeOffer(g, r, at));
  }

  lemma Taken(k: Cluster, x: Net, g: nat, r: nat, forInit: bool) returns (t: Net)
    requires From(k, x) && OpenWith(x.s, g, r, Sent) && x.rings(r) == [OfferFrom(g)]
    ensures From(k, t) && t.rings(r) == [] && forall n: nat | n != r :: t.rings(n) == x.rings(n)
    ensures t.s == x.s.(offers := x.s.offers[(g, r) := x.s.offers[(g, r)].(status := Held(forInit))])
  {
    Step(k, x, TakeOffer(g, r, forInit));
    t := NextNet(k, x, TakeOffer(g, r, forInit));
  }

  lemma Offered(k: Cluster, x: Net, g: nat, r: nat, at: seq<nat>, forInit: bool) returns (t: Net)
    requires CanOffer(k, x, g, r, at)
    ensures From(k, t) && t.s == WithOffer(x.s, g, r, at, Held(forInit)) && SameRings(x, t)
  {
    t := Made(k, x, g, r, at);
    t := Taken(k, t, g, r, forInit);
  }

  lemma DecidedOne(offers: map<(nat, nat), Offer>, g: nat, r: nat, cores: seq<nat>, forInit: bool)
    requires Settled(offers)
    ensures Decided(offers[(g, r) := Offer(cores, Held(forInit))], r, forInit)[(g, r) := Offer(cores, Accepted)] ==
              offers[(g, r) := Offer(cores, Accepted)]
  {
  }

  /** The cores at `at` offered by `g` to `r` and accepted for the application that `r` runs. The answer is in the ring
      of `g`. */
  lemma Deal(k: Cluster, x: Net, g: nat, r: nat, at: seq<nat>) returns (t: Net)
    requires CanOffer(k, x, g, r, at) && Settled(x.s.offers) && !IsController(k, r) && x.s.At(r) != []
    ensures Ten(k) && Reached(k, Begin(), t) && OneSignal(x, t, g, AnswerFrom(r))
    ensures var cores := CoresAt(x.s.At(g), at);
            t.s == WithOffer(x.s, g, r, at, Accepted).With(r, x.s.At(r) + Fresh(cores, -1)).(
                     updates := x.s.updates + AddAll(cores, r))
  {
    var cores := CoresAt(x.s.At(g), at);
    t := Offered(k, x, g, r, at, false);
    DecidedOne(x.s.offers, g, r, cores, false);
    Step(k, t, ChooseSelf(r, g));
    t := NextNet(k, t, ChooseSelf(r, g));
  }

  lemma MarkOne(l: List, i: nat, r: nat)
    requires i < |l|
    ensures Inside([i], l) && Marked(l, [i], r) == l[i := Entry(l[i].core, r)] && CoresAt(l, [i]) == [l[i].core]
  {
    assert [i][..0] == [];
  }

  /** A manager gives one core, at place `i` of its list, to another. */
  lemma DealOne(k: Cluster, x: Net, g: nat, r: nat, i: nat, c: nat) returns (t: Net)
    requires CanOffer(k, x, g, r, [i]) && Settled(x.s.offers) && g != 0 && r != 0 && x.s.At(r) != []
    requires i < |x.s.At(g)| && x.s.At(g)[i].core == c < 10
    ensures From(k, t) && Settled(t.s.offers) && t.s.offers == x.s.offers[(g, r) := Offer([c], Accepted)]
    ensures t.s.inits == x.s.inits && t.s.finishing == x.s.finishing
    ensures t.s.updates == x.s.updates + multiset{AddMsg(c, r)} && OneSignal(x, t, g, AnswerFrom(r))
    ensures t.s.At(g) == x.s.At(g)[i := Entry(c, r)] && t.s.At(r) == x.s.At(r) + [Entry(c, NOBODY)]
    ensures forall n: nat | n != g && n != r :: t.s.At(n) == x.s.At(n)
  {
    MarkOne(x.s.At(g), i, r);
    FreshPlain([c], -1);
    assert Plain([c]) == [Entry(c, NOBODY)];
    ReportOne(c, r, g);
    t := Deal(k, x, g, r, [i]);
    Dealt(x.s, t.s, g, r, c, x.s.At(g)[i := Entry(c, r)], x.s.At(r) + [Entry(c, NOBODY)]);
  }

  lemma Dealt(s: State, t: State, g: nat, r: nat, c: nat, m: List, l: List)
    requires g != r && g != 0 && r != 0 && Settled(s.offers) && Home(s) && Known(s.updates) && c < 10
    requires t == s.With(g, m).(offers := s.offers[(g, r) := Offer([c], Accepted)]).With(r, l).(
                    updates := s.updates + multiset{AddMsg(c, r)})
    ensures Settled(t.offers) && t.At(g) == m && t.At(r) == l && Home(t) && Known(t.updates)
    ensures forall n: nat | n != g && n != r :: t.At(n) == s.At(n)
  {
  }

  // ---------------------------------------------------------------- four applications

  lemma HomeCores(s: State, at: seq<nat>)
    requires Home(s) && Inside(at, s.At(0))
    ensures CoresAt(s.At(0), at) == at
  {
  }

  /** Node `r` accepts the controller's offer of `cores` for an application that it runs itself, and the controller reads
      the answer. */
  lemma ChoosesItself(k: Cluster, x: Net, r: nat, cores: seq<nat>) returns (t: Net)
    requires From(k, x) && x.s.offers == map[(0, r) := Offer(cores, Held(true))] && 0 < r < 10 && r in cores
    requires x.rings(0) == []
    ensures Ten(k) && Reached(k, Begin(), t) && SameRings(x, t)
    ensures t.s == x.s.With(r, x.s.At(r) + [Entry(r, NOBODY)] + Fresh(cores, r)).(
                     offers := map[], updates := x.s.updates + AddAll(cores, r))
  {
    var none: map<(nat, nat), Offer> := map[];
    DecidedOne(none, 0, r, cores, true);
    assert none[(0, r) := Offer(cores, Held(true))] == x.s.offers;
    Step(k, x, ChooseInit(r, 0, r));
    t := NextNet(k, x, ChooseInit(r, 0, r));
    assert t.rings(0) == [AnswerFrom(r)];
    t := ControllerReads(k, t, r);
  }

  lemma ControllerReads(k: Cluster, x: Net, r: nat) returns (t: Net)
    requires Ten(k) && Reached(k, Begin(), x) && OpenWith(x.s, 0, r, Accepted) && x.rings(0) == [AnswerFrom(r)]
    ensures Ten(k) && Reached(k, Begin(), t) && t.s == x.s.(offers := x.s.offers - {(0, r)})
    ensures t.rings(0) == [] && forall n: nat | n != 0 :: t.rings(n) == x.rings(n)
  {
    Step(k, x, TakeAnswer(0, r));
    t := NextNet(k, x, TakeAnswer(0, r));
  }

  /** Node `r` starts an application on its own core and `rest`, all of them the controller's. */
  lemma StartsApp(k: Cluster, x: Net, r: nat, rest: seq<nat>) returns (t: Net)
    requires From(k, x) && x.s.offers == map[] && 0 < r < 10 && x.s.At(r) == [] && Offerable(x.s.At(0), [r] + rest)
    requires Silent(x)
    ensures From(k, t) && t.s.offers == map[] && t.s.inits == x.s.inits && t.s.finishing == x.s.finishing && Silent(t)
    ensures t.s.At(r) == Plain([r] + rest) && forall n: nat | n != 0 && n != r :: t.s.At(n) == x.s.At(n)
    ensures forall i: nat | i < 10 && i != r && i !in rest :: t.s.At(0)[i] == x.s.At(0)[i]
  {
    var at := [r] + rest;
    HomeCores(x.s, at);
    t := Offered(k, x, 0, r, at, true);
    assert at[0] == r;
    t := ChoosesItself(k, t, r, at);
    Started(x.s, t.s, r, rest);
  }

  lemma Started(s: State, t: State, r: nat, rest: seq<nat>)
    requires Home(s) && Known(s.updates) && 0 < r < 10 && s.At(r) == [] && Offerable(s.At(0), [r] + rest)
    requires t.lists == s.With(0, Marked(s.At(0), [r] + rest, r)).With(
                              r, s.At(r) + [Entry(r, NOBODY)] + Fresh([r] + rest, r)).lists
    requires t.updates == s.updates + AddAll([r] + rest, r)
    ensures Home(t) && Known(t.updates) && t.At(r) == Plain([r] + rest)
    ensures forall n: nat | n != 0 && n != r :: t.At(n) == s.At(n)
    ensures forall i: nat | i < 10 && i != r && i !in rest :: t.At(0)[i] == s.At(0)[i]
  {
    var at := [r] + rest;
    assert r !in rest by {
      forall x | 0 <= x < |rest|
        ensures rest[x] != r
      {
        assert at[0] != at[x + 1];
      }
    }
    FreshOwn(r, rest);
    assert s.At(r) + [Entry(r, NOBODY)] + Fresh(at, r) == [Entry(r, NOBODY)] + Fresh(at, r);
    AddKnown(at, r);
    forall i: nat | i < 10
      ensures t.At(0)[i].core == i
      ensures i != r && i !in rest ==> t.At(0)[i] == s.At(0)[i]
    {
      MarkedAt(s.At(0), at, r, i);
    }
  }

  lemma FirstOffer()
    ensures Begin().s.At(0) == Begin().s.lists[0] && Offerable(Begin().s.At(0), [1] + [4, 5, 6, 7])
    ensures [1] + [4, 5, 6, 7] == [1, 4, 5, 6, 7]
    ensures forall n: nat | n > 0 :: Begin().s.At(n) == []
  {
  }

  lemma FirstStarts(k: Cluster) returns (t: Net)
    requires Ten(k)
    ensures From(k, t) && t.s.offers == map[] && t.s.inits == {} && t.s.finishing == {} && Silent(t)
    ensures t.s.At(1) == Plain([1, 4, 5, 6, 7]) && forall n: nat | n > 1 :: t.s.At(n) == []
    ensures forall i: nat | i < 10 && i !in [1, 4, 5, 6, 7] :: t.s.At(0)[i].to == NOBODY
  {
    Begins(k);
    FirstOffer();
    t := StartsApp(k, Begin(), 1, [4, 5, 6, 7]);
  }

  lemma SecondStarts(k: Cluster) returns (t: Net)
    requires Ten(k)
    ensures From(k, t) && t.s.offers == map[] && t.s.inits == {} && t.s.finishing == {} && Silent(t)
    ensures t.s.At(1) == Plain([1, 4, 5, 6, 7]) && t.s.At(8) == Plain([8, 9])
    ensures forall n: nat | n > 1 && n != 8 :: t.s.At(n) == []
    ensures t.s.At(0)[3].to == NOBODY == t.s.At(0)[2].to
  {
    t := FirstStarts(k);
    t := StartsApp(k, t, 8, [9]);
    assert [8] + [9] == [8, 9];
  }

  lemma ThirdStarts(k: Cluster) returns (t: Net)
    requires Ten(k)
    ensures From(k, t) && t.s.offers == map[] && t.s.inits == {} && t.s.finishing == {} && Silent(t)
    ensures t.s.At(1) == Plain([1, 4, 5, 6, 7]) && t.s.At(8) == Plain([8, 9]) && t.s.At(3) == Plain([3])
    ensures t.s.At(2) == [] && t.s.At(0)[2].to == NOBODY
  {
    t := SecondStarts(k);
    t := StartsApp(k, t, 3, []);
    assert [3] + [] == [3];
  }

  /** Four managers, all known to the controller. */
  lemma Outset(k: Cluster) returns (t: Net)
    requires Ten(k)
    ensures From(k, t) && t.s.offers == map[] && t.s.inits == {} && t.s.finishing == {} && t.s.updates == multiset{}
    ensures t.s.At(1) == Plain([1, 4, 5, 6, 7]) && t.s.At(8) == Plain([8, 9])
    ensures t.s.At(3) == Plain([3]) && t.s.At(2) == Plain([2]) && Silent(t)
  {
    t := ThirdStarts(k);
    t := StartsApp(k, t, 2, []);
    assert [2] + [] == [2];
    t := HearAll(k, t);
  }

  // ---------------------------------------------------------------- answers and ends

  /** The giver of one core reads that it was accepted, and reports it. */
  lemma Answered(k: Cluster, x: Net, g: nat, r: nat, c: nat) returns (t: Net)
    requires From(k, x) && g != 0 && c < 10 && (g, r) in x.s.offers && x.s.offers[(g, r)] == Offer([c], Accepted)
    requires x.rings(g) != [] && x.rings(g)[0] == AnswerFrom(r)
    ensures From(k, t) && t.s.updates == x.s.updates + multiset{RemMsg(c, g, r)}
    ensures forall n: nat | n != g :: t.s.At(n) == x.s.At(n)
  {
    ReportOne(c, r, g);
    Step(k, x, TakeAnswer(g, r));
    t := NextNet(k, x, TakeAnswer(g, r));
  }

  /** An application ends. */
  lemma Ended(k: Cluster, x: Net, m: nat) returns (t: Net)
    requires From(k, x) && 0 < m < 10 && x.s.At(m) != [] && AllBack(x.s.At(m)) && x.s.finishing == {}
    ensures From(k, t) && t.s.offers == x.s.offers && t.s.inits == x.s.inits && t.s.updates == x.s.updates
    ensures t.s.At(m) == [] && SameRings(x, t)
    ensures forall n: nat | n != m :: t.s.At(n) == x.s.At(n)
    ensures forall c: nat :: (m, c) in t.s.finishing <==> exists i :: 0 <= i < |x.s.At(m)| && x.s.At(m)[i].core == c
  {
    Step(k, x, End(m));
    t := NextNet(k, x, End(m));
    forall c: nat
      ensures (m, c) in t.s.finishing <==> exists i :: 0 <= i < |x.s.At(m)| && x.s.At(m)[i].core == c
    {
      if i :| 0 <= i < |x.s.At(m)| && x.s.At(m)[i].core == c {
        assert x.s.At(m)[i] in x.s.At(m);
      }
    }
  }

  lemma HeldAtHome(s: State, c: nat, m: nat)
    requires Home(s) && 0 < c < 10
    ensures Returned(s.At(0), c, m) == if s.At(0)[c].to == m then s.At(0)[c := Entry(c, NOBODY)] else s.At(0)
  {
    var j := FindHeld(s.At(0), c, m, 1);
    assert j < 10 ==> s.At(0)[j].core == j;
    assert j > c ==> s.At(0)[c] != Entry(c, m);
  }

  /** The controller hears of a core given back that it has down as that agent's. */
  lemma GivenBack(k: Cluster, x: Net, m: nat, c: nat) returns (t: Net)
    requires From(k, x) && 0 < c < 10 && (m, c) in x.s.finishing && x.s.At(0)[c].to == m
    ensures From(k, t) && t.s.offers == x.s.offers && t.s.inits == x.s.inits && t.s.updates == x.s.updates
    ensures t.s.At(0) == x.s.At(0)[c := Entry(c, NOBODY)] && forall n: nat | n != 0 :: t.s.At(n) == x.s.At(n)
    ensures SameRings(x, t)
  {
    HeldAtHome(x.s, c, m);
    Step(k, x, TakeFinish(m, c));
    t := NextNet(k, x, TakeFinish(m, c));
  }

  // ---------------------------------------------------------------- reports that come late

  lemma CanSpareLast(cores: seq<nat>)
    requires |cores| > 2
    ensures Offerable(Plain(cores), [2]) && CanSpare(Plain(cores), [2])
  {
    OfferedPlain(cores);
  }

  /** Node 1 gives core 5 to node 8. */
  lemma FiveMoves(k: Cluster) returns (t: Net)
    requires Ten(k)
    ensures From(k, t) && Settled(t.s.offers) && t.s.offers == map[(1, 8) := Offer([5], Accepted)] && t.s.finishing == {}
    ensures t.s.At(8) == Plain([8, 9, 5]) && t.s.At(3) == Plain([3]) && t.s.At(2) == Plain([2])
    ensures t.s.updates == multiset{AddMsg(5, 8)}
    ensures t.rings(1) == [AnswerFrom(8)] && forall n: nat | n != 1 :: t.rings(n) == []
  {
    var x := Outset(k);
    CanSpareLast([1, 4, 5, 6, 7]);
    t := DealOne(k, x, 1, 8, 2, 5);
    assert Plain([8, 9]) + [Entry(5, NOBODY)] == Plain([8, 9, 5]);
  }

  /** Node 8 reports core 5 as its own, ends, and gives it back. Only then node 1 reads the answer, and reports that
      node 8 has the core. */
  lemma FiveReported(k: Cluster) returns (t: Net)
    requires Ten(k)
    ensures From(k, t) && t.s.At(0)[5] == Entry(5, NOBODY) && RemMsg(5, 1, 8) in t.s.updates
  {
    t := FiveMoves(k);
    t := HearAdd(k, t, 5, 8);
    assert t.s.At(8)[2].core == 5;
    t := Ended(k, t, 8);
    t := GivenBack(k, t, 8, 5);
    t := Answered(k, t, 1, 8, 5);
  }

  lemma FreeHere(s: State, n: nat, j: nat, c: nat)
    requires j < |s.At(n)| && s.At(n)[j] == Entry(c, NOBODY)
    ensures Somewhere(s, c)
  {
    FreeIs(s.At(n), c);
    assert IsAt(s, c, AtNode(n));
  }

  /** A run that leads to `t` and there loses core 5. */
  lemma LosesFive(k: Cluster, t: Net, a: Action) returns (acts: seq<Action>)
    requires From(k, t) && CanStep(k, t, a) && Somewhere(t.s, 5) && Loses(k, t.s, a, 5)
    ensures Lost(k, Begin(), acts, a, 5)
  {
    acts :| Leads(k, Begin(), acts, t);
    Begins(k);
    LostInRun(k, Begin(), acts, a, 5);
  }

  /** The controller, where the core is free, takes it for node 8's. */
  lemma LateReportLoses(k: Cluster) returns (acts: seq<Action>, a: Action)
    requires Ten(k)
    ensures Lost(k, Begin(), acts, a, 5) && a == RemCores(5, 1, 8)
  {
    var t := FiveReported(k);
    a := RemCores(5, 1, 8);
    AtHome(t.s, 5);
    FreeHere(t.s, 0, 5, 5);
    acts := LosesFive(k, t, a);
  }

  /** Before node 8 gets round to reporting core 5, it gives it to node 3, which reports it. */
  lemma FiveMovesOn(k: Cluster) returns (t: Net)
    requires Ten(k)
    ensures From(k, t) && t.s.finishing == {} && t.s.At(3) == Plain([3, 5]) && t.s.At(2) == Plain([2])
    ensures t.s.At(0)[5] == Entry(5, 3) && t.s.updates == multiset{AddMsg(5, 8)}
    ensures t.s.offers == map[(1, 8) := Offer([5], Accepted), (8, 3) := Offer([5], Accepted)]
    ensures t.rings(0) == [] == t.rings(2)
  {
    var x := FiveMoves(k);
    CanSpareLast([8, 9, 5]);
    t := DealOne(k, x, 8, 3, 2, 5);
    assert Plain([3]) + [Entry(5, NOBODY)] == Plain([3, 5]);
    t := HearAdd(k, t, 5, 3);
  }

  /** Node 8's report comes between node 3's and its end: the controller does not take the core back. */
  lemma FinishLoses(k: Cluster) returns (acts: seq<Action>, a: Action)
    requires Ten(k)
    ensures Lost(k, Begin(), acts, a, 5) && a == TakeFinish(3, 5)
  {
    var t := FiveMovesOn(k);
    t := HearAdd(k, t, 5, 8);
    assert t.s.At(3)[1].core == 5;
    t := Ended(k, t, 3);
    a := TakeFinish(3, 5);
    assert IsAt(t.s, 5, InFinish(3));
    acts := LosesFive(k, t, a);
  }

  /** Node 3 ends before that report comes, and the controller takes the core back. */
  lemma FiveBack(k: Cluster) returns (t: Net)
    requires Ten(k)
    ensures From(k, t) && t.s.At(0)[5] == Entry(5, NOBODY) && t.s.updates == multiset{AddMsg(5, 8)}
    ensures t.s.offers == map[(1, 8) := Offer([5], Accepted), (8, 3) := Offer([5], Accepted)]
    ensures t.s.At(2) == Plain([2]) && t.rings(0) == [] == t.rings(2)
  {
    t := FiveMovesOn(k);
    assert t.s.At(3)[1].core == 5;
    t := Ended(k, t, 3);
    t := GivenBack(k, t, 3, 5);
  }

  /** Node 8's report comes then: the controller, where the core is free, takes it for node 8's. */
  lemma LateOwnerLoses(k: Cluster) returns (acts: seq<Action>, a: Action)
    requires Ten(k)
    ensures Lost(k, Begin(), acts, a, 5) && a == AddCores(5, 8)
  {
    var t := FiveBack(k);
    a := AddCores(5, 8);
    AtHome(t.s, 5);
    FreeHere(t.s, 0, 5, 5);
    acts := LosesFive(k, t, a);
  }

  // ---------------------------------------------------------------- a refusal to the controller

  /** Or the controller offers the core to node 2 before that report comes. */
  lemma FiveOffered(k: Cluster) returns (t: Net)
    requires Ten(k)
    ensures From(k, t) && OpenWith(t.s, 0, 2, Held(false)) && t.s.offers[(0, 2)].cores == [5]
    ensures t.s.updates == multiset{AddMsg(5, 8)} && t.rings(0) == []
  {
    var x := FiveBack(k);
    MarkOne(x.s.At(0), 5, 2);
    t := Offered(k, x, 0, 2, [5], false);
  }

  /** Node 2 holds the offer until its application has ended, and refuses it. By then the controller has the core down as
      node 8's. */
  lemma FiveRefused(k: Cluster) returns (t: Net)
    requires Ten(k)
    ensures From(k, t) && OpenWith(t.s, 0, 2, Refused(false)) && t.s.offers[(0, 2)].cores == [5]
    ensures t.s.At(0)[5] == Entry(5, 8) && t.rings(0) == [AnswerFrom(2)]
  {
    t := FiveOffered(k);
    t := HearAdd(k, t, 5, 8);
    Step(k, t, RefuseAll(2, false));
    t := NextNet(k, t, RefuseAll(2, false));
  }

  lemma RefusalLoses(k: Cluster) returns (acts: seq<Action>, a: Action)
    requires Ten(k)
    ensures Lost(k, Begin(), acts, a, 5) && a == TakeAnswer(0, 2)
  {
    var t := FiveRefused(k);
    a := TakeAnswer(0, 2);
    FindIs(t.s.At(0), 5, 1, 5);
    assert [5][0] == 5;
    assert IsAt(t.s, 5, InOffer(0, 2));
    acts := LosesFive(k, t, a);
  }
}
