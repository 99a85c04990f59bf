/** The offer protocol over the signal rings: offers and answers are put in the ring of the node they are for at once, and
    every node takes them out in that order. */
module OwnershipRing {
  import opened CoreList
  import opened Ownership
  import opened OwnershipMarks
  import opened OwnershipOnce
  import opened OwnershipRuns
  import opened OwnershipSteps
  import opened OwnershipTidy

  /** An offer, named by its giver, or the answer to one, named by the requester. */
  datatype Signal = OfferFrom(g: nat) | AnswerFrom(r: nat)

  datatype Net = Net(s: State, rings: nat -> seq<Signal>)

  /** What a step puts in the ring of node `n`: a requester answers every offer it decides on. */
  ghost function SentTo(s: State, a: Action, n: nat): seq<Signal> {
    match a
    case MakeOffer(g, r, _) => if n == r then [OfferFrom(g)] else []
    case Stray(g, r) => if n == g then [AnswerFrom(r)] else []
    case ChooseInit(r, _, _) => if OpenWith(s, n, r, Held(true)) then [AnswerFrom(r)] else []
    case ChooseSelf(r, _) => if OpenWith(s, n, r, Held(false)) then [AnswerFrom(r)] else []
    case RefuseAll(r, forInit) => if OpenWith(s, n, r, Held(forInit)) then [AnswerFrom(r)] else []
    case _ => []
  }

  /** Whether a step takes a signal out of the ring of node `n`, and which. */
  predicate ReadsAt(a: Action, n: nat) {
    (a.TakeOffer? && n == a.r) || (a.Stray? && n == a.r) || (a.TakeReject? && n == a.g) || (a.TakeAnswer? && n == a.g)
  }

  function Read(a: Action): Signal
    requires a.TakeOffer? || a.Stray? || a.TakeReject? || a.TakeAnswer?
  {
    if a.TakeOffer? || a.Stray? then OfferFrom(a.g) else AnswerFrom(a.r)
  }

  ghost predicate CanStep(k: Cluster, x: Net, a: Action) {
    Enabled(k, x.s, a) && forall n: nat | ReadsAt(a, n) :: x.rings(n) != [] && x.rings(n)[0] == Read(a)
  }

  ghost function Kept(x: Net, a: Action, n: nat): seq<Signal> {
    if ReadsAt(a, n) && x.rings(n) != [] then x.rings(n)[1..] else x.rings(n)
  }

  ghost function NextNet(k: Cluster, x: Net, a: Action): Net
    requires Valid(k) && CanStep(k, x, a)
  {
    Net(Next(k, x.s, a), (n: nat) => Kept(x, a, n) + SentTo(x.s, a, n))
  }

  ghost predicate StartNet(k: Cluster, x: Net) {
    IsStart(k, x.s) && forall n: nat :: x.rings(n) == []
  }

  // ---------------------------------------------------------------- what the rings hold

  /** The acceptance of offer (n, r) is in `n`'s ring. */
  ghost predicate AnswerThere(s: State, q: seq<Signal>, n: nat, r: nat) {
    OpenWith(s, n, r, Accepted) ==> AnswerFrom(r) in q
  }

  /** The offer at place `j` is still unread, is there once, and comes after every acceptance that shares a core with it. */
  ghost predicate OfferThere(s: State, q: seq<Signal>, n: nat, j: nat, g: nat)
    requires j < |q|
  {
    && OpenWith(s, g, n, Sent) && OfferFrom(g) !in q[..j]
    && forall r: nat, c: nat | OpenWith(s, n, r, Accepted) && Share(s, (g, n), (n, r), c) :: AnswerFrom(r) in q[..j]
  }

  ghost predicate RingOk(s: State, q: seq<Signal>, n: nat) {
    && (forall r: nat :: AnswerThere(s, q, n, r))
    && forall j, g | 0 <= j < |q| && q[j] == OfferFrom(g) :: OfferThere(s, q, n, j, g)
  }

  ghost predicate Ordered(x: Net) {
    forall n: nat :: RingOk(x.s, x.rings(n), n)
  }

  /** So a node that reads its ring in order has read all answers about the cores of an offer it reads. */
  lemma ReadsInOrder(k: Cluster, x: Net, a: Action)
    requires Ordered(x) && CanStep(k, x, a)
    ensures InOrder(x.s, a)
  {
    if a.TakeOffer? || a.Stray? {
      var n: nat := a.r;
      assert ReadsAt(a, n);
      assert RingOk(x.s, x.rings(n), n);
      assert OfferThere(x.s, x.rings(n), n, 0, a.g);
    }
  }

  // ---------------------------------------------------------------- one ring

  /** What matters to the ring of `n`: unread offers to it stay, and no more of its own are accepted than before, but for
      those at `but`. */
  ghost predicate Alike(s: State, t: State, n: nat, but: set<(nat, nat)>) {
    && (forall r: nat | OpenWith(t, n, r, Accepted) && (n, r) !in but ::
          OpenWith(s, n, r, Accepted) && t.offers[(n, r)].cores == s.offers[(n, r)].cores)
    && (forall g: nat | OpenWith(s, g, n, Sent) && (g, n) !in but ::
          OpenWith(t, g, n, Sent) && t.offers[(g, n)].cores == s.offers[(g, n)].cores)
  }

  lemma RingStays(s: State, t: State, q: seq<Signal>, n: nat)
    requires RingOk(s, q, n) && Alike(s, t, n, {})
    ensures RingOk(t, q, n)
  {
    forall r: nat
      ensures AnswerThere(t, q, n, r)
    {
      assert AnswerThere(s, q, n, r);
    }
    forall j, g | 0 <= j < |q| && q[j] == OfferFrom(g)
      ensures OfferThere(t, q, n, j, g)
    {
      assert OfferThere(s, q, n, j, g);
      forall r: nat, c: nat | OpenWith(t, n, r, Accepted) && Share(t, (g, n), (n, r), c)
        ensures AnswerFrom(r) in q[..j]
      {
        assert Share(s, (g, n), (n, r), c);
      }
    }
  }

  lemma Behind(q: seq<Signal>, j: nat, x: Signal)
    requires j + 1 < |q| && q[0] != x
    ensures x in q[1..] <==> x in q
    ensures x in q[1..][..j] <==> x in q[..j + 1]
  {
    assert q == [q[0]] + q[1..];
    assert q[..j + 1] == [q[0]] + q[1..][..j];
  }

  lemma BehindAll(q: seq<Signal>, x: Signal)
    requires q != [] && q[0] != x
    ensures x in q[1..] <==> x in q
  {
    assert q == [q[0]] + q[1..];
  }

  /** The first signal taken out. */
  lemma RingRead(s: State, t: State, q: seq<Signal>, n: nat, p: (nat, nat))
    requires RingOk(s, q, n) && q != [] && Alike(s, t, n, {p})
    requires (q[0] == OfferFrom(p.0) && p.1 == n && (p.0 == n ==> !OpenWith(t, n, n, Accepted)))
             || (q[0] == AnswerFrom(p.1) && p.0 == n && p !in t.offers)
    requires q[0].AnswerFrom? ==> p in s.offers && s.offers[p].status != Sent
    ensures RingOk(t, q[1..], n)
  {
    forall r: nat
      ensures AnswerThere(t, q[1..], n, r)
    {
      assert AnswerThere(s, q, n, r);
      if q[0] != AnswerFrom(r) {
        BehindAll(q, AnswerFrom(r));
      }
    }
    forall j, g | 0 <= j < |q[1..]| && q[1..][j] == OfferFrom(g)
      ensures OfferThere(t, q[1..], n, j, g)
    {
      assert q[j + 1] == OfferFrom(g);
      assert OfferThere(s, q, n, j + 1, g);
      assert q[0] in q[..j + 1];
      Behind(q, j, OfferFrom(g));
      forall r: nat, c: nat | OpenWith(t, n, r, Accepted) && Share(t, (g, n), (n, r), c)
        ensures AnswerFrom(r) in q[1..][..j]
      {
        assert Share(s, (g, n), (n, r), c);
        Behind(q, j, AnswerFrom(r));
      }
    }
  }

  lemma Prefix(q: seq<Signal>, x: Signal, j: nat)
    requires j <= |q|
    ensures (q + [x])[..j] == q[..j]
  {
  }

  /** A new offer at the end. */
  lemma RingOffered(s: State, t: State, q: seq<Signal>, n: nat, g: nat)
    requires RingOk(s, q, n) && Alike(s, t, n, {}) && (g, n) !in s.offers && OpenWith(t, g, n, Sent)
    ensures RingOk(t, q + [OfferFrom(g)], n)
  {
    var m := q + [OfferFrom(g)];
    RingStays(s, t, q, n);
    forall r: nat
      ensures AnswerThere(t, m, n, r)
    {
      assert AnswerThere(t, q, n, r);
    }
    forall j, h | 0 <= j < |m| && m[j] == OfferFrom(h)
      ensures OfferThere(t, m, n, j, h)
    {
      Prefix(q, OfferFrom(g), j);
      if j < |q| {
        assert OfferThere(t, q, n, j, h);
      } else {
        NotYet(s, q, n, g);
        forall r: nat, c: nat | OpenWith(t, n, r, Accepted) && Share(t, (g, n), (n, r), c)
          ensures AnswerFrom(r) in q
        {
          assert AnswerThere(t, q, n, r);
        }
      }
    }
  }

  lemma NotYet(s: State, q: seq<Signal>, n: nat, g: nat)
    requires RingOk(s, q, n) && !OpenWith(s, g, n, Sent)
    ensures OfferFrom(g) !in q
  {
    forall j | 0 <= j < |q|
      ensures q[j] != OfferFrom(g)
    {
      assert q[j] == OfferFrom(g) ==> OfferThere(s, q, n, j, g);
    }
  }

  /** A new answer at the end: the cores of an offer that is not read yet are in none that is accepted now. */
  lemma RingAnswered(s: State, t: State, q: seq<Signal>, n: nat, r: nat)
    requires Unique(s) && RingOk(s, q, n) && Alike(s, t, n, {(n, r)}) && n != r
    requires (n, r) in s.offers && s.offers[(n, r)].status != Accepted
    requires (n, r) in t.offers && t.offers[(n, r)].cores == s.offers[(n, r)].cores
    ensures RingOk(t, q + [AnswerFrom(r)], n)
  {
    var m := q + [AnswerFrom(r)];
    forall x: nat
      ensures AnswerThere(t, m, n, x)
    {
      assert AnswerThere(s, q, n, x);
    }
    forall j, g | 0 <= j < |m| && m[j] == OfferFrom(g)
      ensures OfferThere(t, m, n, j, g)
    {
      Prefix(q, AnswerFrom(r), j);
      assert OfferThere(s, q, n, j, g);
      forall x: nat, c: nat | OpenWith(t, n, x, Accepted) && Share(t, (g, n), (n, x), c)
        ensures AnswerFrom(x) in q[..j]
      {
        if x == r {
          ApartIs(s, c, InOffer(g, n), InOffer(n, r));
        } else {
          assert Share(s, (g, n), (n, x), c);
        }
      }
    }
  }

  // ---------------------------------------------------------------- every step

  lemma MakeOfferOrdered(k: Cluster, x: Net, g: nat, r: nat, at: seq<nat>, n: nat)
    requires Valid(k) && Ordered(x) && CanStep(k, x, MakeOffer(g, r, at))
    ensures var t := NextNet(k, x, MakeOffer(g, r, at)); RingOk(t.s, t.rings(n), n)
  {
    var a := MakeOffer(g, r, at);
    var t := Next(k, x.s, a);
    assert RingOk(x.s, x.rings(n), n);
    assert Alike(x.s, t, n, {});
    if n == r {
      RingOffered(x.s, t, x.rings(n), n, g);
    } else {
      RingStays(x.s, t, x.rings(n), n);
      assert x.rings(n) + [] == x.rings(n);
    }
  }

  /** The offer at `p` read, taken up or turned away. */
  lemma ReadAlike(s: State, t: State, p: (nat, nat), status: Status, n: nat)
    requires p in s.offers && t.offers == s.offers[p := Offer(s.offers[p].cores, status)] && status != Accepted
    ensures Alike(s, t, n, {p}) && (p.1 != n ==> Alike(s, t, n, {}))
  {
  }

  lemma OfferReadOrdered(k: Cluster, x: Net, a: Action, n: nat)
    requires Inv(k, x.s) && Tight(k, x.s) && Ordered(x) && CanStep(k, x, a) && (a.TakeOffer? || a.Stray?)
    ensures var t := NextNet(k, x, a); RingOk(t.s, t.rings(n), n)
  {
    var s, t, q, p := x.s, Next(k, x.s, a), x.rings(n), (a.g, a.r);
    assert RingOk(s, q, n) && p in s.offers && p.0 != p.1;
    ReadAlike(s, t, p, if a.TakeOffer? then Held(a.forInit) else Refused(true), n);
    if n == a.r {
      assert ReadsAt(a, n);
      RingRead(s, t, q, n, p);
      assert q[1..] + [] == q[1..];
    } else if a.Stray? && n == a.g {
      RingAnswered(s, t, q, n, a.r);
    } else {
      RingStays(s, t, q, n);
      assert q + [] == q;
    }
  }

  lemma ClosedAlike(s: State, t: State, p: (nat, nat), n: nat)
    requires p in s.offers && t.offers == s.offers - {p} && s.offers[p].status != Sent
    ensures Alike(s, t, n, {p}) && Alike(s, t, n, {})
  {
  }

  lemma AnswerReadOrdered(k: Cluster, x: Net, a: Action, n: nat)
    requires Inv(k, x.s) && Ordered(x) && CanStep(k, x, a) && (a.TakeReject? || a.TakeAnswer?)
    ensures var t := NextNet(k, x, a); RingOk(t.s, t.rings(n), n)
  {
    var s, t, q, p := x.s, Next(k, x.s, a), x.rings(n), (a.g, a.r);
    assert RingOk(s, q, n);
    ClosedAlike(s, t, p, n);
    if n == a.g {
      assert ReadsAt(a, n);
      RingRead(s, t, q, n, p);
      assert q[1..] + [] == q[1..];
    } else {
      RingStays(s, t, q, n);
      assert q + [] == q;
    }
  }

  /** `r` has decided on the offers of one kind. */
  ghost predicate DecidedOn(s: State, t: State, r: nat, forInit: bool) {
    && t.offers.Keys == s.offers.Keys
    && forall p | p in s.offers ::
         && t.offers[p].cores == s.offers[p].cores
         && if p.1 == r && s.offers[p].status == Held(forInit) then t.offers[p].status in {Refused(false), Accepted}
            else t.offers[p] == s.offers[p]
  }

  lemma DecidedAlike(s: State, t: State, r: nat, forInit: bool, n: nat)
    requires DecidedOn(s, t, r, forInit)
    ensures Alike(s, t, n, {(n, r)}) && (!OpenWith(s, n, r, Held(forInit)) ==> Alike(s, t, n, {}))
  {
    forall p
      ensures p in t.offers <==> p in s.offers
    {
      assert p in t.offers.Keys <==> p in s.offers.Keys;
    }
  }

  lemma DecideRing(s: State, t: State, q: seq<Signal>, r: nat, forInit: bool, n: nat)
    requires Unique(s) && RingOk(s, q, n) && DecidedOn(s, t, r, forInit) && forall p | p in s.offers :: p.0 != p.1
    ensures RingOk(t, q + if OpenWith(s, n, r, Held(forInit)) then [AnswerFrom(r)] else [], n)
  {
    DecidedAlike(s, t, r, forInit, n);
    var p := (n, r);
    if OpenWith(s, n, r, Held(forInit)) {
      assert p in s.offers && p.0 != p.1 && p in t.offers.Keys;
      RingAnswered(s, t, q, n, r);
    } else {
      RingStays(s, t, q, n);
      assert q + [] == q;
    }
  }

  lemma DecideOrdered(k: Cluster, x: Net, a: Action, forInit: bool, n: nat)
    requires Inv(k, x.s) && Tight(k, x.s) && RingOk(x.s, x.rings(n), n) && CanStep(k, x, a)
    requires (a.ChooseInit? && forInit) || (a.ChooseSelf? && !forInit) || (a.RefuseAll? && forInit == a.forInit)
    requires DecidedOn(x.s, Next(k, x.s, a), a.r, forInit)
    ensures var t := NextNet(k, x, a); RingOk(t.s, t.rings(n), n)
  {
    DecideRing(x.s, Next(k, x.s, a), x.rings(n), a.r, forInit, n);
    assert Kept(x, a, n) == x.rings(n);
  }

  lemma Decides(k: Cluster, s: State, a: Action, forInit: bool)
    requires Valid(k) && Enabled(k, s, a)
    requires (a.ChooseInit? && forInit) || (a.ChooseSelf? && !forInit) || (a.RefuseAll? && forInit == a.forInit)
    ensures DecidedOn(s, Next(k, s, a), a.r, forInit)
  {
  }

  lemma QuietOrdered(k: Cluster, x: Net, a: Action, n: nat)
    requires Valid(k) && Ordered(x) && CanStep(k, x, a)
    requires a.StartAgent? || a.End? || a.TakeFinish? || a.AddCores? || a.RemCores?
    ensures var t := NextNet(k, x, a); RingOk(t.s, t.rings(n), n)
  {
    var t := Next(k, x.s, a);
    assert RingOk(x.s, x.rings(n), n);
    assert Alike(x.s, t, n, {});
    RingStays(x.s, t, x.rings(n), n);
    assert x.rings(n) + [] == x.rings(n);
  }

  lemma NextOrdered(k: Cluster, x: Net, a: Action)
    requires Inv(k, x.s) && Tight(k, x.s) && Ordered(x) && CanStep(k, x, a)
    ensures Ordered(NextNet(k, x, a))
  {
    var t := NextNet(k, x, a);
    forall n: nat
      ensures RingOk(t.s, t.rings(n), n)
    {
      assert RingOk(x.s, x.rings(n), n);
      match a
      case MakeOffer(g, r, at) => MakeOfferOrdered(k, x, g, r, at, n);
      case TakeOffer(_, _, _) => OfferReadOrdered(k, x, a, n);
      case Stray(_, _) => OfferReadOrdered(k, x, a, n);
      case TakeReject(_, _) => AnswerReadOrdered(k, x, a, n);
      case TakeAnswer(_, _) => AnswerReadOrdered(k, x, a, n);
      case ChooseInit(_, _, _) => Decides(k, x.s, a, true); DecideOrdered(k, x, a, true, n);
      case ChooseSelf(_, _) => Decides(k, x.s, a, false); DecideOrdered(k, x, a, false, n);
      case RefuseAll(_, forInit) => Decides(k, x.s, a, forInit); DecideOrdered(k, x, a, forInit, n);
      case _ => QuietOrdered(k, x, a, n);
    }
  }

  // ---------------------------------------------------------------- every run

  ghost predicate PossibleNet(k: Cluster, x: Net, acts: seq<Action>)
    requires Valid(k)
    decreases |acts|
  {
    acts != [] ==> CanStep(k, x, acts[0]) && PossibleNet(k, NextNet(k, x, acts[0]), acts[1..])
  }

  ghost function AfterNet(k: Cluster, x: Net, acts: seq<Action>): Net
    requires Valid(k) && PossibleNet(k, x, acts)
    decreases |acts|
  {
    if acts == [] then x else AfterNet(k, NextNet(k, x, acts[0]), acts[1..])
  }

  /** A run over the rings is one of the runs in which signals may come in any order. */
  lemma {:induction false} AnyOrder(k: Cluster, x: Net, acts: seq<Action>)
    requires Valid(k) && PossibleNet(k, x, acts)
    ensures Possible(k, x.s, acts) && After(k, x.s, acts) == AfterNet(k, x, acts).s
    decreases |acts|
  {
    if acts != [] {
      AnyOrder(k, NextNet(k, x, acts[0]), acts[1..]);
    }
  }

  ghost predicate Sound(k: Cluster, x: Net) {
    Inv(k, x.s) && Tidy(k, x.s) && Covered(k, x.s) && Tight(k, x.s) && Ordered(x)
  }

  lemma StartSound(k: Cluster, x: Net)
    requires StartNet(k, x)
    ensures Sound(k, x)
  {
    StartInv(k, x.s);
    StartTidy(k, x.s);
    StartCovered(k, x.s);
    StartTight(k, x.s);
    forall n: nat
      ensures RingOk(x.s, x.rings(n), n)
    {
    }
  }

  lemma StepSound(k: Cluster, x: Net, a: Action)
    requires Sound(k, x) && CanStep(k, x, a)
    ensures Sound(k, NextNet(k, x, a))
  {
    ReadsInOrder(k, x, a);
    NextInv(k, x.s, a);
    NextTidy(k, x.s, a);
    NextCovered(k, x.s, a);
    NextTight(k, x.s, a);
    NextOrdered(k, x, a);
  }

  lemma {:induction false} RunSound(k: Cluster, x: Net, acts: seq<Action>)
    requires Sound(k, x) && PossibleNet(k, x, acts)
    ensures Sound(k, AfterNet(k, x, acts))
    decreases |acts|
  {
    if acts != [] {
      StepSound(k, x, acts[0]);
      RunSound(k, NextNet(k, x, acts[0]), acts[1..]);
    }
  }
}
