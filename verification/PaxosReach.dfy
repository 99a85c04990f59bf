/** Whom the messages of an election reach, and when they are sent: over every run, in numbers of cores. */
module PaxosReach {
  import opened Paxos
  import opened PaxosCounts
  import opened PaxosInvariant
  import opened PaxosRuns

  // ---------------------------------------------------------------- what a handler sends

  /** A core that answers to the failed controller. */
  predicate Member(c: Cluster, d: int)
    requires |c.mask| == c.cores
  {
    0 <= d < c.cores && d != c.idag && c.mask[d] == c.idag
  }

  lemma FanReaches(template: Msg, to: set<int>, k: nat)
    ensures forall m :: m in Fan(template, to, k) <==> m == template.(dst := m.dst) && 0 <= m.dst < k && m.dst in to
  {
    forall m
      ensures m in Fan(template, to, k) <==> m == template.(dst := m.dst) && 0 <= m.dst < k && m.dst in to
    {
      FanHas(template, to, k, m);
      assert m in Fan(template, to, k) <==> m in multiset(Fan(template, to, k));
    }
  }

  lemma AsksMembers(c: Cluster, me: int, nd: Node, v: int)
    requires c.Valid()
    ensures forall m :: m in SendAccepts(c, me, nd, v).out <==>
              m == AcceptRequest(me, m.dst, nd.ballot, v) && Member(c, m.dst)
  {
    FanReaches(AcceptRequest(me, 0, nd.ballot, v), c.Members(), c.cores);
  }

  lemma TellsAll(c: Cluster, me: int, v: int)
    requires c.Valid() && Member(c, me)
    ensures forall m :: m in Announcement(c, me, v) <==>
              m == Learn(me, m.dst, v, c.idag) && 0 <= m.dst < c.cores && m.dst != c.idag
  {
    FanReaches(Learn(me, 0, v, c.idag), c.AllBut(me), c.cores);
  }

  lemma InvitesMembers(c: Cluster, me: int, nd: Node, n: int)
    requires c.Valid()
    ensures forall m :: m in OnInit(c, me, nd, n).out <==> m == Prepare(me, m.dst, n) && Member(c, m.dst)
  {
    FanReaches(Prepare(me, 0, n), c.Members(), c.cores);
  }

  // ---------------------------------------------------------------- what every run keeps

  /** Requests and announcements of `p` have gone to exactly these cores, at the fourth answer and the fourth vote. */
  ghost predicate Reaches(c: Cluster, s: State, p: int)
    requires Shape(c, s) && 0 <= p < c.cores
  {
    var nd := s.nodes[p];
    && (forall d, n :: Prepare(p, d, n) in s.sent <==> nd.started && n == nd.ballot && Member(c, d))
    && (forall d, n, v :: AcceptRequest(p, d, n, v) in s.sent <==>
          nd.acceptSent && n == nd.ballot && v == s.proposed[p] && Member(c, d))
    && (forall d, v, f :: Learn(p, d, v, f) in s.sent <==>
          nd.learnSent && v == s.proposed[p] && f == c.idag && 0 <= d < c.cores && d != c.idag)
    && (nd.acceptSent <==> nd.coresPromised >= 4)
    && (nd.learnSent <==> nd.coresAccepted >= 4)
  }

  ghost predicate Reach(c: Cluster, s: State) {
    Shape(c, s) && forall p | c.Has(p) :: Reaches(c, s, p)
  }

  lemma SuspectReach(c: Cluster, s: State, p: int)
    requires Sound(c, s) && Reach(c, s) && Enabled(c, s, Suspect(p))
    ensures Reach(c, AfterSuspect(c, s, p))
  {
    var t := AfterSuspect(c, s, p);
    InvitesMembers(c, p, s.nodes[p], |s.owners|);
    forall q | c.Has(q)
      ensures Reaches(c, t, q)
    {
      assert Reaches(c, s, q);
    }
  }

  /** What handling a message sends, and when, as far as requests and announcements go. */
  ghost predicate Sends(c: Cluster, x: Node, m: Msg, e: Effect)
    requires |c.mask| == c.cores
  {
    var y := e.node;
    && y.started == x.started && y.ballot == x.ballot
    && (forall o | o in e.out :: o.src == m.dst && !o.Prepare?)
    && (forall o: Msg :: o.AcceptRequest? && o in e.out <==>
          y.acceptSent && !x.acceptSent && o == AcceptRequest(m.dst, o.dst, x.ballot, y.repliedV) && Member(c, o.dst))
    && (forall o: Msg :: o.Learn? && o in e.out <==>
          m.Accepted? && y.learnSent && !x.learnSent
          && o == Learn(m.dst, o.dst, m.v, c.idag) && 0 <= o.dst < c.cores && o.dst != c.idag)
    && y.coresPromised == x.coresPromised + (if m.Reply() then 1 else 0)
    && y.coresAccepted == x.coresAccepted + (if m.Accepted? then 1 else 0)
    && (y.acceptSent <==> x.acceptSent || (m.Reply() && y.coresPromised >= 4))
    && (y.learnSent <==> x.learnSent || (m.Accepted? && y.coresAccepted >= 4))
  }

  lemma HandleSends(c: Cluster, x: Node, m: Msg, score: nat, junk: Junk)
    requires c.Valid() && Member(c, m.dst) && c.Has(m.src) && (m.Reply() ==> |x.states| == c.cores)
    ensures Sends(c, x, m, Handle(c, x, m, score, junk))
  {
    if m.Reply() {
      ReplySends(c, x, m, score, junk);
    } else if m.Accepted? {
      HandleVote(c, x, m, score, junk);
      TellsAll(c, m.dst, m.v);
    }
  }

  lemma ReplySends(c: Cluster, x: Node, m: Msg, score: nat, junk: Junk)
    requires c.Valid() && Member(c, m.dst) && c.Has(m.src) && m.Reply() && |x.states| == c.cores
    ensures Sends(c, x, m, Handle(c, x, m, score, junk))
  {
    AsksMembers(c, m.dst, x, Handle(c, x, m, score, junk).node.repliedV);
  }

  lemma DeliverReach(c: Cluster, s: State, m: Msg, score: nat, junk: Junk)
    requires Sound(c, s) && Reach(c, s) && Enabled(c, s, Deliver(m, score, junk))
    ensures Reach(c, AfterDeliver(c, s, m, score, junk))
  {
    var e, t := Handle(c, s.nodes[m.dst], m, score, junk), AfterDeliver(c, s, m, score, junk);
    HandleSends(c, s.nodes[m.dst], m, score, junk);
    StepHistory(c, s, Deliver(m, score, junk));
    forall p | c.Has(p)
      ensures Reaches(c, t, p)
    {
      assert Reaches(c, s, p);
      if p == m.dst {
        MineReach(c, s, t, m, e);
      } else {
        OthersReach(c, s, t, m, e, p);
      }
    }
  }

  lemma OthersReach(c: Cluster, s: State, t: State, m: Msg, e: Effect, p: int)
    requires Shape(c, s) && Shape(c, t) && c.Has(p) && c.Has(m.dst) && p != m.dst && Reaches(c, s, p)
    requires Sends(c, s.nodes[m.dst], m, e)
    requires t.nodes[p] == s.nodes[p] && t.proposed[p] == s.proposed[p] && t.sent == s.sent + (set x | x in e.out)
    ensures Reaches(c, t, p)
  {
  }

  lemma MineReach(c: Cluster, s: State, t: State, m: Msg, e: Effect)
    requires Sound(c, s) && Shape(c, t) && c.Has(m.dst) && m in s.net && Reaches(c, s, m.dst)
    requires Sends(c, s.nodes[m.dst], m, e)
    requires t.nodes[m.dst] == e.node && t.sent == s.sent + (set x | x in e.out)
    requires t.proposed[m.dst] ==
               if e.node.acceptSent && !s.nodes[m.dst].acceptSent then e.node.repliedV else s.proposed[m.dst]
    ensures Reaches(c, t, m.dst)
  {
    var p := m.dst;
    assert m in s.sent && CountOk(c, s, p);
    if m.Reply() {
      assert Answered(c, s, m);
    }
    if m.Accepted? {
      assert m == Accepted(m.src, p, m.v);
      assert Polled(c, s, m.src, p, m.v);
    }
  }

  lemma {:induction false} RunReach(c: Cluster, states: seq<State>, actions: seq<Action>)
    requires Run(c, states, actions)
    ensures Sound(c, states[|actions|]) && Reach(c, states[|actions|])
  {
    RunSound(c, states, actions);
    if actions != [] {
      var n := |actions| - 1;
      var before, act := states[..n + 1], actions[..n];
      forall i | 0 <= i < |act|
        ensures Shape(c, before[i]) && Enabled(c, before[i], act[i]) && before[i + 1] == Next(c, before[i], act[i])
      {
        assert before[i] == states[i] && act[i] == actions[i] && before[i + 1] == states[i + 1];
      }
      RunReach(c, before, act);
      match actions[n]
      case Suspect(p) => SuspectReach(c, states[n], p);
      case Deliver(m, score, junk) => DeliverReach(c, states[n], m, score, junk);
    }
  }

  /** Every core of the mesh except the failed controller has been sent the news that `v` is the new one. */
  ghost predicate Told(c: Cluster, s: State, p: int, v: int) {
    forall d | 0 <= d < c.cores && d != c.idag :: Learn(p, d, v, c.idag) in s.sent
  }

  lemma ToldByReach(c: Cluster, s: State, p: int)
    requires Shape(c, s) && c.Has(p) && Reaches(c, s, p)
    ensures s.nodes[p].learnSent ==> Told(c, s, p, s.proposed[p])
    ensures forall d, v, f | Learn(p, d, v, f) in s.sent ::
              s.nodes[p].learnSent && f == c.idag && 0 <= d < c.cores && d != c.idag
  {
  }

  /** A core that announces tells every core but the failed one, itself among them, and all the same; and it announces at
      the fourth vote that arrives. */
  lemma LearnReachesAll(c: Cluster, states: seq<State>, actions: seq<Action>, p: int)
    requires Run(c, states, actions) && Member(c, p)
    ensures Shape(c, states[|actions|])
    ensures var s := states[|actions|]; s.nodes[p].learnSent <==> |Arrived(s, p, true)| >= 4
    ensures var s := states[|actions|]; s.nodes[p].learnSent ==> exists v :: Told(c, s, p, v)
    ensures var s := states[|actions|];
            forall d, v, f | Learn(p, d, v, f) in s.sent ::
              s.nodes[p].learnSent && f == c.idag && 0 <= d < c.cores && d != c.idag
  {
    RunReach(c, states, actions);
    assert c.Has(p);
    assert Reaches(c, states[|actions|], p);
    ToldByReach(c, states[|actions|], p);
    CountsAreFaithful(c, states, actions, p);
  }

  /** A proposer asks exactly the cores that answer to the failed controller: for a promise as it starts, and to accept one
      value at the fourth answer that arrives. */
  lemma RequestsReachMembers(c: Cluster, states: seq<State>, actions: seq<Action>, p: int)
    requires Run(c, states, actions) && Member(c, p)
    ensures Shape(c, states[|actions|])
    ensures var s := states[|actions|];
            && (forall d: int, n: int :: Prepare(p, d, n) in s.sent <==>
                  s.nodes[p].started && n == s.nodes[p].ballot && 0 <= d < c.cores && d != c.idag && c.mask[d] == c.idag)
            && (s.nodes[p].acceptSent <==> |Arrived(s, p, false)| >= 4)
            && forall d: int, n: int, v: int :: AcceptRequest(p, d, n, v) in s.sent <==>
                 s.nodes[p].acceptSent && n == s.nodes[p].ballot && v == s.proposed[p]
                 && 0 <= d < c.cores && d != c.idag && c.mask[d] == c.idag
  {
    RunReach(c, states, actions);
    assert c.Has(p);
    assert Reaches(c, states[|actions|], p);
    CountsAreFaithful(c, states, actions, p);
  }

  // ---------------------------------------------------------------- after the news

  /** The core that takes a step. */
  function Actor(a: Action): int {
    match a
    case Suspect(p) => p
    case Deliver(m, _, _) => m.dst
  }

  lemma HaltedStays(c: Cluster, s: State, a: Action, d: int)
    requires Shape(c, s) && Enabled(c, s, a) && c.Has(d)
    requires s.nodes[d].halted || (a.Deliver? && a.m.Learn? && a.m.dst == d)
    ensures Next(c, s, a).nodes[d].halted
  {
  }

  lemma {:induction false} HaltedAfter(c: Cluster, states: seq<State>, actions: seq<Action>, i: nat, k: nat, d: int)
    requires Run(c, states, actions) && i < k < |actions| && c.Has(d)
    requires actions[i].Deliver? && actions[i].m.Learn? && actions[i].m.dst == d
    ensures Shape(c, states[k]) && states[k].nodes[d].halted
    decreases k
  {
    if k > i + 1 {
      HaltedAfter(c, states, actions, i, k - 1, d);
    }
    HaltedStays(c, states[k - 1], actions[k - 1], d);
  }

  /** A core that has read who the new controller is takes no further step. */
  lemma NothingAfterLearn(c: Cluster, states: seq<State>, actions: seq<Action>, i: nat, k: nat)
    requires Run(c, states, actions) && i < k < |actions| && actions[i].Deliver? && actions[i].m.Learn?
    ensures Actor(actions[k]) != actions[i].m.dst
  {
    HaltedAfter(c, states, actions, i, k, actions[i].m.dst);
    assert Enabled(c, states[k], actions[k]);
  }
}
