/** Every handler takes one of those steps; so the invariant holds over every run, and with it agreement. */
module PaxosRuns {
  import opened Paxos
  import opened PaxosInvariant
  import opened PaxosSteps

  // ---------------------------------------------------------------- the steps are these

  ghost function CountedState(c: Cluster, s: State, m: Msg): State
    requires Shape(c, s) && m.Reply() && c.Has(m.src) && c.Has(m.dst) && s.nodes[m.dst].started
  {
    s.(nodes := s.nodes[m.dst := CountedNode(s.nodes[m.dst], m)], net := s.net - multiset{m},
       inbox := s.inbox[m.dst := s.inbox[m.dst][m.src := m]])
  }

  lemma CountedIs(c: Cluster, s: State, m: Msg)
    requires Shape(c, s) && Network(s) && m.Reply() && c.Has(m.src) && c.Has(m.dst) && s.nodes[m.dst].started
    requires m in s.net
    ensures Shape(c, CountedState(c, s, m)) && Counted(c, s, CountedState(c, s, m), m)
  {
    var s1 := CountedState(c, s, m);
    assert s1.sent == s.sent + (set x | x in []);
    assert s1.net == s.net - multiset{m} + multiset([]);
    NetworkMoves(s, s1, {m}, multiset{m}, [], {});
  }

  lemma AsksIs(c: Cluster, s: State, s': State, me: int, v: int) returns (out: set<Msg>)
    requires Shape(c, s) && Network(s) && AcceptRequests(c, s) && c.Has(me)
    requires var x := s.nodes[me];
             !x.acceptSent && x.started && x.coresPromised >= Majority(CLUSTER_SIZE) && (x.repliedV != -1 ==> v == x.repliedV)
    requires var e := SendAccepts(c, me, s.nodes[me], v);
             s' == s.(nodes := s.nodes[me := e.node], net := s.net + multiset(e.out), sent := s.sent + (set x | x in e.out),
                      proposed := s.proposed[me := v])
    ensures Shape(c, s') && Asked(c, s, s', me, v, out)
  {
    var sends := SendAccepts(c, me, s.nodes[me], v).out;
    out := AsksWhom(c, me, s.nodes[me].ballot, v);
    assert forall x | x in out :: x !in s.sent;
    NetworkMoves(s, s', {}, multiset{}, sends, out);
  }

  lemma AsksWhom(c: Cluster, me: int, b: int, v: int) returns (out: set<Msg>)
    requires c.Valid()
    ensures forall x :: x in out <==> x in Fan(AcceptRequest(me, 0, b, v), c.Members(), c.cores)
    ensures forall x :: multiset(Fan(AcceptRequest(me, 0, b, v), c.Members(), c.cores))[x] <= 1
    ensures forall x | x in out :: x == AcceptRequest(me, x.dst, b, v) && c.Has(x.dst)
  {
    out := FanOut(AcceptRequest(me, 0, b, v), c.Members(), c.cores);
  }

  lemma ReplyKeeps(c: Cluster, s: State, m: Msg, score: nat, junk: Junk)
    requires Inv(c, s) && m.Reply() && Enabled(c, s, Deliver(m, score, junk))
    requires var s' := AfterDeliver(c, s, m, score, junk); Shape(c, s') ==> NoSentinel(c, s')
    ensures Inv(c, AfterDeliver(c, s, m, score, junk))
  {
    var s1, s' := CountedState(c, s, m), AfterDeliver(c, s, m, score, junk);
    assert ProposerOk(c, s, m.dst);
    CountedIs(c, s, m);
    CountedInv(c, s, s1, m);
    ReplySplits(c, s, m, score, junk);
    if s' != s1 {
      var v := s'.proposed[m.dst];
      var out := AsksIs(c, s1, s', m.dst, v);
      AskedInv(c, s1, s', m.dst, v, out);
    }
  }

  /** Handling an answer is counting it and then, perhaps, asking everybody to accept. */
  lemma ReplySplits(c: Cluster, s: State, m: Msg, score: nat, junk: Junk)
    requires Shape(c, s) && m.Reply() && Enabled(c, s, Deliver(m, score, junk)) && -1 <= s.nodes[m.dst].repliedN
    ensures var s1, s', me := CountedState(c, s, m), AfterDeliver(c, s, m, score, junk), m.dst;
            var y := s1.nodes[me];
            if y.coresPromised >= Majority(CLUSTER_SIZE) && !y.acceptSent then
              var v := s'.proposed[me];
              var e := SendAccepts(c, me, y, v);
              && (y.repliedV != -1 ==> v == y.repliedV)
              && s' == s1.(nodes := s1.nodes[me := e.node], net := s1.net + multiset(e.out),
                           sent := s1.sent + (set x | x in e.out), proposed := s1.proposed[me := v])
            else s' == s1
  {
    var me, x, y := m.dst, s.nodes[m.dst], CountedNode(s.nodes[m.dst], m);
    if y.coresPromised < Majority(CLUSTER_SIZE) || x.acceptSent {
      assert s.sent + (set x | x in []) == s.sent;
      assert s.net - multiset{m} + multiset([]) == s.net - multiset{m};
    } else {
      assert s.nodes[me := y][me := SendAccepts(c, me, y, Handle(c, x, m, score, junk).node.repliedV).node]
             == s.nodes[me := SendAccepts(c, me, y, Handle(c, x, m, score, junk).node.repliedV).node];
    }
  }

  ghost function TalliedState(c: Cluster, s: State, m: Msg): State
    requires Shape(c, s) && m.Accepted? && c.Has(m.dst)
  {
    var x := s.nodes[m.dst];
    s.(nodes := s.nodes[m.dst := x.(coresAccepted := x.coresAccepted + 1)], net := s.net - multiset{m},
       voters := s.voters[m.dst := s.voters[m.dst] + {m.src}])
  }

  ghost function Announcement(c: Cluster, me: int, v: int): seq<Msg>
    requires c.Valid()
  {
    [Learn(me, me, v, c.idag)] + Fan(Learn(me, 0, v, c.idag), c.AllBut(me), c.cores)
  }

  lemma AnnouncesWhom(c: Cluster, me: int, v: int) returns (out: set<Msg>)
    requires c.Valid()
    ensures forall x :: x in out <==> x in Announcement(c, me, v)
    ensures forall x :: multiset(Announcement(c, me, v))[x] <= 1
    ensures forall x | x in out :: x == Learn(me, x.dst, v, c.idag)
  {
    var self, fan := Learn(me, me, v, c.idag), Fan(Learn(me, 0, v, c.idag), c.AllBut(me), c.cores);
    var others := FanOut(Learn(me, 0, v, c.idag), c.AllBut(me), c.cores);
    out := {self} + others;
    assert multiset([self] + fan) == multiset{self} + multiset(fan);
    assert self !in others;
    assert self !in multiset(fan) by {
      assert self in fan <==> self in multiset(fan);
    }
  }

  lemma AnnouncesIs(c: Cluster, s: State, s': State, me: int, v: int) returns (out: set<Msg>)
    requires Shape(c, s) && Network(s) && Learns(c, s) && c.Has(me)
    requires var x := s.nodes[me];
             x.acceptSent && !x.learnSent && x.coresAccepted >= Majority(CLUSTER_SIZE) && v == s.proposed[me]
    requires s' == s.(nodes := s.nodes[me := s.nodes[me].(learnSent := true)],
                      net := s.net + multiset(Announcement(c, me, v)), sent := s.sent + (set x | x in Announcement(c, me, v)))
    ensures Shape(c, s') && Announced(c, s, s', me, v, out)
  {
    out := AnnouncesWhom(c, me, v);
    forall x | x in out
      ensures x !in s.sent
    {
      assert x == Learn(me, x.dst, v, c.idag);
    }
    NetworkMoves(s, s', {}, multiset{}, Announcement(c, me, v), out);
  }

  /** What a vote does to its receiver's record: the count goes up, and with a majority the winner is announced. */
  lemma HandleVote(c: Cluster, x: Node, m: Msg, score: nat, junk: Junk)
    requires c.Valid() && m.Accepted? && c.Has(m.src)
    ensures var y := x.(coresAccepted := x.coresAccepted + 1);
            Handle(c, x, m, score, junk) ==
              if y.coresAccepted >= Majority(CLUSTER_SIZE) && !y.learnSent
              then Effect(y.(learnSent := true), Announcement(c, m.dst, m.v)) else Effect(y, [])
  {
  }

  lemma DeliverVote(c: Cluster, s: State, m: Msg, score: nat, junk: Junk, e: Effect)
    requires Shape(c, s) && m.Accepted? && Enabled(c, s, Deliver(m, score, junk))
    requires e == Handle(c, s.nodes[m.dst], m, score, junk) && e.node.acceptSent == s.nodes[m.dst].acceptSent
    ensures AfterDeliver(c, s, m, score, junk) ==
              State(s.nodes[m.dst := e.node], s.net - multiset{m} + multiset(e.out), s.sent + (set x | x in e.out),
                    s.owners, s.inbox, s.voters[m.dst := s.voters[m.dst] + {m.src}], s.proposed)
  {
  }

  lemma VoteSplits(c: Cluster, s: State, m: Msg, score: nat, junk: Junk)
    requires Shape(c, s) && m.Accepted? && Enabled(c, s, Deliver(m, score, junk))
    ensures var s1, s', me := TalliedState(c, s, m), AfterDeliver(c, s, m, score, junk), m.dst;
            var y := s1.nodes[me];
            if y.coresAccepted >= Majority(CLUSTER_SIZE) && !y.learnSent then
              var out := Announcement(c, me, m.v);
              s' == s1.(nodes := s1.nodes[me := y.(learnSent := true)], net := s1.net + multiset(out),
                        sent := s1.sent + (set x | x in out))
            else s' == s1
  {
    var me, x := m.dst, s.nodes[m.dst];
    var e := Handle(c, x, m, score, junk);
    HandleVote(c, x, m, score, junk);
    DeliverVote(c, s, m, score, junk, e);
    assert s.nodes[me := x.(coresAccepted := x.coresAccepted + 1)][me := e.node] == s.nodes[me := e.node];
    assert s.sent + (set x | x in []) == s.sent;
    assert s.net - multiset{m} + multiset([]) == s.net - multiset{m};
  }

  lemma VoteKeeps(c: Cluster, s: State, m: Msg, score: nat, junk: Junk)
    requires Inv(c, s) && m.Accepted? && Enabled(c, s, Deliver(m, score, junk))
    ensures Inv(c, AfterDeliver(c, s, m, score, junk))
  {
    var s1, s' := TalliedState(c, s, m), AfterDeliver(c, s, m, score, junk);
    TalliedBasics(c, s, s1, m);
    TalliedInv(c, s, s1, m);
    VoteSplits(c, s, m, score, junk);
    if s' != s1 {
      var out := AnnouncesIs(c, s1, s', m.dst, m.v);
      AnnouncedInv(c, s1, s', m.dst, m.v, out);
    }
  }

  lemma LearnKeeps(c: Cluster, s: State, m: Msg, score: nat, junk: Junk)
    requires Inv(c, s) && m.Learn? && Enabled(c, s, Deliver(m, score, junk))
    ensures Inv(c, AfterDeliver(c, s, m, score, junk))
  {
    var s' := AfterDeliver(c, s, m, score, junk);
    assert s'.net == s.net - multiset{m} + multiset([]);
    NetworkMoves(s, s', {m}, multiset{m}, [], {});
    StoppedInv(c, s, s', m);
  }

  lemma StartInv(c: Cluster)
    requires c.Valid()
    ensures Inv(c, Start(c))
  {
  }

  /** What every step of the protocol keeps. */
  lemma StepKeepsInv(c: Cluster, s: State, a: Action)
    requires Inv(c, s) && Enabled(c, s, a)
    requires Shape(c, Next(c, s, a)) ==> NoSentinel(c, Next(c, s, a))
    ensures Inv(c, Next(c, s, a))
  {
    match a {
      case Suspect(p) =>
        var out := SuspectIs(c, s, p);
        SuspectedInv(c, s, Next(c, s, a), p, out);
      case Deliver(m, score, junk) =>
        match m {
          case Prepare(_, _, _) =>
            var r, answers := PrepareIs(c, s, m, score, junk);
            PromisedInv(c, s, Next(c, s, a), m, r, answers);
          case NoPrevious(_, _, _) => ReplyKeeps(c, s, m, score, junk);
          case Promise(_, _, _, _, _) => ReplyKeeps(c, s, m, score, junk);
          case AcceptRequest(_, _, _, _) =>
            var votes := AcceptIs(c, s, m, score, junk);
            AcceptsInv(c, s, Next(c, s, a), m, votes);
          case Accepted(_, _, _) => VoteKeeps(c, s, m, score, junk);
          case Learn(_, _, _, _) => LearnKeeps(c, s, m, score, junk);
        }
    }
  }

  // ---------------------------------------------------------------- whole runs

  /** Proposals, once made, are never revised. */
  lemma StepHistory(c: Cluster, s: State, a: Action)
    requires Shape(c, s) && Enabled(c, s, a)
    ensures Shape(c, Next(c, s, a))
    ensures forall p | c.Has(p) && s.nodes[p].acceptSent ::
              Next(c, s, a).nodes[p].acceptSent && Next(c, s, a).proposed[p] == s.proposed[p]
    ensures NoSentinel(c, Next(c, s, a)) ==> NoSentinel(c, s)
  {
    if a.Deliver? {
      HandleHistory(c, s.nodes[a.m.dst], a.m, a.score, a.junk);
    }
  }

  lemma HandleHistory(c: Cluster, x: Node, m: Msg, score: nat, junk: Junk)
    requires c.Valid() && c.Has(m.src) && (m.Reply() ==> |x.states| == c.cores)
    ensures var y := Handle(c, x, m, score, junk).node;
            y.started == x.started && |y.states| == |x.states| && (x.acceptSent ==> y.acceptSent)
  {
  }

  lemma {:induction false} RunInv(c: Cluster, states: seq<State>, actions: seq<Action>)
    requires Run(c, states, actions)
    ensures Shape(c, states[|actions|])
    ensures NoSentinel(c, states[|actions|]) ==> Inv(c, states[|actions|])
  {
    if actions == [] {
      StartInv(c);
    } else {
      var n := |actions| - 1;
      var before, act := states[..n + 1], actions[..n];
      assert Run(c, before, act) by {
        forall i | 0 <= i < |act|
          ensures Shape(c, before[i]) && Enabled(c, before[i], act[i]) && before[i + 1] == Next(c, before[i], act[i])
        {
          assert before[i] == states[i] && act[i] == actions[i] && before[i + 1] == states[i + 1];
        }
      }
      RunInv(c, before, act);
      StepHistory(c, states[n], actions[n]);
      if NoSentinel(c, states[n + 1]) {
        StepKeepsInv(c, states[n], actions[n]);
      }
    }
  }

  /** Any two majorities of the cluster meet. */
  ghost predicate QuorumsMeet(c: Cluster)
    requires c.Valid()
  {
    |c.Members()| < 2 * Majority(CLUSTER_SIZE)
  }

  ghost predicate IsQuorum(c: Cluster, a: set<int>)
    requires c.Valid()
  {
    a <= c.Members() && |a| >= Majority(CLUSTER_SIZE)
  }

  ghost predicate Meet(a: set<int>, b: set<int>) {
    exists x :: x in a && x in b
  }

  lemma {:induction false} Choose(s: set<int>, n: nat) returns (a: set<int>)
    requires n <= |s|
    ensures a <= s && |a| == n
  {
    if n == 0 || forall x :: x !in s {
      assert n > 0 ==> s == {};
      a := {};
    } else {
      var x :| x in s;
      var b := Choose(s - {x}, n - 1);
      a := b + {x};
    }
  }

  /** The fixed majority is one exactly for clusters of at most seven such cores: two sets of cores large enough
      to decide always have a core in common if and only if the cluster is that small. */
  lemma QuorumsMeetIff(c: Cluster)
    requires c.Valid()
    ensures QuorumsMeet(c) <==> forall a, b | IsQuorum(c, a) && IsQuorum(c, b) :: Meet(a, b)
    ensures QuorumsMeet(c) <==> |set i | 0 <= i < c.cores && i != c.idag && c.mask[i] == c.idag| < 8
  {
    var n := Majority(CLUSTER_SIZE);
    assert c.Members() == set i | 0 <= i < c.cores && i != c.idag && c.mask[i] == c.idag;
    if QuorumsMeet(c) {
      forall a, b | IsQuorum(c, a) && IsQuorum(c, b)
        ensures Meet(a, b)
      {
        var x := Overlap(a, b, c.Members());
      }
    } else {
      var a := Choose(c.Members(), n);
      var b := Choose(c.Members() - a, n);
      assert IsQuorum(c, a) && IsQuorum(c, b) && !Meet(a, b);
    }
  }

  lemma OrderedAgreement(c: Cluster, s: State, x: Msg, y: Msg)
    requires Inv(c, s) && QuorumsMeet(c)
    requires x.Learn? && y.Learn? && x in s.sent && y in s.sent
    requires s.nodes[x.src].ballot <= s.nodes[y.src].ballot
    ensures x.v == y.v
  {
    var p, q := x.src, y.src;
    assert x == Learn(p, x.dst, x.v, x.failed) && y == Learn(q, y.dst, y.v, y.failed);
    assert ProposerOk(c, s, p) && ProposerOk(c, s, q);
    var b := s.nodes[p].ballot;
    if p != q {
      assert s.owners[b] == p;
      assert SafeAgainst(c, s, q, b);
      if s.proposed[p] != s.proposed[q] {
        forall a | a in s.voters[p]
          ensures a in c.Members()
        {
          assert Voted(s, a, p);
          assert VoteOk(c, s, a, p, s.proposed[p]);
        }
        var a := Overlap(Blockers(c, s, b), s.voters[p], c.Members());
        assert false;
      }
    }
  }

  /** Agreement: over every run, however messages are reordered and whoever proposes, two announcements
      of the new controller never differ, and both are about the failed controller. */
  lemma Agreement(c: Cluster, states: seq<State>, actions: seq<Action>, x: Msg, y: Msg)
    requires Run(c, states, actions) && QuorumsMeet(c)
    requires Shape(c, states[|actions|]) && NoSentinel(c, states[|actions|])
    requires x.Learn? && y.Learn? && x in states[|actions|].sent && y in states[|actions|].sent
    ensures x.v == y.v && x.failed == y.failed == c.idag
  {
    var s := states[|actions|];
    RunInv(c, states, actions);
    assert x == Learn(x.src, x.dst, x.v, x.failed) && y == Learn(y.src, y.dst, y.v, y.failed);
    if s.nodes[x.src].ballot <= s.nodes[y.src].ballot {
      OrderedAgreement(c, s, x, y);
    } else {
      OrderedAgreement(c, s, y, x);
    }
  }
}
