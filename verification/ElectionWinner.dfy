/** Who gets elected: the scan that picks a core, the runs in which it is not misled by what it reads
    from variables nobody assigned, and the value the acceptors cannot tell from "nothing". */
module ElectionWinner {
  import opened Paxos
  import opened PaxosInvariant
  import opened PaxosRuns
  import opened PaxosSteps

  // ---------------------------------------------------------------- the scan

  ghost predicate Beats(states: seq<int>, junk: Junk, i: int)
  {
    0 <= i < |states| && states[i] > junk.maxScore
  }

  lemma {:induction false} ScanExact(states: seq<int>, junk: Junk, k: nat)
    requires k <= |states|
    ensures var (best, at) := Scan(states, junk, k);
            && best >= junk.maxScore
            && (forall i | 0 <= i < k :: states[i] <= best)
            && (best == junk.maxScore ==> at == junk.index)
            && (best > junk.maxScore ==> 0 <= at < k && states[at] == best && forall i | 0 <= i < at :: states[i] < best)
  {
    if k > 0 {
      ScanExact(states, junk, k - 1);
    }
  }

  /** The scan returns the first core of greatest score if some score beats the value `max_score` happens
      to start with, and whatever `index` happens to hold otherwise. */
  lemma PickExact(states: seq<int>, junk: Junk)
    ensures (exists i :: Beats(states, junk, i)) ==>
              var v := Pick(states, junk);
              && Beats(states, junk, v)
              && (forall i | 0 <= i < |states| :: states[i] <= states[v])
              && (forall i | 0 <= i < v :: states[i] < states[v])
    ensures !(exists i :: Beats(states, junk, i)) ==> Pick(states, junk) == junk.index
  {
    ScanExact(states, junk, |states|);
    var (best, at) := Scan(states, junk, |states|);
    if best > junk.maxScore {
      assert Beats(states, junk, at);
    } else {
      forall i
        ensures !Beats(states, junk, i)
      {
      }
    }
  }

  /** The uninitialised variables do matter: here the scan elects core -1. */
  lemma ScanCanFail()
    ensures Pick([-1, 60, 10, 50, 10, 1, 20], Junk(100, -1, 0)) == -1
    ensures Pick([-1, 60, 10, 50, 10, 1, 20], Junk(-1, -1, 0)) == 1
  {
    var states := [-1, 60, 10, 50, 10, 1, 20];
    PickExact(states, Junk(100, -1, 0));
    assert Beats(states, Junk(-1, -1, 0), 1);
    PickExact(states, Junk(-1, -1, 0));
  }

  // ---------------------------------------------------------------- the value -1

  /** An acceptor that voted for `v` in ballot `n` tells the next proposer about it exactly when the value
      is not -1; a vote for -1 is reported as no vote at all, so a later ballot is free to choose again. */
  lemma VoteIsReportedIff(me: int, nd: Node, src: int, n: int, v: int, next: int, score: nat, junk: Junk)
    requires nd.promised <= n && 0 <= n < next
    ensures var voted := OnAcceptRequest(me, nd, src, n, v);
            var answer := OnPrepare(me, voted.node, src, next, score, junk);
            && voted.out == [Accepted(me, src, v)]
            && |answer.out| == 1 && answer.out[0].Reply()
            && (answer.out[0] == Promise(me, src, n, v, junk.score) <==> v != -1)
            && (answer.out[0] == NoPrevious(me, src, junk.score) <==> v == -1)
  {
  }

  // ---------------------------------------------------------------- sane runs

  /** This delivery makes its receiver send out a proposal nobody reported to it. */
  ghost predicate FreshProposal(c: Cluster, s: State, a: Action)
    requires Shape(c, s) && Enabled(c, s, a)
  {
    && a.Deliver? && a.m.Reply()
    && var y := CountedNode(s.nodes[a.m.dst], a.m);
       y.coresPromised >= Majority(CLUSTER_SIZE) && !y.acceptSent && y.repliedV == -1
  }

  /** `max_score` starts at -1 or more, and some answering core beats it. */
  ghost predicate SaneStep(c: Cluster, s: State, a: Action)
    requires Shape(c, s) && Enabled(c, s, a)
  {
    FreshProposal(c, s, a) && a.m.NoPrevious? ==>
      a.junk.maxScore >= -1 && exists i :: Beats(CountedNode(s.nodes[a.m.dst], a.m).states, a.junk, i)
  }

  /** The intended start value -1 and a real, hence non-negative, score make a step sane. */
  lemma IntendedStartIsSane(c: Cluster, s: State, a: Action)
    requires Shape(c, s) && Enabled(c, s, a)
    requires a.Deliver? && a.m.NoPrevious? ==> a.junk.maxScore == -1 && a.m.score >= 0
    ensures SaneStep(c, s, a)
  {
    if FreshProposal(c, s, a) && a.m.NoPrevious? {
      var states := CountedNode(s.nodes[a.m.dst], a.m).states;
      assert Beats(states, a.junk, a.m.src);
    }
  }

  /** `v` is a core of the cluster that answered some proposer. */
  ghost predicate Answered(c: Cluster, s: State, v: int)
    requires Shape(c, s)
  {
    c.Has(v) && exists q :: c.Has(q) && v in s.inbox[q]
  }

  ghost predicate Recorded(c: Cluster, s: State, p: int)
    requires Shape(c, s) && c.Has(p)
  {
    s.nodes[p].started ==>
      && (forall i | 0 <= i < c.cores && s.nodes[p].states[i] != -1 :: i in s.inbox[p])
      && (forall a | c.Has(a) && a in s.inbox[p] && s.inbox[p][a].Reply() :: s.nodes[p].states[a] == s.inbox[p][a].score)
  }

  ghost predicate WinnerInv(c: Cluster, s: State)
    requires Shape(c, s)
  {
    && (forall p | c.Has(p) :: Recorded(c, s, p))
    && (forall p | c.Has(p) && !s.nodes[p].started :: s.inbox[p] == map[])
    && (forall p, a | c.Has(p) && a in s.inbox[p] :: c.Has(a))
    && (forall p | c.Has(p) && s.nodes[p].acceptSent :: Answered(c, s, s.proposed[p]))
  }

  lemma FreshIsNoPrevious(c: Cluster, s: State, a: Action)
    requires Inv(c, s) && Enabled(c, s, a) && FreshProposal(c, s, a)
    ensures a.m.NoPrevious?
  {
    assert a.m in s.sent && ReplyOk(c, s, a.m);
    assert ProposerOk(c, s, a.m.dst);
  }

  /** The core a proposer picks when nobody reported a vote has answered it, and no core that answered it
      has a greater preference score. */
  lemma FreshWinnerIsBest(c: Cluster, s: State, a: Action)
    requires Inv(c, s) && WinnerInv(c, s) && Enabled(c, s, a) && FreshProposal(c, s, a) && SaneStep(c, s, a)
    ensures var s', p := Next(c, s, a), a.m.dst;
            var v := s'.proposed[p];
            && s'.nodes[p].acceptSent && v in s'.inbox[p] && c.Has(v)
            && forall b | b in s'.inbox[p] :: s'.inbox[p][b].score <= s'.inbox[p][v].score
  {
    FreshIsNoPrevious(c, s, a);
    assert ProposerOk(c, s, a.m.dst);
    assert Recorded(c, s, a.m.dst);
    forall b | b in s.inbox[a.m.dst]
      ensures c.Has(b) && s.inbox[a.m.dst][b].Reply()
    {
      assert FromInbox(s, a.m.dst, b);
    }
    BestOfTable(c, s.inbox[a.m.dst], s.nodes[a.m.dst], a.m, a.junk);
  }

  /** The scan over a table that mirrors an inbox finds the best entry of the inbox. */
  lemma BestOfTable(c: Cluster, inbox: map<int, Msg>, x: Node, m: Msg, junk: Junk)
    requires c.Valid() && |x.states| == c.cores && m.Reply() && c.Has(m.src)
    requires forall i | 0 <= i < c.cores && x.states[i] != -1 :: i in inbox
    requires forall b | b in inbox :: c.Has(b) && inbox[b].Reply() && x.states[b] == inbox[b].score
    requires junk.maxScore >= -1 && exists i :: Beats(CountedNode(x, m).states, junk, i)
    ensures var v, box := Pick(CountedNode(x, m).states, junk), inbox[m.src := m];
            && v in box && c.Has(v) && box[v].Reply()
            && forall b | b in box :: box[b].Reply() && box[b].score <= box[v].score
  {
    var states, box := CountedNode(x, m).states, inbox[m.src := m];
    PickExact(states, junk);
    forall b | b in box
      ensures c.Has(b) && box[b].Reply() && states[b] == box[b].score
    {
    }
  }

  /** Whatever else a step does to a proposer, it adopts a value already proposed. */
  lemma AdoptedValue(c: Cluster, s: State, a: Action, p: int)
    requires Inv(c, s) && Enabled(c, s, a) && !FreshProposal(c, s, a) && c.Has(p)
    requires Next(c, s, a).nodes[p].acceptSent && !s.nodes[p].acceptSent
    ensures exists q :: c.Has(q) && s.nodes[q].acceptSent && s.proposed[q] == Next(c, s, a).proposed[p]
  {
    var m := a.m;
    assert m.Reply() && m.dst == p;
    CountedAnswer(c, s, m);
    var y := CountedNode(s.nodes[p], m);
    var q := s.owners[y.repliedN];
    assert s.proposed[q] == y.repliedV;
  }

  lemma CountedAnswer(c: Cluster, s: State, m: Msg)
    requires Inv(c, s) && m in s.net && m.Reply() && c.Has(m.src) && c.Has(m.dst) && s.nodes[m.dst].started
    requires !s.nodes[m.dst].acceptSent
    ensures var y := CountedNode(s.nodes[m.dst], m);
            && -1 <= s.nodes[m.dst].repliedN
            && (y.repliedV != -1 ==> 0 <= y.repliedN < |s.owners| && y.repliedV == s.proposed[s.owners[y.repliedN]])
  {
    assert m in s.sent && ReplyOk(c, s, m);
    assert ProposerOk(c, s, m.dst);
  }

  lemma ProposalsAnswered(c: Cluster, s: State, a: Action, p: int)
    requires Inv(c, s) && WinnerInv(c, s) && Enabled(c, s, a) && SaneStep(c, s, a) && Shape(c, Next(c, s, a))
    requires c.Has(p) && Next(c, s, a).nodes[p].acceptSent
    ensures Answered(c, Next(c, s, a), Next(c, s, a).proposed[p])
  {
    if s.nodes[p].acceptSent {
      StepHistory(c, s, a);
    } else if FreshProposal(c, s, a) {
      FreshWinnerIsBest(c, s, a);
    } else {
      AdoptedValue(c, s, a, p);
      var q :| c.Has(q) && s.nodes[q].acceptSent && s.proposed[q] == Next(c, s, a).proposed[p];
    }
  }

  lemma WinnerStep(c: Cluster, s: State, a: Action)
    requires Inv(c, s) && WinnerInv(c, s) && Enabled(c, s, a) && SaneStep(c, s, a)
    ensures Inv(c, Next(c, s, a)) && WinnerInv(c, Next(c, s, a))
  {
    StepHistory(c, s, a);
    forall p | c.Has(p) && Next(c, s, a).nodes[p].acceptSent
      ensures Answered(c, Next(c, s, a), Next(c, s, a).proposed[p])
    {
      ProposalsAnswered(c, s, a, p);
    }
    StepKeepsInv(c, s, a);
    WinnerRecords(c, s, a);
  }

  /** Only the receiver of an answer gets a new entry in its tables. */
  lemma TablesMove(c: Cluster, x: Node, m: Msg, score: nat, junk: Junk)
    requires c.Valid() && c.Has(m.src) && (m.Reply() ==> |x.states| == c.cores)
    ensures var y := Handle(c, x, m, score, junk).node;
            && y.started == x.started
            && y.states == if m.Reply() then x.states[m.src := m.score] else x.states
  {
  }

  lemma WinnerRecords(c: Cluster, s: State, a: Action)
    requires Shape(c, s) && WinnerInv(c, s) && Enabled(c, s, a) && Shape(c, Next(c, s, a))
    ensures forall p | c.Has(p) :: Recorded(c, Next(c, s, a), p)
    ensures forall p | c.Has(p) && !Next(c, s, a).nodes[p].started :: Next(c, s, a).inbox[p] == map[]
    ensures forall p, b | c.Has(p) && b in Next(c, s, a).inbox[p] :: c.Has(b)
  {
    if a.Deliver? {
      TablesMove(c, s.nodes[a.m.dst], a.m, a.score, a.junk);
    }
    forall p | c.Has(p)
      ensures Recorded(c, Next(c, s, a), p)
    {
      assert Recorded(c, s, p);
    }
  }

  ghost predicate SaneRun(c: Cluster, states: seq<State>, actions: seq<Action>) {
    Run(c, states, actions) && forall i | 0 <= i < |actions| :: SaneStep(c, states[i], actions[i])
  }

  lemma {:induction false} SaneRunInv(c: Cluster, states: seq<State>, actions: seq<Action>)
    requires SaneRun(c, states, actions)
    ensures Inv(c, states[|actions|]) && WinnerInv(c, states[|actions|])
  {
    if actions == [] {
      StartInv(c);
    } else {
      var n := |actions| - 1;
      var before, act := states[..n + 1], actions[..n];
      assert SaneRun(c, before, act) by {
        forall i | 0 <= i < |act|
          ensures Shape(c, before[i]) && Enabled(c, before[i], act[i]) && before[i + 1] == Next(c, before[i], act[i])
          ensures SaneStep(c, before[i], act[i])
        {
          assert before[i] == states[i] && act[i] == actions[i] && before[i + 1] == states[i + 1];
          assert SaneStep(c, states[i], actions[i]);
        }
      }
      SaneRunInv(c, before, act);
      assert SaneStep(c, states[n], actions[n]);
      WinnerStep(c, states[n], actions[n]);
    }
  }

  /** Every core any LEARN announces belongs to the cluster and answered somebody's PREPARE_REQUEST, and
      all announcements agree. */
  lemma WinnerIsValid(c: Cluster, states: seq<State>, actions: seq<Action>, x: Msg, y: Msg)
    requires SaneRun(c, states, actions) && QuorumsMeet(c)
    requires x.Learn? && y.Learn? && x in states[|actions|].sent && y in states[|actions|].sent
    ensures x.v == y.v && Shape(c, states[|actions|]) && Answered(c, states[|actions|], x.v)
  {
    var s := states[|actions|];
    SaneRunInv(c, states, actions);
    Agreement(c, states, actions, x, y);
    assert x == Learn(x.src, x.dst, x.v, x.failed);
    assert ProposerOk(c, s, x.src);
  }
}