/** What the handlers that count and tell others do, in numbers and cores: when four answers or four votes are there, and
    to whom and in what order the messages go. */
module PaxosHandlers {
  import opened Paxos
  import opened PaxosReach
  import opened PaxosRuns

  /** One copy of a message for each of the cores, in their order. */
  ghost predicate InOrder(out: seq<Msg>) {
    forall i, j | 0 <= i < j < |out| :: out[i].dst < out[j].dst
  }

  lemma {:induction false} FanInOrder(template: Msg, to: set<int>, k: nat)
    ensures InOrder(Fan(template, to, k)) && forall m | m in Fan(template, to, k) :: m.dst < k && m.dst in to
  {
    if k > 0 {
      FanInOrder(template, to, k - 1);
    }
  }

  /** A proposer's first messages: one to each core that answers to the failed controller, in order. */
  lemma Invitations(c: Cluster, me: int, nd: Node, n: int)
    requires c.Valid()
    ensures var e := OnInit(c, me, nd, n);
            && InOrder(e.out) && (forall m :: m in e.out <==> m == Prepare(me, m.dst, n) && Member(c, m.dst))
            && |e.node.states| == c.cores && (forall i | 0 <= i < c.cores :: e.node.states[i] == -1)
            && e.node == nd.(started := true, ballot := n, states := e.node.states)
  {
    FanInOrder(Prepare(me, 0, n), c.Members(), c.cores);
    InvitesMembers(c, me, nd, n);
  }

  /** Ballot and value once the answer is filed: those it reports, if its ballot is higher; and at the fourth answer a
      proposer that still has no value picks one. */
  function Adopted(x: Node, m: Msg): (int, int)
    requires m.Reply()
  {
    if m.Promise? && m.accN > x.repliedN then (m.accN, m.accV) else (x.repliedN, x.repliedV)
  }

  /** An answer is filed and counted; the fourth makes the proposer ask every member, in order, to accept one value. */
  lemma AnswerHandled(c: Cluster, x: Node, m: Msg, score: nat, junk: Junk)
    requires c.Valid() && c.Has(m.src) && m.Reply() && |x.states| == c.cores
    ensures var e := Handle(c, x, m, score, junk);
            var y, asks := e.node, x.coresPromised + 1 >= 4 && !x.acceptSent;
            && y == x.(states := x.states[m.src := m.score], coresPromised := x.coresPromised + 1,
                       repliedN := Adopted(x, m).0, repliedV := y.repliedV, acceptSent := x.acceptSent || asks)
            && y.repliedV == (if asks && m.NoPrevious? && x.repliedV == -1 then Pick(y.states, junk) else Adopted(x, m).1)
            && InOrder(e.out)
            && forall o :: o in e.out <==> asks && o == AcceptRequest(m.dst, o.dst, x.ballot, y.repliedV) && Member(c, o.dst)
  {
    var v := Handle(c, x, m, score, junk).node.repliedV;
    FanInOrder(AcceptRequest(m.dst, 0, x.ballot, v), c.Members(), c.cores);
    AsksMembers(c, m.dst, x, v);
  }

  /** A vote is counted; the fourth makes the proposer tell itself and then, in order, every other core but the failed one. */
  lemma VoteHandled(c: Cluster, x: Node, me: int, v: int)
    requires c.Valid() && Member(c, me)
    ensures var e := OnAccepted(c, me, x, v);
            var tells := x.coresAccepted + 1 >= 4 && !x.learnSent;
            && e.node == x.(coresAccepted := x.coresAccepted + 1, learnSent := x.learnSent || tells)
            && (tells ==> e.out != [] && e.out[0].dst == me && InOrder(e.out[1..]) && forall m | m in e.out[1..] :: m.dst != me)
            && forall m :: m in e.out <==> tells && m == Learn(me, m.dst, v, c.idag) && 0 <= m.dst < c.cores && m.dst != c.idag
  {
    var fan := Fan(Learn(me, 0, v, c.idag), c.AllBut(me), c.cores);
    FanInOrder(Learn(me, 0, v, c.idag), c.AllBut(me), c.cores);
    TellsAll(c, me, v);
    assert Announcement(c, me, v)[1..] == fan;
  }
}
