/** The kinds of step an election can take, described by what they do to records and messages, and the proof that
    each keeps the invariant. */
module PaxosSteps {
  import opened Arithmetic
  import opened Paxos
  import opened PaxosInvariant

  // ---------------------------------------------------------------- every step keeps the invariant

  ghost predicate OthersSame(c: Cluster, s: State, s': State, me: int)
    requires Shape(c, s) && Shape(c, s')
  {
    forall i | 0 <= i < c.cores && i != me ::
      s'.nodes[i] == s.nodes[i] && s'.inbox[i] == s.inbox[i]
      && s'.voters[i] == s.voters[i] && s'.proposed[i] == s.proposed[i]
  }

  lemma GrowsHolds(c: Cluster, s: State, s': State, me: int, gone: set<Msg>, out: set<Msg>)
    requires Shape(c, s) && Shape(c, s') && c.Has(me)
    requires Moved(s, s', gone, out) && OthersSame(c, s, s', me) && s.owners <= s'.owners
    requires NodeGrows(s, s', me)
    requires forall a, q, v | Accepted(a, q, v) in out ::
               c.Has(a) && c.Has(q) && s'.nodes[q].ballot >= s.nodes[a].promised
    ensures Grows(c, s, s')
  {
  }

  lemma RepliesStay(c: Cluster, s: State, s': State)
    requires Shape(c, s) && Ballots(c, s) && AcceptRequests(c, s) && Votes(c, s) && Replies(c, s)
    requires Shape(c, s') && Ballots(c, s') && Grows(c, s, s')
    ensures forall m | m in s.sent && m.Reply() :: ReplyOk(c, s', m)
  {
    forall m | m in s.sent && m.Reply()
      ensures ReplyOk(c, s', m)
    {
      ReplyOkKept(c, s, s', m);
    }
  }

  lemma AcceptorsStay(c: Cluster, s: State, s': State, me: int)
    requires Inv(c, s) && Shape(c, s') && Ballots(c, s') && Grows(c, s, s') && OthersSame(c, s, s', me)
    requires c.Has(me) && (AcceptorOk(c, s', me) || (s'.nodes[me].accN == s.nodes[me].accN && s'.nodes[me].accV == s.nodes[me].accV))
    ensures Acceptors(c, s')
  {
    forall a | c.Has(a)
      ensures AcceptorOk(c, s', a)
    {
      if a != me || !AcceptorOk(c, s', me) {
        AcceptorKept(c, s, s', a);
      }
    }
  }

  lemma SafeStays(c: Cluster, s: State, s': State, me: int)
    requires Inv(c, s) && Shape(c, s') && Ballots(c, s') && Grows(c, s, s') && OthersSame(c, s, s', me)
    requires c.Has(me)
    requires s'.nodes[me].acceptSent && !s.nodes[me].acceptSent ==>
               s'.nodes[me].started && forall b | 0 <= b < s'.nodes[me].ballot :: SafeAgainst(c, s', me, b)
    ensures SafeProposals(c, s')
  {
    forall p, b | c.Has(p) && s'.nodes[p].acceptSent && s'.nodes[p].started && 0 <= b < s'.nodes[p].ballot
      ensures SafeAgainst(c, s', p, b)
    {
      assert NodeGrows(s, s', p);
      if s.nodes[p].acceptSent {
        assert s.nodes[p].started;
        SafeKept(c, s, s', p, b);
      }
    }
  }

  /** The proposer side of `me` is untouched, and so is its acceptor side unless it just voted. */
  lemma RecordsStay(c: Cluster, s: State, s': State, me: int)
    requires Inv(c, s) && Shape(c, s') && Ballots(c, s') && Grows(c, s, s') && OthersSame(c, s, s', me)
    requires c.Has(me)
    requires AcceptorOk(c, s', me) || (s'.nodes[me].accN == s.nodes[me].accN && s'.nodes[me].accV == s.nodes[me].accV)
    requires s'.inbox[me] == s.inbox[me] && s'.voters[me] == s.voters[me]
    requires s'.nodes[me].coresPromised == s.nodes[me].coresPromised
    requires s'.nodes[me].coresAccepted == s.nodes[me].coresAccepted
    requires s'.nodes[me].repliedN == s.nodes[me].repliedN && s'.nodes[me].repliedV == s.nodes[me].repliedV
    requires s'.nodes[me].acceptSent == s.nodes[me].acceptSent && s'.nodes[me].learnSent == s.nodes[me].learnSent
    ensures Acceptors(c, s') && Proposers(c, s') && SafeProposals(c, s')
  {
    AcceptorsStay(c, s, s', me);
    ProposerKept(c, s, s', me);
    SafeStays(c, s, s', me);
  }

  lemma QuietReplies(c: Cluster, s: State, s': State, gone: set<Msg>, out: set<Msg>)
    requires Shape(c, s) && Shape(c, s') && Ballots(c, s) && Ballots(c, s')
    requires Replies(c, s) && Moved(s, s', gone, out)
    requires s'.inbox == s.inbox && (forall m | m in gone || m in out :: !m.Reply())
    requires forall m | m in s.sent && m.Reply() :: ReplyOk(c, s', m)
    ensures Replies(c, s')
  {
    forall m | m in s'.sent && m.Reply()
      ensures ReplyOk(c, s', m) && Filed(s', m)
    {
      assert m in s.sent;
      assert ReplyOk(c, s, m) && Filed(s, m);
    }
    forall p, a | c.Has(p) && a in s'.inbox[p]
      ensures FromInbox(s', p, a)
    {
      assert FromInbox(s, p, a);
    }
  }

  lemma QuietVotes(c: Cluster, s: State, s': State, gone: set<Msg>, out: set<Msg>)
    requires Shape(c, s) && Shape(c, s') && Votes(c, s) && Grows(c, s, s') && Moved(s, s', gone, out)
    requires s'.voters == s.voters && (forall m | m in gone || m in out :: !m.Accepted?)
    ensures Votes(c, s')
  {
    forall a, p, v | Accepted(a, p, v) in s'.sent
      ensures VoteOk(c, s', a, p, v)
    {
      assert Accepted(a, p, v) in s.sent;
      assert VoteOk(c, s, a, p, v);
      assert NodeGrows(s, s', a) && NodeGrows(s, s', p);
    }
    forall p, a | c.Has(p) && a in s'.voters[p]
      ensures Voted(s', a, p)
    {
      assert Voted(s, a, p);
      assert VoteOk(c, s, a, p, s.proposed[p]);
      assert NodeGrows(s, s', p);
    }
  }

  lemma NetworkMoves(s: State, s': State, gone: set<Msg>, m: multiset<Msg>, sends: seq<Msg>, out: set<Msg>)
    requires forall x :: x in out <==> x in sends
    requires Network(s) && m <= s.net && (forall x :: x in gone <==> x in m)
    requires s'.net == s.net - m + multiset(sends)
    requires s'.sent == s.sent + (set x | x in sends)
    requires forall x :: multiset(sends)[x] <= 1
    requires forall x | x in out :: x !in s.sent
    ensures Network(s') && Moved(s, s', gone, out)
  {
    forall x
      ensures s'.net[x] <= 1 && (x in s'.net <==> (x in s.net && x !in gone) || x in out)
      ensures x in s'.net ==> x in s'.sent
    {
      assert x in out <==> x in multiset(sends);
      assert s.net[x] <= 1 && (x in s.net ==> x in s.sent);
      assert x in m ==> m[x] == s.net[x] == 1;
    }
  }

  /** What a new proposal does, without the details of the fan-out. */
  ghost predicate Suspected(c: Cluster, s: State, s': State, p: int, out: set<Msg>)
    requires Shape(c, s) && Shape(c, s') && c.Has(p)
  {
    && s'.owners == s.owners + [p]
    && OthersSame(c, s, s', p)
    && s'.inbox == s.inbox && s'.voters == s.voters && s'.proposed == s.proposed
    && s'.nodes[p] == s.nodes[p].(started := true, ballot := |s.owners|, states := s'.nodes[p].states)
    && Network(s') && Moved(s, s', {}, out)
    && (forall m | m in out :: m.Prepare? && m.src == p && m.n == |s.owners| && c.Has(m.dst))
  }

  lemma PreparesWhom(c: Cluster, me: int, b: int) returns (out: set<Msg>)
    requires c.Valid()
    ensures forall x :: x in out <==> x in Fan(Prepare(me, 0, b), c.Members(), c.cores)
    ensures forall x :: multiset(Fan(Prepare(me, 0, b), c.Members(), c.cores))[x] <= 1
    ensures forall x | x in out :: x == Prepare(me, x.dst, b) && c.Has(x.dst)
  {
    out := FanOut(Prepare(me, 0, b), c.Members(), c.cores);
  }

  lemma SuspectIs(c: Cluster, s: State, p: int) returns (out: set<Msg>)
    requires Shape(c, s) && Network(s) && Prepares(c, s) && c.Has(p) && !s.nodes[p].started
    ensures Shape(c, AfterSuspect(c, s, p)) && Suspected(c, s, AfterSuspect(c, s, p), p, out)
  {
    var sends := OnInit(c, p, s.nodes[p], |s.owners|).out;
    out := PreparesWhom(c, p, |s.owners|);
    assert forall x | x in out :: x !in s.sent;
    NetworkMoves(s, AfterSuspect(c, s, p), {}, multiset{}, sends, out);
  }

  lemma SuspectedMessages(c: Cluster, s: State, s': State, p: int, out: set<Msg>)
    requires Inv(c, s) && Shape(c, s') && c.Has(p) && !s.nodes[p].started && Suspected(c, s, s', p, out)
    ensures Prepares(c, s') && AcceptRequests(c, s') && Learns(c, s') && NoSentinel(c, s')
  {
  }

  lemma SuspectedInv(c: Cluster, s: State, s': State, p: int, out: set<Msg>)
    requires Inv(c, s) && Shape(c, s') && c.Has(p) && !s.nodes[p].started && Suspected(c, s, s', p, out)
    ensures Inv(c, s')
  {
    RepliesStay(c, s, s');
    QuietReplies(c, s, s', {}, out);
    QuietVotes(c, s, s', {}, out);
    RecordsStay(c, s, s', p);
    SuspectedMessages(c, s, s', p, out);
  }

  // PREPARE_REQUEST arrives

  /** Either nothing changes but the message is gone, or the core promises and answers with `r`. */
  ghost predicate Promised(c: Cluster, s: State, s': State, m: Msg, r: Msg, answers: bool)
    requires Shape(c, s) && Shape(c, s') && m.Prepare? && c.Has(m.dst) && r.Reply()
  {
    var x, y := s.nodes[m.dst], s'.nodes[m.dst];
    && s'.owners == s.owners && s'.inbox == s.inbox && s'.voters == s.voters && s'.proposed == s.proposed
    && OthersSame(c, s, s', m.dst)
    && y == x.(promised := y.promised)
    && Network(s') && Moved(s, s', {m}, if answers then {r} else {})
    && (if answers then
          x.promised < m.n == y.promised
          && r.src == m.dst && r.dst == m.src && r.RepN() == x.accN && r.RepV() == x.accV
          && (r.NoPrevious? <==> x.accN == -1)
        else y == x)
  }

  /** What the acceptor answers, and what its answer reports. */
  lemma HandlePrepare(me: int, x: Node, src: int, n: int, score: int, junk: Junk) returns (r: Msg, answers: bool)
    requires -1 <= x.accN <= x.promised && (x.accN == -1 <==> x.accV == -1) && 0 <= n
    ensures r.Reply()
    ensures var e := OnPrepare(me, x, src, n, score, junk);
            && e.out == (if answers then [r] else [])
            && e.node == (if answers then x.(promised := n) else x)
            && (answers ==> x.promised < n && r.src == me && r.dst == src && r.RepN() == x.accN && r.RepV() == x.accV
                            && (r.NoPrevious? <==> x.accN == -1))
  {
    var sends := OnPrepare(me, x, src, n, score, junk).out;
    answers := |sends| > 0;
    r := if answers then sends[0] else NoPrevious(0, 0, 0);
  }

  lemma PrepareIs(c: Cluster, s: State, m: Msg, score: nat, junk: Junk) returns (r: Msg, answers: bool)
    requires Shape(c, s) && Ballots(c, s) && Network(s) && Prepares(c, s) && Replies(c, s) && Acceptors(c, s)
    requires m.Prepare? && Enabled(c, s, Deliver(m, score, junk))
    ensures Shape(c, AfterDeliver(c, s, m, score, junk)) && r.Reply()
    ensures Promised(c, s, AfterDeliver(c, s, m, score, junk), m, r, answers)
  {
    assert AcceptorOk(c, s, m.dst) && m == Prepare(m.src, m.dst, m.n);
    r, answers := HandlePrepare(m.dst, s.nodes[m.dst], m.src, m.n, score, junk);
    PromisedIs(c, s, AfterDeliver(c, s, m, score, junk), m, r, answers);
  }

  lemma PromisedIs(c: Cluster, s: State, s': State, m: Msg, r: Msg, answers: bool)
    requires Shape(c, s) && Network(s) && m.Prepare? && c.Has(m.dst) && m in s.net && r.Reply()
    requires answers ==> r !in s.sent
    requires var x := s.nodes[m.dst];
             answers ==> x.promised < m.n && r.src == m.dst && r.dst == m.src && r.RepN() == x.accN && r.RepV() == x.accV
                         && (r.NoPrevious? <==> x.accN == -1)
    requires var x, out := s.nodes[m.dst], if answers then [r] else [];
             s' == s.(nodes := s.nodes[m.dst := if answers then x.(promised := m.n) else x],
                      net := s.net - multiset{m} + multiset(out), sent := s.sent + (set x | x in out))
    ensures Shape(c, s') && Promised(c, s, s', m, r, answers)
  {
    NetworkMoves(s, s', {m}, multiset{m}, if answers then [r] else [], if answers then {r} else {});
  }

  lemma PromisedBasics(c: Cluster, s: State, s': State, m: Msg, r: Msg, answers: bool)
    requires Shape(c, s) && Shape(c, s') && m.Prepare? && c.Has(m.dst) && r.Reply() && Promised(c, s, s', m, r, answers)
    requires Ballots(c, s) && AcceptRequests(c, s) && Learns(c, s) && Prepares(c, s) && NoSentinel(c, s)
    ensures Ballots(c, s') && Grows(c, s, s')
    ensures Prepares(c, s') && AcceptRequests(c, s') && Learns(c, s') && NoSentinel(c, s')
  {
    assert NodeGrows(s, s', m.dst);
  }

  lemma StillOneReplyEach(s: State, s': State, gone: set<Msg>, r: Msg)
    requires OneReplyEach(s) && Moved(s, s', gone, {r}) && r.Reply()
    requires forall y | y in s.sent && y.Reply() :: r.src != y.src || r.dst != y.dst
    ensures OneReplyEach(s')
  {
  }

  /** One fresh answer enters, and its place was empty. */
  lemma OneMoreReply(c: Cluster, s: State, s': State, gone: set<Msg>, r: Msg)
    requires Shape(c, s) && Shape(c, s') && Ballots(c, s) && Ballots(c, s') && Replies(c, s)
    requires Moved(s, s', gone, {r}) && s'.inbox == s.inbox && OneReplyEach(s')
    requires forall x | x in gone :: !x.Reply()
    requires r.Reply() && ReplyOk(c, s', r) && r.src !in s.inbox[r.dst]
    requires forall x | x in s.sent && x.Reply() :: ReplyOk(c, s', x)
    ensures Replies(c, s')
  {
    forall x | x in s'.sent && x.Reply()
      ensures ReplyOk(c, s', x) && Filed(s', x)
    {
      assert x in s.sent ==> ReplyOk(c, s, x) && Filed(s, x);
    }
    forall p, a | c.Has(p) && a in s'.inbox[p]
      ensures FromInbox(s', p, a)
    {
      assert FromInbox(s, p, a);
    }
  }

  lemma PromisedReplies(c: Cluster, s: State, s': State, m: Msg, r: Msg, answers: bool)
    requires Inv(c, s) && m.Prepare? && m in s.net && c.Has(m.dst)
    requires Shape(c, s') && r.Reply() && Promised(c, s, s', m, r, answers)
    requires Ballots(c, s') && Grows(c, s, s')
    ensures Replies(c, s')
  {
    RepliesStay(c, s, s');
    if answers {
      StillOneReplyEach(s, s', {m}, r);
      OneMoreReply(c, s, s', {m}, r);
    } else {
      QuietReplies(c, s, s', {m}, {});
    }
  }

  lemma PromisedInv(c: Cluster, s: State, s': State, m: Msg, r: Msg, answers: bool)
    requires Inv(c, s) && m.Prepare? && m in s.net && c.Has(m.dst)
    requires Shape(c, s') && r.Reply() && Promised(c, s, s', m, r, answers)
    ensures Inv(c, s')
  {
    PromisedBasics(c, s, s', m, r, answers);
    PromisedReplies(c, s, s', m, r, answers);
    QuietVotes(c, s, s', {m}, if answers then {r} else {});
    RecordsStay(c, s, s', m.dst);
  }

  // ACCEPT_REQUEST arrives

  ghost predicate Accepts(c: Cluster, s: State, s': State, m: Msg, votes: bool)
    requires Shape(c, s) && Shape(c, s') && m.AcceptRequest? && c.Has(m.dst)
  {
    var x, y := s.nodes[m.dst], s'.nodes[m.dst];
    && s'.owners == s.owners && s'.inbox == s.inbox && s'.voters == s.voters && s'.proposed == s.proposed
    && OthersSame(c, s, s', m.dst)
    && Network(s') && Moved(s, s', {m}, if votes then {Accepted(m.dst, m.src, m.v)} else {})
    && (if votes then x.promised <= m.n && y == x.(accN := m.n, accV := m.v, promised := m.n) else y == x)
  }

  lemma AcceptIs(c: Cluster, s: State, m: Msg, score: nat, junk: Junk) returns (votes: bool)
    requires Shape(c, s) && NoSentinel(c, s) && Network(s) && AcceptRequests(c, s) && Votes(c, s)
    requires m.AcceptRequest? && Enabled(c, s, Deliver(m, score, junk))
    ensures Shape(c, AfterDeliver(c, s, m, score, junk))
    ensures Accepts(c, s, AfterDeliver(c, s, m, score, junk), m, votes)
  {
    var sends := OnAcceptRequest(m.dst, s.nodes[m.dst], m.src, m.n, m.v).out;
    votes := |sends| > 0;
    NetworkMoves(s, AfterDeliver(c, s, m, score, junk), {m}, multiset{m}, sends,
                 if votes then {Accepted(m.dst, m.src, m.v)} else {});
  }

  lemma AcceptsBasics(c: Cluster, s: State, s': State, m: Msg, votes: bool)
    requires Inv(c, s) && m.AcceptRequest? && m in s.net && c.Has(m.dst) && Shape(c, s') && Accepts(c, s, s', m, votes)
    ensures Ballots(c, s') && Grows(c, s, s')
    ensures Prepares(c, s') && AcceptRequests(c, s') && Learns(c, s') && NoSentinel(c, s')
  {
    assert AcceptorOk(c, s, m.dst);
    assert NodeGrows(s, s', m.dst);
    GrowsHolds(c, s, s', m.dst, {m}, if votes then {Accepted(m.dst, m.src, m.v)} else {});
  }

  lemma AcceptsVotes(c: Cluster, s: State, s': State, m: Msg, votes: bool)
    requires Inv(c, s) && m.AcceptRequest? && m in s.net && c.Has(m.dst) && Shape(c, s') && Accepts(c, s, s', m, votes)
    requires Grows(c, s, s')
    ensures Votes(c, s')
  {
    assert m in s.sent;
    forall a, p, v | Accepted(a, p, v) in s'.sent
      ensures VoteOk(c, s', a, p, v)
    {
      if Accepted(a, p, v) in s.sent {
        assert VoteOk(c, s, a, p, v);
        assert NodeGrows(s, s', a) && NodeGrows(s, s', p);
      }
    }
    forall p, a | c.Has(p) && a in s'.voters[p]
      ensures Voted(s', a, p)
    {
      assert Voted(s, a, p);
    }
  }

  lemma AcceptsInv(c: Cluster, s: State, s': State, m: Msg, votes: bool)
    requires Inv(c, s) && m.AcceptRequest? && m in s.net && c.Has(m.dst) && Shape(c, s') && Accepts(c, s, s', m, votes)
    ensures Inv(c, s')
  {
    AcceptsBasics(c, s, s', m, votes);
    RepliesStay(c, s, s');
    QuietReplies(c, s, s', {m}, if votes then {Accepted(m.dst, m.src, m.v)} else {});
    AcceptsVotes(c, s, s', m, votes);
    RecordsStay(c, s, s', m.dst);
  }

  // PREPARE_ACCEPT_NO_PREVIOUS or PREPARE_ACCEPT arrives: first the answer is counted ...

  /** The proposer's record after counting the answer `m`, before any majority check. */
  ghost function CountedNode(x: Node, m: Msg): Node
    requires m.Reply() && 0 <= m.src < |x.states|
  {
    var y := x.(states := x.states[m.src := m.score], coresPromised := x.coresPromised + 1);
    if m.RepN() > x.repliedN then y.(repliedN := m.RepN(), repliedV := m.RepV()) else y
  }

  ghost predicate Counted(c: Cluster, s: State, s': State, m: Msg)
    requires Shape(c, s) && Shape(c, s') && m.Reply() && c.Has(m.dst)
  {
    var x, y := s.nodes[m.dst], s'.nodes[m.dst];
    && s'.owners == s.owners && s'.voters == s.voters && s'.proposed == s.proposed && s'.sent == s.sent
    && s'.inbox == s.inbox[m.dst := s.inbox[m.dst][m.src := m]]
    && OthersSame(c, s, s', m.dst)
    && y == x.(states := y.states, coresPromised := x.coresPromised + 1, repliedN := y.repliedN, repliedV := y.repliedV)
    && (if m.RepN() > x.repliedN then y.repliedN == m.RepN() && y.repliedV == m.RepV()
        else y.repliedN == x.repliedN && y.repliedV == x.repliedV)
    && Network(s') && Moved(s, s', {m}, {})
  }

  lemma CountedBasics(c: Cluster, s: State, s': State, m: Msg)
    requires Inv(c, s) && m.Reply() && m in s.net && c.Has(m.dst) && Shape(c, s') && Counted(c, s, s', m)
    ensures Ballots(c, s') && Grows(c, s, s')
    ensures Prepares(c, s') && AcceptRequests(c, s') && Learns(c, s') && NoSentinel(c, s')
    ensures m in s.sent && ReplyOk(c, s, m) && m.src !in s.inbox[m.dst]
  {
    assert m in s.sent;
    assert ReplyOk(c, s, m) && Filed(s, m);
    assert NodeGrows(s, s', m.dst);
  }

  lemma CountedReplies(c: Cluster, s: State, s': State, m: Msg)
    requires Inv(c, s) && m.Reply() && m in s.net && c.Has(m.dst) && Shape(c, s') && Counted(c, s, s', m)
    requires Ballots(c, s') && m in s.sent
    requires forall x | x in s.sent && x.Reply() :: ReplyOk(c, s', x)
    ensures Replies(c, s')
  {
    forall x | x in s'.sent && x.Reply()
      ensures ReplyOk(c, s', x) && Filed(s', x)
    {
      assert ReplyOk(c, s, x) && Filed(s, x);
      assert x.src == m.src && x.dst == m.dst ==> x == m;
    }
    forall p, a | c.Has(p) && a in s'.inbox[p]
      ensures FromInbox(s', p, a)
    {
      assert (p == m.dst && a == m.src) || FromInbox(s, p, a);
    }
  }

  lemma CountedProposer(c: Cluster, s: State, s': State, m: Msg)
    requires Inv(c, s) && m.Reply() && m in s.net && c.Has(m.dst) && Shape(c, s') && Counted(c, s, s', m)
    requires Ballots(c, s') && ReplyOk(c, s, m) && m.src !in s.inbox[m.dst]
    ensures ProposerOk(c, s', m.dst)
  {
    var p := m.dst;
    assert ProposerOk(c, s, p);
    assert |s'.inbox[p]| == |s.inbox[p]| + 1;
    forall a | a in s'.inbox[p] && s'.inbox[p][a].Reply()
      ensures s'.inbox[p][a].RepN() <= s'.nodes[p].repliedN
    {
      assert a == m.src || s'.inbox[p][a] == s.inbox[p][a];
    }
  }

  lemma CountedInv(c: Cluster, s: State, s': State, m: Msg)
    requires Inv(c, s) && m.Reply() && m in s.net && c.Has(m.dst) && Shape(c, s') && Counted(c, s, s', m)
    ensures Inv(c, s')
  {
    CountedBasics(c, s, s', m);
    RepliesStay(c, s, s');
    CountedReplies(c, s, s', m);
    QuietVotes(c, s, s', {m}, {});
    AcceptorsStay(c, s, s', m.dst);
    CountedProposer(c, s, s', m);
    SafeStays(c, s, s', m.dst);
  }

  // ... then, at the majority, the value goes out

  ghost predicate Asked(c: Cluster, s: State, s': State, me: int, v: int, out: set<Msg>)
    requires Shape(c, s) && Shape(c, s') && c.Has(me)
  {
    var x, y := s.nodes[me], s'.nodes[me];
    && s'.owners == s.owners && s'.voters == s.voters && s'.inbox == s.inbox && s'.proposed == s.proposed[me := v]
    && OthersSame(c, s, s', me)
    && y == x.(acceptSent := true, repliedV := v)
    && !x.acceptSent && x.started && x.coresPromised >= Majority(CLUSTER_SIZE)
    && (x.repliedV != -1 ==> v == x.repliedV)
    && Network(s') && Moved(s, s', {}, out)
    && (forall m | m in out :: m == AcceptRequest(me, m.dst, x.ballot, v) && c.Has(m.dst))
  }

  lemma AskedBasics(c: Cluster, s: State, s': State, me: int, v: int, out: set<Msg>)
    requires Inv(c, s) && c.Has(me) && Shape(c, s') && Asked(c, s, s', me, v, out)
    ensures Ballots(c, s') && Grows(c, s, s')
    ensures Prepares(c, s') && AcceptRequests(c, s') && Learns(c, s')
    ensures forall m | m in out :: m.AcceptRequest?
  {
    assert ProposerOk(c, s, me);
    assert NodeGrows(s, s', me);
    GrowsHolds(c, s, s', me, {}, out);
  }

  /** Above the highest reported ballot, everybody who answered blocks. */
  lemma AnswerersBlock(c: Cluster, s: State, p: int, b: int)
    requires Inv(c, s) && c.Has(p) && s.nodes[p].started && s.nodes[p].coresPromised >= Majority(CLUSTER_SIZE)
    requires s.nodes[p].repliedN < b < s.nodes[p].ballot
    ensures Blocked(c, s, b)
  {
    assert ProposerOk(c, s, p);
    forall a | a in s.inbox[p].Keys
      ensures a in Blockers(c, s, b)
    {
      assert FromInbox(s, p, a);
      var m := s.inbox[p][a];
      assert ReplyOk(c, s, m);
      assert m.RepN() <= s.nodes[p].repliedN;
    }
    SubsetSize(s.inbox[p].Keys, Blockers(c, s, b));
  }

  lemma AskedSafe(c: Cluster, s: State, s': State, me: int, v: int, out: set<Msg>, b: int)
    requires Inv(c, s) && c.Has(me) && Shape(c, s') && Asked(c, s, s', me, v, out) && v != -1
    requires Ballots(c, s') && Grows(c, s, s') && 0 <= b < s.nodes[me].ballot
    ensures SafeAgainst(c, s', me, b)
  {
    var k := s.nodes[me].repliedN;
    assert ProposerOk(c, s, me);
    BlockersKept(c, s, s', b);
    if b > k {
      AnswerersBlock(c, s, me, b);
    } else {
      AdoptedSafe(c, s, me, b);
    }
  }

  /** At or below the highest reported ballot, the reported value is the safe one. */
  lemma AdoptedSafe(c: Cluster, s: State, p: int, b: int)
    requires Inv(c, s) && c.Has(p) && s.nodes[p].started && !s.nodes[p].acceptSent
    requires 0 <= b <= s.nodes[p].repliedN && b < s.nodes[p].ballot
    ensures s.nodes[p].repliedV != -1 && s.owners[b] != p
    ensures s.proposed[s.owners[b]] == s.nodes[p].repliedV || Blocked(c, s, b)
  {
    var k := s.nodes[p].repliedN;
    assert ProposerOk(c, s, p);
    if b < k {
      InheritsSafety(c, s, s.owners[k], b);
    }
  }

  lemma InheritsSafety(c: Cluster, s: State, q: int, b: int)
    requires Inv(c, s) && c.Has(q) && s.proposed[q] != -1 && s.nodes[q].started && 0 <= b < s.nodes[q].ballot
    ensures SafeAgainst(c, s, q, b)
  {
    assert s.nodes[q].acceptSent;
  }

  lemma AskedInv(c: Cluster, s: State, s': State, me: int, v: int, out: set<Msg>)
    requires Inv(c, s) && c.Has(me) && Shape(c, s') && Asked(c, s, s', me, v, out) && NoSentinel(c, s')
    ensures Inv(c, s')
  {
    AskedBasics(c, s, s', me, v, out);
    RepliesStay(c, s, s');
    QuietReplies(c, s, s', {}, out);
    QuietVotes(c, s, s', {}, out);
    AcceptorsStay(c, s, s', me);
    forall b | 0 <= b < s'.nodes[me].ballot
      ensures SafeAgainst(c, s', me, b)
    {
      AskedSafe(c, s, s', me, v, out, b);
    }
    SafeStays(c, s, s', me);
  }

  // ACCEPTED arrives: the vote is counted, and at the majority the winner is announced

  ghost predicate Tallied(c: Cluster, s: State, s': State, m: Msg)
    requires Shape(c, s) && Shape(c, s') && m.Accepted? && c.Has(m.dst)
  {
    var x, y := s.nodes[m.dst], s'.nodes[m.dst];
    && s'.owners == s.owners && s'.inbox == s.inbox && s'.proposed == s.proposed && s'.sent == s.sent
    && s'.voters == s.voters[m.dst := s.voters[m.dst] + {m.src}]
    && OthersSame(c, s, s', m.dst)
    && y == x.(coresAccepted := x.coresAccepted + 1)
    && Network(s') && Moved(s, s', {m}, {})
  }

  lemma TalliedBasics(c: Cluster, s: State, s': State, m: Msg)
    requires Inv(c, s) && m.Accepted? && m in s.net && c.Has(m.dst) && Shape(c, s') && Tallied(c, s, s', m)
    ensures Ballots(c, s') && Grows(c, s, s')
    ensures Prepares(c, s') && AcceptRequests(c, s') && Learns(c, s') && NoSentinel(c, s')
    ensures m in s.sent && VoteOk(c, s, m.src, m.dst, m.v) && m.src !in s.voters[m.dst]
  {
    assert m == Accepted(m.src, m.dst, m.v) && m in s.sent;
    assert VoteOk(c, s, m.src, m.dst, m.v);
    assert NodeGrows(s, s', m.dst);
  }

  lemma TalliedVotes(c: Cluster, s: State, s': State, m: Msg)
    requires Inv(c, s) && m.Accepted? && m in s.net && c.Has(m.dst) && Shape(c, s') && Tallied(c, s, s', m)
    requires Grows(c, s, s') && m in s.sent && VoteOk(c, s, m.src, m.dst, m.v)
    ensures Votes(c, s')
  {
    forall a, p, v | Accepted(a, p, v) in s'.sent
      ensures VoteOk(c, s', a, p, v)
    {
      assert VoteOk(c, s, a, p, v);
      assert NodeGrows(s, s', a) && NodeGrows(s, s', p);
    }
    forall p, a | c.Has(p) && a in s'.voters[p]
      ensures Voted(s', a, p)
    {
      assert (p == m.dst && a == m.src) || Voted(s, a, p);
    }
  }

  lemma TalliedInv(c: Cluster, s: State, s': State, m: Msg)
    requires Inv(c, s) && m.Accepted? && m in s.net && c.Has(m.dst) && Shape(c, s') && Tallied(c, s, s', m)
    ensures Inv(c, s')
  {
    TalliedBasics(c, s, s', m);
    RepliesStay(c, s, s');
    QuietReplies(c, s, s', {m}, {});
    TalliedVotes(c, s, s', m);
    AcceptorsStay(c, s, s', m.dst);
    SafeStays(c, s, s', m.dst);
  }

  ghost predicate Announced(c: Cluster, s: State, s': State, me: int, v: int, out: set<Msg>)
    requires Shape(c, s) && Shape(c, s') && c.Has(me)
  {
    var x, y := s.nodes[me], s'.nodes[me];
    && s'.owners == s.owners && s'.voters == s.voters && s'.inbox == s.inbox && s'.proposed == s.proposed
    && OthersSame(c, s, s', me)
    && y == x.(learnSent := true)
    && x.acceptSent && x.coresAccepted >= Majority(CLUSTER_SIZE) && v == s.proposed[me]
    && Network(s') && Moved(s, s', {}, out)
    && (forall m | m in out :: m == Learn(me, m.dst, v, c.idag))
  }

  lemma AnnouncedBasics(c: Cluster, s: State, s': State, me: int, v: int, out: set<Msg>)
    requires Inv(c, s) && c.Has(me) && Shape(c, s') && Announced(c, s, s', me, v, out)
    ensures Ballots(c, s') && Grows(c, s, s') && ProposerOk(c, s', me)
    ensures Prepares(c, s') && AcceptRequests(c, s') && Learns(c, s') && NoSentinel(c, s')
    ensures forall m | m in out :: m.Learn?
  {
    assert ProposerOk(c, s, me);
    assert NodeGrows(s, s', me);
    GrowsHolds(c, s, s', me, {}, out);
  }

  lemma AnnouncedInv(c: Cluster, s: State, s': State, me: int, v: int, out: set<Msg>)
    requires Inv(c, s) && c.Has(me) && Shape(c, s') && Announced(c, s, s', me, v, out)
    ensures Inv(c, s')
  {
    AnnouncedBasics(c, s, s', me, v, out);
    RepliesStay(c, s, s');
    QuietReplies(c, s, s', {}, out);
    QuietVotes(c, s, s', {}, out);
    AcceptorsStay(c, s, s', me);
    SafeStays(c, s, s', me);
  }

  // LEARN arrives

  ghost predicate Stopped(c: Cluster, s: State, s': State, m: Msg)
    requires Shape(c, s) && Shape(c, s') && m.Learn? && c.Has(m.dst)
  {
    && s'.owners == s.owners && s'.voters == s.voters && s'.inbox == s.inbox && s'.proposed == s.proposed
    && OthersSame(c, s, s', m.dst)
    && s'.nodes[m.dst] == s.nodes[m.dst].(halted := true)
    && Network(s') && Moved(s, s', {m}, {})
  }

  lemma StoppedBasics(c: Cluster, s: State, s': State, m: Msg)
    requires Inv(c, s) && m.Learn? && c.Has(m.dst) && Shape(c, s') && Stopped(c, s, s', m)
    ensures Ballots(c, s') && Grows(c, s, s') && NoSentinel(c, s')
    ensures Prepares(c, s') && AcceptRequests(c, s') && Learns(c, s')
  {
    assert NodeGrows(s, s', m.dst);
  }

  lemma StoppedInv(c: Cluster, s: State, s': State, m: Msg)
    requires Inv(c, s) && m.Learn? && c.Has(m.dst) && Shape(c, s') && Stopped(c, s, s', m)
    ensures Inv(c, s')
  {
    StoppedBasics(c, s, s', m);
    RepliesStay(c, s, s');
    QuietReplies(c, s, s', {m}, {});
    QuietVotes(c, s, s', {m}, {});
    RecordsStay(c, s, s', m.dst);
  }
}
