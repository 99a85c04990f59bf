/** Counting answers and votes, over every run and whatever values they carry: each counter is the number of cores whose
    message has arrived. */
module PaxosCounts {
  import opened Paxos
  import opened PaxosInvariant
  import opened PaxosRuns
  import opened PaxosSteps

  // ---------------------------------------------------------------- what every run keeps

  /** An answer is to its receiver's one ballot, whose request is not on its way any more. */
  ghost predicate Answered(c: Cluster, s: State, m: Msg)
    requires Shape(c, s)
  {
    && c.Has(m.src) && c.Has(m.dst) && s.nodes[m.dst].started
    && var request := Prepare(m.dst, m.src, s.nodes[m.dst].ballot);
       request in s.sent && request !in s.net
  }

  ghost predicate Answers(c: Cluster, s: State)
    requires Shape(c, s)
  {
    && (forall m | m in s.sent && m.Reply() :: Answered(c, s, m) && Filed(s, m))
    && OneReplyEach(s)
    && (forall p, a | c.Has(p) && a in s.inbox[p] :: FromInbox(s, p, a))
  }

  /** A vote is for the one value its receiver has asked for; that request is not on its way any more. */
  ghost predicate Polled(c: Cluster, s: State, a: int, p: int, v: int)
    requires Shape(c, s)
  {
    && c.Has(a) && c.Has(p) && v == s.proposed[p] && s.nodes[p].acceptSent
    && AcceptRequest(p, a, s.nodes[p].ballot, v) in s.sent
    && AcceptRequest(p, a, s.nodes[p].ballot, v) !in s.net
    && (Accepted(a, p, v) in s.net <==> a !in s.voters[p])
  }

  ghost predicate Polls(c: Cluster, s: State)
    requires Shape(c, s)
  {
    && (forall a, p, v :: Accepted(a, p, v) in s.sent ==> Polled(c, s, a, p, v))
    && (forall p, a | c.Has(p) && a in s.voters[p] :: Voted(s, a, p))
  }

  ghost predicate CountOk(c: Cluster, s: State, p: int)
    requires Shape(c, s) && c.Has(p)
  {
    var nd := s.nodes[p];
    && nd.coresPromised == |s.inbox[p]| && nd.coresAccepted == |s.voters[p]|
    && -1 <= nd.repliedN && (nd.learnSent ==> nd.acceptSent)
  }

  ghost predicate Counts(c: Cluster, s: State)
    requires Shape(c, s)
  {
    forall p | c.Has(p) :: CountOk(c, s, p)
  }

  ghost predicate Sound(c: Cluster, s: State) {
    && Shape(c, s) && Ballots(c, s) && Network(s) && Prepares(c, s) && AcceptRequests(c, s) && Learns(c, s)
    && Answers(c, s) && Polls(c, s) && Counts(c, s)
  }

  // ---------------------------------------------------------------- what a step leaves alone

  /** Nothing is forgotten. */
  ghost predicate Onward(c: Cluster, s: State, t: State, me: int, gone: set<Msg>, out: set<Msg>)
    requires Shape(c, s) && Shape(c, t) && c.Has(me)
  {
    var x, y := s.nodes[me], t.nodes[me];
    && OthersSame(c, s, t, me) && s.owners <= t.owners && Network(t) && Moved(s, t, gone, out)
    && (x.started ==> y.started && x.ballot == y.ballot)
    && (x.acceptSent ==> y.acceptSent && s.proposed[me] == t.proposed[me])
    && (x.learnSent ==> y.learnSent)
  }

  lemma AnswersStay(c: Cluster, s: State, t: State, me: int, gone: set<Msg>, out: set<Msg>)
    requires Shape(c, s) && Shape(c, t) && c.Has(me) && Onward(c, s, t, me, gone, out) && Answers(c, s)
    requires t.inbox == s.inbox && forall m | m in gone || m in out :: !m.Reply()
    ensures Answers(c, t)
  {
    forall m | m in t.sent && m.Reply()
      ensures Answered(c, t, m) && Filed(t, m)
    {
      assert m in s.sent;
      assert Answered(c, s, m) && Filed(s, m);
    }
    forall p, a | c.Has(p) && a in t.inbox[p]
      ensures FromInbox(t, p, a)
    {
      assert FromInbox(s, p, a);
    }
  }

  lemma PollsStay(c: Cluster, s: State, t: State, me: int, gone: set<Msg>, out: set<Msg>)
    requires Shape(c, s) && Shape(c, t) && c.Has(me) && Onward(c, s, t, me, gone, out) && Polls(c, s)
    requires AcceptRequests(c, s)
    requires t.voters == s.voters && forall m | m in gone || m in out :: !m.Accepted?
    ensures Polls(c, t)
  {
    forall a, p, v | Accepted(a, p, v) in t.sent
      ensures Polled(c, t, a, p, v)
    {
      assert Accepted(a, p, v) in s.sent;
      PolledStays(c, s, t, me, gone, out, a, p, v);
    }
    forall p, a | c.Has(p) && a in t.voters[p]
      ensures Voted(t, a, p)
    {
      assert Voted(s, a, p);
      assert Polled(c, s, a, p, s.proposed[p]);
    }
  }

  lemma PolledStays(c: Cluster, s: State, t: State, me: int, gone: set<Msg>, out: set<Msg>, a: int, p: int, v: int)
    requires Shape(c, s) && Shape(c, t) && c.Has(me) && Onward(c, s, t, me, gone, out) && Polls(c, s)
    requires AcceptRequests(c, s) && Accepted(a, p, v) in s.sent
    requires Accepted(a, p, v) !in gone && (a in t.voters[p] <==> a in s.voters[p])
    ensures Polled(c, t, a, p, v)
  {
    assert Polled(c, s, a, p, v);
  }

  /** The counters of everybody but `me`. */
  lemma CountsStay(c: Cluster, s: State, t: State, me: int, gone: set<Msg>, out: set<Msg>)
    requires Shape(c, s) && Shape(c, t) && c.Has(me) && Onward(c, s, t, me, gone, out) && Counts(c, s)
    requires CountOk(c, t, me)
    ensures Counts(c, t)
  {
    forall p | c.Has(p)
      ensures CountOk(c, t, p)
    {
      assert CountOk(c, s, p);
    }
  }

  // ---------------------------------------------------------------- a new proposal

  lemma SuspectSound(c: Cluster, s: State, p: int)
    requires Sound(c, s) && c.Has(p) && !s.nodes[p].started
    ensures Sound(c, AfterSuspect(c, s, p))
  {
    var t := AfterSuspect(c, s, p);
    var out := SuspectIs(c, s, p);
    assert CountOk(c, s, p);
    AnswersStay(c, s, t, p, {}, out);
    PollsStay(c, s, t, p, {}, out);
    CountsStay(c, s, t, p, {}, out);
  }

  // ---------------------------------------------------------------- requests arrive

  /** What a request does: the receiver's record, and the messages that leave and enter the network. */
  lemma RequestDelivered(c: Cluster, s: State, m: Msg, score: nat, junk: Junk, e: Effect)
    requires Shape(c, s) && !m.Reply() && !m.Accepted? && Enabled(c, s, Deliver(m, score, junk))
    requires e == Handle(c, s.nodes[m.dst], m, score, junk)
    ensures AfterDeliver(c, s, m, score, junk) ==
              s.(nodes := s.nodes[m.dst := e.node], net := s.net - multiset{m} + multiset(e.out),
                 sent := s.sent + (set x | x in e.out))
    ensures e.node.started == s.nodes[m.dst].started && e.node.states == s.nodes[m.dst].states
  {
  }

  /** The acceptor's own records, and perhaps one message, change. */
  ghost predicate Replied(c: Cluster, s: State, t: State, m: Msg, out: set<Msg>)
    requires Shape(c, s) && Shape(c, t) && c.Has(m.dst)
  {
    var x, y := s.nodes[m.dst], t.nodes[m.dst];
    && t.owners == s.owners && t.inbox == s.inbox && t.voters == s.voters && t.proposed == s.proposed
    && OthersSame(c, s, t, m.dst) && Network(t) && Moved(s, t, {m}, out)
    && y == x.(promised := y.promised, accN := y.accN, accV := y.accV, halted := y.halted)
  }

  lemma RepliedRest(c: Cluster, s: State, t: State, m: Msg, out: set<Msg>)
    requires Sound(c, s) && Shape(c, t) && c.Has(m.dst) && Replied(c, s, t, m, out)
    requires forall x | x in out :: x.Reply() || x.Accepted?
    ensures Onward(c, s, t, m.dst, {m}, out)
    ensures Ballots(c, t) && Prepares(c, t) && AcceptRequests(c, t) && Learns(c, t) && Counts(c, t)
  {
    assert CountOk(c, s, m.dst);
    CountsStay(c, s, t, m.dst, {m}, out);
  }

  lemma AnswerOut(me: int, x: Node, src: int, n: int, score: int, junk: Junk) returns (out: set<Msg>)
    ensures var e := OnPrepare(me, x, src, n, score, junk);
            && (forall r :: r in out <==> r in e.out) && (forall r :: multiset(e.out)[r] <= 1)
            && e.node == x.(promised := e.node.promised)
    ensures |out| <= 1 && forall r | r in out :: r.Reply() && r.src == me && r.dst == src
  {
    var e := OnPrepare(me, x, src, n, score, junk);
    out := if e.out == [] then {} else {e.out[0]};
    assert e.out == [] || e.out == [e.out[0]];
  }

  lemma NewAnswer(c: Cluster, s: State, m: Msg, r: Msg)
    requires Sound(c, s) && m.Prepare? && m in s.net && r.Reply() && r.src == m.dst && r.dst == m.src
    ensures forall x | x in s.sent && x.Reply() :: r.src != x.src || r.dst != x.dst
    ensures c.Has(r.dst) ==> r.src !in s.inbox[r.dst]
  {
    assert m == Prepare(m.src, m.dst, m.n) && m in s.sent;
    forall x | x in s.sent && x.Reply()
      ensures r.src != x.src || r.dst != x.dst
    {
      assert Answered(c, s, x);
    }
    assert c.Has(r.dst) && r.src in s.inbox[r.dst] ==> FromInbox(s, r.dst, r.src);
  }

  lemma PrepareMoves(c: Cluster, s: State, m: Msg, score: nat, junk: Junk) returns (out: set<Msg>)
    requires Sound(c, s) && m.Prepare? && Enabled(c, s, Deliver(m, score, junk))
    ensures var t := AfterDeliver(c, s, m, score, junk); Shape(c, t) && Replied(c, s, t, m, out)
    ensures |out| <= 1 && forall r | r in out :: r.Reply() && r.src == m.dst && r.dst == m.src
  {
    var x, t := s.nodes[m.dst], AfterDeliver(c, s, m, score, junk);
    out := AnswerOut(m.dst, x, m.src, m.n, score, junk);
    forall r | r in out
      ensures r !in s.sent
    {
      NewAnswer(c, s, m, r);
    }
    RequestDelivered(c, s, m, score, junk, OnPrepare(m.dst, x, m.src, m.n, score, junk));
    NetworkMoves(s, t, {m}, multiset{m}, OnPrepare(m.dst, x, m.src, m.n, score, junk).out, out);
  }

  lemma PrepareAnswers(c: Cluster, s: State, t: State, m: Msg, r: Msg)
    requires Sound(c, s) && m.Prepare? && m in s.net && c.Has(m.dst) && Shape(c, t) && Replied(c, s, t, m, {r})
    requires r.Reply() && r.src == m.dst && r.dst == m.src
    ensures Answers(c, t)
  {
    NewAnswer(c, s, m, r);
    assert m == Prepare(m.src, m.dst, m.n) && m in s.sent;
    StillOneReplyEach(s, t, {m}, r);
    forall x | x in t.sent && x.Reply()
      ensures Answered(c, t, x) && Filed(t, x)
    {
      if x in s.sent {
        assert Answered(c, s, x) && Filed(s, x);
      }
    }
    forall p, a | c.Has(p) && a in t.inbox[p]
      ensures FromInbox(t, p, a)
    {
      assert FromInbox(s, p, a);
    }
  }

  lemma PrepareSound(c: Cluster, s: State, m: Msg, score: nat, junk: Junk)
    requires Sound(c, s) && m.Prepare? && Enabled(c, s, Deliver(m, score, junk))
    ensures Sound(c, AfterDeliver(c, s, m, score, junk))
  {
    var t := AfterDeliver(c, s, m, score, junk);
    var out := PrepareMoves(c, s, m, score, junk);
    RepliedRest(c, s, t, m, out);
    PollsStay(c, s, t, m.dst, {m}, out);
    if r :| r in out {
      assert out == {r} by {
        assert |out - {r}| == 0;
      }
      PrepareAnswers(c, s, t, m, r);
    } else {
      AnswersStay(c, s, t, m.dst, {m}, out);
    }
  }

  lemma NewVote(c: Cluster, s: State, m: Msg)
    requires Sound(c, s) && m.AcceptRequest? && m in s.net && c.Has(m.src)
    ensures Accepted(m.dst, m.src, m.v) !in s.sent && m.dst !in s.voters[m.src]
    ensures s.nodes[m.src].acceptSent && m == AcceptRequest(m.src, m.dst, s.nodes[m.src].ballot, s.proposed[m.src])
  {
    assert m == AcceptRequest(m.src, m.dst, m.n, m.v) && m in s.sent;
    assert Accepted(m.dst, m.src, m.v) in s.sent ==> Polled(c, s, m.dst, m.src, m.v);
    assert m.dst in s.voters[m.src] ==> Voted(s, m.dst, m.src);
  }

  lemma AcceptMoves(c: Cluster, s: State, m: Msg, score: nat, junk: Junk) returns (out: set<Msg>)
    requires Sound(c, s) && m.AcceptRequest? && Enabled(c, s, Deliver(m, score, junk))
    ensures var t := AfterDeliver(c, s, m, score, junk); Shape(c, t) && Replied(c, s, t, m, out)
    ensures out == {} || out == {Accepted(m.dst, m.src, m.v)}
  {
    var t, sends := AfterDeliver(c, s, m, score, junk), OnAcceptRequest(m.dst, s.nodes[m.dst], m.src, m.n, m.v).out;
    out := if sends == [] then {} else {Accepted(m.dst, m.src, m.v)};
    NewVote(c, s, m);
    RequestDelivered(c, s, m, score, junk, OnAcceptRequest(m.dst, s.nodes[m.dst], m.src, m.n, m.v));
    VoteMoves(s, t, m, sends, out);
  }

  lemma VoteMoves(s: State, t: State, m: Msg, sends: seq<Msg>, out: set<Msg>)
    requires Network(s) && m.AcceptRequest? && m in s.net && Accepted(m.dst, m.src, m.v) !in s.sent
    requires if sends == [] then out == {} else sends == [Accepted(m.dst, m.src, m.v)] && out == {Accepted(m.dst, m.src, m.v)}
    requires t.net == s.net - multiset{m} + multiset(sends) && t.sent == s.sent + (set x | x in sends)
    ensures Network(t) && Moved(s, t, {m}, out)
  {
    NetworkMoves(s, t, {m}, multiset{m}, sends, out);
  }

  lemma AcceptPolls(c: Cluster, s: State, t: State, m: Msg)
    requires Sound(c, s) && m.AcceptRequest? && m in s.net && c.Has(m.dst) && c.Has(m.src) && Shape(c, t)
    requires Replied(c, s, t, m, {Accepted(m.dst, m.src, m.v)})
    requires Onward(c, s, t, m.dst, {m}, {Accepted(m.dst, m.src, m.v)})
    ensures Polls(c, t)
  {
    var vote := Accepted(m.dst, m.src, m.v);
    NewVote(c, s, m);
    forall a, p, v | Accepted(a, p, v) in t.sent
      ensures Polled(c, t, a, p, v)
    {
      if Accepted(a, p, v) in s.sent {
        PolledStays(c, s, t, m.dst, {m}, {vote}, a, p, v);
      } else {
        assert Accepted(a, p, v) == vote && m in s.sent;
      }
    }
    forall p, a | c.Has(p) && a in t.voters[p]
      ensures Voted(t, a, p)
    {
      assert Voted(s, a, p);
    }
  }

  lemma AcceptSound(c: Cluster, s: State, m: Msg, score: nat, junk: Junk)
    requires Sound(c, s) && m.AcceptRequest? && Enabled(c, s, Deliver(m, score, junk))
    ensures Sound(c, AfterDeliver(c, s, m, score, junk))
  {
    var t := AfterDeliver(c, s, m, score, junk);
    var out := AcceptMoves(c, s, m, score, junk);
    RepliedRest(c, s, t, m, out);
    AnswersStay(c, s, t, m.dst, {m}, out);
    if out == {} {
      PollsStay(c, s, t, m.dst, {m}, out);
    } else {
      AcceptPolls(c, s, t, m);
    }
  }

  lemma LearnSound(c: Cluster, s: State, m: Msg, score: nat, junk: Junk)
    requires Sound(c, s) && m.Learn? && Enabled(c, s, Deliver(m, score, junk))
    ensures Sound(c, AfterDeliver(c, s, m, score, junk))
  {
    var t := AfterDeliver(c, s, m, score, junk);
    RequestDelivered(c, s, m, score, junk, OnLearn(s.nodes[m.dst]));
    NetworkMoves(s, t, {m}, multiset{m}, [], {});
    RepliedRest(c, s, t, m, {});
    AnswersStay(c, s, t, m.dst, {m}, {});
    PollsStay(c, s, t, m.dst, {m}, {});
  }

  // ---------------------------------------------------------------- an answer arrives

  lemma CountedSound(c: Cluster, s: State, t: State, m: Msg)
    requires Sound(c, s) && m.Reply() && m in s.net && c.Has(m.dst) && Shape(c, t) && Counted(c, s, t, m)
    ensures Sound(c, t)
  {
    assert m in s.sent;
    assert Answered(c, s, m) && Filed(s, m) && CountOk(c, s, m.dst);
    CountedAnswers(c, s, t, m);
    PollsStay(c, s, t, m.dst, {m}, {});
    assert |t.inbox[m.dst]| == |s.inbox[m.dst]| + 1;
    CountsStay(c, s, t, m.dst, {m}, {});
  }

  lemma CountedAnswers(c: Cluster, s: State, t: State, m: Msg)
    requires Shape(c, s) && Answers(c, s) && m.Reply() && m in s.net && m in s.sent && c.Has(m.dst)
    requires Shape(c, t) && Counted(c, s, t, m)
    ensures Answers(c, t)
  {
    forall x | x in t.sent && x.Reply()
      ensures Answered(c, t, x) && Filed(t, x)
    {
      assert Answered(c, s, x) && Filed(s, x);
      assert x.src == m.src && x.dst == m.dst ==> x == m;
    }
    forall p, a | c.Has(p) && a in t.inbox[p]
      ensures FromInbox(t, p, a)
    {
      assert (p == m.dst && a == m.src) || FromInbox(s, p, a);
    }
  }

  lemma AskedSound(c: Cluster, s: State, t: State, me: int, v: int, out: set<Msg>)
    requires Sound(c, s) && c.Has(me) && Shape(c, t) && Asked(c, s, t, me, v, out)
    ensures Sound(c, t)
  {
    assert CountOk(c, s, me);
    AnswersStay(c, s, t, me, {}, out);
    PollsStay(c, s, t, me, {}, out);
    CountsStay(c, s, t, me, {}, out);
  }

  lemma ReplySound(c: Cluster, s: State, m: Msg, score: nat, junk: Junk)
    requires Sound(c, s) && m.Reply() && Enabled(c, s, Deliver(m, score, junk))
    ensures Sound(c, AfterDeliver(c, s, m, score, junk))
  {
    var s1, t := CountedState(c, s, m), AfterDeliver(c, s, m, score, junk);
    assert CountOk(c, s, m.dst);
    CountedIs(c, s, m);
    CountedSound(c, s, s1, m);
    ReplySplits(c, s, m, score, junk);
    if t != s1 {
      var out := AsksIs(c, s1, t, m.dst, t.proposed[m.dst]);
      AskedSound(c, s1, t, m.dst, t.proposed[m.dst], out);
    }
  }

  // ---------------------------------------------------------------- a vote arrives

  lemma TalliedIs(c: Cluster, s: State, m: Msg)
    requires Shape(c, s) && Network(s) && m.Accepted? && c.Has(m.dst) && m in s.net
    ensures Shape(c, TalliedState(c, s, m)) && Tallied(c, s, TalliedState(c, s, m), m)
  {
    var t := TalliedState(c, s, m);
    assert t.sent == s.sent + (set x | x in []);
    assert t.net == s.net - multiset{m} + multiset([]);
    NetworkMoves(s, t, {m}, multiset{m}, [], {});
  }

  lemma TalliedPolls(c: Cluster, s: State, t: State, m: Msg)
    requires Sound(c, s) && m.Accepted? && m in s.net && c.Has(m.dst) && Shape(c, t) && Tallied(c, s, t, m)
    ensures Polls(c, t)
  {
    assert m == Accepted(m.src, m.dst, m.v) && m in s.sent;
    assert Polled(c, s, m.src, m.dst, m.v);
    forall a, p, v | Accepted(a, p, v) in t.sent
      ensures Polled(c, t, a, p, v)
    {
      assert Polled(c, s, a, p, v);
    }
    forall p, a | c.Has(p) && a in t.voters[p]
      ensures Voted(t, a, p)
    {
      assert (p == m.dst && a == m.src) || Voted(s, a, p);
    }
  }

  lemma TalliedSound(c: Cluster, s: State, t: State, m: Msg)
    requires Sound(c, s) && m.Accepted? && m in s.net && c.Has(m.dst) && Shape(c, t) && Tallied(c, s, t, m)
    ensures Sound(c, t) && t.nodes[m.dst].acceptSent && m.v == t.proposed[m.dst]
  {
    assert m == Accepted(m.src, m.dst, m.v) && m in s.sent;
    assert Polled(c, s, m.src, m.dst, m.v) && CountOk(c, s, m.dst);
    AnswersStay(c, s, t, m.dst, {m}, {});
    TalliedPolls(c, s, t, m);
    CountsStay(c, s, t, m.dst, {m}, {});
  }

  lemma AnnouncedSound(c: Cluster, s: State, t: State, me: int, v: int, out: set<Msg>)
    requires Sound(c, s) && c.Has(me) && Shape(c, t) && Announced(c, s, t, me, v, out)
    ensures Sound(c, t)
  {
    assert CountOk(c, s, me);
    assert forall x | x in out :: x.Learn?;
    AnswersStay(c, s, t, me, {}, out);
    PollsStay(c, s, t, me, {}, out);
    CountsStay(c, s, t, me, {}, out);
  }

  lemma VoteSound(c: Cluster, s: State, m: Msg, score: nat, junk: Junk)
    requires Sound(c, s) && m.Accepted? && Enabled(c, s, Deliver(m, score, junk))
    ensures Sound(c, AfterDeliver(c, s, m, score, junk))
  {
    var s1, t := TalliedState(c, s, m), AfterDeliver(c, s, m, score, junk);
    TalliedIs(c, s, m);
    TalliedSound(c, s, s1, m);
    VoteSplits(c, s, m, score, junk);
    if t != s1 {
      var out := AnnouncesIs(c, s1, t, m.dst, m.v);
      AnnouncedSound(c, s1, t, m.dst, m.v, out);
    }
  }

  // ---------------------------------------------------------------- whole runs

  lemma StepSound(c: Cluster, s: State, a: Action)
    requires Sound(c, s) && Enabled(c, s, a)
    ensures Sound(c, Next(c, s, a))
  {
    match a
    case Suspect(p) => SuspectSound(c, s, p);
    case Deliver(m, score, junk) =>
      if m.Prepare? {
        PrepareSound(c, s, m, score, junk);
      } else if m.Reply() {
        ReplySound(c, s, m, score, junk);
      } else if m.AcceptRequest? {
        AcceptSound(c, s, m, score, junk);
      } else if m.Accepted? {
        VoteSound(c, s, m, score, junk);
      } else {
        LearnSound(c, s, m, score, junk);
      }
  }

  lemma StartSound(c: Cluster)
    requires c.Valid()
    ensures Sound(c, Start(c))
  {
  }

  lemma {:induction false} RunSound(c: Cluster, states: seq<State>, actions: seq<Action>)
    requires Run(c, states, actions)
    ensures Sound(c, states[|actions|])
  {
    if actions == [] {
      StartSound(c);
    } else {
      var n := |actions| - 1;
      var before, act := states[..n + 1], actions[..n];
      forall i | 0 <= i < |act|
        ensures Shape(c, before[i]) && Enabled(c, before[i], act[i]) && before[i + 1] == Next(c, before[i], act[i])
      {
        assert before[i] == states[i] && act[i] == actions[i] && before[i + 1] == states[i + 1];
      }
      RunSound(c, before, act);
      StepSound(c, states[n], actions[n]);
    }
  }

  /** A message in flight to a running cluster core can always be handled: the handlers' own demands on
      the sender and on the tables hold by themselves. */
  lemma DeliveryEnabled(c: Cluster, s: State, m: Msg, score: nat, junk: Junk)
    requires Sound(c, s) && m in s.net && c.Has(m.dst) && !s.nodes[m.dst].halted
    ensures Enabled(c, s, Deliver(m, score, junk))
  {
    assert m in s.sent;
    match m {
      case Prepare(p, a, n) =>
      case NoPrevious(_, _, _) => assert Answered(c, s, m);
      case Promise(_, _, _, _, _) => assert Answered(c, s, m);
      case AcceptRequest(p, a, n, v) =>
      case Accepted(a, p, v) => assert Polled(c, s, a, p, v);
      case Learn(p, d, v, f) =>
    }
  }

  // ---------------------------------------------------------------- what the counters count

  lemma {:induction false} InjectiveImage(from: set<Msg>, to: set<int>)
    requires forall m | m in from :: m.src in to
    requires forall a | a in to :: exists m :: m in from && m.src == a
    requires forall m, m' | m in from && m' in from && m.src == m'.src :: m == m'
    ensures |from| == |to|
    decreases from
  {
    if from == {} {
      forall a
        ensures a !in to
      {
        assert a in to ==> exists m :: m in from && m.src == a;
      }
    } else {
      var m :| m in from;
      forall a | a in to - {m.src}
        ensures exists k :: k in from - {m} && k.src == a
      {
        var k :| k in from && k.src == a;
        assert k in from - {m};
      }
      InjectiveImage(from - {m}, to - {m.src});
    }
  }

  ghost function Arrived(s: State, p: int, votes: bool): set<Msg> {
    set m | m in s.sent && m !in s.net && m.dst == p && if votes then m.Accepted? else m.Reply()
  }

  ghost function Senders(ms: set<Msg>): set<int> {
    set m | m in ms :: m.src
  }

  lemma RepliesArrived(c: Cluster, s: State, p: int)
    requires Shape(c, s) && Answers(c, s) && c.Has(p)
    ensures |Arrived(s, p, false)| == |s.inbox[p]|
    ensures Senders(Arrived(s, p, false)) == s.inbox[p].Keys
  {
    var replies := Arrived(s, p, false);
    forall m | m in replies
      ensures m.src in s.inbox[p].Keys
    {
      assert Filed(s, m);
    }
    forall a | a in s.inbox[p].Keys
      ensures exists m :: m in replies && m.src == a
    {
      assert FromInbox(s, p, a) && Filed(s, s.inbox[p][a]);
      assert s.inbox[p][a] in replies;
    }
    InjectiveImage(replies, s.inbox[p].Keys);
  }

  lemma VotesArrived(c: Cluster, s: State, p: int)
    requires Shape(c, s) && Polls(c, s) && c.Has(p)
    ensures |Arrived(s, p, true)| == |s.voters[p]|
    ensures Senders(Arrived(s, p, true)) == s.voters[p]
  {
    var votes := Arrived(s, p, true);
    forall m | m in votes
      ensures m.src in s.voters[p] && m == Accepted(m.src, p, s.proposed[p])
    {
      assert m == Accepted(m.src, p, m.v);
      assert Polled(c, s, m.src, p, m.v);
    }
    forall a | a in s.voters[p]
      ensures exists m :: m in votes && m.src == a
    {
      assert Voted(s, a, p);
      assert Polled(c, s, a, p, s.proposed[p]);
      assert Accepted(a, p, s.proposed[p]) in votes;
    }
    InjectiveImage(votes, s.voters[p]);
  }

  /** The two reply counters count distinct cores: messages that were sent to `p` and have arrived, which
      is as many as the cores that sent them. */
  lemma CountsAreFaithful(c: Cluster, states: seq<State>, actions: seq<Action>, p: int)
    requires Run(c, states, actions) && c.Has(p)
    ensures Shape(c, states[|actions|])
    ensures var s := states[|actions|];
            && s.nodes[p].coresPromised == |Arrived(s, p, false)| == |Senders(Arrived(s, p, false))|
            && s.nodes[p].coresAccepted == |Arrived(s, p, true)| == |Senders(Arrived(s, p, true))|
  {
    var s := states[|actions|];
    RunSound(c, states, actions);
    assert CountOk(c, s, p);
    RepliesArrived(c, s, p);
    VotesArrived(c, s, p);
  }
}
