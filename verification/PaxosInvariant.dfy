/** What the records, the messages in flight and the history of an election have to do with each other, and which
    of it survives as an election goes on. */
module PaxosInvariant {
  import opened Arithmetic
  import opened Paxos

  // ---------------------------------------------------------------- invariant

  ghost predicate Ballots(c: Cluster, s: State)
    requires Shape(c, s)
  {
    && (forall b | 0 <= b < |s.owners| ::
          c.Has(s.owners[b]) && s.nodes[s.owners[b]].started && s.nodes[s.owners[b]].ballot == b)
    && (forall p | c.Has(p) && s.nodes[p].started ::
          0 <= s.nodes[p].ballot < |s.owners| && s.owners[s.nodes[p].ballot] == p)
  }

  ghost predicate Network(s: State) {
    && (forall m :: s.net[m] <= 1)
    && (forall m | m in s.net :: m in s.sent)
  }

  ghost predicate Prepares(c: Cluster, s: State)
    requires Shape(c, s)
  {
    forall p, a, n :: Prepare(p, a, n) in s.sent ==>
      c.Has(p) && c.Has(a) && s.nodes[p].started && s.nodes[p].ballot == n
  }

  ghost predicate Voted(s: State, a: int, q: int)
    requires 0 <= q < |s.proposed|
  {
    Accepted(a, q, s.proposed[q]) in s.sent
  }

  /** The answer `m` tells the truth: it reports the highest vote its sender has, or ever will have,
      below the ballot it answers. */
  ghost predicate ReplyOk(c: Cluster, s: State, m: Msg)
    requires Shape(c, s) && Ballots(c, s) && m.Reply()
  {
    && c.Has(m.src) && c.Has(m.dst)
    && s.nodes[m.dst].started
    && var b := s.nodes[m.dst].ballot;
       && Prepare(m.dst, m.src, b) in s.sent && Prepare(m.dst, m.src, b) !in s.net
       && b <= s.nodes[m.src].promised
       && -1 <= m.RepN() < b
       && (m.RepN() == -1 <==> m.RepV() == -1) && (m.RepN() == -1 <==> m.NoPrevious?)
       && (m.RepN() >= 0 ==> m.RepV() == s.proposed[s.owners[m.RepN()]])
       && (forall q | c.Has(q) && Voted(s, m.src, q) && s.nodes[q].ballot < b :: s.nodes[q].ballot <= m.RepN())
  }

  /** Every answer is on its way or in its proposer's inbox, never both. */
  ghost predicate Filed(s: State, m: Msg)
    requires 0 <= m.dst < |s.inbox|
  {
    && (m in s.net <==> m.src !in s.inbox[m.dst])
    && (m.src in s.inbox[m.dst] ==> s.inbox[m.dst][m.src] == m)
  }

  ghost predicate Replies(c: Cluster, s: State)
    requires Shape(c, s) && Ballots(c, s)
  {
    && (forall m | m in s.sent && m.Reply() :: ReplyOk(c, s, m) && Filed(s, m))
    && OneReplyEach(s)
    && (forall p, a | c.Has(p) && a in s.inbox[p] :: FromInbox(s, p, a))
  }

  ghost predicate OneReplyEach(s: State) {
    forall m, m' | m in s.sent && m' in s.sent && m.Reply() && m'.Reply() && m.src == m'.src && m.dst == m'.dst ::
      m == m'
  }

  ghost predicate FromInbox(s: State, p: int, a: int)
    requires 0 <= p < |s.inbox| && a in s.inbox[p]
  {
    var m := s.inbox[p][a];
    m in s.sent && m.Reply() && m.src == a && m.dst == p
  }

  ghost predicate AcceptRequests(c: Cluster, s: State)
    requires Shape(c, s)
  {
    && (forall p, a, n, v :: AcceptRequest(p, a, n, v) in s.sent ==>
          c.Has(p) && c.Has(a) && s.nodes[p].acceptSent && n == s.nodes[p].ballot && v == s.proposed[p])
    && (forall p | c.Has(p) && !s.nodes[p].acceptSent :: s.proposed[p] == -1)
    && (forall p | c.Has(p) && s.nodes[p].acceptSent :: s.nodes[p].started)
  }

  ghost predicate VoteOk(c: Cluster, s: State, a: int, p: int, v: int)
    requires Shape(c, s)
  {
    && c.Has(a) && c.Has(p) && v == s.proposed[p] && s.nodes[p].started && s.nodes[p].acceptSent
    && AcceptRequest(p, a, s.nodes[p].ballot, v) in s.sent
    && AcceptRequest(p, a, s.nodes[p].ballot, v) !in s.net
    && s.nodes[p].ballot <= s.nodes[a].accN
    && (Accepted(a, p, v) in s.net <==> a !in s.voters[p])
  }

  ghost predicate Votes(c: Cluster, s: State)
    requires Shape(c, s)
  {
    && (forall a, p, v :: Accepted(a, p, v) in s.sent ==> VoteOk(c, s, a, p, v))
    && (forall p, a | c.Has(p) && a in s.voters[p] :: Voted(s, a, p))
  }

  ghost predicate AcceptorOk(c: Cluster, s: State, a: int)
    requires Shape(c, s) && Ballots(c, s) && c.Has(a)
  {
    var nd := s.nodes[a];
    && -1 <= nd.accN <= nd.promised
    && nd.accN < |s.owners|
    && (nd.accN == -1 <==> nd.accV == -1)
    && (nd.accN >= 0 ==> nd.accV == s.proposed[s.owners[nd.accN]])
  }

  ghost predicate Acceptors(c: Cluster, s: State)
    requires Shape(c, s) && Ballots(c, s)
  {
    forall a | c.Has(a) :: AcceptorOk(c, s, a)
  }

  ghost predicate ProposerOk(c: Cluster, s: State, p: int)
    requires Shape(c, s) && Ballots(c, s) && c.Has(p)
  {
    var nd := s.nodes[p];
    && nd.coresPromised == |s.inbox[p]| && nd.coresAccepted == |s.voters[p]|
    && -1 <= nd.repliedN
    && (!nd.acceptSent && nd.repliedN == -1 ==> nd.repliedV == -1)
    && (!nd.acceptSent && nd.repliedN >= 0 ==>
          nd.started && nd.repliedN < nd.ballot && nd.repliedV != -1
          && nd.repliedV == s.proposed[s.owners[nd.repliedN]])
    && (forall a | a in s.inbox[p] && s.inbox[p][a].Reply() :: s.inbox[p][a].RepN() <= nd.repliedN)
    && (nd.learnSent ==> nd.acceptSent && |s.voters[p]| >= Majority(CLUSTER_SIZE))
  }

  ghost predicate Proposers(c: Cluster, s: State)
    requires Shape(c, s) && Ballots(c, s)
  {
    forall p | c.Has(p) :: ProposerOk(c, s, p)
  }

  /** Cores that have promised past ballot `b` without voting in it: they never will. */
  ghost function Blockers(c: Cluster, s: State, b: int): set<int>
    requires Shape(c, s) && Ballots(c, s) && 0 <= b < |s.owners|
  {
    set a | a in c.Members() && s.nodes[a].promised > b && !Voted(s, a, s.owners[b])
  }

  ghost predicate Blocked(c: Cluster, s: State, b: int)
    requires Shape(c, s) && Ballots(c, s) && 0 <= b < |s.owners|
  {
    |Blockers(c, s, b)| >= Majority(CLUSTER_SIZE)
  }

  /** Ballot `b` can no longer be chosen with a value other than the one `p` proposes. */
  ghost predicate SafeAgainst(c: Cluster, s: State, p: int, b: int)
    requires Shape(c, s) && Ballots(c, s) && 0 <= b < |s.owners| && c.Has(p)
  {
    s.proposed[s.owners[b]] == s.proposed[p] || Blocked(c, s, b)
  }

  ghost predicate SafeProposals(c: Cluster, s: State)
    requires Shape(c, s) && Ballots(c, s)
  {
    forall p, b | c.Has(p) && s.nodes[p].acceptSent && s.nodes[p].started && 0 <= b < s.nodes[p].ballot ::
      SafeAgainst(c, s, p, b)
  }

  ghost predicate Learns(c: Cluster, s: State)
    requires Shape(c, s)
  {
    forall p, d, v, f :: Learn(p, d, v, f) in s.sent ==>
      c.Has(p) && f == c.idag && s.nodes[p].learnSent && v == s.proposed[p]
  }

  ghost predicate Inv(c: Cluster, s: State) {
    && Shape(c, s)
    && NoSentinel(c, s)
    && Ballots(c, s)
    && Network(s)
    && Prepares(c, s)
    && Replies(c, s)
    && AcceptRequests(c, s)
    && Votes(c, s)
    && Acceptors(c, s)
    && Proposers(c, s)
    && SafeProposals(c, s)
    && Learns(c, s)
  }

  // ---------------------------------------------------------------- what a step may do

  /** `gone` left the network, `out` entered it. */
  ghost predicate Moved(s: State, s': State, gone: set<Msg>, out: set<Msg>) {
    && (forall x :: x in s'.sent <==> x in s.sent || x in out)
    && (forall x :: x in s'.net <==> (x in s.net && x !in gone) || x in out)
    && (forall x | x in out :: x !in s.sent)
  }

  ghost predicate NodeGrows(s: State, s': State, p: int)
    requires 0 <= p < |s.nodes| && |s'.nodes| == |s.nodes| == |s.proposed| == |s'.proposed|
  {
    var x, y := s.nodes[p], s'.nodes[p];
    && (x.started ==> y.started && x.ballot == y.ballot)
    && x.promised <= y.promised && x.accN <= y.accN
    && (x.acceptSent ==> y.acceptSent && s.proposed[p] == s'.proposed[p])
    && (x.learnSent ==> y.learnSent)
  }

  /** Nothing is forgotten, and a core votes only in ballots it has not promised away. */
  ghost predicate Grows(c: Cluster, s: State, s': State)
    requires Shape(c, s) && Shape(c, s')
  {
    && s.sent <= s'.sent
    && s.owners <= s'.owners
    && (forall p | c.Has(p) :: NodeGrows(s, s', p))
    && (forall x | x in s.sent && x !in s.net :: x !in s'.net)
    && (forall a, q, v | Accepted(a, q, v) in s'.sent && Accepted(a, q, v) !in s.sent ::
          c.Has(a) && c.Has(q) && s'.nodes[q].ballot >= s.nodes[a].promised)
  }

  // ---------------------------------------------------------------- sets and fans

  lemma AddressedTo(template: Msg, d: int, m: Msg)
    ensures m == template.(dst := d) <==> m == template.(dst := m.dst) && m.dst == d
  {
  }

  lemma OneMore(fan: seq<Msg>, rest: seq<Msg>, last: Msg, sends: bool, m: Msg, hit: bool)
    requires fan == rest + (if sends then [last] else []) && (hit <==> m == last)
    ensures multiset(fan)[m] == multiset(rest)[m] + if sends && hit then 1 else 0
  {
    if sends {
      assert multiset(rest + [last]) == multiset(rest) + multiset{last};
    } else {
      assert fan == rest;
    }
  }

  /** `m` is the copy of the template for one of the first `k` cores that are in `to`. */
  predicate Copy(template: Msg, to: set<int>, k: nat, m: Msg) {
    m == template.(dst := m.dst) && 0 <= m.dst < k && m.dst in to
  }

  lemma CopyMore(template: Msg, to: set<int>, k: nat, m: Msg, last: bool)
    requires k > 0 && (last <==> k - 1 in to && m == template.(dst := k - 1))
    ensures Copy(template, to, k, m) <==> Copy(template, to, k - 1, m) || last
    ensures !(Copy(template, to, k - 1, m) && last)
  {
    AddressedTo(template, k - 1, m);
  }

  lemma {:induction false} FanHas(template: Msg, to: set<int>, k: nat, m: Msg)
    ensures multiset(Fan(template, to, k))[m] == if Copy(template, to, k, m) then 1 else 0
  {
    if k > 0 {
      var last := k - 1 in to && m == template.(dst := k - 1);
      FanHas(template, to, k - 1, m);
      CopyMore(template, to, k, m, last);
      LastHas(template, to, k, m, last);
    }
  }

  lemma LastHas(template: Msg, to: set<int>, k: nat, m: Msg, last: bool)
    requires k > 0 && (last <==> k - 1 in to && m == template.(dst := k - 1))
    ensures multiset(Fan(template, to, k))[m] == multiset(Fan(template, to, k - 1))[m] + if last then 1 else 0
  {
    var fan, rest := Fan(template, to, k), Fan(template, to, k - 1);
    OneMore(fan, rest, template.(dst := k - 1), k - 1 in to, m, m == template.(dst := k - 1));
  }

  /** A fan-out sends each target exactly one copy and nobody else anything. */
  lemma FanOut(template: Msg, to: set<int>, k: nat) returns (out: set<Msg>)
    ensures forall x :: x in out <==> x in Fan(template, to, k)
    ensures forall x :: multiset(Fan(template, to, k))[x] <= 1
    ensures forall x :: x in out <==> x == template.(dst := x.dst) && 0 <= x.dst < k && x.dst in to
  {
    var sends := Fan(template, to, k);
    out := set x | x in sends;
    forall x
      ensures multiset(sends)[x] <= 1
      ensures x in out <==> x == template.(dst := x.dst) && 0 <= x.dst < k && x.dst in to
    {
      FanHas(template, to, k, x);
      assert x in sends <==> x in multiset(sends);
    }
  }

  lemma Overlap(a: set<int>, b: set<int>, all: set<int>) returns (x: int)
    requires a <= all && b <= all && |all| < |a| + |b|
    ensures x in a && x in b
  {
    SubsetSize(a + b, all);
    assert |a + b| == |a| + |b| - |a * b|;
    assert (forall x | x in a :: x !in b) ==> a * b == {};
    x :| x in a && x in b;
  }

  // ---------------------------------------------------------------- what growth preserves

  lemma ReplyOkKept(c: Cluster, s: State, s': State, m: Msg)
    requires Shape(c, s) && Shape(c, s') && Ballots(c, s) && Ballots(c, s') && Grows(c, s, s')
    requires AcceptRequests(c, s) && Votes(c, s)
    requires m.Reply() && ReplyOk(c, s, m)
    ensures ReplyOk(c, s', m)
  {
    var b := s.nodes[m.dst].ballot;
    assert NodeGrows(s, s', m.dst) && NodeGrows(s, s', m.src);
    if m.RepN() >= 0 {
      assert NodeGrows(s, s', s.owners[m.RepN()]);
    }
    forall q | c.Has(q) && Voted(s', m.src, q) && s'.nodes[q].ballot < b
      ensures s'.nodes[q].ballot <= m.RepN()
    {
      assert NodeGrows(s, s', q);
      if Accepted(m.src, q, s'.proposed[q]) in s.sent {
        assert VoteOk(c, s, m.src, q, s'.proposed[q]);
        assert Voted(s, m.src, q);
      }
    }
  }

  lemma BlockersKept(c: Cluster, s: State, s': State, b: int)
    requires Shape(c, s) && Shape(c, s') && Ballots(c, s) && Ballots(c, s') && Grows(c, s, s')
    requires Votes(c, s)
    requires 0 <= b < |s.owners|
    ensures Blocked(c, s, b) ==> Blocked(c, s', b)
  {
    var q := s.owners[b];
    assert NodeGrows(s, s', q);
    forall a | a in Blockers(c, s, b)
      ensures a in Blockers(c, s', b)
    {
      assert NodeGrows(s, s', a);
    }
    SubsetSize(Blockers(c, s, b), Blockers(c, s', b));
  }

  lemma SafeKept(c: Cluster, s: State, s': State, p: int, b: int)
    requires Shape(c, s) && Shape(c, s') && Ballots(c, s) && Ballots(c, s') && Grows(c, s, s')
    requires Votes(c, s) && AcceptRequests(c, s) && NoSentinel(c, s)
    requires c.Has(p) && s.nodes[p].acceptSent && 0 <= b < |s.owners| && SafeAgainst(c, s, p, b)
    ensures SafeAgainst(c, s', p, b)
  {
    BlockersKept(c, s, s', b);
    assert NodeGrows(s, s', p) && NodeGrows(s, s', s.owners[b]);
  }

  lemma AcceptorKept(c: Cluster, s: State, s': State, a: int)
    requires Shape(c, s) && Shape(c, s') && Ballots(c, s) && Ballots(c, s') && Grows(c, s, s')
    requires AcceptRequests(c, s) && c.Has(a) && AcceptorOk(c, s, a)
    requires s'.nodes[a].accN == s.nodes[a].accN && s'.nodes[a].accV == s.nodes[a].accV
    ensures AcceptorOk(c, s', a)
  {
    assert NodeGrows(s, s', a);
    if s.nodes[a].accN >= 0 {
      assert NodeGrows(s, s', s.owners[s.nodes[a].accN]);
    }
  }

  lemma ProposerKept(c: Cluster, s: State, s': State, p: int)
    requires Shape(c, s) && Shape(c, s') && Ballots(c, s) && Ballots(c, s') && Grows(c, s, s')
    requires AcceptRequests(c, s) && c.Has(p) && ProposerOk(c, s, p)
    requires s'.inbox[p] == s.inbox[p] && s'.voters[p] == s.voters[p]
    requires s'.nodes[p].coresPromised == s.nodes[p].coresPromised
    requires s'.nodes[p].coresAccepted == s.nodes[p].coresAccepted
    requires s'.nodes[p].repliedN == s.nodes[p].repliedN && s'.nodes[p].repliedV == s.nodes[p].repliedV
    requires s'.nodes[p].acceptSent == s.nodes[p].acceptSent && s'.nodes[p].learnSent == s.nodes[p].learnSent
    ensures ProposerOk(c, s', p)
  {
    assert NodeGrows(s, s', p);
    if !s.nodes[p].acceptSent && s.nodes[p].repliedN >= 0 {
      assert NodeGrows(s, s', s.owners[s.nodes[p].repliedN]);
    }
  }
}
