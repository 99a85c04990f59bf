/** Runs that announce two different controllers: rounds of undisturbed proposers, in which some of the members hear
    from one proposer and others from another, or in which a proposer picks -1 because of what its scan starts from. */
module PaxosSentinel {
  import opened ElectionWinner
  import opened Paxos
  import opened PaxosInvariant
  import opened PaxosRuns

  // ---------------------------------------------------------------- reachable states

  /** What the variables that are never assigned hold: `max_score` and `index` where the scan begins, and whether the
      `score` that a second answer carries is at least not negative. `first` is the score of first answers. */
  datatype Stale = Stale(maxScore: int, index: int, scored: bool, first: nat)

  ghost predicate Uses(a: Action, st: Stale) {
    a.Deliver? ==>
      && a.junk.maxScore == st.maxScore && a.junk.index == st.index && (st.scored ==> a.junk.score >= 0)
      && a.score == st.first
  }

  /** A run in which the stale variables hold that, and first answers carry that score, throughout. */
  ghost predicate StaleRun(c: Cluster, st: Stale, states: seq<State>, actions: seq<Action>) {
    Run(c, states, actions) && forall i | 0 <= i < |actions| :: Uses(actions[i], st)
  }

  ghost predicate Ends(c: Cluster, st: Stale, states: seq<State>, actions: seq<Action>, s: State) {
    StaleRun(c, st, states, actions) && states[|actions|] == s
  }

  ghost predicate Reachable(c: Cluster, st: Stale, s: State) {
    Shape(c, s) && exists states, actions :: Ends(c, st, states, actions, s)
  }

  lemma Further(c: Cluster, st: Stale, s: State, a: Action)
    requires Reachable(c, st, s) && Enabled(c, s, a) && Uses(a, st)
    ensures Reachable(c, st, Next(c, s, a))
  {
    var states, actions :| Ends(c, st, states, actions, s);
    StepHistory(c, s, a);
    var t := Next(c, s, a);
    var more, acts := states + [t], actions + [a];
    forall i | 0 <= i < |acts|
      ensures Shape(c, more[i]) && Enabled(c, more[i], acts[i]) && more[i + 1] == Next(c, more[i], acts[i])
      ensures Uses(acts[i], st)
    {
      if i < |actions| {
        assert more[i] == states[i] && more[i + 1] == states[i + 1] && acts[i] == actions[i];
      }
    }
    assert Ends(c, st, more, acts, t);
  }

  /** What matters for later rounds has not changed: who has yet to propose, the ballots drawn, and the acceptors
      outside `who`. */
  ghost predicate Kept(c: Cluster, s: State, t: State, p: int, who: set<int>)
    requires Shape(c, s) && Shape(c, t)
  {
    && s.sent <= t.sent && |s.owners| == |t.owners|
    && (forall i | c.Has(i) && i != p && Unused(s.nodes[i]) :: Unused(t.nodes[i]))
    && forall i | c.Has(i) && i !in who :: SameAcceptor(s.nodes[i], t.nodes[i])
  }

  lemma KeptTwice(c: Cluster, s: State, u: State, t: State, p: int, who: set<int>)
    requires Shape(c, s) && Shape(c, u) && Shape(c, t) && Kept(c, s, u, p, who) && Kept(c, u, t, p, who)
    ensures Kept(c, s, t, p, who)
  {
  }

  ghost predicate SameAcceptor(x: Node, y: Node) {
    x.accV == y.accV && x.promised == y.promised
  }

  /** A core that has not proposed. */
  ghost predicate Unused(nd: Node) {
    !nd.started && Blank(nd)
  }

  ghost predicate Blank(nd: Node) {
    nd.repliedV == -1 && nd.coresPromised == 0 == nd.coresAccepted && !nd.acceptSent && !nd.learnSent
  }

  /** A message handled: the receiver's record, and the messages in flight. */
  ghost predicate Went(c: Cluster, s: State, t: State, m: Msg, e: Effect)
    requires Shape(c, s) && Shape(c, t) && c.Has(m.dst)
  {
    && t.nodes == s.nodes[m.dst := e.node]
    && (forall x | x in s.net && x != m :: x in t.net)
    && (forall x | x in e.out :: x in t.net && x in t.sent)
    && s.sent <= t.sent && |s.owners| == |t.owners|
  }

  function With(st: Stale, sc: int): Junk {
    Junk(st.maxScore, st.index, sc)
  }

  lemma Delivered(c: Cluster, st: Stale, s: State, m: Msg, sc: int) returns (t: State)
    requires Reachable(c, st, s) && (st.scored ==> sc >= 0) && Enabled(c, s, Deliver(m, st.first, With(st, sc)))
    ensures Reachable(c, st, t) && Went(c, s, t, m, Handle(c, s.nodes[m.dst], m, st.first, With(st, sc)))
  {
    var a := Deliver(m, st.first, With(st, sc));
    Further(c, st, s, a);
    t := Next(c, s, a);
    var e := Handle(c, s.nodes[m.dst], m, st.first, With(st, sc));
    forall x | x in e.out
      ensures x in t.net
    {
      assert x in multiset(e.out);
    }
  }

  // ---------------------------------------------------------------- one round

  ghost predicate Quiet(c: Cluster, s: State)
    requires Shape(c, s)
  {
    forall i | c.Has(i) :: !s.nodes[i].halted
  }

  /** Proposer with ballot `n` in its round; every answer it has had came from `who` and is a score of `sc`. */
  ghost predicate Proposes(c: Cluster, nd: Node, n: int, who: set<int>, sc: int)
    requires c.Valid()
  {
    && nd.started && nd.ballot == n && |nd.states| == c.cores
    && forall x | 0 <= x < c.cores :: nd.states[x] == -1 || (nd.states[x] == sc && x in who)
  }

  /** How many of `who` are below `k`. */
  ghost function Upto(who: set<int>, k: nat): nat {
    if k == 0 then 0 else Upto(who, k - 1) + if k - 1 in who then 1 else 0
  }

  lemma {:induction false} UptoAll(who: set<int>, k: nat)
    ensures Upto(who, k) == |set i | i in who && 0 <= i < k|
  {
    if k > 0 {
      UptoAll(who, k - 1);
      var before := set i | i in who && 0 <= i < k - 1;
      var now := set i | i in who && 0 <= i < k;
      assert now == if k - 1 in who then before + {k - 1} else before;
    }
  }

  ghost predicate InRound(c: Cluster, s: State, p: int, n: int, who: set<int>) {
    Shape(c, s) && Quiet(c, s) && c.Has(p) && n >= 0 && who <= c.Members()
  }

  /** PREPARE_REQUEST has reached those of `who` below `k`, who have nothing to report. */
  ghost predicate Prepared(c: Cluster, s: State, p: int, n: int, who: set<int>, st: Stale, sc: int, k: nat) {
    && InRound(c, s, p, n, who) && Proposes(c, s.nodes[p], n, who, sc) && Blank(s.nodes[p])
    && forall i | i in who ::
         && s.nodes[i].accV == -1
         && (if i < k then s.nodes[i].promised == n && NoPrevious(i, p, sc) in s.net
             else s.nodes[i].promised < n && (s.nodes[i].promised == -1 ==> sc == st.first) && Prepare(p, i, n) in s.net)
  }

  lemma PrepareOne(c: Cluster, st: Stale, s: State, p: int, n: int, who: set<int>, sc: int, k: nat) returns (t: State)
    requires Reachable(c, st, s) && (st.scored ==> sc >= 0) && Prepared(c, s, p, n, who, st, sc, k) && k < c.cores
    ensures Reachable(c, st, t) && Prepared(c, t, p, n, who, st, sc, k + 1) && Kept(c, s, t, p, who)
  {
    t := s;
    if k in who {
      t := Delivered(c, st, s, Prepare(p, k, n), sc);
    }
  }

  lemma {:induction false} PrepareAll(c: Cluster, st: Stale, s: State, p: int, n: int, who: set<int>, sc: int, k: nat)
    returns (t: State)
    requires Reachable(c, st, s) && (st.scored ==> sc >= 0) && Prepared(c, s, p, n, who, st, sc, k) && k <= c.cores
    ensures Reachable(c, st, t) && Prepared(c, t, p, n, who, st, sc, c.cores) && Kept(c, s, t, p, who)
    decreases c.cores - k
  {
    t := s;
    if k < c.cores {
      t := PrepareOne(c, st, s, p, n, who, sc, k);
      t := PrepareAll(c, st, t, p, n, who, sc, k + 1);
    }
  }

  /** What the scan comes to: a score that does not beat `max_score` leaves `index` as it was; one that does, and is a
      real one, makes it the core of an answer. */
  ghost predicate Fits(v: int, who: set<int>, st: Stale, sc: int) {
    && (sc <= st.maxScore && -1 <= st.maxScore ==> v == st.index)
    && (sc > st.maxScore && sc >= 0 ==> v in who)
  }

  /** The answers of those of `who` below `k` have come. */
  ghost predicate Asking(c: Cluster, s: State, p: int, n: int, who: set<int>, st: Stale, sc: int, k: nat) {
    && InRound(c, s, p, n, who) && Proposes(c, s.nodes[p], n, who, sc)
    && var nd := s.nodes[p];
    && nd.coresPromised == Upto(who, k) && nd.coresAccepted == 0 && !nd.learnSent
    && (nd.acceptSent <==> Upto(who, k) >= Majority(CLUSTER_SIZE))
    && (if nd.acceptSent then Fits(nd.repliedV, who, st, sc) else nd.repliedV == -1)
    && forall i | i in who ::
         && s.nodes[i].accV == -1 && s.nodes[i].promised == n
         && (i >= k ==> NoPrevious(i, p, sc) in s.net)
         && (nd.acceptSent ==> AcceptRequest(p, i, n, nd.repliedV) in s.net)
  }

  lemma Picked(states: seq<int>, who: set<int>, st: Stale, sc: int, k: nat)
    requires k < |states| && states[k] == sc
    requires forall x | 0 <= x < |states| :: states[x] == -1 || (states[x] == sc && x in who)
    ensures Fits(Pick(states, With(st, sc)), who, st, sc)
  {
    PickExact(states, With(st, sc));
    assert Beats(states, With(st, sc), k) <==> sc > st.maxScore;
  }

  lemma AskOne(c: Cluster, s: State, p: int, n: int, who: set<int>, st: Stale, sc: int, k: nat) returns (t: State)
    requires k < c.cores && Reachable(c, st, s) && (st.scored ==> sc >= 0) && Asking(c, s, p, n, who, st, sc, k)
    ensures Reachable(c, st, t) && Asking(c, t, p, n, who, st, sc, k + 1) && Kept(c, s, t, p, who)
  {
    t := s;
    if k in who {
      t := Delivered(c, st, s, NoPrevious(k, p, sc), sc);
      AnswerFiled(c, s, t, p, n, who, st, sc, k);
      AnswerKeeps(c, s, t, p, n, who, st, sc, k);
    }
  }

  lemma AnswerKeeps(c: Cluster, s: State, t: State, p: int, n: int, who: set<int>, st: Stale, sc: int, k: nat)
    requires k < c.cores && k in who && Asking(c, s, p, n, who, st, sc, k) && Shape(c, t)
    requires var m := NoPrevious(k, p, sc);
             Went(c, s, t, m, Handle(c, s.nodes[p], m, st.first, With(st, sc)))
    ensures Kept(c, s, t, p, who)
  {
  }

  lemma AnswerFiled(c: Cluster, s: State, t: State, p: int, n: int, who: set<int>, st: Stale, sc: int, k: nat)
    requires k < c.cores && k in who && Asking(c, s, p, n, who, st, sc, k) && Shape(c, t)
    requires var m := NoPrevious(k, p, sc);
             Went(c, s, t, m, Handle(c, s.nodes[p], m, st.first, With(st, sc)))
    ensures Asking(c, t, p, n, who, st, sc, k + 1)
  {
    var nd := s.nodes[p];
    Picked(nd.states[k := sc], who, st, sc, k);
    if t.nodes[p].acceptSent && !nd.acceptSent {
      AcceptsSent(c, s, t, p, n, NoPrevious(k, p, sc), st.first, With(st, sc));
    }
  }

  /** On the answer that completes the majority every member is asked to accept. */
  lemma AcceptsSent(c: Cluster, s: State, t: State, p: int, n: int, m: Msg, score: nat, junk: Junk)
    requires Shape(c, s) && Shape(c, t) && c.Has(p) && s.nodes[p].ballot == n && |s.nodes[p].states| == c.cores
    requires m.NoPrevious? && c.Has(m.src) && m.dst == p && Went(c, s, t, m, Handle(c, s.nodes[p], m, score, junk))
    requires t.nodes[p].acceptSent && !s.nodes[p].acceptSent
    ensures forall i | c.Has(i) :: AcceptRequest(p, i, n, t.nodes[p].repliedV) in t.net
  {
    var e := Handle(c, s.nodes[p], m, score, junk);
    var v := t.nodes[p].repliedV;
    forall i | c.Has(i)
      ensures AcceptRequest(p, i, n, v) in t.net
    {
      FanHas(AcceptRequest(p, 0, n, v), c.Members(), c.cores, AcceptRequest(p, i, n, v));
      assert AcceptRequest(p, i, n, v) in multiset(e.out);
    }
  }

  lemma {:induction false} AskAll(c: Cluster, s: State, p: int, n: int, who: set<int>, st: Stale, sc: int, k: nat)
    returns (t: State)
    requires k <= c.cores && Reachable(c, st, s) && (st.scored ==> sc >= 0) && Asking(c, s, p, n, who, st, sc, k)
    ensures Reachable(c, st, t) && Asking(c, t, p, n, who, st, sc, c.cores) && Kept(c, s, t, p, who)
    decreases c.cores - k
  {
    if k == c.cores {
      t := s;
    } else {
      var u := AskOne(c, s, p, n, who, st, sc, k);
      t := AskAll(c, u, p, n, who, st, sc, k + 1);
      KeptTwice(c, s, u, t, p, who);
    }
  }

  /** ACCEPT_REQUEST has reached those of `who` below `k`, who have voted. */
  ghost predicate Voting(c: Cluster, s: State, p: int, n: int, who: set<int>, v: int, k: nat) {
    && InRound(c, s, p, n, who) && s.nodes[p].coresAccepted == 0 && !s.nodes[p].learnSent
    && forall i | i in who ::
         && s.nodes[i].promised == n
         && (if i < k then s.nodes[i].accV == v && Accepted(i, p, v) in s.net
             else s.nodes[i].accV == -1 && AcceptRequest(p, i, n, v) in s.net)
  }

  lemma VoteOne(c: Cluster, st: Stale, s: State, p: int, n: int, who: set<int>, v: int, k: nat) returns (t: State)
    requires Reachable(c, st, s) && Voting(c, s, p, n, who, v, k) && k < c.cores
    ensures Reachable(c, st, t) && Voting(c, t, p, n, who, v, k + 1) && Kept(c, s, t, p, who)
  {
    t := s;
    if k in who {
      t := Delivered(c, st, s, AcceptRequest(p, k, n, v), 0);
    }
  }

  lemma {:induction false} VoteAll(c: Cluster, st: Stale, s: State, p: int, n: int, who: set<int>, v: int, k: nat)
    returns (t: State)
    requires Reachable(c, st, s) && Voting(c, s, p, n, who, v, k) && k <= c.cores
    ensures Reachable(c, st, t) && Voting(c, t, p, n, who, v, c.cores) && Kept(c, s, t, p, who)
    decreases c.cores - k
  {
    t := s;
    if k < c.cores {
      t := VoteOne(c, st, s, p, n, who, v, k);
      t := VoteAll(c, st, t, p, n, who, v, k + 1);
    }
  }

  /** The votes of those of `who` below `k` have come. */
  ghost predicate Telling(c: Cluster, s: State, p: int, n: int, who: set<int>, v: int, k: nat) {
    && InRound(c, s, p, n, who) && s.nodes[p].coresAccepted == Upto(who, k)
    && (if Upto(who, k) >= Majority(CLUSTER_SIZE) then Learn(p, p, v, c.idag) in s.sent else !s.nodes[p].learnSent)
    && forall i | i in who ::
         s.nodes[i].promised == n && s.nodes[i].accV == v && (i >= k ==> Accepted(i, p, v) in s.net)
  }

  lemma TellOne(c: Cluster, st: Stale, s: State, p: int, n: int, who: set<int>, v: int, k: nat) returns (t: State)
    requires k < c.cores && Reachable(c, st, s) && Telling(c, s, p, n, who, v, k)
    ensures Reachable(c, st, t) && Telling(c, t, p, n, who, v, k + 1) && Kept(c, s, t, p, who)
  {
    t := s;
    if k in who {
      t := Delivered(c, st, s, Accepted(k, p, v), 0);
      assert Upto(who, k + 1) >= Majority(CLUSTER_SIZE) && !s.nodes[p].learnSent ==> Learn(p, p, v, c.idag) in t.sent;
    }
  }

  lemma {:induction false} TellAll(c: Cluster, st: Stale, s: State, p: int, n: int, who: set<int>, v: int, k: nat)
    returns (t: State)
    requires k <= c.cores && Reachable(c, st, s) && Telling(c, s, p, n, who, v, k)
    ensures Reachable(c, st, t) && Telling(c, t, p, n, who, v, c.cores) && Kept(c, s, t, p, who)
    decreases c.cores - k
  {
    t := s;
    if k < c.cores {
      t := TellOne(c, st, s, p, n, who, v, k);
      t := TellAll(c, st, t, p, n, who, v, k + 1);
    }
  }

  /** Core `p` can begin: none of `who` has accepted anything, or anything but -1, or promised a higher ballot; one
      that has promised nothing yet will report its first score. */
  ghost predicate Open(c: Cluster, s: State, p: int, who: set<int>, st: Stale, sc: int)
    requires Shape(c, s)
  {
    && Quiet(c, s) && c.Has(p) && Unused(s.nodes[p]) && who <= c.Members()
    && forall i | i in who ::
         s.nodes[i].accV == -1 && s.nodes[i].promised < |s.owners| && (s.nodes[i].promised == -1 ==> sc == st.first)
  }

  lemma Began(c: Cluster, st: Stale, s: State, p: int, who: set<int>, sc: int) returns (t: State)
    requires Reachable(c, st, s) && Open(c, s, p, who, st, sc)
    ensures Reachable(c, st, t) && Prepared(c, t, p, |s.owners|, who, st, sc, 0)
    ensures s.sent <= t.sent && |t.owners| == |s.owners| + 1
    ensures forall i | c.Has(i) && i != p && Unused(s.nodes[i]) :: Unused(t.nodes[i])
    ensures forall i | c.Has(i) :: SameAcceptor(s.nodes[i], t.nodes[i])
  {
    var n := |s.owners|;
    Further(c, st, s, Suspect(p));
    t := Next(c, s, Suspect(p));
    var e := OnInit(c, p, s.nodes[p], n);
    forall i | i in who
      ensures Prepare(p, i, n) in t.net
    {
      FanHas(Prepare(p, 0, n), c.Members(), c.cores, Prepare(p, i, n));
      assert Prepare(p, i, n) in multiset(e.out);
    }
  }

  /** The first half of a round: a majority has answered, and all are asked to accept what the scan comes to. */
  lemma FirstHalf(c: Cluster, st: Stale, s: State, p: int, who: set<int>, sc: int) returns (t: State, v: int)
    requires Reachable(c, st, s) && (st.scored ==> sc >= 0)
    requires Open(c, s, p, who, st, sc) && Upto(who, c.cores) >= Majority(CLUSTER_SIZE)
    ensures Reachable(c, st, t) && s.sent <= t.sent && Fits(v, who, st, sc) && |t.owners| == |s.owners| + 1
    ensures Voting(c, t, p, |s.owners|, who, v, 0)
    ensures forall i | c.Has(i) && i !in who :: SameAcceptor(s.nodes[i], t.nodes[i])
    ensures forall i | c.Has(i) && i != p && Unused(s.nodes[i]) :: Unused(t.nodes[i])
  {
    var n := |s.owners|;
    t := Began(c, st, s, p, who, sc);
    t := PrepareAll(c, st, t, p, n, who, sc, 0);
    t := AskAll(c, t, p, n, who, st, sc, 0);
    v := t.nodes[p].repliedV;
  }

  lemma SecondHalf(c: Cluster, st: Stale, s: State, p: int, n: int, who: set<int>, v: int) returns (t: State)
    requires Reachable(c, st, s) && Voting(c, s, p, n, who, v, 0) && Upto(who, c.cores) >= Majority(CLUSTER_SIZE)
    ensures Reachable(c, st, t) && Kept(c, s, t, p, who) && Telling(c, t, p, n, who, v, c.cores)
  {
    t := VoteAll(c, st, s, p, n, who, v, 0);
    t := TellAll(c, st, t, p, n, who, v, 0);
  }

  /** A whole round of one proposer with the acceptors `who`, undisturbed: it announces what its scan comes to. */
  lemma Round(c: Cluster, st: Stale, s: State, p: int, who: set<int>, sc: int) returns (t: State, v: int)
    requires Reachable(c, st, s) && (st.scored ==> sc >= 0)
    requires Open(c, s, p, who, st, sc) && |who| >= Majority(CLUSTER_SIZE)
    ensures Reachable(c, st, t) && s.sent <= t.sent && Fits(v, who, st, sc) && Learn(p, p, v, c.idag) in t.sent
    ensures Quiet(c, t) && |t.owners| == |s.owners| + 1
    ensures forall i | i in who :: t.nodes[i].accV == v && t.nodes[i].promised == |s.owners|
    ensures forall i | c.Has(i) && i !in who :: SameAcceptor(s.nodes[i], t.nodes[i])
    ensures forall i | c.Has(i) && i != p && Unused(s.nodes[i]) :: Unused(t.nodes[i])
  {
    UptoAll(who, c.cores);
    assert who == set i | i in who && 0 <= i < c.cores;
    t, v := FirstHalf(c, st, s, p, who, sc);
    t := SecondHalf(c, st, t, p, |s.owners|, who, v);
  }

  // ---------------------------------------------------------------- two announcements

  lemma Afresh(c: Cluster, st: Stale)
    requires c.Valid()
    ensures Reachable(c, st, Start(c)) && Quiet(c, Start(c))
    ensures forall p | c.Has(p) :: Unused(Start(c).nodes[p]) && Start(c).nodes[p].accV == -1 == Start(c).nodes[p].promised
  {
    assert Ends(c, st, [Start(c)], [], Start(c));
  }

  /** Two announcements about the failed controller that differ. */
  ghost predicate Disagree(c: Cluster, s: State, x: Msg, y: Msg) {
    x.Learn? && y.Learn? && x in s.sent && y in s.sent && x.failed == y.failed == c.idag && x.v != y.v
  }

  /** Every member has answered some proposer: from now on the score of an answer is what the variable holds. */
  lemma AllAnswered(c: Cluster, st: Stale, o: int) returns (s: State)
    requires c.Valid() && c.Has(o)
    ensures Reachable(c, st, s) && Quiet(c, s) && |s.owners| == 1
    ensures forall i | c.Has(i) :: s.nodes[i].accV == -1 && s.nodes[i].promised == 0 && (i != o ==> Unused(s.nodes[i]))
  {
    var all := c.Members();
    Afresh(c, st);
    assert Open(c, Start(c), o, all, st, st.first);
    s := Began(c, st, Start(c), o, all, st.first);
    s := PrepareAll(c, st, s, o, 0, all, st.first, 0);
  }

  /** With members enough for two majorities, each half elects a core of its own, whatever the variables hold. */
  lemma Split(c: Cluster, st: Stale) returns (s: State, x: Msg, y: Msg)
    requires c.Valid() && |c.Members()| >= 2 * Majority(CLUSTER_SIZE)
    ensures Reachable(c, st, s) && Disagree(c, s, x, y)
  {
    var a := Choose(c.Members(), Majority(CLUSTER_SIZE));
    var b := c.Members() - a;
    assert c.Members() == a + b;
    var o, p, u := Three(a);
    assert b != {};
    var q :| q in b;
    var sc := if st.maxScore < 0 then 0 else st.maxScore + 1;
    s := AllAnswered(c, st, o);
    assert Open(c, s, p, a, st, sc);
    var v, w;
    s, v := Round(c, st, s, p, a, sc);
    assert Open(c, s, q, b, st, sc);
    s, w := Round(c, st, s, q, b, sc);
    x, y := Learn(p, p, v, c.idag), Learn(q, q, w, c.idag);
  }

  /** The scan can come out at -1: no score need beat where it starts, and `index` holds -1. */
  ghost predicate Harmful(maxScore: int, index: int, scored: bool) {
    index == -1 && maxScore >= -1 && (scored ==> maxScore >= 0)
  }

  /** In every cluster with enough members to decide, an unlucky start elects -1, which the acceptors keep as "nothing
      accepted", and then a core. */
  lemma Disagreement(c: Cluster, st: Stale) returns (s: State, x: Msg, y: Msg)
    requires c.Valid() && |c.Members()| >= Majority(CLUSTER_SIZE) && Harmful(st.maxScore, st.index, st.scored)
    ensures Reachable(c, st, s) && Disagree(c, s, x, y) && x.v == -1
  {
    var all := c.Members();
    var o, p, q := Three(all);
    s := AllAnswered(c, st, o);
    assert Open(c, s, p, all, st, st.maxScore);
    var v, w;
    s, v := Round(c, st, s, p, all, st.maxScore);
    assert Open(c, s, q, all, st, st.maxScore + 1);
    s, w := Round(c, st, s, q, all, st.maxScore + 1);
    x, y := Learn(p, p, v, c.idag), Learn(q, q, w, c.idag);
  }

  lemma Three(all: set<int>) returns (o: int, p: int, q: int)
    requires |all| >= 3
    ensures {o, p, q} <= all && o != p && p != q && o != q
  {
    o := Some(all);
    var rest := all - {o};
    p := Some(rest);
    q := Some(rest - {p});
  }

  lemma Some(s: set<int>) returns (x: int)
    requires |s| > 0
    ensures x in s && |s - {x}| == |s| - 1
  {
    if forall y :: y !in s {
      assert false;
    }
    x :| x in s;
  }
}
