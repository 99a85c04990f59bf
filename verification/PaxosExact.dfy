/** Exactly when the election agrees: for every cluster with enough members to decide, what the variables that are
    never assigned may hold, differently at every call, for every run to announce one controller. */
module PaxosExact {
  import opened ElectionWinner
  import opened Paxos
  import opened PaxosInvariant
  import opened PaxosRuns
  import opened PaxosSentinel

  // ---------------------------------------------------------------- -1 stays out

  ghost predicate MsgOk(scored: bool, m: Msg) {
    match m
    case Prepare(_, _, n) => n >= 0
    case NoPrevious(_, _, score) => scored ==> score >= 0
    case Promise(_, _, n, v, _) => n >= 0 && v != -1
    case AcceptRequest(_, _, n, v) => n >= 0 && v != -1
    case _ => true
  }

  ghost predicate NodeOk(c: Cluster, nd: Node)
    requires c.Valid()
  {
    && (nd.accV != -1 ==> nd.accN >= 0) && (nd.repliedN >= 0 ==> nd.repliedV != -1)
    && (nd.started ==> nd.ballot >= 0 && |nd.states| == c.cores && nd.states[c.idag] == -1)
    && (nd.acceptSent ==> nd.repliedV != -1)
  }

  ghost predicate Clean(c: Cluster, scored: bool, s: State) {
    && Shape(c, s) && NoSentinel(c, s)
    && (forall m | m in s.net :: MsgOk(scored, m))
    && forall i | 0 <= i < c.cores :: NodeOk(c, s.nodes[i])
  }

  /** A message handled while the variables hold nothing that harms. */
  ghost predicate Tame(a: Action, scored: bool) {
    a.Deliver? ==> !Harmful(a.junk.maxScore, a.junk.index, scored) && (scored ==> a.junk.score >= 0)
  }

  /** The scan never comes out at -1. */
  lemma PickClean(c: Cluster, scored: bool, states: seq<int>, junk: Junk, a: int)
    requires c.Valid() && |states| == c.cores && c.Has(a) && states[c.idag] == -1 && (scored ==> states[a] >= 0)
    requires !Harmful(junk.maxScore, junk.index, scored)
    ensures Pick(states, junk) != -1
  {
    PickExact(states, junk);
    assert junk.maxScore < -1 ==> Beats(states, junk, c.idag);
    assert scored && junk.maxScore < 0 ==> Beats(states, junk, a);
  }

  lemma FanLike(template: Msg, to: set<int>, k: nat, m: Msg)
    requires m in Fan(template, to, k)
    ensures m == template.(dst := m.dst)
  {
    FanHas(template, to, k, m);
    assert m in multiset(Fan(template, to, k));
  }

  /** What a handler leaves behind and sends. */
  lemma HandleClean(c: Cluster, scored: bool, nd: Node, m: Msg, score: nat, junk: Junk)
    requires c.Valid() && c.Has(m.src) && NodeOk(c, nd) && MsgOk(scored, m) && (m.Reply() ==> nd.started)
    requires Tame(Deliver(m, score, junk), scored)
    ensures var e := Handle(c, nd, m, score, junk);
            NodeOk(c, e.node) && forall x | x in e.out :: MsgOk(scored, x)
  {
    var e := Handle(c, nd, m, score, junk);
    match m
    case NoPrevious(a, me, sc) => NoPreviousClean(c, scored, nd, m, score, junk);
    case Promise(a, me, n, v, sc) => PromiseClean(c, scored, nd, m, score, junk);
    case Accepted(a, me, v) =>
      forall x | x in e.out
        ensures MsgOk(scored, x)
      {
        if x != Learn(me, me, v, c.idag) {
          FanLike(Learn(me, 0, v, c.idag), c.AllBut(me), c.cores, x);
        }
      }
    case _ =>
  }

  lemma PromiseClean(c: Cluster, scored: bool, nd: Node, m: Msg, score: nat, junk: Junk)
    requires c.Valid() && c.Has(m.src) && NodeOk(c, nd) && MsgOk(scored, m) && m.Promise? && nd.started
    ensures var e := Handle(c, nd, m, score, junk);
            NodeOk(c, e.node) && forall x | x in e.out :: MsgOk(scored, x)
  {
    var e := Handle(c, nd, m, score, junk);
    forall x | x in e.out
      ensures MsgOk(scored, x)
    {
      FanLike(AcceptRequest(m.dst, 0, nd.ballot, e.node.repliedV), c.Members(), c.cores, x);
    }
  }

  lemma NoPreviousClean(c: Cluster, scored: bool, nd: Node, m: Msg, score: nat, junk: Junk)
    requires c.Valid() && c.Has(m.src) && NodeOk(c, nd) && MsgOk(scored, m) && m.NoPrevious? && nd.started
    requires Tame(Deliver(m, score, junk), scored)
    ensures var e := Handle(c, nd, m, score, junk);
            NodeOk(c, e.node) && forall x | x in e.out :: MsgOk(scored, x)
  {
    var e := Handle(c, nd, m, score, junk);
    PickClean(c, scored, nd.states[m.src := m.score], junk, m.src);
    forall x | x in e.out
      ensures MsgOk(scored, x)
    {
      FanLike(AcceptRequest(m.dst, 0, nd.ballot, e.node.repliedV), c.Members(), c.cores, x);
    }
  }

  lemma NextClean(c: Cluster, scored: bool, s: State, a: Action)
    requires Clean(c, scored, s) && Enabled(c, s, a) && Tame(a, scored)
    ensures Clean(c, scored, Next(c, s, a))
  {
    StepHistory(c, s, a);
    match a
    case Suspect(p) =>
      forall x | x in OnInit(c, p, s.nodes[p], |s.owners|).out
        ensures MsgOk(scored, x)
      {
        FanLike(Prepare(p, 0, |s.owners|), c.Members(), c.cores, x);
      }
    case Deliver(m, score, junk) => HandleClean(c, scored, s.nodes[m.dst], m, score, junk);
  }

  lemma {:induction false} RunClean(c: Cluster, scored: bool, states: seq<State>, actions: seq<Action>)
    requires Run(c, states, actions) && forall i | 0 <= i < |actions| :: Tame(actions[i], scored)
    ensures Clean(c, scored, states[|actions|])
  {
    if actions != [] {
      var n := |actions| - 1;
      var before, act := states[..n + 1], actions[..n];
      forall i | 0 <= i < |act|
        ensures Shape(c, before[i]) && Enabled(c, before[i], act[i]) && before[i + 1] == Next(c, before[i], act[i])
        ensures Tame(act[i], scored)
      {
        assert before[i] == states[i] && act[i] == actions[i] && before[i + 1] == states[i + 1];
      }
      RunClean(c, scored, before, act);
      NextClean(c, scored, states[n], actions[n]);
    }
  }

  // ---------------------------------------------------------------- exactly when

  /** What may be found at a call: pairs of values that `max_score` and `index` hold when a scan begins, the scores that
      `leader_preference` can return, and whether the unassigned `score` is at least not negative. */
  datatype World = World(starts: iset<(int, int)>, scores: iset<nat>, scored: bool)

  ghost predicate Allowed(a: Action, w: World) {
    a.Deliver? ==> (a.junk.maxScore, a.junk.index) in w.starts && a.score in w.scores && (w.scored ==> a.junk.score >= 0)
  }

  /** A run in which every call finds one of the pairs, another one every time if need be. */
  ghost predicate WorldRun(c: Cluster, w: World, states: seq<State>, actions: seq<Action>) {
    Run(c, states, actions) && forall i | 0 <= i < |actions| :: Allowed(actions[i], w)
  }

  /** All announcements carry one core. */
  ghost predicate OneCore(s: State) {
    forall x: Msg, y: Msg | x in s.sent && y in s.sent && x.Learn? && y.Learn? :: x.v == y.v
  }

  ghost predicate AlwaysOne(c: Cluster, w: World) {
    forall states: seq<State>, actions: seq<Action> | WorldRun(c, w, states, actions) :: OneCore(states[|actions|])
  }

  ghost predicate Harmless(w: World) {
    forall p | p in w.starts :: !Harmful(p.0, p.1, w.scored)
  }

  lemma AgreesIf(c: Cluster, w: World)
    requires c.Valid() && QuorumsMeet(c) && Harmless(w)
    ensures AlwaysOne(c, w)
  {
    forall states: seq<State>, actions: seq<Action> | WorldRun(c, w, states, actions)
      ensures OneCore(states[|actions|])
    {
      forall i | 0 <= i < |actions|
        ensures Tame(actions[i], w.scored)
      {
        assert Allowed(actions[i], w);
      }
      RunClean(c, w.scored, states, actions);
      forall x: Msg, y: Msg | x in states[|actions|].sent && y in states[|actions|].sent && x.Learn? && y.Learn?
        ensures x.v == y.v
      {
        Agreement(c, states, actions, x, y);
      }
    }
  }

  lemma NotAlways(c: Cluster, w: World, st: Stale, s: State, x: Msg, y: Msg)
    requires (st.maxScore, st.index) in w.starts && st.first in w.scores && st.scored == w.scored
    requires Reachable(c, st, s) && Disagree(c, s, x, y)
    ensures !AlwaysOne(c, w)
  {
    var states, actions :| Ends(c, st, states, actions, s);
    forall i | 0 <= i < |actions|
      ensures Allowed(actions[i], w)
    {
      assert Uses(actions[i], st);
    }
    assert WorldRun(c, w, states, actions);
    assert !OneCore(states[|actions|]);
  }

  /** Over every run of a cluster with enough members to decide, whichever of the pairs a call finds and whatever the
      scores of first answers can be, all announcements carry one core if and only if two majorities always meet and from
      no pair the scan can come out at -1: `index` does not hold -1, or `max_score` starts below -1, or it is negative and
      so is no score. The fixed majority is four. */
  lemma AgreementIff(c: Cluster, w: World)
    requires c.Valid() && |c.Members()| >= 4 && w.starts != iset{} && w.scores != iset{}
    ensures AlwaysOne(c, w) <==>
              && |c.Members()| < 8
              && forall p | p in w.starts :: p.1 != -1 || p.0 < -1 || (w.scored && p.0 < 0)
  {
    var f :| f in w.scores;
    if !QuorumsMeet(c) {
      var p :| p in w.starts;
      var s, x, y := Split(c, Stale(p.0, p.1, w.scored, f));
      NotAlways(c, w, Stale(p.0, p.1, w.scored, f), s, x, y);
    } else if p :| p in w.starts && Harmful(p.0, p.1, w.scored) {
      var s, x, y := Disagreement(c, Stale(p.0, p.1, w.scored, f));
      NotAlways(c, w, Stale(p.0, p.1, w.scored, f), s, x, y);
    } else {
      AgreesIf(c, w);
    }
  }
}
