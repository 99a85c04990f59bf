/** The controller election of `paxos_signal_handlers.c`: what every handler does to a core's records, and the
    protocol that results when the handlers run over a network that reorders messages freely. */
module Paxos {

  const CLUSTER_SIZE := 6

  function Majority(cores: nat): nat {
    cores / 2 + 1
  }

  /** The mesh seen by one cluster: `mask[i]` is the controller of core `i`, `idag` the controller
      whose failure is being repaired. */
  datatype Cluster = Cluster(cores: nat, mask: seq<int>, idag: int) {
    ghost predicate Valid() {
      |mask| == cores && 0 <= idag < cores && mask[idag] == idag
    }

    predicate Has(i: int)
      requires |mask| == cores
    {
      0 <= i < cores && i != idag && mask[i] == idag
    }

    ghost function Members(): set<int>
      requires |mask| == cores
    {
      set i | 0 <= i < cores && Has(i)
    }

    predicate Other(i: int, me: int) {
      0 <= i < cores && i != idag && i != me
    }

    ghost function AllBut(me: int): set<int> {
      set i | 0 <= i < cores && Other(i, me)
    }
  }

  datatype Msg =
    | Prepare(src: int, dst: int, n: int)
    | NoPrevious(src: int, dst: int, score: int)
    | Promise(src: int, dst: int, accN: int, accV: int, score: int)
    | AcceptRequest(src: int, dst: int, n: int, v: int)
    | Accepted(src: int, dst: int, v: int)
    | Learn(src: int, dst: int, v: int, failed: int)
  {
    predicate Reply() {
      NoPrevious? || Promise?
    }

    /** Ballot and value an answer to PREPARE_REQUEST reports; NO_PREVIOUS carries -1 in both slots. */
    function RepN(): int
      requires Reply()
    {
      if Promise? then accN else -1
    }

    function RepV(): int
      requires Reply()
    {
      if Promise? then accV else -1
    }
  }

  /** One core: `acceptor_vars`, `proposer_vars` and the two "already sent" flags. */
  datatype Node = Node(
    accN: int, accV: int, promised: int,
    started: bool, ballot: int,
    repliedN: int, repliedV: int, coresPromised: int, coresAccepted: int, states: seq<int>,
    acceptSent: bool, learnSent: bool, halted: bool)

  const FRESH_NODE := Node(-1, -1, -1, false, -1, -1, -1, 0, 0, [], false, false, false)

  /** What the handlers read from variables they never assign: the starting `max_score` and `index` of
      the NO_PREVIOUS handler and the `score` of the second and third PREPARE_REQUEST branches. */
  datatype Junk = Junk(maxScore: int, index: int, score: int)

  datatype Effect = Effect(node: Node, out: seq<Msg>)

  // ---------------------------------------------------------------- handlers

  /** One copy of `template` for every core of `to` below `k`, in core order. */
  ghost function Fan(template: Msg, to: set<int>, k: nat): seq<Msg> {
    if k == 0 then []
    else Fan(template, to, k - 1) + (if k - 1 in to then [template.(dst := k - 1)] else [])
  }

  ghost function OnInit(c: Cluster, me: int, nd: Node, ballot: int): Effect
    requires c.Valid()
  {
    Effect(nd.(started := true, ballot := ballot, states := seq(c.cores, _ => -1)),
           Fan(Prepare(me, 0, ballot), c.Members(), c.cores))
  }

  function OnPrepare(me: int, nd: Node, src: int, n: int, score: int, junk: Junk): Effect {
    if nd.promised > n then
      Effect(nd, [])
    else if nd.promised == -1 then
      Effect(nd.(promised := n), [NoPrevious(me, src, score)])
    else if nd.promised < n then
      Effect(nd.(promised := n),
             if nd.accV == -1 then [NoPrevious(me, src, junk.score)]
             else [Promise(me, src, nd.accN, nd.accV, junk.score)])
    else
      Effect(nd, [])
  }

  /** The scan for the best core: running maximum and index after looking at cores below `k`. */
  function Scan(states: seq<int>, junk: Junk, k: nat): (int, int)
    requires k <= |states|
  {
    if k == 0 then (junk.maxScore, junk.index)
    else
      var (best, at) := Scan(states, junk, k - 1);
      if states[k - 1] > best then (states[k - 1], k - 1) else (best, at)
  }

  function Pick(states: seq<int>, junk: Junk): int {
    Scan(states, junk, |states|).1
  }

  ghost function SendAccepts(c: Cluster, me: int, nd: Node, v: int): Effect
    requires c.Valid()
  {
    Effect(nd.(acceptSent := true, repliedV := v),
           Fan(AcceptRequest(me, 0, nd.ballot, v), c.Members(), c.cores))
  }

  ghost function OnNoPrevious(c: Cluster, me: int, nd: Node, src: int, score: int, junk: Junk): Effect
    requires c.Valid() && |nd.states| == c.cores && 0 <= src < c.cores
  {
    var nd1 := nd.(states := nd.states[src := score], coresPromised := nd.coresPromised + 1);
    if nd1.coresPromised >= Majority(CLUSTER_SIZE) && !nd1.acceptSent then
      SendAccepts(c, me, nd1, if nd1.repliedV == -1 then Pick(nd1.states, junk) else nd1.repliedV)
    else
      Effect(nd1, [])
  }

  ghost function OnPromise(c: Cluster, me: int, nd: Node, src: int, n: int, v: int, score: int): Effect
    requires c.Valid() && |nd.states| == c.cores && 0 <= src < c.cores
  {
    var nd1 := nd.(states := nd.states[src := score], coresPromised := nd.coresPromised + 1);
    var nd2 := if n > nd1.repliedN then nd1.(repliedN := n, repliedV := v) else nd1;
    if nd2.coresPromised >= Majority(CLUSTER_SIZE) && !nd2.acceptSent then
      SendAccepts(c, me, nd2, nd2.repliedV)
    else
      Effect(nd2, [])
  }

  function OnAcceptRequest(me: int, nd: Node, src: int, n: int, v: int): Effect {
    if n < nd.promised then Effect(nd, [])
    else Effect(nd.(accN := n, accV := v, promised := n), [Accepted(me, src, v)])
  }

  ghost function OnAccepted(c: Cluster, me: int, nd: Node, v: int): Effect
    requires c.Valid()
  {
    var nd1 := nd.(coresAccepted := nd.coresAccepted + 1);
    if nd1.coresAccepted >= Majority(CLUSTER_SIZE) && !nd1.learnSent then
      Effect(nd1.(learnSent := true),
             [Learn(me, me, v, c.idag)] + Fan(Learn(me, 0, v, c.idag), c.AllBut(me), c.cores))
    else
      Effect(nd1, [])
  }

  /** The LEARN handler leaves the program on its first lines. */
  function OnLearn(nd: Node): Effect {
    Effect(nd.(halted := true), [])
  }

  // ---------------------------------------------------------------- protocol

  /** The election as a whole. `net` holds the messages in flight. The remaining fields are history:
      every message sent so far, the cores that drew ballots 0, 1, ... from the locked global counter,
      and per proposer the answers and votes it has received and the value it asked to accept. */
  datatype State = State(
    nodes: seq<Node>, net: multiset<Msg>,
    sent: set<Msg>, owners: seq<int>,
    inbox: seq<map<int, Msg>>, voters: seq<set<int>>, proposed: seq<int>)

  ghost function Start(c: Cluster): State {
    State(seq(c.cores, _ => FRESH_NODE), multiset{}, {}, [],
          seq(c.cores, _ => map[]), seq(c.cores, _ => {}), seq(c.cores, _ => -1))
  }

  /** A core suspects the controller and proposes, or a message arrives. */
  datatype Action = Suspect(p: int) | Deliver(m: Msg, score: nat, junk: Junk)

  ghost predicate Shape(c: Cluster, s: State) {
    && c.Valid()
    && |s.nodes| == |s.inbox| == |s.voters| == |s.proposed| == c.cores
    && (forall i | 0 <= i < c.cores && s.nodes[i].started :: |s.nodes[i].states| == c.cores)
  }

  ghost predicate Enabled(c: Cluster, s: State, a: Action)
    requires Shape(c, s)
  {
    match a
    case Suspect(p) => c.Has(p) && !s.nodes[p].halted && !s.nodes[p].started
    case Deliver(m, _, _) => m in s.net && c.Has(m.dst) && c.Has(m.src) && !s.nodes[m.dst].halted
                             && (m.Reply() ==> s.nodes[m.dst].started)
  }

  ghost function Handle(c: Cluster, nd: Node, m: Msg, score: nat, junk: Junk): Effect
    requires c.Valid() && c.Has(m.src) && (m.Reply() ==> |nd.states| == c.cores)
  {
    match m
    case Prepare(p, me, n) => OnPrepare(me, nd, p, n, score, junk)
    case NoPrevious(a, me, sc) => OnNoPrevious(c, me, nd, a, sc, junk)
    case Promise(a, me, n, v, sc) => OnPromise(c, me, nd, a, n, v, sc)
    case AcceptRequest(p, me, n, v) => OnAcceptRequest(me, nd, p, n, v)
    case Accepted(a, me, v) => OnAccepted(c, me, nd, v)
    case Learn(_, _, _, _) => OnLearn(nd)
  }

  ghost function AfterSuspect(c: Cluster, s: State, p: int): State
    requires Shape(c, s) && c.Has(p)
  {
    var e := OnInit(c, p, s.nodes[p], |s.owners|);
    s.(nodes := s.nodes[p := e.node], net := s.net + multiset(e.out), sent := s.sent + (set m | m in e.out),
       owners := s.owners + [p])
  }

  ghost function AfterDeliver(c: Cluster, s: State, m: Msg, score: nat, junk: Junk): State
    requires Shape(c, s) && Enabled(c, s, Deliver(m, score, junk))
  {
    var me := m.dst;
    var e := Handle(c, s.nodes[me], m, score, junk);
    State(s.nodes[me := e.node], s.net - multiset{m} + multiset(e.out), s.sent + (set x | x in e.out), s.owners,
          if m.Reply() then s.inbox[me := s.inbox[me][m.src := m]] else s.inbox,
          if m.Accepted? then s.voters[me := s.voters[me] + {m.src}] else s.voters,
          if e.node.acceptSent && !s.nodes[me].acceptSent then s.proposed[me := e.node.repliedV] else s.proposed)
  }

  ghost function Next(c: Cluster, s: State, a: Action): State
    requires Shape(c, s) && Enabled(c, s, a)
  {
    match a
    case Suspect(p) => AfterSuspect(c, s, p)
    case Deliver(m, score, junk) => AfterDeliver(c, s, m, score, junk)
  }

  /** A run: states joined by enabled actions, beginning with nobody having proposed. */
  ghost predicate Run(c: Cluster, states: seq<State>, actions: seq<Action>) {
    && |states| == |actions| + 1
    && c.Valid()
    && states[0] == Start(c)
    && forall i | 0 <= i < |actions| ::
         Shape(c, states[i]) && Enabled(c, states[i], actions[i]) && states[i + 1] == Next(c, states[i], actions[i])
  }

  /** No proposal carries -1, the value the acceptors use for "nothing accepted yet". */
  ghost predicate NoSentinel(c: Cluster, s: State)
    requires Shape(c, s)
  {
    forall p | c.Has(p) && s.nodes[p].acceptSent :: s.proposed[p] != -1
  }
}
