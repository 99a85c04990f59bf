/** Who may use a core: the offer protocol between controllers, managers and the core that starts an application,
    with every message in flight for as long as it likes, in any order. `OwnershipRing` adds the order in which a node
    reads its signals. */
module Ownership {
  import opened CoreList

  /** `home` is the controller of each core (idag_mask); the controllers are the nodes that are their own. */
  datatype Cluster = Cluster(nodes: set<nat>, home: map<nat, nat>)

  ghost predicate Valid(k: Cluster) {
    && k.home.Keys == k.nodes
    && forall c | c in k.nodes :: k.home[c] in k.nodes && k.home[k.home[c]] == k.home[c]
  }

  predicate IsController(k: Cluster, n: nat) {
    n in k.home && k.home[n] == n
  }

  /** What becomes of an offer: on its way, with the requester, refused and the answer on its way (a stray offer is
      refused by a reject message), accepted and the answer on its way. */
  datatype Status = Sent | Held(forInit: bool) | Refused(byReject: bool) | Accepted

  datatype Offer = Offer(cores: seq<nat>, status: Status)

  /** INIT_AGENT: the chosen agent and the cores of its application. */
  datatype Init = Init(agent: nat, cores: seq<nat>)

  /** One core of a directory message on its way to the core's controller: its new agent, or the manager that has
      given it away and the node it went to. */
  datatype Update = AddMsg(core: nat, agent: nat) | RemMsg(core: nat, was: nat, now: nat)

  /** `lists[n]` is the core list of node `n`; `offers[(g, r)]` the offer that giver `g` has open with requester `r`;
      `finishing` the cores in FINISH messages on their way to the cores' controllers, each with the agent that has
      ended; `updates` the directory messages on their way. */
  datatype State = State(
    lists: map<nat, List>, offers: map<(nat, nat), Offer>, inits: set<Init>, finishing: set<(nat, nat)>,
    updates: multiset<Update>)
  {
    function At(n: nat): List {
      if n in lists then lists[n] else []
    }

    function With(n: nat, l: List): State {
      this.(lists := lists[n := l])
    }
  }

  datatype Action =
    | MakeOffer(g: nat, r: nat, at: seq<nat>)
    | TakeOffer(g: nat, r: nat, forInit: bool)
    | Stray(g: nat, r: nat)
    | ChooseInit(r: nat, g: nat, agent: nat)
    | ChooseSelf(r: nat, g: nat)
    | RefuseAll(r: nat, forInit: bool)
    | TakeReject(g: nat, r: nat)
    | TakeAnswer(g: nat, r: nat)
    | StartAgent(msg: Init, managing: bool)
    | End(m: nat)
    | TakeFinish(m: nat, c: nat)
    | AddCores(c: nat, agent: nat)
    | RemCores(c: nat, was: nat, now: nat)

  predicate OpenWith(s: State, g: nat, r: nat, status: Status) {
    (g, r) in s.offers && s.offers[(g, r)].status == status
  }

  /** Entries after the head that are offered to nobody, no entry twice. */
  predicate Offerable(l: List, at: seq<nat>) {
    Inside(at, l) && Distinct(at) && forall x | 0 <= x < |at| :: at[x] > 0 && l[at[x]].to == NOBODY
  }

  /** How many entries are offered to somebody. */
  function OfferedOut(l: List): nat {
    if l == [] then 0 else OfferedOut(l[..|l| - 1]) + One(l[|l| - 1].to != NOBODY)
  }

  /** A manager keeps its own core and the first one that works for it, and if all but two of its cores are already
      offered it offers nothing. */
  predicate CanSpare(l: List, at: seq<nat>) {
    |l| > 2 && OfferedOut(l) + 2 != |l| && forall x | 0 <= x < |at| :: at[x] > 1
  }

  /** Nothing but the head of the list is offered to anybody. */
  predicate AllBack(l: List) {
    forall i | 0 < i < |l| :: l[i].to == NOBODY
  }

  predicate Enabled(k: Cluster, s: State, a: Action) {
    match a
    case MakeOffer(g, r, at) =>
      // two nodes have one interaction at a time
      && g in k.nodes && r in k.nodes && g != r && (g, r) !in s.offers && (r, g) !in s.offers
      && at != [] && Offerable(s.At(g), at) && (IsController(k, g) || CanSpare(s.At(g), at))
    case TakeOffer(g, r, forInit) => OpenWith(s, g, r, Sent)
    case Stray(g, r) => OpenWith(s, g, r, Sent)
    case ChooseInit(r, g, agent) =>
      OpenWith(s, g, r, Held(true)) && agent in s.offers[(g, r)].cores && !IsController(k, r)
    case ChooseSelf(r, g) =>
      // a running application has at least its agent on the list
      OpenWith(s, g, r, Held(false)) && !IsController(k, r) && s.At(r) != []
    case RefuseAll(r, forInit) => true
    case TakeReject(g, r) => OpenWith(s, g, r, Refused(true))
    case TakeAnswer(g, r) => OpenWith(s, g, r, Refused(false)) || OpenWith(s, g, r, Accepted)
    case StartAgent(msg, managing) => msg in s.inits
    case End(m) =>
      // a manager whose application has ended waits until none of its other cores is offered to anybody
      m in k.nodes && !IsController(k, m) && s.At(m) != [] && AllBack(s.At(m))
    case TakeFinish(m, c) => (m, c) in s.finishing && c in k.home
    case AddCores(c, agent) =>
      AddMsg(c, agent) in s.updates && c in k.home && Find(s.At(k.home[c]), c, 0) < |s.At(k.home[c])|
    case RemCores(c, was, now) =>
      RemMsg(c, was, now) in s.updates && c in k.home && Find(s.At(k.home[c]), c, 0) < |s.At(k.home[c])|
  }

  /** The offers once `r` has decided: every other offer of the kind is refused. */
  function Decided(offers: map<(nat, nat), Offer>, r: nat, forInit: bool): map<(nat, nat), Offer> {
    map p | p in offers ::
      if p.1 == r && offers[p].status == Held(forInit) then offers[p].(status := Refused(false)) else offers[p]
  }

  /** What a directory message makes of the mark of a core. */
  function Reassigned(to: int, was: nat, now: nat): int {
    if to == NOBODY then now else if to == was then MOVING else to
  }

  /** ADD for each of the cores, which `agent` now manages. */
  function AddAll(cores: seq<nat>, agent: nat): multiset<Update> {
    if cores == [] then multiset{}
    else AddAll(cores[..|cores| - 1], agent) + multiset{AddMsg(cores[|cores| - 1], agent)}
  }

  /** REM for each of the cores, which `was` has given to `now`. */
  function RemAll(cores: seq<nat>, was: nat, now: nat): multiset<Update> {
    if cores == [] then multiset{}
    else RemAll(cores[..|cores| - 1], was, now) + multiset{RemMsg(cores[|cores| - 1], was, now)}
  }

  function Next(k: Cluster, s: State, a: Action): State
    requires Valid(k) && Enabled(k, s, a)
  {
    match a
    case MakeOffer(g, r, at) =>
      s.With(g, Marked(s.At(g), at, r)).(offers := s.offers[(g, r) := Offer(CoresAt(s.At(g), at), Sent)])
    case TakeOffer(g, r, forInit) =>
      s.(offers := s.offers[(g, r) := s.offers[(g, r)].(status := Held(forInit))])
    case Stray(g, r) =>
      s.(offers := s.offers[(g, r) := s.offers[(g, r)].(status := Refused(true))])
    case ChooseInit(r, g, agent) =>
      var cores := s.offers[(g, r)].cores;
      var t := s.(offers := Decided(s.offers, r, true)[(g, r) := Offer(cores, Accepted)]);
      if agent == r then
        t.With(r, s.At(r) + [Entry(r, NOBODY)] + Fresh(cores, r)).(updates := s.updates + AddAll(cores, r))
      else t.(inits := s.inits + {Init(agent, cores)})
    case ChooseSelf(r, g) =>
      var cores := s.offers[(g, r)].cores;
      s.With(r, s.At(r) + Fresh(cores, -1)).(
        offers := Decided(s.offers, r, false)[(g, r) := Offer(cores, Accepted)], updates := s.updates + AddAll(cores, r))
    case RefuseAll(r, forInit) => s.(offers := Decided(s.offers, r, forInit))
    case TakeReject(g, r) =>
      s.With(g, Back(s.At(g), s.offers[(g, r)].cores, r, false)).(offers := s.offers - {(g, r)})
    case TakeAnswer(g, r) =>
      var o := s.offers[(g, r)];
      var t := s.(offers := s.offers - {(g, r)});
      if o.status != Accepted then t.With(g, Back(s.At(g), o.cores, r, true))
      else if IsController(k, g) then t
      else t.With(g, Drop(s.At(g), o.cores)).(updates := s.updates + RemAll(o.cores, g, r))
    case StartAgent(msg, managing) =>
      // an agent that already manages an application forgets that one's cores
      var kept := if managing then [] else s.At(msg.agent);
      var l := kept + [Entry(msg.agent, NOBODY)] + Fresh(msg.cores, msg.agent);
      s.With(msg.agent, l).(inits := s.inits - {msg}, updates := s.updates + AddAll(CoresOf(l), msg.agent))
    case End(m) =>
      s.With(m, []).(finishing := s.finishing + set e | e in s.At(m) :: (m, e.core))
    case TakeFinish(m, c) =>
      s.With(k.home[c], Returned(s.At(k.home[c]), c, m)).(finishing := s.finishing - {(m, c)})
    case AddCores(c, agent) =>
      var l := s.At(k.home[c]);
      s.With(k.home[c], l[Find(l, c, 0) := Entry(c, agent)]).(updates := s.updates - multiset{AddMsg(c, agent)})
    case RemCores(c, was, now) =>
      var l := s.At(k.home[c]);
      s.With(k.home[c], l[Find(l, c, 0) := Entry(c, Reassigned(l[Find(l, c, 0)].to, was, now))]).(
        updates := s.updates - multiset{RemMsg(c, was, now)})
  }

  /** Every core at most once on its controller's list, free, the controller first; nothing in flight. */
  ghost predicate IsStart(k: Cluster, s: State) {
    && Valid(k) && s.offers == map[] && s.inits == {} && s.finishing == {} && s.updates == multiset{}
    && (forall n | n in s.lists && s.lists[n] != [] :: IsController(k, n) && s.lists[n][0].core == n)
    && (forall n, i | n in s.lists && 0 <= i < |s.lists[n]| ::
          s.lists[n][i].core in k.home && k.home[s.lists[n][i].core] == n && s.lists[n][i].to == NOBODY)
    && forall n, i, j | n in s.lists && 0 <= i < j < |s.lists[n]| :: s.lists[n][i].core != s.lists[n][j].core
  }

  // ---------------------------------------------------------------- where the right to a core is

  /** Free for the use of a node, offered and not yet accepted, on its way to a new agent, or on its way back. */
  datatype Place = AtNode(n: nat) | InOffer(g: nat, r: nat) | InInit(msg: Init) | InFinish(m: nat)

  /** How many rights to core `c` are at a place. */
  ghost function Tokens(s: State, c: nat, p: Place): nat {
    match p
    case AtNode(n) => Free(s.At(n), c)
    case InOffer(g, r) =>
      if (g, r) in s.offers && s.offers[(g, r)].status != Accepted then Times(s.offers[(g, r)].cores, c) else 0
    case InInit(msg) => if msg in s.inits then Times(msg.cores, c) else 0
    case InFinish(m) => One((m, c) in s.finishing)
  }

  ghost predicate IsAt(s: State, c: nat, p: Place) {
    Tokens(s, c, p) > 0
  }

  /** At most one right to each core. */
  ghost predicate Unique(s: State) {
    forall c, p, q :: Apart(s, c, p, q)
  }

  ghost predicate Apart(s: State, c: nat, p: Place, q: Place) {
    if p == q then Tokens(s, c, p) <= 1 else Tokens(s, c, p) + Tokens(s, c, q) <= 1
  }

  /** The list of a manager begins with its own core, free; a manager never offers that core; and an agent is one of
      its application's cores. */
  ghost predicate OwnCores(k: Cluster, s: State) {
    && (forall m: nat | !IsController(k, m) && s.At(m) != [] :: s.At(m)[0] == Entry(m, NOBODY))
    && (forall g: nat, r: nat | !IsController(k, g) && (g, r) in s.offers :: g !in s.offers[(g, r)].cores)
    && (forall msg | msg in s.inits :: msg.agent in msg.cores)
  }

  ghost predicate Inv(k: Cluster, s: State) {
    Valid(k) && Unique(s) && OwnCores(k, s)
  }

  lemma StartInv(k: Cluster, s: State)
    requires IsStart(k, s)
    ensures Inv(k, s)
  {
    forall c: nat, p: Place, q: Place
      ensures Apart(s, c, p, q)
    {
      StartAt(k, s, c, p);
      StartAt(k, s, c, q);
    }
  }

  lemma StartAt(k: Cluster, s: State, c: nat, p: Place)
    requires IsStart(k, s)
    ensures Tokens(s, c, p) <= One(c in k.home && p == AtNode(k.home[c]))
  {
    if p.AtNode? {
      var l := s.At(p.n);
      FreeIs(l, c);
      OnceListed(l, c);
      if Free(l, c) > 0 {
        var i :| 0 <= i < |l| && l[i] == Entry(c, NOBODY);
      }
    }
  }

  lemma {:induction false} OnceListed(l: List, c: nat)
    requires forall i, j | 0 <= i < j < |l| :: l[i].core != l[j].core
    ensures Free(l, c) <= 1
  {
    if l != [] {
      var m, e := l[..|l| - 1], l[|l| - 1];
      OnceListed(m, c);
      assert l == m + [e];
      FreeIs(m, c);
    }
  }

  /** A step that at most moves some rights from one place to another keeps them in one place. */
  lemma MoveKeeps(s: State, t: State, cores: seq<nat>, from: Place, to: Place)
    requires Unique(s) && (from != to || cores == [])
    requires forall c | c in cores :: Tokens(s, c, from) == 1 && Tokens(t, c, from) == 0
    requires forall c, p :: Tokens(t, c, p) <= Tokens(s, c, p) + One(c in cores && p == to)
    ensures Unique(t)
  {
    forall c, p, q
      ensures Apart(t, c, p, q)
    {
      MoveApart(s, t, c, c in cores, from, to, p, q);
    }
  }

  lemma MoveApart(s: State, t: State, c: nat, moves: bool, from: Place, to: Place, p: Place, q: Place)
    requires Unique(s)
    requires moves ==> from != to && Tokens(s, c, from) == 1 && Tokens(t, c, from) == 0
    requires forall x :: Tokens(t, c, x) <= Tokens(s, c, x) + One(moves && x == to)
    ensures Apart(t, c, p, q)
  {
    var sf, sp, sq, tp, tq := Tokens(s, c, from), Tokens(s, c, p), Tokens(s, c, q), Tokens(t, c, p), Tokens(t, c, q);
    ApartIs(s, c, p, q);
    ApartIs(s, c, from, p);
    ApartIs(s, c, from, q);
    assert tp <= sp + One(moves && p == to) && tq <= sq + One(moves && q == to);
    ApartIf(t, c, p, q, tp, tq);
  }

  lemma ApartIs(s: State, c: nat, p: Place, q: Place)
    requires Unique(s)
    ensures Tokens(s, c, p) <= 1 && (p != q ==> Tokens(s, c, p) + Tokens(s, c, q) <= 1)
  {
    assert Apart(s, c, p, q) && Apart(s, c, p, p);
  }

  lemma ApartIf(t: State, c: nat, p: Place, q: Place, tp: nat, tq: nat)
    requires tp == Tokens(t, c, p) && tq == Tokens(t, c, q) && tp <= 1 && (p != q ==> tp + tq <= 1)
    ensures Apart(t, c, p, q)
  {
  }
}
