/** Every step of the offer protocol keeps the number of rights to a core at most one. */
module OwnershipSteps {
  import opened CoreList
  import opened Ownership

  lemma MakeOfferKeeps(k: Cluster, s: State, g: nat, r: nat, at: seq<nat>)
    requires Inv(k, s) && Enabled(k, s, MakeOffer(g, r, at))
    ensures Inv(k, Next(k, s, MakeOffer(g, r, at)))
  {
    var t, cores := Next(k, s, MakeOffer(g, r, at)), CoresAt(s.At(g), at);
    forall c: nat, p: Place
      ensures Tokens(t, c, p) <= Tokens(s, c, p) + One(c in cores && p == InOffer(g, r))
      ensures c in cores ==> Tokens(s, c, AtNode(g)) == 1 && Tokens(t, c, AtNode(g)) == 0
    {
      ApartIs(s, c, AtNode(g), AtNode(g));
      MakeOfferTokens(s, t, g, r, at, c, p);
      MakeOfferTokens(s, t, g, r, at, c, AtNode(g));
    }
    MoveKeeps(s, t, cores, AtNode(g), InOffer(g, r));
    if !IsController(k, g) && s.At(g) != [] {
      NotItsOwn(s, g, at);
    }
    MakeOfferOwn(k, s, t, g, r, at);
  }

  lemma MakeOfferTokens(s: State, t: State, g: nat, r: nat, at: seq<nat>, c: nat, p: Place)
    requires (g, r) !in s.offers && Offerable(s.At(g), at)
    requires t == s.With(g, Marked(s.At(g), at, r)).(offers := s.offers[(g, r) := Offer(CoresAt(s.At(g), at), Sent)])
    ensures var cores := CoresAt(s.At(g), at);
            if p == AtNode(g) then Tokens(t, c, p) + Times(cores, c) == Tokens(s, c, p)
            else Tokens(t, c, p) == Tokens(s, c, p) + if p == InOffer(g, r) then Times(cores, c) else 0
  {
    FreeMarked(s.At(g), at, r, c);
  }

  lemma MakeOfferOwn(k: Cluster, s: State, t: State, g: nat, r: nat, at: seq<nat>)
    requires Valid(k) && OwnCores(k, s) && Enabled(k, s, MakeOffer(g, r, at)) && t == Next(k, s, MakeOffer(g, r, at))
    requires IsController(k, g) || s.At(g) == [] || g !in CoresAt(s.At(g), at)
    ensures OwnCores(k, t)
  {
    assert at[0] < |s.At(g)|;
    MarkedAt(s.At(g), at, r, 0);
  }

  /** A manager's own core is not among those it offers: its right to it is at the head of the list. */
  lemma NotItsOwn(s: State, g: nat, at: seq<nat>)
    requires Unique(s) && s.At(g) != [] && s.At(g)[0] == Entry(g, NOBODY) && Offerable(s.At(g), at)
    ensures g !in CoresAt(s.At(g), at)
  {
    var cores := CoresAt(s.At(g), at);
    forall x | 0 <= x < |at|
      ensures cores[x] != g
    {
      if cores[x] == g {
        FreeTwice(s.At(g), 0, at[x], g);
        ApartIs(s, g, AtNode(g), AtNode(g));
      }
    }
  }

  lemma OfferHandsOn(k: Cluster, s: State, t: State, a: Action, c: nat, p: Place)
    requires Valid(k) && Enabled(k, s, a) && (a.TakeOffer? || a.Stray? || a.RefuseAll?) && t == Next(k, s, a)
    ensures Tokens(t, c, p) == Tokens(s, c, p)
  {
  }

  /** Steps that only say what becomes of an offer that is not accepted. */
  lemma OfferMovesOn(k: Cluster, s: State, a: Action)
    requires Inv(k, s) && Enabled(k, s, a) && (a.TakeOffer? || a.Stray? || a.RefuseAll?)
    ensures Inv(k, Next(k, s, a))
  {
    var t := Next(k, s, a);
    forall c, p
      ensures Tokens(t, c, p) <= Tokens(s, c, p)
    {
      OfferHandsOn(k, s, t, a, c, p);
    }
    MoveKeeps(s, t, [], AtNode(0), AtNode(0));
  }

  /** An offer accepted and the others of the kind refused: the accepted cores leave their offer. */
  lemma DecidedTokens(s: State, t: State, r: nat, g: nat, forInit: bool, c: nat, p: Place)
    requires Unique(s) && OpenWith(s, g, r, Held(forInit))
    requires t.offers == Decided(s.offers, r, forInit)[(g, r) := Offer(s.offers[(g, r)].cores, Accepted)]
    ensures p.InOffer? ==> Tokens(t, c, p) == if p == InOffer(g, r) then 0 else Tokens(s, c, p)
    ensures Tokens(s, c, InOffer(g, r)) == One(c in s.offers[(g, r)].cores)
  {
    ApartIs(s, c, InOffer(g, r), InOffer(g, r));
  }

  /** Where the cores of an offer accepted for a new application go. */
  ghost function InitPlace(s: State, r: nat, g: nat, agent: nat): Place
    requires (g, r) in s.offers
  {
    if agent == r then AtNode(r) else InInit(Init(agent, s.offers[(g, r)].cores))
  }

  lemma ChooseInitKeeps(k: Cluster, s: State, r: nat, g: nat, agent: nat)
    requires Inv(k, s) && Enabled(k, s, ChooseInit(r, g, agent))
    ensures Inv(k, Next(k, s, ChooseInit(r, g, agent)))
  {
    var t, cores := Next(k, s, ChooseInit(r, g, agent)), s.offers[(g, r)].cores;
    var to := InitPlace(s, r, g, agent);
    forall c: nat, p: Place
      ensures Tokens(t, c, p) <= Tokens(s, c, p) + One(c in cores && p == to)
      ensures c in cores ==> Tokens(s, c, InOffer(g, r)) == 1 && Tokens(t, c, InOffer(g, r)) == 0
    {
      DecidedTokens(s, t, r, g, true, c, InOffer(g, r));
      ChooseInitTokens(k, s, t, r, g, agent, c, p);
    }
    MoveKeeps(s, t, cores, InOffer(g, r), to);
    DecidedOwn(k, s, t, r, g, true);
  }

  lemma ChooseInitTokens(k: Cluster, s: State, t: State, r: nat, g: nat, agent: nat, c: nat, p: Place)
    requires Inv(k, s) && Enabled(k, s, ChooseInit(r, g, agent)) && t == Next(k, s, ChooseInit(r, g, agent))
    ensures Tokens(t, c, p) <= Tokens(s, c, p) + One(c in s.offers[(g, r)].cores && p == InitPlace(s, r, g, agent))
  {
    var cores := s.offers[(g, r)].cores;
    DecidedTokens(s, t, r, g, true, c, InOffer(g, r));
    if p.InOffer? {
      DecidedTokens(s, t, r, g, true, c, p);
    } else if agent == r {
      BecameAgent(s, t, r, cores, c, p);
    } else {
      SentInit(s, t, Init(agent, cores), c, p);
    }
  }

  lemma BecameAgent(s: State, t: State, r: nat, cores: seq<nat>, c: nat, p: Place)
    requires !p.InOffer? && r in cores && Times(cores, c) <= 1
    requires t.inits == s.inits && t.finishing == s.finishing
    requires t.lists == s.With(r, s.At(r) + [Entry(r, NOBODY)] + Fresh(cores, r)).lists
    ensures Tokens(t, c, p) == Tokens(s, c, p) + One(c in cores && p == AtNode(r))
  {
    JoinedFree(s.At(r), cores, r, c);
  }

  lemma SentInit(s: State, t: State, msg: Init, c: nat, p: Place)
    requires !p.InOffer? && Times(msg.cores, c) <= 1
    requires t.inits == s.inits + {msg} && t.finishing == s.finishing && t.lists == s.lists
    ensures Tokens(s, c, p) <= Tokens(t, c, p) <= Tokens(s, c, p) + One(c in msg.cores && p == InInit(msg))
  {
  }

  lemma DecidedOwn(k: Cluster, s: State, t: State, r: nat, g: nat, forInit: bool)
    requires OwnCores(k, s) && OpenWith(s, g, r, Held(forInit)) && !IsController(k, r)
    requires t.offers == Decided(s.offers, r, forInit)[(g, r) := Offer(s.offers[(g, r)].cores, Accepted)]
    requires forall n | n != r :: t.At(n) == s.At(n)
    requires t.At(r) != [] ==> t.At(r)[0] == if s.At(r) == [] then Entry(r, NOBODY) else s.At(r)[0]
    requires forall msg | msg in t.inits :: msg in s.inits || msg.agent in msg.cores
    ensures OwnCores(k, t)
  {
  }

  /** An agent's list: itself, and the other cores of its application. */
  lemma JoinedFree(l: List, cores: seq<nat>, self: nat, c: nat)
    requires self in cores && Times(cores, c) <= 1
    ensures Free(l + [Entry(self, NOBODY)] + Fresh(cores, self), c) == Free(l, c) + One(c in cores)
  {
    FreeFresh(cores, self, c);
    FreeJoin(l + [Entry(self, NOBODY)], Fresh(cores, self), c);
    FreeJoin(l, [Entry(self, NOBODY)], c);
  }

  lemma ChooseSelfKeeps(k: Cluster, s: State, r: nat, g: nat)
    requires Inv(k, s) && Enabled(k, s, ChooseSelf(r, g))
    ensures Inv(k, Next(k, s, ChooseSelf(r, g)))
  {
    var t, cores := Next(k, s, ChooseSelf(r, g)), s.offers[(g, r)].cores;
    forall c: nat, p: Place
      ensures Tokens(t, c, p) <= Tokens(s, c, p) + One(c in cores && p == AtNode(r))
      ensures c in cores ==> Tokens(s, c, InOffer(g, r)) == 1 && Tokens(t, c, InOffer(g, r)) == 0
    {
      DecidedTokens(s, t, r, g, false, c, InOffer(g, r));
      ChooseSelfTokens(k, s, t, r, g, c, p);
    }
    MoveKeeps(s, t, cores, InOffer(g, r), AtNode(r));
    DecidedOwn(k, s, t, r, g, false);
  }

  lemma ChooseSelfTokens(k: Cluster, s: State, t: State, r: nat, g: nat, c: nat, p: Place)
    requires Inv(k, s) && Enabled(k, s, ChooseSelf(r, g)) && t == Next(k, s, ChooseSelf(r, g))
    ensures Tokens(t, c, p) <= Tokens(s, c, p) + One(c in s.offers[(g, r)].cores && p == AtNode(r))
  {
    var cores := s.offers[(g, r)].cores;
    DecidedTokens(s, t, r, g, false, c, InOffer(g, r));
    match p
    case InOffer(_, _) => DecidedTokens(s, t, r, g, false, c, p);
    case AtNode(n) =>
      FreeFresh(cores, -1, c);
      FreeJoin(s.At(r), Fresh(cores, -1), c);
    case _ =>
  }

  /** A reject or a refusal brings the offered cores back to the giver; an acceptance finds them gone. */
  lemma AnswerKeeps(k: Cluster, s: State, a: Action)
    requires Inv(k, s) && Enabled(k, s, a) && (a.TakeReject? || a.TakeAnswer?)
    ensures Inv(k, Next(k, s, a))
  {
    var t, o, g, r := Next(k, s, a), s.offers[(a.g, a.r)], a.g, a.r;
    var cores := if o.status == Accepted then [] else o.cores;
    forall c: nat, p: Place
      ensures Tokens(t, c, p) <= Tokens(s, c, p) + One(c in cores && p == AtNode(g))
      ensures c in cores ==> Tokens(s, c, InOffer(g, r)) == 1 && Tokens(t, c, InOffer(g, r)) == 0
    {
      ApartIs(s, c, InOffer(g, r), InOffer(g, r));
      AnswerTokens(k, s, t, a, c, p);
    }
    MoveKeeps(s, t, cores, InOffer(g, r), AtNode(g));
    AnswerOwn(k, s, t, a);
  }

  lemma AnswerTokens(k: Cluster, s: State, t: State, a: Action, c: nat, p: Place)
    requires Inv(k, s) && Enabled(k, s, a) && (a.TakeReject? || a.TakeAnswer?) && t == Next(k, s, a)
    ensures var o := s.offers[(a.g, a.r)];
            Tokens(t, c, p) <= Tokens(s, c, p) + One(o.status != Accepted && c in o.cores && p == AtNode(a.g))
  {
    var o, l := s.offers[(a.g, a.r)], s.At(a.g);
    ApartIs(s, c, InOffer(a.g, a.r), InOffer(a.g, a.r));
    if p == AtNode(a.g) {
      if o.status == Accepted {
        FreeDropped(l, o.cores, c);
      } else {
        FreeBack(l, o.cores, a.r, a.TakeAnswer?, c);
      }
    }
  }

  lemma AnswerOwn(k: Cluster, s: State, t: State, a: Action)
    requires Valid(k) && OwnCores(k, s) && Enabled(k, s, a) && (a.TakeReject? || a.TakeAnswer?) && t == Next(k, s, a)
    ensures OwnCores(k, t)
  {
    forall m: nat | !IsController(k, m) && t.At(m) != []
      ensures t.At(m)[0] == Entry(m, NOBODY)
    {
      if m == a.g {
        AnswerHead(k, s, t, a);
      }
    }
  }

  lemma AnswerHead(k: Cluster, s: State, t: State, a: Action)
    requires Valid(k) && OwnCores(k, s) && Enabled(k, s, a) && (a.TakeReject? || a.TakeAnswer?) && t == Next(k, s, a)
    requires !IsController(k, a.g) && t.At(a.g) != []
    ensures t.At(a.g)[0] == Entry(a.g, NOBODY)
  {
    var o, l := s.offers[(a.g, a.r)], s.At(a.g);
    if l == [] {
      DropNone(o.cores);
    } else if o.status == Accepted {
      HeadStays(l, o.cores);
    } else {
      BackHead(l, o.cores, a.r, a.TakeAnswer?);
    }
  }

  lemma StartAgentKeeps(k: Cluster, s: State, msg: Init, managing: bool)
    requires Inv(k, s) && Enabled(k, s, StartAgent(msg, managing))
    ensures Inv(k, Next(k, s, StartAgent(msg, managing)))
  {
    var t := Next(k, s, StartAgent(msg, managing));
    forall c: nat, p: Place
      ensures Tokens(t, c, p) <= Tokens(s, c, p) + One(c in msg.cores && p == AtNode(msg.agent))
      ensures c in msg.cores ==> Tokens(s, c, InInit(msg)) == 1 && Tokens(t, c, InInit(msg)) == 0
    {
      ApartIs(s, c, InInit(msg), InInit(msg));
      StartAgentTokens(k, s, t, msg, managing, c, p);
    }
    MoveKeeps(s, t, msg.cores, InInit(msg), AtNode(msg.agent));
  }

  lemma StartAgentTokens(k: Cluster, s: State, t: State, msg: Init, managing: bool, c: nat, p: Place)
    requires Valid(k) && Enabled(k, s, StartAgent(msg, managing)) && t == Next(k, s, StartAgent(msg, managing))
    requires msg.agent in msg.cores && Times(msg.cores, c) <= 1
    ensures Tokens(t, c, p) <= Tokens(s, c, p) + One(c in msg.cores && p == AtNode(msg.agent))
  {
    AgentLists(s, t, msg, if managing then [] else s.At(msg.agent), c, p);
  }

  lemma AgentLists(s: State, t: State, msg: Init, kept: List, c: nat, p: Place)
    requires msg.agent in msg.cores && Times(msg.cores, c) <= 1 && (kept == [] || kept == s.At(msg.agent))
    requires t.lists == s.With(msg.agent, kept + [Entry(msg.agent, NOBODY)] + Fresh(msg.cores, msg.agent)).lists
    requires t.offers == s.offers && t.finishing == s.finishing && t.inits == s.inits - {msg}
    ensures Tokens(t, c, p) <= Tokens(s, c, p) + One(c in msg.cores && p == AtNode(msg.agent))
  {
    JoinedFree(kept, msg.cores, msg.agent, c);
  }

  lemma EndKeeps(k: Cluster, s: State, m: nat)
    requires Inv(k, s) && Enabled(k, s, End(m))
    ensures Inv(k, Next(k, s, End(m)))
  {
    var t, cores := Next(k, s, End(m)), CoresOf(s.At(m));
    forall c: nat, p: Place
      ensures Tokens(t, c, p) <= Tokens(s, c, p) + One(c in cores && p == InFinish(m))
      ensures c in cores ==> Tokens(s, c, AtNode(m)) == 1 && Tokens(t, c, AtNode(m)) == 0
    {
      EndTokens(k, s, t, m, c, p);
    }
    MoveKeeps(s, t, cores, AtNode(m), InFinish(m));
  }

  lemma EndTokens(k: Cluster, s: State, t: State, m: nat, c: nat, p: Place)
    requires Inv(k, s) && Enabled(k, s, End(m)) && t == Next(k, s, End(m))
    ensures Tokens(t, c, p) <= Tokens(s, c, p) + One(c in CoresOf(s.At(m)) && p == InFinish(m))
    ensures c in CoresOf(s.At(m)) ==> Tokens(s, c, AtNode(m)) == 1 && Tokens(t, c, AtNode(m)) == 0
  {
    var l := s.At(m);
    var cores := CoresOf(l);
    if c in cores {
      var i :| 0 <= i < |l| && cores[i] == c;
      assert l[i] == Entry(c, NOBODY);
      FreeIs(l, c);
      ApartIs(s, c, AtNode(m), AtNode(m));
    }
    forall e | e in l
      ensures e.core in cores
    {
      HasCore(l, e);
    }
  }

  lemma TakeFinishKeeps(k: Cluster, s: State, m: nat, c: nat)
    requires Inv(k, s) && Enabled(k, s, TakeFinish(m, c))
    ensures Inv(k, Next(k, s, TakeFinish(m, c)))
  {
    var t, h := Next(k, s, TakeFinish(m, c)), k.home[c];
    forall x: nat, p: Place
      ensures Tokens(t, x, p) <= Tokens(s, x, p) + One(x in [c] && p == AtNode(h))
    {
      FinishTokens(s, t, h, m, c, x, p);
    }
    MoveKeeps(s, t, [c], InFinish(m), AtNode(h));
    OneListOwn(k, s, t, h);
  }

  lemma FinishTokens(s: State, t: State, h: nat, m: nat, c: nat, x: nat, p: Place)
    requires t == s.With(h, Returned(s.At(h), c, m)).(finishing := s.finishing - {(m, c)})
    ensures Tokens(t, x, p) <= Tokens(s, x, p) + One(x == c && p == AtNode(h))
  {
    FreeReturned(s.At(h), c, m, x);
  }

  /** A controller's list changes and nothing is offered or sent. */
  lemma OneListOwn(k: Cluster, s: State, t: State, h: nat)
    requires OwnCores(k, s) && IsController(k, h) && t.offers == s.offers && t.inits == s.inits
    requires forall n | n != h :: t.At(n) == s.At(n)
    ensures OwnCores(k, t)
  {
  }

  /** Directory messages never free a core, in whatever order and however late they come. */
  lemma DirectoryKeeps(k: Cluster, s: State, a: Action)
    requires Inv(k, s) && Enabled(k, s, a) && (a.AddCores? || a.RemCores?)
    ensures Inv(k, Next(k, s, a))
  {
    var t := Next(k, s, a);
    forall c: nat, p: Place
      ensures Tokens(t, c, p) <= Tokens(s, c, p)
    {
      DirectoryTokens(k, s, t, a, c, p);
    }
    MoveKeeps(s, t, [], AtNode(0), AtNode(0));
    OneListOwn(k, s, t, k.home[a.c]);
  }

  lemma DirectoryTokens(k: Cluster, s: State, t: State, a: Action, c: nat, p: Place)
    requires Valid(k) && Enabled(k, s, a) && (a.AddCores? || a.RemCores?) && t == Next(k, s, a)
    ensures var l := s.At(k.home[a.c]);
            Tokens(t, c, p) + One(p == AtNode(k.home[a.c]) && a.c == c && l[Find(l, c, 0)].to == NOBODY) == Tokens(s, c, p)
  {
    var l := s.At(k.home[a.c]);
    var to := l[Find(l, a.c, 0)].to;
    MarkTokens(s, t, k.home[a.c], a.c, if a.AddCores? then a.agent else Reassigned(to, a.was, a.now), c, p);
  }

  lemma MarkTokens(s: State, t: State, h: nat, x: nat, to: int, c: nat, p: Place)
    requires Find(s.At(h), x, 0) < |s.At(h)| && to != NOBODY
    requires t == s.With(h, s.At(h)[Find(s.At(h), x, 0) := Entry(x, to)]).(updates := t.updates)
    ensures var l := s.At(h);
            Tokens(t, c, p) + One(p == AtNode(h) && x == c && l[Find(l, x, 0)].to == NOBODY) == Tokens(s, c, p)
  {
    FreeSet(s.At(h), Find(s.At(h), x, 0), Entry(x, to), c);
  }

  lemma NextInv(k: Cluster, s: State, a: Action)
    requires Inv(k, s) && Enabled(k, s, a)
    ensures Inv(k, Next(k, s, a))
  {
    match a
    case MakeOffer(g, r, at) => MakeOfferKeeps(k, s, g, r, at);
    case TakeOffer(_, _, _) => OfferMovesOn(k, s, a);
    case Stray(_, _) => OfferMovesOn(k, s, a);
    case ChooseInit(r, g, agent) => ChooseInitKeeps(k, s, r, g, agent);
    case ChooseSelf(r, g) => ChooseSelfKeeps(k, s, r, g);
    case RefuseAll(_, _) => OfferMovesOn(k, s, a);
    case TakeReject(_, _) => AnswerKeeps(k, s, a);
    case TakeAnswer(_, _) => AnswerKeeps(k, s, a);
    case StartAgent(msg, managing) => StartAgentKeeps(k, s, msg, managing);
    case End(m) => EndKeeps(k, s, m);
    case TakeFinish(m, c) => TakeFinishKeeps(k, s, m, c);
    case AddCores(_, _) => DirectoryKeeps(k, s, a);
    case RemCores(_, _, _) => DirectoryKeeps(k, s, a);
  }
}
