/** What every run of the offer protocol keeps besides the rights: whose core is at the head of a list. */
module OwnershipTidy {
  import opened CoreList
  import opened Ownership
  import opened OwnershipSteps

  // ---------------------------------------------------------------- what else every run keeps

  /** The list begins with the node's own core, which it has only once. */
  ghost predicate Headed(l: List, n: nat) {
    l != [] ==> l[0].core == n && forall i | 0 < i < |l| :: l[i].core != n
  }

  /** No offer names a core twice, controllers head their lists, and their own cores are never anywhere else. */
  ghost predicate Tidy(k: Cluster, s: State) {
    && (forall p, c: nat | p in s.offers :: Times(s.offers[p].cores, c) <= 1)
    && (forall n: nat | IsController(k, n) :: Headed(s.At(n), n))
    && forall n: nat, p: Place | IsController(k, n) && IsAt(s, n, p) :: p == AtNode(n)
  }

  lemma StartTidy(k: Cluster, s: State)
    requires IsStart(k, s)
    ensures Tidy(k, s)
  {
    forall n: nat, p: Place | IsController(k, n) && IsAt(s, n, p)
      ensures p == AtNode(n)
    {
      StartAt(k, s, n, p);
    }
  }

  /** A step that moves no controller's own core leaves those where they are. */
  lemma HomeStays(k: Cluster, s: State, t: State, cores: seq<nat>, from: Place, to: Place)
    requires Tidy(k, s)
    requires forall c: nat | c in cores :: IsAt(s, c, from) && !(from == AtNode(c) && IsController(k, c))
    requires forall c: nat, p: Place :: Tokens(t, c, p) <= Tokens(s, c, p) + One(c in cores && p == to)
    ensures forall n: nat, p: Place | IsController(k, n) && IsAt(t, n, p) :: p == AtNode(n)
  {
    forall n: nat, p: Place | IsController(k, n) && IsAt(t, n, p)
      ensures p == AtNode(n)
    {
      assert n in cores ==> from == AtNode(n);
      assert IsAt(s, n, p);
    }
  }

  /** INIT_AGENT never comes to a node that has a list: its core would be free there. */
  lemma AgentUnlisted(k: Cluster, s: State, msg: Init)
    requires Inv(k, s) && Tidy(k, s) && msg in s.inits
    ensures !IsController(k, msg.agent) && s.At(msg.agent) == []
  {
    assert IsAt(s, msg.agent, InInit(msg));
    if s.At(msg.agent) != [] && !IsController(k, msg.agent) {
      FreeIs(s.At(msg.agent), msg.agent);
      ApartIs(s, msg.agent, InInit(msg), AtNode(msg.agent));
    }
  }

  /** No FINISH message names a controller's own core, which is at the head of its list and nowhere else. */
  lemma HeadNotGivenBack(k: Cluster, s: State, m: nat, c: nat)
    requires Tidy(k, s) && (m, c) in s.finishing
    ensures !IsController(k, c)
    ensures forall n: nat | IsController(k, n) && s.At(n) != [] :: s.At(n)[0].core != c
  {
    assert IsAt(s, c, InFinish(m));
  }

  lemma MakeOfferTidy(k: Cluster, s: State, g: nat, r: nat, at: seq<nat>)
    requires Inv(k, s) && Tidy(k, s) && Enabled(k, s, MakeOffer(g, r, at))
    ensures Tidy(k, Next(k, s, MakeOffer(g, r, at)))
  {
    var t := Next(k, s, MakeOffer(g, r, at));
    OfferHome(k, s, t, g, r, at);
    OfferTidies(k, s, t, g, r, at);
  }

  lemma OfferHome(k: Cluster, s: State, t: State, g: nat, r: nat, at: seq<nat>)
    requires Unique(s) && Tidy(k, s) && (g, r) !in s.offers && at != [] && Offerable(s.At(g), at)
    requires t == s.With(g, Marked(s.At(g), at, r)).(offers := s.offers[(g, r) := Offer(CoresAt(s.At(g), at), Sent)])
    ensures forall n: nat, p: Place | IsController(k, n) && IsAt(t, n, p) :: p == AtNode(n)
  {
    var cores := CoresAt(s.At(g), at);
    HeadNotOffered(k, s, g, at);
    forall c: nat, p: Place
      ensures Tokens(t, c, p) <= Tokens(s, c, p) + One(c in cores && p == InOffer(g, r))
      ensures Times(cores, c) <= Tokens(s, c, AtNode(g))
    {
      OfferMoves(s, t, g, r, at, c, p);
    }
    HomeStays(k, s, t, cores, AtNode(g), InOffer(g, r));
  }

  lemma OfferTidies(k: Cluster, s: State, t: State, g: nat, r: nat, at: seq<nat>)
    requires Unique(s) && Tidy(k, s) && (g, r) !in s.offers && Offerable(s.At(g), at)
    requires t == s.With(g, Marked(s.At(g), at, r)).(offers := s.offers[(g, r) := Offer(CoresAt(s.At(g), at), Sent)])
    requires forall n: nat, p: Place | IsController(k, n) && IsAt(t, n, p) :: p == AtNode(n)
    ensures Tidy(k, t)
  {
    forall c: nat
      ensures Times(CoresAt(s.At(g), at), c) <= 1
    {
      OfferMoves(s, t, g, r, at, c, AtNode(g));
    }
  }

  lemma OfferMoves(s: State, t: State, g: nat, r: nat, at: seq<nat>, c: nat, p: Place)
    requires Unique(s) && (g, r) !in s.offers && Offerable(s.At(g), at)
    requires t == s.With(g, Marked(s.At(g), at, r)).(offers := s.offers[(g, r) := Offer(CoresAt(s.At(g), at), Sent)])
    ensures Tokens(t, c, p) <= Tokens(s, c, p) + One(c in CoresAt(s.At(g), at) && p == InOffer(g, r))
    ensures Times(CoresAt(s.At(g), at), c) <= Tokens(s, c, AtNode(g)) <= 1
  {
    ApartIs(s, c, AtNode(g), AtNode(g));
    MakeOfferTokens(s, t, g, r, at, c, p);
    MakeOfferTokens(s, t, g, r, at, c, AtNode(g));
  }

  /** A controller's walk begins after the head too. */
  lemma HeadNotOffered(k: Cluster, s: State, g: nat, at: seq<nat>)
    requires Tidy(k, s) && Offerable(s.At(g), at)
    ensures IsController(k, g) ==> g !in CoresAt(s.At(g), at)
  {
  }

  lemma ChooseInitTidy(k: Cluster, s: State, r: nat, g: nat, agent: nat)
    requires Inv(k, s) && Tidy(k, s) && Enabled(k, s, ChooseInit(r, g, agent))
    ensures Tidy(k, Next(k, s, ChooseInit(r, g, agent)))
  {
    var t, cores := Next(k, s, ChooseInit(r, g, agent)), s.offers[(g, r)].cores;
    forall c: nat, p: Place
      ensures Tokens(t, c, p) <= Tokens(s, c, p) + One(c in cores && p == InitPlace(s, r, g, agent))
    {
      ChooseInitTokens(k, s, t, r, g, agent, c, p);
    }
    HomeStays(k, s, t, cores, InOffer(g, r), InitPlace(s, r, g, agent));
  }

  lemma ChooseSelfTidy(k: Cluster, s: State, r: nat, g: nat)
    requires Inv(k, s) && Tidy(k, s) && Enabled(k, s, ChooseSelf(r, g))
    ensures Tidy(k, Next(k, s, ChooseSelf(r, g)))
  {
    var t, cores := Next(k, s, ChooseSelf(r, g)), s.offers[(g, r)].cores;
    forall c: nat, p: Place
      ensures Tokens(t, c, p) <= Tokens(s, c, p) + One(c in cores && p == AtNode(r))
    {
      ChooseSelfTokens(k, s, t, r, g, c, p);
    }
    HomeStays(k, s, t, cores, InOffer(g, r), AtNode(r));
  }

  lemma AnswerTidy(k: Cluster, s: State, a: Action)
    requires Inv(k, s) && Tidy(k, s) && Enabled(k, s, a) && (a.TakeReject? || a.TakeAnswer?)
    ensures Tidy(k, Next(k, s, a))
  {
    var t, o := Next(k, s, a), s.offers[(a.g, a.r)];
    var cores := if o.status == Accepted then [] else o.cores;
    forall c: nat, p: Place
      ensures Tokens(t, c, p) <= Tokens(s, c, p) + One(c in cores && p == AtNode(a.g))
    {
      AnswerTokens(k, s, t, a, c, p);
    }
    HomeStays(k, s, t, cores, InOffer(a.g, a.r), AtNode(a.g));
  }

  lemma StartAgentTidy(k: Cluster, s: State, msg: Init, managing: bool)
    requires Inv(k, s) && Tidy(k, s) && Enabled(k, s, StartAgent(msg, managing))
    ensures Tidy(k, Next(k, s, StartAgent(msg, managing)))
  {
    var t := Next(k, s, StartAgent(msg, managing));
    AgentUnlisted(k, s, msg);
    forall c: nat, p: Place
      ensures Tokens(t, c, p) <= Tokens(s, c, p) + One(c in msg.cores && p == AtNode(msg.agent))
    {
      ApartIs(s, c, InInit(msg), InInit(msg));
      StartAgentTokens(k, s, t, msg, managing, c, p);
    }
    HomeStays(k, s, t, msg.cores, InInit(msg), AtNode(msg.agent));
  }

  lemma EndTidy(k: Cluster, s: State, m: nat)
    requires Inv(k, s) && Tidy(k, s) && Enabled(k, s, End(m))
    ensures Tidy(k, Next(k, s, End(m)))
  {
    var t, cores := Next(k, s, End(m)), CoresOf(s.At(m));
    forall c: nat, p: Place
      ensures Tokens(t, c, p) <= Tokens(s, c, p) + One(c in cores && p == InFinish(m))
      ensures c in cores ==> IsAt(s, c, AtNode(m))
    {
      EndTokens(k, s, t, m, c, p);
    }
    HomeStays(k, s, t, cores, AtNode(m), InFinish(m));
  }

  lemma TakeFinishTidy(k: Cluster, s: State, m: nat, c: nat)
    requires Inv(k, s) && Tidy(k, s) && Enabled(k, s, TakeFinish(m, c))
    ensures Tidy(k, Next(k, s, TakeFinish(m, c)))
  {
    var t := Next(k, s, TakeFinish(m, c));
    forall x: nat, p: Place
      ensures Tokens(t, x, p) <= Tokens(s, x, p) + One(x in [c] && p == AtNode(k.home[c]))
    {
      FinishTokens(s, t, k.home[c], m, c, x, p);
    }
    HomeStays(k, s, t, [c], InFinish(m), AtNode(k.home[c]));
  }

  lemma OfferMovesTidy(k: Cluster, s: State, a: Action)
    requires Inv(k, s) && Tidy(k, s) && Enabled(k, s, a) && (a.TakeOffer? || a.Stray? || a.RefuseAll?)
    ensures Tidy(k, Next(k, s, a))
  {
    var t := Next(k, s, a);
    forall c: nat, p: Place
      ensures Tokens(t, c, p) <= Tokens(s, c, p)
    {
      OfferHandsOn(k, s, t, a, c, p);
    }
    HomeStays(k, s, t, [], AtNode(0), AtNode(0));
  }

  lemma DirectoryTidy(k: Cluster, s: State, a: Action)
    requires Inv(k, s) && Tidy(k, s) && Enabled(k, s, a) && (a.AddCores? || a.RemCores?)
    ensures Tidy(k, Next(k, s, a))
  {
    var t := Next(k, s, a);
    forall c: nat, p: Place
      ensures Tokens(t, c, p) <= Tokens(s, c, p)
    {
      DirectoryTokens(k, s, t, a, c, p);
    }
    HomeStays(k, s, t, [], AtNode(0), AtNode(0));
  }

  lemma NextTidy(k: Cluster, s: State, a: Action)
    requires Inv(k, s) && Tidy(k, s) && Enabled(k, s, a)
    ensures Tidy(k, Next(k, s, a))
  {
    match a
    case MakeOffer(g, r, at) => MakeOfferTidy(k, s, g, r, at);
    case ChooseInit(r, g, agent) => ChooseInitTidy(k, s, r, g, agent);
    case ChooseSelf(r, g) => ChooseSelfTidy(k, s, r, g);
    case TakeReject(_, _) => AnswerTidy(k, s, a);
    case TakeAnswer(_, _) => AnswerTidy(k, s, a);
    case StartAgent(msg, managing) => StartAgentTidy(k, s, msg, managing);
    case End(m) => EndTidy(k, s, m);
    case TakeFinish(m, c) => TakeFinishTidy(k, s, m, c);
    case AddCores(_, _) => DirectoryTidy(k, s, a);
    case RemCores(_, _, _) => DirectoryTidy(k, s, a);
    case _ => OfferMovesTidy(k, s, a);
  }
}
