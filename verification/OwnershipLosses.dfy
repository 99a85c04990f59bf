/** Which steps of the offer protocol lose a core, and what makes them, when every node reads its signals in order. */
module OwnershipLosses {
  import opened CoreList
  import opened Ownership
  import opened OwnershipMarks
  import opened OwnershipOnce
  import opened OwnershipRing
  import opened OwnershipSteps
  import opened OwnershipTidy

  // ---------------------------------------------------------------- what can be lost

  ghost predicate Somewhere(s: State, c: nat) {
    exists p :: IsAt(s, c, p)
  }

  /** What a directory message can do to the place of a core: it takes it away exactly when the core is free with
      its controller, as when a REM message comes after the new owner's FINISH. */
  lemma DirectoryLoses(k: Cluster, s: State, a: Action, c: nat, p: Place)
    requires Inv(k, s) && Enabled(k, s, a) && (a.AddCores? || a.RemCores?) && IsAt(s, c, p)
    ensures var l := s.At(k.home[a.c]);
            IsAt(Next(k, s, a), c, p) <==> !(a.c == c && p == AtNode(k.home[c]) && l[Find(l, c, 0)].to == NOBODY)
  {
    ApartIs(s, c, p, p);
    DirectoryTokens(k, s, Next(k, s, a), a, c, p);
  }

  /** The steps that hand a core on never lose it; INIT_AGENT is one of them. */
  lemma NothingLost(k: Cluster, s: State, a: Action, c: nat, p: Place) returns (q: Place)
    requires Inv(k, s) && Tidy(k, s) && Enabled(k, s, a) && IsAt(s, c, p)
    requires a.MakeOffer? || a.TakeOffer? || a.Stray? || a.ChooseInit? || a.ChooseSelf? || a.RefuseAll?
             || a.StartAgent? || a.End?
    ensures IsAt(Next(k, s, a), c, q)
  {
    if a.MakeOffer? {
      q := OfferHolds(k, s, a.g, a.r, a.at, c, p);
    } else if a.ChooseInit? {
      q := if p != InOffer(a.g, a.r) then p else InitPlace(s, a.r, a.g, a.agent);
      InitHandsOn(k, s, Next(k, s, a), a.r, a.g, a.agent, c, p, q);
    } else if a.ChooseSelf? {
      q := if p == InOffer(a.g, a.r) then AtNode(a.r) else p;
      SelfHandsOn(k, s, Next(k, s, a), a.r, a.g, c, p, q);
    } else if a.StartAgent? {
      q := AgentHolds(k, s, a.msg, a.managing, c, p);
    } else if a.End? {
      q := if p == AtNode(a.m) then InFinish(a.m) else p;
      EndHandsOn(k, s, a.m, c, p, q);
    } else {
      q := p;
      OfferHandsOn(k, s, Next(k, s, a), a, c, p);
    }
  }

  lemma OfferHolds(k: Cluster, s: State, g: nat, r: nat, at: seq<nat>, c: nat, p: Place) returns (q: Place)
    requires Valid(k) && Enabled(k, s, MakeOffer(g, r, at)) && IsAt(s, c, p)
    ensures IsAt(Next(k, s, MakeOffer(g, r, at)), c, q)
  {
    q := if p == AtNode(g) && c in CoresAt(s.At(g), at) then InOffer(g, r) else p;
    MakeOfferTokens(s, Next(k, s, MakeOffer(g, r, at)), g, r, at, c, q);
  }

  lemma AgentHolds(k: Cluster, s: State, msg: Init, managing: bool, c: nat, p: Place) returns (q: Place)
    requires Inv(k, s) && Tidy(k, s) && Enabled(k, s, StartAgent(msg, managing)) && IsAt(s, c, p)
    ensures IsAt(Next(k, s, StartAgent(msg, managing)), c, q)
  {
    AgentUnlisted(k, s, msg);
    ApartIs(s, c, InInit(msg), InInit(msg));
    q := if p == InInit(msg) then AtNode(msg.agent) else p;
    AgentTokens(s, Next(k, s, StartAgent(msg, managing)), msg, c, p, q);
  }

  lemma AgentTokens(s: State, t: State, msg: Init, c: nat, p: Place, q: Place)
    requires s.At(msg.agent) == [] && msg in s.inits && msg.agent in msg.cores && Times(msg.cores, c) <= 1
    requires t.lists == s.With(msg.agent, [] + [Entry(msg.agent, NOBODY)] + Fresh(msg.cores, msg.agent)).lists
    requires t.offers == s.offers && t.finishing == s.finishing && t.inits == s.inits - {msg}
    requires IsAt(s, c, p) && q == if p == InInit(msg) then AtNode(msg.agent) else p
    ensures IsAt(t, c, q)
  {
    JoinedFree([], msg.cores, msg.agent, c);
  }

  lemma EndHandsOn(k: Cluster, s: State, m: nat, c: nat, p: Place, q: Place)
    requires Valid(k) && Enabled(k, s, End(m))
    requires IsAt(s, c, p) && q == if p == AtNode(m) then InFinish(m) else p
    ensures IsAt(Next(k, s, End(m)), c, q)
  {
    if p == AtNode(m) {
      FreeIs(s.At(m), c);
      assert (m, Entry(c, NOBODY).core) in Next(k, s, End(m)).finishing;
    }
  }

  lemma InitHandsOn(k: Cluster, s: State, t: State, r: nat, g: nat, agent: nat, c: nat, p: Place, q: Place)
    requires Inv(k, s) && Enabled(k, s, ChooseInit(r, g, agent)) && t == Next(k, s, ChooseInit(r, g, agent))
    requires IsAt(s, c, p) && q == if p != InOffer(g, r) then p else InitPlace(s, r, g, agent)
    ensures IsAt(t, c, q)
  {
    DecidedTokens(s, t, r, g, true, c, InOffer(g, r));
    if q.InOffer? {
      DecidedTokens(s, t, r, g, true, c, q);
    } else if q == AtNode(r) && agent == r {
      JoinedFree(s.At(r), s.offers[(g, r)].cores, r, c);
    } else if q.InInit? && p == InOffer(g, r) {
      assert q.msg in t.inits;
    }
  }

  lemma SelfHandsOn(k: Cluster, s: State, t: State, r: nat, g: nat, c: nat, p: Place, q: Place)
    requires Inv(k, s) && Enabled(k, s, ChooseSelf(r, g)) && t == Next(k, s, ChooseSelf(r, g))
    requires IsAt(s, c, p) && q == if p == InOffer(g, r) then AtNode(r) else p
    ensures IsAt(t, c, q)
  {
    var cores := s.offers[(g, r)].cores;
    DecidedTokens(s, t, r, g, false, c, InOffer(g, r));
    DecidedTokens(s, t, r, g, false, c, q);
    FreeFresh(cores, -1, c);
    FreeJoin(s.At(r), Fresh(cores, -1), c);
  }

  /** A core given back by an ended application is free again exactly when its controller still has it down as
      that agent's; otherwise it is nobody's. */
  lemma FinishReturns(k: Cluster, s: State, m: nat, c: nat)
    requires Inv(k, s) && Enabled(k, s, TakeFinish(m, c))
    ensures var l := s.At(k.home[c]);
            Somewhere(Next(k, s, TakeFinish(m, c)), c) <==> exists j :: 0 < j < |l| && l[j] == Entry(c, m)
  {
    var t, h := Next(k, s, TakeFinish(m, c)), k.home[c];
    var l := s.At(h);
    var j := FindHeld(l, c, m, Second(l));
    OnlyPlace(s, c, InFinish(m));
    if j < |l| {
      FreeSet(l, j, Entry(c, NOBODY), c);
      assert IsAt(t, c, AtNode(h));
    } else {
      forall p: Place
        ensures !IsAt(t, c, p)
      {
        assert !IsAt(s, c, p) || p == InFinish(m);
      }
    }
  }

  lemma OnlyPlace(s: State, c: nat, p: Place)
    requires Unique(s) && IsAt(s, c, p)
    ensures forall q | IsAt(s, c, q) :: q == p
  {
    forall q | IsAt(s, c, q)
      ensures q == p
    {
      ApartIs(s, c, p, q);
    }
  }

  /** A refused core is free with its giver again exactly when its first entry after the head is still down as the
      requester's, or the refusal is a reject, which does not look. */
  lemma RefusalReturns(k: Cluster, s: State, a: Action, c: nat)
    requires Inv(k, s) && Enabled(k, s, a) && (a.TakeReject? || a.TakeAnswer?)
    requires var o := s.offers[(a.g, a.r)]; o.status != Accepted && c in o.cores
    ensures Somewhere(Next(k, s, a), c) <==> Hit(s.At(a.g), c, a.r, a.TakeAnswer?)
  {
    var t, g, r := Next(k, s, a), a.g, a.r;
    var o, l := s.offers[(g, r)], s.At(g);
    assert IsAt(s, c, InOffer(g, r));
    OnlyPlace(s, c, InOffer(g, r));
    ApartIs(s, c, InOffer(g, r), AtNode(g));
    BackFrees(l, o.cores, r, a.TakeAnswer?, c);
    if Hit(l, c, r, a.TakeAnswer?) {
      assert IsAt(t, c, AtNode(g));
    } else {
      forall p: Place
        ensures !IsAt(t, c, p)
      {
        AnswerTokens(k, s, t, a, c, p);
        assert !IsAt(s, c, p) || p == InOffer(g, r);
      }
    }
  }

  /** An offer closed, and the giver's list `l`. */
  lemma Closed(s: State, t: State, g: nat, r: nat, l: List, c: nat, p: Place)
    requires t.offers == s.offers - {(g, r)} && t.inits == s.inits && t.finishing == s.finishing
    requires forall n: nat :: t.At(n) == if n == g then l else s.At(n)
    ensures Tokens(t, c, p) ==
              if p == AtNode(g) then Free(l, c) else if p == InOffer(g, r) then 0 else Tokens(s, c, p)
  {
  }

  /** An acceptance takes the one entry of each accepted core off the giver's list, which is down as offered: no core is
      lost. */
  lemma AcceptanceKeeps(k: Cluster, s: State, g: nat, r: nat, c: nat)
    requires Inv(k, s) && Tidy(k, s) && Covered(k, s) && Tight(k, s)
    requires OpenWith(s, g, r, Accepted) && !IsController(k, g) && Somewhere(s, c)
    ensures Somewhere(Next(k, s, TakeAnswer(g, r)), c)
  {
    Dropped(s, Next(k, s, TakeAnswer(g, r)), g, r, c);
    if c in s.offers[(g, r)].cores {
      AcceptedNotFree(k, s, g, r, c);
    }
  }

  lemma Dropped(s: State, t: State, g: nat, r: nat, c: nat)
    requires Unique(s) && OpenWith(s, g, r, Accepted) && Somewhere(s, c) && Times(s.offers[(g, r)].cores, c) <= 1
    requires t.offers == s.offers - {(g, r)} && t.inits == s.inits && t.finishing == s.finishing
    requires forall n: nat :: t.At(n) == if n == g then Drop(s.At(g), s.offers[(g, r)].cores) else s.At(n)
    ensures Somewhere(t, c) <==> !(c in s.offers[(g, r)].cores && FirstFree(s.At(g), c))
  {
    var l, cores := s.At(g), s.offers[(g, r)].cores;
    var p :| IsAt(s, c, p);
    OnlyPlace(s, c, p);
    ApartIs(s, c, AtNode(g), AtNode(g));
    DropFrees(l, cores, c);
    Closed(s, t, g, r, Drop(l, cores), c, p);
    if c in cores && FirstFree(l, c) {
      FreeIs(l, c);
      assert IsAt(s, c, AtNode(g));
      forall q: Place
        ensures !IsAt(t, c, q)
      {
        Closed(s, t, g, r, Drop(l, cores), c, q);
        assert q != p ==> !IsAt(s, c, q);
      }
    } else {
      assert IsAt(t, c, p);
    }
  }

  /** An answer to an offer that the core is not in leaves it where it is. */
  lemma OtherAnswer(k: Cluster, s: State, a: Action, c: nat)
    requires Inv(k, s) && Enabled(k, s, a) && (a.TakeReject? || a.TakeAnswer?) && Somewhere(s, c)
    requires var o := s.offers[(a.g, a.r)];
             if o.status == Accepted then IsController(k, a.g) else c !in o.cores
    ensures Somewhere(Next(k, s, a), c)
  {
    var t, o := Next(k, s, a), s.offers[(a.g, a.r)];
    var p :| IsAt(s, c, p);
    FreeBack(s.At(a.g), o.cores, a.r, a.TakeAnswer?, c);
    Closed(s, t, a.g, a.r, t.At(a.g), c, p);
    assert IsAt(t, c, p);
  }

  /** A reject, which does not look at the mark, always gives the cores back. */
  lemma RejectReturns(k: Cluster, s: State, g: nat, r: nat, c: nat)
    requires Inv(k, s) && Covered(k, s) && OpenWith(s, g, r, Refused(true)) && c in s.offers[(g, r)].cores
    ensures IsAt(Next(k, s, TakeReject(g, r)), c, AtNode(g))
  {
    var o := s.offers[(g, r)];
    RejectHits(k, s, g, r, c);
    ApartIs(s, c, InOffer(g, r), InOffer(g, r));
    ApartIs(s, c, InOffer(g, r), AtNode(g));
    BackFrees(s.At(g), o.cores, r, false, c);
  }

  /** A refusal gives the cores back to a manager whose mark it finds, and it always does. */
  lemma ManagerRefused(k: Cluster, s: State, g: nat, r: nat, c: nat)
    requires Inv(k, s) && Covered(k, s) && Tight(k, s) && !IsController(k, g)
    requires OpenWith(s, g, r, Refused(false)) && c in s.offers[(g, r)].cores
    ensures IsAt(Next(k, s, TakeAnswer(g, r)), c, AtNode(g))
  {
    var o := s.offers[(g, r)];
    RefusalHits(k, s, g, r, c, true);
    ApartIs(s, c, InOffer(g, r), InOffer(g, r));
    ApartIs(s, c, InOffer(g, r), AtNode(g));
    BackFrees(s.At(g), o.cores, r, true, c);
  }

  /** What makes a step lose a core, from the state before it. */
  ghost predicate Loses(k: Cluster, s: State, a: Action, c: nat)
    requires Valid(k) && Enabled(k, s, a)
  {
    match a
    case TakeAnswer(g, r) =>
      // refused, but the controller does not have it down as the requester's any more
      && IsController(k, g) && s.offers[(g, r)].status != Accepted && c in s.offers[(g, r)].cores
      && !Hit(s.At(g), c, r, true)
    case TakeFinish(m, x) =>
      // given back, but the controller does not have it down as that agent's
      x == c && !exists j :: 0 < j < |s.At(k.home[c])| && s.At(k.home[c])[j] == Entry(c, m)
    case AddCores(x, _) =>
      // a message that comes late, when the core is free again
      x == c && FirstFree(s.At(k.home[c]), c)
    case RemCores(x, _, _) => x == c && FirstFree(s.At(k.home[c]), c)
    case _ => false
  }

  /** A core that is somewhere is nowhere after a step if and only if the step is one of those, under just those
      conditions. */
  lemma LostExactly(k: Cluster, s: State, a: Action, c: nat)
    requires Inv(k, s) && Tidy(k, s) && Covered(k, s) && Tight(k, s) && Enabled(k, s, a) && Somewhere(s, c)
    ensures !Somewhere(Next(k, s, a), c) <==> Loses(k, s, a, c)
  {
    var p :| IsAt(s, c, p);
    match a
    case TakeReject(_, _) => AnswerLost(k, s, a, c);
    case TakeAnswer(_, _) => AnswerLost(k, s, a, c);
    case TakeFinish(_, _) => FinishLost(k, s, a, c);
    case AddCores(_, _) => DirectoryLost(k, s, a, c);
    case RemCores(_, _, _) => DirectoryLost(k, s, a, c);
    case _ =>
      var q := NothingLost(k, s, a, c, p);
  }

  lemma AnswerLost(k: Cluster, s: State, a: Action, c: nat)
    requires Inv(k, s) && Tidy(k, s) && Covered(k, s) && Tight(k, s) && Enabled(k, s, a) && Somewhere(s, c)
    requires a.TakeReject? || a.TakeAnswer?
    ensures !Somewhere(Next(k, s, a), c) <==> Loses(k, s, a, c)
  {
    var o := s.offers[(a.g, a.r)];
    if o.status == Accepted && !IsController(k, a.g) {
      AcceptanceKeeps(k, s, a.g, a.r, c);
    } else if o.status != Accepted && c in o.cores {
      if a.TakeReject? {
        RejectReturns(k, s, a.g, a.r, c);
      } else if !IsController(k, a.g) {
        ManagerRefused(k, s, a.g, a.r, c);
      } else {
        RefusalReturns(k, s, a, c);
      }
    } else {
      OtherAnswer(k, s, a, c);
    }
  }

  lemma FinishLost(k: Cluster, s: State, a: Action, c: nat)
    requires Inv(k, s) && Enabled(k, s, a) && Somewhere(s, c) && a.TakeFinish?
    ensures !Somewhere(Next(k, s, a), c) <==> Loses(k, s, a, c)
  {
    if a.c == c {
      FinishReturns(k, s, a.m, c);
    } else {
      var p :| IsAt(s, c, p);
      FreeReturned(s.At(k.home[a.c]), a.c, a.m, c);
      assert IsAt(Next(k, s, a), c, p);
    }
  }

  lemma DirectoryLost(k: Cluster, s: State, a: Action, c: nat)
    requires Inv(k, s) && Enabled(k, s, a) && Somewhere(s, c) && (a.AddCores? || a.RemCores?)
    ensures !Somewhere(Next(k, s, a), c) <==> Loses(k, s, a, c)
  {
    var p :| IsAt(s, c, p);
    var t, l := Next(k, s, a), s.At(k.home[a.c]);
    OnlyPlace(s, c, p);
    DirectoryLoses(k, s, a, c, p);
    if a.c == c && FirstFree(l, c) {
      FreeIs(l, c);
      assert IsAt(s, c, AtNode(k.home[c]));
    }
    forall q: Place | IsAt(t, c, q)
      ensures q == p
    {
      DirectoryTokens(k, s, t, a, c, q);
      assert IsAt(s, c, q);
    }
  }

  // ---------------------------------------------------------------- every run

  /** After `acts`, step `a` leaves core `c` nowhere, though it was somewhere. */
  ghost predicate Lost(k: Cluster, x: Net, acts: seq<Action>, a: Action, c: nat) {
    && Valid(k) && PossibleNet(k, x, acts)
    && var t := AfterNet(k, x, acts);
       CanStep(k, t, a) && Somewhere(t.s, c) && !Somewhere(NextNet(k, t, a).s, c)
  }

  /** Over every run in which each node reads offers and answers in the order in which they were sent to it: a step loses
      a core if and only if `Loses` says so of the state before it. */
  lemma LostInRun(k: Cluster, x: Net, acts: seq<Action>, a: Action, c: nat)
    requires StartNet(k, x) && PossibleNet(k, x, acts)
    requires CanStep(k, AfterNet(k, x, acts), a) && Somewhere(AfterNet(k, x, acts).s, c)
    ensures Lost(k, x, acts, a, c) <==> Loses(k, AfterNet(k, x, acts).s, a, c)
  {
    StartSound(k, x);
    RunSound(k, x, acts);
    LostExactly(k, AfterNet(k, x, acts).s, a, c);
  }
}
