/** What a manager's list looks like when every node reads an answer before it reads a later offer of the same cores: no
    core is on it twice, and every mark on it belongs to an open offer. */
module OwnershipOnce {
  import opened Arithmetic
  import opened CoreList
  import opened Ownership
  import opened OwnershipMarks
  import opened OwnershipTidy

  // ---------------------------------------------------------------- lists without repetition

  ghost predicate Once(l: List) {
    forall i, j | 0 <= i < j < |l| :: l[i].core != l[j].core
  }

  lemma {:induction false} FindOnce(l: List, c: nat, i: nat, j: nat)
    requires Once(l) && i <= j < |l| && l[j].core == c
    ensures Find(l, c, i) == j
    decreases j - i
  {
    if i < j {
      FindOnce(l, c, i + 1, j);
    }
  }

  /** The list after a refusal or a reject of the cores. */
  ghost function Cleared(e: Entry, cores: seq<nat>, r: int, look: bool): Entry {
    if e.core in cores && (look ==> e.to == r) then Entry(e.core, NOBODY) else e
  }

  lemma BackOneAt(l: List, c: nat, r: int, look: bool, i: nat)
    requires Once(l) && i < |l|
    ensures BackOne(l, c, r, look)[i] ==
              if i > 0 && l[i].core == c && (look ==> l[i].to == r) then Entry(c, NOBODY) else l[i]
  {
    var j := Find(l, c, Second(l));
    if i > 0 && l[i].core == c {
      FindOnce(l, c, 1, i);
    }
  }

  lemma {:induction false} BackAt(l: List, cores: seq<nat>, r: nat, look: bool, i: nat)
    requires Once(l) && i < |l|
    ensures Back(l, cores, r, look)[i] == if i > 0 then Cleared(l[i], cores, r, look) else l[i]
  {
    if cores != [] {
      var rest, c := cores[..|cores| - 1], cores[|cores| - 1];
      BackAt(l, rest, r, look, i);
      BackOneAt(Back(l, rest, r, look), c, r, look, i);
      assert cores == rest + [c];
    }
  }

  lemma CutHas(l: List, j: nat, e: Entry)
    requires Once(l) && j < |l|
    ensures e in l[..j] + l[j + 1..] <==> e in l && e.core != l[j].core
  {
    assert l == l[..j] + [l[j]] + l[j + 1..];
    assert e in l <==> e in l[..j] || e == l[j] || e in l[j + 1..];
  }

  lemma CutOnce(l: List, j: nat)
    requires Once(l) && j < |l|
    ensures Once(l[..j] + l[j + 1..])
  {
    var m := l[..j] + l[j + 1..];
    assert forall i | 0 <= i < |m| :: m[i] == l[if i < j then i else i + 1];
  }

  lemma DropOneOnce(l: List, c: nat)
    requires Once(l)
    ensures Once(DropOne(l, c)) && forall e :: e in DropOne(l, c) <==> e in l && e.core != c
  {
    var j := Find(l, c, 0);
    if j < |l| {
      CutOnce(l, j);
      forall e
        ensures e in DropOne(l, c) <==> e in l && e.core != c
      {
        CutHas(l, j, e);
      }
    }
  }

  lemma {:induction false} DropOnce(l: List, cores: seq<nat>)
    requires Once(l)
    ensures Once(Drop(l, cores)) && forall e :: e in Drop(l, cores) <==> e in l && e.core !in cores
  {
    if cores != [] {
      var rest, c := cores[..|cores| - 1], cores[|cores| - 1];
      DropOnce(l, rest);
      DropOneOnce(Drop(l, rest), c);
      assert cores == rest + [c];
    }
  }

  lemma {:induction false} FreshOnce(cores: seq<nat>, self: int)
    requires forall c: nat :: Times(cores, c) <= 1
    ensures Once(Fresh(cores, self))
    ensures forall e :: e in Fresh(cores, self) <==> e.core in cores && e.core != self && e.to == NOBODY
  {
    if cores != [] {
      var rest, c := cores[..|cores| - 1], cores[|cores| - 1];
      assert cores == rest + [c];
      forall x: nat
        ensures Times(rest, x) <= 1 && (x == c ==> x !in rest)
      {
        assert Times(cores, x) <= 1;
      }
      FreshOnce(rest, self);
    }
  }

  lemma JoinOnce(l: List, m: List)
    requires Once(l) && Once(m) && forall e, f | e in l && f in m :: e.core != f.core
    ensures Once(l + m)
  {
  }

  // ---------------------------------------------------------------- the invariant

  /** The mark on an entry is that of an open offer. */
  ghost predicate Owed(offers: map<(nat, nat), Offer>, g: nat, e: Entry) {
    e.to != NOBODY ==> e.to >= 0 && (g, e.to) in offers && e.core in offers[(g, e.to)].cores
  }

  ghost predicate ListTight(s: State, g: nat) {
    Once(s.At(g)) && forall e | e in s.At(g) :: Owed(s.offers, g, e)
  }

  ghost predicate Share(s: State, p: (nat, nat), q: (nat, nat), c: nat)
    requires p in s.offers && q in s.offers
  {
    c in s.offers[p].cores && c in s.offers[q].cores
  }

  /** An offer that `r` has read has no core in common with one of `r`'s own offers whose acceptance it has not read. */
  ghost predicate AnswersRead(s: State) {
    forall g: nat, r: nat, x: nat, c: nat |
      OpenWith(s, r, x, Accepted) && (g, r) in s.offers && s.offers[(g, r)].status.Held? :: !Share(s, (g, r), (r, x), c)
  }

  ghost predicate Tight(k: Cluster, s: State) {
    && (forall g: nat | !IsController(k, g) :: ListTight(s, g))
    && (forall p | p in s.offers :: p.0 != p.1)
    && AnswersRead(s)
  }

  /** When a node reads an offer it has read all answers about the offered cores. */
  ghost predicate InOrder(s: State, a: Action) {
    (a.TakeOffer? || a.Stray?) && (a.g, a.r) in s.offers ==>
      forall x: nat, c: nat | OpenWith(s, a.r, x, Accepted) :: !Share(s, (a.g, a.r), (a.r, x), c)
  }

  lemma StartTight(k: Cluster, s: State)
    requires IsStart(k, s)
    ensures Tight(k, s)
  {
  }

  // ---------------------------------------------------------------- answers read first

  /** Nothing newly read or newly accepted. */
  lemma NothingRead(s: State, t: State)
    requires AnswersRead(s)
    requires forall p | p in t.offers && (t.offers[p].status.Held? || t.offers[p].status == Accepted) ::
               p in s.offers && t.offers[p] == s.offers[p]
    ensures AnswersRead(t)
  {
    forall g: nat, r: nat, x: nat, c: nat |
      OpenWith(t, r, x, Accepted) && (g, r) in t.offers && t.offers[(g, r)].status.Held?
      ensures !Share(t, (g, r), (r, x), c)
    {
      assert OpenWith(s, r, x, Accepted);
      assert !Share(s, (g, r), (r, x), c);
    }
  }

  lemma OfferRead(s: State, t: State, g: nat, r: nat, forInit: bool)
    requires AnswersRead(s) && OpenWith(s, g, r, Sent) && InOrder(s, TakeOffer(g, r, forInit))
    requires t.offers == s.offers[(g, r) := s.offers[(g, r)].(status := Held(forInit))]
    ensures AnswersRead(t)
  {
    forall h: nat, m: nat, x: nat, c: nat |
      OpenWith(t, m, x, Accepted) && (h, m) in t.offers && t.offers[(h, m)].status.Held?
      ensures !Share(t, (h, m), (m, x), c)
    {
      assert OpenWith(s, m, x, Accepted);
      assert !Share(s, (h, m), (m, x), c);
    }
  }

  /** The offer accepted was read, so its cores are in no other that is. */
  lemma OfferAccepted(s: State, t: State, g: nat, r: nat)
    requires Unique(s) && AnswersRead(s) && g != r && (g, r) in s.offers && s.offers[(g, r)].status.Held?
    requires (g, r) in t.offers && t.offers[(g, r)] == Offer(s.offers[(g, r)].cores, Accepted)
    requires forall p | p in t.offers && p != (g, r) && (t.offers[p].status.Held? || t.offers[p].status == Accepted) ::
               p in s.offers && t.offers[p] == s.offers[p]
    ensures AnswersRead(t)
  {
    forall h: nat, m: nat, x: nat, c: nat |
      OpenWith(t, m, x, Accepted) && (h, m) in t.offers && t.offers[(h, m)].status.Held?
      ensures !Share(t, (h, m), (m, x), c)
    {
      if (m, x) == (g, r) {
        ApartIs(s, c, InOffer(h, m), InOffer(g, r));
      } else {
        assert OpenWith(s, m, x, Accepted);
        assert !Share(s, (h, m), (m, x), c);
      }
    }
  }

  // ---------------------------------------------------------------- lists

  /** A list left alone, and its offers. */
  lemma ListStays(s: State, t: State, g: nat)
    requires ListTight(s, g) && t.At(g) == s.At(g)
    requires forall r: int | (g, r) in s.offers :: (g, r) in t.offers && t.offers[(g, r)].cores == s.offers[(g, r)].cores
    ensures ListTight(t, g)
  {
    forall e | e in t.At(g)
      ensures Owed(t.offers, g, e)
    {
      assert Owed(s.offers, g, e);
    }
  }

  lemma OfferListed(s: State, t: State, g: nat, r: nat, at: seq<nat>)
    requires ListTight(s, g) && (g, r) !in s.offers && Offerable(s.At(g), at)
    requires t == s.With(g, Marked(s.At(g), at, r)).(offers := s.offers[(g, r) := Offer(CoresAt(s.At(g), at), Sent)])
    ensures ListTight(t, g)
  {
    var l := s.At(g);
    forall e | e in t.At(g)
      ensures Owed(t.offers, g, e)
    {
      var i :| 0 <= i < |l| && t.At(g)[i] == e;
      MarkedAt(l, at, r, i);
      if i in at {
        var x :| 0 <= x < |at| && at[x] == i;
        assert CoresAt(l, at)[x] == e.core;
      } else {
        assert Owed(s.offers, g, l[i]);
      }
    }
  }

  lemma MakeOfferTight(k: Cluster, s: State, g: nat, r: nat, at: seq<nat>)
    requires Valid(k) && Tight(k, s) && Enabled(k, s, MakeOffer(g, r, at))
    ensures Tight(k, Next(k, s, MakeOffer(g, r, at)))
  {
    var t := Next(k, s, MakeOffer(g, r, at));
    NothingRead(s, t);
    forall m: nat | !IsController(k, m)
      ensures ListTight(t, m)
    {
      if m == g {
        OfferListed(s, t, g, r, at);
      } else {
        ListStays(s, t, m);
      }
    }
  }

  lemma HandedOnTight(k: Cluster, s: State, a: Action)
    requires Valid(k) && Tight(k, s) && Enabled(k, s, a) && InOrder(s, a) && (a.TakeOffer? || a.Stray? || a.RefuseAll?)
    ensures Tight(k, Next(k, s, a))
  {
    var t := Next(k, s, a);
    if a.TakeOffer? {
      OfferRead(s, t, a.g, a.r, a.forInit);
    } else {
      NothingRead(s, t);
    }
    forall m: nat | !IsController(k, m)
      ensures ListTight(t, m)
    {
      ListStays(s, t, m);
    }
  }

  /** A core read in an offer is not on the reader's list. */
  lemma NotListed(s: State, g: nat, r: nat, c: nat)
    requires Unique(s) && AnswersRead(s) && ListTight(s, r) && g != r
    requires (g, r) in s.offers && s.offers[(g, r)].status.Held? && c in s.offers[(g, r)].cores
    ensures forall e | e in s.At(r) :: e.core != c
  {
    forall e | e in s.At(r)
      ensures e.core != c
    {
      assert Owed(s.offers, r, e);
      if e == Entry(c, NOBODY) {
        FreeIs(s.At(r), c);
        ApartIs(s, c, InOffer(g, r), AtNode(r));
      } else if e.core == c {
        var x: nat := e.to;
        assert OpenWith(s, r, x, Accepted) ==> !Share(s, (g, r), (r, x), c);
        ApartIs(s, c, InOffer(g, r), InOffer(r, x));
      }
    }
  }

  /** A list that has grown at the end by free entries for other cores. */
  lemma GrownTight(s: State, t: State, r: nat, m: List)
    requires ListTight(s, r) && t.At(r) == s.At(r) + m && Once(m)
    requires forall e, f | e in s.At(r) && f in m :: e.core != f.core
    requires forall f | f in m :: f.to == NOBODY
    requires forall x: int | (r, x) in s.offers :: (r, x) in t.offers && t.offers[(r, x)].cores == s.offers[(r, x)].cores
    ensures ListTight(t, r)
  {
    JoinOnce(s.At(r), m);
    forall e | e in t.At(r)
      ensures Owed(t.offers, r, e)
    {
      assert e in s.At(r) ==> Owed(s.offers, r, e);
    }
  }

  lemma ChooseSelfTight(k: Cluster, s: State, r: nat, g: nat)
    requires Inv(k, s) && Tidy(k, s) && Tight(k, s) && Enabled(k, s, ChooseSelf(r, g))
    ensures Tight(k, Next(k, s, ChooseSelf(r, g)))
  {
    var t, cores := Next(k, s, ChooseSelf(r, g)), s.offers[(g, r)].cores;
    DecidedCores(s.offers, g, r, false, t.offers);
    OfferAccepted(s, t, g, r);
    FreshOnce(cores, -1);
    forall m: nat | !IsController(k, m)
      ensures ListTight(t, m)
    {
      if m == r {
        forall e, f | e in s.At(r) && f in Fresh(cores, -1)
          ensures e.core != f.core
        {
          NotListed(s, g, r, f.core);
        }
        GrownTight(s, t, r, Fresh(cores, -1));
      } else {
        ListStays(s, t, m);
      }
    }
  }

  lemma OwnList(s: State, r: nat, cores: seq<nat>)
    requires forall c: nat :: Times(cores, c) <= 1
    ensures Once([Entry(r, NOBODY)] + Fresh(cores, r))
    ensures forall f | f in [Entry(r, NOBODY)] + Fresh(cores, r) :: f.to == NOBODY
  {
    FreshOnce(cores, r);
    JoinOnce([Entry(r, NOBODY)], Fresh(cores, r));
  }

  /** An agent that starts its own application has no list yet. */
  lemma AgentNew(k: Cluster, s: State, r: nat, g: nat)
    requires Inv(k, s) && Enabled(k, s, ChooseInit(r, g, r))
    ensures s.At(r) == []
  {
    if s.At(r) != [] {
      FreeIs(s.At(r), r);
      ApartIs(s, r, InOffer(g, r), AtNode(r));
    }
  }

  lemma ChooseInitTight(k: Cluster, s: State, r: nat, g: nat, agent: nat)
    requires Inv(k, s) && Tidy(k, s) && Tight(k, s) && Enabled(k, s, ChooseInit(r, g, agent))
    ensures Tight(k, Next(k, s, ChooseInit(r, g, agent)))
  {
    var t, cores := Next(k, s, ChooseInit(r, g, agent)), s.offers[(g, r)].cores;
    DecidedCores(s.offers, g, r, true, t.offers);
    OfferAccepted(s, t, g, r);
    forall m: nat | !IsController(k, m)
      ensures ListTight(t, m)
    {
      if m == r && agent == r {
        AgentNew(k, s, r, g);
        OwnList(s, r, cores);
        GrownTight(s, t, r, [Entry(r, NOBODY)] + Fresh(cores, r));
      } else {
        ListStays(s, t, m);
      }
    }
  }

  lemma StartAgentTight(k: Cluster, s: State, msg: Init, managing: bool)
    requires Inv(k, s) && Tidy(k, s) && Tight(k, s) && Enabled(k, s, StartAgent(msg, managing))
    ensures Tight(k, Next(k, s, StartAgent(msg, managing)))
  {
    var t := Next(k, s, StartAgent(msg, managing));
    NothingRead(s, t);
    AgentUnlisted(k, s, msg);
    forall c: nat
      ensures Times(msg.cores, c) <= 1
    {
      ApartIs(s, c, InInit(msg), InInit(msg));
    }
    OwnList(s, msg.agent, msg.cores);
    forall m: nat | !IsController(k, m)
      ensures ListTight(t, m)
    {
      if m == msg.agent {
        GrownTight(s, t, m, [Entry(m, NOBODY)] + Fresh(msg.cores, m));
      } else {
        ListStays(s, t, m);
      }
    }
  }

  lemma AnswerListed(s: State, t: State, g: nat, r: nat, look: bool)
    requires ListTight(s, g) && (g, r) in s.offers && s.offers[(g, r)].status != Accepted && t.offers == s.offers - {(g, r)}
    requires t.At(g) == Back(s.At(g), s.offers[(g, r)].cores, r, look) && (s.At(g) != [] ==> s.At(g)[0].to == NOBODY)
    ensures ListTight(t, g)
  {
    var l, cores := s.At(g), s.offers[(g, r)].cores;
    forall e | e in t.At(g)
      ensures Owed(t.offers, g, e)
    {
      var i :| 0 <= i < |l| && t.At(g)[i] == e;
      BackAt(l, cores, r, look, i);
      assert Owed(s.offers, g, l[i]);
    }
  }

  lemma DropListed(s: State, t: State, g: nat, r: nat)
    requires ListTight(s, g) && (g, r) in s.offers && t.offers == s.offers - {(g, r)}
    requires t.At(g) == Drop(s.At(g), s.offers[(g, r)].cores)
    ensures ListTight(t, g)
  {
    DropOnce(s.At(g), s.offers[(g, r)].cores);
    forall e | e in t.At(g)
      ensures Owed(t.offers, g, e)
    {
      assert Owed(s.offers, g, e);
    }
  }

  lemma AnswerTight(k: Cluster, s: State, a: Action)
    requires Inv(k, s) && Tight(k, s) && Enabled(k, s, a) && (a.TakeReject? || a.TakeAnswer?)
    ensures Tight(k, Next(k, s, a))
  {
    var t := Next(k, s, a);
    NothingRead(s, t);
    forall m: nat | !IsController(k, m)
      ensures ListTight(t, m)
    {
      if m != a.g {
        ListStays(s, t, m);
      } else if s.offers[(a.g, a.r)].status == Accepted {
        DropListed(s, t, a.g, a.r);
      } else {
        AnswerListed(s, t, a.g, a.r, a.TakeAnswer?);
      }
    }
  }

  lemma OtherTight(k: Cluster, s: State, a: Action)
    requires Valid(k) && Tight(k, s) && Enabled(k, s, a) && (a.End? || a.TakeFinish? || a.AddCores? || a.RemCores?)
    ensures Tight(k, Next(k, s, a))
  {
    var t := Next(k, s, a);
    NothingRead(s, t);
    forall m: nat | !IsController(k, m)
      ensures ListTight(t, m)
    {
      if !(a.End? && m == a.m) {
        ListStays(s, t, m);
      }
    }
  }

  lemma NextTight(k: Cluster, s: State, a: Action)
    requires Inv(k, s) && Tidy(k, s) && Tight(k, s) && Enabled(k, s, a) && InOrder(s, a)
    ensures Tight(k, Next(k, s, a))
  {
    match a
    case MakeOffer(g, r, at) => MakeOfferTight(k, s, g, r, at);
    case TakeOffer(_, _, _) => HandedOnTight(k, s, a);
    case Stray(_, _) => HandedOnTight(k, s, a);
    case RefuseAll(_, _) => HandedOnTight(k, s, a);
    case ChooseInit(r, g, agent) => ChooseInitTight(k, s, r, g, agent);
    case ChooseSelf(r, g) => ChooseSelfTight(k, s, r, g);
    case TakeReject(_, _) => AnswerTight(k, s, a);
    case TakeAnswer(_, _) => AnswerTight(k, s, a);
    case StartAgent(msg, managing) => StartAgentTight(k, s, msg, managing);
    case _ => OtherTight(k, s, a);
  }

  // ---------------------------------------------------------------- what answers find

  /** A manager's accepted cores are down as offered: no acceptance finds one of them free. */
  lemma AcceptedNotFree(k: Cluster, s: State, g: nat, r: nat, c: nat)
    requires Covered(k, s) && Tight(k, s) && !IsController(k, g) && (g, r) in s.offers && c in s.offers[(g, r)].cores
    ensures !FirstFree(s.At(g), c)
  {
    var i := MarkedEntry(k, s, g, r, c);
    FindOnce(s.At(g), c, 0, i);
  }

  /** The one entry a manager has for the core of an open offer is down as that offer's. */
  lemma MarkedEntry(k: Cluster, s: State, g: nat, r: nat, c: nat) returns (i: nat)
    requires Covered(k, s) && Tight(k, s) && !IsController(k, g) && (g, r) in s.offers && c in s.offers[(g, r)].cores
    ensures 0 < i < |s.At(g)| && s.At(g)[i] == Entry(c, r)
  {
    var l, p := s.At(g), (g, r);
    assert CoveredAt(k, s, g, c);
    assert p in OpenFor(s.offers, g, c);
    MarksPositive(l, c);
    i :| 0 <= i < |l| && Taken(l, i, c);
    assert ListTight(s, g) && l[i] in l;
    assert Owed(s.offers, g, l[i]);
    var q := (g, l[i].to as nat);
    assert q in OpenFor(s.offers, g, c);
    OneMark(l, c, i);
    if q != p {
      SubsetSize({p, q}, OpenFor(s.offers, g, c));
    }
  }

  lemma {:induction false} OneMark(l: List, c: nat, i: nat)
    requires Once(l) && i < |l| && l[i].core == c
    ensures Marks(l, c) <= 1
  {
    var m := l[..|l| - 1];
    if i < |m| {
      OneMark(m, c, i);
    } else {
      MarksPositive(m, c);
    }
  }

  /** So a refusal to a manager finds its mark. */
  lemma RefusalHits(k: Cluster, s: State, g: nat, r: nat, c: nat, look: bool)
    requires Covered(k, s) && Tight(k, s) && !IsController(k, g) && (g, r) in s.offers && c in s.offers[(g, r)].cores
    ensures Hit(s.At(g), c, r, look)
  {
    var i := MarkedEntry(k, s, g, r, c);
    FindOnce(s.At(g), c, 1, i);
  }
}
