/** Every offer that is open has a mark of its own on the giver's list, although a walk may clear another offer's. */
module OwnershipMarks {
  import opened CoreList
  import opened Ownership
  import opened OwnershipTidy

  // ---------------------------------------------------------------- marks on a list

  /** How many entries after the head say that core `c` is offered to somebody. */
  ghost function Marks(l: List, c: nat): nat {
    if l == [] then 0
    else Marks(l[..|l| - 1], c) + One(|l| > 1 && l[|l| - 1].core == c && l[|l| - 1].to != NOBODY)
  }

  ghost predicate Taken(l: List, i: nat, c: nat)
    requires i < |l|
  {
    i > 0 && l[i].core == c && l[i].to != NOBODY
  }

  lemma {:induction false} MarksPositive(l: List, c: nat)
    ensures Marks(l, c) > 0 <==> exists i :: 0 <= i < |l| && Taken(l, i, c)
  {
    if l != [] {
      var m := l[..|l| - 1];
      MarksPositive(m, c);
      if Marks(m, c) > 0 {
        var i :| 0 <= i < |m| && Taken(m, i, c);
        assert Taken(l, i, c);
      }
      assert Taken(l, |l| - 1, c) <==> Marks(l, c) > Marks(m, c);
      forall i | 0 <= i < |m|
        ensures Taken(l, i, c) == Taken(m, i, c)
      {
      }
    }
  }

  lemma {:induction false} MarksSet(l: List, j: nat, e: Entry, c: nat)
    requires j < |l|
    ensures Marks(l[j := e], c) + One(Taken(l, j, c)) == Marks(l, c) + One(Taken(l[j := e], j, c))
  {
    var m, t := l[..|l| - 1], l[j := e];
    if j < |l| - 1 {
      MarksSet(m, j, e, c);
      assert t[..|l| - 1] == m[j := e];
    } else {
      assert t[..|l| - 1] == m;
    }
  }

  /** New entries are offered to nobody. */
  lemma {:induction false} MarksJoin(l: List, m: List, c: nat)
    requires forall i | 0 <= i < |m| :: m[i].to == NOBODY
    ensures Marks(l + m, c) == Marks(l, c)
  {
    if m != [] {
      MarksJoin(l, m[..|m| - 1], c);
      assert (l + m)[..|l + m| - 1] == l + m[..|m| - 1];
    } else {
      assert l + m == l;
    }
  }

  lemma {:induction false} MarksDrop(l: List, j: nat, c: nat)
    requires 0 < j < |l|
    ensures Marks(l[..j] + l[j + 1..], c) + One(Taken(l, j, c)) == Marks(l, c)
  {
    var m, t := l[..|l| - 1], l[..j] + l[j + 1..];
    if j < |l| - 1 {
      MarksDrop(m, j, c);
      assert t[..|t| - 1] == m[..j] + m[j + 1..];
    } else {
      assert t == m;
    }
  }

  lemma {:induction false} MarksMarked(l: List, at: seq<nat>, r: nat, c: nat)
    requires Inside(at, l) && Distinct(at) && forall x | 0 <= x < |at| :: at[x] > 0 && l[at[x]].to == NOBODY
    ensures Marks(Marked(l, at, r), c) == Marks(l, c) + Times(CoresAt(l, at), c)
  {
    if at != [] {
      var rest, i := at[..|at| - 1], at[|at| - 1];
      MarksMarked(l, rest, r, c);
      MarkedAt(l, rest, r, i);
      MarksSet(Marked(l, rest, r), i, Entry(l[i].core, r), c);
    }
  }

  lemma MarksBackOne(l: List, d: nat, r: int, look: bool, c: nat)
    ensures Marks(l, c) <= Marks(BackOne(l, d, r, look), c) + One(c == d)
  {
    var j := Find(l, d, Second(l));
    if j < |l| {
      MarksSet(l, j, Entry(d, NOBODY), c);
    }
  }

  /** A walk clears at most one mark of a core given back. */
  lemma {:induction false} MarksBack(l: List, cores: seq<nat>, r: int, look: bool, c: nat)
    ensures Marks(l, c) <= Marks(Back(l, cores, r, look), c) + Times(cores, c)
  {
    if cores != [] {
      var rest, d := cores[..|cores| - 1], cores[|cores| - 1];
      MarksBack(l, rest, r, look, c);
      MarksBackOne(Back(l, rest, r, look), d, r, look, c);
      assert cores == rest + [d];
    }
  }

  lemma MarksDropOne(l: List, d: nat, c: nat)
    requires l != [] && l[0].core != d
    ensures Marks(l, c) <= Marks(DropOne(l, d), c) + One(c == d)
  {
    var j := Find(l, d, 0);
    if j < |l| {
      MarksDrop(l, j, c);
    }
  }

  lemma {:induction false} MarksDropped(l: List, cores: seq<nat>, c: nat)
    requires l != [] && l[0].core !in cores
    ensures Marks(l, c) <= Marks(Drop(l, cores), c) + Times(cores, c)
  {
    if cores != [] {
      var rest, d := cores[..|cores| - 1], cores[|cores| - 1];
      assert cores == rest + [d];
      MarksDropped(l, rest, c);
      HeadStays(l, rest);
      MarksDropOne(Drop(l, rest), d, c);
    }
  }

  // ---------------------------------------------------------------- open offers are marked

  /** The offers giver `g` has open with core `c` among them. */
  ghost function OpenFor(offers: map<(nat, nat), Offer>, g: nat, c: nat): set<(nat, nat)> {
    set p | p in offers && p.0 == g && c in offers[p].cores
  }

  ghost predicate Listed(l: List, c: nat) {
    exists i :: 0 < i < |l| && l[i].core == c
  }

  /** For a manager as many marks as open offers, for a controller the core behind the head of its list. */
  ghost predicate CoveredAt(k: Cluster, s: State, g: nat, c: nat) {
    if IsController(k, g) then OpenFor(s.offers, g, c) != {} ==> Listed(s.At(g), c)
    else |OpenFor(s.offers, g, c)| <= Marks(s.At(g), c)
  }

  ghost predicate Covered(k: Cluster, s: State) {
    forall g: nat, c: nat :: CoveredAt(k, s, g, c)
  }

  lemma StartCovered(k: Cluster, s: State)
    requires IsStart(k, s)
    ensures Covered(k, s)
  {
    forall g: nat, c: nat
      ensures CoveredAt(k, s, g, c)
    {
      assert OpenFor(s.offers, g, c) == {};
    }
  }

  lemma Opened(offers: map<(nat, nat), Offer>, g: nat, r: nat, o: Offer, x: nat, c: nat)
    requires (g, r) !in offers
    ensures OpenFor(offers[(g, r) := o], x, c) ==
              OpenFor(offers, x, c) + if x == g && c in o.cores then {(g, r)} else {}
    ensures |OpenFor(offers[(g, r) := o], x, c)| == |OpenFor(offers, x, c)| + One(x == g && c in o.cores)
  {
    var p := (g, r);
    assert p !in OpenFor(offers, x, c);
  }

  lemma Closes(offers: map<(nat, nat), Offer>, g: nat, r: nat, x: nat, c: nat)
    requires (g, r) in offers
    ensures OpenFor(offers - {(g, r)}, x, c) <= OpenFor(offers, x, c)
    ensures |OpenFor(offers - {(g, r)}, x, c)| + One(x == g && c in offers[(g, r)].cores) == |OpenFor(offers, x, c)|
  {
    var p := (g, r);
    if x == g && c in offers[p].cores {
      assert OpenFor(offers - {p}, x, c) == OpenFor(offers, x, c) - {p};
      assert p in OpenFor(offers, x, c);
    } else {
      assert OpenFor(offers - {p}, x, c) == OpenFor(offers, x, c);
    }
  }

  /** Steps that leave the cores of every offer alone. */
  lemma SameOpen(was: map<(nat, nat), Offer>, now: map<(nat, nat), Offer>, g: nat, c: nat)
    requires was.Keys == now.Keys && forall p | p in was :: was[p].cores == now[p].cores
    ensures OpenFor(was, g, c) == OpenFor(now, g, c)
  {
    forall p
      ensures p in was <==> p in now
    {
      assert p in was.Keys <==> p in now.Keys;
    }
  }

  lemma MakeOfferCovered(k: Cluster, s: State, t: State, g: nat, r: nat, at: seq<nat>)
    requires Covered(k, s) && (g, r) !in s.offers && Offerable(s.At(g), at)
    requires t == s.With(g, Marked(s.At(g), at, r)).(offers := s.offers[(g, r) := Offer(CoresAt(s.At(g), at), Sent)])
    ensures Covered(k, t)
  {
    var l, cores := s.At(g), CoresAt(s.At(g), at);
    forall x: nat, c: nat
      ensures CoveredAt(k, t, x, c)
    {
      assert CoveredAt(k, s, x, c);
      Opened(s.offers, g, r, Offer(cores, Sent), x, c);
      if x == g {
        MarksMarked(l, at, r, c);
        MarkedCovers(l, at, r, c);
      }
    }
  }

  lemma MarkedCovers(l: List, at: seq<nat>, r: nat, c: nat)
    requires Offerable(l, at)
    ensures One(c in CoresAt(l, at)) <= Times(CoresAt(l, at), c)
    ensures Listed(l, c) || c in CoresAt(l, at) ==> Listed(Marked(l, at, r), c)
  {
    var m := Marked(l, at, r);
    if c in CoresAt(l, at) {
      var x :| 0 <= x < |at| && l[at[x]].core == c;
      assert m[at[x]].core == c;
    } else if Listed(l, c) {
      var i :| 0 < i < |l| && l[i].core == c;
      assert m[i].core == c;
    }
  }

  /** An offer closed, one mark at most gone for each of its cores. */
  lemma ClosedCovered(k: Cluster, s: State, t: State, g: nat, r: nat)
    requires Covered(k, s) && (g, r) in s.offers && t.offers == s.offers - {(g, r)}
    requires forall c: nat :: Times(s.offers[(g, r)].cores, c) <= 1
    requires forall x: nat | x != g :: t.At(x) == s.At(x)
    requires if IsController(k, g) then |t.At(g)| == |s.At(g)| && forall i | 0 <= i < |s.At(g)| :: t.At(g)[i].core == s.At(g)[i].core
             else forall c: nat :: Marks(s.At(g), c) <= Marks(t.At(g), c) + Times(s.offers[(g, r)].cores, c)
    ensures Covered(k, t)
  {
    forall x: nat, c: nat
      ensures CoveredAt(k, t, x, c)
    {
      assert CoveredAt(k, s, x, c);
      Closes(s.offers, g, r, x, c);
      if x == g && IsController(k, g) {
        SameListed(s.At(g), t.At(g), c);
      }
    }
  }

  lemma SameListed(l: List, m: List, c: nat)
    requires |m| == |l| && forall i | 0 <= i < |l| :: m[i].core == l[i].core
    ensures Listed(l, c) ==> Listed(m, c)
  {
    if Listed(l, c) {
      var i :| 0 < i < |l| && l[i].core == c;
      assert m[i].core == c;
    }
  }

  lemma AnswerCovered(k: Cluster, s: State, a: Action)
    requires Inv(k, s) && Tidy(k, s) && Covered(k, s) && Enabled(k, s, a) && (a.TakeReject? || a.TakeAnswer?)
    ensures Covered(k, Next(k, s, a))
  {
    var t, l, o := Next(k, s, a), s.At(a.g), s.offers[(a.g, a.r)];
    forall c: nat
      ensures Marks(l, c) <= Marks(t.At(a.g), c) + Times(o.cores, c)
    {
      MarksBack(l, o.cores, a.r, a.TakeAnswer?, c);
      if o.status == Accepted && !IsController(k, a.g) && l != [] {
        MarksDropped(l, o.cores, c);
      }
    }
    ClosedCovered(k, s, t, a.g, a.r);
  }

  /** New entries at the end of a manager's list, or a list that takes the place of none. */
  lemma LongerCovered(k: Cluster, s: State, t: State, r: nat, m: List)
    requires Covered(k, s) && !IsController(k, r) && forall i | 0 <= i < |m| :: m[i].to == NOBODY
    requires t.At(r) == s.At(r) + m && forall x: nat | x != r :: t.At(x) == s.At(x)
    requires t.offers.Keys == s.offers.Keys && forall p | p in s.offers :: t.offers[p].cores == s.offers[p].cores
    ensures Covered(k, t)
  {
    forall x: nat, c: nat
      ensures CoveredAt(k, t, x, c)
    {
      assert CoveredAt(k, s, x, c);
      SameOpen(s.offers, t.offers, x, c);
      MarksJoin(s.At(r), m, c);
    }
  }

  /** Marks changed on a controller's list. */
  lemma RemarkedCovered(k: Cluster, s: State, t: State, h: nat)
    requires Covered(k, s) && IsController(k, h) && t.offers == s.offers
    requires forall x: nat | x != h :: t.At(x) == s.At(x)
    requires |t.At(h)| == |s.At(h)| && forall i | 0 <= i < |s.At(h)| :: t.At(h)[i].core == s.At(h)[i].core
    ensures Covered(k, t)
  {
    forall x: nat, c: nat
      ensures CoveredAt(k, t, x, c)
    {
      assert CoveredAt(k, s, x, c);
      SameListed(s.At(h), t.At(h), c);
    }
  }

  /** A manager that has ended has no offer open. */
  lemma EndCovered(k: Cluster, s: State, m: nat)
    requires Valid(k) && Covered(k, s) && Enabled(k, s, End(m))
    ensures Covered(k, Next(k, s, End(m)))
  {
    var t := Next(k, s, End(m));
    forall x: nat, c: nat
      ensures CoveredAt(k, t, x, c)
    {
      assert CoveredAt(k, s, x, c);
      if x == m {
        MarksPositive(s.At(m), c);
      }
    }
  }

  lemma {:induction false} FreshFree(cores: seq<nat>, self: int)
    ensures forall i | 0 <= i < |Fresh(cores, self)| :: Fresh(cores, self)[i].to == NOBODY
  {
    if cores != [] {
      FreshFree(cores[..|cores| - 1], self);
    }
  }

  lemma DecidedCores(offers: map<(nat, nat), Offer>, g: nat, r: nat, forInit: bool, now: map<(nat, nat), Offer>)
    requires (g, r) in offers && now == Decided(offers, r, forInit)[(g, r) := Offer(offers[(g, r)].cores, Accepted)]
    ensures now.Keys == offers.Keys && forall p | p in offers :: now[p].cores == offers[p].cores
  {
  }

  lemma ChooseInitCovered(k: Cluster, s: State, r: nat, g: nat, agent: nat)
    requires Valid(k) && Covered(k, s) && Enabled(k, s, ChooseInit(r, g, agent))
    ensures Covered(k, Next(k, s, ChooseInit(r, g, agent)))
  {
    var t, cores := Next(k, s, ChooseInit(r, g, agent)), s.offers[(g, r)].cores;
    DecidedCores(s.offers, g, r, true, t.offers);
    FreshFree(cores, r);
    var m := if agent == r then [Entry(r, NOBODY)] + Fresh(cores, r) else [];
    assert s.At(r) + [Entry(r, NOBODY)] + Fresh(cores, r) == s.At(r) + ([Entry(r, NOBODY)] + Fresh(cores, r));
    LongerCovered(k, s, t, r, m);
  }

  lemma ChooseSelfCovered(k: Cluster, s: State, r: nat, g: nat)
    requires Valid(k) && Covered(k, s) && Enabled(k, s, ChooseSelf(r, g))
    ensures Covered(k, Next(k, s, ChooseSelf(r, g)))
  {
    var t, cores := Next(k, s, ChooseSelf(r, g)), s.offers[(g, r)].cores;
    DecidedCores(s.offers, g, r, false, t.offers);
    FreshFree(cores, -1);
    LongerCovered(k, s, t, r, Fresh(cores, -1));
  }

  lemma StartAgentCovered(k: Cluster, s: State, msg: Init, managing: bool)
    requires Inv(k, s) && Tidy(k, s) && Covered(k, s) && Enabled(k, s, StartAgent(msg, managing))
    ensures Covered(k, Next(k, s, StartAgent(msg, managing)))
  {
    AgentUnlisted(k, s, msg);
    FreshFree(msg.cores, msg.agent);
    LongerCovered(k, s, Next(k, s, StartAgent(msg, managing)), msg.agent,
                  [Entry(msg.agent, NOBODY)] + Fresh(msg.cores, msg.agent));
  }

  lemma HandedOnCovered(k: Cluster, s: State, t: State)
    requires Covered(k, s) && t.lists == s.lists
    requires t.offers.Keys == s.offers.Keys && forall p | p in s.offers :: t.offers[p].cores == s.offers[p].cores
    ensures Covered(k, t)
  {
    forall x: nat, c: nat
      ensures CoveredAt(k, t, x, c)
    {
      assert CoveredAt(k, s, x, c);
      SameOpen(s.offers, t.offers, x, c);
    }
  }

  lemma ControllerCovered(k: Cluster, s: State, a: Action)
    requires Valid(k) && Covered(k, s) && Enabled(k, s, a) && (a.TakeFinish? || a.AddCores? || a.RemCores?)
    ensures Covered(k, Next(k, s, a))
  {
    RemarkedCovered(k, s, Next(k, s, a), k.home[a.c]);
  }

  lemma OfferHandedOn(k: Cluster, s: State, a: Action)
    requires Valid(k) && Covered(k, s) && Enabled(k, s, a) && (a.TakeOffer? || a.Stray? || a.RefuseAll?)
    ensures Covered(k, Next(k, s, a))
  {
    HandedOnCovered(k, s, Next(k, s, a));
  }

  lemma NextCovered(k: Cluster, s: State, a: Action)
    requires Inv(k, s) && Tidy(k, s) && Covered(k, s) && Enabled(k, s, a)
    ensures Covered(k, Next(k, s, a))
  {
    match a
    case MakeOffer(g, r, at) => MakeOfferCovered(k, s, Next(k, s, a), g, r, at);
    case ChooseInit(r, g, agent) => ChooseInitCovered(k, s, r, g, agent);
    case ChooseSelf(r, g) => ChooseSelfCovered(k, s, r, g);
    case TakeReject(_, _) => AnswerCovered(k, s, a);
    case TakeAnswer(_, _) => AnswerCovered(k, s, a);
    case StartAgent(msg, managing) => StartAgentCovered(k, s, msg, managing);
    case End(m) => EndCovered(k, s, m);
    case TakeFinish(_, _) => ControllerCovered(k, s, a);
    case AddCores(_, _) => ControllerCovered(k, s, a);
    case RemCores(_, _, _) => ControllerCovered(k, s, a);
    case _ => OfferHandedOn(k, s, a);
  }

  /** The core of an open offer is always on the giver's list: a reject finds it. */
  lemma RejectHits(k: Cluster, s: State, g: nat, r: nat, c: nat)
    requires Covered(k, s) && (g, r) in s.offers && c in s.offers[(g, r)].cores
    ensures Hit(s.At(g), c, r, false)
  {
    var l, p := s.At(g), (g, r);
    assert CoveredAt(k, s, g, c);
    assert p in OpenFor(s.offers, g, c);
    if !IsController(k, g) {
      MarksPositive(l, c);
      var i :| 0 <= i < |l| && Taken(l, i, c);
    }
    var i :| 0 < i < |l| && l[i].core == c;
    assert Find(l, c, 1) <= i;
  }
}
