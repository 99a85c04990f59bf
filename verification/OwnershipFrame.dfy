/** What each step of the offer protocol changes of the offers, the lists and the messages on their way, and what it leaves
    as it was. */
module OwnershipFrame {
  import opened CoreList
  import opened Ownership

  /** The pair whose offer a step is about; a choice also decides the other offers of its kind. */
  predicate IsAbout(a: Action, p: (nat, nat)) {
    match a
    case MakeOffer(g, r, _) => p == (g, r)
    case TakeOffer(g, r, _) => p == (g, r)
    case Stray(g, r) => p == (g, r)
    case ChooseInit(r, g, _) => p == (g, r)
    case ChooseSelf(r, g) => p == (g, r)
    case TakeReject(g, r) => p == (g, r)
    case TakeAnswer(g, r) => p == (g, r)
    case _ => false
  }

  /** Step `a` is `r`'s decision on the offers it holds for a new application, or for the running one. */
  predicate Decides(a: Action, r: nat, forInit: bool) {
    (a.ChooseInit? && a.r == r && forInit) || (a.ChooseSelf? && a.r == r && !forInit)
    || (a.RefuseAll? && a.r == r && a.forInit == forInit)
  }

  /** An offer that the step is not about stays as it is, unless its requester decides on offers of its kind, which
      refuses it. No step changes the cores of an offer. */
  lemma OtherOffers(k: Cluster, s: State, a: Action, g: nat, r: nat)
    requires Valid(k) && Enabled(k, s, a) && !IsAbout(a, (g, r))
    ensures var t := Next(k, s, a);
            && ((g, r) in t.offers <==> (g, r) in s.offers)
            && ((g, r) in s.offers ==>
                  t.offers[(g, r)] ==
                  if s.offers[(g, r)].status.Held? && Decides(a, r, s.offers[(g, r)].status.forInit)
                  then Offer(s.offers[(g, r)].cores, Refused(false)) else s.offers[(g, r)])
  {
  }

  /** The offer that the step is about goes from one status to the next, with its cores, until it is gone. */
  lemma OwnOffer(k: Cluster, s: State, a: Action, g: nat, r: nat)
    requires Valid(k) && Enabled(k, s, a) && IsAbout(a, (g, r))
    ensures var t := Next(k, s, a);
            if a.MakeOffer? then (g, r) in t.offers && t.offers[(g, r)] == Offer(CoresAt(s.At(g), a.at), Sent)
            else if a.TakeReject? || a.TakeAnswer? then (g, r) !in t.offers
            else
              && (g, r) in s.offers && (g, r) in t.offers
              && t.offers[(g, r)] == Offer(s.offers[(g, r)].cores,
                   if a.TakeOffer? then Held(a.forInit) else if a.Stray? then Refused(true) else Accepted)
  {
  }

  /** Whose list a step changes. */
  predicate IsListOf(k: Cluster, a: Action, n: nat) {
    match a
    case MakeOffer(g, _, _) => n == g
    case ChooseInit(r, _, agent) => n == r == agent
    case ChooseSelf(r, _) => n == r
    case TakeReject(g, _) => n == g
    case TakeAnswer(g, _) => n == g
    case StartAgent(msg, _) => n == msg.agent
    case End(m) => n == m
    case TakeFinish(_, c) => c in k.home && n == k.home[c]
    case AddCores(c, _) => c in k.home && n == k.home[c]
    case RemCores(c, _, _) => c in k.home && n == k.home[c]
    case _ => false
  }

  lemma OtherLists(k: Cluster, s: State, a: Action, n: nat)
    requires Valid(k) && Enabled(k, s, a) && !IsListOf(k, a, n)
    ensures Next(k, s, a).At(n) == s.At(n)
  {
  }

  // ---------------------------------------------------------------- directory messages

  lemma {:induction false} AddsTimes(cores: seq<nat>, agent: nat, u: Update)
    ensures AddAll(cores, agent)[u] == if u.AddMsg? && u.agent == agent then Times(cores, u.core) else 0
  {
    if cores != [] {
      AddsTimes(cores[..|cores| - 1], agent, u);
      assert cores == cores[..|cores| - 1] + [cores[|cores| - 1]];
    }
  }

  lemma {:induction false} RemsTimes(cores: seq<nat>, was: nat, now: nat, u: Update)
    ensures RemAll(cores, was, now)[u] == if u.RemMsg? && u.was == was && u.now == now then Times(cores, u.core) else 0
  {
    if cores != [] {
      RemsTimes(cores[..|cores| - 1], was, now, u);
      assert cores == cores[..|cores| - 1] + [cores[|cores| - 1]];
    }
  }

  /** An ADD for a core goes out, naming its new manager, when that one has accepted the core or starts with it on its
      list; a REM, naming both, when a manager reads that its offer of the core was accepted. Each is used up when its
      controller reads it. */
  lemma Reports(k: Cluster, s: State, a: Action, u: Update)
    requires Valid(k) && Enabled(k, s, a)
    ensures var sent := match a
              case ChooseInit(r, g, agent) =>
                if r == agent && u.AddMsg? && u.agent == r then Times(s.offers[(g, r)].cores, u.core) else 0
              case ChooseSelf(r, g) => if u.AddMsg? && u.agent == r then Times(s.offers[(g, r)].cores, u.core) else 0
              case StartAgent(msg, _) =>
                if u.AddMsg? && u.agent == msg.agent then Times(CoresOf(Next(k, s, a).At(msg.agent)), u.core) else 0
              case TakeAnswer(g, r) =>
                if u.RemMsg? && u.was == g && u.now == r && s.offers[(g, r)].status == Accepted && !IsController(k, g)
                then Times(s.offers[(g, r)].cores, u.core) else 0
              case _ => 0;
            var used := (a.AddCores? && u == AddMsg(a.c, a.agent)) || (a.RemCores? && u == RemMsg(a.c, a.was, a.now));
            Next(k, s, a).updates[u] == s.updates[u] + sent - One(used)
  {
    match a
    case ChooseInit(r, g, _) => AddsTimes(s.offers[(g, r)].cores, r, u);
    case ChooseSelf(r, g) => AddsTimes(s.offers[(g, r)].cores, r, u);
    case StartAgent(msg, _) => AddsTimes(CoresOf(Next(k, s, a).At(msg.agent)), msg.agent, u);
    case TakeAnswer(g, r) => RemsTimes(s.offers[(g, r)].cores, g, r, u);
    case _ =>
  }

  /** What a directory message does to the controller's list: the first entry of its core names the new manager, or after a
      REM that finds the old manager's name, nobody until the ADD comes; every other entry stays. */
  lemma DirectoryMarks(k: Cluster, s: State, a: Action, i: nat)
    requires Valid(k) && Enabled(k, s, a) && (a.AddCores? || a.RemCores?) && i < |s.At(k.home[a.c])|
    ensures var l, m := s.At(k.home[a.c]), Next(k, s, a).At(k.home[a.c]);
            && |m| == |l|
            && m[i] == if l[i].core != a.c || (exists j :: 0 <= j < i && l[j].core == a.c) then l[i]
                       else Entry(a.c, if a.AddCores? then a.agent else if l[i].to == -1 then a.now
                                       else if l[i].to == a.was then -2 else l[i].to)
  {
  }
}
