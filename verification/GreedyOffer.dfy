/** `offer_cores_original` of `src/resource_negotiation.c`: round after round the giver marks the core that gains
    most, and among equal gains the nearest, until a round gains nothing. Gains are exact reals and the speedup
    functions are arbitrary. */
module GreedyOffer {

  /** Everything a call of offer_cores_original reads and does not change. Places are positions on the giver's core
      list: `dist` from the centre of the requested region, `low` for low-voltage cores, `busy` for cores with a
      start-of-work interaction under way. */
  datatype Setting = Setting(
    dist: seq<nat>, low: seq<bool>, busy: seq<bool>, radius: int, manager: bool, reqId: int,
    receiver: nat, giver: nat, share: real, speedReq: int -> real, speedMy: int -> real)

  ghost predicate Valid(o: Setting) {
    && |o.low| == |o.dist| == |o.busy|
    && |o.dist| >= (if o.manager then 2 else 1)
    && o.reqId >= 0
  }

  function SpeedReq(o: Setting, n: int): real {
    o.speedReq(n)
  }

  function SpeedMy(o: Setting, n: int): real {
    o.speedMy(n)
  }

  /** What the receiver gains by its `k+1`-st offered core. */
  function GainReceiver(o: Setting, k: nat): real {
    if o.receiver + k == 0 then 1000.0
    else if o.receiver + k == 1 then 100.0
    else o.share * (SpeedReq(o, o.receiver + k + 1) - SpeedReq(o, o.receiver + k))
  }

  function LossGiver(o: Setting, k: nat): real {
    if o.manager then SpeedMy(o, o.giver - k) - SpeedMy(o, o.giver - (k + 1)) else 0.0
  }

  function Gain(o: Setting, k: nat): real {
    GainReceiver(o, k) - LossGiver(o, k)
  }

  /** Places a giver never offers: its own, and a manager's only sure worker. */
  function First(o: Setting): nat {
    if o.manager then 2 else 1
  }

  predicate InReach(o: Setting, off: seq<int>, i: nat)
    requires i < |off| == |o.dist|
  {
    i >= First(o) && off[i] == -1 && o.dist[i] <= o.radius
  }

  /** A core that is compared by gain and distance. */
  predicate Candidate(o: Setting, off: seq<int>, i: nat)
    requires i < |off| == |o.dist| == |o.low| == |o.busy|
  {
    InReach(o, off, i) && if o.manager then !o.busy[i] else !o.low[i]
  }

  /** A low-voltage core, which a controller gives away first of all to a new application. */
  predicate Preferred(o: Setting, off: seq<int>, k: nat, i: nat)
    requires i < |off| == |o.dist| == |o.low|
  {
    !o.manager && k == 0 && o.receiver == 0 && o.low[i] && InReach(o, off, i)
  }

  /** The best of the candidates before `n`: the first of the nearest. */
  ghost predicate Nearest(o: Setting, off: seq<int>, n: nat, c: nat)
    requires n <= |off| == |o.dist| == |o.low| == |o.busy|
  {
    && c < n && Candidate(o, off, c)
    && forall j: nat | j < n && Candidate(o, off, j) :: o.dist[c] < o.dist[j] || (o.dist[c] == o.dist[j] && c <= j)
  }

  ghost predicate NoCandidate(o: Setting, off: seq<int>, n: nat)
    requires n <= |off| == |o.dist| == |o.low| == |o.busy|
  {
    forall j: nat | j < n :: !Candidate(o, off, j)
  }

  ghost predicate NoPreferred(o: Setting, off: seq<int>, k: nat, n: nat)
    requires n <= |off| == |o.dist| == |o.low|
  {
    forall j: nat | j < n :: !Preferred(o, off, k, j)
  }

  lemma OneMore(o: Setting, off: seq<int>, n: nat)
    requires n < |off| == |o.dist| == |o.low| == |o.busy|
    ensures NoCandidate(o, off, n + 1) <==> NoCandidate(o, off, n) && !Candidate(o, off, n)
  {
  }

  /** One round of a controller: the walk over its list after `k` offers. `gain` stays 0 when nothing is chosen. */
  method PickController(o: Setting, offeredTo: array<int>, k: nat) returns (gain: real, choice: nat)
    requires Valid(o) && !o.manager && offeredTo.Length == |o.dist|
    ensures var off := offeredTo[..];
            if !NoPreferred(o, off, k, |off|) then
              choice < |off| && Preferred(o, off, k, choice) && NoPreferred(o, off, k, choice) && gain > 0.0
            else if Gain(o, k) > 0.0 && !NoCandidate(o, off, |off|) then
              Nearest(o, off, |off|, choice) && gain == Gain(o, k)
            else gain == 0.0
  {
    gain, choice := 0.0, 0;
    var minDist := -1;
    var tmp := 1;
    ghost var off := offeredTo[..];
    while tmp < offeredTo.Length
      invariant 1 <= tmp <= |off| && NoPreferred(o, off, k, tmp)
      invariant Walked(o, off, k, tmp, gain, choice, minDist)
    {
      var curDist := o.dist[tmp];
      OneMore(o, off, tmp);
      assert off[tmp] == offeredTo[tmp];
      if offeredTo[tmp] == -1 && curDist <= o.radius {
        if o.low[tmp] && k == 0 && o.receiver == 0 {
          gain, choice := 1000.0, tmp;
          assert Preferred(o, off, k, tmp);
          return;
        } else if !o.low[tmp] {
          var newGain := GainReceiver(o, k) - 0.0;
          if newGain > gain {
            gain, minDist, choice := newGain, curDist, tmp;
          } else if newGain == gain && curDist < minDist {
            minDist, choice := curDist, tmp;
          }
        }
      }
      tmp := tmp + 1;
    }
  }

  /** After the walk over the places before `n`. */
  ghost predicate Walked(o: Setting, off: seq<int>, k: nat, n: nat, gain: real, choice: nat, minDist: int)
    requires n <= |off| == |o.dist| == |o.low| == |o.busy|
  {
    if Gain(o, k) > 0.0 && !NoCandidate(o, off, n) then
      Nearest(o, off, n, choice) && gain == Gain(o, k) && minDist == o.dist[choice]
    else gain == 0.0 && minDist == -1
  }

  /** One round of a manager. */
  method PickManager(o: Setting, offeredTo: array<int>, k: nat) returns (gain: real, choice: nat)
    requires Valid(o) && o.manager && offeredTo.Length == |o.dist|
    ensures var off := offeredTo[..];
            if Gain(o, k) > 0.0 && !NoCandidate(o, off, |off|) then Nearest(o, off, |off|, choice) && gain == Gain(o, k)
            else gain == 0.0
  {
    gain, choice := 0.0, 0;
    var minDist := -1;
    var baseGiver := SpeedMy(o, o.giver - k);
    var tmp := 2;
    ghost var off := offeredTo[..];
    while tmp < offeredTo.Length
      invariant 2 <= tmp <= |off|
      invariant Walked(o, off, k, tmp, gain, choice, minDist)
    {
      OneMore(o, off, tmp);
      if o.busy[tmp] {
        tmp := tmp + 1;
      } else {
        var curDist := o.dist[tmp];
        assert off[tmp] == offeredTo[tmp];
        if offeredTo[tmp] == -1 && curDist <= o.radius {
          var newGain := GainReceiver(o, k) - (baseGiver - SpeedMy(o, o.giver - (k + 1)));
          if newGain > gain {
            gain, minDist, choice := newGain, curDist, tmp;
          } else if newGain == gain && curDist < minDist {
            minDist, choice := curDist, tmp;
          }
        }
        tmp := tmp + 1;
      }
    }
  }

  // ---------------------------------------------------------------- the count before the rounds

  /** How many of the first `n` places are inside the region. */
  function Inside(o: Setting, n: nat): nat
    requires n <= |o.dist|
  {
    if n == 0 then 0 else Inside(o, n - 1) + if o.dist[n - 1] <= o.radius then 1 else 0
  }

  /** How many of the first `n` places are offered already. */
  function Taken(off: seq<int>, n: nat): nat
    requires n <= |off|
  {
    if n == 0 then 0 else Taken(off, n - 1) + if off[n - 1] != -1 then 1 else 0
  }

  method Count(o: Setting, offeredTo: array<int>) returns (share: nat, offered: nat)
    requires offeredTo.Length == |o.dist|
    ensures share == Inside(o, |o.dist|) && offered == Taken(offeredTo[..], |o.dist|)
    ensures share == |set i | 0 <= i < |o.dist| && o.dist[i] <= o.radius|
    ensures offered == |set i | 0 <= i < offeredTo.Length && offeredTo[i] != -1|
  {
    share, offered := 0, 0;
    var tmp := 0;
    while tmp < offeredTo.Length
      invariant tmp <= offeredTo.Length && share == Inside(o, tmp) && offered == Taken(offeredTo[..], tmp)
    {
      if o.dist[tmp] <= o.radius {
        share := share + 1;
      }
      if offeredTo[tmp] != -1 {
        offered := offered + 1;
      }
      tmp := tmp + 1;
    }
    InsideSize(o, |o.dist|);
    TakenSize(offeredTo[..], offeredTo.Length);
    assert (set i | 0 <= i < |offeredTo[..]| && offeredTo[..][i] != -1) == set i | 0 <= i < offeredTo.Length && offeredTo[i] != -1;
  }

  lemma {:induction false} InsideSize(o: Setting, n: nat)
    requires n <= |o.dist|
    ensures Inside(o, n) == |set i | 0 <= i < n && o.dist[i] <= o.radius|
  {
    if n > 0 {
      InsideSize(o, n - 1);
      assert (set i | 0 <= i < n && o.dist[i] <= o.radius) ==
             (set i | 0 <= i < n - 1 && o.dist[i] <= o.radius) + if o.dist[n - 1] <= o.radius then {n - 1} else {};
    }
  }

  lemma {:induction false} TakenSize(off: seq<int>, n: nat)
    requires n <= |off|
    ensures Taken(off, n) == |set i | 0 <= i < n && off[i] != -1|
  {
    if n > 0 {
      TakenSize(off, n - 1);
      assert (set i | 0 <= i < n && off[i] != -1) ==
             (set i | 0 <= i < n - 1 && off[i] != -1) + if off[n - 1] != -1 then {n - 1} else {};
    }
  }

  // ---------------------------------------------------------------- all the rounds

  /** Where the choice by distance begins: after the low-voltage core, if one was given away first. */
  ghost function From(o: Setting, off: seq<int>): nat
    requires |off| == |o.dist| == |o.low|
  {
    if NoPreferred(o, off, 0, |off|) then 0 else 1
  }

  /** `now` is `was` with the chosen places marked for the requester; nothing else has changed. */
  ghost predicate Marked(o: Setting, was: seq<int>, now: seq<int>, chosen: seq<nat>) {
    && |now| == |was| == |o.dist|
    && (forall i, j | 0 <= i < j < |chosen| :: chosen[i] != chosen[j])
    && (forall i | 0 <= i < |chosen| :: chosen[i] < |was| && InReach(o, was, chosen[i]))
    && (forall i: nat | i < |was| :: now[i] == if i in chosen then o.reqId else was[i])
  }

  /** Every core chosen by distance is nearer than every candidate left, or as near and before it on the list. */
  ghost predicate Nearer(o: Setting, was: seq<int>, chosen: seq<nat>)
    requires |was| == |o.dist| == |o.low| == |o.busy|
  {
    && (forall i | From(o, was) <= i < |chosen| :: chosen[i] < |was| && Candidate(o, was, chosen[i]))
    && (forall i, j: nat | From(o, was) <= i < |chosen| && j < |was| && Candidate(o, was, j) && j !in chosen ::
          o.dist[chosen[i]] < o.dist[j] || (o.dist[chosen[i]] == o.dist[j] && chosen[i] < j))
  }

  /** The low-voltage core given away first is the first on the list. */
  ghost predicate PreferredFirst(o: Setting, was: seq<int>, chosen: seq<nat>)
    requires |was| == |o.dist| == |o.low|
  {
    chosen != [] && From(o, was) == 1 ==>
      chosen[0] < |was| && Preferred(o, was, 0, chosen[0]) && NoPreferred(o, was, 0, chosen[0])
  }

  ghost predicate Gained(o: Setting, was: seq<int>, n: nat)
    requires |was| == |o.dist| == |o.low|
  {
    forall k: nat | From(o, was) <= k < n :: Gain(o, k) > 0.0
  }

  ghost predicate Rounds(o: Setting, was: seq<int>, now: seq<int>, chosen: seq<nat>)
    requires Valid(o) && |was| == |o.dist|
  {
    && Marked(o, was, now, chosen) && Nearer(o, was, chosen)
    && PreferredFirst(o, was, chosen) && Gained(o, was, |chosen|)
  }

  /** A further round would gain nothing: no gain, or no candidate left. */
  ghost predicate NoMore(o: Setting, was: seq<int>, now: seq<int>, n: nat)
    requires Valid(o) && |was| == |o.dist| == |now|
  {
    From(o, was) <= n && (Gain(o, n) <= 0.0 || NoCandidate(o, now, |now|))
  }

  /** A core is still a candidate after some rounds if it was one before and has not been chosen. */
  lemma StillCandidate(o: Setting, was: seq<int>, now: seq<int>, chosen: seq<nat>, j: nat)
    requires Valid(o) && |was| == |o.dist| && Marked(o, was, now, chosen) && j < |was|
    ensures Candidate(o, now, j) <==> Candidate(o, was, j) && j !in chosen
  {
  }

  lemma RoundNearest(o: Setting, was: seq<int>, now: seq<int>, chosen: seq<nat>, c: nat)
    requires Valid(o) && |was| == |o.dist| && Rounds(o, was, now, chosen)
    requires Nearest(o, now, |now|, c) && Gain(o, |chosen|) > 0.0 && From(o, was) <= |chosen|
    ensures Rounds(o, was, now[c := o.reqId], chosen + [c])
  {
    StillCandidate(o, was, now, chosen, c);
    forall j: nat | j < |was| && Candidate(o, was, j) && j !in chosen + [c]
      ensures o.dist[c] < o.dist[j] || (o.dist[c] == o.dist[j] && c < j)
    {
      StillCandidate(o, was, now, chosen, j);
    }
  }

  lemma RoundPreferred(o: Setting, was: seq<int>, c: nat)
    requires Valid(o) && |was| == |o.dist| && c < |was| && Preferred(o, was, 0, c) && NoPreferred(o, was, 0, c)
    ensures Rounds(o, was, was[c := o.reqId], [c])
  {
  }

  /** One walk over the list, on the state after some rounds. */
  method Round(o: Setting, offeredTo: array<int>, ghost was: seq<int>, chosen: seq<nat>)
    returns (gain: real, choice: nat)
    requires Valid(o) && |was| == |o.dist| == offeredTo.Length && Rounds(o, was, offeredTo[..], chosen)
    ensures gain > 0.0 ==> choice < |was| && offeredTo[choice] == -1
    ensures gain > 0.0 ==> Rounds(o, was, offeredTo[..][choice := o.reqId], chosen + [choice])
    ensures gain <= 0.0 ==> NoMore(o, was, offeredTo[..], |chosen|)
  {
    ghost var now := offeredTo[..];
    assert chosen == [] ==> now == was;
    if o.manager {
      gain, choice := PickManager(o, offeredTo, |chosen|);
      assert NoPreferred(o, was, 0, |was|);
    } else {
      gain, choice := PickController(o, offeredTo, |chosen|);
    }
    if gain > 0.0 {
      if NoPreferred(o, now, |chosen|, |now|) {
        RoundNearest(o, was, now, chosen, choice);
      } else {
        assert chosen == [] && [choice] == chosen + [choice];
        RoundPreferred(o, was, choice);
      }
    }
  }

  ghost function Open(off: seq<int>): set<nat> {
    set i: nat | i < |off| && off[i] == -1
  }

  /** Marks the cores offered and returns their places on the list. */
  method OfferCores(o: Setting, regionCount: nat, offeredTo: array<int>) returns (chosen: seq<nat>)
    requires Valid(o) && offeredTo.Length == |o.dist| && regionCount > 0
    requires o.share == Inside(o, |o.dist|) as real / regionCount as real
    modifies offeredTo
    ensures var was, now := old(offeredTo[..]), offeredTo[..];
            && Rounds(o, was, now, chosen)
            && if o.manager && Taken(was, |was|) == |was| - 2 then chosen == [] else NoMore(o, was, now, |chosen|)
  {
    ghost var was := offeredTo[..];
    chosen := [];
    var share, offered := Count(o, offeredTo);
    if offered == offeredTo.Length - 2 && o.manager {
      return;
    }
    assert share as real / regionCount as real == o.share;
    var gain := 0.1;
    while gain > 0.0
      invariant Rounds(o, was, offeredTo[..], chosen)
      invariant gain <= 0.0 ==> NoMore(o, was, offeredTo[..], |chosen|)
      decreases gain > 0.0, Open(offeredTo[..])
    {
      var choice;
      ghost var now := offeredTo[..];
      gain, choice := Round(o, offeredTo, was, chosen);
      if gain > 0.0 {
        chosen := chosen + [choice];
        offeredTo[choice] := o.reqId;
        assert offeredTo[..] == now[choice := o.reqId];
        assert choice in Open(now) && choice !in Open(offeredTo[..]);
      }
    }
  }

  // ---------------------------------------------------------------- what it comes to

  /** A place whose core is still to be had: not one the giver keeps, free and in the region, and of a manager not about
      to start work. */
  predicate Free(o: Setting, off: seq<int>, j: nat)
    requires j < |off| == |o.dist| == |o.low| == |o.busy|
  {
    j >= (if o.manager then 2 else 1) && off[j] == -1 && o.dist[j] <= o.radius && (o.manager ==> !o.busy[j])
  }

  /** The cores marked were free, and no other entry changes. A controller's low-voltage core goes only to a new
      application, and first. */
  lemma OnlyFree(o: Setting, was: seq<int>, now: seq<int>, chosen: seq<nat>)
    requires Valid(o) && |was| == |o.dist| && Rounds(o, was, now, chosen)
    ensures |now| == |was| && forall i: nat | i < |was| :: now[i] == if i in chosen then o.reqId else was[i]
    ensures forall i, j | 0 <= i < j < |chosen| :: chosen[i] != chosen[j]
    ensures forall i | i in chosen :: i < |was| && Free(o, was, i)
    ensures !o.manager ==> forall x | 0 <= x < |chosen| && o.low[chosen[x]] :: x == 0 && o.receiver == 0
  {
    forall x | 0 <= x < |chosen|
      ensures Free(o, was, chosen[x])
    {
      assert InReach(o, was, chosen[x]);
      assert x >= From(o, was) ==> Candidate(o, was, chosen[x]);
    }
  }

  /** The cores marked are the nearest that are free, those before on the list first; low-voltage cores apart, of which a
      controller gives only a new application one, and that the first on the list. */
  lemma KNearest(o: Setting, was: seq<int>, now: seq<int>, chosen: seq<nat>)
    requires Valid(o) && |was| == |o.dist| && Rounds(o, was, now, chosen) && NoMore(o, was, now, |chosen|)
    ensures forall x, j: nat | 0 <= x < |chosen| && j < |now| && Free(o, now, j) && (o.manager || !(o.low[chosen[x]] || o.low[j])) ::
              o.dist[chosen[x]] < o.dist[j] || (o.dist[chosen[x]] == o.dist[j] && chosen[x] < j)
    ensures forall j: nat | !o.manager && o.receiver == 0 && j < |was| && Free(o, was, j) && o.low[j] ::
              chosen != [] && o.low[chosen[0]] && chosen[0] <= j
  {
    OnlyFree(o, was, now, chosen);
    forall x, j: nat | 0 <= x < |chosen| && j < |now| && Free(o, now, j) && (o.manager || !(o.low[chosen[x]] || o.low[j]))
      ensures o.dist[chosen[x]] < o.dist[j] || (o.dist[chosen[x]] == o.dist[j] && chosen[x] < j)
    {
      StillCandidate(o, was, now, chosen, j);
    }
    forall j: nat | !o.manager && o.receiver == 0 && j < |was| && Free(o, was, j) && o.low[j]
      ensures chosen != [] && o.low[chosen[0]] && chosen[0] <= j
    {
      assert Preferred(o, was, 0, j);
    }
  }

  /** Whether a controller offers an `n+1`-st core, while there is one: up to the receiver's second always, and from there
      on exactly when the application gets faster by it. */
  lemma ControllerGoesOn(o: Setting, was: seq<int>, now: seq<int>, chosen: seq<nat>, n: nat)
    requires Valid(o) && |was| == |o.dist| && Rounds(o, was, now, chosen) && NoMore(o, was, now, |chosen|) && !o.manager
    requires n < |chosen| || (n == |chosen| && exists j: nat :: j < |now| && Free(o, now, j) && !o.low[j])
    ensures n < |chosen| <==>
            o.receiver + n <= 1 || o.share * (o.speedReq(o.receiver + n + 1) - o.speedReq(o.receiver + n)) > 0.0
  {
    if n < From(o, was) {
      var j: nat :| j < |was| && Preferred(o, was, 0, j);
    } else if n < |chosen| {
      assert Gain(o, n) > 0.0;
    } else {
      var j: nat :| j < |now| && Free(o, now, j) && !o.low[j];
      assert Candidate(o, now, j);
    }
  }

  /** Whether a manager offers an `n+1`-st core, while there is one: exactly when it loses less by it than the receiver
      gains, which counts as 1000 for its first core and as 100 for its second. */
  lemma ManagerGoesOn(o: Setting, was: seq<int>, now: seq<int>, chosen: seq<nat>, n: nat)
    requires Valid(o) && |was| == |o.dist| && Rounds(o, was, now, chosen) && NoMore(o, was, now, |chosen|) && o.manager
    requires n < |chosen| || (n == |chosen| && exists j: nat :: j < |now| && Free(o, now, j))
    ensures n < |chosen| <==>
            o.speedMy(o.giver - n) - o.speedMy(o.giver - (n + 1)) <
            if o.receiver + n == 0 then 1000.0 else if o.receiver + n == 1 then 100.0
            else o.share * (o.speedReq(o.receiver + n + 1) - o.speedReq(o.receiver + n))
  {
    if n < |chosen| {
      assert From(o, was) <= n && Gain(o, n) > 0.0;
    } else {
      var j: nat :| j < |now| && Free(o, now, j);
      assert Candidate(o, now, j);
    }
  }

  /** The gains of the rounds add up to the whole trade. */
  lemma {:induction false} TradeSum(o: Setting, n: nat)
    requires o.manager && o.receiver >= 2 && n >= 1
    requires forall k: nat | k < n :: Gain(o, k) > 0.0
    ensures o.share * (SpeedReq(o, o.receiver + n) - SpeedReq(o, o.receiver)) > SpeedMy(o, o.giver) - SpeedMy(o, o.giver - n)
  {
    assert Gain(o, n - 1) > 0.0;
    if n > 1 {
      TradeSum(o, n - 1);
      Split(o.share, SpeedReq(o, o.receiver + n), SpeedReq(o, o.receiver + n - 1), SpeedReq(o, o.receiver));
    }
  }

  lemma Split(s: real, a: real, b: real, c: real)
    ensures s * (a - c) == s * (a - b) + s * (b - c)
  {
  }

  /** A manager gives cores to an application with at least two only at a profit. */
  lemma TradeProfitable(o: Setting, was: seq<int>, now: seq<int>, chosen: seq<nat>)
    requires Valid(o) && |was| == |o.dist| && Rounds(o, was, now, chosen)
    requires o.manager && o.receiver >= 2 && chosen != []
    ensures var n := |chosen|;
            o.share * (o.speedReq(o.receiver + n) - o.speedReq(o.receiver)) > o.speedMy(o.giver) - o.speedMy(o.giver - n)
  {
    assert NoPreferred(o, was, 0, |was|);
    TradeSum(o, |chosen|);
  }
}
