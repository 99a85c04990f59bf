/** What `offer_cores_original` chooses is an offer as the protocol of cores allows it, and the marks it leaves are those
    of the protocol's step. */
module GreedyStep {
  import CoreList
  import GreedyOffer
  import Ownership

  /** The column of marks of a core list, which is what the greedy choice reads and changes. */
  ghost predicate Column(l: CoreList.List, off: seq<int>) {
    |l| == |off| && forall i | 0 <= i < |l| :: l[i].to == off[i]
  }

  lemma {:induction false} OfferedIsTaken(l: CoreList.List, off: seq<int>, n: nat)
    requires Column(l, off) && n <= |l|
    ensures Ownership.OfferedOut(l[..n]) == GreedyOffer.Taken(off, n)
  {
    if n > 0 {
      OfferedIsTaken(l, off, n - 1);
      assert l[..n][..n - 1] == l[..n - 1];
    }
  }

  lemma ColumnMarked(l: CoreList.List, was: seq<int>, now: seq<int>, chosen: seq<nat>, r: nat)
    requires Column(l, was) && |now| == |was| && CoreList.Inside(chosen, l)
    requires forall i: nat | i < |was| :: now[i] == if i in chosen then r else was[i]
    ensures Column(CoreList.Marked(l, chosen, r), now)
  {
    forall i: nat | i < |l|
      ensures CoreList.Marked(l, chosen, r)[i].to == now[i]
    {
      CoreList.MarkedAt(l, chosen, r, i);
    }
  }

  lemma ChoiceAllowed(o: GreedyOffer.Setting, l: CoreList.List, was: seq<int>, now: seq<int>, chosen: seq<nat>)
    requires GreedyOffer.Valid(o) && |was| == |o.dist| && Column(l, was) && GreedyOffer.Rounds(o, was, now, chosen)
    requires chosen != [] && (o.manager ==> GreedyOffer.Taken(was, |was|) != |was| - 2)
    ensures Ownership.Offerable(l, chosen) && (o.manager ==> Ownership.CanSpare(l, chosen))
  {
    GreedyOffer.OnlyFree(o, was, now, chosen);
    forall x | 0 <= x < |chosen|
      ensures GreedyOffer.Free(o, was, chosen[x])
    {
      assert chosen[x] in chosen;
    }
    assert GreedyOffer.Free(o, was, chosen[0]);
    OfferedIsTaken(l, was, |l|);
    assert l[..|l|] == l;
  }

  /** Whatever a giver chooses for a requester, the protocol lets it offer, and the list afterwards has the marks that the
      choice has left. */
  lemma ChoiceIsStep(k: Ownership.Cluster, s: Ownership.State, g: nat, r: nat, o: GreedyOffer.Setting, was: seq<int>,
                     now: seq<int>, chosen: seq<nat>)
    requires Ownership.Valid(k) && g in k.nodes && r in k.nodes && g != r && (g, r) !in s.offers && (r, g) !in s.offers
    requires GreedyOffer.Valid(o) && o.reqId == r && (o.manager <==> !Ownership.IsController(k, g))
    requires Column(s.At(g), was) && |was| == |o.dist| && GreedyOffer.Rounds(o, was, now, chosen) && chosen != []
    requires o.manager ==> GreedyOffer.Taken(was, |was|) != |was| - 2
    ensures Ownership.Enabled(k, s, Ownership.MakeOffer(g, r, chosen))
    ensures Column(Ownership.Next(k, s, Ownership.MakeOffer(g, r, chosen)).At(g), now)
  {
    ChoiceAllowed(o, s.At(g), was, now, chosen);
    GreedyOffer.OnlyFree(o, was, now, chosen);
    ColumnMarked(s.At(g), was, now, chosen, r);
  }
}
