/** Over every run of the offer protocol no core is free for two nodes. */
module OwnershipRuns {
  import opened CoreList
  import opened Ownership
  import opened OwnershipSteps

  ghost predicate Possible(k: Cluster, s: State, acts: seq<Action>)
    requires Valid(k)
    decreases |acts|
  {
    acts != [] ==> Enabled(k, s, acts[0]) && Possible(k, Next(k, s, acts[0]), acts[1..])
  }

  ghost function After(k: Cluster, s: State, acts: seq<Action>): State
    requires Valid(k) && Possible(k, s, acts)
    decreases |acts|
  {
    if acts == [] then s else After(k, Next(k, s, acts[0]), acts[1..])
  }

  lemma {:induction false} RunInv(k: Cluster, s: State, acts: seq<Action>)
    requires Inv(k, s) && Possible(k, s, acts)
    ensures Inv(k, After(k, s, acts))
    decreases |acts|
  {
    if acts != [] {
      NextInv(k, s, acts[0]);
      RunInv(k, Next(k, s, acts[0]), acts[1..]);
    }
  }

  /** Over every run: a core is free for the use of at most one node, listed free there once, and of none while it
      is offered, on its way to a new agent or on its way back; and no two messages or offers carry it. */
  lemma OneOwner(k: Cluster, s: State, acts: seq<Action>, c: nat, p: Place, q: Place)
    requires IsStart(k, s) && Possible(k, s, acts)
    requires IsAt(After(k, s, acts), c, p) && IsAt(After(k, s, acts), c, q)
    ensures p == q && Tokens(After(k, s, acts), c, p) == 1
  {
    StartInv(k, s);
    RunInv(k, s, acts);
    ApartIs(After(k, s, acts), c, p, q);
  }
}
