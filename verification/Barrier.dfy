/** The gather/release barrier of `RCCE_synch.c`, used any number of times in a row by any number of members under
    any interleaving. Member 0 is the root; every read or write of one flag is one step. */
module Barrier {

  /** Where a member is inside RCCE_barrier. The root scans the gather flags from member `i`, having counted `counter`
      arrivals, and then writes the release flags from member `i` on. */
  datatype Phase = Outside | Waiting | Scanning(i: nat, counter: nat) | Releasing(i: nat)

  /** `entered` counts the barriers a member has checked into; it is not kept by the program. */
  datatype Member = Member(gather: bool, release: bool, phase: Phase, entered: nat)

  type State = seq<Member>

  predicate IsInit(s: State) {
    s != [] && forall m | 0 <= m < |s| :: s[m] == Member(false, false, Outside, 0)
  }

  /** One step of member `m`: check in, or go on with the barrier it is in. */
  datatype Action = Enter(m: nat) | Go(m: nat)

  predicate Enabled(s: State, a: Action) {
    a.m < |s| &&
    match a
    case Enter(m) => s[m].phase.Outside?
    case Go(m) =>
      match s[m].phase
      case Outside => false
      case Waiting => s[m].release == s[m].gather
      case _ => true
  }

  function Next(s: State, a: Action): (t: State)
    requires Enabled(s, a)
    ensures |t| == |s|
  {
    match a
    case Enter(m) =>
      s[m := s[m].(gather := !s[m].gather, entered := s[m].entered + 1,
                   phase := if m == 0 then Scanning(1, 1) else Waiting)]
    case Go(m) =>
      match s[m].phase
      case Waiting => s[m := s[m].(phase := Outside)]
      case Scanning(i, counter) =>
        if i < |s| then
          s[m := s[m].(phase := Scanning(i + 1, if s[i].gather == s[m].gather then counter + 1 else counter))]
        else s[m := s[m].(phase := if counter == |s| then Releasing(1) else Scanning(1, 1))]
      case Releasing(i) =>
        if i < |s| then s[i := s[i].(release := s[m].gather)][m := s[m].(phase := Releasing(i + 1))]
        else s[m := s[m].(phase := Outside)]
  }

  // ---------------------------------------------------------------- the invariant

  function Odd(n: nat): bool {
    n % 2 == 1
  }

  /** How many barriers member `m` has left. */
  function LeftCount(x: Member): int {
    if x.phase.Outside? then x.entered else x.entered - 1
  }

  /** How many times the root has released member `m`. */
  function Released(root: Member, m: nat): int {
    match root.phase
    case Outside => root.entered
    case Releasing(i) => if m < i then root.entered else root.entered - 1
    case _ => root.entered - 1
  }

  /** What holds between the root and another member: released at most once since it checked in. */
  ghost predicate MemberOk(root: Member, x: Member, m: nat) {
    && (x.phase.Outside? || x.phase.Waiting?)
    && x.gather == Odd(x.entered)
    && (x.phase.Waiting? ==> x.entered > 0)
    && 0 <= Released(root, m) && LeftCount(x) <= Released(root, m) <= x.entered <= Released(root, m) + 1
    && x.release == Odd(Released(root, m))
  }

  /** The root has counted exactly when everyone it looked at in this scan has arrived. */
  ghost predicate RootOk(s: State)
    requires s != []
  {
    var x := s[0];
    && x.gather == Odd(x.entered)
    && match x.phase
       case Outside => true
       case Waiting => false
       case Scanning(i, counter) =>
         1 <= counter <= i <= |s| && x.entered > 0 && (counter == i ==> Arrived(s, i, x.entered))
       case Releasing(i) => 1 <= i <= |s| && x.entered > 0 && Arrived(s, |s|, x.entered)
  }

  ghost predicate Arrived(s: State, n: nat, k: nat)
    requires n <= |s|
  {
    forall m | 1 <= m < n :: s[m].entered >= k
  }

  ghost predicate Inv(s: State) {
    s != [] && RootOk(s) && forall m | 1 <= m < |s| :: MemberOk(s[0], s[m], m)
  }

  lemma EnterInv(s: State, m: nat)
    requires Inv(s) && Enabled(s, Enter(m))
    ensures Inv(Next(s, Enter(m)))
  {
    var t := Next(s, Enter(m));
    forall k | 1 <= k < |t|
      ensures MemberOk(t[0], t[k], k)
    {
      assert MemberOk(s[0], s[k], k);
    }
  }

  /** A member other than the root leaves. */
  lemma LeaveInv(s: State, m: nat)
    requires Inv(s) && Enabled(s, Go(m)) && m > 0
    ensures Inv(Next(s, Go(m)))
  {
    var t := Next(s, Go(m));
    forall k | 1 <= k < |t|
      ensures MemberOk(t[0], t[k], k)
    {
      assert MemberOk(s[0], s[k], k);
    }
  }

  lemma ScanInv(s: State)
    requires Inv(s) && s[0].phase.Scanning?
    ensures Inv(Next(s, Go(0)))
  {
    var t, i := Next(s, Go(0)), s[0].phase.i;
    if i < |s| {
      assert MemberOk(s[0], s[i], i);
    }
    forall k | 1 <= k < |t|
      ensures MemberOk(t[0], t[k], k)
    {
      assert MemberOk(s[0], s[k], k);
    }
  }

  lemma ReleaseInv(s: State)
    requires Inv(s) && s[0].phase.Releasing?
    ensures Inv(Next(s, Go(0)))
  {
    var t := Next(s, Go(0));
    forall k | 1 <= k < |t|
      ensures MemberOk(t[0], t[k], k)
    {
      assert MemberOk(s[0], s[k], k);
    }
  }

  lemma NextInv(s: State, a: Action)
    requires Inv(s) && Enabled(s, a)
    ensures Inv(Next(s, a))
  {
    match a
    case Enter(m) => EnterInv(s, m);
    case Go(m) =>
      if m > 0 {
        LeaveInv(s, m);
      } else if s[0].phase.Scanning? {
        ScanInv(s);
      } else {
        ReleaseInv(s);
      }
  }

  // ---------------------------------------------------------------- safety

  /** Nobody has left barrier `k` before everybody has checked into it. */
  ghost predicate Safe(s: State) {
    forall m, n | 0 <= m < |s| && 0 <= n < |s| :: LeftCount(s[m]) <= s[n].entered
  }

  ghost predicate Possible(s: State, acts: seq<Action>)
    decreases |acts|
  {
    acts != [] ==> Enabled(s, acts[0]) && Possible(Next(s, acts[0]), acts[1..])
  }

  ghost function After(s: State, acts: seq<Action>): (t: State)
    requires Possible(s, acts)
    ensures |t| == |s|
    decreases |acts|
  {
    if acts == [] then s else After(Next(s, acts[0]), acts[1..])
  }

  lemma {:induction false} RunInv(s: State, acts: seq<Action>)
    requires Inv(s) && Possible(s, acts)
    ensures Inv(After(s, acts))
    decreases |acts|
  {
    if acts != [] {
      NextInv(s, acts[0]);
      RunInv(Next(s, acts[0]), acts[1..]);
    }
  }

  /** Over every run: nobody is past a barrier that somebody has not reached. */
  lemma BarrierHolds(s: State, acts: seq<Action>)
    requires IsInit(s) && Possible(s, acts)
    ensures Safe(After(s, acts))
  {
    RunInv(s, acts);
  }

  // ---------------------------------------------------------------- the barrier opens

  /** Everyone has checked into barrier `k`. */
  ghost predicate AllIn(s: State, k: nat) {
    forall m | 0 <= m < |s| :: s[m].entered == k
  }

  /** Steps of the root still to come once everyone is in; a scan that missed somebody is repeated in full. */
  function RootLeft(s: State): int
    requires s != []
  {
    match s[0].phase
    case Scanning(i, counter) => |s| - i + 1 + (if counter == i then |s| else 2 * |s|)
    case Releasing(i) => |s| - i + 1
    case _ => 0
  }

  ghost function Waiters(s: State): set<nat> {
    set m: nat | m < |s| && s[m].phase.Waiting?
  }

  ghost function StepsLeft(s: State): int
    requires s != []
  {
    RootLeft(s) + |Waiters(s)|
  }

  lemma LeaveCounts(s: State, m: nat)
    requires Inv(s) && m > 0 && Enabled(s, Go(m))
    ensures StepsLeft(Next(s, Go(m))) < StepsLeft(s)
  {
    assert MemberOk(s[0], s[m], m);
    assert Waiters(Next(s, Go(m))) == Waiters(s) - {m};
  }

  lemma RootCounts(s: State, k: nat)
    requires Inv(s) && AllIn(s, k) && Enabled(s, Go(0))
    ensures StepsLeft(Next(s, Go(0))) < StepsLeft(s)
  {
    var t, i := Next(s, Go(0)), if s[0].phase.Scanning? then s[0].phase.i else 0;
    assert Waiters(t) == Waiters(s);
    assert 0 < i < |s| ==> MemberOk(s[0], s[i], i);
  }

  lemma GoCounts(s: State, m: nat, k: nat)
    requires Inv(s) && AllIn(s, k) && Enabled(s, Go(m))
    ensures AllIn(Next(s, Go(m)), k) && StepsLeft(Next(s, Go(m))) < StepsLeft(s)
  {
    if m > 0 {
      LeaveCounts(s, m);
    } else {
      RootCounts(s, k);
    }
  }

  lemma SomeoneGoes(s: State, k: nat) returns (m: nat)
    requires Inv(s) && AllIn(s, k) && exists n :: 0 <= n < |s| && !s[n].phase.Outside?
    ensures Enabled(s, Go(m))
  {
    if s[0].phase.Outside? {
      m :| 0 <= m < |s| && !s[m].phase.Outside?;
      assert MemberOk(s[0], s[m], m);
    } else {
      m := 0;
    }
  }

  ghost predicate Goes(s: State, ms: seq<nat>)
    decreases |ms|
  {
    ms != [] ==> Enabled(s, Go(ms[0])) && Goes(Next(s, Go(ms[0])), ms[1..])
  }

  ghost function Gone(s: State, ms: seq<nat>): (t: State)
    requires Goes(s, ms)
    ensures |t| == |s|
    decreases |ms|
  {
    if ms == [] then s else Gone(Next(s, Go(ms[0])), ms[1..])
  }

  /** Once everyone is in, a bounded number of steps in any order lets everyone out. */
  lemma {:induction false} BarrierOpens(s: State, k: nat, ms: seq<nat>)
    requires Inv(s) && AllIn(s, k) && Goes(s, ms)
    ensures |ms| <= StepsLeft(s)
    ensures var t := Gone(s, ms);
            (forall m :: !Enabled(t, Go(m))) ==> forall m | 0 <= m < |t| :: t[m].phase.Outside? && t[m].entered == k
    decreases |ms|
  {
    if ms == [] {
      if exists n :: 0 <= n < |s| && !s[n].phase.Outside? {
        var m := SomeoneGoes(s, k);
        assert !(forall m :: !Enabled(s, Go(m)));
      }
    } else {
      NextInv(s, Go(ms[0]));
      GoCounts(s, ms[0], k);
      BarrierOpens(Next(s, Go(ms[0])), k, ms[1..]);
      assert Gone(s, ms) == Gone(Next(s, Go(ms[0])), ms[1..]);
    }
  }
}
