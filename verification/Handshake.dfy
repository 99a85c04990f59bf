/** One blocking send and the matching receive as two concurrent processes that share a communication buffer and
    two flags. Every step of either process, down to the copying of single bytes, interleaves freely with the other. */
module Handshake {
  import opened Schedule

  type Byte = b: int | 0 <= b < 256

  /** The message and how both sides cut it up. */
  datatype Job = Job(msg: seq<Byte>, rounds: seq<Round>, chunk: nat)

  /** Copying into the buffer, waiting for the ready flag, about to unset it. */
  datatype Sending = Putting(n: nat) | Waiting | Clearing

  /** Waiting for the sent flag, about to unset it, copying out of the buffer. */
  datatype Receiving = Polling | Unsetting | Getting(n: nat)

  datatype State = State(
    buf: seq<Byte>, sent: bool, ready: bool, si: nat, sp: Sending, ri: nat, rp: Receiving, out: seq<Byte>)

  datatype Action = PutByte(junk: Byte) | SetSent | SeeReady | UnsetReady | SeeSent | UnsetSent | GetByte | SetReady

  predicate Enabled(j: Job, s: State, a: Action) {
    match a
    case PutByte(_) => s.si < |j.rounds| && s.sp.Putting? && s.sp.n < j.rounds[s.si].put
    case SetSent => s.si < |j.rounds| && s.sp == Putting(j.rounds[s.si].put)
    case SeeReady => s.sp.Waiting? && s.ready
    case UnsetReady => s.sp.Clearing?
    case SeeSent => s.ri < |j.rounds| && s.rp.Polling? && s.sent
    case UnsetSent => s.rp.Unsetting?
    case GetByte => s.ri < |j.rounds| && s.rp.Getting? && s.rp.n < j.rounds[s.ri].put
    case SetReady => s.ri < |j.rounds| && s.rp == Getting(j.rounds[s.ri].put)
  }

  ghost predicate Fits(j: Job, s: State) {
    Tiles(j.rounds, 0, |j.msg|, j.chunk) && |s.buf| == j.chunk && |s.out| == |j.msg|
  }

  lemma {:induction false} StartWithin(rounds: seq<Round>, size: nat, chunk: nat, i: nat)
    requires Tiles(rounds, 0, size, chunk) && i <= |rounds|
    ensures Start(rounds, i, size) <= size
    ensures i < |rounds| ==> rounds[i].off + rounds[i].keep <= size && rounds[i].put <= chunk
    decreases |rounds| - i
  {
    if i < |rounds| {
      assert Follows(rounds, i, size, chunk);
      StartWithin(rounds, size, chunk, i + 1);
    }
  }

  /** The byte put at place `n`: past the end of the message the sender's padding line holds anything. */
  function Source(j: Job, s: State, junk: Byte): Byte
    requires Enabled(j, s, PutByte(junk)) && Tiles(j.rounds, 0, |j.msg|, j.chunk)
  {
    var r := j.rounds[s.si];
    StartWithin(j.rounds, |j.msg|, j.chunk, s.si);
    if s.sp.n < r.keep then j.msg[r.off + s.sp.n] else junk
  }

  /** What the receiver has after taking one more byte; padding stays in its own padding line. */
  function Taken(j: Job, s: State): (out: seq<Byte>)
    requires Enabled(j, s, GetByte) && Fits(j, s)
    ensures |out| == |s.out|
  {
    var r := j.rounds[s.ri];
    StartWithin(j.rounds, |j.msg|, j.chunk, s.ri);
    if s.rp.n < r.keep then s.out[r.off + s.rp.n := s.buf[s.rp.n]] else s.out
  }

  function Next(j: Job, s: State, a: Action): (t: State)
    requires Enabled(j, s, a) && Fits(j, s)
    ensures Fits(j, t)
  {
    match a
    case PutByte(junk) =>
      StartWithin(j.rounds, |j.msg|, j.chunk, s.si);
      s.(buf := s.buf[s.sp.n := Source(j, s, junk)], sp := Putting(s.sp.n + 1))
    case SetSent => s.(sent := true, sp := Waiting)
    case SeeReady => s.(sp := Clearing)
    case UnsetReady => s.(ready := false, si := s.si + 1, sp := Putting(0))
    case SeeSent => s.(rp := Unsetting)
    case UnsetSent => s.(sent := false, rp := Getting(0))
    case GetByte => s.(out := Taken(j, s), rp := Getting(s.rp.n + 1))
    case SetReady => s.(ready := true, ri := s.ri + 1, rp := Polling)
  }

  ghost predicate Init(j: Job, s: State) {
    Fits(j, s) && !s.sent && !s.ready && s.si == 0 == s.ri && s.sp == Putting(0) && s.rp == Polling
  }

  predicate Finished(j: Job, s: State) {
    s.si == |j.rounds| == s.ri && s.sp == Putting(0) && s.rp == Polling
  }

  // ---------------------------------------------------------------- the invariant

  /** The two processes move in step, and the flags say who may touch the buffer. */
  ghost predicate InStep(j: Job, s: State) {
    && s.si <= |j.rounds|
    && match s.sp
       case Putting(n) =>
         && !s.sent && !s.ready && s.ri == s.si && s.rp.Polling?
         && (if s.si < |j.rounds| then n <= j.rounds[s.si].put else n == 0)
       case Waiting =>
         && s.si < |j.rounds|
         && if s.ready then !s.sent && s.ri == s.si + 1 && s.rp.Polling?
            else s.ri == s.si && (s.sent <==> !s.rp.Getting?) && (s.rp.Getting? ==> s.rp.n <= j.rounds[s.si].put)
       case Clearing => s.si < |j.rounds| && s.ready && !s.sent && s.ri == s.si + 1 && s.rp.Polling?
  }

  /** How many bytes of the current round the buffer holds. */
  function Loaded(j: Job, s: State): nat
    requires s.si < |j.rounds|
  {
    match s.sp
    case Putting(n) => if n < j.rounds[s.si].keep then n else j.rounds[s.si].keep
    case Waiting => if s.ri == s.si then j.rounds[s.si].keep else 0
    case Clearing => 0
  }

  ghost predicate BufferRight(j: Job, s: State) {
    s.si < |j.rounds| ==>
      var r := j.rounds[s.si];
      Loaded(j, s) <= |s.buf| && r.off + r.keep <= |j.msg| &&
      forall k: nat | k < Loaded(j, s) :: s.buf[k] == j.msg[r.off + k]
  }

  /** How much of the message the receiver has. */
  function Received(j: Job, s: State): nat
    requires s.ri <= |j.rounds|
  {
    Start(j.rounds, s.ri, |j.msg|) +
    if s.ri < |j.rounds| && s.rp.Getting? then
      if s.rp.n < j.rounds[s.ri].keep then s.rp.n else j.rounds[s.ri].keep
    else 0
  }

  ghost predicate OutRight(j: Job, s: State) {
    s.ri <= |j.rounds| && Received(j, s) <= |s.out| <= |j.msg| && forall k: nat | k < Received(j, s) :: s.out[k] == j.msg[k]
  }

  ghost predicate Inv(j: Job, s: State) {
    Fits(j, s) && InStep(j, s) && BufferRight(j, s) && OutRight(j, s)
  }

  lemma InitInv(j: Job, s: State)
    requires Init(j, s)
    ensures Inv(j, s)
  {
    StartWithin(j.rounds, |j.msg|, j.chunk, 0);
  }

  lemma NextBuffer(j: Job, s: State, a: Action)
    requires Inv(j, s) && Enabled(j, s, a)
    ensures BufferRight(j, Next(j, s, a))
  {
    var t := Next(j, s, a);
    if t.si < |j.rounds| {
      StartWithin(j.rounds, |j.msg|, j.chunk, t.si);
      assert Follows(j.rounds, t.si, |j.msg|, j.chunk);
    }
  }

  lemma NextOut(j: Job, s: State, a: Action)
    requires Inv(j, s) && Enabled(j, s, a)
    ensures OutRight(j, Next(j, s, a))
  {
    var t := Next(j, s, a);
    StartWithin(j.rounds, |j.msg|, j.chunk, s.ri);
    if s.ri < |j.rounds| {
      assert Follows(j.rounds, s.ri, |j.msg|, j.chunk);
      StartWithin(j.rounds, |j.msg|, j.chunk, s.ri + 1);
    }
  }

  lemma NextInv(j: Job, s: State, a: Action)
    requires Inv(j, s) && Enabled(j, s, a)
    ensures Inv(j, Next(j, s, a))
  {
    NextBuffer(j, s, a);
    NextOut(j, s, a);
  }

  // ---------------------------------------------------------------- what it gives

  /** While the receiver is copying, the sender has no step; every byte copied out is the message's. */
  lemma NeverOverwritten(j: Job, s: State, a: Action)
    requires Inv(j, s) && s.rp.Getting? && s.ri < |j.rounds|
    ensures !Enabled(j, s, SetSent) && !Enabled(j, s, SeeReady) && !Enabled(j, s, UnsetReady)
    ensures a.PutByte? ==> !Enabled(j, s, a)
    ensures var r := j.rounds[s.ri]; s.rp.n < r.keep ==> s.buf[s.rp.n] == j.msg[r.off + s.rp.n]
  {
  }

  /** Some step is possible until both have finished. */
  lemma SomeStep(j: Job, s: State) returns (a: Action)
    requires Inv(j, s) && !Finished(j, s)
    ensures Enabled(j, s, a)
  {
    match s.sp
    case Putting(n) => a := if n < j.rounds[s.si].put then PutByte(0) else SetSent;
    case Clearing => a := UnsetReady;
    case Waiting =>
      if s.ready {
        a := SeeReady;
      } else {
        match s.rp
        case Polling => a := SeeSent;
        case Unsetting => a := UnsetSent;
        case Getting(n) => a := if n < j.rounds[s.ri].put then GetByte else SetReady;
      }
  }

  /** The steps of one side for the rounds from `i` on: one for each byte that goes through the buffer, and three for
      the flags. */
  function Work(rounds: seq<Round>, i: nat): (w: nat)
    decreases |rounds| - i
  {
    if i < |rounds| then rounds[i].put + 3 + Work(rounds, i + 1) else 0
  }

  /** How many steps of its round the sender has done. */
  function SendingDone(j: Job, s: State): nat {
    match s.sp
    case Putting(n) => n
    case Waiting => if s.si < |j.rounds| then j.rounds[s.si].put + 1 else 0
    case Clearing => if s.si < |j.rounds| then j.rounds[s.si].put + 2 else 0
  }

  function ReceivingDone(s: State): nat {
    match s.rp
    case Polling => 0
    case Unsetting => 1
    case Getting(n) => 2 + n
  }

  /** The steps still to come. */
  function Left(j: Job, s: State): int {
    Work(j.rounds, s.si) - SendingDone(j, s) + Work(j.rounds, s.ri) - ReceivingDone(s)
  }

  lemma LeftFalls(j: Job, s: State, a: Action)
    requires Inv(j, s) && Enabled(j, s, a)
    ensures Left(j, Next(j, s, a)) == Left(j, s) - 1 >= 0
  {
    NextInv(j, s, a);
    NotNegative(j, Next(j, s, a));
  }

  lemma NotNegative(j: Job, s: State)
    requires Inv(j, s)
    ensures Left(j, s) >= 0 && (Finished(j, s) ==> Left(j, s) == 0)
  {
  }

  // ---------------------------------------------------------------- whole transfers

  ghost predicate Possible(j: Job, s: State, acts: seq<Action>)
    requires Fits(j, s)
    decreases |acts|
  {
    acts != [] ==> Enabled(j, s, acts[0]) && Possible(j, Next(j, s, acts[0]), acts[1..])
  }

  ghost function After(j: Job, s: State, acts: seq<Action>): (t: State)
    requires Fits(j, s) && Possible(j, s, acts)
    ensures Fits(j, t)
    decreases |acts|
  {
    if acts == [] then s else After(j, Next(j, s, acts[0]), acts[1..])
  }

  lemma {:induction false} RunInv(j: Job, s: State, acts: seq<Action>)
    requires Inv(j, s) && Possible(j, s, acts)
    ensures Inv(j, After(j, s, acts)) && |acts| + Left(j, After(j, s, acts)) == Left(j, s)
    decreases |acts|
  {
    if acts != [] {
      NextInv(j, s, acts[0]);
      LeftFalls(j, s, acts[0]);
      RunInv(j, Next(j, s, acts[0]), acts[1..]);
    }
  }

  ghost predicate Stuck(j: Job, s: State) {
    forall a: Action :: !Enabled(j, s, a)
  }

  /** Every interleaving is finite, and one that cannot go on has delivered the message, both sides have
      returned, and both flags are unset, as the next message needs them; it has taken two steps for each byte of the
      message rounded up to whole lines, and six for each round. */
  lemma Transfer(j: Job, s: State, acts: seq<Action>)
    requires j.chunk > 0 && j.chunk % LINE == 0 && j.rounds == Rounds(|j.msg|, j.chunk)
    requires Init(j, s) && Possible(j, s, acts)
    ensures |acts| <= 2 * ((|j.msg| + 31) / 32 * 32) + 6 * |j.rounds|
    ensures var t := After(j, s, acts);
            Stuck(j, t) ==>
              && Finished(j, t) && t.out == j.msg && !t.sent && !t.ready
              && |acts| == 2 * ((|j.msg| + 31) / 32 * 32) + 6 * |j.rounds|
  {
    var t := After(j, s, acts);
    InitInv(j, s);
    RunInv(j, s, acts);
    NotNegative(j, t);
    AllWork(|j.msg|, j.chunk);
    if Stuck(j, t) {
      if !Finished(j, t) {
        var a := SomeStep(j, t);
        assert false;
      }
      assert t.out == j.msg;
    }
  }

  lemma {:induction false} WorkJoins(f: seq<Round>, t: seq<Round>, i: nat)
    requires i <= |f|
    ensures Work(f + t, i) == Work(f, i) + Work(t, 0)
    decreases |f| - i
  {
    if i < |f| {
      WorkJoins(f, t, i + 1);
    } else {
      WorkAfter(f, t, 0);
    }
  }

  lemma {:induction false} WorkAfter(f: seq<Round>, t: seq<Round>, i: nat)
    ensures Work(f + t, |f| + i) == Work(t, i)
    decreases |t| - i
  {
    if i < |t| {
      WorkAfter(f, t, i + 1);
    }
  }

  lemma {:induction false} FullWork(n: nat, chunk: nat, i: nat)
    requires i <= n
    ensures Work(FullRounds(n, chunk), i) == (n - i) * (chunk + 3)
    decreases n - i
  {
    if i < n {
      FullWork(n, chunk, i + 1);
      NextMultiple(n - i - 1, chunk + 3);
    }
  }

  lemma TailWork(done: nat, rest: nat)
    ensures Work(Tail(done, rest), 0) == (rest + 31) / 32 * 32 + 3 * |Tail(done, rest)|
  {
    var t := Tail(done, rest);
    if |t| == 1 {
      assert Work(t, 1) == 0;
    } else if |t| == 2 {
      assert Work(t, 2) == 0 && Work(t, 1) == t[1].put + 3;
    }
  }

  lemma AllWork(size: nat, chunk: nat)
    requires chunk > 0 && chunk % LINE == 0
    ensures Work(Rounds(size, chunk), 0) == (size + 31) / 32 * 32 + 3 * |Rounds(size, chunk)|
  {
    var n, rest := size / chunk, size % chunk;
    SplitWork(n, chunk, n * chunk, rest);
    WholeLines(n, chunk / LINE, chunk, rest, size);
  }

  lemma SplitWork(n: nat, chunk: nat, done: nat, rest: nat)
    ensures var rounds := FullRounds(n, chunk) + Tail(done, rest);
            Work(rounds, 0) == n * chunk + (rest + 31) / 32 * 32 + 3 * |rounds|
  {
    WorkJoins(FullRounds(n, chunk), Tail(done, rest), 0);
    FullWork(n, chunk, 0);
    TailWork(done, rest);
    Spread(n, chunk);
  }

  lemma Spread(n: nat, chunk: nat)
    ensures n * (chunk + 3) == n * chunk + 3 * n
  {
  }

  /** Rounding up what is left after whole lines. */
  lemma WholeLines(n: nat, lines: nat, chunk: nat, rest: nat, size: nat)
    requires chunk == 32 * lines && size == n * chunk + rest
    ensures (size + 31) / 32 * 32 == n * chunk + (rest + 31) / 32 * 32
  {
    var q := n * lines;
    assert n * chunk == 32 * q;
    assert (32 * q + (rest + 31)) / 32 == q + (rest + 31) / 32;
  }

  /** Starting with unset flags is all a transfer asks for; the message can be of any length. */
  lemma AnyMessage(msg: seq<Byte>, chunk: nat, buf: seq<Byte>, out: seq<Byte>)
    requires chunk > 0 && chunk % LINE == 0 && |buf| == chunk && |out| == |msg|
    ensures Init(Job(msg, Rounds(|msg|, chunk), chunk), State(buf, false, false, 0, Putting(0), 0, Polling, out))
  {
    RoundsTile(|msg|, chunk);
  }
}
