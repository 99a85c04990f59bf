/** The ring as a concurrent protocol, and what it promises: messages arrive whole, once, in the order they were
    enqueued, from the sender that sent them, as long as the ring is not overfilled. */
module SignalFifo {
  import opened SignalCodec
  import opened SignalRing
  import opened Wrappers

  /** A message and the words it is written as. */
  datatype Packet = Packet(m: Message, words: seq<int>)

  /** The ring's semaphore; a sender that has it has stored `i` words. */
  datatype Lock = Free | Held(from: Packet, i: nat) | Reader

  /** Outside the loop body, copying the first line under the lock, copying the second, running the handler. */
  datatype Phase = Away | First | Second | Handling

  /** `queue`, `sent`, `done` and `lines` are not stored anywhere: the packets in the ring, the messages enqueued so
      far, the messages handled so far, and the lines stored less the lines taken off. */
  datatype State = State(
    ring: seq<int>, bottom: nat, top: nat, lock: Lock, phase: Phase, got: seq<int>,
    queue: seq<Packet>, sent: seq<Message>, done: seq<Message>, lines: int)

  datatype Env = Env(c: Config, max: nat)

  datatype Action = Grab(m: Message, r: nat, junk: seq<int>) | StoreWord | Publish | Look | ReadWord | Unlock
                  | ReadMore | Handle

  function Flat(q: seq<Packet>): (s: seq<int>) {
    if q == [] then [] else q[0].words + Flat(q[1..])
  }

  ghost predicate Shape(e: Env, s: State) {
    e.c.nues > 0 && e.max >= 3 && |s.ring| == LINE * e.max && s.bottom < e.max && s.top < e.max
  }

  /** A sender may enqueue when the ring has room for its lines and stays short of full: the program does not check. */
  ghost predicate Room(e: Env, s: State, n: nat) {
    |Flat(s.queue)| + n < LINE * e.max
  }

  /** The steps the program allows. */
  ghost predicate Allowed(e: Env, s: State, a: Action)
    requires Shape(e, s)
  {
    match a
    case Grab(m, r, junk) => s.lock.Free? && WellFormed(e.c, m) && |junk| == LINE
    case StoreWord => s.lock.Held? && s.lock.i < |s.lock.from.words| && s.lock.i < LINE * e.max
    case Publish => s.lock.Held? && s.lock.i == |s.lock.from.words|
    case Look => s.lock.Free? && s.phase.Away?
    case ReadWord => s.phase.First? && |s.got| < LINE
    case Unlock => s.phase.First? && |s.got| == LINE
    case ReadMore => s.phase.Second? && LINE <= |s.got| < 2 * LINE
    case Handle => s.phase.Handling? && |s.got| >= LINE
  }

  /** The steps when the senders keep to the room there is. */
  ghost predicate Enabled(e: Env, s: State, a: Action)
    requires Shape(e, s)
  {
    Allowed(e, s, a) && (a.Grab? ==> Room(e, s, LINE * Lines(e.c, a.m)))
  }

  ghost function Next(e: Env, s: State, a: Action): (t: State)
    requires Shape(e, s) && Allowed(e, s, a)
    ensures Shape(e, t)
  {
    match a
    case Grab(m, r, junk) => s.(lock := Held(Packet(m, Encode(e.c, m, r, junk)), 0))
    case StoreWord =>
      var i := s.lock.i;
      s.(ring := s.ring[Addr(e.max, s.bottom, i) := s.lock.from.words[i]], lock := Held(s.lock.from, i + 1))
    case Publish =>
      var n := if |s.lock.from.words| == 2 * LINE then 2 else 1;
      s.(bottom := Advance(e.max, s.bottom, n), lock := Free, queue := s.queue + [s.lock.from],
         sent := s.sent + [s.lock.from.m], lines := s.lines + n)
    case Look => if s.top == s.bottom then s else s.(lock := Reader, phase := First, got := [])
    case ReadWord => s.(got := s.got + [s.ring[Addr(e.max, s.top, |s.got|)]])
    case Unlock => s.(lock := Free, phase := if Need(e.c, s.got) == 2 then Second else Handling)
    case ReadMore =>
      var w := s.ring[Addr(e.max, s.top, |s.got|)];
      s.(got := s.got + [w], phase := if |s.got| == 2 * LINE - 1 then Handling else Second)
    case Handle =>
      var m := Decode(e.c, s.got);
      var n := Need(e.c, s.got);
      s.(top := Advance(e.max, s.top, n), phase := Away, queue := if s.queue == [] then [] else s.queue[1..],
         done := if m.Some? then s.done + [m.value] else s.done, lines := s.lines - n)
  }

  ghost predicate Init(e: Env, s: State) {
    && Shape(e, s) && s.bottom == 0 == s.top && s.lock.Free? && s.phase.Away?
    && s.queue == [] && s.sent == [] == s.done && s.lines == 0
  }

  // ---------------------------------------------------------------- the invariant

  ghost predicate Whole(e: Env, p: Packet)
    requires e.c.nues > 0
  {
    && (|p.words| == LINE || |p.words| == 2 * LINE)
    && |p.words| == LINE * Need(e.c, p.words) && Need(e.c, p.words) == Need(e.c, p.words[..LINE])
    && Decode(e.c, p.words) == Some(p.m)
  }

  lemma EncodedWhole(e: Env, m: Message, r: nat, junk: seq<int>)
    requires WellFormed(e.c, m) && |junk| == LINE
    ensures Whole(e, Packet(m, Encode(e.c, m, r, junk)))
  {
    LinesAgree(e.c, m, r, junk);
    RoundTrip(e.c, m, r, junk);
  }

  /** From line `line` on the ring holds the words of `w`. */
  ghost predicate Holds(ring: seq<int>, max: nat, line: nat, w: seq<int>, n: nat)
    requires |ring| == LINE * max && line < max
  {
    n <= |w| && n <= LINE * max && forall i: nat | i < n :: ring[Addr(max, line, i)] == w[i]
  }

  /** The words between `top` and `bottom` are `w`. */
  ghost predicate Between(ring: seq<int>, max: nat, top: nat, bottom: nat, w: seq<int>)
    requires |ring| == LINE * max && top < max
  {
    && |w| < LINE * max && |w| % LINE == 0
    && bottom == Advance(max, top, |w| / LINE)
    && Holds(ring, max, top, w, |w|)
  }

  ghost predicate QueueOk(e: Env, s: State)
    requires Shape(e, s)
  {
    Between(s.ring, e.max, s.top, s.bottom, Flat(s.queue)) && forall p | p in s.queue :: Whole(e, p)
  }

  ghost predicate LockOk(e: Env, s: State)
    requires Shape(e, s)
  {
    && (s.lock.Reader? <==> s.phase.First?)
    && (s.lock.Held? ==>
          && Whole(e, s.lock.from) && Room(e, s, |s.lock.from.words|)
          && Holds(s.ring, e.max, s.bottom, s.lock.from.words, s.lock.i))
  }

  ghost predicate ReaderOk(e: Env, s: State)
    requires Shape(e, s)
  {
    s.phase != Away ==>
      && s.queue != []
      && var w := s.queue[0].words;
         match s.phase
         case Away => true
         case First => |s.got| <= LINE && s.got <= w
         case Second => |w| == 2 * LINE && LINE <= |s.got| < 2 * LINE && s.got <= w
         case Handling => s.got == w
  }

  function MessagesOf(q: seq<Packet>): (ms: seq<Message>)
    ensures |ms| == |q|
  {
    seq(|q|, i requires 0 <= i < |q| => q[i].m)
  }

  ghost predicate Inv(e: Env, s: State) {
    Shape(e, s) && QueueOk(e, s) && LockOk(e, s) && ReaderOk(e, s) && s.sent == s.done + MessagesOf(s.queue)
  }

  lemma {:induction false} FlatAppend(q: seq<Packet>, p: Packet)
    ensures Flat(q + [p]) == Flat(q) + p.words
  {
    if q == [] {
      assert Flat([p]) == p.words + Flat([p][1..]);
    } else {
      FlatAppend(q[1..], p);
      assert (q + [p])[1..] == q[1..] + [p];
    }
  }

  lemma GrabInv(e: Env, s: State, m: Message, r: nat, junk: seq<int>)
    requires Inv(e, s) && Enabled(e, s, Grab(m, r, junk))
    ensures Inv(e, Next(e, s, Grab(m, r, junk)))
  {
    EncodedWhole(e, m, r, junk);
  }

  /** A word stored in free space leaves the packets in the ring alone. */
  lemma StoreFree(ring: seq<int>, max: nat, top: nat, w: seq<int>, bottom: nat, i: nat, x: int)
    requires |ring| == LINE * max && top < max && bottom < max && Holds(ring, max, top, w, |w|)
    requires |w| % LINE == 0 && bottom == Advance(max, top, |w| / LINE) && |w| + i < LINE * max
    ensures Holds(ring[Addr(max, bottom, i) := x], max, top, w, |w|)
  {
    AddrAdvance(max, top, |w| / LINE, i);
    forall k: nat | k < |w|
      ensures ring[Addr(max, bottom, i) := x][Addr(max, top, k)] == w[k]
    {
      AddrDistinct(max, top, k, |w| + i);
    }
  }

  lemma StoreInv(e: Env, s: State)
    requires Inv(e, s) && Enabled(e, s, StoreWord)
    ensures Inv(e, Next(e, s, StoreWord))
  {
    var w, i, p := Flat(s.queue), s.lock.i, s.lock.from.words;
    var t := Next(e, s, StoreWord);
    StoreFree(s.ring, e.max, s.top, w, s.bottom, i, p[i]);
    forall k: nat | k < i + 1
      ensures t.ring[Addr(e.max, s.bottom, k)] == p[k]
    {
      if k < i {
        AddrDistinct(e.max, s.bottom, k, i);
      }
    }
  }

  /** `n` more lines at the end. */
  lemma Extend(ring: seq<int>, max: nat, top: nat, bottom: nat, w: seq<int>, p: seq<int>, n: nat)
    requires |ring| == LINE * max && top < max && bottom < max && Between(ring, max, top, bottom, w)
    requires |p| == LINE * n && |w| + |p| < LINE * max && Holds(ring, max, bottom, p, |p|)
    ensures n <= max && Between(ring, max, top, Advance(max, bottom, n), w + p)
  {
    assert (|w| + LINE * n) / LINE == |w| / LINE + n;
    AdvanceTwice(max, top, |w| / LINE, n);
    HoldsAppend(ring, max, top, w, bottom, p);
  }

  /** `n` lines fewer at the front. */
  lemma Shrink(ring: seq<int>, max: nat, top: nat, bottom: nat, p: seq<int>, rest: seq<int>, n: nat)
    requires |ring| == LINE * max && top < max && Between(ring, max, top, bottom, p + rest)
    requires |p| == LINE * n
    ensures n <= max && Between(ring, max, Advance(max, top, n), bottom, rest)
  {
    var w := p + rest;
    assert (|rest| + LINE * n) / LINE == |rest| / LINE + n;
    AdvanceTwice(max, top, n, |rest| / LINE);
    forall i: nat | i < |rest|
      ensures ring[Addr(max, Advance(max, top, n), i)] == rest[i]
    {
      AddrAdvance(max, top, n, i);
      assert w[LINE * n + i] == rest[i];
    }
  }

  lemma PublishQueue(e: Env, s: State)
    requires Inv(e, s) && Enabled(e, s, Publish)
    ensures QueueOk(e, Next(e, s, Publish))
  {
    var p := s.lock.from;
    FlatAppend(s.queue, p);
    Extend(s.ring, e.max, s.top, s.bottom, Flat(s.queue), p.words, if |p.words| == 2 * LINE then 2 else 1);
  }

  lemma PublishInv(e: Env, s: State)
    requires Inv(e, s) && Enabled(e, s, Publish)
    ensures Inv(e, Next(e, s, Publish))
  {
    var t := Next(e, s, Publish);
    PublishQueue(e, s);
    assert s.queue != [] ==> t.queue[0] == s.queue[0];
    assert MessagesOf(t.queue) == MessagesOf(s.queue) + [s.lock.from.m];
  }

  lemma HoldsAppend(ring: seq<int>, max: nat, top: nat, w: seq<int>, bottom: nat, p: seq<int>)
    requires |ring| == LINE * max && top < max && bottom < max && Holds(ring, max, top, w, |w|)
    requires |w| % LINE == 0 && bottom == Advance(max, top, |w| / LINE) && |w| + |p| < LINE * max
    requires Holds(ring, max, bottom, p, |p|)
    ensures Holds(ring, max, top, w + p, |w + p|)
  {
    forall i: nat | i < |w + p|
      ensures ring[Addr(max, top, i)] == (w + p)[i]
    {
      if i >= |w| {
        AddrAdvance(max, top, |w| / LINE, i - |w|);
      }
    }
  }

  /** The reader finds something exactly when the ring holds a packet. */
  lemma EmptyMeansEmpty(e: Env, s: State)
    requires Shape(e, s) && QueueOk(e, s)
    ensures s.top == s.bottom <==> s.queue == []
  {
    WrapOnce(e.max, s.top + |Flat(s.queue)| / LINE);
    if s.queue != [] {
      assert Whole(e, s.queue[0]);
    }
  }

  lemma LookInv(e: Env, s: State)
    requires Inv(e, s) && Enabled(e, s, Look)
    ensures Inv(e, Next(e, s, Look))
  {
    EmptyMeansEmpty(e, s);
  }

  lemma ReadInv(e: Env, s: State, a: Action)
    requires Inv(e, s) && Enabled(e, s, a) && (a.ReadWord? || a.ReadMore?)
    ensures Inv(e, Next(e, s, a))
  {
    assert Whole(e, s.queue[0]);
  }

  lemma UnlockInv(e: Env, s: State)
    requires Inv(e, s) && Enabled(e, s, Unlock)
    ensures Inv(e, Next(e, s, Unlock))
  {
    assert Whole(e, s.queue[0]);
    assert s.got == s.queue[0].words[..LINE];
  }

  lemma HandleQueue(e: Env, s: State)
    requires Inv(e, s) && Enabled(e, s, Handle)
    ensures QueueOk(e, Next(e, s, Handle))
  {
    var p := s.queue[0].words;
    assert Whole(e, s.queue[0]);
    Shrink(s.ring, e.max, s.top, s.bottom, p, Flat(s.queue[1..]), Need(e.c, p));
  }

  /** The message handled is the oldest one in the ring. */
  lemma HandleInv(e: Env, s: State)
    requires Inv(e, s) && Enabled(e, s, Handle)
    ensures Inv(e, Next(e, s, Handle))
    ensures Next(e, s, Handle).done == s.done + [s.queue[0].m]
  {
    HandleQueue(e, s);
    assert Whole(e, s.queue[0]);
    assert MessagesOf(s.queue) == [s.queue[0].m] + MessagesOf(s.queue[1..]);
  }

  lemma NextInv(e: Env, s: State, a: Action)
    requires Inv(e, s) && Enabled(e, s, a)
    ensures Inv(e, Next(e, s, a))
  {
    match a
    case Grab(m, r, junk) => GrabInv(e, s, m, r, junk);
    case StoreWord => StoreInv(e, s);
    case Publish => PublishInv(e, s);
    case Look => LookInv(e, s);
    case ReadWord => ReadInv(e, s, a);
    case Unlock => UnlockInv(e, s);
    case ReadMore => ReadInv(e, s, a);
    case Handle => HandleInv(e, s);
  }

  // ---------------------------------------------------------------- every run

  ghost predicate Possible(e: Env, s: State, acts: seq<Action>)
    requires Shape(e, s)
    decreases |acts|
  {
    acts != [] ==> Enabled(e, s, acts[0]) && Possible(e, Next(e, s, acts[0]), acts[1..])
  }

  ghost function After(e: Env, s: State, acts: seq<Action>): (t: State)
    requires Shape(e, s) && Possible(e, s, acts)
    ensures Shape(e, t)
    decreases |acts|
  {
    if acts == [] then s else After(e, Next(e, s, acts[0]), acts[1..])
  }

  lemma {:induction false} RunInv(e: Env, s: State, acts: seq<Action>)
    requires Inv(e, s) && Possible(e, s, acts)
    ensures Inv(e, After(e, s, acts))
    decreases |acts|
  {
    if acts != [] {
      NextInv(e, s, acts[0]);
      RunInv(e, Next(e, s, acts[0]), acts[1..]);
    }
  }

  /** Over every run the messages handled are a prefix of the messages enqueued, and when the reader finds the
      ring empty they are all of them. */
  lemma RingIsFifo(e: Env, s: State, acts: seq<Action>)
    requires Init(e, s) && Possible(e, s, acts)
    ensures var t := After(e, s, acts);
            t.done <= t.sent && (t.top == t.bottom ==> t.done == t.sent)
  {
    RunInv(e, s, acts);
    EmptyMeansEmpty(e, After(e, s, acts));
  }
}
