/** The ring when the senders do not keep to the room there is, as the program lets them. */
module SignalOverflow {
  import opened Arithmetic
  import opened SignalCodec
  import opened SignalRing
  import opened SignalFifo

  // ---------------------------------------------------------------- when the guard is needed

  lemma SameWord(max: nat, top: nat, n: nat, i: nat)
    requires top < max && n <= max && i < LINE * max <= LINE * n + i < 2 * LINE * max
    ensures Addr(max, Advance(max, top, n), i) == Addr(max, top, LINE * n + i - LINE * max)
  {
    WrapOnce(max, top + n);
  }

  /** A sender about to append `n` lines: what the words stored and the index moved would leave of the packets. */
  ghost predicate Harmless(e: Env, s: State, n: nat)
    requires Shape(e, s) && n <= e.max
  {
    && Advance(e.max, s.bottom, n) != s.top
    && forall i: nat, k: nat | i < LINE * n && k < |Flat(s.queue)| < LINE * e.max ::
         Addr(e.max, s.bottom, i) != Addr(e.max, s.top, k)
  }

  /** Appending neither makes the ring look empty nor overwrites a packet if and only if there is room. */
  lemma HarmlessIffRoom(e: Env, s: State, n: nat)
    requires Shape(e, s) && QueueOk(e, s) && 1 <= n <= 2
    ensures Harmless(e, s, n) <==> Room(e, s, LINE * n)
  {
    var w := |Flat(s.queue)|;
    BackAtTop(e, s, n);
    if Room(e, s, LINE * n) {
      forall i: nat, k: nat | i < LINE * n && k < w
        ensures Addr(e.max, s.bottom, i) != Addr(e.max, s.top, k)
      {
        AddrAdvance(e.max, s.top, w / LINE, i);
        AddrDistinct(e.max, s.top, k, w + i);
      }
    } else if w + LINE * n > LINE * e.max {
      SameWord(e.max, s.top, w / LINE, LINE * e.max - w);
    }
  }

  lemma BackAtTop(e: Env, s: State, n: nat)
    requires Shape(e, s) && QueueOk(e, s) && 1 <= n <= 2
    ensures var k := |Flat(s.queue)| / LINE;
            k + n <= e.max ==> (Advance(e.max, s.bottom, n) == s.top <==> k + n == e.max)
  {
    var k := |Flat(s.queue)| / LINE;
    if k + n <= e.max {
      AdvanceTwice(e.max, s.top, k, n);
      WrapOnce(e.max, s.top + (k + n));
    }
  }

  // ---------------------------------------------------------------- every run

  ghost predicate Runs(e: Env, s: State, acts: seq<Action>)
    requires Shape(e, s)
    decreases |acts|
  {
    acts != [] ==> Allowed(e, s, acts[0]) && Runs(e, Next(e, s, acts[0]), acts[1..])
  }

  ghost function Reached(e: Env, s: State, acts: seq<Action>): (t: State)
    requires Shape(e, s) && Runs(e, s, acts)
    ensures Shape(e, t)
    decreases |acts|
  {
    if acts == [] then s else Reached(e, Next(e, s, acts[0]), acts[1..])
  }

  /** The indices are as far apart as the lines tell, counted around the ring. */
  ghost predicate Tally(e: Env, s: State) {
    && Shape(e, s) && (s.top + s.lines - s.bottom) % e.max == 0
    && (s.lock.Held? ==> |s.lock.from.words| == LINE || |s.lock.from.words| == 2 * LINE)
  }

  lemma OnceAround(max: nat, x: int)
    requires max > 0 && x % max == 0
    ensures (x + max) % max == 0 && (x - max) % max == 0
  {
    var q := x / max;
    assert x + max == (q + 1) * max && x - max == (q - 1) * max;
    DivMod(x + max, q + 1, 0, max);
    DivMod(x - max, q - 1, 0, max);
  }

  lemma NextTally(e: Env, s: State, a: Action)
    requires Tally(e, s) && Allowed(e, s, a)
    ensures Tally(e, Next(e, s, a))
  {
    OnceAround(e.max, s.top + s.lines - s.bottom);
    if a.Grab? {
      LengthOf(e, a.m, a.r, a.junk);
    } else if a.Publish? {
      var n := if |s.lock.from.words| == 2 * LINE then 2 else 1;
      WrapOnce(e.max, s.bottom + n);
    } else if a.Handle? {
      WrapOnce(e.max, s.top + Need(e.c, s.got));
    }
  }

  lemma LengthOf(e: Env, m: Message, r: nat, junk: seq<int>)
    requires WellFormed(e.c, m) && |junk| == LINE
    ensures |Encode(e.c, m, r, junk)| == LINE || |Encode(e.c, m, r, junk)| == 2 * LINE
  {
  }

  lemma {:induction false} RunTally(e: Env, s: State, acts: seq<Action>)
    requires Tally(e, s) && Runs(e, s, acts)
    ensures Tally(e, Reached(e, s, acts))
    decreases |acts|
  {
    if acts != [] {
      NextTally(e, s, acts[0]);
      RunTally(e, Next(e, s, acts[0]), acts[1..]);
    }
  }

  /** Over every run, overfilled or not, the reader finds the ring empty if and only if the lines in it are a
      multiple of the ring's. */
  lemma LooksEmptyIff(e: Env, s: State, acts: seq<Action>)
    requires Init(e, s) && Runs(e, s, acts)
    ensures var t := Reached(e, s, acts);
            t.top == t.bottom <==> t.lines % e.max == 0
  {
    RunTally(e, s, acts);
    var t := Reached(e, s, acts);
    Apart(e.max, t.top - t.bottom, t.lines);
  }

  lemma Apart(max: int, d: int, lines: int)
    requires max > 0 && -max < d < max && (d + lines) % max == 0
    ensures d == 0 <==> lines % max == 0
  {
    if lines % max == 0 {
      var p, q := (d + lines) / max, lines / max;
      assert d == (p - q) * max;
      if p - q > 0 {
        MulLess(0, p - q, max);
      } else if p - q < 0 {
        MulLess(p - q, 0, max);
      }
    }
  }

  /** The reader takes off as many lines as the oldest packet has. */
  ghost predicate InStep(e: Env, s: State, acts: seq<Action>)
    requires Shape(e, s) && Runs(e, s, acts)
    decreases |acts|
  {
    acts != [] ==>
      && (acts[0].Handle? ==> s.queue != [] && LINE * Need(e.c, s.got) == |s.queue[0].words|)
      && InStep(e, Next(e, s, acts[0]), acts[1..])
  }

  ghost predicate Counted(e: Env, s: State) {
    && Tally(e, s) && |Flat(s.queue)| == LINE * s.lines
    && forall p | p in s.queue :: |p.words| > 0
  }

  lemma NextCounted(e: Env, s: State, a: Action)
    requires Counted(e, s) && Allowed(e, s, a)
    requires a.Handle? ==> s.queue != [] && LINE * Need(e.c, s.got) == |s.queue[0].words|
    ensures Counted(e, Next(e, s, a))
  {
    NextTally(e, s, a);
    if a.Publish? {
      FlatAppend(s.queue, s.lock.from);
    }
  }

  lemma {:induction false} RunCounted(e: Env, s: State, acts: seq<Action>)
    requires Counted(e, s) && Runs(e, s, acts) && InStep(e, s, acts)
    ensures Counted(e, Reached(e, s, acts))
    decreases |acts|
  {
    if acts != [] {
      NextCounted(e, s, acts[0]);
      RunCounted(e, Next(e, s, acts[0]), acts[1..]);
    }
  }

  /** As long as the reader is in step with what was sent: it overlooks packets if and only if the lines that
      wait to be taken off fill the ring exactly, once or several times over. */
  lemma OverlooksIff(e: Env, s: State, acts: seq<Action>)
    requires Init(e, s) && Runs(e, s, acts) && InStep(e, s, acts)
    ensures var t := Reached(e, s, acts);
            && |Flat(t.queue)| == LINE * t.lines
            && (t.top == t.bottom && t.queue != [] <==> t.lines > 0 && t.lines % e.max == 0)
  {
    RunCounted(e, s, acts);
    LooksEmptyIff(e, s, acts);
    var t := Reached(e, s, acts);
    if t.queue != [] {
      assert t.queue[0] in t.queue;
    }
  }

  // ---------------------------------------------------------------- a run that fills the ring

  /** A sender alone at work with one-line messages, `k` still to be announced. */
  ghost predicate Filling(e: Env, s: State, k: nat) {
    && Counted(e, s) && s.phase.Away? && s.done == []
    && (s.lock.Free? || (s.lock.Held? && |s.lock.from.words| == LINE && s.lock.i <= LINE && k > 0))
  }

  /** What the sender does next. */
  ghost function Send(s: State, m: Message): (a: Action)
    requires !s.lock.Reader?
  {
    if s.lock.Free? then Grab(m, 0, seq(LINE, _ => 0))
    else if s.lock.i < |s.lock.from.words| then StoreWord
    else Publish
  }

  ghost function Left(s: State, k: nat): (n: nat)
    requires s.lock.Held? ==> k > 0 && s.lock.i <= LINE
  {
    if s.lock.Held? then k * (LINE + 2) - 1 - s.lock.i else k * (LINE + 2)
  }

  lemma SendStep(e: Env, s: State, m: Message, k: nat)
    requires Filling(e, s, k) && k > 0 && WellFormed(e.c, m) && Lines(e.c, m) == 1
    ensures Allowed(e, s, Send(s, m))
    ensures var t := Next(e, s, Send(s, m));
            var j := if Send(s, m).Publish? then k - 1 else k;
            && Filling(e, t, j) && t.top == s.top && t.lines == s.lines + (k - j) && |t.queue| == |s.queue| + (k - j)
            && Left(t, j) < Left(s, k)
  {
    NextCounted(e, s, Send(s, m));
  }

  lemma {:induction false} Fill(e: Env, s: State, m: Message, k: nat) returns (acts: seq<Action>)
    requires Filling(e, s, k) && WellFormed(e.c, m) && Lines(e.c, m) == 1
    ensures Runs(e, s, acts) && InStep(e, s, acts)
    ensures var t := Reached(e, s, acts);
            && Filling(e, t, 0) && t.top == s.top && t.lines == s.lines + k && |t.queue| == |s.queue| + k
    decreases Left(s, k)
  {
    acts := [];
    if k > 0 {
      var a := Send(s, m);
      SendStep(e, s, m, k);
      var rest := Fill(e, Next(e, s, a), m, if a.Publish? then k - 1 else k);
      acts := [a] + rest;
      assert acts[1..] == rest;
    }
  }

  /** Any one-line message sent as often as the ring has lines: afterwards the reader finds nothing, though none of
      them was handled. */
  lemma FullLooksEmpty(e: Env, s: State, m: Message) returns (acts: seq<Action>)
    requires Init(e, s) && WellFormed(e.c, m) && Lines(e.c, m) == 1
    ensures Runs(e, s, acts) && InStep(e, s, acts)
    ensures var t := Reached(e, s, acts);
            && Allowed(e, t, Look) && Next(e, t, Look) == t
            && |t.queue| == e.max && t.lines == e.max && t.done == []
  {
    acts := Fill(e, s, m, e.max);
    LooksEmptyIff(e, s, acts);
  }
}
