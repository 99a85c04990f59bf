/** How `scc_kill` lays a signal out in one or two lines of eight words, and how a controller's handlers read it back. */
module SignalCodec {
  import opened Arithmetic
  import opened Wrappers

  const LINE := 8

  datatype Config = Config(nues: nat, controllers: set<nat>)

  /** The signals that carry a list of cores to a controller, and all the others, which fill one line. */
  datatype Kind = AddCores | RemCores | Finish | AddToDds | Other

  const SIG_BASE := 42
  const SIG_HEARTBEAT_REQ := SIG_BASE + 27
  const SIG_HEARTBEAT_REP := SIG_BASE + 28

  function KindOf(sig: int): Kind {
    if sig == SIG_BASE + 9 then AddCores
    else if sig == SIG_BASE + 10 then RemCores
    else if sig == SIG_BASE + 12 then Finish
    else if sig == SIG_BASE + 26 then AddToDds
    else Other
  }

  /** `extra` are the words before the cores: the new owner, or for a message a controller passes on, first the
      original sender. `rest` are the last six words of a line that carries no list. */
  datatype Message =
    | List(sig: int, sender: nat, extra: seq<int>, cores: seq<int>)
    | Plain(sig: int, sender: nat, rest: seq<int>)

  function ExtraWords(kind: Kind, fromController: bool): nat {
    match kind
    case AddCores => if fromController then 1 else 0
    case RemCores => if fromController then 2 else 1
    case Finish => if fromController then 1 else 0
    case _ => 0
  }

  predicate WellFormed(c: Config, m: Message) {
    && m.sender < c.nues
    && match m
       case List(sig, sender, extra, cores) =>
         && KindOf(sig) != Other
         && |extra| == ExtraWords(KindOf(sig), sender in c.controllers)
         && 3 + |extra| + |cores| <= 2 * LINE
       case Plain(sig, _, rest) => KindOf(sig) == Other && |rest| == LINE - 2
  }

  /** Lines a list of `n` cores takes, from the number of cores that fit the first line. */
  function LinesFor(kind: Kind, fromController: bool, n: int): nat {
    if kind != Other && n > 5 - ExtraWords(kind, fromController) then 2 else 1
  }

  // ---------------------------------------------------------------- writing

  /** The identifier of the sender's `r`-th signal; heartbeats are not numbered. */
  function SignalId(c: Config, sig: int, sender: nat, r: nat): nat {
    if sig == SIG_HEARTBEAT_REQ || sig == SIG_HEARTBEAT_REP then sender else r * c.nues + sender
  }

  function FindSender(c: Config, sid: int): int
    requires c.nues > 0
  {
    sid % c.nues
  }

  lemma SenderFound(c: Config, sig: int, sender: nat, r: nat)
    requires sender < c.nues
    ensures FindSender(c, SignalId(c, sig, sender, r)) == sender
  {
    DivMod(r * c.nues + sender, r, sender, c.nues);
    DivMod(sender, 0, sender, c.nues);
  }

  /** The words of a message; `junk` is what is in the local array behind them. */
  function Layout(c: Config, m: Message, r: nat, junk: seq<int>): (w: seq<int>)
    requires WellFormed(c, m) && |junk| == LINE
    ensures |w| == 2 * LINE
  {
    var head := [m.sig, SignalId(c, m.sig, m.sender, r)];
    match m
    case List(sig, _, extra, cores) =>
      var body := head + [|cores|] + extra + cores;
      body + if |body| < LINE then Filler(sig, LINE - |body|) + junk else junk[|body| - LINE..]
    case Plain(_, _, rest) => head + rest + junk
  }

  function Filler(sig: int, n: nat): (s: seq<int>)
    ensures |s| == n
  {
    seq(n, i => sig)
  }

  function Lines(c: Config, m: Message): nat
    requires WellFormed(c, m)
  {
    if m.List? then LinesFor(KindOf(m.sig), m.sender in c.controllers, |m.cores|) else 1
  }

  function Encode(c: Config, m: Message, r: nat, junk: seq<int>): (w: seq<int>)
    requires WellFormed(c, m) && |junk| == LINE
    ensures |w| == LINE * Lines(c, m)
  {
    Layout(c, m, r, junk)[..LINE * Lines(c, m)]
  }

  /** What is where: the signal, its number, how many cores, the extra words, the cores; then the signal to the end of the
      first line, and in the second what was there. */
  lemma LayoutWords(c: Config, m: Message, r: nat, junk: seq<int>)
    requires WellFormed(c, m) && |junk| == 8
    ensures var w := Layout(c, m, r, junk);
            && w[0] == m.sig && w[1] == (if m.sig == 69 || m.sig == 70 then m.sender else r * c.nues + m.sender)
            && if m.Plain? then w[2..8] == m.rest && w[8..] == junk else
                 var e, n := |m.extra|, |m.cores|;
                 && w[2] == n && w[3..3 + e] == m.extra && w[3 + e..3 + e + n] == m.cores
                 && forall i | 3 + e + n <= i < 16 :: w[i] == if i < 8 then m.sig else junk[i - 8]
  {
    if m.List? {
      ListWords([m.sig, SignalId(c, m.sig, m.sender, r), |m.cores|], m.extra, m.cores, Layout(c, m, r, junk));
    }
  }

  /** The part of scc_kill that fills its local array for a list of cores: the signal everywhere in the first
      line, then the identifier, the count, the extra words and the cores over it. */
  method FillList(c: Config, m: Message, r: nat, local: array<int>)
    requires WellFormed(c, m) && m.List? && local.Length == 2 * LINE
    modifies local
    ensures local[..] == Layout(c, m, r, old(local[LINE..]))
  {
    ghost var junk := local[LINE..];
    var i := 0;
    while i < LINE
      invariant i <= LINE && local[LINE..] == junk
      invariant forall k | 0 <= k < i :: local[k] == m.sig
    {
      local[i] := m.sig;
      i := i + 1;
    }
    var e := |m.extra|;
    local[1] := SignalId(c, m.sig, m.sender, r);
    local[2] := |m.cores|;
    if e > 0 {
      local[3] := m.extra[0];
    }
    if e > 1 {
      local[4] := m.extra[1];
    }
    FillCores(local, m.cores, 3 + e);
  }

  method FillCores(local: array<int>, cores: seq<int>, at: nat)
    requires at + |cores| <= local.Length
    modifies local
    ensures local[..] == old(local[..at]) + cores + old(local[at + |cores|..])
  {
    var i := 1;
    while i <= |cores|
      invariant 1 <= i <= |cores| + 1
      invariant forall k | 0 <= k < local.Length && !(at <= k < at + i - 1) :: local[k] == old(local[k])
      invariant forall k | at <= k < at + i - 1 :: local[k] == cores[k - at]
    {
      local[at + i - 1] := cores[i - 1];
      i := i + 1;
    }
  }

  // ---------------------------------------------------------------- reading

  /** How many lines the handler takes off the ring, judged from the first. */
  function Need(c: Config, first: seq<int>): nat
    requires |first| >= LINE && c.nues > 0
  {
    var sender := FindSender(c, first[1]);
    LinesFor(KindOf(first[0]), 0 <= sender && (sender as nat) in c.controllers, first[2])
  }

  /** What the handler makes of the lines; None if the count does not fit what was read. */
  function Decode(c: Config, w: seq<int>): Option<Message>
    requires |w| >= LINE && c.nues > 0
  {
    var sender := FindSender(c, w[1]) as nat;
    var kind := KindOf(w[0]);
    if kind == Other then Some(Plain(w[0], sender, w[2..LINE]))
    else
      var e := ExtraWords(kind, sender in c.controllers);
      if 0 <= w[2] && 3 + e + w[2] <= |w| then Some(List(w[0], sender, w[3..3 + e], w[3 + e..3 + e + w[2]]))
      else None
  }

  /** A message takes a second line exactly when its words do not fit the first; and how many words come before the cores
      depends on the signal and on whether a controller passes it on. */
  lemma LinesNeeded(c: Config, m: Message)
    requires WellFormed(c, m)
    ensures Lines(c, m) == if m.List? && 3 + |m.extra| + |m.cores| > 8 then 2 else 1
    ensures m.List? <==> m.sig == 51 || m.sig == 52 || m.sig == 54 || m.sig == 68
    ensures m.List? ==> |m.extra| == (if m.sig == 52 then 1 else 0) + if m.sig != 68 && m.sender in c.controllers then 1 else 0
  {
    assert m.List? <==> KindOf(m.sig) != Other;
  }

  /** The reader takes as many lines as the writer wrote. */
  lemma LinesAgree(c: Config, m: Message, r: nat, junk: seq<int>)
    requires WellFormed(c, m) && |junk| == LINE
    ensures Need(c, Encode(c, m, r, junk)) == Lines(c, m)
    ensures Need(c, Encode(c, m, r, junk)[..LINE]) == Lines(c, m)
  {
    SenderFound(c, m.sig, m.sender, r);
  }

  /** The handler sees the message the sender laid out, from the sender that sent it. */
  lemma RoundTrip(c: Config, m: Message, r: nat, junk: seq<int>)
    requires WellFormed(c, m) && |junk| == LINE
    ensures Decode(c, Encode(c, m, r, junk)) == Some(m)
  {
    SenderFound(c, m.sig, m.sender, r);
    var w := Encode(c, m, r, junk);
    match m
    case List(sig, sender, extra, cores) =>
      ListWords([sig, SignalId(c, sig, sender, r), |cores|], extra, cores, w);
    case Plain(_, _, rest) =>
      assert w[2..LINE] == rest;
  }

  lemma ListWords(head: seq<int>, extra: seq<int>, cores: seq<int>, w: seq<int>)
    requires |head| == 3 && head + extra + cores <= w
    ensures w[2] == head[2] && w[3..3 + |extra|] == extra && w[3 + |extra|..3 + |extra| + |cores|] == cores
  {
    var b := head + extra + cores;
    assert b == w[..|b|];
    assert w[3..3 + |extra|] == b[3..3 + |extra|];
    assert w[3 + |extra|..|b|] == b[3 + |extra|..];
  }
}
