/** One core's share of the election as the program keeps it: global records that the signal handlers
    overwrite and loops over the mesh that send the signals. Each handler is proved to do what the
    protocol of module Paxos says it does. */
module PaxosCore {
  import opened Paxos
  import opened PaxosHandlers

  class Core {
    const c: Cluster
    const me: int
    // acceptor_vars
    var highestAccN: int
    var highestAccValue: int
    var highestProposedN: int
    // proposer_vars and the personal ballot
    var started: bool
    var ballot: int
    var highestRepliedN: int
    var highestRepliedValue: int
    var coresPromised: int
    var coresAccepted: int
    var coreStates: seq<int>
    var prepareAcceptSent: bool
    var learnSent: bool
    var exited: bool

    ghost function Model(): Node
      reads this
    {
      Node(highestAccN, highestAccValue, highestProposedN, started, ballot, highestRepliedN, highestRepliedValue,
           coresPromised, coresAccepted, coreStates, prepareAcceptSent, learnSent, exited)
    }

    ghost predicate Valid() {
      c.Valid() && c.Has(me)
    }

    constructor (c: Cluster, me: int)
      requires c.Valid() && c.Has(me)
      ensures Valid() && this.c == c && this.me == me && Model() == FRESH_NODE
    {
      this.c, this.me := c, me;
      highestAccN, highestAccValue, highestProposedN := -1, -1, -1;
      started, ballot := false, -1;
      highestRepliedN, highestRepliedValue, coresPromised, coresAccepted, coreStates := -1, -1, 0, 0, [];
      prepareAcceptSent, learnSent, exited := false, false, false;
    }

    /** Draws a ballot from the locked global counter and asks the whole cluster to promise. */
    method Init(counter: int) returns (counter': int, out: seq<Msg>)
      requires Valid()
      modifies this
      ensures counter' == counter + 1
      ensures Model() == OnInit(c, me, old(Model()), counter).node
      ensures out == OnInit(c, me, old(Model()), counter).out
    {
      ballot, counter' := counter, counter + 1;
      started := true;
      coreStates := [];
      var i := 0;
      while i < c.cores
        invariant 0 <= i <= c.cores && coreStates == seq(i, _ => -1)
        invariant Model() == old(Model()).(started := true, ballot := counter, states := coreStates)
      {
        coreStates := coreStates + [-1];
        i := i + 1;
      }
      out := [];
      i := 0;
      while i < c.cores
        invariant 0 <= i <= c.cores
        invariant out == Fan(Prepare(me, 0, counter), c.Members(), i)
      {
        if c.Has(i) {
          out := out + [Prepare(me, i, counter)];
        }
        i := i + 1;
      }
    }

    method PrepareRequest(sender: int, n: int, preference: int, junk: Junk) returns (out: seq<Msg>)
      requires Valid()
      modifies this
      ensures Effect(Model(), out) == OnPrepare(me, old(Model()), sender, n, preference, junk)
      // a first ballot is answered with the core's preference, a higher one with what it last voted for
      ensures var was := old(highestProposedN);
              if was > n || (was == n && n != -1) then out == [] && highestProposedN == was
              else highestProposedN == n && out == [if was == -1 then NoPrevious(me, sender, preference)
                else if highestAccValue == -1 then NoPrevious(me, sender, junk.score)
                else Promise(me, sender, highestAccN, highestAccValue, junk.score)]
      ensures Model() == old(Model()).(promised := highestProposedN)
    {
      out := [];
      if highestProposedN > n {
        return;
      } else if highestProposedN == -1 {
        var score := preference;
        highestProposedN := n;
        out := [NoPrevious(me, sender, score)];
      } else if highestProposedN < n {
        highestProposedN := n;
        if highestAccValue == -1 {
          out := [NoPrevious(me, sender, junk.score)];
        } else {
          out := [Promise(me, sender, highestAccN, highestAccValue, junk.score)];
        }
      }
    }

    method SendAcceptRequests(value: int) returns (out: seq<Msg>)
      requires Valid()
      ensures out == Fan(AcceptRequest(me, 0, ballot, value), c.Members(), c.cores)
    {
      out := [];
      var k := 0;
      while k < c.cores
        invariant 0 <= k <= c.cores
        invariant out == Fan(AcceptRequest(me, 0, ballot, value), c.Members(), k)
      {
        if c.Has(k) {
          out := out + [AcceptRequest(me, k, ballot, value)];
        }
        k := k + 1;
      }
    }

    method PrepareAcceptNoPrevious(sender: int, score: int, junk: Junk) returns (out: seq<Msg>)
      requires Valid() && |coreStates| == c.cores && 0 <= sender < c.cores
      modifies this
      ensures Effect(Model(), out) == OnNoPrevious(c, me, old(Model()), sender, score, junk)
    {
      coreStates := coreStates[sender := score];
      coresPromised := coresPromised + 1;
      out := [];
      if coresPromised >= Majority(CLUSTER_SIZE) {
        if !prepareAcceptSent {
          var maxScore, index := junk.maxScore, junk.index;
          var i := 0;
          while i < c.cores
            invariant 0 <= i <= c.cores
            invariant (maxScore, index) == Scan(coreStates, junk, i)
          {
            if coreStates[i] > maxScore {
              maxScore := coreStates[i];
              index := i;
            }
            i := i + 1;
          }
          prepareAcceptSent := true;
          if highestRepliedValue == -1 {
            highestRepliedValue := index;
          }
          out := SendAcceptRequests(highestRepliedValue);
        }
      }
    }

    method PrepareAccept(sender: int, n: int, value: int, score: int) returns (out: seq<Msg>)
      requires Valid() && |coreStates| == c.cores && 0 <= sender < c.cores
      modifies this
      ensures Effect(Model(), out) == OnPromise(c, me, old(Model()), sender, n, value, score)
    {
      coreStates := coreStates[sender := score];
      coresPromised := coresPromised + 1;
      if n > highestRepliedN {
        highestRepliedN := n;
        highestRepliedValue := value;
      }
      out := [];
      if coresPromised >= Majority(CLUSTER_SIZE) {
        if !prepareAcceptSent {
          prepareAcceptSent := true;
          out := SendAcceptRequests(highestRepliedValue);
        }
      }
    }

    method AcceptRequested(sender: int, n: int, value: int) returns (out: seq<Msg>)
      requires Valid()
      modifies this
      ensures Effect(Model(), out) == OnAcceptRequest(me, old(Model()), sender, n, value)
      ensures n < old(highestProposedN) ==> out == [] && Model() == old(Model())
      ensures n >= old(highestProposedN) ==>
                out == [Accepted(me, sender, value)]
                && Model() == old(Model()).(accN := n, accV := value, promised := n)
    {
      out := [];
      if n < highestProposedN {
      } else {
        highestAccN := n;
        highestAccValue := value;
        highestProposedN := n;
        out := [Accepted(me, sender, highestAccValue)];
      }
    }

    method AcceptedBy(sender: int, value: int) returns (out: seq<Msg>)
      requires Valid()
      modifies this
      ensures Effect(Model(), out) == OnAccepted(c, me, old(Model()), value)
      ensures coresAccepted == old(coresAccepted) + 1 && learnSent == (old(learnSent) || coresAccepted >= 4)
      // at the fourth vote every core but the failed one is told
      ensures var tells := coresAccepted >= 4 && !old(learnSent);
              forall m :: m in out <==> tells && m == Learn(me, m.dst, value, c.idag) && 0 <= m.dst < c.cores && m.dst != c.idag
    {
      VoteHandled(c, Model(), me, value);
      coresAccepted := coresAccepted + 1;
      out := [];
      if coresAccepted >= Majority(CLUSTER_SIZE) && !learnSent {
        learnSent := true;
        out := Announce(value);
      }
    }

    method Announce(value: int) returns (out: seq<Msg>)
      requires Valid()
      ensures out == [Learn(me, me, value, c.idag)] + Fan(Learn(me, 0, value, c.idag), c.AllBut(me), c.cores)
    {
      out := [Learn(me, me, value, c.idag)];
      var k := 0;
      while k < c.cores
        invariant 0 <= k <= c.cores
        invariant out == [Learn(me, me, value, c.idag)] + Fan(Learn(me, 0, value, c.idag), c.AllBut(me), k)
      {
        if k != c.idag && k != me {
          out := out + [Learn(me, k, value, c.idag)];
        }
        k := k + 1;
      }
    }

    method Learned()
      modifies this
      ensures Effect(Model(), []) == OnLearn(old(Model()))
      ensures exited && Model() == old(Model()).(halted := true)
    {
      exited := true;
    }
  }
}
