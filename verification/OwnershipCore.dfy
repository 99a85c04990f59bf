/** The offer handlers in the program's form: a node whose handlers walk and change its core list in place. Each does
    to the list what the step of the protocol does. */
module OwnershipCore {
  import opened CoreList
  import opened OfferBook
  import opened Ownership

  /** AGENT_ZOMBIE waits for offered cores to come back, AGENT_ENDING gives everything back; the rest is OTHER. */
  datatype Phase = Other | Zombie | Ending

  class Node {
    const id: nat
    /** my_idag: the node's controller, -1 for a controller. */
    var idag: int
    /** my_cores. */
    var cores: List
    /** my_cores_count. */
    var coreCount: int
    /** The controller's own entry in its directory. */
    var ownCount: int
    /** my_app.num_of_cores, -1 without an application. */
    var appCores: int
    /** The application has ended. */
    var terminated: bool
    var phase: Phase
    /** The offers at hand: init_man_offers and selfopt_man_offers. */
    var initBids: Book
    var selfBids: Book

    /** A node as it starts: a controller with its cores, another core with none. */
    constructor (id: nat, idag: int, cores: List)
      ensures this.id == id && this.idag == idag && this.cores == cores && coreCount == |cores|
      ensures ownCount == |cores| && appCores == -1 && !terminated && phase == Other && initBids == [] == selfBids
    {
      this.id, this.idag, this.cores, coreCount, ownCount := id, idag, cores, |cores|, |cores|;
      appCores, terminated, phase, initBids, selfBids := -1, false, Other, [], [];
    }

    /** This node as node `id` of a state of the protocol. */
    ghost predicate Shows(k: Cluster, s: State)
      reads this
    {
      cores == s.At(id) && (idag == -1 <==> IsController(k, id))
    }

    /** The walk along the list for a core. */
    method Walk(c: nat, start: nat) returns (j: nat)
      requires start <= |cores|
      ensures j == Find(cores, c, start)
    {
      j := start;
      while j < |cores| && cores[j].core != c
        invariant start <= j <= |cores| && Find(cores, c, start) == Find(cores, c, j)
        decreases |cores| - j
      {
        j := j + 1;
      }
    }

    /** Whether a core after the head is offered to somebody. */
    method SomeOffered() returns (b: bool)
      ensures b <==> !AllBack(cores)
    {
      var j := 1;
      while j < |cores| && cores[j].to == NOBODY
        invariant 1 <= j && forall i | 0 < i < j && i < |cores| :: cores[i].to == NOBODY
        decreases |cores| - j
      {
        j := j + 1;
      }
      b := j < |cores|;
    }

    /** The offered cores are offered to nobody again; `look`: only those still down as offered to `sender`. */
    method TakeBack(offered: seq<nat>, sender: int, look: bool)
      modifies this`cores
      ensures cores == Back(old(cores), offered, sender, look)
    {
      var i := 0;
      while i < |offered|
        invariant i <= |offered| && cores == Back(old(cores), offered[..i], sender, look)
      {
        assert offered[..i + 1][..i] == offered[..i];
        var j := Walk(offered[i], Second(cores));
        if j < |cores| && (!look || cores[j].to == sender) {
          cores := cores[j := Entry(cores[j].core, NOBODY)];
        }
        i := i + 1;
      }
      assert offered[..i] == offered;
    }

    /** A manager whose application has ended goes on as soon as nothing is offered any more. */
    method MayEnd()
      modifies this`phase
      ensures phase == if terminated && AllBack(cores) && old(phase) == Zombie then Ending else old(phase)
    {
      if terminated {
        var b := SomeOffered();
        if !b && phase == Zombie {
          phase := Ending;
        }
      }
    }

    /** The accepted cores are taken off the list and reported to the controller: their number, the cores and the
        new owner. */
    method GiveAway(offered: seq<nat>, sender: nat) returns (rem: seq<int>)
      modifies this`cores, this`coreCount, this`appCores
      ensures cores == Drop(old(cores), offered)
      ensures coreCount == old(coreCount) - |offered| == appCores
      ensures rem == [|offered|] + offered + [sender]
    {
      coreCount := coreCount - |offered|;
      appCores := coreCount;
      rem := [|offered|];
      var i := 0;
      while i < |offered|
        invariant i <= |offered| && cores == Drop(old(cores), offered[..i])
        invariant coreCount == old(coreCount) - |offered| == appCores
        invariant rem == [|offered|] + offered[..i]
      {
        assert offered[..i + 1][..i] == offered[..i];
        var j := Walk(offered[i], 0);
        if j < |cores| {
          cores := cores[..j] + cores[j + 1..];
        }
        rem := rem + [offered[i]];
        i := i + 1;
      }
      assert offered[..i] == offered;
      rem := rem + [sender];
    }

    /** What the answer to an offer makes of the giver's list. */
    lemma AnsweredList(k: Cluster, s: State, sender: nat)
      requires Valid(k) && Enabled(k, s, TakeAnswer(id, sender))
      ensures var o := s.offers[(id, sender)];
              Next(k, s, TakeAnswer(id, sender)).At(id) ==
              if o.status != Accepted then Back(s.At(id), o.cores, sender, true)
              else if IsController(k, id) then s.At(id) else Drop(s.At(id), o.cores)
    {
    }

    /** REP_OFFERS: the answer to an offer of the cores `offered` has come. */
    method RepOffers(sender: nat, offered: seq<nat>, answer: int, ghost k: Cluster, ghost s: State)
      returns (rem: seq<int>)
      requires Valid(k) && Shows(k, s) && Enabled(k, s, TakeAnswer(id, sender))
      requires offered == s.offers[(id, sender)].cores && (answer == 0 || answer == 1)
      requires answer == 1 <==> s.offers[(id, sender)].status == Accepted
      modifies this
      ensures idag == old(idag) && Shows(k, Next(k, s, TakeAnswer(id, sender)))
      ensures ownCount == old(ownCount) - if answer == 1 && idag == -1 then |offered| else 0
      ensures coreCount == old(coreCount) - if answer == 1 && idag != -1 then |offered| else 0
      ensures answer == 1 && idag != -1 ==> rem == [|offered|] + offered + [sender]
      ensures !(answer == 1 && idag != -1) ==> rem == []
      ensures phase == if MayEndNow(answer, old(cores)) && old(phase) == Zombie then Ending else old(phase)
    {
      rem := [];
      AnsweredList(k, s, sender);
      if answer == 0 {
        BackNone(offered, sender, true);
        if cores != [] {
          TakeBack(offered, sender, true);
          MayEnd();
        }
      } else if idag == -1 {
        ownCount := ownCount - |offered|;
      } else {
        rem := GiveAway(offered, sender);
        MayEnd();
      }
    }

    /** Whether this is an answer after which the node looks at what is still offered, and nothing is. */
    ghost predicate MayEndNow(answer: int, was: List)
      reads this
    {
      terminated && AllBack(cores) && (if answer == 0 then was != [] else idag != -1)
    }

    /** REJECT of an offer. */
    method Reject(sender: nat, offered: seq<nat>, ghost k: Cluster, ghost s: State)
      requires Valid(k) && Shows(k, s) && Enabled(k, s, TakeReject(id, sender))
      requires offered == s.offers[(id, sender)].cores
      modifies this
      ensures idag == old(idag) && coreCount == old(coreCount) && Shows(k, Next(k, s, TakeReject(id, sender)))
      ensures phase == if terminated && AllBack(cores) && old(phase) == Zombie then Ending else old(phase)
    {
      BackNone(offered, sender, false);
      if cores != [] {
        TakeBack(offered, sender, false);
      }
      MayEnd();
    }

    /** New cores go to the end of the list, `self` left out. */
    method Enlist(news: seq<nat>, self: int)
      modifies this`cores
      ensures cores == old(cores) + Fresh(news, self)
    {
      var i := 0;
      while i < |news|
        invariant i <= |news| && cores == old(cores) + Fresh(news[..i], self)
      {
        assert news[..i + 1][..i] == news[..i];
        if news[i] != self {
          cores := cores + [Entry(news[i], NOBODY)];
        }
        i := i + 1;
      }
      assert news[..i] == news;
    }

    /** The cores of the list in order, behind a count. */
    method Report(count: int) returns (msg: seq<int>)
      ensures msg == [count] + CoresOf(cores)
    {
      msg := [count];
      var j := 0;
      while j < |cores|
        invariant j <= |cores| && msg == [count] + CoresOf(cores[..j])
      {
        assert cores[..j + 1][..j] == cores[..j];
        msg := msg + [cores[j].core];
        j := j + 1;
      }
      assert cores[..j] == cores;
    }

    /** INIT_AGENT: this node is to run an application on the cores given; the controller is told. */
    method InitAgent(msg: Init, ghost k: Cluster, ghost s: State) returns (add: seq<int>)
      requires Valid(k) && Shows(k, s) && Enabled(k, s, StartAgent(msg, appCores != -1)) && msg.agent == id
      modifies this
      ensures idag == old(idag) && Shows(k, Next(k, s, StartAgent(msg, old(appCores) != -1)))
      ensures appCores == coreCount == |msg.cores| && add == [coreCount] + CoresOf(cores)
    {
      if appCores != -1 {
        cores := [];
        coreCount := 0;
      }
      appCores := |msg.cores|;
      coreCount := appCores;
      cores := cores + [Entry(id, NOBODY)];
      Enlist(msg.cores, id);
      add := Report(coreCount);
    }

    /** REQ_CORES with an offer: kept among the others in the order of preference. */
    method TakeBid(bid: Bid, forInit: bool)
      modifies this
      ensures initBids == if forInit then Inserted(old(initBids), bid, true) else old(initBids)
      ensures selfBids == if forInit then old(selfBids) else Inserted(old(selfBids), bid, false)
      ensures cores == old(cores) && idag == old(idag)
    {
      if forInit {
        initBids := Insert(initBids, bid, true);
      } else {
        selfBids := Insert(selfBids, bid, false);
      }
    }

    /** INIT_MAN_CHK_OFFERS with offers at hand: the first is accepted, the others are refused. The agent chosen is
        sent INIT_AGENT with the cores, unless it is this node, which then starts the application itself. */
    method ChooseForInit(low: bool, dist: (nat, nat) -> nat, ghost k: Cluster, ghost s: State)
      returns (answers: seq<(nat, int)>, agent: nat, sent: seq<nat>, add: seq<int>)
      requires Valid(k) && Shows(k, s) && idag != -1 && initBids != [] && initBids[0].cores != []
      requires Holds(s, id, true, initBids)
      modifies this
      ensures agent in s.offers[(old(initBids)[0].sender, id)].cores && initBids == [] && idag == old(idag)
      ensures var a := ChooseInit(id, old(initBids)[0].sender, agent);
              && Enabled(k, s, a) && Shows(k, Next(k, s, a))
              && Answered(Next(k, s, a), id, answers)
              && (agent != id ==> Next(k, s, a).inits == s.inits + {Init(agent, sent)})
      ensures if low then agent == old(initBids)[0].cores[0]
              else exists at: nat :: Central(old(initBids)[0].cores, at, dist) && agent == old(initBids)[0].cores[at]
      // every giver is answered, the one whose offer is accepted with 1 and the others with 0
      ensures |answers| == |old(initBids)|
      ensures forall i | 0 <= i < |answers| :: answers[i] == (old(initBids)[i].sender, if i == 0 then 1 else 0)
      ensures if agent != id then sent == old(initBids)[0].cores && add == []
              else sent == [] && coreCount == appCores == |old(initBids)[0].cores| && add == [coreCount] + old(initBids)[0].cores
    {
      var offered := initBids[0].cores;
      agent := ChooseAgent(offered, low, dist);
      assert OpenWith(s, initBids[0].sender, id, Held(true));
      sent, add := [], [];
      if agent != id {
        sent := offered;
      } else {
        coreCount := |offered|;
        appCores := coreCount;
        cores := cores + [Entry(id, NOBODY)];
        Enlist(offered, id);
        add := [coreCount] + offered;
      }
      answers := AnswerAll(initBids, true);
      initBids := [];
    }

    /** AGENT_SELF_CHK_OFFERS with offers at hand: the first is accepted if the application still runs. */
    method ChooseForSelf(ghost k: Cluster, ghost s: State) returns (answers: seq<(nat, int)>, add: seq<int>)
      requires Valid(k) && Shows(k, s) && idag != -1 && selfBids != [] && cores != []
      requires Holds(s, id, false, selfBids)
      modifies this
      ensures selfBids == [] && idag == old(idag)
      ensures var a := if terminated then RefuseAll(id, false) else ChooseSelf(id, old(selfBids)[0].sender);
              Enabled(k, s, a) && Shows(k, Next(k, s, a)) && Answered(Next(k, s, a), id, answers)
      ensures |answers| == |old(selfBids)|
      ensures forall i | 0 <= i < |answers| ::
                answers[i] == (old(selfBids)[i].sender, if i == 0 && !terminated then 1 else 0)
      ensures terminated == old(terminated)
      ensures coreCount == old(coreCount) + if terminated then 0 else |old(selfBids)[0].cores|
      ensures add == if terminated then [] else [|old(selfBids)[0].cores|] + old(selfBids)[0].cores
    {
      add := [];
      assert OpenWith(s, selfBids[0].sender, id, Held(false));
      if !terminated {
        var offered := selfBids[0].cores;
        coreCount := coreCount + |offered|;
        appCores := coreCount;
        Enlist(offered, -1);
        add := [|offered|] + offered;
      }
      answers := AnswerAll(selfBids, !terminated);
      selfBids := [];
    }

    /** The answers, in the order of the list: 1 to the first, if it is accepted, and 0 to the others. */
    method AnswerAll(bids: Book, accept: bool) returns (answers: seq<(nat, int)>)
      requires bids != []
      ensures |answers| == |bids|
      ensures forall i | 0 <= i < |bids| :: answers[i] == (bids[i].sender, if accept && i == 0 then 1 else 0)
    {
      answers := [(bids[0].sender, if accept then 1 else 0)];
      var i := 1;
      while i < |bids|
        invariant 1 <= i <= |bids| && |answers| == i
        invariant forall x | 0 <= x < i :: answers[x] == (bids[x].sender, if accept && x == 0 then 1 else 0)
      {
        answers := answers + [(bids[i].sender, 0)];
        i := i + 1;
      }
    }

    /** AGENT_ENDING: if nothing is offered any more, everything goes back. Otherwise the node waits, unless it is
        also starting another application (`starting`), to which it returns. */
    method GiveBack(starting: bool, ghost k: Cluster, ghost s: State) returns (finish: seq<int>)
      requires Valid(k) && Shows(k, s) && id in k.nodes && idag != -1 && cores != []
      modifies this
      ensures !AllBack(old(cores)) ==> finish == [] && cores == old(cores) && phase == if starting then Other else Zombie
      ensures AllBack(old(cores)) ==>
                && idag == old(idag) && Shows(k, Next(k, s, End(id)))
                && finish == [old(coreCount)] + CoresOf(old(cores)) && appCores == -1
    {
      var b := SomeOffered();
      if b {
        phase := if starting then Other else Zombie;
        finish := [];
      } else {
        finish := Report(coreCount);
        cores := [];
        appCores := -1;
      }
    }
  }

  /** The list of bids is that of the offers that requester `r` holds. */
  ghost predicate Holds(s: State, r: nat, forInit: bool, bids: Book) {
    && (forall i | 0 <= i < |bids| ::
          && OpenWith(s, bids[i].sender, r, Held(forInit))
          && s.offers[(bids[i].sender, r)].cores == bids[i].cores)
    && (forall i, j | 0 <= i < j < |bids| :: bids[i].sender != bids[j].sender)
  }

  /** Every answer says what has become of the offer. */
  ghost predicate Answered(s: State, r: nat, answers: seq<(nat, int)>) {
    forall i | 0 <= i < |answers| ::
      OpenWith(s, answers[i].0, r, if answers[i].1 == 1 then Accepted else Refused(false))
  }
}
