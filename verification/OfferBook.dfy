/** The offers a requester has received, kept in the order in which it prefers them; the first is the one it will
    accept. */
module OfferBook {

  /** An offer as received: who made it, the cores, and spd_loss, which only controllers make negative. */
  datatype Bid = Bid(sender: nat, cores: seq<nat>, loss: real)

  type Book = seq<Bid>

  /** Whether the walk for a new bid goes past `a`. */
  predicate Passes(a: Bid, bid: Bid, forInit: bool) {
    if !forInit then |a.cores| >= |bid.cores|
    else if bid.loss < 0.0 then
      a.loss < 0.0 && (|a.cores| > |bid.cores| || (|a.cores| == |bid.cores| && a.loss < bid.loss))
    else a.loss < 0.0 || |a.cores| >= |bid.cores|
  }

  function Place(book: Book, bid: Bid, forInit: bool, i: nat): (j: nat)
    requires i <= |book|
    ensures i <= j <= |book| && (j < |book| ==> !Passes(book[j], bid, forInit))
    ensures forall x | i <= x < j :: Passes(book[x], bid, forInit)
    decreases |book| - i
  {
    if i < |book| && Passes(book[i], bid, forInit) then Place(book, bid, forInit, i + 1) else i
  }

  function Inserted(book: Book, bid: Bid, forInit: bool): (b: Book)
    ensures |b| == |book| + 1
  {
    var i := Place(book, bid, forInit, 0);
    book[..i] + [bid] + book[i..]
  }

  /** The walk along the list. */
  method Insert(book: Book, bid: Bid, forInit: bool) returns (b: Book)
    ensures b == Inserted(book, bid, forInit)
  {
    var i := 0;
    if forInit && bid.loss < 0.0 {
      while i < |book| && |book[i].cores| >= |bid.cores| && book[i].loss < 0.0
            && (|book[i].cores| > |bid.cores| || book[i].loss < bid.loss)
        invariant i <= |book| && Place(book, bid, forInit, 0) == Place(book, bid, forInit, i)
      {
        i := i + 1;
      }
    } else if forInit {
      while i < |book| && (book[i].loss < 0.0 || |book[i].cores| >= |bid.cores|)
        invariant i <= |book| && Place(book, bid, forInit, 0) == Place(book, bid, forInit, i)
      {
        i := i + 1;
      }
    } else {
      while i < |book| && |book[i].cores| >= |bid.cores|
        invariant i <= |book| && Place(book, bid, forInit, 0) == Place(book, bid, forInit, i)
      {
        i := i + 1;
      }
    }
    b := book[..i] + [bid] + book[i..];
  }

  // ---------------------------------------------------------------- what is preferred

  /** `a` is at least as good as `b`: to start an application, a controller's offer before a manager's, more cores
      before fewer, and of two controllers with equally many the smaller loss; otherwise more cores before fewer. */
  predicate AsGood(a: Bid, b: Bid, forInit: bool) {
    if !forInit then |a.cores| >= |b.cores|
    else if a.loss < 0.0 && b.loss < 0.0 then
      |a.cores| > |b.cores| || (|a.cores| == |b.cores| && a.loss <= b.loss)
    else a.loss < 0.0 || (b.loss >= 0.0 && |a.cores| >= |b.cores|)
  }

  ghost predicate Ordered(book: Book, forInit: bool) {
    forall i, j | 0 <= i < j < |book| :: AsGood(book[i], book[j], forInit)
  }

  lemma InsertedOrdered(book: Book, bid: Bid, forInit: bool)
    requires Ordered(book, forInit)
    ensures Ordered(Inserted(book, bid, forInit), forInit)
  {
    var p, b := Place(book, bid, forInit, 0), Inserted(book, bid, forInit);
    forall i, j | 0 <= i < j < |b|
      ensures AsGood(b[i], b[j], forInit)
    {
      if j == p {
        assert Passes(book[i], bid, forInit);
      } else if i == p {
        Behind(book, bid, forInit, j - 1);
      }
    }
  }

  lemma Behind(book: Book, bid: Bid, forInit: bool, j: nat)
    requires Ordered(book, forInit) && Place(book, bid, forInit, 0) <= j < |book|
    ensures AsGood(bid, book[j], forInit)
  {
    var p := Place(book, bid, forInit, 0);
    assert AsGood(bid, book[p], forInit);
    if p < j {
      assert AsGood(book[p], book[j], forInit);
    }
  }

  /** The list after the bids have come, one after the other. */
  function Received(bids: seq<Bid>, forInit: bool): (b: Book)
    ensures |b| == |bids|
  {
    if bids == [] then [] else Inserted(Received(bids[..|bids| - 1], forInit), bids[|bids| - 1], forInit)
  }

  lemma InsertedBids(book: Book, bid: Bid, forInit: bool)
    ensures multiset(Inserted(book, bid, forInit)) == multiset(book) + multiset{bid}
  {
    var i := Place(book, bid, forInit, 0);
    assert book == book[..i] + book[i..];
  }

  lemma {:induction false} ReceivedOrdered(bids: seq<Bid>, forInit: bool)
    ensures Ordered(Received(bids, forInit), forInit)
  {
    if bids != [] {
      ReceivedOrdered(bids[..|bids| - 1], forInit);
      InsertedOrdered(Received(bids[..|bids| - 1], forInit), bids[|bids| - 1], forInit);
    }
  }

  lemma {:induction false} ReceivedBids(bids: seq<Bid>, forInit: bool)
    ensures multiset(Received(bids, forInit)) == multiset(bids)
  {
    if bids != [] {
      var rest, bid := bids[..|bids| - 1], bids[|bids| - 1];
      ReceivedBids(rest, forInit);
      InsertedBids(Received(rest, forInit), bid, forInit);
      assert bids == rest + [bid];
    }
  }

  /** Whatever the order in which the offers come, the first of the list is one of them and as good as any. */
  lemma BestFirst(bids: seq<Bid>, forInit: bool, b: Bid)
    requires b in bids
    ensures var book := Received(bids, forInit);
            book[0] in bids && AsGood(book[0], b, forInit)
  {
    ReceivedOrdered(bids, forInit);
    ReceivedBids(bids, forInit);
    var book := Received(bids, forInit);
    assert book[0] in multiset(book) && b in multiset(bids);
    assert b in multiset(book);
    var i :| 0 <= i < |book| && book[i] == b;
    if i > 0 {
      assert AsGood(book[0], book[i], forInit);
    }
  }

  /** The `x`-th offer to come is accepted rather than the `y`-th. Of equally good ones the earlier is, except among
      controllers' offers for a new application, where the later is. */
  predicate Beats(bids: seq<Bid>, x: nat, y: nat, forInit: bool)
    requires x < |bids| && y < |bids|
  {
    var m, n := |bids[x].cores|, |bids[y].cores|;
    if forInit && bids[x].loss < 0.0 && bids[y].loss < 0.0 then
      m > n || (m == n && (bids[x].loss < bids[y].loss || (bids[x].loss == bids[y].loss && x > y)))
    else if forInit && (bids[x].loss < 0.0 || bids[y].loss < 0.0) then bids[x].loss < 0.0
    else m > n || (m == n && x < y)
  }

  /** Which offer is accepted, for every order of arrival. */
  lemma {:induction false} FirstAccepted(bids: seq<Bid>, forInit: bool) returns (x: nat)
    requires bids != []
    ensures x < |bids| && Received(bids, forInit)[0] == bids[x]
    ensures forall y: nat | y < |bids| && y != x :: Beats(bids, x, y, forInit)
  {
    var n := |bids| - 1;
    var rest := Received(bids[..n], forInit);
    if n == 0 || !Passes(rest[0], bids[n], forInit) {
      x := n;
    }
    if n > 0 {
      var z := FirstAccepted(bids[..n], forInit);
      if Passes(rest[0], bids[n], forInit) {
        x := z;
      }
      forall y: nat | y < |bids| && y != x
        ensures Beats(bids, x, y, forInit)
      {
        assert y != z && y < n ==> Beats(bids[..n], z, y, forInit);
      }
    }
  }

  // ---------------------------------------------------------------- the agent of a new application

  /** The hops from the core at `i` to all the others. */
  function Spread(cores: seq<nat>, i: nat, dist: (nat, nat) -> nat, upTo: nat): nat
    requires i < |cores| && upTo <= |cores|
  {
    if upTo == 0 then 0
    else Spread(cores, i, dist, upTo - 1) + if upTo - 1 == i then 0 else dist(cores[i], cores[upTo - 1])
  }

  /** Place `at` is the first of those with the fewest hops to all the others. */
  ghost predicate Central(cores: seq<nat>, at: nat, dist: (nat, nat) -> nat) {
    && at < |cores|
    && (forall x | 0 <= x < |cores| :: Spread(cores, at, dist, |cores|) <= Spread(cores, x, dist, |cores|))
    && forall x | 0 <= x < at :: Spread(cores, at, dist, |cores|) < Spread(cores, x, dist, |cores|)
  }

  /** The core that will run the application: the first, if it is a low-voltage one, otherwise the most central. */
  method ChooseAgent(cores: seq<nat>, low: bool, dist: (nat, nat) -> nat) returns (agent: nat)
    requires cores != []
    ensures agent in cores && (low ==> agent == cores[0])
    ensures !low ==> exists at: nat :: Central(cores, at, dist) && agent == cores[at]
  {
    ghost var at := 0;
    agent := cores[0];
    if !low {
      var minDist := -1;
      var i := 0;
      while i < |cores|
        invariant i <= |cores| && at < |cores| && agent == cores[at]
        invariant minDist == -1 <==> i == 0
        invariant i > 0 ==> at < i && minDist == Spread(cores, at, dist, |cores|)
        invariant forall x | 0 <= x < i :: minDist <= Spread(cores, x, dist, |cores|)
        invariant i > 0 ==> forall x | 0 <= x < at :: minDist < Spread(cores, x, dist, |cores|)
      {
        var total := 0;
        var j := 0;
        while j < |cores|
          invariant j <= |cores| && total == Spread(cores, i, dist, j)
        {
          if i != j {
            total := total + dist(cores[i], cores[j]);
          }
          j := j + 1;
        }
        if minDist == -1 || total < minDist {
          minDist := total;
          agent, at := cores[i], i;
        }
        i := i + 1;
      }
      assert Central(cores, at, dist);
    }
  }
}
