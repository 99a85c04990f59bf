/** How `RCCE_send_general` and `RCCE_recv_general` cut a message into rounds: full chunks, then the whole cache
    lines that are left, then one padded line. */
module Schedule {

  const LINE: nat := 32

  /** `put` bytes go through the communication buffer, of which the first `keep` belong to the message. */
  datatype Round = Round(off: nat, put: nat, keep: nat)

  function FullRounds(n: nat, chunk: nat): (r: seq<Round>)
    ensures |r| == n
  {
    seq(n, i requires 0 <= i < n => Round(i * chunk, chunk, chunk))
  }

  /** What is left after the full chunks, in rounds that start at `done`. */
  function Tail(done: nat, rest: nat): seq<Round> {
    var lines := rest - rest % LINE;
    (if lines > 0 then [Round(done, lines, lines)] else [])
    + (if rest % LINE > 0 then [Round(done + lines, LINE, rest % LINE)] else [])
  }

  function Rounds(size: nat, chunk: nat): seq<Round>
    requires chunk > 0
  {
    FullRounds(size / chunk, chunk) + Tail(size / chunk * chunk, size % chunk)
  }

  /** Where round `i` begins in the message; its end for the round after the last. */
  function Start(rounds: seq<Round>, i: nat, size: nat): nat
    requires i <= |rounds|
  {
    if i < |rounds| then rounds[i].off else size
  }

  ghost predicate Follows(rounds: seq<Round>, i: nat, size: nat, chunk: nat)
    requires i < |rounds|
  {
    0 < rounds[i].keep <= rounds[i].put <= chunk && rounds[i].off + rounds[i].keep == Start(rounds, i + 1, size)
  }

  /** The rounds follow each other through the whole message, and each fits the buffer. */
  ghost predicate Tiles(rounds: seq<Round>, from: nat, size: nat, chunk: nat) {
    Start(rounds, 0, size) == from && forall i | 0 <= i < |rounds| :: Follows(rounds, i, size, chunk)
  }

  lemma NextMultiple(i: nat, chunk: nat)
    ensures (i + 1) * chunk == i * chunk + chunk
  {
  }

  lemma FullTile(n: nat, chunk: nat)
    requires chunk > 0
    ensures Tiles(FullRounds(n, chunk), 0, n * chunk, chunk)
  {
    forall i | 0 <= i < n
      ensures Follows(FullRounds(n, chunk), i, n * chunk, chunk)
    {
      NextMultiple(i, chunk);
    }
  }

  lemma JoinTiles(f: seq<Round>, t: seq<Round>, done: nat, size: nat, chunk: nat)
    requires Tiles(f, 0, done, chunk) && Tiles(t, done, size, chunk)
    ensures Tiles(f + t, 0, size, chunk)
  {
    forall i | 0 <= i < |f + t|
      ensures Follows(f + t, i, size, chunk)
    {
      assert if i < |f| then Follows(f, i, done, chunk) else Follows(t, i - |f|, size, chunk);
    }
  }

  lemma RoundsTile(size: nat, chunk: nat)
    requires chunk > 0 && chunk % LINE == 0
    ensures Tiles(Rounds(size, chunk), 0, size, chunk)
  {
    FullTile(size / chunk, chunk);
    JoinTiles(FullRounds(size / chunk, chunk), Tail(size / chunk * chunk, size % chunk), size / chunk * chunk, size, chunk);
  }

  /** What the rounds are: the full chunks, then what is left in whole lines of 32 bytes, then the rest in one more. */
  lemma RoundsSpelled(size: nat, chunk: nat)
    requires chunk > 0
    ensures var rounds, n, rest := Rounds(size, chunk), size / chunk, size % chunk;
            && |rounds| == n + (if rest >= 32 then 1 else 0) + (if rest % 32 > 0 then 1 else 0)
            && (forall i | 0 <= i < n :: rounds[i] == Round(i * chunk, chunk, chunk))
            && (rest >= 32 ==> rounds[n] == Round(n * chunk, rest - rest % 32, rest - rest % 32))
            && (rest % 32 > 0 ==> rounds[|rounds| - 1] == Round(size - rest % 32, 32, rest % 32))
  {
    var n, rest := size / chunk, size % chunk;
    assert size == n * chunk + rest;
    TailSpelled(n * chunk, rest);
  }

  lemma TailSpelled(done: nat, rest: nat)
    ensures var t := Tail(done, rest);
            && |t| == (if rest >= 32 then 1 else 0) + (if rest % 32 > 0 then 1 else 0)
            && (rest >= 32 ==> t[0] == Round(done, rest - rest % 32, rest - rest % 32))
            && (rest % 32 > 0 ==> t[|t| - 1] == Round(done + rest - rest % 32, 32, rest % 32))
  {
  }

  /** The sender's loop and its two tails. */
  method SendRounds(size: nat, chunk: nat) returns (rounds: seq<Round>)
    requires chunk > 0
    ensures rounds == Rounds(size, chunk)
  {
    rounds := [];
    var wsize := 0;
    while wsize < size / chunk * chunk
      invariant wsize == |rounds| * chunk && |rounds| <= size / chunk
      invariant rounds == FullRounds(|rounds|, chunk)
      decreases size - wsize
    {
      NextMultiple(|rounds|, chunk);
      rounds := rounds + [Round(wsize, chunk, chunk)];
      wsize := wsize + chunk;
    }
    assert |rounds| == size / chunk;
    var remainder := size % chunk;
    if remainder == 0 {
      return;
    }
    var nbytes := remainder - remainder % LINE;
    if nbytes != 0 {
      rounds := rounds + [Round(size / chunk * chunk, nbytes, nbytes)];
    }
    remainder := remainder % LINE;
    if remainder == 0 {
      return;
    }
    rounds := rounds + [Round(size / chunk * chunk + nbytes, LINE, remainder)];
  }
}
