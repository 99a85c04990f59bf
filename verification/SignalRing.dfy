/** The signal ring of one controller: any number of senders append messages of one or two lines under the lock, the
    controller takes the first line under the lock and the second outside it. Every word moved is one step. */
module SignalRing {
  import opened SignalCodec

  /** Which word of the ring the `i`-th word from line `line` on is: a two-line message in the last line goes on in
      the first. */
  function Addr(max: nat, line: nat, i: nat): (a: nat)
    requires line < max && i < LINE * max
    ensures a < LINE * max
  {
    if LINE * line + i < LINE * max then LINE * line + i else LINE * line + i - LINE * max
  }

  lemma AddrWraps(max: nat, line: nat, i: nat)
    requires line < max && i < 8 * max
    ensures Addr(max, line, i) == (8 * line + i) % (8 * max)
  {
    WrapOnce(8 * max, 8 * line + i);
  }

  lemma AddrDistinct(max: nat, line: nat, i: nat, k: nat)
    requires line < max && i < LINE * max && k < LINE * max && i != k
    ensures Addr(max, line, i) != Addr(max, line, k)
  {
  }

  function Advance(max: nat, line: nat, n: nat): (r: nat)
    requires line < max && n <= max
    ensures r < max
  {
    (line + n) % max
  }

  /** Counting words from `n` lines further on. */
  lemma AddrAdvance(max: nat, line: nat, n: nat, i: nat)
    requires line < max && n <= max && LINE * n + i < LINE * max
    ensures Addr(max, Advance(max, line, n), i) == Addr(max, line, LINE * n + i)
  {
    WrapOnce(max, line + n);
  }

  lemma AdvanceTwice(max: nat, line: nat, n: nat, k: nat)
    requires line < max && n + k <= max
    ensures Advance(max, Advance(max, line, n), k) == Advance(max, line, n + k)
  {
    WrapOnce(max, line + n);
    WrapOnce(max, Advance(max, line, n) + k);
    WrapOnce(max, line + n + k);
  }

  lemma WrapOnce(max: nat, x: nat)
    requires max > 0 && x < 2 * max
    ensures x % max == if x < max then x else x - max
  {
  }

  // ---------------------------------------------------------------- the two loops

  /** The store loop of scc_kill on the target's part of the ring. */
  method Store(ring: array<int>, max: nat, oldValue: nat, words: array<int>, increase: nat)
    requires ring.Length == LINE * max && oldValue < max && ring != words
    requires 1 <= increase <= 2 <= max && LINE * increase <= words.Length
    modifies ring
    ensures forall i | 0 <= i < LINE * increase :: ring[Addr(max, oldValue, i)] == words[i]
    ensures forall i | 0 <= i < 8 * increase :: words[i] == ring[(8 * oldValue + i) % (8 * max)]
    ensures forall a | 0 <= a < LINE * max && (forall i | 0 <= i < LINE * increase :: Addr(max, oldValue, i) != a) ::
              ring[a] == old(ring[a])
  {
    var offset := oldValue * LINE;
    var i := 0;
    while i < increase * LINE
      invariant i <= increase * LINE
      invariant forall k | 0 <= k < i :: ring[Addr(max, oldValue, k)] == words[k]
      invariant forall a | 0 <= a < LINE * max && (forall k | 0 <= k < i :: Addr(max, oldValue, k) != a) ::
                  ring[a] == old(ring[a])
    {
      if oldValue == max - 1 && increase == 2 {
        if i <= 7 {
          ring[offset + i] := words[i];
        } else {
          ring[i - LINE] := words[i];
        }
      } else {
        ring[offset + i] := words[i];
      }
      i := i + 1;
    }
    forall k | 0 <= k < 8 * increase
      ensures Addr(max, oldValue, k) == (8 * oldValue + k) % (8 * max)
    {
      AddrWraps(max, oldValue, k);
    }
  }

  /** The loop of new_RCCE_get: the second line of a message whose first is line `index`. */
  method NewGet(target: array<int>, ring: array<int>, max: nat, index: nat, ints: nat)
    requires ring.Length == LINE * max && index < max && 2 <= max && ring != target
    requires ints == LINE && target.Length >= 2 * LINE
    modifies target
    ensures forall i | LINE <= i < 2 * LINE :: target[i] == ring[Addr(max, index, i)]
    ensures forall i | 8 <= i < 16 :: target[i] == ring[(8 * index + i) % (8 * max)]
    ensures forall i | 0 <= i < target.Length && !(LINE <= i < 2 * LINE) :: target[i] == old(target[i])
  {
    var i := 8;
    while i < 2 * ints
      invariant 8 <= i <= 2 * ints
      invariant forall k | LINE <= k < i :: target[k] == ring[Addr(max, index, k)]
      invariant forall k | 0 <= k < target.Length && !(LINE <= k < i) :: target[k] == old(target[k])
    {
      if index == max - 1 {
        target[i] := ring[i - 8];
      } else {
        target[i] := ring[index * LINE + i];
      }
      i := i + 1;
    }
    forall k | 8 <= k < 16
      ensures Addr(max, index, k) == (8 * index + k) % (8 * max)
    {
      AddrWraps(max, index, k);
    }
  }
}
