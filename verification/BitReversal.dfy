/** Reversing the low bits of an index, and the permutation it makes: `reverse_bit` and `reverse` of `src/apps.c`. */
module BitReversal {

  function Pow2(n: nat): (r: nat)
    ensures r > 0
  {
    if n == 0 then 1 else 2 * Pow2(n - 1)
  }

  function Bit(n: nat, i: nat): nat {
    if i == 0 then n % 2 else Bit(n / 2, i - 1)
  }

  /** The low `m` bits of `k` in the opposite order. */
  function Rev(m: nat, k: nat): (r: nat)
    ensures r < Pow2(m)
  {
    if m == 0 then 0 else (if k % 2 == 1 then Pow2(m - 1) else 0) + Rev(m - 1, k / 2)
  }

  /** A number with bit `m - 1` put on top of bits 0 to `m - 2`. */
  lemma {:induction false} TopBit(m: nat, top: bool, k: nat)
    requires m > 0 && k < Pow2(m - 1)
    ensures Rev(m, (if top then Pow2(m - 1) else 0) + k) == 2 * Rev(m - 1, k) + if top then 1 else 0
  {
    var n := (if top then Pow2(m - 1) else 0) + k;
    if m > 1 {
      assert n % 2 == k % 2;
      assert n / 2 == (if top then Pow2(m - 2) else 0) + k / 2;
      TopBit(m - 1, top, k / 2);
    }
  }

  lemma {:induction false} Involution(m: nat, k: nat)
    requires k < Pow2(m)
    ensures Rev(m, Rev(m, k)) == k
  {
    if m > 0 {
      TopBit(m, k % 2 == 1, Rev(m - 1, k / 2));
      Involution(m - 1, k / 2);
    }
  }

  lemma {:induction false} LowBits(m: nat, top: bool, k: nat, i: nat)
    requires i < m && k < Pow2(m)
    ensures Bit((if top then Pow2(m) else 0) + k, i) == Bit(k, i)
  {
    var n := (if top then Pow2(m) else 0) + k;
    assert n % 2 == k % 2;
    assert n / 2 == (if top then Pow2(m - 1) else 0) + k / 2;
    if i > 0 {
      LowBits(m - 1, top, k / 2, i - 1);
    }
  }

  lemma {:induction false} HighBit(m: nat, top: bool, k: nat)
    requires k < Pow2(m)
    ensures Bit((if top then Pow2(m) else 0) + k, m) == if top then 1 else 0
  {
    if m > 0 {
      var n := (if top then Pow2(m) else 0) + k;
      assert n / 2 == (if top then Pow2(m - 1) else 0) + k / 2;
      HighBit(m - 1, top, k / 2);
    }
  }

  /** What the reversal means, bit by bit. */
  lemma {:induction false} RevBits(m: nat, k: nat, i: nat)
    requires i < m
    ensures Bit(Rev(m, k), i) == Bit(k, m - 1 - i)
  {
    if i < m - 1 {
      LowBits(m - 1, k % 2 == 1, Rev(m - 1, k / 2), i);
      RevBits(m - 1, k / 2, i);
    } else {
      HighBit(m - 1, k % 2 == 1, Rev(m - 1, k / 2));
    }
  }

  method ReverseBit(m: nat, k: nat) returns (j: nat)
    ensures j == Rev(m, k)
  {
    j := 0;
    var tmp := k;
    var i := 0;
    while i < m
      invariant i <= m
      invariant Rev(m, k) == j * Pow2(m - i) + Rev(m - i, tmp)
    {
      DoubleAdd(j, tmp % 2, Pow2(m - i - 1));
      j := 2 * j + tmp % 2;
      tmp := tmp / 2;
      i := i + 1;
    }
  }

  lemma DoubleAdd(j: nat, b: nat, p: nat)
    requires b < 2
    ensures (2 * j + b) * p == j * (2 * p) + if b == 1 then p else 0
  {
  }
}
