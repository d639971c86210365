/**
 Single bits of non-negative words, written arithmetically.

 Guest words are integers below 2^32 here. Setting, clearing and testing one bit and the bitwise or
 are recursive functions on the halves of a word, so that facts about them are proved by induction
 and no bit-vector ever meets an integer. The pending mask of the guest scheduler and the address
 bytes of the card protocol use them.
 */
module Bits {
  import Arithmetic

  const WORD := 0x1_0000_0000

  type Word = w: int | 0 <= w < WORD

  function Pow2(n: nat): (r: nat)
    ensures r > 0
  {
    if n == 0 then 1 else 2 * Pow2(n - 1)
  }

  /** (w >> k) & 1. */
  predicate Bit(w: nat, k: nat) {
    if k == 0 then w % 2 == 1 else Bit(w / 2, k - 1)
  }

  /** Bit k is the digit of weight 2^k. */
  lemma {:induction false} BitInBinary(w: nat, k: nat)
    ensures Bit(w, k) <==> w / Pow2(k) % 2 == 1
    decreases k
  {
    if k > 0 {
      BitInBinary(w / 2, k - 1);
      HalvesCompose(w, Pow2(k - 1));
    }
  }

  lemma {:induction false} HalvesCompose(w: nat, n: nat)
    requires n > 0
    ensures w / 2 / n == w / (2 * n)
  {
    var q := w / 2 / n;
    assert w / 2 == q * n + w / 2 % n;
    assert w == q * (2 * n) + (2 * (w / 2 % n) + w % 2);
    Arithmetic.DivModUnique(w, 2 * n, q, 2 * (w / 2 % n) + w % 2);
  }

  /** w | (1 << k). */
  function SetBit(w: nat, k: nat): nat {
    if k == 0 then w - w % 2 + 1 else 2 * SetBit(w / 2, k - 1) + w % 2
  }

  /** w & ~(1 << k). */
  function ClearBit(w: nat, k: nat): nat {
    if k == 0 then w - w % 2 else 2 * ClearBit(w / 2, k - 1) + w % 2
  }

  lemma {:induction false} SetBitSetsOne(w: nat, k: nat, j: nat)
    ensures Bit(SetBit(w, k), j) <==> j == k || Bit(w, j)
  {
    if k != 0 && j != 0 {
      SetBitSetsOne(w / 2, k - 1, j - 1);
    }
  }

  lemma {:induction false} ClearBitClearsOne(w: nat, k: nat, j: nat)
    ensures Bit(ClearBit(w, k), j) <==> j != k && Bit(w, j)
  {
    if k != 0 && j != 0 {
      ClearBitClearsOne(w / 2, k - 1, j - 1);
    }
  }

  lemma {:induction false} BitUpdatesStayInWidth(w: nat, k: nat, n: nat)
    requires k < n && w < Pow2(n)
    ensures SetBit(w, k) < Pow2(n) && ClearBit(w, k) <= w
  {
    if k != 0 {
      BitUpdatesStayInWidth(w / 2, k - 1, n - 1);
    }
  }

  lemma WordWidth()
    ensures Pow2(32) == WORD
  {
    assert Pow2(8) == 0x100;
    assert Pow2(16) == 0x10000;
    assert Pow2(24) == 0x100_0000;
  }

  /** a | b. */
  function Or(a: nat, b: nat): nat {
    if a == 0 && b == 0 then 0
    else 2 * Or(a / 2, b / 2) + (if a % 2 == 1 || b % 2 == 1 then 1 else 0)
  }

  /** Where the bits do not meet, a | b is a sum: here b stays below the lowest possible bit of a. */
  lemma {:induction false} OrOfDisjointIsSum(q: nat, b: nat, k: nat)
    requires b < Pow2(k)
    ensures Or(q * Pow2(k), b) == q * Pow2(k) + b
    decreases k
  {
    if k > 0 {
      var half := q * Pow2(k - 1);
      assert q * Pow2(k) == 2 * half;
      OrOfDisjointIsSum(q, b / 2, k - 1);
    } else {
      OrWithZero(q);
    }
  }

  lemma {:induction false} OrWithZero(a: nat)
    ensures Or(a, 0) == a
  {
    if a != 0 {
      OrWithZero(a / 2);
    }
  }
}
