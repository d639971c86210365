/**
 Division and multiplication facts the solver does not find on its own.

 Products and quotients by a variable are outside linear arithmetic, so each fact is proved once,
 from the defining property of division alone, and called where it is needed. They serve the card
 size mask, the frame counts of the audio queue, the display grid of the presentation schedule and
 the word-by-word sums.
 */
module Arithmetic {
  function Min(a: int, b: int): int { if a < b then a else b }

  function Max(a: int, b: int): int { if a < b then b else a }

  lemma {:induction false} DivModUnique(x: int, n: nat, q: int, r: int)
    requires 0 <= r < n && x == q * n + r
    ensures x / n == q && x % n == r
  {
    var d := x / n - q;
    assert n * d == r - x % n by {
      calc { n * d; n * (x / n) - n * q; x - x % n - q * n; r - x % n; }
    }
    MultipleIsFar(n, d);
  }

  lemma {:induction false} MultipleIsFar(n: int, d: int)
    requires n > 0
    ensures d >= 1 ==> n * d >= n
    ensures d <= -1 ==> n * d <= -n
  {
  }

  lemma {:induction false} ProductIsNat(x: nat, y: nat)
    ensures x * y >= 0
  {
  }

  lemma {:induction false} LessTimes(p: int, q: int, n: nat)
    ensures p < q ==> p * n + n <= q * n
  {
    if p < q {
      ProductIsNat(q - p - 1, n);
      assert (q - p - 1) * n == q * n - p * n - n;
    }
  }

  lemma {:induction false} QuotientsAreOrdered(x: int, y: int, n: nat)
    requires x <= y && 0 < n
    ensures x / n <= y / n
  {
    LessTimes(y / n, x / n, n);
    assert y / n * n <= y < y / n * n + n && x / n * n <= x;
  }

  lemma {:induction false} QuotientIsBetween(x: int, n: nat, lo: int, hi: int)
    requires n > 0 && lo * n <= x <= hi * n
    ensures lo <= x / n <= hi
  {
    QuotientsAreOrdered(lo * n, x, n);
    QuotientsAreOrdered(x, hi * n, n);
    MultipleOverItself(lo, n);
    MultipleOverItself(hi, n);
  }

  lemma {:induction false} MultipleOverItself(m: int, n: nat)
    requires n > 0
    ensures m * n / n == m
  {
    LessTimes(m, m * n / n, n);
    LessTimes(m * n / n, m, n);
  }

  lemma {:induction false} ProductsAreOrdered(m: nat, s: nat, r: nat)
    requires s <= r
    ensures m * s <= m * r
  {
    ProductIsNat(m, r - s);
    assert m * (r - s) == m * r - m * s;
  }

  lemma {:induction false} QuotientIsBelow(x: nat, n: nat, m: nat)
    requires n > 0 && x < m * n
    ensures 0 <= x / n < m
  {
    QuotientsAreOrdered(0, x, n);
    LessTimes(m - 1, x / n, n);
    assert x / n * n <= x;
    assert (m - 1) * n + n == m * n;
  }
}
