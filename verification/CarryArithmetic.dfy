/** PowerPC add and subtract with carry and overflow in XER, chained over numbers of any length. */
module CarryArithmetic {
  import opened Arithmetic
  import opened Bits

  const HALF := 0x8000_0000

  // ---------------------------------------------------------------- XER

  const SO: bv32 := 0x8000_0000
  const OV: bv32 := 0x4000_0000
  const CA: bv32 := 0x2000_0000

  predicate Flag(xer: bv32, bit: bv32) {
    xer & bit != 0
  }

  /** Everything in XER but the three flags. */
  function OtherBits(xer: bv32): bv32 {
    xer & !(SO | OV | CA)
  }

  function Carry(xer: bv32): (c: nat)
    ensures c <= 1
  {
    if Flag(xer, CA) then 1 else 0
  }

  function WithCarry(xer: bv32, carry: bool): bv32 {
    (xer & !CA) | if carry then CA else 0
  }

  /** Overflow sets SO and OV; no overflow clears OV and keeps SO. */
  function WithOverflow(xer: bv32, overflow: bool): bv32 {
    if overflow then xer | (SO | OV) else xer & !OV
  }

  /** The three flags are the top three bits of XER, the carry the lowest of them. */
  lemma {:induction false} FlagsAreBits(xer: bv32)
    ensures Flag(xer, SO) <==> xer & 0x8000_0000 != 0
    ensures Flag(xer, OV) <==> xer & 0x4000_0000 != 0
    ensures Flag(xer, CA) <==> xer & 0x2000_0000 != 0
    ensures OtherBits(xer) == xer & 0x1FFF_FFFF
  {
    assert !(SO | OV | CA) == 0x1FFF_FFFF;
  }

  lemma {:induction false} FlagsAfter(xer: bv32, carry: bool, overflow: bool)
    ensures var x := WithOverflow(WithCarry(xer, carry), overflow);
            && (Flag(x, CA) <==> carry) && (Flag(x, OV) <==> overflow)
            && (Flag(x, SO) <==> Flag(xer, SO) || overflow)
            && OtherBits(x) == OtherBits(xer)
  {
    assert carry ==> ((xer & !CA) | CA) & CA == CA;
    assert !carry ==> (xer & !CA) & CA == 0;
  }

  // ---------------------------------------------------------------- one word

  /** The sign bit. */
  predicate Negative(w: Word) { w >= HALF }

  function Not(w: Word): Word { WORD - 1 - w }

  /** lhs + rhs + carryIn: the low word and the flags. */
  function AddWithXer(xer: bv32, lhs: Word, rhs: Word, carryIn: nat, updateCarry: bool): (Word, bv32) {
    var wide := lhs + rhs + carryIn % 2;
    var result: Word := wide % WORD;
    var overflow := Negative(lhs) == Negative(rhs) && Negative(lhs) != Negative(result);
    (result, WithOverflow(if updateCarry then WithCarry(xer, wide >= WORD) else xer, overflow))
  }

  /** minuend - subtrahend, as minuend + ~subtrahend plus one or the carry. */
  function SubfWithXer(xer: bv32, subtrahend: Word, minuend: Word, carryIn: nat, extended: bool, updateCarry: bool):
    (Word, bv32)
  {
    var wide := Not(subtrahend) + minuend + if extended then carryIn % 2 else 1;
    var result: Word := wide % WORD;
    var overflow := Negative(minuend) != Negative(subtrahend) && Negative(minuend) != Negative(result);
    (result, WithOverflow(if updateCarry then WithCarry(xer, wide >= WORD) else xer, overflow))
  }

  function Addco(xer: bv32, lhs: Word, rhs: Word): (Word, bv32) { AddWithXer(xer, lhs, rhs, 0, true) }

  function Addeo(xer: bv32, lhs: Word, rhs: Word): (Word, bv32) { AddWithXer(xer, lhs, rhs, Carry(xer), true) }

  function Subfco(xer: bv32, subtrahend: Word, minuend: Word): (Word, bv32) {
    SubfWithXer(xer, subtrahend, minuend, 0, false, true)
  }

  function Subfeo(xer: bv32, subtrahend: Word, minuend: Word): (Word, bv32) {
    SubfWithXer(xer, subtrahend, minuend, Carry(xer), true, true)
  }

  // ---------------------------------------------------------------- chains of words

  /** WORD to the n. */
  function Scale(n: nat): (r: nat)
    ensures r > 0 && (n > 0 ==> r % 2 == 0)
  {
    if n == 0 then 1 else WORD * Scale(n - 1)
  }

  /** The number little-endian words stand for. */
  function Value(a: seq<Word>): nat {
    if a == [] then 0 else a[0] + WORD * Value(a[1..])
  }

  /** The same words as a two's-complement number. */
  function Signed(a: seq<Word>): int
    requires a != []
  {
    if Negative(a[|a| - 1]) then Value(a) - Scale(|a|) else Value(a)
  }

  function Complement(a: seq<Word>): (r: seq<Word>)
    ensures |r| == |a|
  {
    if a == [] then [] else [Not(a[0])] + Complement(a[1..])
  }

  predicate FitsSigned(v: int, n: nat)
    requires n > 0
  {
    -(Scale(n) / 2) <= v < Scale(n) / 2
  }

  /** addco on the lowest words (first), addeo on the rest. */
  function AddChain(xer: bv32, a: seq<Word>, b: seq<Word>, first: bool): (r: (seq<Word>, bv32))
    requires |a| == |b|
    ensures |r.0| == |a|
    decreases |a|
  {
    if a == [] then ([], xer)
    else
      var (low, x) := if first then Addco(xer, a[0], b[0]) else Addeo(xer, a[0], b[0]);
      var (high, y) := AddChain(x, a[1..], b[1..], false);
      ([low] + high, y)
  }

  /** subfco on the lowest words, subfeo on the rest: m minus s. */
  function SubfChain(xer: bv32, s: seq<Word>, m: seq<Word>, first: bool): (r: (seq<Word>, bv32))
    requires |s| == |m|
    ensures |r.0| == |m|
    decreases |m|
  {
    if s == [] then ([], xer)
    else
      var (low, x) := if first then Subfco(xer, s[0], m[0]) else Subfeo(xer, s[0], m[0]);
      var (high, y) := SubfChain(x, s[1..], m[1..], false);
      ([low] + high, y)
  }

  // ---------------------------------------------------------------- one step

  /** Two numbers of one sign whose sum has the other. */
  predicate SignsOverflow(lhs: Word, rhs: Word, result: Word) {
    Negative(lhs) == Negative(rhs) && Negative(lhs) != Negative(result)
  }

  /** What one step with carry-in c does: the exact sum, and the signs decide the overflow. */
  ghost predicate AddsWords(xer: bv32, lhs: Word, rhs: Word, c: nat, r: (Word, bv32)) {
    && lhs + rhs + c == r.0 + WORD * Carry(r.1)
    && Flag(r.1, OV) == SignsOverflow(lhs, rhs, r.0)
    && (Flag(r.1, SO) <==> Flag(xer, SO) || Flag(r.1, OV))
    && OtherBits(r.1) == OtherBits(xer)
  }

  lemma {:induction false} LowWordAndCarry(wide: nat)
    requires wide < 2 * WORD
    ensures wide == wide % WORD + if wide >= WORD then WORD else 0
  {
  }

  lemma {:induction false} AddStep(xer: bv32, lhs: Word, rhs: Word, c: nat)
    requires c <= 1
    ensures AddsWords(xer, lhs, rhs, c, AddWithXer(xer, lhs, rhs, c, true))
  {
    hide Flag, WithCarry, WithOverflow, OtherBits;
    LowWordAndCarry(lhs + rhs + c);
    var wide := lhs + rhs + c;
    var overflow := Negative(lhs) == Negative(rhs) && Negative(lhs) != Negative(wide % WORD);
    FlagsAfter(xer, wide >= WORD, overflow);
  }

  /** Subtracting is adding the complement. */
  lemma {:induction false} SubfStep(xer: bv32, s: Word, m: Word, c: nat, extended: bool)
    requires c <= 1
    ensures AddsWords(xer, m, Not(s), if extended then c else 1, SubfWithXer(xer, s, m, c, extended, true))
  {
    hide Flag, WithCarry, WithOverflow, OtherBits;
    LowWordAndCarry(Not(s) + m + if extended then c else 1);
    var wide := Not(s) + m + if extended then c else 1;
    var overflow := Negative(m) != Negative(s) && Negative(m) != Negative(wide % WORD);
    FlagsAfter(xer, wide >= WORD, overflow);
  }

  // ---------------------------------------------------------------- whole numbers

  /** The result r of adding a, b and c in words, with its final flags. */
  ghost predicate AddsNumbers(xer: bv32, a: seq<Word>, b: seq<Word>, c: nat, r: seq<Word>, flags: bv32)
    requires |a| == |b| == |r|
  {
    && Value(a) + Value(b) + c == Value(r) + Scale(|a|) * Carry(flags)
    && (a != [] ==> Flag(flags, OV) == SignsOverflow(a[|a| - 1], b[|a| - 1], r[|a| - 1]))
  }

  lemma {:induction false} AddsOneMore(a: seq<Word>, b: seq<Word>, c: nat, low: Word, x: bv32, r: seq<Word>,
                                       flags: bv32,
                                       xer: bv32)
    requires |a| == |b| == |r| + 1 && AddsWords(xer, a[0], b[0], c, (low, x))
    requires AddsNumbers(x, a[1..], b[1..], Carry(x), r, if r == [] then x else flags)
    ensures AddsNumbers(xer, a, b, c, [low] + r, if r == [] then x else flags)
  {
    hide Flag;
    var f := if r == [] then x else flags;
    assert ([low] + r)[1..] == r;
    Distribute(a[0], b[0], c, low, Carry(x), Value(a[1..]), Value(b[1..]), Value(r), Scale(|r|) * Carry(f));
    assert WORD * (Scale(|r|) * Carry(f)) == Scale(|a|) * Carry(f);
  }

  lemma {:induction false} Distribute(a: int, b: int, c: int, low: int, carry: int, va: int, vb: int, vr: int, top: int)
    requires a + b + c == low + WORD * carry && va + vb + carry == vr + top
    ensures a + WORD * va + (b + WORD * vb) + c == low + WORD * vr + WORD * top
  {
  }

  lemma {:induction false} AddChainAdds(xer: bv32, a: seq<Word>, b: seq<Word>, first: bool)
    requires |a| == |b| && a != []
    ensures var (r, flags) := AddChain(xer, a, b, first);
            AddsNumbers(xer, a, b, if first then 0 else Carry(xer), r, flags)
    decreases |a|
  {
    hide Flag, AddWithXer, AddsWords, AddsNumbers;
    var c := if first then 0 else Carry(xer);
    AddStep(xer, a[0], b[0], c);
    var (low, x) := AddWithXer(xer, a[0], b[0], c, true);
    var (high, y) := AddChain(x, a[1..], b[1..], false);
    if |a| > 1 {
      AddChainAdds(x, a[1..], b[1..], false);
    } else {
      AddsNothing(x);
    }
    AddsOneMore(a, b, c, low, x, high, y, xer);
  }

  lemma {:induction false} AddsNothing(x: bv32)
    ensures AddsNumbers(x, [], [], Carry(x), [], x)
  {
    hide Flag;
    assert Scale(0) * Carry(x) == Carry(x);
  }

  // ---------------------------------------------------------------- signs of whole numbers

  lemma {:induction false} TopBitIsTheSign(a: seq<Word>)
    requires a != []
    ensures Value(a) < Scale(|a|)
    ensures Negative(a[|a| - 1]) <==> Value(a) >= Scale(|a|) / 2
    decreases |a|
  {
    if |a| == 1 {
      assert a[1..] == [];
      assert Scale(1) == WORD * Scale(0);
    } else {
      TopBitIsTheSign(a[1..]);
    }
  }

  lemma {:induction false} ComplementIsNegation(s: seq<Word>)
    requires s != []
    ensures Value(Complement(s)) == Scale(|s|) - 1 - Value(s)
    ensures Complement(s)[|s| - 1] == Not(s[|s| - 1])
    ensures Signed(Complement(s)) == -1 - Signed(s)
    decreases |s|
  {
    if |s| == 1 {
      assert s[1..] == [] && Complement(s)[1..] == [];
      assert Scale(1) == WORD * Scale(0);
    } else {
      ComplementIsNegation(s[1..]);
      assert Complement(s)[1..] == Complement(s[1..]);
    }
  }

  /** The sign test on the top words is exactly two's-complement overflow of the whole numbers. */
  lemma {:induction false} SignTestIsOverflow(a: seq<Word>, b: seq<Word>, c: nat, r: seq<Word>, carry: nat)
    requires |a| == |b| == |r| && a != [] && c <= 1 && carry <= 1
    requires Value(a) + Value(b) + c == Value(r) + Scale(|a|) * carry
    ensures SignsOverflow(a[|a| - 1], b[|a| - 1], r[|a| - 1]) <==> !FitsSigned(Signed(a) + Signed(b) + c, |a|)
    ensures FitsSigned(Signed(a) + Signed(b) + c, |a|) ==> Signed(r) == Signed(a) + Signed(b) + c
  {
    hide Value, Scale;
    TopBitIsTheSign(a);
    TopBitIsTheSign(b);
    TopBitIsTheSign(r);
  }

  // ---------------------------------------------------------------- main results

  /**
   Chained additions compute the exact sum modulo 2^(32n): CA is the carry out of the whole, and OV its
   two's-complement overflow, as section 3.2.2 of Power ISA Book I defines them for one register.
   */
  lemma {:induction false} AddChainIsExact(xer: bv32, a: seq<Word>, b: seq<Word>, first: bool)
    requires |a| == |b| && a != []
    ensures var (r, flags) := AddChain(xer, a, b, first);
            var c := if first then 0 else Carry(xer);
            && Value(r) == (Value(a) + Value(b) + c) % Scale(|a|)
            && (Flag(flags, CA) <==> Value(a) + Value(b) + c >= Scale(|a|))
            && (Flag(flags, OV) <==> !FitsSigned(Signed(a) + Signed(b) + c, |a|))
  {
    hide Value, Scale, SignsOverflow, Signed, FitsSigned, AddChain;
    var (r, flags) := AddChain(xer, a, b, first);
    var c := if first then 0 else Carry(xer);
    AddChainAdds(xer, a, b, first);
    SignTestIsOverflow(a, b, c, r, Carry(flags));
    TopBitIsTheSign(a);
    TopBitIsTheSign(r);
    TopBitIsTheSign(b);
    DivModUnique(Value(a) + Value(b) + c, Scale(|a|), Carry(flags), Value(r));
  }

  lemma {:induction false} SubfChainAdds(xer: bv32, s: seq<Word>, m: seq<Word>, first: bool)
    requires |s| == |m| && s != []
    ensures var (r, flags) := SubfChain(xer, s, m, first);
            AddsNumbers(xer, m, Complement(s), if first then 1 else Carry(xer), r, flags)
    decreases |s|
  {
    hide Flag, SubfWithXer, AddsWords, AddsNumbers;
    var c := if first then 1 else Carry(xer);
    SubfStep(xer, s[0], m[0], if first then 0 else Carry(xer), !first);
    var (low, x) := if first then Subfco(xer, s[0], m[0]) else Subfeo(xer, s[0], m[0]);
    var (high, y) := SubfChain(x, s[1..], m[1..], false);
    if |s| > 1 {
      SubfChainAdds(x, s[1..], m[1..], false);
    } else {
      AddsNothing(x);
    }
    assert Complement(s)[1..] == Complement(s[1..]);
    AddsOneMore(m, Complement(s), c, low, x, high, y, xer);
  }

  /** What a chain of additions carries in below its first word. */
  function CarriedIn(xer: bv32, first: bool): (r: nat)
    ensures r <= 1
  {
    if first then 0 else Carry(xer)
  }

  /** What a chain borrows from below its first word. */
  function Borrow(xer: bv32, first: bool): (r: nat)
    ensures r <= 1
  {
    if first then 0 else 1 - Carry(xer)
  }

  /** Chained subtractions compute the exact difference: CA says no borrow, OV signed overflow. */
  lemma {:induction false} SubfChainIsExact(xer: bv32, s: seq<Word>, m: seq<Word>, first: bool)
    requires |s| == |m| && s != []
    ensures var (r, flags) := SubfChain(xer, s, m, first);
            var borrow := Borrow(xer, first);
            && Value(r) == (Value(m) - Value(s) - borrow) % Scale(|s|)
            && (Flag(flags, CA) <==> Value(m) >= Value(s) + borrow)
            && (Flag(flags, OV) <==> !FitsSigned(Signed(m) - Signed(s) - borrow, |s|))
  {
    hide Value, Scale, SignsOverflow, Signed, FitsSigned, SubfChain, Complement;
    var (r, flags) := SubfChain(xer, s, m, first);
    var borrow := Borrow(xer, first);
    SubfChainAdds(xer, s, m, first);
    ComplementIsNegation(s);
    SignTestIsOverflow(m, Complement(s), 1 - borrow, r, Carry(flags));
    TopBitIsTheSign(m);
    TopBitIsTheSign(r);
    TopBitIsTheSign(s);
    DivModUnique(Value(m) - Value(s) - borrow, Scale(|s|), Carry(flags) - 1, Value(r));
  }

  /**
   SO is sticky word by word: it ends up set exactly if it was, or if the sum of some number of leading
   words overflowed as a number of that length.
   */
  lemma {:induction false} SummaryOverflowIsSticky(xer: bv32, a: seq<Word>, b: seq<Word>, first: bool)
    requires |a| == |b|
    ensures Flag(AddChain(xer, a, b, first).1, SO) <==>
            Flag(xer, SO) || exists k :: 1 <= k <= |a| && SumOverflows(a, b, CarriedIn(xer, first), k)
  {
    hide Flag, AddChain, Signed, FitsSigned;
    AddStickyByFlags(xer, a, b, first);
    forall k | 1 <= k <= |a|
      ensures Flag(AddChain(xer, a[..k], b[..k], first).1, OV) <==> SumOverflows(a, b, CarriedIn(xer, first), k)
    {
      AddChainIsExact(xer, a[..k], b[..k], first);
    }
  }

  /** The k lowest words of a and b and the carry do not add up to a signed number of k words. */
  ghost predicate SumOverflows(a: seq<Word>, b: seq<Word>, c: nat, k: nat)
    requires 1 <= k <= |a| == |b|
  {
    !FitsSigned(Signed(a[..k]) + Signed(b[..k]) + c, k)
  }

  ghost predicate DifferenceOverflows(s: seq<Word>, m: seq<Word>, borrow: nat, k: nat)
    requires 1 <= k <= |s| == |m|
  {
    !FitsSigned(Signed(m[..k]) - Signed(s[..k]) - borrow, k)
  }

  /** The same for subtraction. */
  lemma {:induction false} SummaryOverflowOfDifference(xer: bv32, s: seq<Word>, m: seq<Word>, first: bool)
    requires |s| == |m|
    ensures Flag(SubfChain(xer, s, m, first).1, SO) <==>
            Flag(xer, SO) || exists k :: 1 <= k <= |s| && DifferenceOverflows(s, m, Borrow(xer, first), k)
  {
    hide Flag, SubfChain, Signed, FitsSigned;
    SubfStickyByFlags(xer, s, m, first);
    forall k | 1 <= k <= |s|
      ensures Flag(SubfChain(xer, s[..k], m[..k], first).1, OV) <==> DifferenceOverflows(s, m, Borrow(xer, first), k)
    {
      SubfChainIsExact(xer, s[..k], m[..k], first);
    }
  }

  lemma {:induction false} AddStickyByFlags(xer: bv32, a: seq<Word>, b: seq<Word>, first: bool)
    requires |a| == |b|
    ensures Flag(AddChain(xer, a, b, first).1, SO) <==>
            Flag(xer, SO) || exists k :: 1 <= k <= |a| && Flag(AddChain(xer, a[..k], b[..k], first).1, OV)
    decreases |a|
  {
    if a != [] {
      hide Flag, AddWithXer, AddsWords;
      var c := if first then 0 else Carry(xer);
      StickyStep(xer, a[0], b[0], c);
      var x := AddWithXer(xer, a[0], b[0], c, true).1;
      AddStickyByFlags(x, a[1..], b[1..], false);
      assert a[..1][1..] == [] && a[..1] == [a[0]] && b[..1] == [b[0]];
      assert AddChain(xer, a[..1], b[..1], first).1 == x;
      forall k | 1 <= k < |a|
        ensures AddChain(xer, a[..k + 1], b[..k + 1], first).1 == AddChain(x, a[1..][..k], b[1..][..k], false).1
      {
        assert a[..k + 1][1..] == a[1..][..k] && b[..k + 1][1..] == b[1..][..k];
      }
      if Flag(x, OV) {
        assert Flag(AddChain(xer, a[..1], b[..1], first).1, OV);
      } else if k :| 1 <= k <= |a[1..]| && Flag(AddChain(x, a[1..][..k], b[1..][..k], false).1, OV) {
        assert Flag(AddChain(xer, a[..k + 1], b[..k + 1], first).1, OV);
      }
      if k :| 1 <= k <= |a| && Flag(AddChain(xer, a[..k], b[..k], first).1, OV) {
        if k > 1 {
          assert a[..k] == a[..(k - 1) + 1] && b[..k] == b[..(k - 1) + 1];
          assert Flag(AddChain(x, a[1..][..k - 1], b[1..][..k - 1], false).1, OV);
        }
      }
    }
  }

  lemma {:induction false} SubfStickyByFlags(xer: bv32, s: seq<Word>, m: seq<Word>, first: bool)
    requires |s| == |m|
    ensures Flag(SubfChain(xer, s, m, first).1, SO) <==>
            Flag(xer, SO) || exists k :: 1 <= k <= |s| && Flag(SubfChain(xer, s[..k], m[..k], first).1, OV)
    decreases |s|
  {
    if s != [] {
      hide Flag, SubfWithXer, AddsWords;
      SubfStep(xer, s[0], m[0], if first then 0 else Carry(xer), !first);
      var x := (if first then Subfco(xer, s[0], m[0]) else Subfeo(xer, s[0], m[0])).1;
      SubfSticky(xer, s[0], m[0], first);
      SubfStickyByFlags(x, s[1..], m[1..], false);
      assert s[..1][1..] == [] && s[..1] == [s[0]] && m[..1] == [m[0]];
      assert SubfChain(xer, s[..1], m[..1], first).1 == x;
      forall k | 1 <= k < |s|
        ensures SubfChain(xer, s[..k + 1], m[..k + 1], first).1 == SubfChain(x, s[1..][..k], m[1..][..k], false).1
      {
        assert s[..k + 1][1..] == s[1..][..k] && m[..k + 1][1..] == m[1..][..k];
      }
      if Flag(x, OV) {
        assert Flag(SubfChain(xer, s[..1], m[..1], first).1, OV);
      } else if k :| 1 <= k <= |s[1..]| && Flag(SubfChain(x, s[1..][..k], m[1..][..k], false).1, OV) {
        assert Flag(SubfChain(xer, s[..k + 1], m[..k + 1], first).1, OV);
      }
      if k :| 1 <= k <= |s| && Flag(SubfChain(xer, s[..k], m[..k], first).1, OV) {
        if k > 1 {
          assert s[..k] == s[..(k - 1) + 1] && m[..k] == m[..(k - 1) + 1];
          assert Flag(SubfChain(x, s[1..][..k - 1], m[1..][..k - 1], false).1, OV);
        }
      }
    }
  }

  lemma {:induction false} SubfSticky(xer: bv32, s: Word, m: Word, first: bool)
    ensures var x := (if first then Subfco(xer, s, m) else Subfeo(xer, s, m)).1;
            Flag(x, SO) <==> Flag(xer, SO) || Flag(x, OV)
  {
    hide Flag, SubfWithXer;
    SubfStep(xer, s, m, if first then 0 else Carry(xer), !first);
  }

  lemma {:induction false} StickyStep(xer: bv32, lhs: Word, rhs: Word, c: nat)
    requires c <= 1
    ensures var x := AddWithXer(xer, lhs, rhs, c, true).1; Flag(x, SO) <==> Flag(xer, SO) || Flag(x, OV)
  {
    hide Flag, AddWithXer;
    AddStep(xer, lhs, rhs, c);
  }

  /** So SO may end up set by a lower word although the whole sum fits. */
  lemma {:induction false} LowerWordMaySetSummaryOverflow()
    ensures var (r, flags) := AddChain(0, [0x7FFF_FFFF, 0], [1, 0], true);
            r == [0x8000_0000, 0] && Flag(flags, SO) && !Flag(flags, OV)
  {
    var a: seq<Word>, b: seq<Word> := [0x7FFF_FFFF, 0], [1, 0];
    assert a[1..] == [0] && b[1..] == [0] && a[1..][1..] == [] && b[1..][1..] == [];
    assert Flag(AddChain(0, a, b, true).1, SO) by {
      StickyStep(0, 0x7FFF_FFFF, 1, 0);
      AddStep(0, 0x7FFF_FFFF, 1, 0);
      StickyStep(Addco(0, 0x7FFF_FFFF, 1).1, 0, 0, Carry(Addco(0, 0x7FFF_FFFF, 1).1));
    }
  }

  // ---------------------------------------------------------------- the processor

  function SignedWord(w: Word): int { if Negative(w) then w - WORD else w }

  predicate FitsWord(v: int) { -HALF <= v < HALF }

  /**
   An operation left the overflow flags as its exact signed result v says, and nothing but them and perhaps
   CA changed.
   */
  predicate FlagsSay(before: bv32, after: bv32, v: int) {
    && (Flag(after, OV) <==> !FitsWord(v))
    && (Flag(after, SO) <==> Flag(before, SO) || !FitsWord(v))
    && OtherBits(after) == OtherBits(before)
  }

  lemma {:induction false} OverflowFlags(xer: bv32, overflow: bool)
    ensures var x := WithOverflow(xer, overflow);
            && (Flag(x, OV) <==> overflow) && (Flag(x, SO) <==> Flag(xer, SO) || overflow)
            && (Flag(x, CA) <==> Flag(xer, CA)) && OtherBits(x) == OtherBits(xer)
  {
  }

  lemma {:induction false} AddMeans(xer: bv32, lhs: Word, rhs: Word, carryIn: nat, updateCarry: bool)
    ensures var (result, after) := AddWithXer(xer, lhs, rhs, carryIn, updateCarry);
            && result == (lhs + rhs + carryIn % 2) % WORD
            && (Flag(after, CA) <==> if updateCarry then lhs + rhs + carryIn % 2 >= WORD else Flag(xer, CA))
            && FlagsSay(xer, after, SignedWord(lhs) + SignedWord(rhs) + carryIn % 2)
  {
    hide Flag, WithCarry, WithOverflow, OtherBits;
    var wide := lhs + rhs + carryIn % 2;
    LowWordAndCarry(wide);
    var overflow := Negative(lhs) == Negative(rhs) && Negative(lhs) != Negative(wide % WORD);
    FlagsAfter(xer, wide >= WORD, overflow);
    OverflowFlags(xer, overflow);
  }

  lemma {:induction false} SubfMeans(xer: bv32, subtrahend: Word, minuend: Word, carryIn: nat, extended: bool,
                                     updateCarry: bool)
    ensures var (result, after) := SubfWithXer(xer, subtrahend, minuend, carryIn, extended, updateCarry);
            var borrow := if extended then 1 - carryIn % 2 else 0;
            && result == (minuend - subtrahend - borrow) % WORD
            && (Flag(after, CA) <==> if updateCarry then minuend >= subtrahend + borrow else Flag(xer, CA))
            && FlagsSay(xer, after, SignedWord(minuend) - SignedWord(subtrahend) - borrow)
  {
    hide Flag, WithCarry, WithOverflow, OtherBits;
    var wide := Not(subtrahend) + minuend + if extended then carryIn % 2 else 1;
    LowWordAndCarry(wide);
    var overflow := Negative(minuend) != Negative(subtrahend) && Negative(minuend) != Negative(wide % WORD);
    FlagsAfter(xer, wide >= WORD, overflow);
    OverflowFlags(xer, overflow);
  }

  class Cpu {
    var xer: bv32

    constructor ()
      ensures xer == 0
    {
      xer := 0;
    }

    /** CA becomes the carry out of the exact sum. */
    method UpdateCarryAdd(lhs: Word, rhs: Word, carryIn: nat)
      modifies this
      ensures xer == WithCarry(old(xer), lhs + rhs + carryIn % 2 >= WORD)
    {
      var sum := lhs + rhs + carryIn % 2;
      var carryOut := sum / WORD % 2;
      xer := WithCarry(xer, carryOut == 1);
    }

    /** OV follows the overflow, SO only ever rises, and every other bit stays. */
    method UpdateOverflow(overflow: bool)
      modifies this
      ensures xer == WithOverflow(old(xer), overflow)
      ensures Flag(xer, OV) <==> overflow
      ensures Flag(xer, SO) <==> Flag(old(xer), SO) || overflow
      ensures (Flag(xer, CA) <==> Flag(old(xer), CA)) && OtherBits(xer) == OtherBits(old(xer))
    {
      OverflowFlags(xer, overflow);
      hide Flag, OtherBits;
      if overflow {
        xer := xer | 0xC000_0000;
      } else {
        xer := xer & !OV;
      }
    }

    /** The sum modulo 2^32; OV says the signed sum does not fit; CA, if asked for, is the carry out. */
    method Add(lhs: Word, rhs: Word, carryIn: nat, updateCarry: bool) returns (result: Word)
      modifies this
      ensures (result, xer) == AddWithXer(old(xer), lhs, rhs, carryIn, updateCarry)
      ensures result == (lhs + rhs + carryIn % 2) % WORD
      ensures Flag(xer, CA) <==> if updateCarry then lhs + rhs + carryIn % 2 >= WORD else Flag(old(xer), CA)
      ensures FlagsSay(old(xer), xer, SignedWord(lhs) + SignedWord(rhs) + carryIn % 2)
    {
      AddMeans(xer, lhs, rhs, carryIn, updateCarry);
      hide WithCarry, WithOverflow, FlagsSay, Flag, OtherBits;
      var wide := lhs + rhs + carryIn % 2;
      result := wide % WORD;
      var overflow := Negative(lhs) == Negative(rhs) && Negative(lhs) != Negative(result);
      if updateCarry { UpdateCarryAdd(lhs, rhs, carryIn); }
      UpdateOverflow(overflow);
    }

    /** The difference modulo 2^32, less the borrow; OV says it does not fit; CA, if asked for, says no borrow out. */
    method Subf(subtrahend: Word, minuend: Word, carryIn: nat, extended: bool, updateCarry: bool) returns (result: Word)
      modifies this
      ensures (result, xer) == SubfWithXer(old(xer), subtrahend, minuend, carryIn, extended, updateCarry)
      ensures var borrow := if extended then 1 - carryIn % 2 else 0;
              && result == (minuend - subtrahend - borrow) % WORD
              && (Flag(xer, CA) <==> if updateCarry then minuend >= subtrahend + borrow else Flag(old(xer), CA))
              && FlagsSay(old(xer), xer, SignedWord(minuend) - SignedWord(subtrahend) - borrow)
    {
      SubfMeans(xer, subtrahend, minuend, carryIn, extended, updateCarry);
      hide WithCarry, WithOverflow, FlagsSay, Flag, OtherBits;
      var wide := Not(subtrahend) + minuend + if extended then carryIn % 2 else 1;
      result := wide % WORD;
      var overflow := Negative(minuend) != Negative(subtrahend) && Negative(minuend) != Negative(result);
      if updateCarry {
        xer := WithCarry(xer, wide / WORD % 2 == 1);
      }
      UpdateOverflow(overflow);
    }

    /** addco: the word and the carry are the exact sum. */
    method Addc(lhs: Word, rhs: Word) returns (result: Word)
      modifies this
      ensures (result, xer) == Addco(old(xer), lhs, rhs)
      ensures lhs + rhs == result + WORD * Carry(xer)
    {
      AddStep(xer, lhs, rhs, 0);
      hide Flag, AddWithXer;
      result := Add(lhs, rhs, 0, true);
    }

    /** addeo: the word and the carry are the exact sum with the carry before. */
    method Adde(lhs: Word, rhs: Word) returns (result: Word)
      modifies this
      ensures (result, xer) == Addeo(old(xer), lhs, rhs)
      ensures lhs + rhs + Carry(old(xer)) == result + WORD * Carry(xer)
    {
      AddStep(xer, lhs, rhs, Carry(xer));
      hide Flag, AddWithXer;
      result := Add(lhs, rhs, Carry(xer), true);
    }

    /** subfco: the word less the borrow out is the exact difference. */
    method Subfc(subtrahend: Word, minuend: Word) returns (result: Word)
      modifies this
      ensures (result, xer) == Subfco(old(xer), subtrahend, minuend)
      ensures minuend - subtrahend == result - WORD * (1 - Carry(xer))
    {
      SubfStep(xer, subtrahend, minuend, 0, false);
      hide Flag, SubfWithXer;
      result := Subf(subtrahend, minuend, 0, false, true);
    }

    /** subfeo: the same, less the borrow before. */
    method Subfe(subtrahend: Word, minuend: Word) returns (result: Word)
      modifies this
      ensures (result, xer) == Subfeo(old(xer), subtrahend, minuend)
      ensures minuend - subtrahend - (1 - Carry(old(xer))) == result - WORD * (1 - Carry(xer))
    {
      SubfStep(xer, subtrahend, minuend, Carry(xer), true);
      hide Flag, SubfWithXer;
      result := Subf(subtrahend, minuend, Carry(xer), true, true);
    }
  }
}
