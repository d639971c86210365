/**
 Generation counters over guest RAM: a consumer may skip re-digesting a range while no notified
 write has landed on it. Counters are taken not to wrap.
 */
module GuestWrites {
  import opened AddressSpace
  import opened Wrappers

  const SPAN := 0x1800_0000
  const GRANULE := 0x1_0000
  const GRANULES := 0x1800
  const MEM1_SIZE := 0x180_0000
  const MEM2_BASE := 0x1000_0000
  const MEM2_SIZE := 0x800_0000
  const CACHED := 0x8000_0000
  const UNCACHED := 0xC000_0000

  /** Whether a physical offset is MEM1 or MEM2. */
  predicate BankOffset(o: int) {
    0 <= o < MEM1_SIZE || MEM2_BASE <= o < SPAN
  }

  /** Whether a guest address is main RAM through its physical, cached or uncached view. */
  predicate IsRam(a: Address) {
    BankOffset(a) || BankOffset(a - CACHED) || BankOffset(a - UNCACHED)
  }

  /** The physical address behind any view of main RAM; other addresses stand for themselves. */
  function Canonical(a: Address): Address {
    if a < MEM1_SIZE then a
    else if MEM2_BASE <= a < SPAN then a
    else if CACHED <= a < CACHED + MEM1_SIZE then a - CACHED
    else if CACHED + MEM2_BASE <= a < CACHED + SPAN then a - CACHED
    else if UNCACHED <= a < UNCACHED + MEM1_SIZE then a - UNCACHED
    else if UNCACHED + MEM2_BASE <= a < UNCACHED + SPAN then a - UNCACHED
    else a
  }

  // ---------------------------------------------------------------- main RAM and its views

  /**
   The addresses from a on hold byte o of physical main RAM, through its physical, cached or uncached view:
   24 MiB of MEM1 from 0 and 128 MiB of MEM2 from 0x1000_0000, seen again from 0x8000_0000 and 0xC000_0000.
   */
  predicate Reaches(a: Address, size: nat, o: int) {
    && (0 <= o < 0x180_0000 || 0x1000_0000 <= o < 0x1800_0000)
    && (a <= o < a + size || a <= 0x8000_0000 + o < a + size || a <= 0xC000_0000 + o < a + size)
  }

  /** The three views of a byte of main RAM have one canonical address; every other address stands for itself. */
  lemma {:induction false} ViewsAgree(o: int)
    requires 0 <= o < 0x180_0000 || 0x1000_0000 <= o < 0x1800_0000
    ensures Canonical(o) == Canonical(0x8000_0000 + o) == Canonical(0xC000_0000 + o) == o
    ensures IsRam(o) && IsRam(0x8000_0000 + o) && IsRam(0xC000_0000 + o)
  {
  }

  lemma {:induction false} OnlyRamHasViews(a: Address)
    ensures IsRam(a) <==> exists o :: Reaches(a, 1, o)
    ensures IsRam(a) ==> Reaches(a, 1, Canonical(a)) && forall o :: Reaches(a, 1, o) ==> o == Canonical(a)
    ensures !IsRam(a) ==> Canonical(a) == a
  {
    assert IsRam(a) ==> Reaches(a, 1, Canonical(a));
  }

  // ---------------------------------------------------------------- counters

  predicate Shaped(counters: seq<nat>) {
    |counters| == GRANULES
  }

  function First(start: nat): nat { start / GRANULE }

  function Last(start: nat, size: nat): nat
    requires size > 0
  {
    (start + size - 1) / GRANULE
  }

  /** The granules a notification bumps: those of its canonical interval, cut off at the end of RAM. */
  predicate Bumps(a: Address, size: nat, granule: nat) {
    size > 0 && Canonical(a) < SPAN && First(Canonical(a)) <= granule <= Last(Canonical(a), size) && granule < GRANULES
  }

  function Notify(counters: seq<nat>, a: Address, size: nat): (r: seq<nat>)
    ensures |r| == |counters|
    ensures forall k :: 0 <= k < |counters| ==> r[k] == counters[k] + if Bumps(a, size, k) then 1 else 0
  {
    seq(|counters|, k requires 0 <= k < |counters| => counters[k] + if Bumps(a, size, k) then 1 else 0)
  }

  function Sum(counters: seq<nat>, lo: nat, hi: nat): nat
    requires lo <= hi <= |counters|
    decreases hi - lo
  {
    if lo == hi then 0 else Sum(counters, lo, hi - 1) + counters[hi - 1]
  }

  /** Nothing for a range the counters do not cover. */
  predicate Tracked(a: Address, size: nat) {
    size > 0 && Canonical(a) + size <= SPAN
  }

  function Generation(counters: seq<nat>, a: Address, size: nat): Option<nat>
    requires Shaped(counters)
  {
    if !Tracked(a, size) then None
    else Some(Sum(counters, First(Canonical(a)), Last(Canonical(a), size) + 1))
  }

  predicate CanSkip(stored: Option<nat>, current: Option<nat>) {
    current.Some? && stored == current
  }

  /** Only the counters of the 64 KiB granules that the bytes from physical address o on lie in went up, by one. */
  ghost predicate BumpedFrom(before: seq<nat>, after: seq<nat>, o: nat, size: nat) {
    && |after| == |before|
    && forall k :: 0 <= k < |before| ==>
         after[k] == before[k] + if size > 0 && o / 0x1_0000 <= k <= (o + size - 1) / 0x1_0000 then 1 else 0
  }

  /** A notification counts from the physical byte behind whatever view it names; one from elsewhere counts nothing. */
  lemma {:induction false} NotifyBumps(counters: seq<nat>, a: Address, size: nat)
    requires Shaped(counters)
    ensures forall o :: Reaches(a, 1, o) ==> BumpedFrom(counters, Notify(counters, a, size), o, size)
    ensures (forall o :: !Reaches(a, 1, o)) ==>
        if a < 0x1800_0000 then BumpedFrom(counters, Notify(counters, a, size), a, size)
        else Notify(counters, a, size) == counters
  {
    hide Canonical, Reaches;
    OnlyRamHasViews(a);
    CanonicalBound(a);
  }

  lemma {:induction false} CanonicalBound(a: Address)
    ensures IsRam(a) ==> Canonical(a) < SPAN
  {
  }

  /** A range is covered when its physical bytes end by the end of MEM2; then its generation sums their granules. */
  lemma {:induction false} GenerationCounts(counters: seq<nat>, a: Address, size: nat, o: int)
    requires Shaped(counters) && Reaches(a, 1, o)
    ensures Generation(counters, a, size) ==
              if size == 0 || o + size > 0x1800_0000 then None
              else Some(Sum(counters, o / 0x1_0000, (o + size - 1) / 0x1_0000 + 1))
  {
    hide Canonical, Reaches;
    OnlyRamHasViews(a);
  }

  /** A covered range holds the bytes from its canonical address on, in one view. */
  lemma {:induction false} TrackedHolds(a: Address, size: nat, o: int)
    requires Tracked(a, size)
    ensures Reaches(a, size, o) <==> BankOffset(o) && Canonical(a) <= o < Canonical(a) + size
  {
  }

  /** A notified write. */
  datatype Write = Write(a: Address, size: nat)

  function NotifyAll(counters: seq<nat>, writes: seq<Write>): (r: seq<nat>)
    ensures |r| == |counters|
    decreases |writes|
  {
    if writes == [] then counters
    else
      var w := writes[|writes| - 1];
      Notify(NotifyAll(counters, writes[..|writes| - 1]), w.a, w.size)
  }

  predicate TouchesGranules(w: Write, a: Address, size: nat)
    requires Tracked(a, size)
  {
    exists k :: First(Canonical(a)) <= k <= Last(Canonical(a), size) && Bumps(w.a, w.size, k)
  }

  // ---------------------------------------------------------------- counters only grow

  lemma {:induction false} NotifyGrowsSum(counters: seq<nat>, w: Write, lo: nat, hi: nat)
    requires lo <= hi <= |counters|
    ensures var after := Notify(counters, w.a, w.size);
            && Sum(counters, lo, hi) <= Sum(after, lo, hi)
            && (Sum(counters, lo, hi) < Sum(after, lo, hi) <==> exists k :: lo <= k < hi && Bumps(w.a, w.size, k))
    decreases hi - lo
  {
    hide Bumps, Canonical;
    if lo < hi {
      NotifyGrowsSum(counters, w, lo, hi - 1);
    }
  }

  /** A stored generation is still current exactly when no notification since touched a granule of the range. */
  lemma {:induction false} CurrentIffUntouched(counters: seq<nat>, writes: seq<Write>, a: Address, size: nat)
    requires Shaped(counters) && Tracked(a, size)
    ensures var stored := Generation(counters, a, size);
            var current := Generation(NotifyAll(counters, writes), a, size);
            && stored.value <= current.value
            && (CanSkip(stored, current) <==> forall i :: 0 <= i < |writes| ==> !TouchesGranules(writes[i], a, size))
    decreases |writes|
  {
    hide Bumps, Canonical;
    if writes != [] {
      var init, w := writes[..|writes| - 1], writes[|writes| - 1];
      CurrentIffUntouched(counters, init, a, size);
      NotifyGrowsSum(NotifyAll(counters, init), w, First(Canonical(a)), Last(Canonical(a), size) + 1);
      assert forall i :: 0 <= i < |init| ==> writes[i] == init[i];
    }
  }

  // ---------------------------------------------------------------- which bytes a notification covers

  /** The first RAM address after one that is not tracked RAM itself. */
  function NextRam(a: Address): nat {
    if a < CACHED then CACHED
    else if a < CACHED + MEM2_BASE then CACHED + MEM2_BASE
    else if a < UNCACHED then UNCACHED
    else if a < UNCACHED + MEM2_BASE then UNCACHED + MEM2_BASE
    else ADDRESSES
  }

  /** Where the next view of RAM begins. */
  function NextView(a: Address): nat {
    if a < CACHED then CACHED else if a < UNCACHED then UNCACHED else ADDRESSES
  }

  /**
   A notification that bumps every granule it writes: it starts in RAM and stays in its view or starts in
   the first granule of RAM, or it starts outside RAM and reaches none.
   */
  predicate Complete(w: Write) {
    if Canonical(w.a) >= SPAN then w.a + w.size <= NextRam(w.a) || NextRam(w.a) == ADDRESSES
    else Canonical(w.a) < GRANULE || w.a + w.size <= NextView(w.a) || NextView(w.a) == ADDRESSES
  }

  /** Byte i of a write is main RAM. */
  predicate WritesRam(w: Write, i: nat) {
    i < w.size && w.a + i < ADDRESSES && IsRam(w.a + i)
  }

  /** The notification writes a byte of main RAM that the range holds, each through any view. */
  ghost predicate WritesInto(w: Write, a: Address, size: nat) {
    exists o :: Reaches(w.a, w.size, o) && Reaches(a, size, o)
  }

  /** The byte i at which a notification writes byte o of main RAM. */
  lemma {:induction false} ByteOf(w: Write, o: int) returns (i: nat)
    requires Reaches(w.a, w.size, o)
    ensures WritesRam(w, i) && Canonical(w.a + i) == o
  {
    i := if w.a <= o < w.a + w.size then o - w.a
         else if w.a <= 0x8000_0000 + o < w.a + w.size then 0x8000_0000 + o - w.a
         else 0xC000_0000 + o - w.a;
  }

  lemma {:induction false} ByteIsReached(w: Write, i: nat)
    requires WritesRam(w, i)
    ensures Reaches(w.a, w.size, Canonical(w.a + i))
  {
  }

  lemma {:induction false} CompleteBumpsItsRam(w: Write, i: nat)
    requires Complete(w) && WritesRam(w, i)
    ensures Bumps(w.a, w.size, Canonical(w.a + i) / GRANULE)
  {
    if Canonical(w.a) <= Canonical(w.a + i) {
      InsideIsBumped(w, Canonical(w.a + i));
    } else {
      assert Canonical(w.a) < GRANULE && First(Canonical(w.a)) == 0;
    }
  }

  lemma {:induction false} InsideIsBumped(w: Write, o: nat)
    requires Canonical(w.a) <= o < Canonical(w.a) + w.size && o < SPAN
    ensures Bumps(w.a, w.size, o / GRANULE)
  {
    hide Canonical;
  }

  /** For an incomplete notification, the first RAM byte it reaches past its view: its granule is not bumped. */
  lemma {:induction false} IncompleteMissesAByte(w: Write) returns (i: nat)
    requires !Complete(w)
    ensures WritesRam(w, i) && !Bumps(w.a, w.size, Canonical(w.a + i) / GRANULE)
  {
    i := (if Canonical(w.a) >= SPAN then NextRam(w.a) else NextView(w.a)) - w.a;
  }

  /** The complete notifications are exactly those that bump the granule of every byte of RAM they write. */
  lemma {:induction false} CompleteIsExact(counters: seq<nat>, w: Write)
    requires Shaped(counters)
    ensures Complete(w) <==> forall o :: Reaches(w.a, w.size, o) ==>
              Notify(counters, w.a, w.size)[o / 0x1_0000] > counters[o / 0x1_0000]
  {
    hide Bumps, Complete, WritesRam, Canonical;
    if Complete(w) {
      forall o | Reaches(w.a, w.size, o)
        ensures Notify(counters, w.a, w.size)[o / 0x1_0000] > counters[o / 0x1_0000]
      {
        var i := ByteOf(w, o);
        CompleteBumpsItsRam(w, i);
      }
    } else {
      var i := IncompleteMissesAByte(w);
      ByteIsReached(w, i);
    }
  }

  // ---------------------------------------------------------------- main results

  /**
   While a stored generation is accepted, no complete notification has written a byte of the range through
   any view.
   */
  lemma {:induction false} SkippingIsSound(counters: seq<nat>, writes: seq<Write>, a: Address, size: nat, n: nat)
    requires Shaped(counters) && n < |writes| && Complete(writes[n])
    requires CanSkip(Generation(counters, a, size), Generation(NotifyAll(counters, writes), a, size))
    ensures !WritesInto(writes[n], a, size)
  {
    CurrentIffUntouched(counters, writes, a, size);
    if WritesInto(writes[n], a, size) {
      WrittenRangeIsTouched(writes[n], a, size);
    }
  }

  lemma {:induction false} WrittenRangeIsTouched(w: Write, a: Address, size: nat)
    requires Complete(w) && Tracked(a, size) && WritesInto(w, a, size)
    ensures TouchesGranules(w, a, size)
  {
    hide Canonical, Complete, WritesRam, Bumps, Reaches;
    var o :| Reaches(w.a, w.size, o) && Reaches(a, size, o);
    var i := ByteOf(w, o);
    CompleteBumpsItsRam(w, i);
    TrackedHolds(a, size, o);
    assert First(Canonical(a)) <= o / GRANULE <= Last(Canonical(a), size);
  }

  /** A range is re-digested only when a notification landed within 64 KiB granules of it. */
  lemma {:induction false} UntouchedRangesAreSkipped(counters: seq<nat>, writes: seq<Write>, a: Address, size: nat)
    requires Shaped(counters) && Tracked(a, size)
    requires forall i :: 0 <= i < |writes| ==> !TouchesGranules(writes[i], a, size)
    ensures CanSkip(Generation(counters, a, size), Generation(NotifyAll(counters, writes), a, size))
  {
    CurrentIffUntouched(counters, writes, a, size);
  }

  lemma {:induction false} SkipAfterOne(counters: seq<nat>, w: Write, a: Address, size: nat)
    requires Shaped(counters) && Tracked(a, size)
    ensures CanSkip(Generation(counters, a, size), Generation(Notify(counters, w.a, w.size), a, size)) <==>
            !TouchesGranules(w, a, size)
  {
    hide Canonical, Bumps;
    assert [w][..0] == [];
    CurrentIffUntouched(counters, [w], a, size);
  }

  /**
   A notification makes every range it writes into, through whatever view, re-digest if and only if it is
   complete: no skip after a complete notification is wrong, and every incomplete one leaves a wrong skip.
   */
  lemma {:induction false} SkipIsSoundExactly(counters: seq<nat>, w: Write)
    requires Shaped(counters)
    ensures Complete(w) <==>
            forall a: Address, size: nat :: WritesInto(w, a, size) ==>
              !CanSkip(Generation(counters, a, size), Generation(Notify(counters, w.a, w.size), a, size))
  {
    hide Generation, Notify, Tracked, Bumps, CanSkip, Complete, Reaches, WritesRam, Canonical;
    if Complete(w) {
      forall a: Address, size: nat | WritesInto(w, a, size)
        ensures !CanSkip(Generation(counters, a, size), Generation(Notify(counters, w.a, w.size), a, size))
      {
        if Tracked(a, size) {
          SkipAfterOne(counters, w, a, size);
          WrittenRangeIsTouched(w, a, size);
        } else {
          UntrackedIsNeverSkipped(counters, Notify(counters, w.a, w.size), a, size);
        }
      }
    } else {
      var i := IncompleteMissesAByte(w);
      var x := Canonical(w.a + i);
      RamIsTracked(w.a + i);
      SkipAfterOne(counters, w, x, 1);
      OneByteIsTouched(w, x);
      ByteIsReached(w, i);
      assert WritesInto(w, x, 1);
    }
  }

  lemma {:induction false} OneByteIsTouched(w: Write, x: Address)
    requires Tracked(x, 1) && Canonical(x) == x
    ensures TouchesGranules(w, x, 1) <==> Bumps(w.a, w.size, x / GRANULE)
  {
    hide Canonical, Bumps;
  }

  lemma {:induction false} UntrackedIsNeverSkipped(before: seq<nat>, after: seq<nat>, a: Address, size: nat)
    requires Shaped(before) && Shaped(after) && !Tracked(a, size)
    ensures !CanSkip(Generation(before, a, size), Generation(after, a, size))
  {
  }

  lemma {:induction false} RamIsTracked(x: Address)
    requires IsRam(x)
    ensures Canonical(Canonical(x)) == Canonical(x) && Tracked(Canonical(x), 1)
    ensures Reaches(Canonical(x), 1, Canonical(x))
    ensures First(Canonical(x)) == Last(Canonical(x), 1) == Canonical(x) / GRANULE
  {
  }

  /** A notification that starts just below cached MEM1 writes its first byte without bumping any counter. */
  lemma {:induction false} NotificationsFromOutsideAreLost(counters: seq<nat>)
    requires Shaped(counters)
    ensures var w := Write(0x7FFF_FFF0, 0x20);
            && !Complete(w) && Reaches(w.a, w.size, 0)
            && Notify(counters, w.a, w.size) == counters
            && CanSkip(Generation(counters, 0, 4), Generation(Notify(counters, w.a, w.size), 0, 4))
  {
    var w := Write(0x7FFF_FFF0, 0x20);
    assert Notify(counters, w.a, w.size) == counters;
  }

  // ---------------------------------------------------------------- the counters as kept

  class Generations {
    const counters: array<nat>

    constructor ()
      ensures Shaped(counters[..]) && fresh(counters) && forall k :: 0 <= k < GRANULES ==> counters[k] == 0
    {
      counters := new nat[GRANULES](_ => 0);
    }

    method NotifyWrite(a: Address, size: nat)
      requires Shaped(counters[..])
      modifies counters
      ensures counters[..] == Notify(old(counters[..]), a, size)
      ensures forall o :: Reaches(a, 1, o) ==> BumpedFrom(old(counters[..]), counters[..], o, size)
    {
      ghost var was := counters[..];
      NotifyBumps(was, a, size);
      if size == 0 || Canonical(a) >= SPAN {
        assert counters[..] == Notify(was, a, size);
        return;
      }
      hide Canonical;
      var start := Canonical(a);
      var clampedEnd := if start + size < SPAN then start + size else SPAN;
      var first, last := start / GRANULE, (clampedEnd - 1) / GRANULE;
      var granule := first;
      while granule <= last
        invariant first <= granule
        invariant granule <= last + 1
        invariant forall k :: 0 <= k < GRANULES ==> counters[k] == was[k] + if first <= k < granule then 1 else 0
      {
        counters[granule] := counters[granule] + 1;
        granule := granule + 1;
      }
      assert counters[..] == Notify(was, a, size);
    }

    method GenerationForRange(a: Address, size: nat) returns (generation: Option<nat>)
      requires Shaped(counters[..])
      ensures generation == Generation(counters[..], a, size)
    {
      hide Canonical;
      if size == 0 { return None; }
      var start := Canonical(a);
      if start + size > SPAN { return None; }
      var first, last := start / GRANULE, (start + size - 1) / GRANULE;
      var folded := 0;
      for granule := first to last + 1
        invariant folded == Sum(counters[..], first, granule)
      {
        folded := folded + counters[granule];
      }
      return Some(folded);
    }
  }
}
