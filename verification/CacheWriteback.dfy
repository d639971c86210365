/**
 Publishing flushed cache lines, with the 32-bit line count of the SDK loops: as one range when it lies
 in one mapped region, line by line otherwise.
 */
module CacheWriteback {
  import opened AddressSpace
  import opened GuestWrites

  const LINE := 32

  function Misalignment(a: Address): nat { a % LINE }

  function LineOf(a: Address): (line: Address)
    ensures line % LINE == 0 && line <= a < line + LINE
  {
    a - Misalignment(a)
  }

  // ---------------------------------------------------------------- mapped memory

  /** A mapped region of the guest address space. */
  datatype Region = Region(base: Address, size: nat)

  const OVERLAY := Region(0x8180_0000, 0x20_0000)
  const LOCKED_CACHE := Region(0xE000_0000, 0x10_1000)

  /** The views of MEM1, then those of MEM2, as the consoles map them. */
  const GAMECUBE_REGIONS := [Region(0, MEM1_SIZE), Region(CACHED, MEM1_SIZE), Region(UNCACHED, MEM1_SIZE), LOCKED_CACHE]
  const WII_REGIONS := [Region(0, MEM1_SIZE), Region(CACHED, MEM1_SIZE), Region(UNCACHED, MEM1_SIZE),
                        Region(MEM2_BASE, MEM2_SIZE), Region(CACHED + MEM2_BASE, MEM2_SIZE),
                        Region(UNCACHED + MEM2_BASE, MEM2_SIZE), OVERLAY, LOCKED_CACHE]

  /** Memory::Contains: all the bytes lie in one mapped region. */
  predicate Contains(regions: seq<Region>, a: Address, bytes: nat) {
    exists i :: 0 <= i < |regions| && regions[i].base <= a && a + bytes <= regions[i].base + regions[i].size
  }

  predicate InOneBank(lo: int, hi: int) {
    (0 <= lo && hi <= MEM1_SIZE) || (MEM2_BASE <= lo && hi <= SPAN)
  }

  /** The region lies in one view of one bank, or holds no main RAM at all. */
  ghost predicate OneView(r: Region) {
    || InOneBank(r.base, r.base + r.size)
    || InOneBank(r.base - CACHED, r.base + r.size - CACHED)
    || InOneBank(r.base - UNCACHED, r.base + r.size - UNCACHED)
    || forall x: Address :: r.base <= x < r.base + r.size ==> !IsRam(x)
  }

  ghost predicate Mapped(regions: seq<Region>) {
    forall i :: 0 <= i < |regions| ==> OneView(regions[i])
  }

  /** Both consoles' maps are of this kind, and back MEM1. */
  lemma {:induction false} ConsoleMaps()
    ensures Mapped(GAMECUBE_REGIONS) && Contains(GAMECUBE_REGIONS, 0, MEM1_SIZE)
    ensures Mapped(WII_REGIONS) && Contains(WII_REGIONS, 0, MEM1_SIZE)
  {
    assert GAMECUBE_REGIONS[0] == WII_REGIONS[0] == Region(0, MEM1_SIZE);
  }

  lemma {:induction false} NoRamIsComplete(w: Write)
    requires forall x: Address :: w.a <= x < w.a + w.size ==> !IsRam(x)
    ensures Complete(w)
  {
    hide Complete, Notify;
    CompleteIsExact(seq(GRANULES, _ => 0), w);
    forall o ensures !Reaches(w.a, w.size, o) {
      if Reaches(w.a, w.size, o) {
        ViewsAgree(o);
      }
    }
  }

  /** A write inside a mapped region is a complete notification. */
  lemma {:induction false} ContainedIsComplete(regions: seq<Region>, a: Address, bytes: nat)
    requires Mapped(regions) && Contains(regions, a, bytes)
    ensures Complete(Write(a, bytes))
  {
    var i :| 0 <= i < |regions| && regions[i].base <= a && a + bytes <= regions[i].base + regions[i].size;
    if forall x: Address :: regions[i].base <= x < regions[i].base + regions[i].size ==> !IsRam(x) {
      NoRamIsComplete(Write(a, bytes));
    } else {
      assert OneView(regions[i]);
    }
  }

  // ---------------------------------------------------------------- one flush

  /** The rounded count, in 32-bit registers. */
  function RangeLineCount(a: Address, length: nat): nat {
    (length + Misalignment(a) + LINE - 1) % ADDRESSES / LINE
  }

  datatype Published = Fallback | Nothing | Lines(start: Address, bytes: nat)

  /** What a range flush publishes at once. */
  function PublishRange(regions: seq<Region>, a: Address, length: nat): Published {
    if length == 0 then Nothing
    else
      var count := RangeLineCount(a, length);
      var bytes := count * LINE % ADDRESSES;
      if count == 0 || LineOf(a) + bytes > ADDRESSES || !Contains(regions, LineOf(a), bytes) then Fallback
      else Lines(LineOf(a), bytes)
  }

  /** The line of an address is published when it is backed. */
  function PublishLine(counters: seq<nat>, regions: seq<Region>, a: Address): (r: seq<nat>)
    ensures |r| == |counters|
  {
    if Contains(regions, LineOf(a), LINE) then Notify(counters, LineOf(a), LINE) else counters
  }

  /** The loop over single lines, n turns of it. */
  function PublishLines(counters: seq<nat>, regions: seq<Region>, a: Address, n: nat): (r: seq<nat>)
    ensures |r| == |counters|
  {
    if n == 0 then counters
    else PublishLine(PublishLines(counters, regions, a, n - 1), regions, (a + (n - 1) * LINE) % ADDRESSES)
  }

  /** A count of zero wraps the loop counter round. */
  function Turns(count: nat): nat { if count == 0 then ADDRESSES else count }

  /** The counters after a cache flush of a range. */
  function Flush(counters: seq<nat>, regions: seq<Region>, a: Address, length: nat): (r: seq<nat>)
    ensures |r| == |counters|
  {
    match PublishRange(regions, a, length)
    case Nothing => counters
    case Lines(start, bytes) => Notify(counters, start, bytes)
    case Fallback => PublishLines(counters, regions, a, Turns(RangeLineCount(a, length)))
  }

  predicate Overflows(a: Address, length: nat) {
    length + Misalignment(a) + LINE - 1 >= ADDRESSES
  }

  /** Whole lines that hold every byte of a range. */
  predicate Covers(start: nat, bytes: nat, a: Address, length: nat) {
    start % LINE == 0 && bytes % LINE == 0 && start <= a && a + length <= start + bytes
  }

  predicate SmallestCover(start: nat, bytes: nat, a: Address, length: nat) {
    Covers(start, bytes, a, length) && bytes < length + Misalignment(a) + LINE && start > a - LINE
  }

  lemma {:induction false} SmallestCoverIsLeast(start: nat, bytes: nat, a: Address, length: nat, start': nat,
                                                bytes': nat)
    requires length > 0 && SmallestCover(start, bytes, a, length) && Covers(start', bytes', a, length)
    ensures start' <= start && start + bytes <= start' + bytes'
  {
    WholeLine(start);
    WholeLine(bytes);
    WholeLine(start');
    WholeLine(bytes');
    InsideLine(a, start);
    FewerLines(start / LINE, bytes / LINE, start' / LINE, bytes' / LINE, a, length);
  }

  lemma {:induction false} WholeLine(x: nat)
    requires x % LINE == 0
    ensures x == LINE * (x / LINE)
  {
  }

  lemma {:induction false} InsideLine(a: Address, start: nat)
    requires start % LINE == 0 && start <= a < start + LINE
    ensures Misalignment(a) == a - start
  {
  }

  lemma {:induction false} FewerLines(p: nat, q: nat, p': nat, q': nat, a: nat, length: nat)
    requires LINE * p <= a < LINE * p + LINE && LINE * q < length + (a - LINE * p) + LINE
    requires LINE * p' <= a && a + length <= LINE * p' + LINE * q'
    ensures p' <= p && p + q <= p' + q'
  {
  }

  /** What is published at once is exactly the smallest cover of the range unless the 32-bit count overflows. */
  lemma {:induction false} PublishedIffNoOverflow(regions: seq<Region>, a: Address, length: nat)
    requires 0 < length < ADDRESSES && PublishRange(regions, a, length).Lines?
    ensures var p := PublishRange(regions, a, length);
            SmallestCover(p.start, p.bytes, a, length) <==> !Overflows(a, length)
  {
    hide Contains;
    var total := length + Misalignment(a) + LINE - 1;
    if Overflows(a, length) {
      assert total % ADDRESSES == total - ADDRESSES < 2 * LINE;
      assert PublishRange(regions, a, length).bytes <= LINE;
    } else {
      assert total % ADDRESSES == total;
    }
  }

  /** A range falls back only when its lines wrap round, overflow the count, or are not all in one region. */
  lemma {:induction false} BackedRangesArePublished(regions: seq<Region>, a: Address, length: nat, bytes: nat)
    requires 0 < length < ADDRESSES && !Overflows(a, length) && a + length <= ADDRESSES
    requires SmallestCover(LineOf(a), bytes, a, length)
    ensures PublishRange(regions, a, length) ==
              if Contains(regions, LineOf(a), bytes) then Lines(LineOf(a), bytes) else Fallback
  {
    hide Contains;
    var total := length + Misalignment(a) + LINE - 1;
    assert total % ADDRESSES == total;
    var count := total / LINE;
    assert bytes == LINE * (bytes / LINE) && bytes / LINE == count;
  }

  /** An overflowing count either falls back or publishes a single line and claims success. */
  lemma {:induction false} OverflowPublishesOneLine(regions: seq<Region>, a: Address, length: nat)
    requires length < ADDRESSES && Overflows(a, length)
    ensures PublishRange(regions, a, length) in {Fallback, Lines(LineOf(a), LINE)}
  {
    hide Contains;
    var total := length + Misalignment(a) + LINE - 1;
    assert total % ADDRESSES == total - ADDRESSES < 2 * LINE;
  }

  lemma {:induction false} OverflowHappens()
    ensures Overflows(0x8000_001F, 0xFFFF_FFFF)
    ensures PublishRange(WII_REGIONS, 0x8000_001F, 0xFFFF_FFFF) == Lines(0x8000_0000, LINE)
  {
    assert WII_REGIONS[1] == Region(CACHED, MEM1_SIZE);
  }

  // ---------------------------------------------------------------- what a flush reaches

  lemma {:induction false} SumsGrow(before: seq<nat>, after: seq<nat>, lo: nat, hi: nat)
    requires lo <= hi <= |before| == |after| && forall k :: lo <= k < hi ==> before[k] <= after[k]
    ensures Sum(before, lo, hi) <= Sum(after, lo, hi)
    ensures Sum(before, lo, hi) == Sum(after, lo, hi) <==> forall k :: lo <= k < hi ==> before[k] == after[k]
    decreases hi - lo
  {
    if lo < hi {
      SumsGrow(before, after, lo, hi - 1);
    }
  }

  ghost predicate Grown(before: seq<nat>, after: seq<nat>) {
    |before| == |after| && forall k :: 0 <= k < |before| ==> before[k] <= after[k]
  }

  lemma {:induction false} BumpedIsRedigested(before: seq<nat>, after: seq<nat>, c: Address, size: nat, o: int)
    requires Shaped(before) && Grown(before, after) && Reaches(c, size, o)
    requires before[o / GRANULE] < after[o / GRANULE]
    ensures !CanSkip(Generation(before, c, size), Generation(after, c, size))
  {
    hide Canonical, Reaches;
    if Tracked(c, size) {
      TrackedHolds(c, size, o);
      SumsGrow(before, after, First(Canonical(c)), Last(Canonical(c), size) + 1);
    }
  }

  lemma {:induction false} LinesGrow(counters: seq<nat>, regions: seq<Region>, a: Address, n: nat)
    ensures Grown(counters, PublishLines(counters, regions, a, n))
  {
    hide Contains, Bumps;
    if n > 0 {
      LinesGrow(counters, regions, a, n - 1);
    }
  }

  lemma {:induction false} BackedLineIsBumped(counters: seq<nat>, regions: seq<Region>, a: Address, x: Address)
    requires Shaped(counters) && Mapped(regions) && IsRam(x) && LineOf(a) == LineOf(x)
    requires Contains(regions, LineOf(x), LINE)
    ensures Canonical(x) / GRANULE < GRANULES
    ensures PublishLine(counters, regions, a)[Canonical(x) / GRANULE] == counters[Canonical(x) / GRANULE] + 1
  {
    hide Complete, Contains, Mapped, Bumps;
    RamIsTracked(x);
    var w := Write(LineOf(x), LINE);
    ContainedIsComplete(regions, LineOf(x), LINE);
    assert w.a + (x - LineOf(x)) == x && WritesRam(w, x - LineOf(x));
    CompleteBumpsItsRam(w, x - LineOf(x));
  }

  /** The loop reaches every line it turns to. */
  lemma {:induction false} LoopReachesLine(counters: seq<nat>, regions: seq<Region>, a: Address, n: nat, i: nat,
                                           x: Address)
    requires Shaped(counters) && Mapped(regions) && IsRam(x) && i < n
    requires LineOf((a + i * LINE) % ADDRESSES) == LineOf(x) && Contains(regions, LineOf(x), LINE)
    ensures Canonical(x) / GRANULE < GRANULES
    ensures PublishLines(counters, regions, a, n)[Canonical(x) / GRANULE] > counters[Canonical(x) / GRANULE]
    decreases n
  {
    hide Contains, Mapped, IsRam, Canonical, PublishLine, Bumps;
    var before := PublishLines(counters, regions, a, n - 1);
    LinesGrow(counters, regions, a, n - 1);
    if i == n - 1 {
      BackedLineIsBumped(before, regions, (a + i * LINE) % ADDRESSES, x);
    } else {
      LoopReachesLine(counters, regions, a, n - 1, i, x);
      LineGrows(before, regions, (a + (n - 1) * LINE) % ADDRESSES);
    }
  }

  lemma {:induction false} LineGrows(counters: seq<nat>, regions: seq<Region>, a: Address)
    ensures Grown(counters, PublishLine(counters, regions, a))
  {
    hide Contains, Bumps;
  }

  /** The turn at which the loop comes to the line of x, counting round the address space. */
  function TurnOf(a: Address, x: Address): nat {
    (if x >= LineOf(a) then x - LineOf(a) else x - LineOf(a) + ADDRESSES) / LINE
  }

  lemma {:induction false} LineOfLine(line: Address, m: nat)
    requires line % LINE == 0 && m < LINE
    ensures line + m < ADDRESSES && LineOf(line + m) == line
  {
    var q := line / LINE;
    assert line == LINE * q;
  }

  lemma {:induction false} WholeLines(from: int, to: int)
    requires from % LINE == 0 && to % LINE == 0
    ensures (to - from) / LINE * LINE == to - from
  {
    var p, q := from / LINE, to / LINE;
    assert to - from == LINE * (q - p);
  }

  lemma {:induction false} TurnReaches(a: Address, x: Address)
    ensures LineOf((a + TurnOf(a, x) * LINE) % ADDRESSES) == LineOf(x) && TurnOf(a, x) * LINE < ADDRESSES
  {
    var d := if x >= LineOf(a) then LineOf(x) - LineOf(a) else LineOf(x) + ADDRESSES - LineOf(a);
    assert TurnOf(a, x) == d / LINE by {
      WholeLines(LineOf(a), if x >= LineOf(a) then LineOf(x) else LineOf(x) + ADDRESSES);
    }
    WholeLines(LineOf(a), if x >= LineOf(a) then LineOf(x) else LineOf(x) + ADDRESSES);
    LineOfLine(LineOf(x), Misalignment(a));
    assert (a + TurnOf(a, x) * LINE) % ADDRESSES == LineOf(x) + Misalignment(a);
  }

  /** x is one of the length addresses from a on, round the address space. */
  predicate InFlush(a: Address, length: nat, x: Address) {
    (if x >= a then x - a else x - a + ADDRESSES) < length
  }

  /** x is an address of the flushed range, its line is backed, and it shows byte o of main RAM. */
  predicate Flushed(regions: seq<Region>, a: Address, length: nat, x: Address, o: int) {
    InFlush(a, length, x) && Contains(regions, LineOf(x), LINE) && Reaches(x, 1, o)
  }

  lemma {:induction false} ShownByte(x: Address, o: int)
    requires Reaches(x, 1, o)
    ensures IsRam(x) && Canonical(x) == o
  {
  }

  lemma {:induction false} FlushBumps(counters: seq<nat>, regions: seq<Region>, a: Address, length: nat, x: Address,
                                      o: int)
    requires Shaped(counters) && Mapped(regions) && 0 < length < ADDRESSES
    requires length + Misalignment(a) <= ADDRESSES && Flushed(regions, a, length, x, o)
    ensures Flush(counters, regions, a, length)[o / GRANULE] > counters[o / GRANULE]
  {
    hide Contains, Mapped, IsRam, Canonical, Bumps, Complete, Reaches;
    ShownByte(x, o);
    RamIsTracked(x);
    var p := PublishRange(regions, a, length);
    var total := length + Misalignment(a) + LINE - 1;
    if p.Lines? {
      assert !Overflows(a, length);
      PublishedIffNoOverflow(regions, a, length);
      ContainedIsComplete(regions, p.start, p.bytes);
      assert WritesRam(Write(p.start, p.bytes), x - p.start);
      CompleteBumpsItsRam(Write(p.start, p.bytes), x - p.start);
    } else {
      TurnReaches(a, x);
      LoopReachesLine(counters, regions, a, Turns(RangeLineCount(a, length)), TurnOf(a, x), x);
    }
  }

  lemma {:induction false} FlushGrows(counters: seq<nat>, regions: seq<Region>, a: Address, length: nat)
    ensures Grown(counters, Flush(counters, regions, a, length))
  {
    hide PublishRange, Bumps;
    LinesGrow(counters, regions, a, Turns(RangeLineCount(a, length)));
  }

  lemma {:induction false} NotificationsGrow(counters: seq<nat>, writes: seq<Write>)
    ensures Grown(counters, NotifyAll(counters, writes))
    decreases |writes|
  {
    hide Bumps;
    if writes != [] {
      NotificationsGrow(counters, writes[..|writes| - 1]);
    }
  }

  /**
   A flush makes every consumer of an overlapping range re-digest, through whatever views, whether it is
   published at once or line by line, and whatever is notified later: no generation stored before it is
   accepted again.
   */
  lemma {:induction false} FlushForcesRedigest(counters: seq<nat>, regions: seq<Region>, a: Address, length: nat,
                                               x: Address, o: int, c: Address, size: nat, later: seq<Write>)
    requires Shaped(counters) && Mapped(regions) && 0 < length < ADDRESSES && length + Misalignment(a) <= ADDRESSES
    requires Flushed(regions, a, length, x, o) && Reaches(c, size, o)
    ensures !CanSkip(Generation(counters, c, size),
                     Generation(NotifyAll(Flush(counters, regions, a, length), later), c, size))
  {
    hide Generation, Flush, Mapped, Flushed, Canonical, Bumps, Contains;
    var after := Flush(counters, regions, a, length);
    FlushBumps(counters, regions, a, length, x, o);
    FlushGrows(counters, regions, a, length);
    NotificationsGrow(after, later);
    BumpedIsRedigested(counters, NotifyAll(after, later), c, size, o);
  }

  // ---------------------------------------------------------------- the overflow

  /** Beyond the bound the count is one, and one line is all that is published. */
  lemma {:induction false} OverflowReachesOneLine(counters: seq<nat>, regions: seq<Region>, a: Address, length: nat)
    requires length < ADDRESSES < length + Misalignment(a)
    ensures Flush(counters, regions, a, length) == PublishLine(counters, regions, a)
  {
    hide Contains;
    var total := length + Misalignment(a) + LINE - 1;
    assert total % ADDRESSES == total - ADDRESSES;
    assert RangeLineCount(a, length) == 1;
    assert PublishLines(counters, regions, a, 1) == PublishLine(PublishLines(counters, regions, a, 0), regions, a);
  }

  lemma {:induction false} LineBumpsOneGranule(line: Address, k: nat)
    requires line % LINE == 0 && Bumps(line, LINE, k)
    ensures k == Canonical(line) / GRANULE
  {
    assert Canonical(line) in {line as int, line - CACHED, line - UNCACHED};
    hide Canonical;
    LineLiesInOneGranule(Canonical(line));
  }

  lemma {:induction false} LineLiesInOneGranule(o: nat)
    requires o % LINE == 0
    ensures (o + LINE - 1) / GRANULE == o / GRANULE
  {
    var q := o / LINE;
    assert o == q * LINE;
  }

  /** A byte of MEM1 off the one line that is published, and off its granule. */
  lemma {:induction false} ByteLeftOut(counters: seq<nat>, regions: seq<Region>, a: Address, length: nat)
    returns (x: Address)
    requires Shaped(counters) && Contains(regions, 0, MEM1_SIZE) && length < ADDRESSES < length + Misalignment(a)
    ensures Flushed(regions, a, length, x, x) && Reaches(x, 1, x)
    ensures CanSkip(Generation(counters, x, 1), Generation(Flush(counters, regions, a, length), x, 1))
  {
    x := if Canonical(LineOf(a)) / GRANULE == 0x10 then 0x20_0000 else 0x10_0000;
    OverflowReachesOneLine(counters, regions, a, length);
    hide Flush;
    assert LineOf(x) == x && x / GRANULE in {0x10, 0x20};
    if Bumps(LineOf(a), LINE, x / GRANULE) {
      LineBumpsOneGranule(LineOf(a), x / GRANULE);
      assert false;
    }
    SumsGrow(counters, PublishLine(counters, regions, a), x / GRANULE, x / GRANULE + 1);
  }

  /**
   A flush reaches every consumer of every backed byte of its range if and only if the range and its
   misalignment together are no longer than the address space.
   */
  lemma {:induction false} FlushReachesExactly(counters: seq<nat>, regions: seq<Region>, a: Address, length: nat)
    requires Shaped(counters) && Mapped(regions) && Contains(regions, 0, MEM1_SIZE) && 0 < length < ADDRESSES
    ensures length + Misalignment(a) <= ADDRESSES <==>
            forall x: Address, o, c: Address, size: nat :: Flushed(regions, a, length, x, o) && Reaches(c, size, o) ==>
              !CanSkip(Generation(counters, c, size), Generation(Flush(counters, regions, a, length), c, size))
  {
    hide Generation, Flush, Mapped, Flushed, Reaches, Contains, CanSkip;
    if length + Misalignment(a) <= ADDRESSES {
      forall x: Address, o, c: Address, size: nat | Flushed(regions, a, length, x, o) && Reaches(c, size, o)
        ensures !CanSkip(Generation(counters, c, size), Generation(Flush(counters, regions, a, length), c, size))
      {
        FlushForcesRedigest(counters, regions, a, length, x, o, c, size, []);
      }
    } else {
      var x := ByteLeftOut(counters, regions, a, length);
    }
  }

  // ---------------------------------------------------------------- the flush as run

  lemma {:induction false} NextLine(a: Address, turn: nat)
    ensures ((a + turn * LINE) % ADDRESSES + LINE) % ADDRESSES == (a + (turn + 1) * LINE) % ADDRESSES
  {
  }

  /** The original loop, a line a turn. Returns the address register it ends with. */
  method PublishEachLine(g: Generations, regions: seq<Region>, a: Address, turns: nat) returns (r3: Address)
    requires Shaped(g.counters[..])
    modifies g.counters
    ensures g.counters[..] == PublishLines(old(g.counters[..]), regions, a, turns)
    ensures r3 == (a + turns * LINE) % ADDRESSES
  {
    hide Contains, Notify;
    r3 := a;
    for turn := 0 to turns
      invariant r3 == (a + turn * LINE) % ADDRESSES
      invariant g.counters[..] == PublishLines(old(g.counters[..]), regions, a, turn)
    {
      if Contains(regions, LineOf(r3), LINE) {
        g.NotifyWrite(LineOf(r3), LINE);
      }
      NextLine(a, turn);
      r3 := (r3 + LINE) % ADDRESSES;
    }
  }

  /** The SDK range flush: at once where possible, else by the loop. */
  method PublishSdkCacheRange(g: Generations, regions: seq<Region>, a: Address, length: nat) returns (r3: Address)
    requires Shaped(g.counters[..]) && length < ADDRESSES
    modifies g.counters
    ensures g.counters[..] == Flush(old(g.counters[..]), regions, a, length)
    ensures r3 == if length == 0 then a else (a + RangeLineCount(a, length) * LINE) % ADDRESSES
  {
    hide Contains, Notify, RangeLineCount, PublishLines;
    var count := RangeLineCount(a, length);
    match PublishRange(regions, a, length)
    case Nothing =>
      r3 := a;
    case Lines(start, bytes) =>
      g.NotifyWrite(start, bytes);
      r3 := (a + count * LINE) % ADDRESSES;
    case Fallback =>
      r3 := PublishEachLine(g, regions, a, Turns(count));
  }
}
