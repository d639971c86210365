/**
 The guard over executable guest memory: a three-level page bitmap that must agree with a flat scan,
 and the tables that let plain data stores skip it.
 */
module WriteGuard {
  import opened AddressSpace
  import opened Wrappers

  const PAGE := 0x1000
  const MID_PAGE := 0x1_0000
  const COARSE_PAGE := 0x10_0000
  const PAGES := 0x10_0000
  const MID_PAGES := 0x1_0000
  const COARSE_PAGES := 0x1000
  const SUB_PAGES := 0x100
  const MAX_SCALAR := 8

  datatype Range = Range(start: Address, end: Address, name: string)

  /** A 1 MiB guest page: where its host bytes start and how many are mapped. */
  datatype Entry = Entry(base: Option<nat>, limit: nat)

  /** pages, mid and coarse are the bitmaps; a bias is host page base minus guest page base. */
  datatype Guard = Guard(
    enabled: bool,
    ranges: seq<Range>,
    pages: seq<bool>,
    mid: seq<bool>,
    coarse: seq<bool>,
    table: seq<Entry>,
    fullBias: seq<Option<int>>,
    writableBias: seq<Option<int>>,
    sparse: seq<Option<seq<Option<int>>>>)

  predicate Shaped(g: Guard) {
    && |g.pages| == PAGES && |g.mid| == MID_PAGES && |g.coarse| == COARSE_PAGES
    && |g.table| == |g.fullBias| == |g.writableBias| == |g.sparse| == COARSE_PAGES
    && forall c :: 0 <= c < COARSE_PAGES && g.sparse[c].Some? ==> |g.sparse[c].value| == SUB_PAGES
  }

  // ---------------------------------------------------------------- registration

  /** The range lies on or across the page of this size. */
  predicate Touches(r: Range, page: nat, size: nat)
    requires size in {PAGE, MID_PAGE, COARSE_PAGE}
  {
    r.start < r.end && r.start / size <= page <= (r.end - 1) / size
  }

  function Marked(bits: seq<bool>, r: Range, size: nat): (m: seq<bool>)
    requires size in {PAGE, MID_PAGE, COARSE_PAGE}
    ensures |m| == |bits|
    ensures forall p :: 0 <= p < |bits| ==> m[p] == (bits[p] || Touches(r, p, size))
  {
    seq(|bits|, p requires 0 <= p < |bits| => bits[p] || Touches(r, p, size))
  }

  /** Sets the pages of a range on all three levels and takes its coarse pages off the fast path. */
  function Mark(g: Guard, r: Range): Guard
    requires Shaped(g)
  {
    g.(pages := Marked(g.pages, r, PAGE), mid := Marked(g.mid, r, MID_PAGE), coarse := Marked(g.coarse, r, COARSE_PAGE),
       writableBias := Cleared(g.writableBias, r))
  }

  function Cleared(bias: seq<Option<int>>, r: Range): (m: seq<Option<int>>)
    ensures |m| == |bias|
    ensures forall c :: 0 <= c < |bias| ==> m[c] == if Touches(r, c, COARSE_PAGE) then None else bias[c]
  {
    seq(|bias|, c requires 0 <= c < |bias| => if Touches(r, c, COARSE_PAGE) then None else bias[c])
  }

  function AddRange(g: Guard, r: Range): (h: Guard)
    requires Shaped(g)
    ensures Shaped(h)
  {
    if r.end <= r.start || r in g.ranges then g
    else Mark(g.(ranges := g.ranges + [r]), r).(enabled := true)
  }

  /** A memory bank's three views and its size. */
  datatype Bank = Bank(physical: nat, cached: nat, uncached: nat, size: nat)

  const MEM1 := Bank(0, 0x8000_0000, 0xC000_0000, 0x180_0000)
  const MEM2 := Bank(0x1000_0000, 0x9000_0000, 0xD000_0000, 0x800_0000)

  /** The offset of a range that lies inside one view of the bank. */
  function OffsetIn(b: Bank, r: Range): Option<nat> {
    if b.physical <= r.start && r.start < b.physical + b.size && r.end <= b.physical + b.size
      then Some(r.start - b.physical)
    else if b.cached <= r.start && r.end <= b.cached + b.size then Some(r.start - b.cached)
    else if b.uncached <= r.start && r.end <= b.uncached + b.size then Some(r.start - b.uncached)
    else None
  }

  /** A bank range under its cached and uncached addresses. */
  function AddAliases(g: Guard, b: Bank, r: Range): (h: Guard)
    requires Shaped(g) && b in {MEM1, MEM2}
    ensures Shaped(h)
  {
    if r.end <= r.start then g
    else
      match OffsetIn(b, r)
      case None => g
      case Some(offset) =>
        var length := r.end - r.start;
        if offset + length > b.size then g
        else
          var cached := Range(b.cached + offset, b.cached + offset + length, r.name + " [cached]");
          var uncached := Range(b.uncached + offset, b.uncached + offset + length, r.name + " [uncached]");
          AddRange(AddRange(g, cached), uncached)
  }

  /** Rebuilds the writable fast path from the bitmaps. */
  function Refresh(g: Guard): (h: Guard)
    requires Shaped(g)
    ensures Shaped(h)
  {
    g.(writableBias := seq(COARSE_PAGES, c requires 0 <= c < COARSE_PAGES => RefreshedBias(g, c)),
       sparse := seq(COARSE_PAGES, c requires 0 <= c < COARSE_PAGES => RefreshedSparse(g, c)))
  }

  function RefreshedBias(g: Guard, c: nat): Option<int>
    requires Shaped(g) && c < COARSE_PAGES
  {
    if g.coarse[c] then None else g.fullBias[c]
  }

  function SubTable(g: Guard, c: nat): (s: seq<Option<int>>)
    requires Shaped(g) && c < COARSE_PAGES
    ensures |s| == SUB_PAGES
  {
    seq(SUB_PAGES, k requires 0 <= k < SUB_PAGES => if g.pages[c * SUB_PAGES + k] then None else g.fullBias[c])
  }

  /** A sub-page table exists only for a mapped page that mixes guarded and plain 4 KiB pages. */
  function RefreshedSparse(g: Guard, c: nat): (sub: Option<seq<Option<int>>>)
    requires Shaped(g) && c < COARSE_PAGES
    ensures sub.Some? ==> |sub.value| == SUB_PAGES
  {
    if !g.coarse[c] || g.fullBias[c].None? then None
    else if Mixed(g, c) then Some(SubTable(g, c)) else None
  }

  predicate Mixed(g: Guard, c: nat)
    requires Shaped(g) && c < COARSE_PAGES
  {
    var bits := g.pages[c * SUB_PAGES..(c + 1) * SUB_PAGES];
    true in bits && false in bits
  }

  function Register(g: Guard, r: Range): (h: Guard)
    requires Shaped(g)
    ensures Shaped(h)
  {
    if r.end <= r.start then g
    else Refresh(AddAliases(AddAliases(AddRange(g, r), MEM1, r), MEM2, r))
  }

  // ---------------------------------------------------------------- the check

  function LastPage(address: Address, length: nat, size: nat, count: nat): nat
    requires length > 0 && size in {PAGE, MID_PAGE, COARSE_PAGE} && count > 0
  {
    var last := (address + length - 1) / size;
    if last >= count then count - 1 else last
  }

  /** Some set bit among the pages a write covers. */
  predicate AnyPage(bits: seq<bool>, address: Address, length: nat, size: nat)
    requires length > 0 && size in {PAGE, MID_PAGE, COARSE_PAGE} && |bits| == ADDRESSES / size
  {
    exists p :: address / size <= p <= LastPage(address, length, size, |bits|) && bits[p]
  }

  /** The reference: a flat scan of the 4 KiB pages. */
  predicate FlatHit(g: Guard, address: Address, length: nat)
    requires Shaped(g)
  {
    length > 0 && g.enabled && AnyPage(g.pages, address, length, PAGE)
  }

  predicate Intersects(address: Address, length: nat, r: Range) {
    address < r.end && address + length > r.start
  }

  /** The first registered range a write meets. */
  function FirstHit(ranges: seq<Range>, address: Address, length: nat): Option<Range> {
    if ranges == [] then None
    else if Intersects(address, length, ranges[0]) then Some(ranges[0])
    else FirstHit(ranges[1..], address, length)
  }

  // ---------------------------------------------------------------- the fast store

  /** The bias of a page whose successor continues it, so short accesses may cross. */
  function BiasOf(table: seq<Entry>, c: nat): Option<int>
    requires |table| == COARSE_PAGES && c < COARSE_PAGES
  {
    if c + 1 < COARSE_PAGES && table[c].base.Some? && table[c].limit == COARSE_PAGE
       && table[c + 1].base.Some? && table[c + 1].limit >= MAX_SCALAR - 1
       && table[c + 1].base.value == table[c].base.value + COARSE_PAGE
    then Some(table[c].base.value - c * COARSE_PAGE) else None
  }

  /** Where a store of up to eight bytes may go directly, if anywhere. */
  function WritablePointer(g: Guard, address: Address, length: nat): Option<int>
    requires Shaped(g)
  {
    if length == 0 || length > MAX_SCALAR || address > ADDRESSES - 1 - (length - 1) then None
    else
      var c, end := address / COARSE_PAGE, address + length - 1;
      var guarded := g.pages[address / PAGE] || g.pages[end / PAGE];
      if g.writableBias[c].Some? then
        if end / COARSE_PAGE != c && g.pages[end / PAGE] then None else Some(g.writableBias[c].value + address)
      else if g.sparse[c].Some? then
        var sub := g.sparse[c].value;
        var k := address % COARSE_PAGE / PAGE;
        if sub[k].None? || guarded then None else Some(sub[k].value + address)
      else
        var offset := address % COARSE_PAGE;
        var entry := g.table[c];
        if entry.base.None? || offset + length > entry.limit || guarded then None else Some(entry.base.value + offset)
  }

  function ScalarPointer(g: Guard, address: Address, length: nat): Option<int>
    requires Shaped(g) && 1 <= length <= MAX_SCALAR
  {
    if address > ADDRESSES - 1 - (length - 1) then None
    else if (address + length - 1) / COARSE_PAGE != address / COARSE_PAGE then None
    else if g.writableBias[address / COARSE_PAGE].Some? then Some(g.writableBias[address / COARSE_PAGE].value + address)
    else WritablePointer(g, address, length)
  }

  // ---------------------------------------------------------------- the invariant

  ghost predicate BitsAgree(bits: seq<bool>, ranges: seq<Range>, size: nat)
    requires size in {PAGE, MID_PAGE, COARSE_PAGE}
  {
    forall p :: 0 <= p < |bits| ==> (bits[p] <==> exists i :: 0 <= i < |ranges| && Touches(ranges[i], p, size))
  }

  /** Each bitmap says exactly which pages a registered range touches. */
  ghost predicate Agrees(g: Guard) {
    && Shaped(g) && (g.enabled <==> g.ranges != [])
    && BitsAgree(g.pages, g.ranges, PAGE) && BitsAgree(g.mid, g.ranges, MID_PAGE)
    && BitsAgree(g.coarse, g.ranges, COARSE_PAGE)
    && forall i :: 0 <= i < |g.ranges| ==> g.ranges[i].start < g.ranges[i].end
  }

  ghost predicate SubTableSafe(sub: seq<Option<int>>, bias: Option<int>) {
    forall k :: 0 <= k < |sub| && sub[k].Some? ==> sub[k] == bias
  }

  /** Biases come from the page table, and a writable one covers no guarded page. */
  ghost predicate FastPathSafe(g: Guard) {
    && Shaped(g)
    && (forall c :: 0 <= c < COARSE_PAGES ==> g.table[c].limit <= COARSE_PAGE && g.fullBias[c] == BiasOf(g.table, c))
    && (forall c :: 0 <= c < COARSE_PAGES && g.writableBias[c].Some? ==>
          g.writableBias[c] == g.fullBias[c] && !g.coarse[c])
    && (forall c :: 0 <= c < COARSE_PAGES && g.sparse[c].Some? ==> SubTableSafe(g.sparse[c].value, g.fullBias[c]))
  }

  lemma {:induction false} MarkKeepsBits(bits: seq<bool>, ranges: seq<Range>, r: Range, size: nat)
    requires size in {PAGE, MID_PAGE, COARSE_PAGE} && BitsAgree(bits, ranges, size)
    ensures BitsAgree(Marked(bits, r, size), ranges + [r], size)
  {
    var m, all := Marked(bits, r, size), ranges + [r];
    assert all[|ranges|] == r;
    forall p | 0 <= p < |m| ensures m[p] <==> exists i :: 0 <= i < |all| && Touches(all[i], p, size) {
      if bits[p] {
        var i :| 0 <= i < |ranges| && Touches(ranges[i], p, size);
        assert Touches(all[i], p, size);
      }
      if i :| 0 <= i < |all| && Touches(all[i], p, size) {
        assert i < |ranges| ==> Touches(ranges[i], p, size);
      }
    }
  }

  lemma {:induction false} AddRangeKeepsAgreement(g: Guard, r: Range)
    requires Agrees(g) && FastPathSafe(g)
    ensures Agrees(AddRange(g, r)) && FastPathSafe(AddRange(g, r))
    ensures r.start < r.end ==> r in AddRange(g, r).ranges
    ensures forall s :: s in g.ranges ==> s in AddRange(g, r).ranges
  {
    hide BitsAgree, Touches, BiasOf;
    if r.start < r.end && r !in g.ranges {
      MarkKeepsBits(g.pages, g.ranges, r, PAGE);
      MarkKeepsBits(g.mid, g.ranges, r, MID_PAGE);
      MarkKeepsBits(g.coarse, g.ranges, r, COARSE_PAGE);
    }
  }

  lemma {:induction false} RefreshKeepsAgreement(g: Guard)
    requires Agrees(g) && FastPathSafe(g)
    ensures Agrees(Refresh(g)) && FastPathSafe(Refresh(g)) && Refresh(g).ranges == g.ranges
  {
    hide BitsAgree, Touches, BiasOf, Mixed;
  }

  lemma {:induction false} AgreesIsShaped(g: Guard)
    requires Agrees(g)
    ensures Shaped(g)
  {
  }

  lemma {:induction false} AliasesKeepAgreement(g: Guard, b: Bank, r: Range)
    requires Agrees(g) && FastPathSafe(g) && b in {MEM1, MEM2}
    ensures Agrees(AddAliases(g, b, r)) && FastPathSafe(AddAliases(g, b, r))
    ensures forall s :: s in g.ranges ==> s in AddAliases(g, b, r).ranges
  {
    hide Agrees, FastPathSafe, AddRange;
    if r.start < r.end && OffsetIn(b, r).Some? && OffsetIn(b, r).value + (r.end - r.start) <= b.size {
      var offset, length := OffsetIn(b, r).value, r.end - r.start;
      var cached := Range(b.cached + offset, b.cached + offset + length, r.name + " [cached]");
      AgreesIsShaped(g);
      AddRangeKeepsAgreement(g, cached);
      AddRangeKeepsAgreement(AddRange(g, cached),
                             Range(b.uncached + offset, b.uncached + offset + length, r.name + " [uncached]"));
    }
  }

  lemma {:induction false} RegisterKeepsAgreement(g: Guard, r: Range)
    requires Agrees(g) && FastPathSafe(g)
    ensures Agrees(Register(g, r)) && FastPathSafe(Register(g, r))
    ensures r.start < r.end ==> r in Register(g, r).ranges
    ensures forall s :: s in g.ranges ==> s in Register(g, r).ranges
  {
    hide Agrees, FastPathSafe, AddRange, AddAliases, Refresh;
    if r.start < r.end {
      AgreesIsShaped(g);
      AddRangeKeepsAgreement(g, r);
      var g1 := AddRange(g, r);
      AliasesKeepAgreement(g1, MEM1, r);
      var g2 := AddAliases(g1, MEM1, r);
      AliasesKeepAgreement(g2, MEM2, r);
      RefreshKeepsAgreement(AddAliases(g2, MEM2, r));
    }
  }

  // ---------------------------------------------------------------- main results

  /** A write covers a coarser page wherever it covers one of its 4 KiB pages, also at the end of memory. */
  lemma {:induction false} CoarserPageIsCovered(address: Address, length: nat, p: nat)
    requires length > 0 && address / PAGE <= p <= LastPage(address, length, PAGE, PAGES)
    ensures address / MID_PAGE <= p / 16 <= LastPage(address, length, MID_PAGE, MID_PAGES)
    ensures address / COARSE_PAGE <= p / 256 <= LastPage(address, length, COARSE_PAGE, COARSE_PAGES)
  {
    PagesNest(address);
    PagesNest(address + length - 1);
  }

  lemma {:induction false} CoarserPageIsTouched(r: Range, p: nat)
    requires Touches(r, p, PAGE)
    ensures Touches(r, p / 16, MID_PAGE) && Touches(r, p / 256, COARSE_PAGE)
  {
    PagesNest(r.start);
    PagesNest(r.end - 1);
  }

  lemma {:induction false} PagesNest(a: nat)
    ensures a / PAGE / 16 == a / MID_PAGE && a / PAGE / 256 == a / COARSE_PAGE
  {
  }

  /** A set 4 KiB page shows on the coarser level, so scanning the coarser levels first misses nothing. */
  lemma {:induction false} CoarserScanMissesNothing(g: Guard, address: Address, length: nat)
    requires Agrees(g) && length > 0 && AnyPage(g.pages, address, length, PAGE)
    ensures AnyPage(g.mid, address, length, MID_PAGE) && AnyPage(g.coarse, address, length, COARSE_PAGE)
  {
    var p :| address / PAGE <= p <= LastPage(address, length, PAGE, |g.pages|) && g.pages[p];
    hide LastPage, Touches;
    var i :| 0 <= i < |g.ranges| && Touches(g.ranges[i], p, PAGE);
    CoarserPageIsTouched(g.ranges[i], p);
    CoarserPageIsCovered(address, length, p);
    assert g.mid[p / 16];
    assert g.coarse[p / 256];
  }

  /** No write that meets a registered range is missed. */
  lemma {:induction false} GuardNeverMisses(g: Guard, address: Address, length: nat, r: Range)
    requires Agrees(g) && r in g.ranges && length > 0 && Intersects(address, length, r)
    ensures FlatHit(g, address, length)
  {
    var i :| 0 <= i < |g.ranges| && g.ranges[i] == r;
    var p := (if address < r.start then r.start else address) / PAGE;
    assert Touches(r, p, PAGE);
    assert g.pages[p];
    assert address / PAGE <= p <= LastPage(address, length, PAGE, |g.pages|);
  }

  /** A hit is a write to a 4 KiB page that holds registered code. */
  lemma {:induction false} HitMeansGuardedPage(g: Guard, address: Address, length: nat)
    requires Agrees(g) && length > 0
    ensures FlatHit(g, address, length) <==>
            exists i, p :: 0 <= i < |g.ranges| && address / PAGE <= p <= LastPage(address, length, PAGE, PAGES)
                           && Touches(g.ranges[i], p, PAGE)
  {
    hide Touches;
    if i, p :| 0 <= i < |g.ranges| && address / PAGE <= p <= LastPage(address, length, PAGE, PAGES)
               && Touches(g.ranges[i], p, PAGE) {
      assert g.pages[p];
    }
    if FlatHit(g, address, length) {
      var p :| address / PAGE <= p <= LastPage(address, length, PAGE, |g.pages|) && g.pages[p];
      var i :| 0 <= i < |g.ranges| && Touches(g.ranges[i], p, PAGE);
    }
  }

  lemma {:induction false} FirstHitIsARange(ranges: seq<Range>, address: Address, length: nat)
    ensures match FirstHit(ranges, address, length)
            case Some(r) => r in ranges && Intersects(address, length, r)
            case None => forall r :: r in ranges ==> !Intersects(address, length, r)
    decreases |ranges|
  {
    if ranges != [] {
      FirstHitIsARange(ranges[1..], address, length);
      assert ranges == [ranges[0]] + ranges[1..];
    }
  }

  /** Gating the range search by the bitmap changes no answer for a real write. */
  lemma {:induction false} GateIsExact(g: Guard, address: Address, length: nat)
    requires Agrees(g) && length > 0
    ensures FirstHit(g.ranges, address, length).Some? ==> FlatHit(g, address, length)
  {
    hide Agrees, FlatHit;
    FirstHitIsARange(g.ranges, address, length);
    if FirstHit(g.ranges, address, length).Some? {
      GuardNeverMisses(g, address, length, FirstHit(g.ranges, address, length).value);
    }
  }

  /** The host byte behind a guest byte. */
  function HostByte(g: Guard, address: Address): Option<int>
    requires Shaped(g)
  {
    var entry := g.table[address / COARSE_PAGE];
    if entry.base.None? || address % COARSE_PAGE >= entry.limit then None
    else Some(entry.base.value + address % COARSE_PAGE)
  }

  lemma {:induction false} BiasIsTheTable(g: Guard, address: Address, i: nat)
    requires Shaped(g) && i < MAX_SCALAR && address + i < ADDRESSES && BiasOf(g.table, address / COARSE_PAGE).Some?
    ensures HostByte(g, address + i) == Some(BiasOf(g.table, address / COARSE_PAGE).value + address + i)
  {
  }

  lemma {:induction false} PlainCoarsePageHasNoGuardedPage(g: Guard, p: nat)
    requires Agrees(g) && p < PAGES && !g.coarse[p / 256]
    ensures !g.pages[p]
  {
    hide Touches;
    if g.pages[p] {
      var i :| 0 <= i < |g.ranges| && Touches(g.ranges[i], p, PAGE);
      CoarserPageIsTouched(g.ranges[i], p);
    }
  }

  /** A pointer handed to a store leads to the mapped bytes themselves, and none of them is on a guarded page. */
  lemma {:induction false} StoreIsMappedAndUnguarded(g: Guard, address: Address, length: nat, i: nat)
    requires Agrees(g) && FastPathSafe(g) && i < length && WritablePointer(g, address, length).Some?
    ensures address + i < ADDRESSES && !g.pages[(address + i) / PAGE]
    ensures HostByte(g, address + i) == Some(WritablePointer(g, address, length).value + i)
  {
    hide Agrees, BiasOf;
    var c, end := address / COARSE_PAGE, address + length - 1;
    PagesNest(address + i);
    assert (address + i) / PAGE == address / PAGE || (address + i) / PAGE == end / PAGE;
    if g.writableBias[c].Some? {
      BiasIsTheTable(g, address, i);
      if (address + i) / COARSE_PAGE == c {
        assert (address + i) / PAGE / 256 == c;
        PlainCoarsePageHasNoGuardedPage(g, (address + i) / PAGE);
      }
    } else if g.sparse[c].Some? {
      BiasIsTheTable(g, address, i);
    } else {
      assert (address + i) / COARSE_PAGE == c;
    }
  }

  /** A native scalar store never touches a guarded page. */
  lemma {:induction false} ScalarStoreIsMappedAndUnguarded(g: Guard, address: Address, length: nat, i: nat)
    requires Agrees(g) && FastPathSafe(g) && i < length <= MAX_SCALAR && ScalarPointer(g, address, length).Some?
    ensures address + i < ADDRESSES && !g.pages[(address + i) / PAGE]
    ensures HostByte(g, address + i) == Some(ScalarPointer(g, address, length).value + i)
  {
    hide Agrees, FastPathSafe, BiasOf, HostByte;
    StoreIsMappedAndUnguarded(g, address, length, i);
  }

  function CachedAlias(b: Bank, r: Range): Range
    requires OffsetIn(b, r).Some? && b in {MEM1, MEM2} && r.start < r.end
  {
    var first := b.cached + OffsetIn(b, r).value;
    Range(first, first + (r.end - r.start), r.name + " [cached]")
  }

  function UncachedAlias(b: Bank, r: Range): Range
    requires OffsetIn(b, r).Some? && b in {MEM1, MEM2} && r.start < r.end
  {
    var first := b.uncached + OffsetIn(b, r).value;
    Range(first, first + (r.end - r.start), r.name + " [uncached]")
  }

  lemma {:induction false} BothAliasesAreAdded(g: Guard, b: Bank, r: Range)
    requires Agrees(g) && FastPathSafe(g) && b in {MEM1, MEM2} && r.start < r.end && OffsetIn(b, r).Some?
    ensures CachedAlias(b, r) in AddAliases(g, b, r).ranges && UncachedAlias(b, r) in AddAliases(g, b, r).ranges
  {
    hide Agrees, FastPathSafe, AddRange;
    AgreesIsShaped(g);
    AddRangeKeepsAgreement(g, CachedAlias(b, r));
    AddRangeKeepsAgreement(AddRange(g, CachedAlias(b, r)), UncachedAlias(b, r));
  }

  lemma {:induction false} RegisterAddsAliases(g: Guard, b: Bank, r: Range)
    requires Agrees(g) && FastPathSafe(g) && b in {MEM1, MEM2} && r.start < r.end && OffsetIn(b, r).Some?
    ensures CachedAlias(b, r) in Register(g, r).ranges && UncachedAlias(b, r) in Register(g, r).ranges
  {
    hide Agrees, FastPathSafe, AddRange, AddAliases, OffsetIn, Refresh;
    AgreesIsShaped(g);
    AddRangeKeepsAgreement(g, r);
    var g1 := AddRange(g, r);
    AliasesKeepAgreement(g1, MEM1, r);
    var g2 := AddAliases(g1, MEM1, r);
    AliasesKeepAgreement(g2, MEM2, r);
    var g3 := AddAliases(g2, MEM2, r);
    RefreshKeepsAgreement(g3);
    if b == MEM1 {
      BothAliasesAreAdded(g1, MEM1, r);
    } else {
      BothAliasesAreAdded(g2, MEM2, r);
    }
  }

  /** Code registered through any view of a bank is guarded through its cached and uncached views. */
  lemma {:induction false} AliasesAreGuarded(g: Guard, b: Bank, r: Range, x: nat, length: nat)
    requires Agrees(g) && FastPathSafe(g) && b in {MEM1, MEM2} && r.start < r.end && length > 0
    requires OffsetIn(b, r).Some? && OffsetIn(b, r).value <= x < OffsetIn(b, r).value + (r.end - r.start)
    ensures b.cached + x < ADDRESSES && b.uncached + x < ADDRESSES
    ensures FlatHit(Register(g, r), b.cached + x, length) && FlatHit(Register(g, r), b.uncached + x, length)
  {
    hide Agrees, FastPathSafe, FlatHit, Register;
    AgreesIsShaped(g);
    RegisterAddsAliases(g, b, r);
    RegisterKeepsAgreement(g, r);
    GuardNeverMisses(Register(g, r), b.cached + x, length, CachedAlias(b, r));
    GuardNeverMisses(Register(g, r), b.uncached + x, length, UncachedAlias(b, r));
  }

  predicate PageTable(table: seq<Entry>) {
    |table| == COARSE_PAGES && forall c :: 0 <= c < COARSE_PAGES ==> table[c].limit <= COARSE_PAGE
  }

  /** A guard before anything is registered. */
  function Fresh(table: seq<Entry>): (g: Guard)
    requires PageTable(table)
    ensures Shaped(g)
  {
    var biases := seq(COARSE_PAGES, c requires 0 <= c < COARSE_PAGES => BiasOf(table, c));
    Guard(false, [], seq(PAGES, _ => false), seq(MID_PAGES, _ => false), seq(COARSE_PAGES, _ => false), table, biases,
          biases, seq(COARSE_PAGES, _ => None))
  }

  lemma {:induction false} FreshIsGood(table: seq<Entry>)
    requires PageTable(table)
    ensures Agrees(Fresh(table)) && FastPathSafe(Fresh(table))
  {
    hide BiasOf;
  }

  lemma {:induction false} AddRangeAddsNoOther(g: Guard, r: Range)
    requires Shaped(g)
    ensures forall s :: s in AddRange(g, r).ranges ==> s in g.ranges || s == r
  {
    hide Marked, Cleared;
  }

  /**
   A range outside the bank adds nothing, one inside adds its aliases, which start no earlier than the cached
   view.
   */
  lemma {:induction false} AliasesAddNoOther(g: Guard, b: Bank, r: Range)
    requires Shaped(g) && b in {MEM1, MEM2} && r.start < r.end
    ensures OffsetIn(b, r).None? ==> AddAliases(g, b, r) == g
    ensures forall s :: s in AddAliases(g, b, r).ranges ==> s in g.ranges || s.start >= b.cached
  {
    hide AddRange;
    if OffsetIn(b, r).Some? && OffsetIn(b, r).value + (r.end - r.start) <= b.size {
      AddRangeAddsNoOther(g, CachedAlias(b, r));
      AddRangeAddsNoOther(AddRange(g, CachedAlias(b, r)), UncachedAlias(b, r));
    }
  }

  lemma {:induction false} RegisterAddsNoOther(g: Guard, b: Bank, r: Range)
    requires Shaped(g) && b in {MEM1, MEM2} && r.start < r.end && OffsetIn(b, r).Some?
    ensures forall s :: s in Register(g, r).ranges ==> s in g.ranges || s == r || s.start >= b.cached
  {
    hide AddRange, AddAliases, Refresh;
    AddRangeAddsNoOther(g, r);
    var g1 := AddRange(g, r);
    AliasesAddNoOther(g1, MEM1, r);
    var g2 := AddAliases(g1, MEM1, r);
    AliasesAddNoOther(g2, MEM2, r);
    RefreshKeepsRanges(AddAliases(g2, MEM2, r));
    assert b == MEM1 ==> OffsetIn(MEM2, r).None?;
    assert b == MEM2 ==> OffsetIn(MEM1, r).None?;
  }

  /**
   The physical view is another matter: registering code closes it to writes exactly when the code was
   registered by its physical address. Otherwise a write through it is caught only if it already was.
   */
  lemma {:induction false} PhysicalViewStaysOpen(g: Guard, b: Bank, r: Range, x: nat, length: nat)
    requires Agrees(g) && FastPathSafe(g) && b in {MEM1, MEM2} && r.start < r.end && length > 0
    requires OffsetIn(b, r).Some? && OffsetIn(b, r).value <= x < OffsetIn(b, r).value + (r.end - r.start)
    requires b.physical + x + length <= b.cached
    ensures FlatHit(Register(g, r), b.physical + x, length) <==>
        r.start < b.cached || FlatHit(g, b.physical + x, length)
  {
    hide Agrees, FastPathSafe, FlatHit, Register, Touches;
    AgreesIsShaped(g);
    RegisterKeepsAgreement(g, r);
    RegisterAddsNoOther(g, b, r);
    var h, address := Register(g, r), b.physical + x;
    HitMeansGuardedPage(g, address, length);
    HitMeansGuardedPage(h, address, length);
    if r.start < b.cached {
      GuardNeverMisses(h, address, length, r);
    } else {
      forall i, p | 0 <= i < |h.ranges| && address / PAGE <= p <= LastPage(address, length, PAGE, PAGES)
                    && Touches(h.ranges[i], p, PAGE)
        ensures h.ranges[i] in g.ranges
      {
        LateRangesAreApart(h.ranges[i], b, address, length, p);
      }
    }
    forall i | 0 <= i < |g.ranges| ensures g.ranges[i] in h.ranges {
    }
  }

  lemma {:induction false} LateRangesAreApart(s: Range, b: Bank, address: Address, length: nat, p: nat)
    requires b in {MEM1, MEM2} && length > 0 && address + length <= b.cached && Touches(s, p, PAGE)
    requires p <= LastPage(address, length, PAGE, PAGES)
    ensures s.start < b.cached
  {
  }

  lemma {:induction false} RefreshKeepsRanges(g: Guard)
    requires Shaped(g)
    ensures Refresh(g).ranges == g.ranges
  {
  }

  /** So code registered by its cached address alone can be written through its physical one. */
  lemma {:induction false} CachedCodeIsOpenBelow(table: seq<Entry>)
    requires PageTable(table)
    ensures !FlatHit(Register(Fresh(table), Range(0x8000_1000, 0x8000_2000, "code")), 0x1000, 4)
  {
    hide Agrees, FastPathSafe, Register;
    FreshIsGood(table);
    PhysicalViewStaysOpen(Fresh(table), MEM1, Range(0x8000_1000, 0x8000_2000, "code"), 0x1000, 4);
  }

  // ---------------------------------------------------------------- whole runs

  /** The guard after a run of registrations, the last one made last. */
  function RegisterAll(table: seq<Entry>, rs: seq<Range>): (g: Guard)
    requires PageTable(table)
    ensures Shaped(g)
  {
    if rs == [] then Fresh(table) else Register(RegisterAll(table, rs[..|rs| - 1]), rs[|rs| - 1])
  }

  /** Every run of registrations leaves tables that agree with its ranges, and holds every real range registered. */
  lemma {:induction false} RunKeepsAgreement(table: seq<Entry>, rs: seq<Range>)
    requires PageTable(table)
    ensures var g := RegisterAll(table, rs);
            Agrees(g) && FastPathSafe(g) && forall r :: r in rs && r.start < r.end ==> r in g.ranges
  {
    hide Agrees, FastPathSafe, Register, Fresh;
    if rs == [] {
      FreshIsGood(table);
    } else {
      RunKeepsAgreement(table, rs[..|rs| - 1]);
      RegisterKeepsAgreement(RegisterAll(table, rs[..|rs| - 1]), rs[|rs| - 1]);
      assert rs == rs[..|rs| - 1] + [rs[|rs| - 1]];
    }
  }

  /**
   Over every run of registrations: the flat scan of the 4 KiB pages shows on both coarser levels, says
   exactly whether the write covers a page of registered code, and catches every write that meets a
   range of the run.
   */
  lemma {:induction false} EveryRunIsGuarded(table: seq<Entry>, rs: seq<Range>, address: Address, length: nat)
    requires PageTable(table) && length > 0
    ensures var g := RegisterAll(table, rs);
            && (FlatHit(g, address, length) ==>
                  AnyPage(g.mid, address, length, MID_PAGE) && AnyPage(g.coarse, address, length, COARSE_PAGE))
            && (FlatHit(g, address, length) <==>
                  exists i, p :: 0 <= i < |g.ranges| && address / PAGE <= p <= LastPage(address, length, PAGE, PAGES)
                                 && Touches(g.ranges[i], p, PAGE))
            && (forall r :: r in rs && r.start < r.end && Intersects(address, length, r) ==>
                FlatHit(g, address, length))
  {
    hide Agrees, FastPathSafe, RegisterAll, Touches, AnyPage;
    RunKeepsAgreement(table, rs);
    var g := RegisterAll(table, rs);
    HitMeansGuardedPage(g, address, length);
    if FlatHit(g, address, length) {
      CoarserScanMissesNothing(g, address, length);
    }
    forall r | r in rs && r.start < r.end && Intersects(address, length, r) ensures FlatHit(g, address, length) {
      GuardNeverMisses(g, address, length, r);
    }
  }

  /** Every run holds the aliases of every bank range registered in it. */
  lemma {:induction false} RunHoldsAliases(table: seq<Entry>, rs: seq<Range>, b: Bank, r: Range)
    requires PageTable(table) && r in rs && b in {MEM1, MEM2} && r.start < r.end && OffsetIn(b, r).Some?
    ensures var held := RegisterAll(table, rs).ranges; CachedAlias(b, r) in held && UncachedAlias(b, r) in held
  {
    hide Agrees, FastPathSafe, Register, Fresh, OffsetIn;
    var n := |rs| - 1;
    var before := RegisterAll(table, rs[..n]);
    RunKeepsAgreement(table, rs[..n]);
    RegisterKeepsAgreement(before, rs[n]);
    if r == rs[n] {
      RegisterAddsAliases(before, b, r);
    } else {
      assert rs == rs[..n] + [rs[n]];
      RunHoldsAliases(table, rs[..n], b, r);
    }
  }

  lemma {:induction false} CodePageIsSet(g: Guard, r: Range, a: Address)
    requires Agrees(g) && r in g.ranges
    ensures r.start <= a < r.end ==> g.pages[a / PAGE]
  {
    var i :| 0 <= i < |g.ranges| && g.ranges[i] == r;
    assert r.start <= a < r.end ==> Touches(g.ranges[i], a / PAGE, PAGE);
  }

  /** A store that is handed a pointer writes no byte of a range the tables hold. */
  lemma {:induction false} NoStoreMeetsARange(g: Guard, r: Range, address: Address, length: nat, i: nat)
    requires Agrees(g) && FastPathSafe(g) && r in g.ranges && i < length <= MAX_SCALAR
    requires WritablePointer(g, address, length).Some? || ScalarPointer(g, address, length).Some?
    ensures !(r.start <= address + i < r.end)
  {
    AgreesIsShaped(g);
    hide Agrees, FastPathSafe, WritablePointer, ScalarPointer, Touches;
    if WritablePointer(g, address, length).Some? {
      StoreIsMappedAndUnguarded(g, address, length, i);
    } else {
      ScalarStoreIsMappedAndUnguarded(g, address, length, i);
    }
    CodePageIsSet(g, r, address + i);
  }

  /** Over every run of registrations no store that is handed a pointer writes at an address of a registered range. */
  lemma {:induction false} NoStoreMeetsCodeInAnyRun(table: seq<Entry>, rs: seq<Range>, r: Range, address: Address,
                                                    length: nat, i: nat)
    requires PageTable(table) && r in rs && i < length <= MAX_SCALAR
    ensures var g := RegisterAll(table, rs);
            WritablePointer(g, address, length).Some? || ScalarPointer(g, address, length).Some? ==>
              !(r.start <= address + i < r.end)
  {
    hide Agrees, FastPathSafe, RegisterAll, WritablePointer, ScalarPointer;
    RunKeepsAgreement(table, rs);
    var g := RegisterAll(table, rs);
    if r.start < r.end && (WritablePointer(g, address, length).Some? || ScalarPointer(g, address, length).Some?) {
      NoStoreMeetsARange(g, r, address, length, i);
    }
  }

  /**
   Over every run of registrations, no store that is handed a pointer reaches byte x of a bank, where code
   is registered, through its cached or uncached view; nor through its physical one if the code was
   registered by its physical address.
   */
  lemma {:induction false} NoStoreReachesCode(table: seq<Entry>, rs: seq<Range>, b: Bank, r: Range, x: nat,
                                              address: Address, length: nat, i: nat)
    requires PageTable(table) && r in rs && b in {MEM1, MEM2} && r.start < r.end && OffsetIn(b, r).Some?
    requires OffsetIn(b, r).value <= x < OffsetIn(b, r).value + (r.end - r.start) && i < length <= MAX_SCALAR
    requires var g := RegisterAll(table, rs);
             WritablePointer(g, address, length).Some? || ScalarPointer(g, address, length).Some?
    ensures address + i != b.cached + x && address + i != b.uncached + x
    ensures r.start < b.cached ==> address + i != b.physical + x
  {
    hide Agrees, FastPathSafe, RegisterAll, WritablePointer, ScalarPointer;
    RunKeepsAgreement(table, rs);
    RunHoldsAliases(table, rs, b, r);
    var g := RegisterAll(table, rs);
    NoStoreMeetsARange(g, r, address, length, i);
    NoStoreMeetsARange(g, CachedAlias(b, r), address, length, i);
    NoStoreMeetsARange(g, UncachedAlias(b, r), address, length, i);
  }
}
