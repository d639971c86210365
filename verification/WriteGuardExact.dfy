/**
 The write guard in plain terms: which physical bytes of code it closes to writes, and exactly when a store
 is handed a pointer.
 */
module WriteGuardExact {
  import opened AddressSpace
  import opened Wrappers
  import opened WriteGuard

  /** A page is touched exactly if the range has a byte on it. */
  lemma {:induction false} TouchedPagesHoldBytes(r: Range, page: nat, size: nat)
    requires size in {0x1000, 0x1_0000, 0x10_0000}
    ensures Touches(r, page, size) <==> exists x :: HasByteOn(r, x, page, size)
  {
    if Touches(r, page, size) {
      var x := if page * size < r.start then r.start as int else page * size;
      OnPage(r.start, size);
      OnPage(r.end - 1, size);
      OnPage(x, size);
      PagesAreOrdered(r, page, size, x);
      assert HasByteOn(r, x, page, size);
    }
    if x :| HasByteOn(r, x, page, size) {
      QuotientsGrow(r.start, x, size);
      QuotientsGrow(x, r.end - 1, size);
    }
  }

  predicate HasByteOn(r: Range, x: int, page: nat, size: nat)
    requires size > 0
  {
    r.start <= x < r.end && x / size == page
  }

  lemma {:induction false} OnPage(x: int, size: nat)
    requires size in {0x1000, 0x1_0000, 0x10_0000}
    ensures x / size * size <= x < x / size * size + size
  {
  }

  lemma {:induction false} PagesAreOrdered(r: Range, page: nat, size: nat, x: int)
    requires size in {0x1000, 0x1_0000, 0x10_0000} && Touches(r, page, size)
    requires x == if page * size < r.start then r.start as int else page * size
    ensures r.start <= x < r.end && x / size == page
  {
  }

  lemma {:induction false} QuotientsGrow(x: int, y: int, size: nat)
    requires size in {0x1000, 0x1_0000, 0x10_0000} && x <= y
    ensures x / size <= y / size
  {
  }

  // ---------------------------------------------------------------- code through its views

  /** The range lies in the view of MEM1 or of MEM2 that starts at v. */
  predicate InsideView(r: Range, v: nat) {
    (v <= r.start && r.end <= v + 0x180_0000) || (v + 0x1000_0000 <= r.start && r.end <= v + 0x1800_0000)
  }

  /** It also shows physical byte o there. */
  predicate ShowsThrough(r: Range, v: nat, o: nat) {
    && r.start <= v + o < r.end
    && InsideView(r, v)
  }

  /** Physical byte o of main RAM is code of the range, registered through one of the three views. */
  predicate CodeByte(r: Range, o: nat) {
    ShowsThrough(r, 0, o) || ShowsThrough(r, 0x8000_0000, o) || ShowsThrough(r, 0xC000_0000, o)
  }

  lemma {:induction false} BankOf(r: Range, o: nat) returns (b: Bank, x: nat)
    requires CodeByte(r, o)
    ensures b in {MEM1, MEM2} && r.start < r.end && OffsetIn(b, r).Some?
    ensures OffsetIn(b, r).value <= x < OffsetIn(b, r).value + (r.end - r.start)
    ensures b.physical + x == o && b.cached + x == 0x8000_0000 + o && b.uncached + x == 0xC000_0000 + o
    ensures r.start < b.cached <==> r.start < 0x1800_0000
    ensures o < 0x1800_0000
  {
    b := if o < 0x180_0000 then MEM1 else MEM2;
    x := o - b.physical;
  }

  /** Registering code guards its bytes through the cached and the uncached view, whatever view it names. */
  lemma {:induction false} CodeIsGuardedThroughViews(g: Guard, r: Range, o: nat, length: nat)
    requires Agrees(g) && FastPathSafe(g) && length > 0 && CodeByte(r, o)
    ensures o < 0x1800_0000
    ensures FlatHit(Register(g, r), 0x8000_0000 + o, length) && FlatHit(Register(g, r), 0xC000_0000 + o, length)
  {
    hide Agrees, FastPathSafe, FlatHit, Register, CodeByte;
    var b, x := BankOf(r, o);
    AliasesAreGuarded(g, b, r, x, length);
  }

  /** A range in no view of main RAM is registered as it is, without aliases. */
  lemma {:induction false} OtherRangesHaveNoAliases(g: Guard, r: Range)
    requires Shaped(g) && r.start < r.end
    requires !InsideView(r, 0) && !InsideView(r, 0x8000_0000) && !InsideView(r, 0xC000_0000)
    ensures forall s :: s in Register(g, r).ranges ==> s in g.ranges || s == r
  {
    hide AddRange, Refresh, AddAliases;
    assert OffsetIn(MEM1, r).None? && OffsetIn(MEM2, r).None?;
    var g1 := AddRange(g, r);
    AddRangeAddsNoOther(g, r);
    AliasesAddNoOther(g1, MEM1, r);
    AliasesAddNoOther(g1, MEM2, r);
    RefreshKeepsRanges(g1);
  }

  /** Through the physical view they are guarded exactly if the range names it, or they were before. */
  lemma {:induction false} PhysicalBytesAreGuardedExactly(g: Guard, r: Range, o: nat, length: nat)
    requires Agrees(g) && FastPathSafe(g) && length > 0 && CodeByte(r, o) && o + length <= 0x8000_0000
    ensures FlatHit(Register(g, r), o, length) <==> r.start < 0x1800_0000 || FlatHit(g, o, length)
  {
    hide Agrees, FastPathSafe, FlatHit, Register, CodeByte;
    var b, x := BankOf(r, o);
    PhysicalViewStaysOpen(g, b, r, x, length);
  }

  /**
   Over every run of registrations no store that is handed a pointer reaches a physical byte of registered
   code through its cached or uncached view, nor through the physical one if the code was registered there.
   */
  lemma {:induction false} NoStoreReachesCodeBytes(table: seq<Entry>, rs: seq<Range>, r: Range, o: nat,
                                                   address: Address, length: nat, i: nat)
    requires PageTable(table) && r in rs && CodeByte(r, o) && i < length <= 8
    requires var g := RegisterAll(table, rs);
             WritablePointer(g, address, length).Some? || ScalarPointer(g, address, length).Some?
    ensures address + i != 0x8000_0000 + o && address + i != 0xC000_0000 + o
    ensures r.start < 0x1800_0000 ==> address + i != o
  {
    hide RegisterAll, WritablePointer, ScalarPointer, CodeByte;
    var b, x := BankOf(r, o);
    NoStoreReachesCode(table, rs, b, r, x, address, length, i);
  }

  // ---------------------------------------------------------------- exactly which stores are handed a pointer

  /** The fast path tables are the ones rebuilt from the bitmaps. */
  ghost predicate Current(g: Guard) {
    && Shaped(g)
    && forall c :: 0 <= c < 0x1000 ==>
         g.writableBias[c] == RefreshedBias(g, c) && g.sparse[c] == RefreshedSparse(g, c)
  }

  lemma {:induction false} RefreshIsCurrent(g: Guard)
    requires Shaped(g)
    ensures Current(Refresh(g))
  {
    var h := Refresh(g);
    forall c | 0 <= c < 0x1000
      ensures h.writableBias[c] == RefreshedBias(h, c) && h.sparse[c] == RefreshedSparse(h, c)
    {
      RefreshReadsOnlyBitmaps(g, h, c);
    }
  }

  lemma {:induction false} RefreshReadsOnlyBitmaps(g: Guard, h: Guard, c: nat)
    requires Shaped(g) && Shaped(h) && c < 0x1000
    requires h.pages == g.pages && h.coarse == g.coarse && h.fullBias == g.fullBias
    ensures RefreshedBias(h, c) == RefreshedBias(g, c) && RefreshedSparse(h, c) == RefreshedSparse(g, c)
  {
    assert SubTable(h, c) == SubTable(g, c);
  }

  lemma {:induction false} RegisterKeepsCurrent(g: Guard, r: Range)
    requires Current(g)
    ensures Current(Register(g, r))
  {
    hide Refresh, AddRange, AddAliases, Current;
    assert Shaped(g) by { CurrentIsShaped(g); }
    if r.start < r.end {
      RefreshIsCurrent(AddAliases(AddAliases(AddRange(g, r), MEM1, r), MEM2, r));
    }
  }

  lemma {:induction false} CurrentIsShaped(g: Guard)
    requires Current(g)
    ensures Shaped(g)
  {
  }

  lemma {:induction false} RunIsCurrent(table: seq<Entry>, rs: seq<Range>)
    requires PageTable(table)
    ensures Current(RegisterAll(table, rs))
  {
    hide Register, RefreshedSparse, BiasOf;
    if rs == [] {
      FreshIsCurrent(table);
    } else {
      RunIsCurrent(table, rs[..|rs| - 1]);
      RegisterKeepsCurrent(RegisterAll(table, rs[..|rs| - 1]), rs[|rs| - 1]);
    }
  }

  lemma {:induction false} FreshIsCurrent(table: seq<Entry>)
    requires PageTable(table)
    ensures Current(Fresh(table))
  {
    hide BiasOf;
  }

  /** The bytes of an access inside one 1 MiB page are mapped. */
  predicate MappedThere(g: Guard, address: Address, length: nat)
    requires Shaped(g)
  {
    var entry := g.table[address / 0x10_0000];
    entry.base.Some? && address % 0x10_0000 + length <= entry.limit
  }

  /** A guarded 4 KiB page makes its 1 MiB page guarded, and a guarded 1 MiB page has a guarded one in it. */
  lemma {:induction false} CoarseHasAPage(g: Guard, c: nat)
    requires Agrees(g) && c < 0x1000 && g.coarse[c]
    ensures exists p :: c * 0x100 <= p < c * 0x100 + 0x100 && g.pages[p]
  {
    hide Touches;
    var i :| 0 <= i < |g.ranges| && Touches(g.ranges[i], c, COARSE_PAGE);
    var r := g.ranges[i];
    TouchedPagesHoldBytes(r, c, 0x10_0000);
    var x :| HasByteOn(r, x, c, 0x10_0000);
    var p := x / 0x1000;
    assert HasByteOn(r, x, p, 0x1000);
    TouchedPagesHoldBytes(r, p, 0x1000);
    SubPage(x, c);
    assert Touches(g.ranges[i], p, PAGE);
    assert 0 <= p < |g.pages| && g.pages[p];
  }

  lemma {:induction false} SubPage(x: int, c: nat)
    requires x / 0x10_0000 == c
    ensures c * 0x100 <= x / 0x1000 < c * 0x100 + 0x100
    ensures x / 0x1000 == c * 0x100 + x % 0x10_0000 / 0x1000
  {
  }

  /** An unguarded page in a page that is not mixed: the whole 1 MiB page is unguarded. */
  lemma {:induction false} PureIsUnguarded(g: Guard, c: nat, p: nat)
    requires Agrees(g) && c < 0x1000 && c * 0x100 <= p < c * 0x100 + 0x100 && !g.pages[p] && g.coarse[c]
    ensures Mixed(g, c)
  {
    hide Touches, BitsAgree;
    CoarseHasAPage(g, c);
    var q :| c * 0x100 <= q < c * 0x100 + 0x100 && g.pages[q];
    var bits := g.pages[c * SUB_PAGES..(c + 1) * SUB_PAGES];
    assert bits[p - c * 0x100] == g.pages[p] && bits[q - c * 0x100] == g.pages[q];
  }

  lemma {:induction false} BiasMeansMapped(g: Guard, address: Address, length: nat)
    requires Shaped(g) && 1 <= length && (address + length - 1) / 0x10_0000 == address / 0x10_0000
    requires BiasOf(g.table, address / 0x10_0000).Some?
    ensures MappedThere(g, address, length)
  {
  }

  /**
   Over every run of registrations a store of one to eight bytes inside one 1 MiB page is handed a pointer if
   and only if its bytes are mapped and neither its first nor its last byte is on a guarded 4 KiB page. The
   scalar path answers alike.
   */
  lemma {:induction false} StoreIsHandedAPointerExactly(table: seq<Entry>, rs: seq<Range>, address: Address,
                                                        length: nat)
    requires PageTable(table) && 1 <= length <= 8
    requires (address + length - 1) / 0x10_0000 == address / 0x10_0000
    ensures var g := RegisterAll(table, rs);
            && (WritablePointer(g, address, length).Some? <==>
                  MappedThere(g, address, length)
                  && !g.pages[address / 0x1000] && !g.pages[(address + length - 1) / 0x1000])
            && (WritablePointer(g, address, length).Some? ==>
                  && table[address / 0x10_0000].base.Some?
                  && WritablePointer(g, address, length).value
                     == table[address / 0x10_0000].base.value + address % 0x10_0000)
            && ScalarPointer(g, address, length) == WritablePointer(g, address, length)
  {
    hide RegisterAll;
    RunKeepsAgreement(table, rs);
    RunIsCurrent(table, rs);
    RunKeepsTable(table, rs);
    PointerExactly(RegisterAll(table, rs), address, length);
  }

  lemma {:induction false} PointerExactly(g: Guard, address: Address, length: nat)
    requires Agrees(g) && FastPathSafe(g) && Current(g) && 1 <= length <= 8
    requires (address + length - 1) / 0x10_0000 == address / 0x10_0000
    ensures WritablePointer(g, address, length).Some? <==>
              MappedThere(g, address, length)
              && !g.pages[address / 0x1000] && !g.pages[(address + length - 1) / 0x1000]
    ensures WritablePointer(g, address, length).Some? ==>
              && g.table[address / 0x10_0000].base.Some?
              && WritablePointer(g, address, length).value
                 == g.table[address / 0x10_0000].base.value + address % 0x10_0000
    ensures ScalarPointer(g, address, length) == WritablePointer(g, address, length)
  {
    hide Agrees, BiasOf, Mixed, SubTable, MappedThere;
    AgreesIsShaped(g);
    var c, end := address / 0x10_0000, address + length - 1;
    SubPage(address, c);
    SubPage(end, c);
    if g.fullBias[c].Some? {
      BiasMeansMapped(g, address, length);
      BiasIsTheTable(g, address, 0);
    }
    if !g.coarse[c] {
      PlainCoarsePageHasNoGuardedPage(g, address / 0x1000);
      PlainCoarsePageHasNoGuardedPage(g, end / 0x1000);
    } else if !g.pages[address / 0x1000] {
      PureIsUnguarded(g, c, address / 0x1000);
    }
    InOnePage(g, c, address);
    TablePointer(g, address, length);
  }

  lemma {:induction false} InOnePage(g: Guard, c: nat, address: Address)
    requires Shaped(g) && c == address / 0x10_0000
    ensures SubTable(g, c)[address % 0x10_0000 / 0x1000]
            == if g.pages[address / 0x1000] then None else g.fullBias[c]
  {
    SubPage(address, c);
  }

  lemma {:induction false} TablePointer(g: Guard, address: Address, length: nat)
    requires Shaped(g)
    ensures MappedThere(g, address, length) <==>
            g.table[address / COARSE_PAGE].base.Some?
            && address % COARSE_PAGE + length <= g.table[address / COARSE_PAGE].limit
  {
  }

  /**
   A store across a 1 MiB boundary is handed one if and only if the host bytes of the page go on into the next
   one and neither its first nor its last byte is on a guarded 4 KiB page. The scalar path leaves it to others.
   */
  lemma {:induction false} CrossingStoreExactly(table: seq<Entry>, rs: seq<Range>, address: Address, length: nat)
    requires PageTable(table) && 1 <= length <= 8 && address + length <= 0x1_0000_0000
    requires (address + length - 1) / 0x10_0000 != address / 0x10_0000
    ensures address / 0x10_0000 + 1 < 0x1000
    ensures var g := RegisterAll(table, rs);
            var current, next := table[address / 0x10_0000], table[address / 0x10_0000 + 1];
            WritablePointer(g, address, length).Some? <==>
              && !g.pages[address / 0x1000] && !g.pages[(address + length - 1) / 0x1000]
              && current.base.Some? && current.limit == 0x10_0000
              && next.base == Some(current.base.value + 0x10_0000) && next.limit >= 7
    ensures ScalarPointer(RegisterAll(table, rs), address, length).None?
  {
    hide RegisterAll, WritablePointer, ScalarPointer, Agrees, FastPathSafe, Current;
    RunKeepsAgreement(table, rs);
    RunIsCurrent(table, rs);
    RunKeepsTable(table, rs);
    CrossingPointer(RegisterAll(table, rs), address, length);
  }

  lemma {:induction false} CrossingPointer(g: Guard, address: Address, length: nat)
    requires Agrees(g) && FastPathSafe(g) && Current(g) && 1 <= length <= 8 && address + length <= 0x1_0000_0000
    requires (address + length - 1) / 0x10_0000 != address / 0x10_0000
    ensures address / 0x10_0000 + 1 < 0x1000
    ensures var current, next := g.table[address / 0x10_0000], g.table[address / 0x10_0000 + 1];
            WritablePointer(g, address, length).Some? <==>
              && !g.pages[address / 0x1000] && !g.pages[(address + length - 1) / 0x1000]
              && current.base.Some? && current.limit == 0x10_0000
              && next.base == Some(current.base.value + 0x10_0000) && next.limit >= 7
    ensures ScalarPointer(g, address, length).None?
  {
    hide Mixed, SubTable, Agrees;
    AgreesIsShaped(g);
    var c, end := address / 0x10_0000, address + length - 1;
    assert end / 0x10_0000 == c + 1 && address % 0x10_0000 + length > 0x10_0000;
    SubPage(address, c);
    if !g.coarse[c] {
      PlainCoarsePageHasNoGuardedPage(g, address / 0x1000);
    } else if !g.pages[address / 0x1000] {
      PureIsUnguarded(g, c, address / 0x1000);
    }
    InOnePage(g, c, address);
  }

  lemma {:induction false} RunKeepsTable(table: seq<Entry>, rs: seq<Range>)
    requires PageTable(table)
    ensures RegisterAll(table, rs).table == table
  {
    hide Marked, Cleared, OffsetIn;
    if rs != [] {
      RunKeepsTable(table, rs[..|rs| - 1]);
      RegisterKeepsTable(RegisterAll(table, rs[..|rs| - 1]), rs[|rs| - 1]);
    }
  }

  lemma {:induction false} RegisterKeepsTable(g: Guard, r: Range)
    requires Shaped(g)
    ensures Register(g, r).table == g.table
  {
    hide Marked, Cleared, OffsetIn;
  }
}
