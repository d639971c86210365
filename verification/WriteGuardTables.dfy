/**
 The guard's tables as the runtime keeps them, scanned and updated in place.

 The three bitmaps and the bias tables are fixed-size arrays; registration marks them page by page and
 a check scans them with early exits. Each contract ties the arrays to the functions of WriteGuard
 on their contents, where the results about registrations, checks and stores are proved.
 */
module WriteGuardTables {
  import opened AddressSpace
  import opened Wrappers
  import opened WriteGuard

  class ExecutableWriteGuard {
    const pages: array<bool>
    const mid: array<bool>
    const coarse: array<bool>
    const fullBias: array<Option<int>>
    const writableBias: array<Option<int>>
    const sparse: array<Option<seq<Option<int>>>>
    const table: seq<Entry>
    var enabled: bool
    var ranges: seq<Range>

    ghost predicate Valid()
      reads sparse
    {
      && pages.Length == PAGES && mid.Length == MID_PAGES && coarse.Length == COARSE_PAGES
      && fullBias.Length == writableBias.Length == sparse.Length == |table| == COARSE_PAGES
      && pages != mid && pages != coarse && mid != coarse && fullBias != writableBias
      && forall c :: 0 <= c < COARSE_PAGES && sparse[c].Some? ==> |sparse[c].value| == SUB_PAGES
    }

    ghost function View(): (g: Guard)
      requires Valid()
      reads this, pages, mid, coarse, fullBias, writableBias, sparse
      ensures Shaped(g)
    {
      Guard(enabled, ranges, pages[..], mid[..], coarse[..], table, fullBias[..], writableBias[..], sparse[..])
    }

    constructor (pageTable: seq<Entry>)
      requires PageTable(pageTable)
      ensures Valid() && View() == Fresh(pageTable) && Agrees(View()) && FastPathSafe(View())
      ensures fresh(pages) && fresh(mid) && fresh(coarse) && fresh(fullBias) && fresh(writableBias) && fresh(sparse)
    {
      hide BiasOf;
      table := pageTable;
      enabled, ranges := false, [];
      pages := new bool[PAGES](_ => false);
      mid := new bool[MID_PAGES](_ => false);
      coarse := new bool[COARSE_PAGES](_ => false);
      fullBias := new Option<int>[COARSE_PAGES](c requires 0 <= c < |pageTable| == COARSE_PAGES =>
        BiasOf(pageTable, c));
      writableBias := new Option<int>[COARSE_PAGES](c requires 0 <= c < |pageTable| == COARSE_PAGES =>
        BiasOf(pageTable, c));
      sparse := new Option<seq<Option<int>>>[COARSE_PAGES](_ => None);
      new;
      ghost var g := Fresh(pageTable);
      assert pages[..] == g.pages && mid[..] == g.mid && coarse[..] == g.coarse;
      assert fullBias[..] == g.fullBias && writableBias[..] == g.writableBias && sparse[..] == g.sparse;
      hide Agrees, FastPathSafe;
      FreshIsGood(pageTable);
    }

    /** Sets the bits of the pages a range touches. */
    static method SetPages(bits: array<bool>, r: Range, size: nat)
      requires size in {PAGE, MID_PAGE, COARSE_PAGE} && bits.Length == ADDRESSES / size && r.start < r.end
      modifies bits
      ensures bits[..] == Marked(old(bits[..]), r, size)
    {
      var first, last := r.start / size, (r.end - 1) / size;
      LastPageFits(r.end - 1, size);
      ghost var was := bits[..];
      var page := first;
      while page <= last
        invariant first <= page
        invariant page <= last + 1
        invariant forall p :: 0 <= p < bits.Length ==> bits[p] == (was[p] || first <= p < page)
      {
        bits[page] := true;
        page := page + 1;
      }
      assert bits[..] == Marked(was, r, size);
    }

    method ClearBiases(r: Range)
      requires Valid() && r.start < r.end
      modifies writableBias
      ensures writableBias[..] == Cleared(old(writableBias[..]), r)
    {
      var first, last := r.start / COARSE_PAGE, (r.end - 1) / COARSE_PAGE;
      LastPageFits(r.end - 1, COARSE_PAGE);
      ghost var was := writableBias[..];
      var page := first;
      while page <= last
        invariant first <= page
        invariant page <= last + 1
        invariant forall c :: 0 <= c < COARSE_PAGES ==> writableBias[c] == if first <= c < page then None else was[c]
      {
        writableBias[page] := None;
        page := page + 1;
      }
      assert writableBias[..] == Cleared(was, r);
    }

    method AddExecutableRange(r: Range)
      requires Valid()
      modifies this, pages, mid, coarse, writableBias
      ensures Valid() && View() == AddRange(old(View()), r)
    {
      hide Marked, Cleared;
      if r.end <= r.start { return; }
      if r in ranges { return; }
      ranges := ranges + [r];
      SetPages(pages, r, PAGE);
      SetPages(coarse, r, COARSE_PAGE);
      ClearBiases(r);
      SetPages(mid, r, MID_PAGE);
      enabled := true;
    }

    method AddBankAliases(b: Bank, r: Range)
      requires Valid() && b in {MEM1, MEM2}
      modifies this, pages, mid, coarse, writableBias
      ensures Valid() && View() == AddAliases(old(View()), b, r)
    {
      hide AddRange;
      if r.end <= r.start { return; }
      var at := OffsetIn(b, r);
      if at.None? { return; }
      var offset, length := at.value, r.end - r.start;
      if offset + length > b.size { return; }
      AddExecutableRange(Range(b.cached + offset, b.cached + offset + length, r.name + " [cached]"));
      AddExecutableRange(Range(b.uncached + offset, b.uncached + offset + length, r.name + " [uncached]"));
    }

    /** The sub-page table of one mixed coarse page, if it needs one. */
    method BuildSubTable(c: nat) returns (sub: Option<seq<Option<int>>>)
      requires Valid() && c < COARSE_PAGES
      ensures sub == RefreshedSparse(View(), c)
    {
      if !coarse[c] || fullBias[c].None? { return None; }
      var biases: seq<Option<int>> := [];
      var hasExecutable, hasWritable := false, false;
      ghost var bits := pages[..][c * SUB_PAGES..(c + 1) * SUB_PAGES];
      for k := 0 to SUB_PAGES
        invariant biases == SubTable(View(), c)[..k]
        invariant hasExecutable <==> true in bits[..k]
        invariant hasWritable <==> false in bits[..k]
      {
        var executable := pages[c * SUB_PAGES + k];
        assert bits[k] == executable && bits[..k + 1] == bits[..k] + [bits[k]];
        hasExecutable := hasExecutable || executable;
        hasWritable := hasWritable || !executable;
        biases := biases + [if executable then None else fullBias[c]];
      }
      assert bits[..SUB_PAGES] == bits && SubTable(View(), c)[..SUB_PAGES] == SubTable(View(), c);
      return if hasExecutable && hasWritable then Some(biases) else None;
    }

    method RefreshFastPathTables()
      requires Valid()
      modifies writableBias, sparse
      ensures Valid() && View() == Refresh(old(View()))
    {
      hide RefreshedSparse, RefreshedBias, BiasOf;
      ghost var g := View();
      for page := 0 to COARSE_PAGES
        invariant Valid() && View() == g.(writableBias := writableBias[..], sparse := sparse[..])
        invariant forall c: nat :: c < page ==> writableBias[c] == RefreshedBias(g, c)
        invariant forall c: nat :: c < page ==> sparse[c] == RefreshedSparse(g, c)
      {
        BiasOfPage(g, page);
        var sub := BuildSubTable(page);
        SameSubTable(g, View(), page);
        writableBias[page] := if coarse[page] then None else fullBias[page];
        sparse[page] := sub;
      }
      assert writableBias[..] == Refresh(g).writableBias && sparse[..] == Refresh(g).sparse;
    }

    method RegisterExecutableRange(r: Range)
      requires Valid()
      modifies this, pages, mid, coarse, writableBias, sparse
      ensures Valid() && View() == Register(old(View()), r)
      ensures old(Agrees(View()) && FastPathSafe(View())) ==> Agrees(View()) && FastPathSafe(View())
    {
      hide Agrees, FastPathSafe, AddRange, AddAliases, Refresh;
      if old(Agrees(View()) && FastPathSafe(View())) {
        RegisterKeepsAgreement(old(View()), r);
      }
      if r.end <= r.start { return; }
      AddExecutableRange(r);
      AddBankAliases(MEM1, r);
      AddBankAliases(MEM2, r);
      RefreshFastPathTables();
    }

    static method ScanPages(bits: array<bool>, address: Address, length: nat, size: nat) returns (hit: bool)
      requires length > 0 && size in {PAGE, MID_PAGE, COARSE_PAGE} && bits.Length == ADDRESSES / size
      ensures hit == AnyPage(bits[..], address, length, size)
    {
      LastPageFits(address, size);
      var page, last := address / size, LastPage(address, length, size, bits.Length);
      hit := false;
      while page <= last
        invariant address / size <= page
        invariant forall p :: address / size <= p < page && p <= last ==> !bits[p]
      {
        if bits[page] {
          assert bits[..][page];
          return true;
        }
        page := page + 1;
      }
    }

    /** The hierarchical check: coarse, then mid, then exact pages. */
    method MayHit(address: Address, length: nat) returns (hit: bool)
      requires Valid() && Agrees(View())
      ensures hit == FlatHit(View(), address, length)
    {
      hide Agrees, AnyPage, LastPage;
      if length == 0 || !enabled { return false; }
      if AnyPage(View().pages, address, length, PAGE) {
        CoarserScanMissesNothing(View(), address, length);
      }
      var coarseHit := ScanPages(coarse, address, length, COARSE_PAGE);
      if !coarseHit { return false; }
      var midHit := ScanPages(mid, address, length, MID_PAGE);
      if !midHit { return false; }
      hit := ScanPages(pages, address, length, PAGE);
    }

    method FindExecutableRange(address: Address, length: nat) returns (hit: Option<Range>)
      ensures hit == FirstHit(ranges, address, length)
    {
      for i := 0 to |ranges|
        invariant FirstHit(ranges, address, length) == FirstHit(ranges[i..], address, length)
      {
        if Intersects(address, length, ranges[i]) { return Some(ranges[i]); }
        assert ranges[i..][1..] == ranges[i + 1..];
      }
      return None;
    }

    /** The range a write is refused for: for a real write, the first registered range it meets. */
    method CheckExecutableWrite(address: Address, length: nat) returns (refused: Option<Range>)
      requires Valid() && Agrees(View())
      ensures refused == if length == 0 then None else FirstHit(ranges, address, length)
    {
      hide Agrees, FlatHit;
      var mayHit := MayHit(address, length);
      if length > 0 { GateIsExact(View(), address, length); }
      if !mayHit {
        return None;
      }
      NothingToHit(View(), address, length);
      refused := FindExecutableRange(address, length);
    }

    method TryGetWritablePointer(address: Address, length: nat) returns (pointer: Option<int>)
      requires Valid()
      ensures pointer == WritablePointer(View(), address, length)
    {
      pointer := None;
      if length == 0 || length > MAX_SCALAR || address > ADDRESSES - 1 - (length - 1) { return None; }
      var c := address / COARSE_PAGE;
      var bias := writableBias[c];
      var end := address + length - 1;
      var first, last := address / PAGE, end / PAGE;
      if bias.Some? && end / COARSE_PAGE != c && pages[last] { return None; }
      if bias.None? {
        if sparse[c].Some? {
          bias := sparse[c].value[address % COARSE_PAGE / PAGE];
          if bias.None? { return None; }
        } else {
          var offset := address % COARSE_PAGE;
          var entry := table[c];
          if entry.base.None? || offset + length > entry.limit { return None; }
          pointer := Some(entry.base.value + offset);
        }
        if pages[first] || (last != first && pages[last]) { return None; }
        if pointer.Some? { return pointer; }
      }
      return Some(bias.value + address);
    }

    /** The host pointer a scalar store writes through, if it may take the fast path. */
    method TryWriteGuestScalar(address: Address, length: nat) returns (pointer: Option<int>)
      requires Valid() && 1 <= length <= MAX_SCALAR
      ensures pointer == ScalarPointer(View(), address, length)
    {
      hide WritablePointer;
      if address > ADDRESSES - 1 - (length - 1) { return None; }
      var c := address / COARSE_PAGE;
      if (address + length - 1) / COARSE_PAGE != c { return None; }
      var bias := writableBias[c];
      if bias.Some? { return Some(bias.value + address); }
      pointer := TryGetWritablePointer(address, length);
    }
  }

  lemma {:induction false} LastPageFits(a: nat, size: nat)
    requires a < ADDRESSES && size in {PAGE, MID_PAGE, COARSE_PAGE}
    ensures a / size < ADDRESSES / size
  {
  }

  lemma {:induction false} BiasOfPage(g: Guard, c: nat)
    requires Shaped(g) && c < COARSE_PAGES
    ensures RefreshedBias(g, c) == if g.coarse[c] then None else g.fullBias[c]
  {
  }

  lemma {:induction false} SameSubTable(g: Guard, h: Guard, c: nat)
    requires Shaped(g) && Shaped(h) && c < COARSE_PAGES
    requires h.pages == g.pages && h.coarse == g.coarse && h.fullBias == g.fullBias
    ensures RefreshedSparse(h, c) == RefreshedSparse(g, c)
  {
  }

  lemma {:induction false} NothingToHit(g: Guard, address: Address, length: nat)
    requires Agrees(g) && FlatHit(g, address, length)
    ensures length > 0
  {
  }
}
