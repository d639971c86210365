/** Finding the host entry of a guest address. */
module IndirectDispatch {
  import opened AddressSpace
  import opened Wrappers
  import opened FunctionRegistry

  // There is a paged table generated by the translator, an overlay of native replacements, and
  // direct-mapped memos in front of both. Finalization validates the table against the registry;
  // afterwards every lookup must agree with the registry's winner.

  const ALL_NONVOLATILE_FPRS: bv32 := 0xffffc000
  const OS_LOAD_CONTEXT := 0x801A1F58
  const MEMO_ENTRIES := 512

  datatype RawRecord = RawRecord(address: nat, entry: Entry, fprWriteMask: bv32, preserveGprs: bool)

  function FprGuardMask(f: FunctionInfo): bv32 {
    if f.fprWriteMask == 0 then 0 else f.fprWriteMask & ALL_NONVOLATILE_FPRS
  }

  predicate PreservesGprs(f: FunctionInfo) { f.kind == Native && f.address != OS_LOAD_CONTEXT }

  /** The dispatch record that calls f with f's own register guards. */
  function RawOf(f: FunctionInfo): RawRecord {
    RawRecord(f.address, f.invoker, FprGuardMask(f), PreservesGprs(f))
  }

  // ---------------------------------------------------------------- the generated table

  datatype Page = Page(firstEntry: nat, entryCount: nat)

  /** `pages` is empty when the segment has no page array. */
  datatype Segment = Segment(pages: seq<Page>, firstPage: nat)

  /** Segments are indexed by the high address byte; an absent array is empty. */
  datatype Table = Table(named: bool, segments: seq<Segment>, entries: seq<RawRecord>) {
    predicate Shaped() {
      && (|segments| == 0 || |segments| == 256)
      && forall i :: 0 <= i < |entries| ==> entries[i].address < ADDRESSES
    }
  }

  /** Where the halving search of entries[lower..upper] for the address stops, sorted or not. */
  function LowerBound(entries: seq<RawRecord>, address: nat, lower: nat, upper: nat): (r: nat)
    requires lower <= upper <= |entries|
    ensures lower <= r <= upper
    decreases upper - lower
  {
    if lower == upper then lower
    else
      var middle := lower + (upper - lower) / 2;
      if entries[middle].address < address then LowerBound(entries, address, middle + 1, upper)
      else LowerBound(entries, address, lower, middle)
  }

  ghost predicate Ascending(s: seq<RawRecord>) {
    forall i, j :: 0 <= i < j < |s| ==> s[i].address < s[j].address
  }

  /** On ascending entries the search separates the smaller addresses from the others. */
  lemma {:induction false} LowerBoundSplits(entries: seq<RawRecord>, address: nat, lower: nat, upper: nat)
    requires Ascending(entries) && lower <= upper <= |entries|
    ensures var r := LowerBound(entries, address, lower, upper);
            forall i :: lower <= i < upper ==> (i < r <==> entries[i].address < address)
    decreases upper - lower
  {
    if lower < upper {
      var middle := lower + (upper - lower) / 2;
      var r := LowerBound(entries, address, lower, upper);
      var below := entries[middle].address < address;
      if below {
        LowerBoundSplits(entries, address, middle + 1, upper);
      } else {
        LowerBoundSplits(entries, address, lower, middle);
      }
      forall i | lower <= i < upper ensures i < r <==> entries[i].address < address {
        if i < middle {
          assert entries[i].address < entries[middle].address;
        } else if i > middle {
          assert entries[middle].address < entries[i].address;
        }
      }
    }
  }

  /** The position of the table record that the paged search finds for an address. */
  function StaticIndex(table: Option<Table>, address: nat): (r: Option<nat>)
    requires address < ADDRESSES && (table.Some? ==> table.value.Shaped())
    ensures r.Some? ==> && table.Some? && r.value < |table.value.entries|
                        && table.value.entries[r.value].address == address
  {
    if table.None? || |table.value.segments| == 0 || |table.value.entries| == 0 then None
    else
      var entries := table.value.entries;
      var segment := table.value.segments[address / 0x100_0000];
      var pageNumber := address / 0x1000 % 0x1000;
      if pageNumber < segment.firstPage || pageNumber - segment.firstPage >= |segment.pages| then None
      else
        var page := segment.pages[pageNumber - segment.firstPage];
        if page.firstEntry > |entries| || page.entryCount > |entries| - page.firstEntry then None
        else
          var end := page.firstEntry + page.entryCount;
          var found := LowerBound(entries, address, page.firstEntry, end);
          if found < end && entries[found].address == address then Some(found) else None
  }

  /** Record i is listed on the page of its own address: top byte the segment, the next 12 bits the page. */
  predicate Listed(table: Table, i: nat)
    requires |table.segments| == 256 && i < |table.entries| && table.entries[i].address < 0x1_0000_0000
  {
    var address := table.entries[i].address;
    var segment, page := table.segments[address / 0x100_0000], address % 0x100_0000 / 0x1000;
    && segment.firstPage <= page < segment.firstPage + |segment.pages|
    && var p := segment.pages[page - segment.firstPage];
       p.firstEntry <= i < p.firstEntry + p.entryCount <= |table.entries|
  }

  /** Halving part of ascending entries finds entry i exactly if it lies in that part. */
  lemma {:induction false} FoundInPart(entries: seq<RawRecord>, i: nat, first: nat, end: nat)
    requires Ascending(entries) && i < |entries| && first <= end <= |entries|
    ensures var r := LowerBound(entries, entries[i].address, first, end);
            r < end && entries[r].address == entries[i].address <==> first <= i < end && r == i
    ensures var r := LowerBound(entries, entries[i].address, first, end);
            first <= i < end ==> r == i
  {
    hide LowerBound;
    assert forall k :: 0 <= k < i ==> entries[k].address < entries[i].address;
    assert forall k :: i < k < |entries| ==> entries[i].address < entries[k].address;
    LowerBoundSplits(entries, entries[i].address, first, end);
  }

  lemma {:induction false} PageOfAddress(address: Address)
    ensures address / 0x1000 % 0x1000 == address % 0x100_0000 / 0x1000
  {
  }

  /** In an ascending table the search finds exactly the records listed on the page of their address. */
  lemma {:induction false} ListedIsFound(table: Table, i: nat)
    requires |table.segments| == 256 && i < |table.entries| && Ascending(table.entries)
    requires forall k :: 0 <= k < |table.entries| ==> table.entries[k].address < 0x1_0000_0000
    ensures StaticIndex(Some(table), table.entries[i].address) == Some(i) <==> Listed(table, i)
  {
    hide LowerBound, Ascending;
    var entries, address := table.entries, table.entries[i].address;
    var segment := table.segments[address / 0x100_0000];
    var pageNumber := address / 0x1000 % 0x1000;
    PageOfAddress(address);
    if segment.firstPage <= pageNumber < segment.firstPage + |segment.pages| {
      var page := segment.pages[pageNumber - segment.firstPage];
      if page.firstEntry + page.entryCount <= |entries| {
        FoundInPart(entries, i, page.firstEntry, page.firstEntry + page.entryCount);
      }
    }
  }

  /** So when every record is listed, the table answers exactly its own records. */
  lemma {:induction false} WellBuiltTableIsComplete(table: Table, address: nat)
    requires |table.segments| == 256 && Ascending(table.entries) && address < 0x1_0000_0000
    requires forall k :: 0 <= k < |table.entries| ==> table.entries[k].address < 0x1_0000_0000
    requires forall i: nat :: i < |table.entries| ==> Listed(table, i)
    ensures forall i: nat :: StaticIndex(Some(table), address) == Some(i) <==>
              i < |table.entries| && table.entries[i].address == address
  {
    hide LowerBound, Listed;
    forall i: nat | i < |table.entries| && table.entries[i].address == address
      ensures StaticIndex(Some(table), address) == Some(i)
    {
      ListedIsFound(table, i);
    }
  }

  /** The paged lookup: segment, page, then a halving search inside the page. */
  method FindStaticIndirectDispatchEntry(table: Option<Table>, address: nat) returns (r: Option<nat>)
    requires address < ADDRESSES && (table.Some? ==> table.value.Shaped())
    ensures r == StaticIndex(table, address)
  {
    if table.None? || |table.value.segments| == 0 || |table.value.entries| == 0 {
      return None;
    }
    var entries := table.value.entries;
    var segment := table.value.segments[address / 0x100_0000];
    var pageNumber := address / 0x1000 % 0x1000;
    if pageNumber < segment.firstPage {
      return None;
    }
    var relativePage := pageNumber - segment.firstPage;
    if relativePage >= |segment.pages| {
      return None;
    }
    var page := segment.pages[relativePage];
    if page.firstEntry > |entries| || page.entryCount > |entries| - page.firstEntry {
      return None;
    }
    hide LowerBound;
    var end := page.firstEntry + page.entryCount;
    var lower := SearchPage(entries, address, page.firstEntry, end);
    return if lower < end && entries[lower].address == address then Some(lower) else None;
  }

  /** The halving loop over the entries of one page. */
  method SearchPage(entries: seq<RawRecord>, address: nat, first: nat, end: nat) returns (lower: nat)
    requires first <= end <= |entries|
    ensures lower == LowerBound(entries, address, first, end)
  {
    var upper := end;
    lower := first;
    while lower < upper
      invariant first <= lower <= upper <= end
      invariant LowerBound(entries, address, lower, upper) == LowerBound(entries, address, first, end)
    {
      var middle := lower + (upper - lower) / 2;
      if entries[middle].address < address {
        lower := middle + 1;
      } else {
        upper := middle;
      }
    }
  }

  // ---------------------------------------------------------------- the native overlay

  function OverlayFind(overlay: seq<RawRecord>, address: nat): Option<RawRecord> {
    var i := LowerBound(overlay, address, 0, |overlay|);
    if i < |overlay| && overlay[i].address == address then Some(overlay[i]) else None
  }

  lemma {:induction false} OverlayFindIsExact(overlay: seq<RawRecord>, address: nat)
    requires Ascending(overlay)
    ensures forall r :: OverlayFind(overlay, address) == Some(r) <==> r in overlay && r.address == address
  {
    LowerBoundSplits(overlay, address, 0, |overlay|);
    forall r | r in overlay && r.address == address ensures OverlayFind(overlay, address) == Some(r) {
      var i :| 0 <= i < |overlay| && overlay[i] == r;
    }
  }

  predicate DistinctAddresses(s: seq<RawRecord>) {
    forall i, j :: 0 <= i < j < |s| ==> s[i].address != s[j].address
  }

  function Insert(r: RawRecord, s: seq<RawRecord>): (t: seq<RawRecord>) {
    if s == [] || r.address < s[0].address then [r] + s else [s[0]] + Insert(r, s[1..])
  }

  /** The library sort by address, as an insertion sort. */
  function SortByAddress(s: seq<RawRecord>): seq<RawRecord> {
    if s == [] then [] else Insert(s[0], SortByAddress(s[1..]))
  }

  lemma {:induction false} InsertKeepsOrder(r: RawRecord, s: seq<RawRecord>)
    requires Ascending(s) && forall x :: x in s ==> x.address != r.address
    ensures Ascending(Insert(r, s)) && forall x :: x in Insert(r, s) <==> x == r || x in s
  {
    if s != [] && r.address >= s[0].address {
      var rest := Insert(r, s[1..]);
      InsertKeepsOrder(r, s[1..]);
      assert s == [s[0]] + s[1..];
      forall x | x in rest ensures s[0].address < x.address {
        if x != r {
          assert x in s[1..];
        }
      }
      AscendingFrom(s[0], rest);
    } else {
      forall x | x in s ensures r.address < x.address {
        FirstIsLeast(s, x);
      }
      AscendingFrom(r, s);
    }
  }

  lemma {:induction false} AscendingFrom(x: RawRecord, s: seq<RawRecord>)
    requires Ascending(s) && forall y :: y in s ==> x.address < y.address
    ensures Ascending([x] + s)
  {
    assert ([x] + s)[1..] == s;
  }

  lemma {:induction false} FirstIsLeast(s: seq<RawRecord>, x: RawRecord)
    requires Ascending(s) && x in s
    ensures s[0].address <= x.address
  {
    var i :| 0 <= i < |s| && s[i] == x;
  }

  lemma {:induction false} SortIsAscending(s: seq<RawRecord>)
    requires DistinctAddresses(s)
    ensures Ascending(SortByAddress(s)) && forall x :: x in SortByAddress(s) <==> x in s
  {
    if s != [] {
      SortIsAscending(s[1..]);
      assert s == [s[0]] + s[1..];
      InsertKeepsOrder(s[0], SortByAddress(s[1..]));
    }
  }

  // ---------------------------------------------------------------- consistency and agreement

  /** The winner goes to the overlay: the generated table, when there is one, covers translated winners. */
  predicate InOverlay(w: FunctionInfo, table: Option<Table>) {
    w.invoker != 0 && w.dynamicallyDispatchable && (table.None? || w.kind == Native)
  }

  ghost predicate OverlayExact(entries: seq<FunctionInfo>, table: Option<Table>, overlay: seq<RawRecord>) {
    && Ascending(overlay)
    && (forall w :: IsWinner(entries, w) && InOverlay(w, table) ==> RawOf(w) in overlay)
    && (forall r :: r in overlay ==>
          exists w :: IsWinner(entries, w) && InOverlay(w, table) && r == RawOf(w)
                      && w.invoker != 0 && w.dynamicallyDispatchable && (table.None? || w.kind == Native))
  }

  /** The table record agrees with the winner of its address, or is shadowed by a native one in the overlay. */
  predicate Matches(record: RawRecord, w: FunctionInfo, table: Option<Table>) {
    if w.kind == Native then InOverlay(w, table)
    else w.invoker == record.entry && FprGuardMask(w) == record.fprWriteMask && !record.preserveGprs
  }

  /** Record i of the table is well formed, findable, and agrees with the registry. */
  ghost predicate RecordConsistent(entries: seq<FunctionInfo>, table: Table, i: nat)
    requires i < |table.entries| && table.Shaped()
  {
    var record := table.entries[i];
    && record.address % 4 == 0 && record.entry != 0
    && (i > 0 ==> table.entries[i-1].address < record.address)
    && StaticIndex(Some(table), record.address) == Some(i)
    && exists w :: IsWinner(entries, w) && w.address == record.address && Matches(record, w, Some(table))
  }

  /** No translated winner with an invoker is missing from the table. */
  ghost predicate CoversTranslated(entries: seq<FunctionInfo>, table: Table)
    requires table.Shaped()
  {
    forall w :: IsWinner(entries, w) ==> Covered(w, table)
  }

  predicate Covered(w: FunctionInfo, table: Table)
    requires table.Shaped()
  {
    w.address < ADDRESSES && w.kind != Native && w.invoker != 0 ==> StaticIndex(Some(table), w.address).Some?
  }

  ghost predicate TableConsistent(entries: seq<FunctionInfo>, table: Option<Table>)
    requires table.Some? ==> table.value.Shaped()
  {
    table.Some? ==>
      && table.value.named && |table.value.segments| != 0 && |table.value.entries| != 0
      && (forall i :: 0 <= i < |table.value.entries| ==> RecordConsistent(entries, table.value, i))
      && CoversTranslated(entries, table.value)
  }

  /** The raw lookup behind the memo: overlay first, then the generated table. */
  function RawSlow(overlay: seq<RawRecord>, table: Option<Table>, address: nat): Option<RawRecord>
    requires address < ADDRESSES && (table.Some? ==> table.value.Shaped())
  {
    if OverlayFind(overlay, address).Some? then OverlayFind(overlay, address)
    else
      var i := StaticIndex(table, address);
      if i.Some? then Some(table.value.entries[i.value]) else None
  }

  /** Which winners a raw dispatch reaches. */
  predicate RawDispatchable(w: FunctionInfo, table: Option<Table>) {
    w.invoker != 0 && (w.dynamicallyDispatchable || (table.Some? && w.kind != Native))
  }

  /**
   Dispatch agreement. Once finalization has accepted the table, the raw lookup of an address
   returns the priority winner with its own entry and register guards when that winner can be
   dispatched raw, and nothing in every other case. In particular it never misses a translated
   winner with an invoker when a generated table is linked.
   */
  lemma {:induction false} RawLookupAgreesWithWinner(entries: seq<FunctionInfo>, table: Option<Table>,
                                                     overlay: seq<RawRecord>, w: FunctionInfo)
    requires table.Some? ==> table.value.Shaped()
    requires TableConsistent(entries, table) && OverlayExact(entries, table, overlay)
    requires IsWinner(entries, w) && w.address < ADDRESSES
    ensures RawSlow(overlay, table, w.address) == if RawDispatchable(w, table) then Some(RawOf(w)) else None
  {
    var a := w.address;
    OverlayFindIsExact(overlay, a);
    if OverlayFind(overlay, a).Some? {
      var r := OverlayFind(overlay, a).value;
      var v :| IsWinner(entries, v) && InOverlay(v, table) && r == RawOf(v);
      WinnerIsUnique(entries, v, w);
    } else {
      assert !InOverlay(w, table);
      var i := StaticIndex(table, a);
      if i.Some? {
        assert RecordConsistent(entries, table.value, i.value);
        var v :| IsWinner(entries, v) && v.address == a && Matches(table.value.entries[i.value], v, table);
        WinnerIsUnique(entries, v, w);
      }
    }
  }

  /** An address nobody registered is never dispatched raw. */
  lemma {:induction false} RawLookupOfUnknownAddress(entries: seq<FunctionInfo>, table: Option<Table>,
                                                     overlay: seq<RawRecord>, address: nat)
    requires table.Some? ==> table.value.Shaped()
    requires TableConsistent(entries, table) && OverlayExact(entries, table, overlay)
    requires address < ADDRESSES && forall f :: f in entries ==> f.address != address
    ensures RawSlow(overlay, table, address) == None
  {
    OverlayFindIsExact(overlay, address);
    assert forall r :: r in overlay ==> r.address != address;
    TableEntryIsRegistered(entries, table, address);
  }

  lemma {:induction false} TableEntryIsRegistered(entries: seq<FunctionInfo>, table: Option<Table>, address: nat)
    requires table.Some? ==> table.value.Shaped()
    requires TableConsistent(entries, table) && address < ADDRESSES
    ensures StaticIndex(table, address).Some? ==> exists f :: f in entries && f.address == address
  {
    var i := StaticIndex(table, address);
    if i.Some? {
      assert RecordConsistent(entries, table.value, i.value);
    }
  }

  // ---------------------------------------------------------------- the registry

  datatype ValidationError =
    | InvalidTable
    | MalformedEntry(index: nat)
    | Unregistered(address: nat)
    | MissingNativeOverlay(address: nat)
    | StaleWinner(address: nat)
    | OmittedWinner(address: nat)

  datatype RawMemo = RawMemo(valid: bool, address: nat, record: Option<RawRecord>)
  datatype InfoMemo = InfoMemo(valid: bool, address: nat, info: Option<FunctionInfo>)

  /** The candidates of an address are exactly the positions registered for it. */
  ghost predicate CandidatesExact(entries: seq<FunctionInfo>, candidates: map<nat, seq<nat>>) {
    && (forall i: nat :: i < |entries| ==>
          entries[i].address in candidates && i in candidates[entries[i].address])
    && (forall a: nat, k: nat :: a in candidates && k < |candidates[a]| ==>
          candidates[a][k] < |entries| && entries[candidates[a][k]].address == a)
  }

  function WithCandidate(candidates: map<nat, seq<nat>>, address: nat, n: nat): map<nat, seq<nat>> {
    candidates[address := (if address in candidates then candidates[address] else []) + [n]]
  }

  lemma {:induction false} CandidatesGrow(entries: seq<FunctionInfo>, candidates: map<nat, seq<nat>>, f: FunctionInfo)
    requires CandidatesExact(entries, candidates)
    ensures CandidatesExact(entries + [f], WithCandidate(candidates, f.address, |entries|))
  {
    var grown := WithCandidate(candidates, f.address, |entries|);
    forall i: nat | i < |entries| + 1
      ensures (entries + [f])[i].address in grown && i in grown[(entries + [f])[i].address]
    {
      if i == |entries| {
        assert grown[f.address][|grown[f.address]|-1] == i;
      }
    }
  }

  /** The memo slot of an address; the multiplier scatters neighbouring entry points. */
  function MemoSlot(address: nat): (slot: nat)
    ensures slot < MEMO_ENTRIES
  {
    (address / 4 * 2654435761) % MEMO_ENTRIES
  }

  /** The registry state, memos apart: the index is exact, and a frozen registry has passed validation. */
  ghost predicate Sound(entries: seq<FunctionInfo>, index: map<nat, nat>, candidates: map<nat, seq<nat>>,
                        overlay: seq<RawRecord>, table: Option<Table>, frozen: bool)
  {
    && DistinctKeys(entries) && IndexExact(entries, index)
    && (forall i :: 0 <= i < |entries| ==> entries[i].address < ADDRESSES)
    && (!frozen ==> CandidatesExact(entries, candidates))
    && (table.Some? ==> table.value.Shaped())
    && (frozen ==> TableConsistent(entries, table) && OverlayExact(entries, table, overlay))
  }

  /** The registered winner of an address, read off the index. */
  function Winner(entries: seq<FunctionInfo>, index: map<nat, nat>, address: nat): Option<FunctionInfo>
    requires address in index ==> index[address] < |entries|
  {
    if address in index then Some(entries[index[address]]) else None
  }

  /** A filled memo slot repeats what the slow lookup says, and none is filled before finalization. */
  ghost predicate RawMemoTrue(m: RawMemo, frozen: bool, overlay: seq<RawRecord>, table: Option<Table>)
    requires table.Some? ==> table.value.Shaped()
  {
    m.valid ==> frozen && m.address < ADDRESSES && m.record == RawSlow(overlay, table, m.address)
  }

  ghost predicate InfoMemoTrue(m: InfoMemo, frozen: bool, entries: seq<FunctionInfo>, index: map<nat, nat>)
    requires IndexExact(entries, index)
  {
    m.valid ==> frozen && m.info == Winner(entries, index, m.address)
  }

  /** What an indirect call runs: the raw record if it has an entry, else the resolved winner's invoker. */
  function IndirectCall(entries: seq<FunctionInfo>, index: map<nat, nat>, overlay: seq<RawRecord>, table: Option<Table>,
                        address: nat): Option<RawRecord>
    requires address < ADDRESSES && (table.Some? ==> table.value.Shaped())
    requires address in index ==> index[address] < |entries|
  {
    var raw := RawSlow(overlay, table, address);
    var resolved := Winner(entries, index, address);
    if raw.Some? && raw.value.entry != 0 then raw
    else if resolved.Some? && resolved.value.invoker != 0 then Some(RawOf(resolved.value))
    else None
  }

  /**
   The raw fast path cannot be observed: on a frozen registry an indirect call runs the winner's
   invoker whenever the winner has one, and otherwise falls through to the dynamic modules. Guarded are the
   nonvolatile registers, f14 to f31, that the winner writes, and the general-purpose ones around native code
   that is not the context loader.
   */
  lemma {:induction false} IndirectCallRunsWinner(entries: seq<FunctionInfo>, index: map<nat, nat>,
                                                  candidates: map<nat, seq<nat>>, overlay: seq<RawRecord>,
                                                  table: Option<Table>, address: nat)
    requires Sound(entries, index, candidates, overlay, table, true) && address < ADDRESSES
    ensures IndirectCall(entries, index, overlay, table, address) ==
              match Winner(entries, index, address)
              case Some(w) =>
                if w.invoker == 0 then None
                else Some(RawRecord(address, w.invoker, w.fprWriteMask & 0xffff_c000,
                                    w.kind == Native && address != 0x801A_1F58))
              case None => None
  {
    if address in index {
      RawLookupAgreesWithWinner(entries, table, overlay, entries[index[address]]);
    } else {
      forall f | f in entries ensures f.address != address {
        var i :| 0 <= i < |entries| && entries[i] == f;
        assert entries[i].address in index;
      }
      RawLookupOfUnknownAddress(entries, table, overlay, address);
    }
  }

  lemma {:induction false} RegisterKeepsSound(entries: seq<FunctionInfo>, index: map<nat, nat>,
                                              candidates: map<nat, seq<nat>>, overlay: seq<RawRecord>,
                                              table: Option<Table>, info: FunctionInfo)
    requires Sound(entries, index, candidates, overlay, table, false) && info.address < ADDRESSES
    requires !KeyTaken(entries, Normalized(info))
    ensures forall a :: a in index ==> index[a] < |entries|
    ensures Sound(Registered(entries, info), Indexed(Registered(entries, info), index),
                  WithCandidate(candidates, info.address, |entries|), overlay, table, false)
  {
    assert forall a :: a in index ==> index[a] < |entries|;
    hide CandidatesExact, WithCandidate, Indexed, IndexExact;
    CandidatesGrow(entries, candidates, Normalized(info));
    RegisteredKeepsKeys(entries, info);
    IndexedIsExact(entries, Normalized(info), index);
  }

  // ---------------------------------------------------------------- rebuilding the overlay

  lemma {:induction false} EmptyIndexIsExact()
    ensures IndexExact([], map[]) && CandidatesExact([], map[])
  {
  }

  lemma {:induction false} PrefixKeysDistinct(entries: seq<FunctionInfo>, n: nat)
    requires DistinctKeys(entries) && n <= |entries|
    ensures DistinctKeys(entries[..n])
  {
  }

  /** `pushed` holds the overlay records of the winners of the addresses in `done`, one each. */
  ghost predicate PushedExact(entries: seq<FunctionInfo>, index: map<nat, nat>, table: Option<Table>,
                              pushed: seq<RawRecord>, done: set<nat>)
    requires IndexExact(entries, index) && done <= index.Keys
  {
    && DistinctAddresses(pushed)
    && (forall r :: r in pushed ==>
          r.address in done && InOverlay(entries[index[r.address]], table) && r == RawOf(entries[index[r.address]]))
    && (forall a :: a in done && InOverlay(entries[index[a]], table) ==> RawOf(entries[index[a]]) in pushed)
  }

  lemma {:induction false} PushedStep(entries: seq<FunctionInfo>, index: map<nat, nat>, table: Option<Table>,
                                      pushed: seq<RawRecord>, done: set<nat>, a: nat)
    requires IndexExact(entries, index) && done <= index.Keys && a in index && a !in done
    requires PushedExact(entries, index, table, pushed, done)
    ensures PushedExact(entries, index, table,
                        if InOverlay(entries[index[a]], table) then pushed + [RawOf(entries[index[a]])] else pushed,
                        done + {a})
  {
    forall k | 0 <= k < |pushed| ensures pushed[k].address != a {
      assert pushed[k] in pushed;
    }
  }

  lemma {:induction false} SortedPushIsOverlay(entries: seq<FunctionInfo>, index: map<nat, nat>, table: Option<Table>,
                                               pushed: seq<RawRecord>)
    requires DistinctKeys(entries) && IndexExact(entries, index)
    requires PushedExact(entries, index, table, pushed, index.Keys)
    ensures OverlayExact(entries, table, SortByAddress(pushed))
  {
    SortIsAscending(pushed);
    forall w | IsWinner(entries, w) && InOverlay(w, table) ensures RawOf(w) in pushed {
      IndexHoldsWinner(entries, index, w);
    }
  }

  lemma {:induction false} IndexHoldsWinner(entries: seq<FunctionInfo>, index: map<nat, nat>, w: FunctionInfo)
    requires IndexExact(entries, index) && IsWinner(entries, w)
    ensures w.address in index && entries[index[w.address]] == w
  {
    var i :| 0 <= i < |entries| && entries[i] == w;
    assert entries[i].address in index;
    WinnerIsUnique(entries, w, entries[index[w.address]]);
  }

  // ---------------------------------------------------------------- validating the generated table

  /** What the validator checks of one record, read off the index and the overlay. */
  predicate RecordAccepted(entries: seq<FunctionInfo>, index: map<nat, nat>, overlay: seq<RawRecord>, table: Table,
                           i: nat)
    requires i < |table.entries| && table.Shaped()
    requires forall a :: a in index ==> index[a] < |entries|
  {
    var record := table.entries[i];
    && record.address % 4 == 0 && record.entry != 0
    && (i > 0 ==> table.entries[i-1].address < record.address)
    && StaticIndex(Some(table), record.address) == Some(i)
    && record.address in index
    && var w := entries[index[record.address]];
       if w.kind == Native then OverlayFind(overlay, record.address) == Some(RawOf(w))
       else w.invoker == record.entry && FprGuardMask(w) == record.fprWriteMask && !record.preserveGprs
  }

  lemma {:induction false} AcceptedMeansConsistent(entries: seq<FunctionInfo>, index: map<nat, nat>,
                                                   overlay: seq<RawRecord>, table: Table, i: nat)
    requires i < |table.entries| && table.Shaped()
    requires IndexExact(entries, index) && OverlayExact(entries, Some(table), overlay)
    ensures RecordAccepted(entries, index, overlay, table, i) <==> RecordConsistent(entries, table, i)
  {
    var a := table.entries[i].address;
    OverlayFindIsExact(overlay, a);
    if a in index {
      var w := entries[index[a]];
      assert IsWinner(entries, w);
      if OverlayFind(overlay, a) == Some(RawOf(w)) {
        var v :| IsWinner(entries, v) && InOverlay(v, Some(table)) && RawOf(w) == RawOf(v);
        WinnerIsUnique(entries, v, w);
      }
      if RecordConsistent(entries, table, i) {
        var v :| IsWinner(entries, v) && v.address == a && Matches(table.entries[i], v, Some(table));
        WinnerIsUnique(entries, v, w);
      }
    }
    ConsistentIsIndexed(entries, index, table, i);
  }

  lemma {:induction false} ConsistentIsIndexed(entries: seq<FunctionInfo>, index: map<nat, nat>, table: Table, i: nat)
    requires i < |table.entries| && table.Shaped() && IndexExact(entries, index)
    ensures RecordConsistent(entries, table, i) ==> table.entries[i].address in index
  {
    if RecordConsistent(entries, table, i) {
      var v :| IsWinner(entries, v) && v.address == table.entries[i].address
          && Matches(table.entries[i], v, Some(table));
      IndexHoldsWinner(entries, index, v);
    }
  }

  class Registry {
    var entries: seq<FunctionInfo>
    var addressIndex: map<nat, nat>
    var addressEntries: map<nat, seq<nat>>
    var overlay: seq<RawRecord>
    var table: Option<Table>
    var frozen: bool
    const rawMemo: array<RawMemo>
    const infoMemo: array<InfoMemo>

    ghost predicate Valid()
      reads this, rawMemo, infoMemo
    {
      && Sound(entries, addressIndex, addressEntries, overlay, table, frozen)
      && rawMemo.Length == infoMemo.Length == MEMO_ENTRIES
      && (forall k :: 0 <= k < MEMO_ENTRIES ==> RawMemoTrue(rawMemo[k], frozen, overlay, table))
      && (forall k :: 0 <= k < MEMO_ENTRIES ==> InfoMemoTrue(infoMemo[k], frozen, entries, addressIndex))
    }

    constructor ()
      ensures Valid() && entries == [] && table == None && !frozen
      ensures fresh(rawMemo) && fresh(infoMemo)
    {
      entries, addressIndex, addressEntries, overlay, table, frozen := [], map[], map[], [], None, false;
      rawMemo := new RawMemo[MEMO_ENTRIES](_ => RawMemo(false, 0, None));
      infoMemo := new InfoMemo[MEMO_ENTRIES](_ => InfoMemo(false, 0, None));
    }

    /** Looks for the key of f among the candidates of its address. */
    method HasSameRegistration(f: FunctionInfo) returns (found: bool)
      requires Valid() && !frozen
      ensures found <==> KeyTaken(entries, f)
    {
      if f.address !in addressEntries {
        return false;
      }
      var candidates := addressEntries[f.address];
      for k := 0 to |candidates|
        invariant forall j :: 0 <= j < k ==> candidates[j] < |entries| && !IsSameRegistration(entries[candidates[j]], f)
      {
        if IsSameRegistration(entries[candidates[k]], f) {
          return true;
        }
      }
      forall i | 0 <= i < |entries| ensures !IsSameRegistration(entries[i], f) {
        if entries[i].address == f.address {
          var j :| 0 <= j < |candidates| && candidates[j] == i;
        }
      }
      return false;
    }

    /** Registers one function; refused (the program aborts) once the registry is frozen. */
    method Register(info: FunctionInfo) returns (accepted: bool)
      requires Valid() && info.address < ADDRESSES
      modifies this`entries, this`addressIndex, this`addressEntries
      ensures Valid() && accepted == !frozen
      ensures entries == if accepted then Registered(old(entries), info) else old(entries)
    {
      if frozen {
        return false;
      }
      var f := Normalized(info);
      var duplicate := HasSameRegistration(f);
      if duplicate {
        return true;
      }
      hide Sound, IndexExact, Indexed, Normalized, KeyTaken, WithCandidate;
      RegisterKeepsSound(entries, addressIndex, addressEntries, overlay, table, info);
      var n := |entries|;
      entries := entries + [f];
      addressIndex := Indexed(entries, addressIndex);
      addressEntries := WithCandidate(addressEntries, info.address, n);
      return true;
    }

    /** Links the generated table; refused (the program aborts) once frozen, or if another one is linked. */
    method RegisterTable(generated: Table) returns (accepted: bool)
      requires Valid() && generated.Shaped()
      modifies this`table
      ensures Valid() && accepted == (!frozen && (old(table).None? || old(table) == Some(generated)))
      ensures table == if accepted then Some(generated) else old(table)
    {
      if frozen || (table.Some? && table != Some(generated)) {
        return false;
      }
      table := Some(generated);
      return true;
    }

    /** Rebuilds the index, the candidate lists and the overlay from the registered entries. */
    method RebuildIndices()
      requires Valid() && !frozen
      modifies this`addressIndex, this`addressEntries, this`overlay
      ensures Valid() && addressIndex == old(addressIndex)
      ensures OverlayExact(entries, table, overlay)
    {
      var index, candidates := IndexEntries(entries);
      IndexIsUnique(entries, index, addressIndex);
      var pushed := CollectOverlay(index);
      SortedPushIsOverlay(entries, index, table, pushed);
      addressIndex, addressEntries, overlay := index, candidates, SortByAddress(pushed);
    }

    /** Indexes every entry, later ones taking an address over when they are better. */
    static method IndexEntries(entries: seq<FunctionInfo>)
      returns (index: map<nat, nat>, candidates: map<nat, seq<nat>>)
      requires DistinctKeys(entries)
      ensures IndexExact(entries, index) && CandidatesExact(entries, candidates)
    {
      hide DistinctKeys, IndexExact, CandidatesExact, WithCandidate;
      index, candidates := map[], map[];
      EmptyIndexIsExact();
      for i := 0 to |entries|
        invariant forall a :: a in index ==> index[a] < i
        invariant IndexExact(entries[..i], index) && CandidatesExact(entries[..i], candidates)
      {
        var f := entries[i];
        assert entries[..i] + [f] == entries[..i+1];
        PrefixKeysDistinct(entries, i + 1);
        CandidatesGrow(entries[..i], candidates, f);
        IndexedIsExact(entries[..i], f, index);
        candidates := WithCandidate(candidates, f.address, i);
        if f.address !in index || IsBetterCandidate(f, entries[index[f.address]]) {
          index := index[f.address := i];
        }
      }
      assert entries[..|entries|] == entries;
    }

    /** Gathers the overlay records; the index is visited in no particular order. */
    method CollectOverlay(index: map<nat, nat>) returns (pushed: seq<RawRecord>)
      requires IndexExact(entries, index)
      ensures PushedExact(entries, index, table, pushed, index.Keys)
    {
      pushed := [];
      var rest := index.Keys;
      assert index.Keys - rest == {} && PushedExact(entries, index, table, pushed, {});
      hide PushedExact;
      while rest != {}
        invariant rest <= index.Keys && PushedExact(entries, index, table, pushed, index.Keys - rest)
        decreases |rest|
      {
        var a :| a in rest;
        PushedStep(entries, index, table, pushed, index.Keys - rest, a);
        assert index.Keys - (rest - {a}) == index.Keys - rest + {a};
        if InOverlay(entries[index[a]], table) {
          pushed := pushed + [RawOf(entries[index[a]])];
        }
        rest := rest - {a};
      }
      assert index.Keys - {} == index.Keys;
    }

    /** Checks the generated table against the registry; accepts exactly the consistent tables. */
    method ValidateGeneratedIndirectDispatch() returns (error: Option<ValidationError>)
      requires Valid() && OverlayExact(entries, table, overlay)
      ensures error.None? <==> TableConsistent(entries, table)
    {
      if table.None? {
        return None;
      }
      if !table.value.named || |table.value.segments| == 0 || |table.value.entries| == 0 {
        return Some(InvalidTable);
      }
      error := ValidateRecords(table.value);
      if error.None? {
        error := ValidateCoverage(table.value);
      }
    }

    method ValidateRecords(generated: Table) returns (error: Option<ValidationError>)
      requires Valid() && table == Some(generated) && OverlayExact(entries, table, overlay)
      ensures error.None? <==>
                forall i :: 0 <= i < |generated.entries| ==> RecordConsistent(entries, generated, i)
    {
      hide RecordConsistent, OverlayExact;
      var previousAddress := 0;
      for i := 0 to |generated.entries|
        invariant i > 0 ==> previousAddress == generated.entries[i-1].address
        invariant forall k :: 0 <= k < i ==> RecordConsistent(entries, generated, k)
      {
        AcceptedMeansConsistent(entries, addressIndex, overlay, generated, i);
        var record := generated.entries[i];
        var found := FindStaticIndirectDispatchEntry(table, record.address);
        if record.address % 4 != 0 || record.entry == 0 ||
           (i != 0 && record.address <= previousAddress) || found != Some(i) {
          return Some(MalformedEntry(i));
        }
        previousAddress := record.address;
        if record.address !in addressIndex {
          return Some(Unregistered(record.address));
        }
        var winner := entries[addressIndex[record.address]];
        if winner.kind == Native {
          if OverlayFind(overlay, record.address) != Some(RawOf(winner)) {
            return Some(MissingNativeOverlay(record.address));
          }
        } else if winner.invoker != record.entry || FprGuardMask(winner) != record.fprWriteMask ||
                  record.preserveGprs {
          return Some(StaleWinner(record.address));
        }
      }
      return None;
    }

    method ValidateCoverage(generated: Table) returns (error: Option<ValidationError>)
      requires Valid() && table == Some(generated)
      ensures error.None? <==> CoversTranslated(entries, generated)
    {
      var rest := addressIndex.Keys;
      while rest != {}
        invariant rest <= addressIndex.Keys
        invariant forall a :: a in addressIndex && a !in rest ==> Covered(entries[addressIndex[a]], generated)
        decreases |rest|
      {
        var a :| a in rest;
        var winner := entries[addressIndex[a]];
        var found := FindStaticIndirectDispatchEntry(table, a);
        if winner.kind != Native && winner.invoker != 0 && found.None? {
          assert IsWinner(entries, winner) && !Covered(winner, generated);
          return Some(OmittedWinner(a));
        }
        rest := rest - {a};
      }
      forall w | IsWinner(entries, w) ensures Covered(w, generated) {
        IndexHoldsWinner(entries, addressIndex, w);
      }
      return None;
    }

    /** Publishes the registry, once the generated table has passed; on an error nothing is published. */
    method Finalize() returns (error: Option<ValidationError>)
      requires Valid()
      modifies this`addressIndex, this`addressEntries, this`overlay, this`frozen
      ensures Valid() && addressIndex == old(addressIndex)
      ensures error.None? <==> old(frozen) || TableConsistent(entries, table)
      ensures frozen == (old(frozen) || error.None?)
    {
      if frozen {
        return None;
      }
      RebuildIndices();
      error := ValidateGeneratedIndirectDispatch();
      if error.None? {
        addressEntries := map[];
        frozen := true;
      }
    }

    /** The winner of an address, straight from the index. */
    method FindByAddressSlow(address: nat) returns (info: Option<FunctionInfo>)
      requires Valid()
      ensures info == Winner(entries, addressIndex, address)
    {
      if address in addressIndex {
        return Some(entries[addressIndex[address]]);
      }
      if frozen {
        return None;
      }
      info := FirstEntryAt(entries, address);
    }

    static method FirstEntryAt(entries: seq<FunctionInfo>, address: nat) returns (info: Option<FunctionInfo>)
      ensures info.None? <==> forall k :: 0 <= k < |entries| ==> entries[k].address != address
      ensures info.Some? ==> exists k :: 0 <= k < |entries| && entries[k] == info.value && info.value.address == address
    {
      for i := 0 to |entries|
        invariant forall k :: 0 <= k < i ==> entries[k].address != address
      {
        if entries[i].address == address {
          return Some(entries[i]);
        }
      }
      return None;
    }

    /** The winner of an address through the memo. */
    method FindByAddress(address: nat) returns (info: Option<FunctionInfo>)
      requires Valid()
      modifies infoMemo
      ensures Valid() && info == Winner(entries, addressIndex, address)
    {
      if !frozen {
        info := FindByAddressSlow(address);
        return;
      }
      var slot := MemoSlot(address);
      if infoMemo[slot].valid && infoMemo[slot].address == address {
        return infoMemo[slot].info;
      }
      info := FindByAddressSlow(address);
      infoMemo[slot] := InfoMemo(true, address, info);
    }

    /** Overlay first, so that a native replacement shadows the generated entry; then the table. */
    method FindRawByAddressSlow(address: nat) returns (record: Option<RawRecord>)
      requires Valid() && address < ADDRESSES
      ensures record == if frozen then RawSlow(overlay, table, address) else None
    {
      if !frozen {
        return None;
      }
      record := OverlayFind(overlay, address);
      if record.None? {
        var found := FindStaticIndirectDispatchEntry(table, address);
        if found.Some? {
          record := Some(table.value.entries[found.value]);
        }
      }
    }

    /** The raw dispatch record of an address through the memo, whatever was looked up before. */
    method FindRawByAddress(address: nat) returns (record: Option<RawRecord>)
      requires Valid() && address < ADDRESSES
      modifies rawMemo
      ensures Valid()
      ensures record == if frozen then RawSlow(overlay, table, address) else None
    {
      if !frozen {
        return None;
      }
      var slot := MemoSlot(address);
      if rawMemo[slot].valid && rawMemo[slot].address == address {
        return rawMemo[slot].record;
      }
      record := FindRawByAddressSlow(address);
      rawMemo[slot] := RawMemo(true, address, record);
    }
  }
}
