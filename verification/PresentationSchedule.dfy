/**
 When encoded frame groups are shown: absolute slot deadlines, whole-period recovery of late groups,
 and the presenter's queue. Times are nanoseconds; 0 stands for no time, as in the source.
 */
module PresentationSchedule {
  import opened Arithmetic

  const FREE_RUN_NANOS := 6_500_000

  /** One display period, or two when a midpoint turns 30 frames a second into 60. */
  function Span(vi: nat, thirtyToSixty: bool): nat {
    if thirtyToSixty then vi * 2 else vi
  }

  /** The deadline of a slot of a group with this many inserted frames. */
  function Deadline(base: nat, span: nat, inserted: nat, slot: nat): int {
    if base == 0 || span == 0 then 0
    else if inserted == 0 then base - span + FREE_RUN_NANOS
    else base + span * slot / (inserted + 1)
  }

  /** A sealed frame: its source time and how many frames were interpolated into it. */
  datatype Group = Group(base: nat, inserted: nat, thirtyToSixty: bool)

  /** Interpolation at 60 inserts exactly one frame. */
  predicate Sealed(g: Group) {
    g.thirtyToSixty ==> g.inserted == 1
  }

  function Slots(g: Group, vi: nat): (r: seq<int>)
    ensures |r| == g.inserted + 1
  {
    seq(g.inserted + 1, k requires 0 <= k < g.inserted + 1 =>
        Deadline(g.base, Span(vi, g.thirtyToSixty), g.inserted, k))
  }

  predicate Scheduled(g: Group, vi: nat) {
    g.inserted != 0 && Span(vi, g.thirtyToSixty) != 0 && Slots(g, vi)[0] != 0
  }

  /** The anchor of the last scheduled group, 0 for none. */
  datatype Cursor = Cursor(anchor: int, thirtyToSixty: bool)

  /** The first grid point after now for a late anchor, the anchor itself otherwise. */
  function Recovered(anchor: int, grid: nat, now: int): (r: int)
    requires grid > 0
  {
    if now > anchor then anchor + ((now - anchor) / grid + 1) * grid else anchor
  }

  /** The least anchor that keeps clear of the group before. */
  function Earliest(c: Cursor, grid: nat, thirtyToSixty: bool): int {
    c.anchor + if thirtyToSixty && c.thirtyToSixty then grid * 2 else grid
  }

  function Anchor(c: Cursor, g: Group, vi: nat, now: int): int
    requires Scheduled(g, vi)
  {
    var span := Span(vi, g.thirtyToSixty);
    var grid := if g.thirtyToSixty then span / 2 else span;
    var anchor := Recovered(Slots(g, vi)[0], grid, now);
    if c.anchor != 0 && anchor < Earliest(c, grid, g.thirtyToSixty) then Earliest(c, grid, g.thirtyToSixty) else anchor
  }

  function Shifted(slots: seq<int>, shift: int): (r: seq<int>)
    ensures |r| == |slots|
  {
    seq(|slots|, k requires 0 <= k < |slots| => slots[k] + shift)
  }

  /** Places a group: a scheduled one slides as a whole, any other forgets the cursor. */
  function Place(c: Cursor, g: Group, vi: nat, now: int): (r: (Cursor, seq<int>))
    ensures |r.1| == g.inserted + 1
  {
    if !Scheduled(g, vi) then (Cursor(0, false), Slots(g, vi))
    else
      var anchor := Anchor(c, g, vi, now);
      (Cursor(anchor, g.thirtyToSixty), Shifted(Slots(g, vi), anchor - Slots(g, vi)[0]))
  }

  /** Whole display periods a shift counts as. */
  function SlidPeriods(shift: nat, grid: nat): nat
    requires grid > 0
  {
    CeilingIsNat(shift, grid);
    (shift + grid - 1) / grid
  }

  // ---------------------------------------------------------------- arithmetic

  lemma {:induction false} CeilingIsNat(shift: nat, grid: nat)
    requires grid > 0
    ensures (shift + grid - 1) / grid >= 0
  {
  }

  lemma {:induction false} NextGridPoint(anchor: int, grid: nat, now: int)
    requires grid > 0
    ensures var r := Recovered(anchor, grid, now);
            && anchor <= r && now <= r && (now > anchor ==> now < r <= now + grid)
    ensures Recovered(anchor, grid, now) % grid == anchor % grid
  {
    if now > anchor {
      var q := (now - anchor) / grid;
      assert now - anchor == q * grid + (now - anchor) % grid;
      assert (q + 1) * grid == q * grid + grid;
      QuotientsAreOrdered(0, now - anchor, grid);
      AddingPeriods(anchor, q + 1, grid);
    }
  }

  lemma {:induction false} AddingPeriods(x: int, k: int, grid: nat)
    requires grid > 0
    ensures (x + k * grid) % grid == x % grid
  {
    var q := x / grid;
    assert x + k * grid == (q + k) * grid + x % grid;
    DivModUnique(x + k * grid, grid, q + k, x % grid);
  }

  /** Slot offsets stay below the span and never decrease. */
  lemma {:induction false} SlotOffsets(span: nat, inserted: nat, k: nat)
    requires k <= inserted && span > 0
    ensures 0 <= span * k / (inserted + 1) < span
    ensures k > 0 ==> span * (k - 1) / (inserted + 1) <= span * k / (inserted + 1)
  {
    SlotOffsetIsBelow(span, k, inserted + 1);
    if k > 0 {
      ProductsAreOrdered(span, k - 1, k);
      QuotientsAreOrdered(span * (k - 1), span * k, inserted + 1);
    }
  }

  lemma {:induction false} SlotOffsetIsBelow(span: nat, k: nat, n: nat)
    requires k < n && span > 0
    ensures 0 <= span * k / n < span
  {
    ProductIsNat(span, k);
    ProductsAreOrdered(span, k + 1, n);
    assert span * (k + 1) == span * k + span;
    QuotientIsBelow(span * k, n, span);
  }

  // ---------------------------------------------------------------- one group

  /** A scheduled group is shown at or after now, shifted as a whole, clear of the group before. */
  lemma {:induction false} GroupIsPlaced(c: Cursor, g: Group, vi: nat, now: int)
    requires Scheduled(g, vi) && Sealed(g)
    ensures var (after, d) := Place(c, g, vi, now);
            && after == Cursor(d[0], g.thirtyToSixty) && now <= d[0] && 0 < g.base <= d[0] && vi > 0
            && (forall k :: 0 <= k <= g.inserted ==> d[k] - Slots(g, vi)[k] == d[0] - g.base)
            && (c.anchor != 0 ==> d[0] >= c.anchor + if g.thirtyToSixty && c.thirtyToSixty then vi * 2 else vi)
  {
    var span := Span(vi, g.thirtyToSixty);
    assert span * 0 / (g.inserted + 1) == 0;
    assert Slots(g, vi)[0] == g.base;
    NextGridPoint(g.base, vi, now);
    assert g.thirtyToSixty ==> span / 2 == vi;
  }

  /** No slot is delayed for nothing: the anchor is the source time, the next grid point, or set by the group before. */
  lemma {:induction false} AnchorIsLeast(c: Cursor, g: Group, vi: nat, now: int)
    requires Scheduled(g, vi) && Sealed(g)
    ensures var d := Place(c, g, vi, now).1;
            || (now <= g.base && d[0] == g.base)
            || (now > g.base && d[0] <= now + vi)
            || (c.anchor != 0 && d[0] == Earliest(c, vi, g.thirtyToSixty))
  {
    var span := Span(vi, g.thirtyToSixty);
    assert span * 0 / (g.inserted + 1) == 0;
    assert Slots(g, vi)[0] == g.base;
    NextGridPoint(g.base, vi, now);
    assert g.thirtyToSixty ==> span / 2 == vi;
  }

  /** The slots of a placed group lie in order within one period of its anchor, or exactly one for the midpoint pair. */
  lemma {:induction false} SlotsStayInPeriod(c: Cursor, g: Group, vi: nat, now: int, k: nat)
    requires Scheduled(g, vi) && Sealed(g) && k <= g.inserted
    ensures var d := Place(c, g, vi, now).1;
            && d[0] <= d[k] && (k > 0 ==> d[k - 1] <= d[k])
            && (if g.thirtyToSixty then d[k] <= d[0] + vi else d[k] < d[0] + vi)
  {
    GroupIsPlaced(c, g, vi, now);
    var span := Span(vi, g.thirtyToSixty);
    SlotOffsets(span, g.inserted, k);
    if g.thirtyToSixty {
      assert span * 1 / 2 == vi;
      assert span * 0 / 2 == 0;
    }
  }

  /**
   The deadlines a group is encoded with. Its slots divide the time to the next source frame evenly, to the
   nanosecond below; a group without inserted frames runs free, 6.5 ms after the period before; and without a
   source time or a display period there is no deadline.
   */
  lemma {:induction false} SlotsDivideThePeriod(g: Group, vi: nat, k: nat)
    requires k <= g.inserted
    ensures var d, span := Slots(g, vi)[k], if g.thirtyToSixty then vi + vi else vi;
            if g.base == 0 || vi == 0 then d == 0
            else if g.inserted == 0 then d == g.base - span + 6_500_000
            else 0 <= span * k - (d - g.base) * (g.inserted + 1) <= g.inserted
  {
    var span, n := Span(vi, g.thirtyToSixty), g.inserted + 1;
    ProductIsNat(span, k);
    assert span * k == span * k / n * n + span * k % n;
  }

  // ---------------------------------------------------------------- uninterrupted runs

  /** A group and the time at which it was placed. */
  datatype Arrival = Arrival(group: Group, now: int)

  predicate Uninterrupted(arrivals: seq<Arrival>, vi: nat) {
    forall i :: 0 <= i < |arrivals| ==> Sealed(arrivals[i].group) && Scheduled(arrivals[i].group, vi)
  }

  /** The cursor and the deadlines of every group after a run. */
  function PlaceAll(c: Cursor, arrivals: seq<Arrival>, vi: nat): (r: (Cursor, seq<seq<int>>))
    ensures |r.1| == |arrivals|
    ensures forall i :: 0 <= i < |arrivals| ==> |r.1[i]| == arrivals[i].group.inserted + 1
    decreases |arrivals|
  {
    if arrivals == [] then (c, [])
    else
      var a := arrivals[|arrivals| - 1];
      var (before, placed) := PlaceAll(c, arrivals[..|arrivals| - 1], vi);
      var (after, d) := Place(before, a.group, vi, a.now);
      (after, placed + [d])
  }

  lemma {:induction false} SlotsStayBehindCursor(c: Cursor, arrivals: seq<Arrival>, vi: nat, i: nat, k: nat)
    requires Uninterrupted(arrivals, vi) && i < |arrivals| && k <= arrivals[i].group.inserted
    ensures var (after, placed) := PlaceAll(c, arrivals, vi);
            && after.anchor != 0 && after.anchor == placed[|arrivals| - 1][0]
            && after.thirtyToSixty == arrivals[|arrivals| - 1].group.thirtyToSixty
            && (if i < |arrivals| - 1 then placed[i][k] <= after.anchor
                else if arrivals[i].group.thirtyToSixty then placed[i][k] <= after.anchor + vi
                else placed[i][k] < after.anchor + vi)
    decreases |arrivals|
  {
    hide Place, Sealed, Scheduled;
    var init, last := arrivals[..|arrivals| - 1], arrivals[|arrivals| - 1];
    var (before, placed) := PlaceAll(c, init, vi);
    GroupIsPlaced(before, last.group, vi, last.now);
    if i < |arrivals| - 1 {
      SlotsStayBehindCursor(c, init, vi, i, k);
    } else {
      SlotsStayInPeriod(before, last.group, vi, last.now, k);
    }
  }

  // ---------------------------------------------------------------- main results

  /**
   Slot a of a 30-to-60 group anchored here is the very deadline of slot b of the next group: the mode is
   left, the slot is the midpoint, and the next group, recovered to its own grid, is not late enough to
   clear one period by itself.
   */
  predicate Meet(anchor: int, g: Group, a: nat, next: Arrival, b: nat, vi: nat) {
    && g.thirtyToSixty && !next.group.thirtyToSixty && a == 1 && vi > 0
    && Recovered(next.group.base, vi, next.now) <= anchor + vi
    && vi * b / (next.group.inserted + 1) == 0
  }

  /** Where the slots of one placed group lie, to the nanosecond. */
  lemma {:induction false} SlotsFromAnchor(c: Cursor, g: Group, vi: nat, now: int, k: nat)
    requires Scheduled(g, vi) && Sealed(g) && k <= g.inserted
    ensures vi > 0
    ensures var d := Place(c, g, vi, now).1;
            && d[k] == d[0] + Span(vi, g.thirtyToSixty) * k / (g.inserted + 1)
            && (g.thirtyToSixty && k == 1 ==> d[k] == d[0] + vi)
            && (!g.thirtyToSixty ==> d[0] == if c.anchor != 0 && Recovered(g.base, vi, now) < c.anchor + vi
                                             then c.anchor + vi else Recovered(g.base, vi, now))
  {
    var span := Span(vi, g.thirtyToSixty);
    assert span * 0 / (g.inserted + 1) == 0;
    assert Slots(g, vi)[0] == g.base;
    assert Slots(g, vi)[k] == g.base + span * k / (g.inserted + 1);
    assert g.thirtyToSixty ==> span * 1 / 2 == vi;
  }

  /**
   Over every uninterrupted run with a constant display period, deadlines never go back from one group
   to a later one, and two of them coincide exactly where consecutive groups meet.
   */
  lemma {:induction false} DeadlinesNeverGoBack(c: Cursor, arrivals: seq<Arrival>, vi: nat, i: nat, j: nat, a: nat,
                                                b: nat)
    requires Uninterrupted(arrivals, vi) && i < j < |arrivals|
    requires a <= arrivals[i].group.inserted && b <= arrivals[j].group.inserted
    ensures var placed := PlaceAll(c, arrivals, vi).1;
            && placed[i][a] <= placed[j][b]
            && (placed[i][a] == placed[j][b] <==>
                  j == i + 1 && Meet(placed[i][0], arrivals[i].group, a, arrivals[j], b, vi))
    decreases |arrivals|
  {
    hide Place, Sealed, Scheduled, Recovered;
    var init, last := arrivals[..|arrivals| - 1], arrivals[|arrivals| - 1];
    if j < |arrivals| - 1 {
      DeadlinesNeverGoBack(c, init, vi, i, j, a, b);
    } else {
      var before := PlaceAll(c, init, vi).0;
      SlotsStayBehindCursor(c, init, vi, i, a);
      GroupIsPlaced(before, last.group, vi, last.now);
      SlotsStayInPeriod(before, last.group, vi, last.now, b);
      SlotsFromAnchor(before, last.group, vi, last.now, b);
      MidpointIsOnePeriodOn(c, init, vi, i, a);
    }
  }

  /** Only the midpoint of a 30-to-60 group lies a full period behind its anchor. */
  lemma {:induction false} MidpointIsOnePeriodOn(c: Cursor, arrivals: seq<Arrival>, vi: nat, i: nat, a: nat)
    requires Uninterrupted(arrivals, vi) && i < |arrivals| && a <= arrivals[i].group.inserted
    ensures var d := PlaceAll(c, arrivals, vi).1[i];
            vi > 0 && (d[a] == d[0] + vi <==> arrivals[i].group.thirtyToSixty && a == 1)
    decreases |arrivals|
  {
    hide Place, Scheduled;
    var init, last := arrivals[..|arrivals| - 1], arrivals[|arrivals| - 1];
    if i < |arrivals| - 1 {
      MidpointIsOnePeriodOn(c, init, vi, i, a);
    } else {
      var before := PlaceAll(c, init, vi).0;
      SlotsFromAnchor(before, last.group, vi, last.now, a);
      SlotsStayInPeriod(before, last.group, vi, last.now, a);
      SlotsFromAnchor(before, last.group, vi, last.now, 0);
    }
  }

  /**
   Two consecutive groups of a run share a deadline if and only if the second leaves 30-to-60 mode and,
   recovered to its own grid, would start no later than one period after the first.
   */
  lemma {:induction false} GroupsMeetExactly(c: Cursor, arrivals: seq<Arrival>, vi: nat, i: nat)
    requires Uninterrupted(arrivals, vi) && i + 1 < |arrivals|
    ensures var placed := PlaceAll(c, arrivals, vi).1;
            var g, h := arrivals[i].group, arrivals[i + 1];
            (exists t :: t in placed[i] && t in placed[i + 1])
            <==> g.thirtyToSixty && !h.group.thirtyToSixty && Recovered(h.group.base, vi, h.now) <= placed[i][0] + vi
  {
    hide Place, PlaceAll, Scheduled, Recovered;
    var placed := PlaceAll(c, arrivals, vi).1;
    var g, h := arrivals[i].group, arrivals[i + 1];
    MidpointIsOnePeriodOn(c, arrivals, vi, i, 0);
    if t :| t in placed[i] && t in placed[i + 1] {
      var a :| 0 <= a <= g.inserted && placed[i][a] == t;
      var b :| 0 <= b <= h.group.inserted && placed[i + 1][b] == t;
      DeadlinesNeverGoBack(c, arrivals, vi, i, i + 1, a, b);
    }
    if g.thirtyToSixty && !h.group.thirtyToSixty && Recovered(h.group.base, vi, h.now) <= placed[i][0] + vi {
      assert vi * 0 / (h.group.inserted + 1) == 0;
      DeadlinesNeverGoBack(c, arrivals, vi, i, i + 1, 1, 0);
      assert placed[i][1] in placed[i] && placed[i + 1][0] in placed[i + 1];
    }
  }

  /** The touching case does happen: a midpoint pair at 100 and 110, then a group anchored at 110. */
  lemma LeavingThirtyToSixtyMayTouch()
    ensures var arrivals := [Arrival(Group(100, 1, true), 0), Arrival(Group(105, 1, false), 0)];
            Uninterrupted(arrivals, 10) && PlaceAll(Cursor(0, false), arrivals, 10).1 == [[100, 110], [110, 115]]
  {
    var first, second := Arrival(Group(100, 1, true), 0), Arrival(Group(105, 1, false), 0);
    var arrivals := [first, second];
    assert arrivals[..1] == [first] && [first][..0] == [];
    assert Slots(first.group, 10) == [100, 110] && Slots(second.group, 10) == [105, 110];
    assert Shifted([100, 110], 0) == [100, 110] && Shifted([105, 110], 5) == [110, 115];
    assert Place(Cursor(0, false), first.group, 10, 0) == (Cursor(100, true), [100, 110]);
    assert Place(Cursor(100, true), second.group, 10, 0) == (Cursor(110, false), [110, 115]);
  }

  /** If every source time falls on one display grid, so does every anchor, and each slide is whole periods. */
  lemma {:induction false} AnchorsStayOnGrid(c: Cursor, arrivals: seq<Arrival>, vi: nat, phase: nat, i: nat)
    requires Uninterrupted(arrivals, vi) && vi > 0 && i < |arrivals|
    requires c.anchor == 0 || c.anchor % vi == phase
    requires forall k :: 0 <= k < |arrivals| ==> arrivals[k].group.base % vi == phase
    ensures var placed := PlaceAll(c, arrivals, vi).1;
            && placed[i][0] % vi == phase
            && placed[i][0] - arrivals[i].group.base
               == SlidPeriods(ShiftOf(c, arrivals, vi, i), vi) * vi
    decreases |arrivals|
  {
    hide Place, Sealed, Scheduled, SlidPeriods;
    var init, last := arrivals[..|arrivals| - 1], arrivals[|arrivals| - 1];
    if i < |arrivals| - 1 {
      AnchorsStayOnGrid(c, init, vi, phase, i);
      assert PlaceAll(c, arrivals, vi).1[i] == PlaceAll(c, init, vi).1[i];
    } else {
      var before := PlaceAll(c, init, vi).0;
      if init != [] {
        AnchorsStayOnGrid(c, init, vi, phase, |init| - 1);
        SlotsStayBehindCursor(c, init, vi, |init| - 1, 0);
      }
      OneAnchorOnGrid(before, last.group, vi, last.now);
      GroupIsPlaced(before, last.group, vi, last.now);
      WholePeriods(last.group.base, PlaceAll(c, arrivals, vi).1[i][0], vi);
    }
  }

  ghost function ShiftOf(c: Cursor, arrivals: seq<Arrival>, vi: nat, i: nat): nat
    requires Uninterrupted(arrivals, vi) && i < |arrivals|
  {
    ShiftIsNat(c, arrivals, vi, i);
    PlaceAll(c, arrivals, vi).1[i][0] - arrivals[i].group.base
  }

  lemma {:induction false} ShiftIsNat(c: Cursor, arrivals: seq<Arrival>, vi: nat, i: nat)
    requires Uninterrupted(arrivals, vi) && i < |arrivals|
    ensures PlaceAll(c, arrivals, vi).1[i][0] >= arrivals[i].group.base
    decreases |arrivals|
  {
    hide Place, Sealed, Scheduled;
    var init, last := arrivals[..|arrivals| - 1], arrivals[|arrivals| - 1];
    if i < |arrivals| - 1 {
      ShiftIsNat(c, init, vi, i);
    } else {
      GroupIsPlaced(PlaceAll(c, init, vi).0, last.group, vi, last.now);
    }
  }

  lemma {:induction false} OneAnchorOnGrid(c: Cursor, g: Group, vi: nat, now: int)
    requires Scheduled(g, vi) && Sealed(g) && vi > 0
    requires c.anchor == 0 || c.anchor % vi == g.base % vi
    ensures Place(c, g, vi, now).1[0] % vi == g.base % vi
  {
    var span := Span(vi, g.thirtyToSixty);
    assert span * 0 / (g.inserted + 1) == 0;
    assert Slots(g, vi)[0] == g.base;
    NextGridPoint(g.base, vi, now);
    AddingPeriods(c.anchor, 1, vi);
    AddingPeriods(c.anchor, 2, vi);
    assert g.thirtyToSixty ==> span / 2 == vi;
  }

  lemma {:induction false} WholePeriods(base: int, anchor: int, vi: nat)
    requires vi > 0 && base <= anchor && anchor % vi == base % vi
    ensures SlidPeriods(anchor - base, vi) * vi == anchor - base
  {
    var p, q := base / vi, anchor / vi;
    assert anchor - base == (q - p) * vi;
    DivModUnique((q - p) * vi + vi - 1, vi, q - p, vi - 1);
  }

  // ---------------------------------------------------------------- the scheduler and the presenter's queue

  /** The group cursor kept between frames. */
  class GroupScheduler {
    var lastGroupAnchor: int
    var lastGroupWasThirtyToSixty: bool

    constructor ()
      ensures Last() == Cursor(0, false)
    {
      lastGroupAnchor, lastGroupWasThirtyToSixty := 0, false;
    }

    function Last(): Cursor
      reads this
    {
      Cursor(lastGroupAnchor, lastGroupWasThirtyToSixty)
    }

    /** The anchor a scheduled group gets. */
    method NextAnchor(first: int, grid: nat, thirtyToSixty: bool, now: int) returns (anchor: int)
      requires grid > 0
      ensures anchor == var a := Recovered(first, grid, now);
                        if lastGroupAnchor != 0 && a < Earliest(Last(), grid, thirtyToSixty)
                        then Earliest(Last(), grid, thirtyToSixty) else a
    {
      anchor := first;
      if now > anchor {
        var periods := (now - anchor) / grid + 1;
        anchor := anchor + periods * grid;
      }
      if lastGroupAnchor != 0 {
        var minimumAnchor := lastGroupAnchor
          + if thirtyToSixty && lastGroupWasThirtyToSixty then grid * 2 else grid;
        if anchor < minimumAnchor { anchor := minimumAnchor; }
      }
    }

    method SlideAll(presentAt: array<int>, shift: int)
      modifies presentAt
      ensures presentAt[..] == Shifted(old(presentAt[..]), shift)
    {
      for k := 0 to presentAt.Length
        invariant forall i :: 0 <= i < presentAt.Length ==>
                    presentAt[i] == old(presentAt[i]) + if i < k then shift else 0
      {
        presentAt[k] := presentAt[k] + shift;
      }
    }

    /** Slides the jobs of a freshly encoded group in place and says by how many periods. */
    method PlaceGroup(presentAt: array<int>, g: Group, vi: nat, now: int) returns (slid: nat)
      requires presentAt[..] == Slots(g, vi) && Sealed(g)
      modifies this, presentAt
      ensures (Last(), presentAt[..]) == Place(old(Last()), g, vi, now)
      ensures Scheduled(g, vi) ==>
                presentAt[0] >= g.base && vi > 0 && slid == SlidPeriods(presentAt[0] - g.base, vi)
      ensures !Scheduled(g, vi) ==> slid == 0
    {
      hide SlidPeriods, Slots, Recovered, Earliest, Shifted;
      slid := 0;
      ghost var slots := presentAt[..];
      var span := Span(vi, g.thirtyToSixty);
      assert presentAt[0] == slots[0];
      if g.inserted != 0 && span != 0 && presentAt[0] != 0 {
        GroupIsPlaced(Last(), g, vi, now);
        FirstSlot(g, vi);
        var grid := if g.thirtyToSixty then span / 2 else span;
        var anchor := NextAnchor(presentAt[0], grid, g.thirtyToSixty, now);
        var shift := anchor - presentAt[0];
        NoShiftNoPeriods(vi);
        NoShift(slots);
        if shift > 0 {
          slid := SlidPeriods(shift, grid);
          SlideAll(presentAt, shift);
        }
        lastGroupAnchor := anchor;
        lastGroupWasThirtyToSixty := g.thirtyToSixty;
      } else {
        lastGroupAnchor := 0;
        lastGroupWasThirtyToSixty := false;
      }
      assert presentAt[0] == presentAt[..][0];
    }
  }

  lemma {:induction false} NoShift(slots: seq<int>)
    ensures Shifted(slots, 0) == slots
  {
  }

  lemma {:induction false} FirstSlot(g: Group, vi: nat)
    requires Scheduled(g, vi)
    ensures Slots(g, vi)[0] == g.base && (Sealed(g) && g.thirtyToSixty ==> Span(vi, g.thirtyToSixty) / 2 == vi)
  {
    assert Span(vi, g.thirtyToSixty) * 0 / (g.inserted + 1) == 0;
  }

  lemma {:induction false} NoShiftNoPeriods(grid: nat)
    requires grid > 0
    ensures SlidPeriods(0, grid) == 0
  {
    DivModUnique(grid - 1, grid, 0, grid - 1);
  }

  /** A job for the presenter; presentAt 0 means at once. */
  datatype Job = Job(presentAt: int, viRepeat: bool, interpolated: bool)

  const MAX_INTERPOLATED := 3

  function QueueBound(batch: nat): nat {
    if 3 * batch > 2 * (MAX_INTERPOLATED + 1) then 3 * batch else 2 * (MAX_INTERPOLATED + 1)
  }

  /** How long the timed producer jobs of a batch keep repeats off the screen. */
  function CoveredUntil(covered: int, jobs: seq<Job>, lead: bool): int
    decreases |jobs|
  {
    if jobs == [] then covered
    else
      var before := CoveredUntil(covered, jobs[..|jobs| - 1], lead);
      var job := jobs[|jobs| - 1];
      if !job.viRepeat && job.presentAt != 0
      then Max(before, job.presentAt + if lead then FREE_RUN_NANOS else 0) else before
  }

  predicate Redundant(job: Job, covered: int) {
    job.viRepeat && job.presentAt != 0 && job.presentAt <= covered
  }

  function Kept(jobs: seq<Job>, covered: int): (r: seq<Job>)
    ensures |r| <= |jobs|
    decreases |jobs|
  {
    if jobs == [] then []
    else Kept(jobs[..|jobs| - 1], covered) + if Redundant(jobs[|jobs| - 1], covered) then [] else [jobs[|jobs| - 1]]
  }

  lemma {:induction false} KeptIsClean(jobs: seq<Job>, covered: int)
    ensures forall i :: 0 <= i < |Kept(jobs, covered)| ==>
              !Redundant(Kept(jobs, covered)[i], covered) && Kept(jobs, covered)[i] in jobs
    decreases |jobs|
  {
    if jobs != [] {
      KeptIsClean(jobs[..|jobs| - 1], covered);
    }
  }

  predicate Immediate(jobs: seq<Job>) {
    exists job :: job in jobs && !job.viRepeat && job.presentAt == 0
  }

  datatype Queue = Queue(jobs: seq<Job>, coveredUntil: int)

  function Enqueue(q: Queue, batch: seq<Job>): Queue {
    var cleared := if Immediate(batch) then Queue([], 0) else q;
    var covered := CoveredUntil(cleared.coveredUntil, batch, batch != [] && batch[0].interpolated);
    var kept, incoming := Kept(cleared.jobs, covered), Kept(batch, covered);
    if incoming == [] then Queue(kept, covered)
    else Queue((if |kept| + |incoming| > QueueBound(|batch|) then [] else kept) + incoming, covered)
  }

  class Presenter {
    var jobs: seq<Job>
    var coveredUntil: int

    function View(): Queue
      reads this
    {
      Queue(jobs, coveredUntil)
    }

    constructor ()
      ensures View() == Queue([], 0)
    {
      jobs, coveredUntil := [], 0;
    }

    method EraseRedundant(all: seq<Job>) returns (kept: seq<Job>)
      ensures kept == Kept(all, coveredUntil)
    {
      kept := [];
      for i := 0 to |all|
        invariant kept == Kept(all[..i], coveredUntil)
      {
        assert all[..i + 1][..i] == all[..i];
        if !Redundant(all[i], coveredUntil) { kept := kept + [all[i]]; }
      }
      assert all[..|all|] == all;
    }

    method EnqueuePresentations(batch: seq<Job>)
      modifies this
      ensures View() == Enqueue(old(View()), batch)
    {
      var i := 0;
      while i < |batch| && !(!batch[i].viRepeat && batch[i].presentAt == 0)
        invariant 0 <= i <= |batch|
        invariant forall k :: 0 <= k < i ==> batch[k].viRepeat || batch[k].presentAt != 0
      {
        i := i + 1;
      }
      assert Immediate(batch) <==> i < |batch| by {
        if i < |batch| { assert batch[i] in batch; }
      }
      if i < |batch| {
        jobs := [];
        coveredUntil := 0;
      }
      ghost var covered := coveredUntil;
      ghost var lead := batch != [] && batch[0].interpolated;
      for k := 0 to |batch|
        invariant coveredUntil == CoveredUntil(covered, batch[..k], lead)
        invariant jobs == if Immediate(batch) then [] else old(jobs)
      {
        assert batch[..k + 1][..k] == batch[..k];
        var job := batch[k];
        if !job.viRepeat && job.presentAt != 0 {
          coveredUntil := Max(coveredUntil, job.presentAt + if batch[0].interpolated then FREE_RUN_NANOS else 0);
        }
      }
      assert batch[..|batch|] == batch;
      jobs := EraseRedundant(jobs);
      var incoming := EraseRedundant(batch);
      if incoming == [] { return; }
      if |jobs| + |incoming| > QueueBound(|batch|) { jobs := []; }
      jobs := jobs + incoming;
    }
  }

  /** After any enqueue: no queued repeat falls in time a producer covers, and a flood never grows the queue. */
  lemma {:induction false} QueueStaysBounded(q: Queue, batch: seq<Job>)
    ensures var r := Enqueue(q, batch);
            && (forall i :: 0 <= i < |r.jobs| ==> !Redundant(r.jobs[i], r.coveredUntil))
            && (|r.jobs| <= |q.jobs| || |r.jobs| <= QueueBound(|batch|))
            && (Immediate(batch) ==> forall i :: 0 <= i < |r.jobs| ==> r.jobs[i] in batch)
  {
    hide Kept, CoveredUntil, QueueBound;
    var cleared := if Immediate(batch) then Queue([], 0) else q;
    var covered := CoveredUntil(cleared.coveredUntil, batch, batch != [] && batch[0].interpolated);
    KeptIsClean(cleared.jobs, covered);
    KeptIsClean(batch, covered);
    BoundCoversBatch(|batch|);
  }

  lemma {:induction false} BoundCoversBatch(n: nat)
    ensures n <= QueueBound(n)
  {
  }

  /** A repeat for a time that producer frames cover. */
  predicate Covered(job: Job, until: int) { job.viRepeat && 0 != job.presentAt <= until }

  /** Every timed producer job of the batch covers the time up to it, 6.5 ms more in a batch led by a midpoint. */
  lemma {:induction false} CoverageIsExact(covered: int, jobs: seq<Job>, lead: bool)
    ensures var r, more := CoveredUntil(covered, jobs, lead), if lead then 6_500_000 else 0;
            && covered <= r
            && (forall job :: job in jobs && !job.viRepeat && job.presentAt != 0 ==> job.presentAt + more <= r)
            && (r == covered ||
                exists job :: job in jobs && !job.viRepeat && job.presentAt != 0 && job.presentAt + more == r)
    decreases |jobs|
  {
    if jobs != [] {
      CoverageIsExact(covered, jobs[..|jobs| - 1], lead);
      assert jobs == jobs[..|jobs| - 1] + [jobs[|jobs| - 1]];
    }
  }

  lemma {:induction false} KeptIsUncovered(jobs: seq<Job>, covered: int)
    ensures forall job :: job in Kept(jobs, covered) <==> job in jobs && !Covered(job, covered)
    decreases |jobs|
  {
    if jobs != [] {
      KeptIsUncovered(jobs[..|jobs| - 1], covered);
      assert jobs == jobs[..|jobs| - 1] + [jobs[|jobs| - 1]];
    }
  }

  lemma {:induction false} KeptKeepsOrder(jobs: seq<Job>, covered: int, i: nat, j: nat) returns (x: nat, y: nat)
    requires i < j < |jobs| && !Covered(jobs[i], covered) && !Covered(jobs[j], covered)
    ensures x < y < |Kept(jobs, covered)| && Kept(jobs, covered)[x] == jobs[i] && Kept(jobs, covered)[y] == jobs[j]
  {
    var n := |jobs| - 1;
    if j < n {
      x, y := KeptKeepsOrder(jobs[..n], covered, i, j);
    } else {
      KeptIsUncovered(jobs[..n], covered);
      assert jobs[..n][i] == jobs[i];
      x :| 0 <= x < |Kept(jobs[..n], covered)| && Kept(jobs[..n], covered)[x] == jobs[i];
      y := |Kept(jobs[..n], covered)|;
    }
  }

  /**
   What an enqueue keeps. Covered repeats go, and so does everything queued before when a producer job of the
   batch is due at once; otherwise the older jobs stay, before the batch, as long as both together are no more
   than eight or three times the batch, whichever is more, or nothing of the batch is left.
   */
  lemma {:induction false} OlderJobsStayExactly(q: Queue, batch: seq<Job>)
    ensures var r := Enqueue(q, batch);
            var clears := exists job :: job in batch && !job.viRepeat && job.presentAt == 0;
            exists older, newer :: EnqueuedAs(q, batch, r, clears, older, newer)
  {
    var cleared := if Immediate(batch) then Queue([], 0) else q;
    var covered := CoveredUntil(cleared.coveredUntil, batch, batch != [] && batch[0].interpolated);
    var older, newer := Kept(cleared.jobs, covered), Kept(batch, covered);
    KeptIsUncovered(cleared.jobs, covered);
    KeptIsUncovered(batch, covered);
    hide Kept, CoveredUntil;
    assert EnqueuedAs(q, batch, Enqueue(q, batch), Immediate(batch), older, newer);
  }

  /** The queue r is the surviving older jobs followed by the surviving jobs of the batch. */
  ghost predicate EnqueuedAs(q: Queue, batch: seq<Job>, r: Queue, clears: bool, older: seq<Job>, newer: seq<Job>) {
    && r.coveredUntil == CoveredUntil(if clears then 0 else q.coveredUntil, batch,
                                      batch != [] && batch[0].interpolated)
    && (forall job :: job in older <==> !clears && job in q.jobs && !Covered(job, r.coveredUntil))
    && (forall job :: job in newer <==> job in batch && !Covered(job, r.coveredUntil))
    && older == Kept(if clears then [] else q.jobs, r.coveredUntil) && newer == Kept(batch, r.coveredUntil)
    && r.jobs == if newer == [] || |older| + |newer| <= Max(8, 3 * |batch|) then older + newer else newer
  }

  /** The newest group is never dropped: every producer job of the batch is queued last, in order. */
  lemma {:induction false} NewestGroupSurvives(q: Queue, batch: seq<Job>)
    requires forall i :: 0 <= i < |batch| ==> !batch[i].viRepeat
    ensures |batch| <= |Enqueue(q, batch).jobs|
    ensures Enqueue(q, batch).jobs[|Enqueue(q, batch).jobs| - |batch|..] == batch
  {
    var cleared := if Immediate(batch) then Queue([], 0) else q;
    ProducerJobsAreKept(batch, CoveredUntil(cleared.coveredUntil, batch, batch != [] && batch[0].interpolated));
  }

  lemma {:induction false} ProducerJobsAreKept(jobs: seq<Job>, covered: int)
    requires forall i :: 0 <= i < |jobs| ==> !jobs[i].viRepeat
    ensures Kept(jobs, covered) == jobs
    decreases |jobs|
  {
    if jobs != [] {
      ProducerJobsAreKept(jobs[..|jobs| - 1], covered);
    }
  }
}
