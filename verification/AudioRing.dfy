/** The host audio queue: whole blocks in, callback-sized chunks out, silence where the queue ran dry. */
module AudioRing {
  import opened Arithmetic
  import opened PlaybackContinuity

  /** A queued sample: guest PCM, or a place where the guest had none. */
  datatype Item = Pcm(value: Sample) | Gap

  /** What a producer hands over. NoData is a null pointer without the gap flag. */
  datatype Block = Samples(data: seq<Sample>) | GapOf(count: nat) | NoData(count: nat)

  const QUEUE_MS := 256
  const PREBUFFER_MS := 96
  const SCRATCH := 4096

  function MillisecondsOfBytes(ms: nat, sampleRate: nat, channels: nat): nat {
    sampleRate * channels * 2 * ms / 1000 % 0x1_0000_0000
  }

  function Quotient(a: nat, b: nat): nat
    requires b > 0
  {
    a / b
  }

  function WholeFrameBytes(bytes: nat, channels: nat): (r: nat)
    requires channels > 0
    ensures r <= bytes
  {
    bytes - bytes % (channels * 2)
  }

  function FramesIn(bytes: nat, channels: nat): nat
    requires channels > 0
  {
    Quotient(bytes, channels * 2)
  }

  /** The queue limit: 256 ms, rounded down to whole frames. */
  function LimitBytes(sampleRate: nat, channels: nat): nat
    requires channels > 0
  {
    WholeFrameBytes(MillisecondsOfBytes(QUEUE_MS, sampleRate, channels), channels)
  }

  /** The limits are fixed when the stream opens; maxCredit bounds the host silence credited, in frames. */
  datatype Stream = Stream(
    channels: nat,
    limitBytes: nat,
    rebufferBytes: nat,
    maxCredit: nat,
    items: seq<Item>,
    rebuffering: bool,
    credit: nat,
    creditPending: bool,
    filter: Filter)

  /** Opening a stream. */
  function Open(sampleRate: nat, channels: nat): Stream
    requires channels > 0
  {
    var limit := LimitBytes(sampleRate, channels);
    Stream(channels, limit, MillisecondsOfBytes(PREBUFFER_MS, sampleRate, channels), FramesIn(limit, channels),
           [], false, 0, false, Reset(sampleRate, channels))
  }

  // ---------------------------------------------------------------- frames of items

  function Value(item: Item): Sample {
    match item
    case Pcm(value) => value
    case Gap => 0
  }

  function Values(items: seq<Item>): (r: seq<Sample>)
    ensures |r| == |items|
  {
    seq(|items|, i requires 0 <= i < |items| => Value(items[i]))
  }

  /** Every frame is all PCM or all gap. */
  predicate Homogeneous(items: seq<Item>, channels: nat)
    decreases |items|
  {
    0 < channels <= |items| ==>
      && (forall i :: 0 <= i < channels ==> items[i].Gap? == items[0].Gap?)
      && Homogeneous(items[channels..], channels)
  }

  function FramesOfItems(items: seq<Item>, channels: nat): (r: seq<Frame>)
    requires channels > 0
    ensures FramesFit(r, channels)
    decreases |items|
  {
    if |items| < channels then []
    else [Frame(Values(items[..channels]), items[0].Gap?)] + FramesOfItems(items[channels..], channels)
  }

  lemma {:induction false} ItemFramesConcatenate(a: seq<Item>, b: seq<Item>, channels: nat)
    requires Whole(|a|, channels) && channels > 0
    ensures FramesOfItems(a + b, channels) == FramesOfItems(a, channels) + FramesOfItems(b, channels)
    ensures Homogeneous(a + b, channels) <==> Homogeneous(a, channels) && Homogeneous(b, channels)
    decreases |a|
  {
    if a == [] {
      assert a + b == b;
      assert FramesOfItems([], channels) == [];
    } else {
      SplitFirstFrame(a, b, channels);
      ItemFramesConcatenate(a[channels..], b, channels);
    }
  }

  lemma {:induction false} SplitFirstFrame(a: seq<Item>, b: seq<Item>, channels: nat)
    requires 0 < channels <= |a|
    ensures var frame := [Frame(Values(a[..channels]), a[0].Gap?)];
            && FramesOfItems(a, channels) == frame + FramesOfItems(a[channels..], channels)
            && FramesOfItems(a + b, channels) == frame + FramesOfItems(a[channels..] + b, channels)
    ensures var uniform := forall i :: 0 <= i < channels ==> a[i].Gap? == a[0].Gap?;
            && (Homogeneous(a, channels) <==> uniform && Homogeneous(a[channels..], channels))
            && (Homogeneous(a + b, channels) <==> uniform && Homogeneous(a[channels..] + b, channels))
  {
    var all := a + b;
    assert all[..channels] == a[..channels] && all[channels..] == a[channels..] + b;
    assert forall i :: 0 <= i < channels ==> all[i] == a[i];
  }

  lemma {:induction false} WholeAdds(m: nat, n: nat, channels: nat)
    requires Whole(m, channels)
    ensures Whole(m + n, channels) <==> Whole(n, channels)
    decreases m
  {
    if m > 0 {
      WholeAdds(m - channels, n, channels);
    }
  }

  // ---------------------------------------------------------------- operations

  function BlockItems(b: Block): seq<Item> {
    match b
    case Samples(data) => seq(|data|, i requires 0 <= i < |data| => Pcm(data[i]))
    case GapOf(count) => seq(count, _ => Gap)
    case NoData(count) => []
  }

  predicate WellFormed(b: Block, channels: nat) {
    !b.NoData? && BlockItems(b) != [] && channels > 0 && |BlockItems(b)| % channels == 0
  }

  predicate Fits(s: Stream, b: Block) {
    (|s.items| + |BlockItems(b)|) * 2 <= s.limitBytes
  }

  /** Queues a whole block, or drops a whole block and still reports success. */
  function Enqueue(s: Stream, b: Block): (Stream, bool) {
    if !WellFormed(b, s.channels) || s.limitBytes == 0 then (s, false)
    else if !Fits(s, b) then (s, true)
    else (s.(items := s.items + BlockItems(b)), true)
  }

  predicate Holding(s: Stream) {
    s.rebuffering && |s.items| * 2 < s.rebufferBytes
  }

  function Silence(n: nat): (r: seq<Item>)
    ensures |r| == n
  {
    seq(n, _ => Gap)
  }

  /** What one callback chunk gets: queued items, or silence while the queue is empty or refilling. */
  function Take(s: Stream, requested: nat): (Stream, seq<Item>)
    requires s.channels > 0
  {
    if Holding(s) || s.items == [] then
      (s.(rebuffering := true, creditPending := true,
          credit := Min(s.maxCredit, s.credit + Quotient(requested, s.channels))),
       Silence(requested))
    else
      var n := Min(|s.items|, requested);
      (s.(rebuffering := false, items := s.items[n..]), s.items[..n])
  }

  /** One chunk, filtered. */
  function Chunk(s: Stream, requested: nat): (r: (Stream, seq<Sample>))
    requires s.channels > 0 && Shaped(s.filter) && s.filter.channels == s.channels
  {
    var (t, items) := Take(s, requested);
    var (g, out) := FilterStream(t.filter, FramesOfItems(items, t.channels));
    (t.(filter := g), out)
  }

  /** Stale DMA frames: how many the host's silence already covered, and how many still to queue as gaps. */
  function Resolve(s: Stream, frames: nat): (Stream, (nat, nat)) {
    if !s.creditPending then (s, (0, frames))
    else
      var covered := Min(frames, s.credit);
      (s.(credit := 0, creditPending := false), (covered, frames - covered))
  }

  function ResetGaps(s: Stream): Stream {
    s.(credit := 0, creditPending := false, rebuffering := false)
  }

  // ---------------------------------------------------------------- runs

  datatype Event =
    | EnqueueEvent(block: Block)
    | ChunkEvent(requested: nat)
    | ResolveEvent(frames: nat)
    | ResetEvent

  /** A stream with everything that went in and came out. */
  datatype Journal = Journal(
    s: Stream,
    accepted: seq<Item>,  // items of accepted blocks, in order
    taken: seq<Item>,     // items that left the queue, in order
    heard: seq<Item>,     // what the host played: taken items with the host's silence in between
    output: seq<Sample>,
    silence: nat)         // frames of host silence since the last resolution or reset

  /** The queue holds whole uniform frames within its limit, and credit only when some is pending. */
  predicate QueueReady(s: Stream) {
    && s.channels > 0
    && Whole(|s.items|, s.channels) && Homogeneous(s.items, s.channels)
    && |s.items| * 2 <= s.limitBytes
    && s.credit <= s.maxCredit && (!s.creditPending ==> s.credit == 0)
  }

  /** A ready queue whose filter works on the same frames. */
  predicate Ready(s: Stream) {
    QueueReady(s) && s.channels <= MAX_CHANNELS && Shaped(s.filter) && s.filter.channels == s.channels
  }

  function Apply(j: Journal, e: Event): Journal
    requires Ready(j.s)
  {
    var s := j.s;
    match e
    case EnqueueEvent(block) =>
      var accepted := WellFormed(block, s.channels) && s.limitBytes != 0 && Fits(s, block);
      j.(s := Enqueue(s, block).0, accepted := j.accepted + if accepted then BlockItems(block) else [])
    case ChunkEvent(requested) =>
      if requested == 0 || !Whole(requested, s.channels) then j  // never requested
      else
        var (t, items) := Take(s, requested);
        var dry := Holding(s) || s.items == [];
        j.(s := Chunk(s, requested).0, heard := j.heard + items, output := j.output + Chunk(s, requested).1,
           taken := if dry then j.taken else j.taken + items,
           silence := if dry then j.silence + Quotient(requested, s.channels) else j.silence)
    case ResolveEvent(frames) => j.(s := Resolve(s, frames).0, silence := 0)
    case ResetEvent => j.(s := ResetGaps(s), silence := 0)
  }

  ghost predicate Good(j: Journal, start: Filter) {
    && Ready(j.s) && Shaped(start) && start.channels == j.s.channels
    && j.accepted == j.taken + j.s.items
    && Whole(|j.heard|, j.s.channels)
    && FilterStream(start, FramesOfItems(j.heard, start.channels)) == (j.s.filter, j.output)
    && j.s.credit == Min(j.s.maxCredit, j.silence)
  }

  lemma {:induction false} BlocksAreHomogeneous(items: seq<Item>, channels: nat, gap: bool)
    requires channels > 0 && forall i :: 0 <= i < |items| ==> items[i].Gap? == gap
    ensures Homogeneous(items, channels)
    decreases |items|
  {
    if |items| >= channels {
      BlocksAreHomogeneous(items[channels..], channels, gap);
    }
  }

  lemma {:induction false} EnqueueKeepsReady(s: Stream, b: Block)
    requires QueueReady(s)
    ensures QueueReady(Enqueue(s, b).0) && Enqueue(s, b).0.filter == s.filter
  {
    hide Whole;
    if WellFormed(b, s.channels) && Fits(s, b) {
      var items := BlockItems(b);
      WholeIsAMultiple(|items|, s.channels);
      WholeAdds(|s.items|, |items|, s.channels);
      BlocksAreHomogeneous(items, s.channels, b.GapOf?);
      ItemFramesConcatenate(s.items, items, s.channels);
    }
  }

  lemma {:induction false} TakeKeepsReady(s: Stream, requested: nat)
    requires QueueReady(s) && Whole(requested, s.channels)
    ensures QueueReady(Take(s, requested).0) && Whole(|Take(s, requested).1|, s.channels)
    ensures Homogeneous(Take(s, requested).1, s.channels)
    ensures Take(s, requested).0.filter == s.filter
  {
    hide Whole;
    if Holding(s) || s.items == [] {
      BlocksAreHomogeneous(Silence(requested), s.channels, true);
    } else {
      var n := Min(|s.items|, requested);
      var front, back := s.items[..n], s.items[n..];
      WholeAdds(n, |back|, s.channels);
      assert s.items == front + back;
      ItemFramesConcatenate(front, back, s.channels);
    }
  }

  /** One chunk plays exactly the items it takes, after everything heard before. */
  lemma {:induction false} ChunkExtendsOutput(start: Filter, s: Stream, heard: seq<Item>, output: seq<Sample>,
                                              requested: nat)
    requires Ready(s) && Whole(requested, s.channels) && Shaped(start) && start.channels == s.channels
    requires Whole(|heard|, s.channels)
    requires FilterStream(start, FramesOfItems(heard, start.channels)) == (s.filter, output)
    ensures var all := heard + Take(s, requested).1;
            && Whole(|all|, s.channels)
            && FilterStream(start, FramesOfItems(all, start.channels))
               == (Chunk(s, requested).0.filter, output + Chunk(s, requested).1)
  {
    hide FilterStream, FramesOfItems, Whole, Homogeneous;
    var items := Take(s, requested).1;
    TakeKeepsReady(s, requested);
    ItemFramesConcatenate(heard, items, s.channels);
    WholeAdds(|heard|, |items|, s.channels);
    StreamSplits(start, FramesOfItems(heard, s.channels), FramesOfItems(items, s.channels));
  }

  lemma {:induction false} EnqueueKeepsGood(j: Journal, b: Block, start: Filter)
    requires Good(j, start)
    ensures Good(Apply(j, EnqueueEvent(b)), start)
  {
    hide FilterStream, FramesOfItems, Whole, Homogeneous, WellFormed, BlockItems, Fits;
    EnqueueKeepsReady(j.s, b);
    assert j.accepted + [] == j.accepted;
    ConcatenationAssociates(j.taken, j.s.items, BlockItems(b));
  }

  lemma {:induction false} ConcatenationAssociates(a: seq<Item>, b: seq<Item>, c: seq<Item>)
    ensures (a + b) + c == a + (b + c)
  {
  }

  /** What taking does to the queue and to the silence credit. */
  lemma {:induction false} TakeSplitsQueue(s: Stream, requested: nat, silence: nat)
    requires s.channels > 0 && s.credit == Min(s.maxCredit, silence)
    ensures var (t, items) := Take(s, requested);
            var dry := Holding(s) || s.items == [];
            && t == s.(items := t.items, rebuffering := dry, credit := t.credit,
                       creditPending := s.creditPending || dry)
            && (if dry then t.items == s.items else s.items == items + t.items)
            && t.credit == Min(s.maxCredit, if dry then silence + Quotient(requested, s.channels) else silence)
  {
    hide Holding;
  }

  lemma {:induction false} ChunkKeepsGood(j: Journal, requested: nat, start: Filter)
    requires Good(j, start)
    ensures Good(Apply(j, ChunkEvent(requested)), start)
  {
    hide FilterStream, FramesOfItems, Whole, Homogeneous, Shaped, Take, Holding;
    var s := j.s;
    if requested != 0 && Whole(requested, s.channels) {
      TakeKeepsReady(s, requested);
      ChunkExtendsOutput(start, s, j.heard, j.output, requested);
      TakeSplitsQueue(s, requested, j.silence);
      var (t, items) := Take(s, requested);
      ConcatenationAssociates(j.taken, items, t.items);
    }
  }

  lemma {:induction false} ApplyKeepsGood(j: Journal, e: Event, start: Filter)
    requires Good(j, start)
    ensures Good(Apply(j, e), start)
  {
    hide Enqueue, Chunk;
    match e
    case EnqueueEvent(block) => EnqueueKeepsGood(j, block, start);
    case ChunkEvent(requested) => ChunkKeepsGood(j, requested, start);
    case ResolveEvent(frames) =>
    case ResetEvent =>
  }

  ghost function Run(j: Journal, events: seq<Event>, start: Filter): (r: Journal)
    requires Good(j, start)
    ensures Good(r, start)
    decreases |events|
  {
    if events == [] then j
    else
      var before := Run(j, events[..|events| - 1], start);
      ApplyKeepsGood(before, events[|events| - 1], start);
      Apply(before, events[|events| - 1])
  }

  function Opened(sampleRate: nat, channels: nat): Journal
    requires channels > 0
  {
    Journal(Open(sampleRate, channels), [], [], [], [], 0)
  }

  lemma {:induction false} OpenedIsGood(sampleRate: nat, channels: nat)
    requires 1 <= channels <= MAX_CHANNELS
    ensures Good(Opened(sampleRate, channels), Reset(sampleRate, channels))
  {
    hide LimitBytes;
  }

  // ---------------------------------------------------------------- main results

  /** What went through the queue alone, whatever becomes of it. */
  datatype Traffic = Traffic(s: Stream, accepted: seq<Item>, taken: seq<Item>, silence: nat)

  function Pass(t: Traffic, e: Event): (r: Traffic)
    requires t.s.channels > 0
    ensures r.s.channels == t.s.channels
  {
    var s := t.s;
    match e
    case EnqueueEvent(block) =>
      var accepted := WellFormed(block, s.channels) && s.limitBytes != 0 && Fits(s, block);
      t.(s := Enqueue(s, block).0, accepted := t.accepted + if accepted then BlockItems(block) else [])
    case ChunkEvent(requested) =>
      if requested == 0 || !Whole(requested, s.channels) then t
      else
        var (after, items) := Take(s, requested);
        var dry := Holding(s) || s.items == [];
        t.(s := after, taken := if dry then t.taken else t.taken + items,
           silence := if dry then t.silence + Quotient(requested, s.channels) else t.silence)
    case ResolveEvent(frames) => t.(s := Resolve(s, frames).0, silence := 0)
    case ResetEvent => t.(s := ResetGaps(s), silence := 0)
  }

  function PassAll(t: Traffic, events: seq<Event>): (r: Traffic)
    requires t.s.channels > 0
    ensures r.s.channels == t.s.channels
    decreases |events|
  {
    if events == [] then t else Pass(PassAll(t, events[..|events| - 1]), events[|events| - 1])
  }

  predicate Flowing(t: Traffic) {
    QueueReady(t.s) && t.accepted == t.taken + t.s.items && t.s.credit == Min(t.s.maxCredit, t.silence)
  }

  lemma {:induction false} PassKeepsFlowing(t: Traffic, e: Event)
    requires Flowing(t)
    ensures Flowing(Pass(t, e))
  {
    hide Whole, Homogeneous, WellFormed, BlockItems, Fits, Take, Holding;
    match e
    case EnqueueEvent(block) =>
      EnqueueKeepsReady(t.s, block);
      ConcatenationAssociates(t.taken, t.s.items, BlockItems(block));
      assert t.accepted + [] == t.accepted;
    case ChunkEvent(requested) =>
      if requested != 0 && Whole(requested, t.s.channels) {
        TakeKeepsReady(t.s, requested);
        TakeSplitsQueue(t.s, requested, t.silence);
        ConcatenationAssociates(t.taken, Take(t.s, requested).1, Take(t.s, requested).0.items);
      }
    case ResolveEvent(frames) =>
    case ResetEvent =>
  }

  lemma {:induction false} FlowingHasChannels(t: Traffic)
    requires Flowing(t)
    ensures t.s.channels > 0
  {
  }

  lemma {:induction false} RunKeepsFlowing(t: Traffic, events: seq<Event>)
    requires Flowing(t)
    ensures Flowing(PassAll(t, events))
    decreases |events|
  {
    hide Pass, QueueReady;
    FlowingHasChannels(t);
    if events != [] {
      RunKeepsFlowing(t, events[..|events| - 1]);
      PassKeepsFlowing(PassAll(t, events[..|events| - 1]), events[|events| - 1]);
    }
  }

  /**
   Over every run, with any number of channels, the queue holds exactly the accepted items not yet taken,
   in order, in whole frames and within its limit.
   */
  lemma {:induction false} RingIsAFifo(sampleRate: nat, channels: nat, events: seq<Event>)
    requires channels > 0
    ensures var t := PassAll(Traffic(Open(sampleRate, channels), [], [], 0), events);
            && t.accepted == t.taken + t.s.items
            && Whole(|t.s.items|, channels) && Homogeneous(t.s.items, channels) && |t.s.items| * 2 <= t.s.limitBytes
  {
    hide LimitBytes, MillisecondsOfBytes, Pass, PassAll;
    RunKeepsFlowing(Traffic(Open(sampleRate, channels), [], [], 0), events);
  }

  /** The queue's part of a journal. */
  function TrafficOf(j: Journal, filter: Filter): Traffic {
    Traffic(j.s.(filter := filter), j.accepted, j.taken, j.silence)
  }

  /** The filter sits behind the queue: a run with it moves the same items as the queue alone. */
  lemma {:induction false} FilterIsBehindTheQueue(j: Journal, events: seq<Event>, start: Filter)
    requires Good(j, start)
    ensures TrafficOf(Run(j, events, start), j.s.filter) == PassAll(TrafficOf(j, j.s.filter), events)
    decreases |events|
  {
    hide Apply, Pass, Good;
    if events != [] {
      FilterIsBehindTheQueue(j, events[..|events| - 1], start);
      var before := Run(j, events[..|events| - 1], start);
      GoodIsReady(before, start);
      StepMovesTheSame(before, events[|events| - 1], j.s.filter);
    }
  }

  lemma {:induction false} StepMovesTheSame(j: Journal, e: Event, filter: Filter)
    requires Ready(j.s)
    ensures j.s.channels > 0 && TrafficOf(Apply(j, e), filter) == Pass(TrafficOf(j, filter), e)
  {
    hide Whole, Homogeneous, WellFormed, BlockItems, FilterStream, FramesOfItems, Quotient;
  }

  /**
   Over every run the samples sent to the host are those of one pass of the filter over what was
   heard. A gap carries no sample, so nothing left in the queue's storage can reach the host.
   */
  lemma {:induction false} OutputIsTheFilteredStream(sampleRate: nat, channels: nat, events: seq<Event>)
    requires 1 <= channels <= MAX_CHANNELS
    ensures Good(Opened(sampleRate, channels), Reset(sampleRate, channels))
    ensures var start := Reset(sampleRate, channels);
            var j := Run(Opened(sampleRate, channels), events, start);
            j.output == FilterStream(start, FramesOfItems(j.heard, start.channels)).1
  {
    OpenedIsGood(sampleRate, channels);
  }

  /**
   Stale DMA frames are accounted for exactly once: silence the host played since the last
   resolution covers them first, up to the credit limit, and the rest is queued. The shortcut that
   reads no credit when none is pending gives the same answer.
   */
  lemma {:induction false} StaleFramesAreCountedOnce(sampleRate: nat, channels: nat, events: seq<Event>, frames: nat)
    requires 1 <= channels <= MAX_CHANNELS
    ensures Good(Opened(sampleRate, channels), Reset(sampleRate, channels))
    ensures var j := Run(Opened(sampleRate, channels), events, Reset(sampleRate, channels));
            var (s, (covered, queued)) := Resolve(j.s, frames);
            && covered == Min(frames, Min(j.s.maxCredit, j.silence)) && covered + queued == frames
            && s.credit == 0 && !s.creditPending && s.items == j.s.items
  {
    OpenedIsGood(sampleRate, channels);
  }

  /** A block is queued whole or not at all, and is refused only when malformed or when no queue is open. */
  lemma {:induction false} BlocksAreNeverSplit(s: Stream, b: Block)
    requires Ready(s)
    ensures var (t, ok) := Enqueue(s, b);
            && (ok <==> WellFormed(b, s.channels) && s.limitBytes != 0)
            && (t.items == s.items || t.items == s.items + BlockItems(b))
            && (ok && |s.items| * 2 + |BlockItems(b)| * 2 <= s.limitBytes ==> t.items == s.items + BlockItems(b))
            && t == s.(items := t.items)
  {
  }

  // ---------------------------------------------------------------- a whole callback

  /** The samples asked for next, in whole frames and no more than the scratch buffer holds. */
  function NextRequest(bytes: nat, channels: nat): nat
    requires channels > 0
  {
    RequestIsNat(bytes, channels);
    Min(bytes / (2 * channels) * channels, SCRATCH / channels * channels)
  }

  lemma {:induction false} RequestIsNat(bytes: nat, channels: nat)
    requires channels > 0
    ensures bytes / (2 * channels) * channels >= 0 && SCRATCH / channels * channels >= 0
  {
    ProductIsNat(bytes / (2 * channels), channels);
    ProductIsNat(SCRATCH / channels, channels);
  }

  lemma {:induction false} RequestIsWhole(bytes: nat, channels: nat)
    requires 1 <= channels <= MAX_CHANNELS
    ensures var n := NextRequest(bytes, channels);
            && Whole(n, channels) && 2 * n <= bytes && (n == 0 <==> bytes < 2 * channels)
  {
    var frame := 2 * channels;
    var q, scratch := bytes / frame, SCRATCH / channels;
    MultipleIsWhole(q, channels);
    MultipleIsWhole(scratch, channels);
    Divided(bytes, frame);
    FramesAreTwoBytesEach(bytes, q, channels, frame, bytes % frame);
    assert scratch >= 1 by { QuotientIsBetween(SCRATCH, channels, 1, SCRATCH); }
    LessTimes(0, scratch, channels);
    hide Whole;
  }

  lemma {:induction false} Divided(x: nat, n: nat)
    requires n > 0
    ensures x == x / n * n + x % n && 0 <= x % n < n
  {
  }

  /** The samples of q frames, against the bytes they came from: none only for less than one frame. */
  lemma {:induction false} FramesAreTwoBytesEach(bytes: nat, q: nat, channels: nat, frame: nat, rest: nat)
    requires channels > 0 && frame == 2 * channels && bytes == q * frame + rest && rest < frame
    ensures 0 <= 2 * (q * channels) <= bytes && (q * channels == 0 <==> bytes < frame)
  {
    Twice(q, channels);
    if q > 0 {
      LessTimes(0, q, channels);
    }
  }

  lemma {:induction false} Twice(q: nat, channels: nat)
    ensures q * (2 * channels) == 2 * (q * channels)
  {
  }

  lemma {:induction false} MultipleIsWhole(k: nat, channels: nat)
    requires channels > 0
    ensures k * channels >= 0 && Whole(k * channels, channels)
  {
    ProductIsNat(k, channels);
    MultipleOverItself(k, channels);
    WholeFrames(k * channels, channels);
  }

  lemma {:induction false} FilteredLength(f: Filter, items: seq<Item>)
    requires Shaped(f) && Whole(|items|, f.channels)
    ensures |FilterStream(f, FramesOfItems(items, f.channels)).1| == |items|
    decreases |items|
  {
    hide FilterFrame, FilterStream;
    var c := f.channels;
    if items == [] {
      EmptyStream(f);
    } else {
      var frame := Frame(Values(items[..c]), items[0].Gap?);
      OneFrame(f, frame);
      StreamSplits(f, [frame], FramesOfItems(items[c..], c));
      FilteredLength(FilterStream(f, [frame]).0, items[c..]);
    }
  }

  lemma {:induction false} EmptyStream(f: Filter)
    requires Shaped(f)
    ensures FilterStream(f, []) == (f, [])
  {
  }

  lemma {:induction false} ChunkKeepsReady(s: Stream, requested: nat)
    requires Ready(s) && Whole(requested, s.channels)
    ensures var (t, out) := Chunk(s, requested);
            && Ready(t) && t.channels == s.channels
            && Whole(|out|, s.channels) && |out| <= requested && (requested > 0 ==> |out| > 0)
  {
    hide FilterStream, FramesOfItems, Whole, Homogeneous, Shaped, Holding;
    TakeKeepsReady(s, requested);
    FilteredLength(s.filter, Take(s, requested).1);
  }

  /** The loop of one callback: chunks until the request is met or the device refuses one. */
  function Feed(s: Stream, bytes: nat, puts: nat): (r: (Stream, seq<Sample>))
    requires Ready(s)
    ensures Ready(r.0)
    decreases bytes
  {
    RequestIsWhole(bytes, s.channels);
    var requested := NextRequest(bytes, s.channels);
    if requested == 0 then (s, [])
    else
      ChunkKeepsReady(s, requested);
      var (t, out) := Chunk(s, requested);
      if puts == 0 then (t, [])
      else
        var (u, rest) := Feed(t, bytes - 2 * |out|, puts - 1);
        (u, out + rest)
  }

  lemma {:induction false} ReadyHasChannels(s: Stream)
    requires Ready(s)
    ensures 1 <= s.channels <= MAX_CHANNELS && Shaped(s.filter) && s.filter.channels == s.channels
  {
  }

  /** The chunks of one callback, as events. */
  ghost function FeedEvents(s: Stream, bytes: nat, puts: nat): seq<Event>
    requires Ready(s)
    decreases bytes
  {
    RequestIsWhole(bytes, s.channels);
    var requested := NextRequest(bytes, s.channels);
    if requested == 0 then []
    else
      ChunkKeepsReady(s, requested);
      var (t, out) := Chunk(s, requested);
      [ChunkEvent(requested)] + if puts == 0 then [] else FeedEvents(t, bytes - 2 * |out|, puts - 1)
  }

  lemma {:induction false} FeedNothing(s: Stream, bytes: nat, puts: nat)
    requires Ready(s) && NextRequest(bytes, s.channels) == 0
    ensures Feed(s, bytes, puts) == (s, []) && FeedEvents(s, bytes, puts) == []
    ensures Whole(|Feed(s, bytes, puts).1|, s.channels)
  {
  }

  lemma {:induction false} RunNothing(j: Journal, start: Filter)
    requires Good(j, start)
    ensures Run(j, [], start) == j
  {
  }

  /** One turn of the callback loop. */
  lemma {:induction false} FeedTurn(s: Stream, bytes: nat, puts: nat)
    requires Ready(s) && NextRequest(bytes, s.channels) > 0
    ensures var requested := NextRequest(bytes, s.channels);
            && Whole(requested, s.channels) && Ready(Chunk(s, requested).0)
            && Whole(|Chunk(s, requested).1|, s.channels) && Chunk(s, requested).0.channels == s.channels
            && 0 < 2 * |Chunk(s, requested).1| <= bytes
            && var (t, out) := Chunk(s, requested);
               var rest := bytes - 2 * |out|;
               && (puts == 0 ==> && Feed(s, bytes, puts) == (t, [])
                                 && FeedEvents(s, bytes, puts) == [ChunkEvent(requested)])
               && (puts > 0 ==> && Feed(s, bytes, puts).0 == Feed(t, rest, puts - 1).0
                                && Feed(s, bytes, puts).1 == out + Feed(t, rest, puts - 1).1
                                && FeedEvents(s, bytes, puts)
                                   == [ChunkEvent(requested)] + FeedEvents(t, rest, puts - 1))
  {
    hide Ready, Chunk;
    ReadyHasChannels(s);
    RequestIsWhole(bytes, s.channels);
    ChunkKeepsReady(s, NextRequest(bytes, s.channels));
  }

  /** Unless the device refuses a chunk, a callback gets every whole frame it asked for. */
  lemma {:induction false} FeedFillsRequest(s: Stream, bytes: nat, puts: nat)
    requires Ready(s) && bytes <= puts
    ensures Whole(|Feed(s, bytes, puts).1|, s.channels)
    ensures 0 <= bytes - 2 * |Feed(s, bytes, puts).1| < 2 * s.channels
    decreases bytes
  {
    hide Ready, Chunk, Feed, NextRequest, Whole, FeedEvents;
    ReadyHasChannels(s);
    RequestIsWhole(bytes, s.channels);
    if NextRequest(bytes, s.channels) == 0 {
      FeedNothing(s, bytes, puts);
    } else {
      FeedTurn(s, bytes, puts);
      var (t, out) := Chunk(s, NextRequest(bytes, s.channels));
      FeedFillsRequest(t, bytes - 2 * |out|, puts - 1);
      WholeAdds(|out|, |Feed(t, bytes - 2 * |out|, puts - 1).1|, s.channels);
    }
  }

  lemma {:induction false} RunFirst(j: Journal, e: Event, rest: seq<Event>, start: Filter)
    requires Good(j, start)
    ensures Good(Apply(j, e), start)
    ensures Run(j, [e] + rest, start) == Run(Apply(j, e), rest, start)
    decreases |rest|
  {
    hide Apply, Good;
    var events := [e] + rest;
    if rest == [] {
      assert events == [e] && events[..0] == [];
      assert Run(j, events[..0], start) == j;
      ApplyKeepsGood(j, e, start);
    } else {
      assert events[..|events| - 1] == [e] + rest[..|rest| - 1];
      RunFirst(j, e, rest[..|rest| - 1], start);
    }
  }

  /** A callback is a run of chunks, so every result about runs holds with callbacks in them. */
  lemma {:induction false} FeedIsARun(j: Journal, bytes: nat, puts: nat, start: Filter)
    requires Good(j, start)
    ensures var after := Run(j, FeedEvents(j.s, bytes, puts), start);
            && after.s == Feed(j.s, bytes, puts).0
            && j.output + Feed(j.s, bytes, puts).1 <= after.output
    decreases bytes
  {
    hide Good, Chunk, Take, Feed, FeedEvents, NextRequest, Ready, Apply, Run;
    GoodIsReady(j, start);
    ReadyHasChannels(j.s);
    if NextRequest(bytes, j.s.channels) == 0 {
      FeedNothing(j.s, bytes, puts);
      RunNothing(j, start);
    } else {
      var requested := NextRequest(bytes, j.s.channels);
      FeedTurn(j.s, bytes, puts);
      ChunkIsApplied(j, requested);
      var (t, out) := Chunk(j.s, requested);
      var next := Apply(j, ChunkEvent(requested));
      if puts == 0 {
        var none: seq<Event> := [];
        assert [ChunkEvent(requested)] == [ChunkEvent(requested)] + none;
        RunFirst(j, ChunkEvent(requested), none, start);
        RunNothing(next, start);
      } else {
        RunFirst(j, ChunkEvent(requested), FeedEvents(t, bytes - 2 * |out|, puts - 1), start);
        FeedIsARun(next, bytes - 2 * |out|, puts - 1, start);
        var tail := Feed(t, bytes - 2 * |out|, puts - 1).1;
        assert j.output + (out + tail) == next.output + tail;
      }
    }
  }

  lemma {:induction false} ChunkIsApplied(j: Journal, requested: nat)
    requires Ready(j.s) && requested > 0 && Whole(requested, j.s.channels)
    ensures Apply(j, ChunkEvent(requested)).s == Chunk(j.s, requested).0
    ensures Apply(j, ChunkEvent(requested)).output == j.output + Chunk(j.s, requested).1
  {
    hide Chunk, Take;
  }

  lemma {:induction false} GoodIsReady(j: Journal, start: Filter)
    requires Good(j, start)
    ensures Ready(j.s) && Shaped(start)
  {
  }
}
