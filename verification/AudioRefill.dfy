/**
 When the audio queue plays and when it is silent: it falls silent only after running dry, stays silent
 while it refills to 96 ms, and cannot stay silent while blocks of a fitting size keep coming.
 */
module AudioRefill {
  import opened Arithmetic
  import opened PlaybackContinuity
  import opened AudioRing

  /** A callback asks for at least one whole frame. */
  predicate Asks(requested: nat, channels: nat) {
    requested > 0 && Whole(requested, channels)
  }

  /** What a chunk plays out of the queue, stated by the bytes that are queued. */
  lemma {:induction false} ChunkPlaysOrWaits(t: Traffic, requested: nat)
    requires Flowing(t) && Asks(requested, t.s.channels)
    ensures t.s.channels > 0
    ensures var after, n := Pass(t, ChunkEvent(requested)), Min(|t.s.items|, requested);
            if t.s.items != [] && (t.s.rebuffering ==> 2 * |t.s.items| >= t.s.rebufferBytes) then
              && after.taken == t.taken + t.s.items[..n] && after.s.items == t.s.items[n..] && n > 0
              && !after.s.rebuffering && after.silence == t.silence
            else
              && after.taken == t.taken && after.s.items == t.s.items && after.s.rebuffering
              && after.silence == t.silence + requested / t.s.channels
  {
    hide Homogeneous, Whole;
  }

  // ---------------------------------------------------------------- silence begins with an empty queue

  /** Event i was a chunk that found the queue empty, and nothing has been played since. */
  ghost predicate RanDry(t: Traffic, events: seq<Event>, i: nat)
    requires t.s.channels > 0 && i < |events|
  {
    && events[i].ChunkEvent? && Asks(events[i].requested, t.s.channels)
    && PassAll(t, events[..i]).s.items == []
    && PassAll(t, events[..i]).taken == PassAll(t, events).taken
  }

  lemma {:induction false} PassKeepsStream(t: Traffic, e: Event)
    requires t.s.channels > 0
    ensures var s, r := t.s, Pass(t, e).s;
            && r.channels == s.channels && r.rebufferBytes == s.rebufferBytes && r.limitBytes == s.limitBytes
            && (!e.ChunkEvent? ==> Pass(t, e).taken == t.taken && (r.rebuffering ==> s.rebuffering))
            && (e.ChunkEvent? && !Asks(e.requested, s.channels) ==> Pass(t, e) == t)
  {
    hide Whole, Fits, WellFormed, BlockItems, Quotient;
  }

  lemma {:induction false} OpenedFlows(sampleRate: nat, channels: nat)
    requires channels > 0
    ensures Flowing(Traffic(Open(sampleRate, channels), [], [], 0))
  {
    hide LimitBytes, MillisecondsOfBytes;
  }

  /** In every run the player refills only because a chunk found the queue empty and nothing was played since. */
  lemma {:induction false} RefillingBeganDry(sampleRate: nat, channels: nat, events: seq<Event>)
    requires channels > 0
    ensures var t := Traffic(Open(sampleRate, channels), [], [], 0);
            PassAll(t, events).s.rebuffering ==> exists i :: 0 <= i < |events| && RanDry(t, events, i)
    decreases |events|
  {
    hide LimitBytes, Pass, Whole;
    var t := Traffic(Open(sampleRate, channels), [], [], 0);
    if events != [] {
      var n := |events| - 1;
      var init, e := events[..n], events[n];
      var before := PassAll(t, init);
      RefillingBeganDry(sampleRate, channels, init);
      OpenedFlows(sampleRate, channels);
      RunKeepsFlowing(t, init);
      RunKeepsStream(t, init);
      PassKeepsStream(before, e);
      if e.ChunkEvent? && Asks(e.requested, channels) {
        ChunkPlaysOrWaits(before, e.requested);
        if before.s.items == [] {
          assert RanDry(t, events, n);
        }
      }
      if PassAll(t, events).s.rebuffering && before.s.rebuffering && before.taken == PassAll(t, events).taken {
        var i :| 0 <= i < n && RanDry(t, init, i);
        assert events[..i] == init[..i] && events[i] == init[i];
        assert RanDry(t, events, i);
      }
    }
  }

  lemma {:induction false} RunKeepsStream(t: Traffic, events: seq<Event>)
    requires t.s.channels > 0
    ensures var s, r := t.s, PassAll(t, events).s;
            r.channels == s.channels && r.rebufferBytes == s.rebufferBytes && r.limitBytes == s.limitBytes
    decreases |events|
  {
    hide Pass;
    if events != [] {
      RunKeepsStream(t, events[..|events| - 1]);
      PassKeepsStream(PassAll(t, events[..|events| - 1]), events[|events| - 1]);
    }
  }

  // ---------------------------------------------------------------- silence ends

  /** The bytes the producer hands over. */
  function Offered(events: seq<Event>): nat
    decreases |events|
  {
    if events == [] then 0
    else
      Offered(events[..|events| - 1]) +
      match events[|events| - 1]
      case EnqueueEvent(block) => 2 * |BlockItems(block)|
      case _ => 0
  }

  /** Blocks of whole frames that leave room for the refill threshold, and chunks, and nothing that resets. */
  predicate Refill(s: Stream, e: Event) {
    match e
    case EnqueueEvent(block) =>
      WellFormed(block, s.channels) && 2 * |BlockItems(block)| + s.rebufferBytes <= s.limitBytes
    case ChunkEvent(requested) => true
    case ResolveEvent(frames) => true
    case ResetEvent => true
  }

  lemma {:induction false} RefillStep(t: Traffic, e: Event)
    requires Flowing(t) && Refill(t.s, e)
    ensures t.s.channels > 0
    ensures var r := Pass(t, e);
            |r.taken| >= |t.taken| && (r.taken != t.taken ==> |r.taken| > |t.taken|)
    ensures var r := Pass(t, e);
            r.taken == t.taken ==>
              2 * |r.s.items| >= Min(t.s.rebufferBytes, 2 * |t.s.items| + Offered([e]))
  {
    hide Whole, Homogeneous, WellFormed, BlockItems, Quotient;
    PassKeepsStream(t, e);
    OfferedOnce(e);
    if e.ChunkEvent? && Asks(e.requested, t.s.channels) {
      ChunkPlaysOrWaits(t, e.requested);
    }
  }

  lemma {:induction false} OfferedOnce(e: Event)
    ensures Offered([e]) == if e.EnqueueEvent? then 2 * |BlockItems(e.block)| else 0
  {
    assert [e][..0] == [];
  }

  lemma {:induction false} RefillProgress(t: Traffic, events: seq<Event>)
    requires Flowing(t) && forall i :: 0 <= i < |events| ==> Refill(t.s, events[i])
    ensures t.s.channels > 0
    ensures |PassAll(t, events).taken| >= |t.taken|
    ensures PassAll(t, events).taken == t.taken ==>
        2 * |PassAll(t, events).s.items| >= Min(t.s.rebufferBytes, 2 * |t.s.items| + Offered(events))
    ensures PassAll(t, events).taken != t.taken ==> |PassAll(t, events).taken| > |t.taken|
    decreases |events|
  {
    hide Pass, Flowing, BlockItems, WellFormed;
    FlowingHasChannels(t);
    if events != [] {
      var n := |events| - 1;
      RefillProgress(t, events[..n]);
      RunKeepsFlowing(t, events[..n]);
      RunKeepsStream(t, events[..n]);
      OfferedOnce(events[n]);
      RefillStep(PassAll(t, events[..n]), events[n]);
    }
  }

  /**
   Silence ends. Once the blocks handed over, each leaving room for the refill threshold, amount to the
   threshold with what was queued, then whatever chunks came in between, the queue has played or the next
   chunk plays from it.
   */
  lemma {:induction false} SilenceEnds(t: Traffic, events: seq<Event>, requested: nat)
    requires Flowing(t) && forall i :: 0 <= i < |events| ==> Refill(t.s, events[i])
    requires Asks(requested, t.s.channels) && t.s.rebufferBytes > 0
    requires 2 * |t.s.items| + Offered(events) >= t.s.rebufferBytes
    ensures t.s.channels > 0
    ensures |PassAll(t, events + [ChunkEvent(requested)]).taken| > |t.taken|
  {
    hide Pass, Whole, Flowing, Refill;
    FlowingHasChannels(t);
    RefillProgress(t, events);
    RunKeepsFlowing(t, events);
    RunKeepsStream(t, events);
    assert (events + [ChunkEvent(requested)])[..|events|] == events;
    ChunkPlaysOrWaits(PassAll(t, events), requested);
  }

  /** A chunk, or a block that finds no room beside what is queued. */
  predicate Starving(s: Stream, e: Event) {
    match e
    case EnqueueEvent(block) => 2 * |s.items| + 2 * |BlockItems(block)| > s.limitBytes
    case ChunkEvent(requested) => true
    case ResolveEvent(frames) => true
    case ResetEvent => false
  }

  /** The room is needed: while every block is too long for it, a refilling queue stays silent for ever. */
  lemma {:induction false} LongBlocksStarve(t: Traffic, events: seq<Event>)
    requires Flowing(t) && t.s.rebuffering && 2 * |t.s.items| < t.s.rebufferBytes
    requires forall i :: 0 <= i < |events| ==> Starving(t.s, events[i])
    ensures t.s.channels > 0
    ensures var r := PassAll(t, events);
            r.taken == t.taken && r.s.items == t.s.items && r.s.rebuffering
    decreases |events|
  {
    hide Pass, Flowing, BlockItems;
    FlowingHasChannels(t);
    if events != [] {
      var n := |events| - 1;
      var before, e := PassAll(t, events[..n]), events[n];
      LongBlocksStarve(t, events[..n]);
      RunKeepsFlowing(t, events[..n]);
      RunKeepsStream(t, events[..n]);
      StarvingStep(before, e);
    }
  }

  lemma {:induction false} StarvingStep(t: Traffic, e: Event)
    requires Flowing(t) && Starving(t.s, e) && t.s.rebuffering && 2 * |t.s.items| < t.s.rebufferBytes
    ensures t.s.channels > 0
    ensures var r := Pass(t, e);
            r.taken == t.taken && r.s.items == t.s.items && r.s.rebuffering
  {
    hide Whole, Homogeneous, WellFormed, BlockItems, Quotient;
  }

  // ---------------------------------------------------------------- the thresholds in milliseconds

  lemma {:induction false} MillisecondsAreBytes(ms: nat, sampleRate: nat, channels: nat)
    requires sampleRate * channels * 2 * ms < 1000 * 0x1_0000_0000
    ensures var bytes := MillisecondsOfBytes(ms, sampleRate, channels);
            bytes * 1000 <= sampleRate * channels * 2 * ms < bytes * 1000 + 1000
  {
  }

  /**
   A stream of 10 Hz or more queues up to 256 ms in whole frames, opens silent and not refilling, refills to
   96 ms, and always has room for that.
   */
  lemma {:induction false} OpenedLimits(sampleRate: nat, channels: nat)
    requires channels > 0 && 10 <= sampleRate && sampleRate * channels < 0x1_0000_0000
    ensures var s, bytesPerSecond := Open(sampleRate, channels), sampleRate * channels * 2;
            && s.channels == channels && s.items == [] && !s.rebuffering && s.credit == 0 && !s.creditPending
            && s.limitBytes % (2 * channels) == 0
            && s.limitBytes * 1000 <= bytesPerSecond * 256 < (s.limitBytes + 2 * channels) * 1000
            && s.rebufferBytes * 1000 <= bytesPerSecond * 96 < s.rebufferBytes * 1000 + 1000
            && 0 < s.rebufferBytes <= s.limitBytes && s.maxCredit == s.limitBytes / (2 * channels)
  {
    hide MillisecondsOfBytes;
    var product := sampleRate * channels;
    LessTimes(9, sampleRate, channels);
    assert product >= 10 * channels;
    MillisecondsAreBytes(96, sampleRate, channels);
    MillisecondsAreBytes(256, sampleRate, channels);
    var full := MillisecondsOfBytes(256, sampleRate, channels);
    RoundedDown(full, 2 * channels);
  }

  lemma {:induction false} RoundedDown(x: nat, n: nat)
    requires n > 0
    ensures (x - x % n) % n == 0 && x - x % n <= x < x - x % n + n
  {
    DivModUnique(x - x % n, n, x / n, 0);
  }
}
