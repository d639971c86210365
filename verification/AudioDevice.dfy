/**
 The queue as the backend keeps it: two fixed arrays with wrapping indices, drained in place.

 Each contract ties the arrays to the functions of AudioRing on the items they stand for. A cell under
 a gap flag stands for a gap whatever sample an older block left in it.
 */
module AudioDevice {
  import opened Arithmetic
  import opened PlaybackContinuity
  import opened AudioRing

  // ---------------------------------------------------------------- the ring's cells

  function Wrap(i: nat, capacity: nat): nat {
    if i < capacity then i else i - capacity
  }

  /** Whether cell i is one of the n cells from write on, wrapping. */
  predicate InWindow(i: nat, write: nat, n: nat, capacity: nat) {
    write <= i < write + n || write <= i + capacity < write + n
  }

  lemma {:induction false} WrapIsInWindow(k: nat, write: nat, n: nat, capacity: nat)
    requires k < n <= capacity && write < capacity
    ensures Wrap(write + k, capacity) < capacity && InWindow(Wrap(write + k, capacity), write, n, capacity)
  {
  }

  /** The item a cell stands for; a gap cell's stored sample is meaningless. */
  function Cell(samples: seq<Sample>, gaps: seq<bool>, i: nat): Item
    requires i < |samples| == |gaps|
  {
    if gaps[i] then Gap else Pcm(samples[i])
  }

  function QueueOf(samples: seq<Sample>, gaps: seq<bool>, read: nat, count: nat): (r: seq<Item>)
    requires |samples| == |gaps| && count <= |samples| && (read < |samples| || count == 0)
    ensures |r| == count
  {
    seq(count, k requires 0 <= k < count => Cell(samples, gaps, Wrap(read + k, |samples|)))
  }

  /** Writing past the end of the queue, wrapping, appends to it. */
  lemma {:induction false} WritingAppends(samples: seq<Sample>, gaps: seq<bool>, read: nat, count: nat,
                                          samples': seq<Sample>, gaps': seq<bool>, items: seq<Item>)
    requires |samples| == |gaps| == |samples'| == |gaps'| && read < |samples| && count + |items| <= |samples|
    requires var write := Wrap(read + count, |samples|);
             && (forall k: nat :: k < |items| ==> Cell(samples', gaps', Wrap(write + k, |samples|)) == items[k])
             && (forall i: nat :: i < |samples| && !InWindow(i, write, |items|, |samples|) ==>
                   samples'[i] == samples[i] && gaps'[i] == gaps[i])
    ensures QueueOf(samples', gaps', read, count + |items|) == QueueOf(samples, gaps, read, count) + items
  {
    var was, now := QueueOf(samples, gaps, read, count), QueueOf(samples', gaps', read, count + |items|);
    var write := Wrap(read + count, |samples|);
    forall k: nat | k < count ensures now[k] == was[k] {
      var i := Wrap(read + k, |samples|);
      assert samples'[i] == samples[i] && gaps'[i] == gaps[i];
      assert now[k] == Cell(samples', gaps', i) && was[k] == Cell(samples, gaps, i);
    }
    forall k: nat | k < |items| ensures now[count + k] == items[k] {
      assert Wrap(read + (count + k), |samples|) == Wrap(write + k, |samples|);
    }
    assert now == was + items;
  }

  /** now is was with data written from a cell on, wrapping. */
  ghost predicate SamplesCopied(was: seq<Sample>, now: seq<Sample>, write: nat, data: seq<Sample>) {
    && |now| == |was| && write < |was| && |data| <= |was|
    && (forall k: nat :: k < |data| ==> now[Wrap(write + k, |was|)] == data[k])
    && (forall i: nat :: i < |was| && !InWindow(i, write, |data|, |was|) ==> now[i] == was[i])
  }

  /** now is was with n flags set from a cell on, wrapping. */
  ghost predicate GapsFilled(was: seq<bool>, now: seq<bool>, write: nat, n: nat, gap: bool) {
    && |now| == |was|
    && forall i: nat :: i < |was| ==> now[i] == if InWindow(i, write, n, |was|) then gap else was[i]
  }

  /** What copying a block in leaves in the two arrays is the queue with the block appended. */
  lemma {:induction false} BlockAppends(samples: seq<Sample>, gaps: seq<bool>, read: nat, count: nat,
                                        samples': seq<Sample>, gaps': seq<bool>, block: Block)
    requires |samples| == |gaps| == |samples'| == |gaps'| && read < |samples|
    requires !block.NoData? && count + |BlockItems(block)| <= |samples|
    requires var write := Wrap(read + count, |samples|);
             && GapsFilled(gaps, gaps', write, |BlockItems(block)|, block.GapOf?)
             && (if block.Samples? then SamplesCopied(samples, samples', write, block.data) else samples' == samples)
    ensures QueueOf(samples', gaps', read, count + |BlockItems(block)|)
            == QueueOf(samples, gaps, read, count) + BlockItems(block)
  {
    hide Wrap, InWindow, QueueOf;
    var items := BlockItems(block);
    var write := Wrap(read + count, |samples|);
    WrapStaysInside(read + count, |samples|);
    forall k: nat | k < |items|
      ensures Wrap(write + k, |samples|) < |samples| && Cell(samples', gaps', Wrap(write + k, |samples|)) == items[k]
    {
      WrapIsInWindow(k, write, |items|, |samples|);
      assert gaps'[Wrap(write + k, |samples|)] == block.GapOf?;
    }
    WritingAppends(samples, gaps, read, count, samples', gaps', items);
  }

  lemma {:induction false} WrapStaysInside(i: nat, capacity: nat)
    requires i < 2 * capacity
    ensures Wrap(i, capacity) < capacity
  {
  }

  /** Advancing the read index drops from the front. */
  lemma {:induction false} ReadingDrops(samples: seq<Sample>, gaps: seq<bool>, read: nat, count: nat, n: nat)
    requires |samples| == |gaps| && count <= |samples| && read < |samples| && n <= count
    ensures QueueOf(samples, gaps, Wrap(read + n, |samples|), count - n) == QueueOf(samples, gaps, read, count)[n..]
  {
    var was := QueueOf(samples, gaps, read, count);
    var now := QueueOf(samples, gaps, Wrap(read + n, |samples|), count - n);
    forall k: nat | k < count - n ensures now[k] == was[n..][k] {
      assert Wrap(Wrap(read + n, |samples|) + k, |samples|) == Wrap(read + (n + k), |samples|);
    }
    assert now == was[n..];
  }

  function Saturating(a: nat, b: nat): nat { if b <= a then a - b else 0 }

  // ---------------------------------------------------------------- runs of equal frames

  /** A scratch buffer that carries these items; samples under a gap flag may be anything. */
  predicate Carries(samples: seq<Sample>, gaps: seq<bool>, items: seq<Item>) {
    && |samples| == |gaps| == |items|
    && forall i :: 0 <= i < |items| ==> Cell(samples, gaps, i) == items[i]
  }

  lemma {:induction false} GapRunIgnoresSamples(f: Filter, items: seq<Item>, samples: seq<Sample>)
    requires Shaped(f) && Whole(|items|, f.channels) && |samples| == |items|
    requires forall i :: 0 <= i < |items| ==> items[i].Gap?
    ensures FilterStream(f, FramesOfItems(items, f.channels)) == (After(f, samples, true), Played(f, samples, true))
    decreases |items|
  {
    hide FilterFrame, FilterStream, FilterFrames, After, Played, Whole;
    var c := f.channels;
    if items == [] {
      EmptyStream(f);
      NothingToFilter(f, samples, true);
    } else {
      ShorterIsWhole(|items|, c);
      var frame := Frame(Values(items[..c]), true);
      OneFrame(f, frame);
      GapIgnoresSamples(f, frame.samples, samples[..c]);
      StreamSplits(f, [frame], FramesOfItems(items[c..], c));
      FirstFrameFirst(f, samples, true);
      GapRunIgnoresSamples(FilterFrame(f, samples[..c], true).0, items[c..], samples[c..]);
    }
  }

  lemma {:induction false} PcmRunIsItsSamples(items: seq<Item>, samples: seq<Sample>, channels: nat)
    requires channels > 0 && |samples| == |items|
    requires forall i :: 0 <= i < |items| ==> items[i] == Pcm(samples[i])
    ensures FramesOfItems(items, channels) == FramesOf(samples, false, channels)
    decreases |items|
  {
    if |items| >= channels {
      assert Values(items[..channels]) == samples[..channels];
      PcmRunIsItsSamples(items[channels..], samples[channels..], channels);
    }
  }

  /** One call of the filter plays a run of equal frames. */
  lemma {:induction false} RunIsOneCall(f: Filter, items: seq<Item>, samples: seq<Sample>, gap: bool)
    requires Shaped(f) && Whole(|items|, f.channels) && |samples| == |items|
    requires forall i :: 0 <= i < |items| ==> items[i] == if gap then Gap else Pcm(samples[i])
    ensures FilterStream(f, FramesOfItems(items, f.channels)) == (After(f, samples, gap), Played(f, samples, gap))
  {
    hide FilterStream, FramesOfItems, FramesOf, After, Played, Whole;
    if gap {
      GapRunIgnoresSamples(f, items, samples);
    } else {
      PcmRunIsItsSamples(items, samples, f.channels);
      ChunkIsItsFrames(f, samples, false);
    }
  }

  function PlayedItems(f: Filter, items: seq<Item>): (r: seq<Sample>)
    requires Shaped(f)
  {
    FilterStream(f, FramesOfItems(items, f.channels)).1
  }

  function AfterItems(f: Filter, items: seq<Item>): (r: Filter)
    requires Shaped(f)
    ensures Shaped(r) && r.channels == f.channels
  {
    FilterStream(f, FramesOfItems(items, f.channels)).0
  }

  /** The smoothing loop of f0 over all items has filtered the first of them and holds state f. */
  ghost predicate Smoothed(f0: Filter, f: Filter, items: seq<Item>, first: nat, samples: seq<Sample>, gaps: seq<bool>) {
    && Shaped(f0) && Shaped(f) && f.channels == f0.channels && first <= |items| == |samples| == |gaps|
    && Whole(|items| - first, f.channels) && Homogeneous(items[first..], f.channels)
    && AfterItems(f0, items) == AfterItems(f, items[first..])
    && PlayedItems(f0, items) == samples[..first] + PlayedItems(f, items[first..])
    && Carries(samples[first..], gaps[first..], items[first..])
  }

  lemma {:induction false} SmoothRun(f0: Filter, f: Filter, items: seq<Item>, first: nat, end: nat,
                                     samples: seq<Sample>,
                                     gaps: seq<bool>, gap: bool, samples': seq<Sample>)
    requires Smoothed(f0, f, items, first, samples, gaps) && first <= end <= |items|
    requires Whole(end - first, f.channels) && forall i :: first <= i < end ==> items[i].Gap? == gap
    requires |samples'| == |samples| && samples'[..first] == samples[..first] && samples'[end..] == samples[end..]
    requires samples'[first..end] == Played(f, samples[first..end], gap)
    ensures Smoothed(f0, After(f, samples[first..end], gap), items, end, samples', gaps)
  {
    hide FilterStream, FramesOfItems, After, Played, Whole, Homogeneous;
    var rest := items[first..];
    var run, tail := rest[..end - first], rest[end - first..];
    assert rest == run + tail && tail == items[end..];
    forall i | 0 <= i < |run| ensures run[i] == if gap then Gap else Pcm(samples[first..end][i]) {
      assert Cell(samples[first..], gaps[first..], i) == rest[i];
    }
    RunIsOneCall(f, run, samples[first..end], gap);
    ItemFramesConcatenate(run, tail, f.channels);
    WholeAdds(|run|, |tail|, f.channels);
    StreamSplits(f, FramesOfItems(run, f.channels), FramesOfItems(tail, f.channels));
    var g := After(f, samples[first..end], gap);
    assert samples'[..end] == samples'[..first] + samples'[first..end];
    assert samples[..first] + (samples'[first..end] + PlayedItems(g, tail)) == samples'[..end] + PlayedItems(g, tail);
    forall i | 0 <= i < |tail| ensures Cell(samples'[end..], gaps[end..], i) == tail[i] {
      assert Cell(samples[first..], gaps[first..], end - first + i) == rest[end - first + i];
      assert samples'[end..][i] == samples[end..][i];
    }
  }

  lemma {:induction false} SmoothStart(f: Filter, items: seq<Item>, samples: seq<Sample>, gaps: seq<bool>)
    requires Shaped(f) && Whole(|items|, f.channels) && Homogeneous(items, f.channels) && Carries(samples, gaps, items)
    ensures Smoothed(f, f, items, 0, samples, gaps)
  {
    assert items[0..] == items && samples[0..] == samples && gaps[0..] == gaps;
    assert samples[..0] + PlayedItems(f, items) == PlayedItems(f, items);
  }

  lemma {:induction false} SmoothEnd(f0: Filter, f: Filter, items: seq<Item>, samples: seq<Sample>, gaps: seq<bool>)
    requires Smoothed(f0, f, items, |items|, samples, gaps)
    ensures (f, samples) == FilterStream(f0, FramesOfItems(items, f0.channels))
  {
    assert items[|items|..] == [];
    assert FramesOfItems([], f.channels) == [];
    assert samples[..|items|] + [] == samples;
  }

  /** The frame that starts where a smoothing run has got to. */
  lemma {:induction false} FrameIsUniform(items: seq<Item>, at: nat, channels: nat)
    requires channels > 0 && at < |items| && Whole(|items| - at, channels) && Homogeneous(items[at..], channels)
    ensures at + channels <= |items| && forall i :: at <= i < at + channels ==> items[i].Gap? == items[at].Gap?
    ensures Whole(|items| - at - channels, channels) && Homogeneous(items[at + channels..], channels)
  {
    var rest := items[at..];
    assert rest[channels..] == items[at + channels..];
    forall i | at <= i < at + channels ensures items[i].Gap? == items[at].Gap? {
      assert rest[i - at].Gap? == rest[0].Gap?;
    }
  }

  /** How far the frames from first on are of one kind. */
  method RunEnd(gaps: array<bool>, first: nat, n: nat, channels: nat, ghost items: seq<Item>) returns (end: nat)
    requires first < n == |items| <= gaps.Length && channels > 0
    requires Whole(n - first, channels) && Homogeneous(items[first..], channels)
    requires forall i :: first <= i < n ==> gaps[i] == items[i].Gap?
    ensures first < end <= n && Whole(end - first, channels)
    ensures forall i :: first <= i < end ==> items[i].Gap? == gaps[first]
    ensures end < n ==> gaps[end] != gaps[first]
  {
    hide Whole, Homogeneous;
    FrameIsUniform(items, first, channels);
    OneFrameIsWhole(channels);
    end := first + channels;
    while end < n && gaps[end] == gaps[first]
      invariant first < end <= n && Whole(end - first, channels)
      invariant Whole(n - end, channels) && Homogeneous(items[end..], channels)
      invariant forall i :: first <= i < end ==> items[i].Gap? == gaps[first]
    {
      FrameIsUniform(items, end, channels);
      WholeAdds(end - first, channels, channels);
      end := end + channels;
    }
  }

  method ProcessRun(filter: AudioPlaybackContinuity, scratch: array<Sample>, n: nat, first: nat, end: nat, gap: bool)
    requires Shaped(filter.View()) && first <= end <= n <= scratch.Length
    modifies filter, scratch
    ensures filter.View() == After(old(filter.View()), old(scratch[..n])[first..end], gap)
    ensures scratch[..n][first..end] == Played(old(filter.View()), old(scratch[..n])[first..end], gap)
    ensures scratch[..n][..first] == old(scratch[..n])[..first] && scratch[..n][end..] == old(scratch[..n])[end..]
  {
    hide After, Played;
    ghost var before := scratch[..];
    assert before[..n] == scratch[..n];
    SlicesAgree(before, n, first, end);
    assert scratch[first..end] == before[first..end];
    filter.Process(scratch, first, end - first, gap);
    ghost var after := scratch[..];
    assert after[..n] == scratch[..n];
    SlicesAgree(after, n, first, end);
    assert after[first..end] == scratch[first..end];
    assert after[..first] == scratch[..first] == before[..first];
    assert after[end..] == scratch[end..] == before[end..];
  }

  lemma {:induction false} SlicesAgree(s: seq<Sample>, n: nat, first: nat, end: nat)
    requires first <= end <= n <= |s|
    ensures s[..n][first..end] == s[first..end] && s[..n][..first] == s[..first]
    ensures s[..n][end..] == s[end..][..n - end]
  {
  }

  /** Filters the first n scratch samples run by run, in place. */
  method Smooth(filter: AudioPlaybackContinuity, scratch: array<Sample>, gaps: array<bool>, n: nat,
                ghost items: seq<Item>)
    requires Shaped(filter.View()) && n <= scratch.Length == gaps.Length
    requires Whole(n, filter.channels) && Homogeneous(items, filter.channels)
    requires Carries(scratch[..n], gaps[..n], items)
    modifies filter, scratch
    ensures (filter.View(), scratch[..n])
            == FilterStream(old(filter.View()), FramesOfItems(items, old(filter.channels)))
  {
    hide Smoothed, Whole, Homogeneous, FramesOfItems, FilterStream, After, Played;
    ghost var f0, flags := filter.View(), gaps[..n];
    var channels := filter.channels;
    SmoothStart(f0, items, scratch[..n], flags);
    var first := 0;
    while first < n
      invariant first <= n && Shaped(filter.View()) && filter.channels == channels
      invariant gaps[..n] == flags
      invariant Smoothed(f0, filter.View(), items, first, scratch[..n], flags)
    {
      SmoothedMeans(f0, filter.View(), items, first, scratch[..n], flags);
      assert forall i :: first <= i < n ==> gaps[i] == flags[i];
      var gap := gaps[first];
      var end := RunEnd(gaps, first, n, channels, items);
      ghost var v, before := filter.View(), scratch[..n];
      ProcessRun(filter, scratch, n, first, end, gap);
      SmoothRun(f0, v, items, first, end, before, flags, gap, scratch[..n]);
      first := end;
    }
    SmoothEnd(f0, filter.View(), items, scratch[..n], flags);
  }

  lemma {:induction false} OneFrameIsWhole(channels: nat)
    requires channels > 0
    ensures Whole(channels, channels)
  {
  }

  lemma {:induction false} SmoothedMeans(f0: Filter, f: Filter, items: seq<Item>, first: nat, samples: seq<Sample>,
                                         gaps: seq<bool>)
    requires Smoothed(f0, f, items, first, samples, gaps)
    ensures |items| == |samples| == |gaps| && Whole(|items| - first, f.channels)
    ensures Homogeneous(items[first..], f.channels)
    ensures forall i :: first <= i < |items| ==> gaps[i] == items[i].Gap?
  {
    forall i | first <= i < |items| ensures gaps[i] == items[i].Gap? {
      assert Cell(samples[first..], gaps[first..], i - first) == items[first..][i - first];
    }
  }

  // ---------------------------------------------------------------- the backend

  class AudioBackend {
    const channels: nat
    const limitBytes: nat
    const rebufferBytes: nat
    const maxCredit: nat
    const pendingSamples: array<Sample>
    const pendingGap: array<bool>
    const continuity: AudioPlaybackContinuity
    var read: nat
    var write: nat
    var count: nat
    var pendingBytes: nat
    var rebuffering: bool
    var credit: nat
    var creditPending: bool

    ghost predicate Valid()
      reads this, continuity
    {
      && 1 <= channels <= MAX_CHANNELS && limitBytes % 2 == 0
      && pendingSamples.Length == pendingGap.Length == limitBytes / 2
      && count <= pendingSamples.Length && pendingBytes == 2 * count
      && credit <= maxCredit
      && (pendingSamples.Length > 0 ==>
          read < pendingSamples.Length && write == Wrap(read + count, pendingSamples.Length))
      && Shaped(continuity.View()) && continuity.channels == channels
    }

    ghost function View(): (s: Stream)
      requires Valid()
      reads this, continuity, pendingSamples, pendingGap
    {
      Stream(channels, limitBytes, rebufferBytes, maxCredit,
             QueueOf(pendingSamples[..], pendingGap[..], read, count), rebuffering, credit, creditPending,
             continuity.View())
    }

    constructor (rate: nat, channelCount: nat)
      requires 1 <= channelCount <= MAX_CHANNELS
      ensures Valid() && View() == Open(rate, channelCount)
      ensures fresh(pendingSamples) && fresh(pendingGap) && fresh(continuity)
    {
      var limit := LimitBytes(rate, channelCount);
      LimitIsEven(rate, channelCount);
      channels, limitBytes, maxCredit := channelCount, limit, FramesIn(limit, channelCount);
      rebufferBytes := MillisecondsOfBytes(PREBUFFER_MS, rate, channelCount);
      pendingSamples := new Sample[limit / 2](_ => 0);
      pendingGap := new bool[limit / 2](_ => false);
      continuity := new AudioPlaybackContinuity(rate, channelCount);
      read, write, count, pendingBytes := 0, 0, 0, 0;
      rebuffering, credit, creditPending := false, 0, false;
    }

    /** Copies samples into the free part of the ring, wrapping at its end. */
    method CopySamples(data: seq<Sample>)
      requires Valid() && 0 < |data| <= pendingSamples.Length - count
      modifies pendingSamples
      ensures SamplesCopied(old(pendingSamples[..]), pendingSamples[..], write, data)
    {
      var firstCount := Min(|data|, pendingSamples.Length - write);
      forall k | 0 <= k < firstCount { pendingSamples[write + k] := data[k]; }
      forall k | 0 <= k < |data| - firstCount { pendingSamples[k] := data[firstCount + k]; }
    }

    method FillGaps(n: nat, gap: bool)
      requires Valid() && 0 < n <= pendingSamples.Length - count
      modifies pendingGap
      ensures GapsFilled(old(pendingGap[..]), pendingGap[..], write, n, gap)
    {
      var firstCount := Min(n, pendingSamples.Length - write);
      forall k | 0 <= k < firstCount { pendingGap[write + k] := gap; }
      forall k | 0 <= k < n - firstCount { pendingGap[k] := gap; }
    }

    /** Copies a block into the free part of the ring. */
    method CopyIn(block: Block)
      requires Valid() && !block.NoData? && 0 < |BlockItems(block)| <= pendingSamples.Length - count
      modifies pendingSamples, pendingGap
      ensures QueueOf(pendingSamples[..], pendingGap[..], read, count + |BlockItems(block)|)
              == old(QueueOf(pendingSamples[..], pendingGap[..], read, count)) + BlockItems(block)
    {
      hide Wrap, InWindow, SamplesCopied, GapsFilled, QueueOf;
      ghost var samples0, gaps0 := pendingSamples[..], pendingGap[..];
      if block.Samples? {
        CopySamples(block.data);
      }
      FillGaps(if block.Samples? then |block.data| else block.count, block.GapOf?);
      BlockAppends(samples0, gaps0, read, count, pendingSamples[..], pendingGap[..], block);
    }

    method EnqueueSamples(block: Block) returns (ok: bool)
      requires Valid()
      modifies this`write, this`count, this`pendingBytes, pendingSamples, pendingGap
      ensures Valid() && (View(), ok) == Enqueue(old(View()), block)
    {
      var n := match block case Samples(data) => |data| case GapOf(c) => c case NoData(c) => c;
      if block.NoData? || n == 0 || n % channels != 0 { return false; }
      if limitBytes == 0 || pendingSamples.Length == 0 { return false; }
      if pendingBytes + n * 2 > limitBytes { return true; }
      CopyIn(block);
      WrapIsRemainder(write + n, pendingSamples.Length);
      write := (write + n) % pendingSamples.Length;
      count := count + n;
      pendingBytes := pendingBytes + n * 2;
      return true;
    }

    method PushGapFrames(frames: nat) returns (ok: bool)
      requires Valid()
      modifies this`write, this`count, this`pendingBytes, pendingSamples, pendingGap
      ensures Valid()
      ensures frames == 0 ==> ok && View() == old(View())
      ensures frames > 0 ==>
                frames * channels >= 0 && (View(), ok) == Enqueue(old(View()), GapOf(frames * channels))
    {
      if frames == 0 { return true; }
      ProductIsNat(frames, channels);
      ok := EnqueueSamples(GapOf(frames * channels));
    }

    /** Copies the oldest n items out of the ring. */
    method CopyOut(n: nat, scratch: array<Sample>, gaps: array<bool>)
      requires Valid() && 0 < n <= count && n <= scratch.Length == gaps.Length
      requires scratch != pendingSamples && gaps != pendingGap
      modifies scratch, gaps
      ensures Carries(scratch[..n], gaps[..n], QueueOf(pendingSamples[..], pendingGap[..], read, count)[..n])
    {
      var capacity := pendingSamples.Length;
      var firstCount := Min(n, capacity - read);
      forall k | 0 <= k < firstCount { scratch[k] := pendingSamples[read + k]; }
      forall k | 0 <= k < firstCount { gaps[k] := pendingGap[read + k]; }
      forall k | 0 <= k < n - firstCount { scratch[firstCount + k] := pendingSamples[k]; }
      forall k | 0 <= k < n - firstCount { gaps[firstCount + k] := pendingGap[k]; }
      ghost var items := QueueOf(pendingSamples[..], pendingGap[..], read, count);
      forall k: nat | k < n ensures Cell(scratch[..n], gaps[..n], k) == items[k] {
        var i := Wrap(read + k, capacity);
        assert k >= firstCount ==> scratch[firstCount + (k - firstCount)] == pendingSamples[k - firstCount];
        assert k >= firstCount ==> gaps[firstCount + (k - firstCount)] == pendingGap[k - firstCount];
        assert scratch[k] == pendingSamples[i] && gaps[k] == pendingGap[i];
        assert items[k] == Cell(pendingSamples[..], pendingGap[..], i);
      }
    }

    /** Takes the oldest items off the queue. */
    method Dequeue(requested: nat, scratch: array<Sample>, gaps: array<bool>) returns (copied: nat)
      requires Valid() && count != 0 && 0 < requested <= scratch.Length == gaps.Length
      requires scratch != pendingSamples && gaps != pendingGap
      modifies this`read, this`count, this`pendingBytes, scratch, gaps
      ensures Valid() && copied == Min(old(count), requested)
      ensures View() == old(View()).(items := old(View()).items[copied..])
      ensures Carries(scratch[..copied], gaps[..copied], old(View()).items[..copied])
    {
      copied := Min(count, requested);
      ReadingDrops(pendingSamples[..], pendingGap[..], read, count, copied);
      CopyOut(copied, scratch, gaps);
      WrapIsRemainder(read + copied, pendingSamples.Length);
      read := (read + copied) % pendingSamples.Length;
      count := count - copied;
      pendingBytes := Saturating(pendingBytes, copied * 2);
    }

    /** Silence where the queue has nothing to give, credited against later stale frames. */
    method PlaySilence(requested: nat, scratch: array<Sample>, gaps: array<bool>)
      requires Valid() && requested <= scratch.Length == gaps.Length
      requires scratch != pendingSamples && gaps != pendingGap
      modifies this`credit, this`creditPending, this`rebuffering, scratch, gaps
      ensures Valid()
      ensures View() == old(View()).(rebuffering := true, creditPending := true, credit := credit)
      ensures credit == Min(maxCredit, old(credit) + Quotient(requested, channels))
      ensures Carries(scratch[..requested], gaps[..requested], Silence(requested))
    {
      credit := credit + Min(Quotient(requested, channels), maxCredit - Min(credit, maxCredit));
      creditPending := true;
      forall k | 0 <= k < requested { scratch[k] := 0; }
      forall k | 0 <= k < requested { gaps[k] := true; }
      rebuffering := true;
      assert pendingSamples[..] == old(pendingSamples[..]) && pendingGap[..] == old(pendingGap[..]);
    }

    /** The queue's part of a callback chunk, under the queue lock: what it copies out, or silence. */
    method TakeChunk(requested: nat, scratch: array<Sample>, gaps: array<bool>) returns (copied: nat)
      requires Valid() && 0 < requested <= scratch.Length == gaps.Length
      requires scratch != pendingSamples && gaps != pendingGap
      modifies this, scratch, gaps
      ensures Valid() && copied == |Take(old(View()), requested).1| <= requested
      ensures View() == Take(old(View()), requested).0
      ensures Carries(scratch[..copied], gaps[..copied], Take(old(View()), requested).1)
    {
      hide Carries, QueueOf;
      var hold := false;
      copied := 0;
      if rebuffering {
        if pendingBytes < rebufferBytes {
          hold := true;
        } else {
          rebuffering := false;
        }
      }
      if !hold && count != 0 {
        copied := Dequeue(requested, scratch, gaps);
      }
      if copied == 0 {
        PlaySilence(requested, scratch, gaps);
        copied := requested;
      }
    }

    /** One chunk of a callback: taken from the queue, then filtered in the scratch buffer. */
    method PullChunk(requested: nat, scratch: array<Sample>, gaps: array<bool>) returns (copied: nat)
      requires Valid() && Ready(View()) && Whole(requested, channels) && 0 < requested <= scratch.Length == gaps.Length
      requires scratch != pendingSamples && gaps != pendingGap
      modifies this, continuity, scratch, gaps
      ensures Valid() && 0 < copied <= requested
      ensures (View(), scratch[..copied]) == Chunk(old(View()), requested)
    {
      hide FilterStream, FramesOfItems, Whole, Homogeneous, Carries, Take;
      ghost var s := View();
      TakeKeepsReady(s, requested);
      ChunkKeepsReady(s, requested);
      copied := TakeChunk(requested, scratch, gaps);
      CarriesItsLength(scratch[..copied], gaps[..copied], Take(s, requested).1);
      label taken:
      Smooth(continuity, scratch, gaps, copied, Take(s, requested).1);
      assert pendingSamples[..] == old@taken(pendingSamples[..]) && pendingGap[..] == old@taken(pendingGap[..]);
    }

    /** A whole callback; the device accepts this many chunks and then refuses one. */
    method FeedAudioStream(additional: nat, puts: nat) returns (delivered: seq<Sample>)
      requires Valid() && Ready(View())
      modifies this, continuity
      ensures Valid() && (View(), delivered) == Feed(old(View()), additional, puts)
    {
      hide Chunk, Whole, Ready, Feed, NextRequest, Fed;
      var scratch, gaps := new Sample[SCRATCH], new bool[SCRATCH];
      delivered := [];
      ghost var start := View();
      var supplied, accepted := 0, 0;
      FedNothing(start, additional, puts);
      while true
        invariant Valid() && Ready(View()) && supplied <= additional && accepted <= puts
        invariant Fed(start, additional, puts, View(), additional - supplied, puts - accepted, delivered)
        decreases additional - supplied
      {
        var requested := NextRequest(additional - supplied, channels);
        RequestIsWhole(additional - supplied, channels);
        RequestFitsScratch(additional - supplied, channels);
        FedOneMore(start, additional, puts, View(), additional - supplied, puts - accepted, delivered);
        if requested == 0 { return; }
        var copied := PullChunk(requested, scratch, gaps);
        if accepted == puts { return; }
        accepted := accepted + 1;
        delivered := delivered + scratch[..copied];
        supplied := supplied + copied * 2;
      }
    }

    /** Accounts for DMA frames that went stale while the host played on. */
    method ResolveStaleDmaFrames(frames: nat) returns (covered: nat, queued: nat)
      requires Valid()
      modifies this`credit, this`creditPending
      ensures Valid() && (View(), (covered, queued)) == Resolve(old(View()), frames)
    {
      if !creditPending { return 0, frames; }
      covered := Min(frames, credit);
      queued := frames - covered;
      credit := 0;
      creditPending := false;
    }

    method ResetGapAccounting()
      requires Valid()
      modifies this`credit, this`creditPending, this`rebuffering
      ensures Valid() && View() == ResetGaps(old(View()))
    {
      credit := 0;
      creditPending := false;
      rebuffering := false;
    }
  }

  lemma {:induction false} LimitIsEven(sampleRate: nat, channels: nat)
    requires channels > 0
    ensures LimitBytes(sampleRate, channels) % 2 == 0
  {
    hide MillisecondsOfBytes;
    WholeFrameBytesAreEven(MillisecondsOfBytes(QUEUE_MS, sampleRate, channels), channels);
  }

  lemma {:induction false} RemainderSplits(a: nat, b: nat)
    requires b > 0
    ensures a - a % b == Quotient(a, b) * b
  {
  }

  lemma {:induction false} WholeFrameBytesAreEven(bytes: nat, channels: nat)
    requires channels > 0
    ensures WholeFrameBytes(bytes, channels) % 2 == 0
  {
    RemainderSplits(bytes, channels * 2);
    var q := Quotient(bytes, channels * 2);
    assert q * (channels * 2) == 2 * (q * channels);
  }

  lemma {:induction false} WrapIsRemainder(i: nat, capacity: nat)
    requires i < 2 * capacity
    ensures i % capacity == Wrap(i, capacity)
  {
    OneFrameLessIf(i, capacity);
  }

  lemma {:induction false} OneFrameLessIf(i: nat, capacity: nat)
    requires capacity > 0
    ensures i >= capacity ==> i % capacity == (i - capacity) % capacity
  {
    if i >= capacity {
      OneFrameLess(i, capacity);
    }
  }

  /** The callback loop of start has delivered this much and goes on from s. */
  ghost predicate Fed(start: Stream, bytes: nat, puts: nat, s: Stream, bytesLeft: nat, putsLeft: nat,
                      delivered: seq<Sample>)
  {
    && Ready(start) && Ready(s)
    && Feed(start, bytes, puts).0 == Feed(s, bytesLeft, putsLeft).0
    && Feed(start, bytes, puts).1 == delivered + Feed(s, bytesLeft, putsLeft).1
  }

  lemma {:induction false} FedNothing(start: Stream, bytes: nat, puts: nat)
    requires Ready(start)
    ensures Fed(start, bytes, puts, start, bytes, puts, [])
  {
    hide Feed, Ready;
    assert [] + Feed(start, bytes, puts).1 == Feed(start, bytes, puts).1;
  }

  lemma {:induction false} FedOneMore(start: Stream, bytes: nat, puts: nat, s: Stream, bytesLeft: nat, putsLeft: nat,
                                      delivered: seq<Sample>)
    requires s.channels > 0 && Shaped(s.filter) && s.filter.channels == s.channels
    requires Fed(start, bytes, puts, s, bytesLeft, putsLeft, delivered)
    ensures var requested := NextRequest(bytesLeft, s.channels);
            if requested == 0 then Feed(start, bytes, puts) == (s, delivered)
            else
              var (t, out) := Chunk(s, requested);
              && Ready(t) && 0 < 2 * |out| <= bytesLeft
              && (if putsLeft == 0 then Feed(start, bytes, puts) == (t, delivered)
                  else Fed(start, bytes, puts, t, bytesLeft - 2 * |out|, putsLeft - 1, delivered + out))
  {
    hide Feed, Ready, Chunk, NextRequest, Whole, FeedEvents;
    assert delivered + [] == delivered;
    if NextRequest(bytesLeft, s.channels) == 0 {
      FeedNothing(s, bytesLeft, putsLeft);
    } else {
      FeedTurn(s, bytesLeft, putsLeft);
      var (t, out) := Chunk(s, NextRequest(bytesLeft, s.channels));
      if putsLeft > 0 {
        var rest := Feed(t, bytesLeft - 2 * |out|, putsLeft - 1).1;
        assert delivered + (out + rest) == (delivered + out) + rest;
      }
    }
  }

  lemma {:induction false} CarriesItsLength(samples: seq<Sample>, gaps: seq<bool>, items: seq<Item>)
    requires Carries(samples, gaps, items)
    ensures |samples| == |items|
  {
  }

  lemma {:induction false} RequestFitsScratch(bytes: nat, channels: nat)
    requires channels > 0
    ensures NextRequest(bytes, channels) <= 4096
  {
    WholeFrames(4096, channels);
  }
}
