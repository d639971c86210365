/** The fade filter between guest PCM and the host device. */
module PlaybackContinuity {
  import opened Arithmetic

  type Sample = v: int | -0x8000 <= v < 0x8000

  const MAX_CHANNELS := 8

  datatype Filter = Filter(
    channels: nat,
    fadeFrames: nat,
    remaining: nat,
    gap: bool,
    last: seq<Sample>,
    anchor: seq<Sample>)

  predicate Shaped(f: Filter) {
    && 1 <= f.channels <= MAX_CHANNELS && 0 < f.fadeFrames && f.remaining <= f.fadeFrames
    && |f.last| == MAX_CHANNELS && |f.anchor| == MAX_CHANNELS
  }

  // ---------------------------------------------------------------- arithmetic

  /** Signed division that truncates toward zero. */
  function TruncatingDiv(a: int, b: int): int
    requires b > 0
  {
    if a >= 0 then a / b else -(-a / b)
  }

  function Weighted(anchor: int, target: int, remaining: nat, fade: nat): int
    requires remaining <= fade
  {
    anchor * remaining + target * (fade - remaining)
  }

  /** The sample between anchor and target with this many fade frames to go. */
  function Mix(anchor: Sample, target: Sample, remaining: nat, fade: nat): (v: Sample)
    requires remaining <= fade && 0 < fade
  {
    MixIsBetween(anchor, target, remaining, fade);
    TruncatingDiv(Weighted(anchor, target, remaining, fade), fade)
  }

  lemma {:induction false} WeightedIsBetween(a: int, t: int, r: nat, n: nat, lo: int, hi: int)
    requires r <= n && lo <= a <= hi && lo <= t <= hi
    ensures lo * n <= Weighted(a, t, r, n) <= hi * n
  {
    assert Weighted(a, t, r, n) - lo * n == (a - lo) * r + (t - lo) * (n - r);
    assert hi * n - Weighted(a, t, r, n) == (hi - a) * r + (hi - t) * (n - r);
    ProductIsNat(a - lo, r);
    ProductIsNat(t - lo, n - r);
    ProductIsNat(hi - a, r);
    ProductIsNat(hi - t, n - r);
  }

  lemma {:induction false} MixIsBetween(a: int, t: int, r: nat, n: nat)
    requires r <= n && 0 < n
    ensures var lo, hi := if a < t then a else t, if a < t then t else a;
            lo <= TruncatingDiv(Weighted(a, t, r, n), n) <= hi
  {
    var lo, hi := if a < t then a else t, if a < t then t else a;
    var x := Weighted(a, t, r, n);
    WeightedIsBetween(a, t, r, n, lo, hi);
    if x >= 0 {
      QuotientIsBetween(x, n, lo, hi);
    } else {
      assert (-hi) * n == -(hi * n) && (-lo) * n == -(lo * n);
      QuotientIsBetween(-x, n, -hi, -lo);
    }
  }

  lemma {:induction false} NothingLeftToFade(a: Sample, t: Sample, n: nat)
    requires 0 < n
    ensures Mix(a, t, 0, n) == t
  {
    var target: int := t;
    MultipleOverItself(target, n);
    MultipleOverItself(-target, n);
    assert (-target) * n == -(target * n);
  }

  function Magnitude(v: int): nat { if v < 0 then -v else v }

  lemma {:induction false} MagnitudeOfMix(a: int, r: nat, n: nat)
    requires r <= n && 0 < n
    ensures Magnitude(TruncatingDiv(Weighted(a, 0, r, n), n)) == Magnitude(a) * r / n
    ensures a >= 0 ==> TruncatingDiv(Weighted(a, 0, r, n), n) >= 0
    ensures a <= 0 ==> TruncatingDiv(Weighted(a, 0, r, n), n) <= 0
  {
    ProductIsNat(Magnitude(a), r);
    assert (-a) * r == -(a * r);
    QuotientsAreOrdered(0, Magnitude(a) * r, n);
  }

  /** The magnitude of a fade toward silence, as a function of what is left of it. */
  lemma {:induction false} FadingTowardSilence(a: Sample, r: nat, s: nat, n: nat)
    requires s <= r <= n && 0 < n
    ensures Magnitude(Mix(a, 0, s, n)) <= Magnitude(Mix(a, 0, r, n))
  {
    hide TruncatingDiv, Weighted;
    var m := Magnitude(a);
    MagnitudeOfMix(a, s, n);
    MagnitudeOfMix(a, r, n);
    ProductsAreOrdered(m, s, r);
    QuotientsAreOrdered(m * s, m * r, n);
  }

  lemma {:induction false} FullFadeIsTheAnchor(a: Sample, n: nat)
    requires 0 < n
    ensures Mix(a, 0, n, n) == a
  {
    hide TruncatingDiv, Weighted;
    MagnitudeOfMix(a, n, n);
    MultipleOverItself(Magnitude(a), n);
  }

  /** v is x / n, truncated toward zero. */
  predicate Truncated(v: int, x: int, n: nat) {
    && (x >= 0 ==> 0 <= v && v * n <= x < v * n + n)
    && (x <= 0 ==> v <= 0 && v * n - n < x <= v * n)
  }

  /** The mixed sample is the point on the straight line from anchor to target, truncated toward zero. */
  lemma {:induction false} MixIsOnTheLine(a: Sample, t: Sample, r: nat, n: nat)
    requires r <= n && 0 < n
    ensures Truncated(Mix(a, t, r, n), a * r + t * (n - r), n)
  {
    hide TruncatingDiv, Truncated;
    TruncatingDivTruncates(Weighted(a, t, r, n), n);
  }

  lemma {:induction false} TruncatingDivTruncates(x: int, n: nat)
    requires n > 0
    ensures Truncated(TruncatingDiv(x, n), x, n)
  {
    if x >= 0 {
      DivisionBrackets(x, n);
      MultipleOverItself(0, n);
    } else {
      DivisionBrackets(-x, n);
      assert (-(-x / n)) * n == -((-x / n) * n);
    }
  }

  lemma {:induction false} DivisionBrackets(x: nat, n: nat)
    requires n > 0
    ensures x / n * n <= x < x / n * n + n
  {
  }

  /** The share of one of n fade frames in a sample, rounded up. */
  function FrameShare(a: int, n: nat): nat
    requires n > 0
  {
    QuotientsAreOrdered(0, Magnitude(a), n);
    MultipleOverItself(0, n);
    Magnitude(a) / n + 1
  }

  lemma {:induction false} FadeStep(a: Sample, r: nat, n: nat)
    requires r <= n && 0 < n
    ensures Magnitude((Mix(a, 0, if r != 0 then r - 1 else 0, n) as int) - Mix(a, 0, r, n)) <= FrameShare(a, n)
  {
    hide TruncatingDiv, Weighted;
    var m := Magnitude(a);
    QuotientsAreOrdered(0, m, n);
    MultipleOverItself(0, n);
    if r == 0 {
      return;
    }
    MagnitudeOfMix(a, r, n);
    MagnitudeOfMix(a, r - 1, n);
    ProductsAreOrdered(m, r - 1, r);
    QuotientsAreOrdered(m * (r - 1), m * r, n);
    assert m * r == m * (r - 1) + m;
    ProductIsNat(m, r - 1);
    QuotientOfSum(m * (r - 1), m, n);
  }

  lemma {:induction false} QuotientOfSum(x: nat, y: nat, n: nat)
    requires n > 0
    ensures (x + y) / n <= x / n + y / n + 1
  {
    DivisionBrackets(x, n);
    DivisionBrackets(y, n);
    DivisionBrackets(x + y, n);
    var q := x / n + y / n + 2;
    assert q * n == x / n * n + y / n * n + 2 * n;
    if (x + y) / n >= q {
      TimesIsOrdered(q, (x + y) / n, n);
      assert false;
    }
  }

  lemma {:induction false} TimesIsOrdered(p: nat, q: nat, n: nat)
    requires p <= q
    ensures p * n <= q * n
  {
  }

  /** The C code's 32-bit products never overflow exactly up to this fade length. */
  lemma {:induction false} ThirtyTwoBitsSuffice(n: nat)
    requires 0 < n
    ensures n <= 0x1_0000 <==> forall a: Sample, t: Sample, r: nat :: r <= n ==>
              -0x8000_0000 <= Weighted(a, t, r, n) < 0x8000_0000
  {
    if n <= 0x1_0000 {
      forall a: Sample, t: Sample, r: nat | r <= n ensures -0x8000_0000 <= Weighted(a, t, r, n) < 0x8000_0000 {
        WeightedIsBetween(a, t, r, n, -0x8000, 0x7FFF);
      }
    } else {
      assert Weighted(-0x8000, -0x8000, 0, n) == -0x8000 * n;
    }
  }

  /** s with the first n elements of out laid over it from at on. */
  function Spliced(s: seq<Sample>, at: nat, out: seq<Sample>, n: nat): (r: seq<Sample>)
    requires n <= |out| && at + n <= |s|
    ensures |r| == |s|
  {
    s[..at] + out[..n] + s[at + n..]
  }

  lemma {:induction false} SplicedNothing(s: seq<Sample>, at: nat, out: seq<Sample>)
    requires at <= |s|
    ensures Spliced(s, at, out, 0) == s
  {
  }

  lemma {:induction false} SplicedAll(s: seq<Sample>, at: nat, out: seq<Sample>)
    requires at + |out| <= |s|
    ensures var r := Spliced(s, at, out, |out|);
            && r[..at] == s[..at] && r[at..at + |out|] == out && r[at + |out|..] == s[at + |out|..]
            && (at == 0 ==> r == out + s[|out|..])
  {
  }

  lemma {:induction false} SplicedStep(s: seq<Sample>, at: nat, out: seq<Sample>, n: nat)
    requires n < |out| && at + n < |s|
    ensures Spliced(s, at, out, n)[at + n] == s[at + n]
    ensures Spliced(s, at, out, n + 1) == Spliced(s, at, out, n)[at + n := out[n]]
  {
  }

  // ---------------------------------------------------------------- one frame at a time

  /** The fade length and cleared history for a stream. */
  function Reset(sampleRate: nat, channels: nat): (f: Filter)
    ensures Shaped(f)
  {
    var fade := sampleRate * 3 % 0x1_0000_0000 / 1000;
    var zeros: seq<Sample> := seq(MAX_CHANNELS, _ => 0);
    Filter(if channels < 1 then 1 else if channels > MAX_CHANNELS then MAX_CHANNELS else channels,
           if fade < 1 then 1 else fade, 0, false, zeros, zeros)
  }

  /** Entering or leaving a gap starts a fade from the last samples played. */
  function Turn(f: Filter, gap: bool): (r: Filter)
    requires Shaped(f)
    ensures Shaped(r)
  {
    if gap != f.gap then f.(gap := gap, anchor := f.last, remaining := f.fadeFrames) else f
  }

  /** The reference: one frame, always mixed, with no shortcut. */
  function FilterFrame(f: Filter, frame: seq<Sample>, gap: bool): (r: (Filter, seq<Sample>))
    requires Shaped(f) && |frame| == f.channels
    ensures Shaped(r.0) && r.0.channels == f.channels && |r.1| == |frame|
  {
    MixTurned(Turn(f, gap), frame)
  }

  function MixTurned(t: Filter, frame: seq<Sample>): (r: (Filter, seq<Sample>))
    requires Shaped(t) && |frame| == t.channels
    ensures Shaped(r.0) && r.0.channels == t.channels && r.0.gap == t.gap && |r.1| == |frame|
  {
    var remaining := if t.remaining != 0 then t.remaining - 1 else 0;
    var out: seq<Sample> := seq(t.channels, ch requires 0 <= ch < t.channels =>
      Mix(t.anchor[ch], if t.gap then 0 else frame[ch], remaining, t.fadeFrames));
    (t.(remaining := remaining, last := out + t.last[t.channels..]), out)
  }

  lemma {:induction false} MixedSamples(t: Filter, frame: seq<Sample>)
    requires Shaped(t) && |frame| == t.channels
    ensures var (r, out) := MixTurned(t, frame);
            var remaining := if t.remaining != 0 then t.remaining - 1 else 0;
            && r == t.(remaining := remaining, last := out + t.last[t.channels..])
            && forall ch :: 0 <= ch < t.channels ==>
                 out[ch] == Mix(t.anchor[ch], if t.gap then 0 else frame[ch], remaining, t.fadeFrames)
  {
    hide Mix;
  }

  /** Each channel of out is on the fade line between the anchor and the sample due. */
  ghost predicate OnTheLine(t: Filter, frame: seq<Sample>, out: seq<Sample>, left: nat)
    requires Shaped(t) && |frame| == |out| == t.channels && left <= t.fadeFrames
  {
    forall ch :: 0 <= ch < t.channels ==>
      Truncated(out[ch], t.anchor[ch] * left + (if t.gap then 0 else frame[ch]) * (t.fadeFrames - left), t.fadeFrames)
  }

  lemma {:induction false} MixedIsOnTheLine(t: Filter, frame: seq<Sample>)
    requires Shaped(t) && |frame| == t.channels
    ensures OnTheLine(t, frame, MixTurned(t, frame).1, if t.remaining != 0 then t.remaining - 1 else 0)
  {
    hide Mix, MixTurned, Truncated;
    var left := if t.remaining != 0 then t.remaining - 1 else 0;
    var out := MixTurned(t, frame).1;
    MixedSamples(t, frame);
    forall ch | 0 <= ch < t.channels
      ensures Truncated(out[ch], t.anchor[ch] * left + (if t.gap then 0 else frame[ch]) * (t.fadeFrames - left),
                        t.fadeFrames)
    {
      MixIsOnTheLine(t.anchor[ch], if t.gap then 0 else frame[ch], left, t.fadeFrames);
    }
  }

  /** A sample count that is a whole number of frames. */
  predicate Whole(samples: nat, channels: nat)
    decreases samples
  {
    samples == 0 || (0 < channels <= samples && Whole(samples - channels, channels))
  }

  lemma {:induction false} WholeIsAMultiple(samples: nat, channels: nat)
    requires channels > 0
    ensures Whole(samples, channels) <==> samples % channels == 0
    decreases samples
  {
    if samples >= channels {
      WholeIsAMultiple(samples - channels, channels);
      OneFrameLess(samples, channels);
    }
  }

  lemma {:induction false} OneFrameLess(samples: nat, channels: nat)
    requires samples >= channels > 0
    ensures (samples - channels) % channels == samples % channels
    ensures samples / channels == (samples - channels) / channels + 1
  {
    var q := samples / channels;
    LessTimes(q, 1, channels);
    assert samples == q * channels + samples % channels;
    assert (q - 1) * channels == q * channels - channels;
    DivModUnique(samples - channels, channels, q - 1, samples % channels);
  }

  /** The samples of whole frames, filtered one frame at a time; a trailing partial frame is left alone. */
  function FilterFrames(f: Filter, samples: seq<Sample>, gap: bool): (r: (Filter, seq<Sample>))
    requires Shaped(f)
    ensures Shaped(r.0) && r.0.channels == f.channels && |r.1| == |samples|
    decreases |samples|
  {
    if |samples| < f.channels then (f, samples)
    else
      var (g, out) := FilterFrame(f, samples[..f.channels], gap);
      var (h, rest) := FilterFrames(g, samples[f.channels..], gap);
      (h, out + rest)
  }

  function After(f: Filter, samples: seq<Sample>, gap: bool): (r: Filter)
    requires Shaped(f)
    ensures Shaped(r) && r.channels == f.channels
  {
    FilterFrames(f, samples, gap).0
  }

  function Played(f: Filter, samples: seq<Sample>, gap: bool): (r: seq<Sample>)
    requires Shaped(f)
    ensures |r| == |samples|
  {
    FilterFrames(f, samples, gap).1
  }

  lemma {:induction false} FirstFrameFirst(f: Filter, samples: seq<Sample>, gap: bool)
    requires Shaped(f) && |samples| >= f.channels
    ensures var r := FilterFrame(f, samples[..f.channels], gap);
            && After(f, samples, gap) == After(r.0, samples[f.channels..], gap)
            && Played(f, samples, gap) == r.1 + Played(r.0, samples[f.channels..], gap)
  {
  }

  // ---------------------------------------------------------------- main results

  /** Filtering frames in two calls is filtering them in one. */
  lemma {:induction false} SplitIsHarmless(f: Filter, a: seq<Sample>, b: seq<Sample>, gap: bool)
    requires Shaped(f) && Whole(|a|, f.channels)
    ensures After(f, a + b, gap) == After(After(f, a, gap), b, gap)
    ensures Played(f, a + b, gap) == Played(f, a, gap) + Played(After(f, a, gap), b, gap)
    decreases |a|
  {
    if a == [] {
      assert a + b == b;
    } else {
      hide FilterFrame, FilterFrames, After, Played;
      var c := f.channels;
      var all := a + b;
      assert all[..c] == a[..c] && all[c..] == a[c..] + b;
      FirstFrameFirst(f, a, gap);
      FirstFrameFirst(f, all, gap);
      var r := FilterFrame(f, a[..c], gap);
      SplitIsHarmless(r.0, a[c..], b, gap);
      ConcatenationAssociates(r.1, Played(r.0, a[c..], gap), Played(After(f, a, gap), b, gap));
    }
  }

  lemma {:induction false} ConcatenationAssociates(a: seq<Sample>, b: seq<Sample>, c: seq<Sample>)
    ensures (a + b) + c == a + (b + c)
  {
  }

  /** Continuous PCM passes through bit for bit, so skipping the mix for it is exact. */
  lemma {:induction false} PassThroughIsExact(f: Filter, samples: seq<Sample>)
    requires Shaped(f) && !f.gap && f.remaining == 0 && Whole(|samples|, f.channels)
    ensures FilterFrames(f, samples, false).1 == samples
    ensures FilterFrames(f, samples, false).0
            == if samples == [] then f else f.(last := samples[|samples| - f.channels..] + f.last[f.channels..])
    decreases |samples|
  {
    hide FilterFrame;
    var c := f.channels;
    if samples != [] {
      PassThroughFrame(f, samples[..c]);
      var g := f.(last := samples[..c] + f.last[c..]);
      PassThroughIsExact(g, samples[c..]);
      assert g.last[c..] == f.last[c..];
    }
  }

  lemma {:induction false} PassThroughFrame(f: Filter, frame: seq<Sample>)
    requires Shaped(f) && !f.gap && f.remaining == 0 && |frame| == f.channels
    ensures FilterFrame(f, frame, false) == (f.(last := frame + f.last[f.channels..]), frame)
  {
    hide Mix;
    forall ch | 0 <= ch < f.channels ensures Mix(f.anchor[ch], frame[ch], 0, f.fadeFrames) == frame[ch] {
      NothingLeftToFade(f.anchor[ch], frame[ch], f.fadeFrames);
    }
    assert FilterFrame(f, frame, false).1 == frame;
  }

  /** What a gap plays does not depend on the samples handed in. */
  lemma {:induction false} GapIgnoresSamples(f: Filter, frame: seq<Sample>, other: seq<Sample>)
    requires Shaped(f) && |frame| == |other| == f.channels
    ensures FilterFrame(f, frame, true) == FilterFrame(f, other, true)
  {
    assert FilterFrame(f, frame, true).1 == FilterFrame(f, other, true).1;
  }

  /** In a gap the last sample played is the anchor faded so far. */
  ghost predicate FadeIsConsistent(f: Filter)
    requires Shaped(f)
  {
    f.gap ==> forall ch :: 0 <= ch < f.channels ==> f.last[ch] == Mix(f.anchor[ch], 0, f.remaining, f.fadeFrames)
  }

  lemma {:induction false} FramesKeepFadeConsistent(f: Filter, frame: seq<Sample>, gap: bool)
    requires Shaped(f) && FadeIsConsistent(f) && |frame| == f.channels
    ensures FadeIsConsistent(FilterFrame(f, frame, gap).0)
    ensures !f.gap ==> FadeIsConsistent(Turn(f, true))
  {
    hide Mix;
    forall ch | 0 <= ch < f.channels ensures Mix(f.last[ch], 0, f.fadeFrames, f.fadeFrames) == f.last[ch] {
      FullFadeIsTheAnchor(f.last[ch], f.fadeFrames);
    }
  }

  /** A frame lies between the fade's anchor and its target. */
  lemma {:induction false} OutputIsBetween(f: Filter, frame: seq<Sample>, gap: bool, ch: nat)
    requires Shaped(f) && |frame| == f.channels && ch < f.channels
    ensures var anchor, target := Turn(f, gap).anchor[ch], if gap then 0 else frame[ch];
            var out := FilterFrame(f, frame, gap).1[ch];
            if anchor < target then anchor <= out <= target else target <= out <= anchor
  {
    var t := Turn(f, gap);
    MixIsBetween(t.anchor[ch], if gap then 0 else frame[ch],
                 if t.remaining != 0 then t.remaining - 1 else 0, t.fadeFrames);
  }

  lemma {:induction false} GapFrameIsNoLouder(f: Filter, frame: seq<Sample>, ch: nat)
    requires Shaped(f) && FadeIsConsistent(f) && |frame| == f.channels && ch < f.channels
    ensures Magnitude(FilterFrame(f, frame, true).1[ch]) <= Magnitude(f.last[ch])
    ensures FilterFrame(f, frame, true).0.last[ch] == FilterFrame(f, frame, true).1[ch]
  {
    hide Mix;
    var t := Turn(f, true);
    FullFadeIsTheAnchor(f.last[ch], f.fadeFrames);
    FadingTowardSilence(t.anchor[ch], t.remaining, if t.remaining != 0 then t.remaining - 1 else 0, t.fadeFrames);
  }

  lemma {:induction false} GapFrameIsNear(f: Filter, frame: seq<Sample>, ch: nat)
    requires Shaped(f) && FadeIsConsistent(f) && |frame| == f.channels && ch < f.channels
    ensures Magnitude((FilterFrame(f, frame, true).1[ch] as int) - f.last[ch])
            <= FrameShare(Turn(f, true).anchor[ch], f.fadeFrames)
  {
    hide Mix, Magnitude, MixTurned, FrameShare;
    var t := Turn(f, true);
    FullFadeIsTheAnchor(f.last[ch], f.fadeFrames);
    MixedSamples(t, frame);
    FadeStep(t.anchor[ch], t.remaining, t.fadeFrames);
  }

  lemma {:induction false} GapFrame(f: Filter, frame: seq<Sample>)
    requires Shaped(f) && |frame| == f.channels
    ensures var t := Turn(f, true);
            var (g, out) := FilterFrame(f, frame, true);
            && t.remaining <= f.fadeFrames && g.gap && g.anchor == t.anchor && g.fadeFrames == f.fadeFrames
            && Turn(g, true) == g
            && g.remaining == (if t.remaining != 0 then t.remaining - 1 else 0)
            && (g.remaining == 0 ==> forall ch :: 0 <= ch < f.channels ==> out[ch] == 0)
  {
    hide Mix;
    forall ch | 0 <= ch < f.channels ensures Mix(Turn(f, true).anchor[ch], 0, 0, f.fadeFrames) == 0 {
      NothingLeftToFade(Turn(f, true).anchor[ch], 0, f.fadeFrames);
    }
  }

  /** Once the fade has run its length, at the latest after fadeFrames frames, a gap is exact silence. */
  lemma {:induction false} GapEndsInSilence(f: Filter, samples: seq<Sample>)
    requires Shaped(f) && Whole(|samples|, f.channels) && samples != []
    ensures var t := Turn(f, true);
            var frames := |samples| / f.channels;
            var (g, out) := FilterFrames(f, samples, true);
            && g.gap && g.anchor == t.anchor && g.fadeFrames == f.fadeFrames && t.remaining <= f.fadeFrames
            && g.remaining == (if frames <= t.remaining then t.remaining - frames else 0)
            && (frames >= t.remaining ==> forall i :: |samples| - f.channels <= i < |samples| ==> out[i] == 0)
    decreases |samples|
  {
    hide Mix, Turn, MixTurned;
    var c := f.channels;
    OneFrameLess(|samples|, c);
    var g := FilterFrame(f, samples[..c], true).0;
    GapFrame(f, samples[..c]);
    if |samples| > c {
      GapEndsInSilence(g, samples[c..]);
    } else {
      assert samples[c..] == [];
      assert (|samples| - c) / c == 0;
    }
  }

  // ---------------------------------------------------------------- any chunking

  /** A call to the filter: samples all of one kind. */
  datatype Call = Call(samples: seq<Sample>, gap: bool)

  /** A frame of the stream on its own. */
  datatype Frame = Frame(samples: seq<Sample>, gap: bool)

  predicate FramesFit(frames: seq<Frame>, channels: nat) {
    forall i :: 0 <= i < |frames| ==> |frames[i].samples| == channels
  }

  /** Frame by frame: the reference for a whole stream. */
  function FilterStream(f: Filter, frames: seq<Frame>): (r: (Filter, seq<Sample>))
    requires Shaped(f) && FramesFit(frames, f.channels)
    ensures Shaped(r.0) && r.0.channels == f.channels
    decreases |frames|
  {
    if frames == [] then (f, [])
    else
      var (g, played) := FilterStream(f, frames[..|frames| - 1]);
      var frame := frames[|frames| - 1];
      var (h, out) := FilterFrame(g, frame.samples, frame.gap);
      (h, played + out)
  }

  lemma {:induction false} StreamKeepsFadeConsistent(f: Filter, frames: seq<Frame>)
    requires Shaped(f) && FadeIsConsistent(f) && FramesFit(frames, f.channels)
    ensures FadeIsConsistent(FilterStream(f, frames).0)
    decreases |frames|
  {
    hide FilterFrame;
    if frames != [] {
      var n := |frames| - 1;
      StreamKeepsFadeConsistent(f, frames[..n]);
      FramesKeepFadeConsistent(FilterStream(f, frames[..n]).0, frames[n].samples, frames[n].gap);
    }
  }

  predicate AllOf(frames: seq<Frame>, gap: bool) {
    forall i :: 0 <= i < |frames| ==> frames[i].gap == gap
  }

  /** How far a fade has come after some frames. */
  lemma {:induction false} FadeCountsDown(f: Filter, frames: seq<Frame>)
    requires Shaped(f) && FramesFit(frames, f.channels) && frames != [] && AllOf(frames, !f.gap)
    ensures var g := FilterStream(f, frames).0;
            && g.gap == !f.gap && g.anchor == f.last && g.fadeFrames == f.fadeFrames
            && g.remaining == if |frames| <= f.fadeFrames then f.fadeFrames - |frames| else 0
    decreases |frames|
  {
    hide Mix;
    var n := |frames| - 1;
    if n > 0 {
      FadeCountsDown(f, frames[..n]);
    } else {
      assert frames[..n] == [];
    }
  }

  /**
   Frame k of a run of frames into or out of a gap lies on the straight line from the sample last played
   before the run to the sample due, silence in a gap: k parts of fadeFrames along it, truncated toward zero.
   */
  lemma {:induction false} FadeFollowsTheLine(f: Filter, frames: seq<Frame>, ch: nat)
    requires Shaped(f) && FramesFit(frames, f.channels) && frames != [] && ch < f.channels
    requires AllOf(frames, !f.gap)
    ensures var (_, played) := FilterStream(f, frames);
            var k := if |frames| <= f.fadeFrames then |frames| else f.fadeFrames;
            var due := if f.gap then frames[|frames| - 1].samples[ch] else 0;
            && |played| >= f.channels
            && Truncated(played[|played| - f.channels + ch], f.last[ch] * (f.fadeFrames - k) + due * k, f.fadeFrames)
  {
    hide Mix, Truncated, MixTurned;
    var n := |frames| - 1;
    var f' := FilterStream(f, frames[..n]).0;
    if n > 0 {
      FadeCountsDown(f, frames[..n]);
    } else {
      assert frames[..n] == [];
    }
    var t := Turn(f', !f.gap);
    var due: Sample := if f.gap then frames[n].samples[ch] else 0;
    var left := if t.remaining != 0 then t.remaining - 1 else 0;
    MixedSamples(t, frames[n].samples);
    MixIsOnTheLine(f.last[ch], due, left, f.fadeFrames);
    assert f.last[ch] * left == f.last[ch] * (f.fadeFrames - (f.fadeFrames - left));
  }

  lemma {:induction false} LastIsTheLastPlayed(f: Filter, frames: seq<Frame>, ch: nat)
    requires Shaped(f) && FramesFit(frames, f.channels) && frames != [] && ch < f.channels
    ensures var (g, played) := FilterStream(f, frames);
            |played| >= f.channels && g.last[ch] == played[|played| - f.channels + ch]
  {
    hide Mix;
  }

  /**
   Whatever a stream has played since it was opened, no channel of a gap frame is louder than the frame
   before it, and a gap before any frame is silent.
   */
  lemma {:induction false} GapNeverGetsLouder(sampleRate: nat, channels: nat, frames: seq<Frame>, samples: seq<Sample>,
                                              ch: nat)
    requires var c := Reset(sampleRate, channels).channels;
             FramesFit(frames, c) && |samples| == c && ch < c
    ensures var (f, played) := FilterStream(Reset(sampleRate, channels), frames);
            var out := FilterFrame(f, samples, true).1[ch];
            if frames == [] then out == 0
            else |played| >= f.channels && Magnitude(out) <= Magnitude(played[|played| - f.channels + ch])
  {
    hide FilterFrame;
    var f := Reset(sampleRate, channels);
    StreamKeepsFadeConsistent(f, frames);
    GapFrameIsNoLouder(FilterStream(f, frames).0, samples, ch);
    if frames != [] {
      LastIsTheLastPlayed(f, frames, ch);
    }
  }

  lemma {:induction false} OpensConsistent(sampleRate: nat, channels: nat)
    ensures FadeIsConsistent(Reset(sampleRate, channels))
  {
  }

  /**
   No clicks: in any stream, each frame of a gap differs from the frame before it, in each channel, by at most
   the share of one fade frame in the sample the gap began at, rounded up.
   */
  lemma {:induction false} GapFadesGently(sampleRate: nat, channels: nat, frames: seq<Frame>, samples: seq<Sample>,
                                          ch: nat)
    requires var c := Reset(sampleRate, channels).channels;
             FramesFit(frames, c) && |samples| == c && ch < c && frames != []
    ensures var (f, played) := FilterStream(Reset(sampleRate, channels), frames);
            var out := FilterFrame(f, samples, true).1[ch];
            var begun := if f.gap then f.anchor[ch] else f.last[ch];
            && |played| >= f.channels
            && Magnitude((out as int) - played[|played| - f.channels + ch]) <= Magnitude(begun) / f.fadeFrames + 1
  {
    hide FilterFrame, FilterStream, Magnitude, FadeIsConsistent;
    var f := Reset(sampleRate, channels);
    OpensConsistent(sampleRate, channels);
    StreamKeepsFadeConsistent(f, frames);
    GapFrameIsNear(FilterStream(f, frames).0, samples, ch);
    LastIsTheLastPlayed(f, frames, ch);
  }

  /** A stream opens silent, out of any gap, with one to eight channels and a fade of three milliseconds. */
  lemma {:induction false} FadeIsThreeMilliseconds(sampleRate: nat, channels: nat)
    requires sampleRate < 0x5555_5555
    ensures var f := Reset(sampleRate, channels);
            && f.fadeFrames >= 1 && (f.fadeFrames > 1 ==> f.fadeFrames * 1000 <= sampleRate * 3)
            && sampleRate * 3 < f.fadeFrames * 1000 + 1000
            && !f.gap && f.remaining == 0 && forall ch :: 0 <= ch < 8 ==> f.last[ch] == 0
    ensures Reset(sampleRate, channels).channels == Max(1, Min(8, channels))
  {
  }

  /** The frames of one chunk. */
  function FramesOf(samples: seq<Sample>, gap: bool, channels: nat): (r: seq<Frame>)
    requires channels > 0
    ensures FramesFit(r, channels)
    decreases |samples|
  {
    if |samples| < channels then []
    else [Frame(samples[..channels], gap)] + FramesOf(samples[channels..], gap, channels)
  }

  function FramesOfAll(chunks: seq<Call>, channels: nat): (r: seq<Frame>)
    requires channels > 0
    ensures FramesFit(r, channels)
    decreases |chunks|
  {
    if chunks == [] then []
    else
      var chunk := chunks[|chunks| - 1];
      FramesOfAll(chunks[..|chunks| - 1], channels) + FramesOf(chunk.samples, chunk.gap, channels)
  }

  function FilterChunks(f: Filter, chunks: seq<Call>): (r: (Filter, seq<Sample>))
    requires Shaped(f)
    ensures Shaped(r.0) && r.0.channels == f.channels
    decreases |chunks|
  {
    if chunks == [] then (f, [])
    else
      var (g, played) := FilterChunks(f, chunks[..|chunks| - 1]);
      var chunk := chunks[|chunks| - 1];
      (After(g, chunk.samples, chunk.gap), played + Played(g, chunk.samples, chunk.gap))
  }

  lemma {:induction false} StreamSplits(f: Filter, a: seq<Frame>, b: seq<Frame>)
    requires Shaped(f) && FramesFit(a, f.channels) && FramesFit(b, f.channels)
    ensures FramesFit(a + b, f.channels)
    ensures FilterStream(f, a + b).0 == FilterStream(FilterStream(f, a).0, b).0
    ensures FilterStream(f, a + b).1 == FilterStream(f, a).1 + FilterStream(FilterStream(f, a).0, b).1
    decreases |b|
  {
    hide FilterFrame;
    if b == [] {
      assert a + b == a;
    } else {
      assert (a + b)[..|a + b| - 1] == a + b[..|b| - 1];
      StreamSplits(f, a, b[..|b| - 1]);
    }
  }

  lemma {:induction false} ChunkIsItsFrames(f: Filter, samples: seq<Sample>, gap: bool)
    requires Shaped(f) && Whole(|samples|, f.channels)
    ensures FilterStream(f, FramesOf(samples, gap, f.channels)) == (After(f, samples, gap), Played(f, samples, gap))
    decreases |samples|
  {
    hide FilterFrame;
    var c := f.channels;
    if |samples| >= c {
      hide After, Played, FilterStream, Whole;
      var frame := Frame(samples[..c], gap);
      var rest := FramesOf(samples[c..], gap, c);
      FirstFrameFirst(f, samples, gap);
      OneFrame(f, frame);
      ShorterIsWhole(|samples|, c);
      ChunkIsItsFrames(FilterFrame(f, samples[..c], gap).0, samples[c..], gap);
      StreamSplits(f, [frame], rest);
    }
  }

  lemma {:induction false} ShorterIsWhole(n: nat, channels: nat)
    requires n > 0 && Whole(n, channels)
    ensures n >= channels > 0 && Whole(n - channels, channels)
  {
  }

  lemma {:induction false} OneFrame(f: Filter, frame: Frame)
    requires Shaped(f) && |frame.samples| == f.channels
    ensures FilterStream(f, [frame]) == FilterFrame(f, frame.samples, frame.gap)
  {
    hide FilterFrame;
    assert [frame][..0] == [];
    var out := FilterFrame(f, frame.samples, frame.gap).1;
    assert [] + out == out;
  }

  /** However a stream is cut into chunks, the samples played and the state left behind are the same. */
  lemma {:induction false} ChunkingIsHarmless(f: Filter, chunks: seq<Call>)
    requires Shaped(f) && forall i :: 0 <= i < |chunks| ==> Whole(|chunks[i].samples|, f.channels)
    ensures FilterChunks(f, chunks) == FilterStream(f, FramesOfAll(chunks, f.channels))
    decreases |chunks|
  {
    if chunks != [] {
      hide After, Played, FilterStream, FramesOf;
      var init, chunk := chunks[..|chunks| - 1], chunks[|chunks| - 1];
      ChunkingIsHarmless(f, init);
      ChunkIsItsFrames(FilterChunks(f, init).0, chunk.samples, chunk.gap);
      StreamSplits(f, FramesOfAll(init, f.channels), FramesOf(chunk.samples, chunk.gap, f.channels));
    } else {
      assert FramesOfAll(chunks, f.channels) == [];
    }
  }

  lemma {:induction false} TurnOnce(f: Filter, samples: seq<Sample>, gap: bool)
    requires Shaped(f) && |samples| >= f.channels
    ensures After(f, samples, gap) == After(Turn(f, gap), samples, gap)
    ensures Played(f, samples, gap) == Played(Turn(f, gap), samples, gap)
    ensures Turn(f, gap).gap == gap && Turn(Turn(f, gap), gap) == Turn(f, gap)
  {
    hide MixTurned;
  }

  lemma {:induction false} WholeFrames(n: nat, channels: nat)
    requires channels > 0
    ensures var w := n / channels * channels;
            && 0 <= w <= n < w + channels && Whole(w, channels)
            && (w > 0 ==> w - channels == (n / channels - 1) * channels >= 0)
  {
    var q := n / channels;
    ProductIsNat(q, channels);
    DivModUnique(q * channels, channels, q, 0);
    WholeIsAMultiple(q * channels, channels);
    if q > 0 {
      ProductIsNat(q - 1, channels);
    }
  }

  lemma {:induction false} FrameFits(frame: nat, frames: nat, channels: nat, n: nat)
    requires frame < frames && frames * channels <= n
    ensures (frame + 1) * channels == frame * channels + channels <= n
  {
    LessTimes(frame, frames, channels);
  }

  /** Where the last whole frame of some samples starts. */
  function LastFrame(samples: nat, channels: nat): int
    requires channels > 0
  {
    (samples / channels - 1) * channels
  }

  /** The shortcut for whole frames and a partial one after them. */
  lemma {:induction false} PassThrough(f: Filter, samples: seq<Sample>)
    requires Shaped(f) && !f.gap && f.remaining == 0 && |samples| >= f.channels
    ensures var at := LastFrame(|samples|, f.channels);
            && 0 <= at <= |samples| - f.channels && Played(f, samples, false) == samples
            && After(f, samples, false) == f.(last := samples[at..at + f.channels] + f.last[f.channels..])
  {
    WholeFrames(|samples|, f.channels);
    var w := |samples| / f.channels * f.channels;
    var whole, part := samples[..w], samples[w..];
    assert samples == whole + part;
    OneFrameLess(|samples|, f.channels);
    SplitIsHarmless(f, whole, part, false);
    PassThroughIsExact(f, whole);
  }

  lemma {:induction false} NothingToFilter(f: Filter, samples: seq<Sample>, gap: bool)
    requires Shaped(f) && |samples| < f.channels
    ensures After(f, samples, gap) == f && Played(f, samples, gap) == samples
  {
  }

  lemma {:induction false} PartialFrameIsLeft(f: Filter, samples: seq<Sample>, w: nat, gap: bool)
    requires Shaped(f) && w <= |samples| < w + f.channels && Whole(w, f.channels)
    ensures After(f, samples, gap) == After(f, samples[..w], gap)
    ensures Played(f, samples, gap) == Played(f, samples[..w], gap) + samples[w..]
  {
    hide After, Played, FilterFrames, Whole;
    assert samples == samples[..w] + samples[w..];
    SplitIsHarmless(f, samples[..w], samples[w..], gap);
    NothingToFilter(After(f, samples[..w], gap), samples[w..], gap);
  }

  /** The mixing loop of t over was[first..first + n] has reached offset at: v is its state, now the array. */
  ghost predicate MixedUpTo(t: Filter, v: Filter, was: seq<Sample>, now: seq<Sample>, first: nat, n: nat, at: nat) {
    && Shaped(t) && Shaped(v) && v.gap == t.gap && v.channels == t.channels
    && at <= n && first + n <= |was| == |now|
    && After(t, was[first..first + n], t.gap) == After(v, was[first + at..first + n], t.gap)
    && Played(t, was[first..first + n], t.gap) == now[first..first + at] + Played(v, was[first + at..first + n], t.gap)
    && now[..first] == was[..first] && now[first + at..] == was[first + at..]
  }

  lemma {:induction false} MixOneMore(t: Filter, v: Filter, was: seq<Sample>, before: seq<Sample>, first: nat, n: nat,
                                      at: nat, after: seq<Sample>)
    requires MixedUpTo(t, v, was, before, first, n, at) && at + v.channels <= n && |after| == |before|
    requires var here := first + at;
             && after[..here] == before[..here] && after[here + v.channels..] == before[here + v.channels..]
             && after[here..here + v.channels] == MixTurned(v, before[here..here + v.channels]).1
    ensures MixedUpTo(t, MixTurned(v, before[first + at..first + at + v.channels]).0, was, after, first, n,
                      at + v.channels)
  {
    hide MixTurned, After, Played, FilterFrames;
    var c := v.channels;
    var rest := was[first + at..first + n];
    var frame := before[first + at..first + at + c];
    assert frame == before[first + at..][..c] == was[first + at..][..c];
    forall k | 0 <= k < c ensures rest[..c][k] == frame[k] {
      assert frame[k] == was[first + at..][k];
    }
    assert rest[..c] == frame && rest[c..] == was[first + at + c..first + n];
    FirstFrameFirst(v, rest, t.gap);
    var r := MixTurned(v, frame);
    ConcatenationAssociates(before[first..first + at], r.1, Played(r.0, rest[c..], t.gap));
    SliceGrows(before, after, first, at, c);
    assert after[first + at + c..] == before[first + at..][c..] == was[first + at..][c..];
  }

  lemma {:induction false} MixNothing(t: Filter, was: seq<Sample>, first: nat, n: nat)
    requires Shaped(t) && first + n <= |was|
    ensures MixedUpTo(t, t, was, was, first, n, 0)
  {
    hide After, Played;
    assert was[first..first] == [];
  }

  lemma {:induction false} MixedAll(t: Filter, v: Filter, was: seq<Sample>, now: seq<Sample>, first: nat, n: nat)
    requires MixedUpTo(t, v, was, now, first, n, n)
    ensures v == After(t, was[first..first + n], t.gap)
    ensures now[first..first + n] == Played(t, was[first..first + n], t.gap)
    ensures now[..first] == was[..first] && now[first + n..] == was[first + n..]
  {
    NothingToFilter(v, was[first + n..first + n], t.gap);
  }

  /** Replacing the next frame of an array extends the part already played. */
  lemma {:induction false} SliceGrows(before: seq<Sample>, after: seq<Sample>, first: nat, at: nat, channels: nat)
    requires |before| == |after| && first + at + channels <= |before|
    requires after[..first + at] == before[..first + at]
    ensures after[first..first + at + channels]
            == before[first..first + at] + after[first + at..first + at + channels]
    ensures after[..first] == before[..first]
  {
    assert after[..first] == after[..first + at][..first];
    assert after[first..first + at] == after[..first + at][first..];
    assert before[first..first + at] == before[..first + at][first..];
  }

  lemma {:induction false} PartSplits(was: seq<Sample>, now: seq<Sample>, first: nat, w: nat, n: nat)
    requires |was| == |now| && w <= n && first + n <= |was| && now[first + w..] == was[first + w..]
    ensures was[first..first + n][..w] == was[first..first + w]
    ensures now[first..first + n] == now[first..first + w] + was[first..first + n][w..]
    ensures now[first + n..] == was[first + n..]
  {
    assert now[first + w..][..n - w] == was[first..first + n][w..];
    assert now[first + w..first + n] == now[first + w..][..n - w];
    assert now[first + n..] == now[first + w..][n - w..];
    assert was[first + n..] == was[first + w..][n - w..];
  }

  // ---------------------------------------------------------------- the filter object

  class AudioPlaybackContinuity {
    var channels: nat
    var fadeFrames: nat
    var remaining: nat
    var gap: bool
    var last: seq<Sample>
    var anchor: seq<Sample>

    ghost function View(): Filter
      reads this
    {
      Filter(channels, fadeFrames, remaining, gap, last, anchor)
    }

    constructor (sampleRate: nat, channelCount: nat)
      ensures View() == Reset(sampleRate, channelCount)
    {
      channels := if channelCount < 1 then 1 else if channelCount > MAX_CHANNELS then MAX_CHANNELS else channelCount;
      var fade := sampleRate * 3 % 0x1_0000_0000 / 1000;
      fadeFrames := if fade < 1 then 1 else fade;
      remaining, gap := 0, false;
      last := seq(MAX_CHANNELS, _ => 0);
      anchor := seq(MAX_CHANNELS, _ => 0);
      new;
      assert last == Reset(sampleRate, channelCount).last;
    }

    /** One frame of the mixing loop, in place. */
    method MixFrame(samples: array<Sample>, at: nat)
      requires Shaped(View()) && at + channels <= samples.Length
      modifies this`remaining, this`last, samples
      ensures View() == MixTurned(old(View()), old(samples[at..at + channels])).0
      ensures samples[at..at + channels] == MixTurned(old(View()), old(samples[at..at + channels])).1
      ensures remaining == if old(remaining) != 0 then old(remaining) - 1 else 0
      ensures OnTheLine(old(View()), old(samples[at..at + channels]), samples[at..at + channels], remaining)
      ensures samples[..at] == old(samples[..at]) && samples[at + channels..] == old(samples[at + channels..])
    {
      hide Mix, MixTurned, Spliced, OnTheLine;
      MixedIsOnTheLine(View(), samples[at..at + channels]);
      ghost var s0, was, frame := samples[..], last, samples[at..at + channels];
      ghost var out := MixTurned(View(), frame).1;
      MixedSamples(View(), frame);
      if remaining != 0 { remaining := remaining - 1; }
      MixChannels(samples, at, out);
      SplicedAll(s0, at, out);
      SplicedAll(was, 0, out);
      assert samples[..][at..at + channels] == samples[at..at + channels];
      assert samples[..][..at] == samples[..at] && samples[..][at + channels..] == samples[at + channels..];
    }

    /** The channel loop, which lays the mixed samples over a frame. */
    method MixChannels(samples: array<Sample>, at: nat, ghost out: seq<Sample>)
      requires Shaped(View()) && at + channels <= samples.Length && |out| == channels
      requires forall ch :: 0 <= ch < channels ==>
                 out[ch] == Mix(anchor[ch], if gap then 0 else samples[at + ch], remaining, fadeFrames)
      modifies this`last, samples
      ensures |last| == MAX_CHANNELS && last == Spliced(old(last), 0, out, channels)
      ensures samples[..] == Spliced(old(samples[..]), at, out, channels)
    {
      hide Mix, Spliced;
      ghost var s0, was := samples[..], last;
      SplicedNothing(s0, at, out);
      SplicedNothing(was, 0, out);
      var ch := 0;
      while ch < channels
        invariant 0 <= ch <= channels && |last| == MAX_CHANNELS
        invariant samples[..] == Spliced(s0, at, out, ch) && last == Spliced(was, 0, out, ch)
      {
        SplicedStep(s0, at, out, ch);
        SplicedStep(was, 0, out, ch);
        assert samples[..][at + ch] == s0[at + ch];
        MixSample(samples, at + ch, ch);
        ch := ch + 1;
      }
    }

    /** Mixes one sample in place and remembers it. */
    method MixSample(samples: array<Sample>, i: nat, ch: nat)
      requires Shaped(View()) && ch < channels && i < samples.Length
      modifies this`last, samples
      ensures var v := Mix(anchor[ch], if gap then 0 else old(samples[i]), remaining, fadeFrames);
              samples[..] == old(samples[..])[i := v] && last == old(last)[ch := v]
    {
      hide Mix;
      var target: Sample := if gap then 0 else samples[i];
      var value := Mix(anchor[ch], target, remaining, fadeFrames);
      samples[i] := value;
      last := last[ch := value];
    }

    /** Remembers the last frame of a block passed through. */
    method KeepLast(samples: array<Sample>, at: nat)
      requires Shaped(View()) && at + channels <= samples.Length
      modifies this`last
      ensures last == samples[at..at + channels] + old(last[channels..])
    {
      hide Spliced;
      ghost var was, frame := last, samples[at..at + channels];
      SplicedNothing(was, 0, frame);
      var ch := 0;
      while ch < channels
        invariant 0 <= ch <= channels && |last| == MAX_CHANNELS
        invariant last == Spliced(was, 0, frame, ch)
      {
        SplicedStep(was, 0, frame, ch);
        last := last[ch := samples[at + ch]];
        ch := ch + 1;
      }
      SplicedAll(was, 0, frame);
    }

    /** The mixing loop over whole frames, in place. */
    method MixFrames(samples: array<Sample>, first: nat, frames: nat)
      requires Shaped(View()) && frames * channels >= 0 && first + frames * channels <= samples.Length
      modifies this`remaining, this`last, samples
      ensures var n := frames * channels;
              && View() == After(old(View()), old(samples[first..first + n]), gap)
              && samples[first..first + n] == Played(old(View()), old(samples[first..first + n]), gap)
              && samples[..first] == old(samples[..first]) && samples[first + n..] == old(samples[first + n..])
    {
      hide MixTurned, MixedUpTo, After, Played;
      ghost var n := frames * channels;
      ghost var t, was := View(), samples[..];
      MixNothing(t, was, first, n);
      var at := 0;
      for frame := 0 to frames
        invariant at == frame * channels && 0 <= at <= n
        invariant Shaped(View()) && View() == t.(remaining := remaining, last := last)
        invariant MixedUpTo(t, View(), was, samples[..], first, n, at)
      {
        FrameFits(frame, frames, channels, n);
        ghost var v, before := View(), samples[..];
        assert before[first + at..first + at + channels] == samples[first + at..first + at + channels];
        MixFrame(samples, first + at);
        ghost var after := samples[..];
        assert after[first + at..first + at + channels] == samples[first + at..first + at + channels];
        MixOneMore(t, v, was, before, first, n, at, after);
        at := at + channels;
      }
      MixedAll(t, View(), was, samples[..], first, n);
    }

    /** A block of frames to mix, and a partial frame after it that stays as it is. */
    method MixBlock(samples: array<Sample>, first: nat, sampleCount: nat)
      requires Shaped(View()) && channels <= sampleCount && first + sampleCount <= samples.Length
      modifies this`remaining, this`last, samples
      ensures View() == After(old(View()), old(samples[first..first + sampleCount]), gap)
      ensures samples[first..first + sampleCount] == Played(old(View()), old(samples[first..first + sampleCount]), gap)
      ensures samples[..first] == old(samples[..first])
      ensures samples[first + sampleCount..] == old(samples[first + sampleCount..])
    {
      hide MixTurned, FilterFrame, FilterFrames, Whole, After, Played;
      var frames := sampleCount / channels;
      ghost var t, was := View(), samples[..];
      ghost var w := frames * channels;
      WholeFrames(sampleCount, channels);
      MixFrames(samples, first, frames);
      PartialFrameIsLeft(t, was[first..first + sampleCount], w, gap);
      PartSplits(was, samples[..], first, w, sampleCount);
    }

    /** A block of continuous PCM, passed through as it is. */
    method PassBlock(samples: array<Sample>, first: nat, sampleCount: nat)
      requires Shaped(View()) && channels <= sampleCount && first + sampleCount <= samples.Length
      requires !gap && remaining == 0
      modifies this`last
      ensures View() == After(old(View()), samples[first..first + sampleCount], false)
      ensures samples[first..first + sampleCount] == Played(old(View()), samples[first..first + sampleCount], false)
    {
      hide FilterFrames, After, Played, LastFrame;
      var at := LastFrame(sampleCount, channels);
      ghost var s0 := samples[first..first + sampleCount];
      PassThrough(View(), s0);
      assert samples[first + at..first + at + channels] == s0[at..at + channels];
      KeepLast(samples, first + at);
    }

    /** Filters the samples from first on, in place. */
    method Process(samples: array<Sample>, first: nat, sampleCount: nat, isGap: bool)
      requires Shaped(View()) && first + sampleCount <= samples.Length
      modifies this, samples
      ensures View() == After(old(View()), old(samples[first..first + sampleCount]), isGap)
      ensures samples[first..first + sampleCount]
              == Played(old(View()), old(samples[first..first + sampleCount]), isGap)
      ensures samples[..first] == old(samples[..first])
      ensures samples[first + sampleCount..] == old(samples[first + sampleCount..])
    {
      hide FilterFrames, After, Played;
      ghost var s0 := samples[first..first + sampleCount];
      WholeFrames(sampleCount, channels);
      if sampleCount / channels == 0 {
        NothingToFilter(View(), s0, isGap);
        return;
      }
      TurnOnce(View(), s0, isGap);
      if isGap != gap {
        gap := isGap;
        anchor := last;
        remaining := fadeFrames;
      }
      assert View() == Turn(old(View()), isGap);
      if !gap && remaining == 0 {
        PassBlock(samples, first, sampleCount);
      } else {
        MixBlock(samples, first, sampleCount);
      }
    }
  }
}
