/**
  Crossfading and stitching PCM segments (inference/pipeline/long_text.py, crossfade_pcm and
  stitch_pcm_segments), in exact arithmetic.
 */
module Crossfade {
  import opened Wrappers
  import opened Pcm16
  import opened Arithmetic
  import opened Seqs

  type Samples = seq<int>

  // ---------------------------------------------------------------- mixing

  /** How many steps a fade of `f` samples takes from one end to the other. */
  function Steps(f: nat): nat {
    if f > 2 then f - 1 else 1
  }

  /** int(x * (1 - t) + y * t) for t = i / max(fade - 1, 1), as one truncated quotient. */
  function Mix(x: int, y: int, i: nat, fade: nat): int
    requires i < fade
  {
    var d := Steps(fade);
    Truncate(x * (d - i) + y * i, d)
  }

  function MixAll(tail: Samples, head: Samples): Samples
    requires |tail| == |head|
  {
    seq(|tail|, i requires 0 <= i < |tail| => Mix(tail[i], head[i], i, |tail|))
  }

  lemma TruncateBounds(a: int, d: nat, lo: int, hi: int)
    requires d > 0 && lo * d <= a <= hi * d
    ensures lo <= Truncate(a, d) <= hi
  {
    if a >= 0 {
      QuotientBounds(a, d, hi);
      if lo > 0 {
        assert a / d >= lo by { QuotientAtLeast(a, d, lo); }
      }
    } else {
      QuotientBounds(-a, d, -lo);
      if hi < 0 {
        assert -a / d >= -hi by { QuotientAtLeast(-a, d, -hi); }
      }
    }
  }

  lemma Scales(x: int, y: int, d: nat)
    requires x <= y
    ensures x * d <= y * d
  {}

  lemma QuotientBounds(a: nat, d: nat, hi: int)
    requires d > 0 && a <= hi * d
    ensures 0 <= a / d <= hi
  {
    var q := a / d;
    assert q * d <= a;
    if q > hi {
      Scales(hi + 1, q, d);
    }
  }

  lemma QuotientAtLeast(a: nat, d: nat, lo: int)
    requires d > 0 && lo * d <= a
    ensures a / d >= lo
  {
    var q := a / d;
    assert a < (q + 1) * d;
    if q < lo {
      Scales(q + 1, lo, d);
    }
  }

  /** Every mixed sample lies between the two it mixes. */
  lemma MixIsBetween(x: int, y: int, i: nat, fade: nat)
    requires i < fade
    ensures Min(x, y) <= Mix(x, y, i, fade) <= Max(x, y)
    ensures IsSample(x) && IsSample(y) ==> IsSample(Mix(x, y, i, fade))
  {
    var d := Steps(fade);
    var lo, hi := Min(x, y), Max(x, y);
    assert i <= d;
    Weighted(x, lo, hi, d - i);
    Weighted(y, lo, hi, i);
    assert lo * d == lo * (d - i) + lo * i && hi * d == hi * (d - i) + hi * i;
    TruncateBounds(x * (d - i) + y * i, d, lo, hi);
  }

  lemma Weighted(x: int, lo: int, hi: int, w: nat)
    requires lo <= x <= hi
    ensures lo * w <= x * w <= hi * w
  {}

  // ---------------------------------------------------------------- crossfading

  function Overlap(fade: int, a: nat, b: nat): int {
    Min(fade, Min(a, b))
  }

  /** Two segments with their ends mixed over at most `fade` samples. */
  function Cross(a: Samples, b: Samples, fade: nat): Samples {
    var f := Overlap(fade, |a|, |b|);
    a[..|a| - f] + MixAll(a[|a| - f..], b[..f]) + b[f..]
  }

  lemma CrossKeepsRange(a: Samples, b: Samples, fade: nat)
    requires AllSamples(a) && AllSamples(b)
    ensures AllSamples(Cross(a, b, fade))
  {
    var f := Overlap(fade, |a|, |b|);
    forall i | 0 <= i < f
      ensures IsSample(Mix(a[|a| - f..][i], b[..f][i], i, f))
    {
      MixIsBetween(a[|a| - f..][i], b[..f][i], i, f);
    }
  }

  /** What a crossfade is, sample by sample: the first segment, a region between both, the second. */
  lemma CrossAt(a: Samples, b: Samples, fade: nat, i: nat)
    requires i < |Cross(a, b, fade)|
    ensures
      var f := Overlap(fade, |a|, |b|);
      var c := Cross(a, b, fade);
      && |c| == |a| + |b| - f
      && |c| >= |a| && |c| >= |b|
      && (i < |a| - f ==> c[i] == a[i])
      && (i >= |a| ==> c[i] == b[i - (|a| - f)])
      && (|a| - f <= i < |a| ==>
            Min(a[i], b[i - (|a| - f)]) <= c[i] <= Max(a[i], b[i - (|a| - f)]))
  {
    var f := Overlap(fade, |a|, |b|);
    if |a| - f <= i < |a| {
      MixIsBetween(a[i], b[i - (|a| - f)], i - (|a| - f), f);
    }
  }

  // ---------------------------------------------------------------- what a seam sounds like

  /** `v` is a / d without its fraction. */
  predicate IsTruncated(v: int, a: int, d: nat) {
    if a >= 0 then d * v <= a < d * v + d else d * v - d < a <= d * v
  }

  lemma Division(a: nat, d: nat)
    requires d > 0
    ensures d * (a / d) <= a < d * (a / d) + d
  {
    assert a == d * (a / d) + a % d;
  }

  lemma TruncateIsIsTruncated(a: int, d: nat)
    requires d > 0
    ensures IsTruncated(Truncate(a, d), a, d)
  {
    if a >= 0 {
      Division(a, d);
    } else {
      Division(-a, d);
      assert d * -(-a / d) == -(d * (-a / d));
    }
  }

  lemma WholeTruncate(x: int, d: nat)
    requires d > 0
    ensures Truncate(x * d, d) == x
  {
    TruncateBounds(x * d, d, x, x);
  }

  lemma MixAtStart(x: int, y: int, f: nat)
    requires f > 0
    ensures Mix(x, y, 0, f) == x
  {
    WholeTruncate(x, Steps(f));
  }

  lemma MixAtEnd(x: int, y: int, f: nat)
    requires f >= 2
    ensures Mix(x, y, f - 1, f) == y
  {
    var d: nat := f - 1;
    assert x * (d - d) + y * d == y * d;
    WholeTruncate(y, d);
  }

  lemma QuotientIsMonotone(a: nat, b: nat, d: nat)
    requires d > 0 && a <= b
    ensures a / d <= b / d
  {
    Division(a, d);
    assert (a / d) * d <= b;
    QuotientAtLeast(b, d, a / d);
  }

  lemma TruncateIsMonotone(a: int, b: int, d: nat)
    requires d > 0 && a <= b
    ensures Truncate(a, d) <= Truncate(b, d)
  {
    if 0 <= a {
      QuotientIsMonotone(a, b, d);
    } else if b < 0 {
      QuotientIsMonotone(-b, -a, d);
    } else {
      QuotientAtLeast(b, d, 0);
      QuotientAtLeast(-a, d, 0);
    }
  }

  lemma WeightRises(x: int, y: int, d: nat, j: nat, k: nat, a: int, b: int)
    requires x <= y && j <= k && a == x * (d - j) + y * j && b == x * (d - k) + y * k
    ensures a <= b
  {
    assert b - a == (y - x) * (k - j);
    assert (y - x) * (k - j) >= 0;
  }

  lemma WeightFalls(x: int, y: int, d: nat, j: nat, k: nat, a: int, b: int)
    requires x >= y && j <= k && a == x * (d - j) + y * j && b == x * (d - k) + y * k
    ensures a >= b
  {
    assert a - b == (x - y) * (k - j);
    assert (x - y) * (k - j) >= 0;
  }

  lemma MixIs(x: int, y: int, j: nat, f: nat) returns (a: int)
    requires j < f
    ensures a == x * (Steps(f) - j) + y * j && Mix(x, y, j, f) == Truncate(a, Steps(f))
  {
    a := x * (Steps(f) - j) + y * j;
  }

  /** Between fixed samples the mix moves one way, from the first to the second. */
  lemma MixMoves(x: int, y: int, j: nat, k: nat, f: nat)
    requires j <= k < f
    ensures if x <= y then Mix(x, y, j, f) <= Mix(x, y, k, f) else Mix(x, y, j, f) >= Mix(x, y, k, f)
  {
    var a := MixIs(x, y, j, f);
    var b := MixIs(x, y, k, f);
    if x <= y {
      WeightRises(x, y, Steps(f), j, k, a, b);
      TruncateIsMonotone(a, b, Steps(f));
    } else {
      WeightFalls(x, y, Steps(f), j, k, a, b);
      TruncateIsMonotone(b, a, Steps(f));
    }
  }

  lemma SeamIsMix(a: Samples, b: Samples, fade: nat, j: nat)
    requires j < fade && fade <= |a| && fade <= |b|
    ensures |Cross(a, b, fade)| == |a| + |b| - fade
    ensures Cross(a, b, fade)[|a| - fade + j] == Mix(a[|a| - fade + j], b[j], j, fade)
  {
    assert a[|a| - fade..][j] == a[|a| - fade + j] && b[..fade][j] == b[j];
  }

  /** The seam starts on the first segment's sample and, from two samples on, ends on the second's. */
  lemma SeamEnds(a: Samples, b: Samples, fade: nat)
    requires 0 < fade && fade <= |a| && fade <= |b|
    ensures |Cross(a, b, fade)| == |a| + |b| - fade
    ensures Cross(a, b, fade)[|a| - fade] == a[|a| - fade]
    ensures fade >= 2 ==> Cross(a, b, fade)[|a| - 1] == b[fade - 1]
  {
    SeamIsMix(a, b, fade, 0);
    SeamIsMix(a, b, fade, fade - 1);
    MixAtStart(a[|a| - fade], b[0], fade);
    if fade >= 2 {
      MixAtEnd(a[|a| - 1], b[fade - 1], fade);
    }
  }

  /**
    In the seam each sample is the mean of the two it replaces, weighted by how far along it is,
    without its fraction.
   */
  lemma SeamIsWeighted(a: Samples, b: Samples, fade: nat, j: nat)
    requires j < fade && fade <= |a| && fade <= |b|
    ensures |Cross(a, b, fade)| == |a| + |b| - fade
    ensures var x, y, d := a[|a| - fade + j], b[j], Steps(fade);
            IsTruncated(Cross(a, b, fade)[|a| - fade + j], x * (d - j) + y * j, d)
  {
    SeamIsMix(a, b, fade, j);
    var d := Steps(fade);
    TruncateIsIsTruncated(a[|a| - fade + j] * (d - j) + b[j] * j, d);
  }

  /** And where both segments stay the same it moves one way, from the first to the second. */
  lemma SeamMoves(a: Samples, b: Samples, fade: nat, j: nat, k: nat)
    requires j <= k < fade && fade <= |a| && fade <= |b|
    requires a[|a| - fade + j] == a[|a| - fade + k] && b[j] == b[k]
    ensures |Cross(a, b, fade)| == |a| + |b| - fade
    ensures var c, from := Cross(a, b, fade), |a| - fade;
            if a[from + j] <= b[j] then c[from + j] <= c[from + k] else c[from + j] >= c[from + k]
  {
    SeamIsMix(a, b, fade, j);
    SeamIsMix(a, b, fade, k);
    MixMoves(a[|a| - fade + j], b[j], j, k, fade);
  }

  function FadeSamples(sampleRate: int, crossfadeMs: int): int {
    Truncate(sampleRate * crossfadeMs, 1000)
  }

  /** crossfade_pcm on bytes; absent where struct.unpack refuses an odd number of bytes. */
  function CrossfadeOf(a: Pcm, b: Pcm, sampleRate: int, crossfadeMs: int): Option<Pcm> {
    CrossfadeWith(a, b, FadeSamples(sampleRate, crossfadeMs))
  }

  function CrossfadeWith(a: Pcm, b: Pcm, fade: int): Option<Pcm> {
    var f := Overlap(fade, |a| / 2, |b| / 2);
    if a == [] then Some(b)
    else if b == [] then Some(a)
    else if f <= 0 then Some(a + b)
    else if |a| % 2 != 0 || |b| % 2 != 0 then None
    else
      CrossKeepsRange(Unpack(a), Unpack(b), f);
      Some(Pack(Cross(Unpack(a), Unpack(b), f)))
  }

  method CrossfadePcm(a: Pcm, b: Pcm, sampleRate: int, crossfadeMs: int) returns (r: Option<Pcm>)
    ensures r == CrossfadeOf(a, b, sampleRate, crossfadeMs)
  {
    if a == [] {
      return Some(b);
    }
    if b == [] {
      return Some(a);
    }
    var fade := Overlap(FadeSamples(sampleRate, crossfadeMs), |a| / 2, |b| / 2);
    if fade <= 0 {
      return Some(a + b);
    }
    if |a| % 2 != 0 || |b| % 2 != 0 {
      return None;
    }
    var samplesA, samplesB := Unpack(a), Unpack(b);
    var mixed := MixEnds(samplesA[|samplesA| - fade..], samplesB[..fade]);
    var out := samplesA[..|samplesA| - fade] + mixed + samplesB[fade..];
    CrossKeepsRange(samplesA, samplesB, fade);
    r := Some(Pack(out));
  }

  /** The mixing loop. */
  method MixEnds(tail: Samples, head: Samples) returns (out: Samples)
    requires |tail| == |head|
    ensures out == MixAll(tail, head)
  {
    out := [];
    for i := 0 to |tail|
      invariant out == MixAll(tail, head)[..i]
    {
      out := out + [Mix(tail[i], head[i], i, |tail|)];
    }
  }

  // ---------------------------------------------------------------- stitching

  /** stitch_pcm_segments on bytes: a left fold. */
  function StitchOf(segments: seq<Pcm>, sampleRate: int): Option<Pcm> {
    if segments == [] then Some([])
    else if |segments| == 1 then Some(segments[0])
    else
      var before := StitchOf(Front(segments), sampleRate);
      if before.None? then None else CrossfadeOf(before.value, Last(segments), sampleRate, 50)
  }

  method StitchPcmSegments(segments: seq<Pcm>, sampleRate: int) returns (r: Option<Pcm>)
    ensures r == StitchOf(segments, sampleRate)
  {
    if segments == [] {
      return Some([]);
    }
    r := Some(segments[0]);
    for k := 1 to |segments|
      invariant r.Some? && r == StitchOf(segments[..k], sampleRate)
    {
      assert Front(segments[..k + 1]) == segments[..k];
      r := CrossfadePcm(r.value, segments[k], sampleRate, 50);
      if r.None? {
        StitchFails(segments, k + 1, sampleRate);
        return;
      }
    }
    assert segments[..|segments|] == segments;
  }

  lemma {:induction false} StitchFails(segments: seq<Pcm>, k: nat, sampleRate: int)
    requires 1 <= k <= |segments| && StitchOf(segments[..k], sampleRate).None?
    ensures StitchOf(segments, sampleRate).None?
    decreases |segments|
  {
    if k == |segments| {
      assert segments[..k] == segments;
    } else {
      assert Front(segments)[..k] == segments[..k];
      StitchFails(Front(segments), k, sampleRate);
      assert |segments| > 1;
    }
  }

  /** The fold on samples. */
  function Stitch(segments: seq<Samples>, fade: nat): Samples {
    if segments == [] then []
    else if |segments| == 1 then segments[0]
    else Cross(Stitch(Front(segments), fade), Last(segments), fade)
  }

  /** On segments of whole samples, the bytes are those of the samples' fold. */
  lemma {:induction false} StitchOnSamples(segments: seq<Pcm>, sampleRate: int, samples: seq<Samples>)
    requires segments != [] && FadeSamples(sampleRate, 50) >= 0
    requires |samples| == |segments|
    requires forall k :: 0 <= k < |segments| ==> |segments[k]| % 2 == 0 && samples[k] == Unpack(segments[k])
    ensures AllSamples(Stitch(samples, FadeSamples(sampleRate, 50)))
    ensures StitchOf(segments, sampleRate) == Some(Pack(Stitch(samples, FadeSamples(sampleRate, 50))))
  {
    var fade := FadeSamples(sampleRate, 50);
    if |segments| == 1 {
      PackInvertsUnpack(segments[0]);
    } else {
      StitchOnSamples(Front(segments), sampleRate, Front(samples));
      CrossOnSamples(Stitch(Front(samples), fade), Last(segments), sampleRate);
      CrossKeepsRange(Stitch(Front(samples), fade), Last(samples), fade);
    }
  }

  lemma CrossOnSamples(before: Samples, segment: Pcm, sampleRate: int)
    requires AllSamples(before) && |segment| % 2 == 0 && FadeSamples(sampleRate, 50) >= 0
    ensures AllSamples(Cross(before, Unpack(segment), FadeSamples(sampleRate, 50)))
    ensures CrossfadeOf(Pack(before), segment, sampleRate, 50)
         == Some(Pack(Cross(before, Unpack(segment), FadeSamples(sampleRate, 50))))
  {
    var fade := FadeSamples(sampleRate, 50);
    var b := Unpack(segment);
    UnpackInvertsPack(before);
    CrossKeepsRange(before, b, fade);
    if Overlap(fade, |before|, |b|) == 0 {
      NoOverlap(before, b, fade);
      ConcatOnSamples(before, segment);
    } else {
      CrossClamped(before, b, fade);
    }
  }

  /** Without an overlap the bytes are put end to end, and an empty side changes nothing. */
  lemma ConcatOnSamples(before: Samples, segment: Pcm)
    requires AllSamples(before) && |segment| % 2 == 0
    ensures Pack(before + Unpack(segment)) == Pack(before) + segment
    ensures Pack(before) == [] ==> Pack(before) + segment == segment
    ensures segment == [] ==> Pack(before) + segment == Pack(before)
  {
    PackConcat(before, Unpack(segment));
    PackInvertsUnpack(segment);
  }

  lemma NoOverlap(a: Samples, b: Samples, fade: nat)
    requires Overlap(fade, |a|, |b|) == 0
    ensures Cross(a, b, fade) == a + b
  {}

  lemma CrossClamped(a: Samples, b: Samples, fade: nat)
    requires Overlap(fade, |a|, |b|) > 0
    ensures Cross(a, b, Overlap(fade, |a|, |b|)) == Cross(a, b, fade)
  {}

  /** The stitched audio is never shorter than any of its segments. */
  lemma {:induction false} StitchIsNoShorter(segments: seq<Samples>, fade: nat, k: nat)
    requires k < |segments|
    ensures |Stitch(segments, fade)| >= |segments[k]|
  {
    if |segments| > 1 && k < |segments| - 1 {
      StitchIsNoShorter(Front(segments), fade, k);
    }
  }

  lemma WholeIsCrossfaded(a: Pcm, b: Pcm, fade: int)
    requires |a| % 2 == 0 && |b| % 2 == 0
    ensures CrossfadeWith(a, b, fade).Some? && |CrossfadeWith(a, b, fade).value| % 2 == 0
  {
    var f := Overlap(fade, |a| / 2, |b| / 2);
    if a != [] && b != [] && f > 0 {
      CrossKeepsRange(Unpack(a), Unpack(b), f);
      PackedIsWhole(Cross(Unpack(a), Unpack(b), f));
    } else {
      assert |a + b| == |a| + |b|;
    }
  }

  lemma PackedIsWhole(samples: Samples)
    requires AllSamples(samples)
    ensures |Pack(samples)| % 2 == 0
  {
    assert |Pack(samples)| == 2 * |samples|;
  }

  /** Segments of whole samples are never refused, and stitch to whole samples. */
  lemma {:induction false} WholeIsStitched(segments: seq<Pcm>, sampleRate: int)
    requires WholeSamples(segments)
    ensures StitchOf(segments, sampleRate).Some? && |StitchOf(segments, sampleRate).value| % 2 == 0
  {
    if |segments| > 1 {
      WholeIsStitched(Front(segments), sampleRate);
      WholeIsCrossfaded(StitchOf(Front(segments), sampleRate).value, Last(segments), FadeSamples(sampleRate, 50));
    }
  }

  // ---------------------------------------------------------------- any bracketing

  /** One crossfade of a left part ending in T with a right part beginning with H. */
  lemma CrossSplit(x: Samples, t: Samples, h: Samples, c: Samples)
    requires |t| == |h|
    ensures Cross(x + t, h + c, |t|) == x + MixAll(t, h) + c
  {
    var a, b := x + t, h + c;
    assert a[..|a| - |t|] == x && a[|a| - |t|..] == t && b[..|t|] == h && b[|t|..] == c;
  }

  /** The five regions of two crossfades, from the left. */
  lemma FromLeft(a0: Samples, a1: Samples, b0: Samples, b1: Samples, b2: Samples, c0: Samples, c1: Samples)
    requires |a1| == |b0| == |b2| == |c0|
    ensures Cross(Cross(a0 + a1, b0 + b1 + b2, |a1|), c0 + c1, |a1|)
         == a0 + MixAll(a1, b0) + b1 + MixAll(b2, c0) + c1
  {
    assert b0 + b1 + b2 == b0 + (b1 + b2);
    CrossSplit(a0, a1, b0, b1 + b2);
    var ab := a0 + MixAll(a1, b0) + b1;
    assert a0 + MixAll(a1, b0) + (b1 + b2) == ab + b2;
    CrossSplit(ab, b2, c0, c1);
  }

  /** And from the right. */
  lemma FromRight(a0: Samples, a1: Samples, b0: Samples, b1: Samples, b2: Samples, c0: Samples, c1: Samples)
    requires |a1| == |b0| == |b2| == |c0|
    ensures Cross(a0 + a1, Cross(b0 + b1 + b2, c0 + c1, |a1|), |a1|)
         == a0 + MixAll(a1, b0) + (b1 + MixAll(b2, c0) + c1)
  {
    CrossSplit(b0 + b1, b2, c0, c1);
    var bc := b1 + MixAll(b2, c0) + c1;
    assert b0 + b1 + MixAll(b2, c0) + c1 == b0 + bc;
    CrossSplit(a0, a1, b0, bc);
  }

  lemma Reassociate(p: Samples, q: Samples, r: Samples, s: Samples)
    ensures p + q + r + s == p + (q + r + s)
  {}

  lemma CrossIsAssociative(a: Samples, b: Samples, c: Samples, fade: nat)
    requires |a| >= fade && |b| >= 2 * fade && |c| >= fade
    ensures Cross(Cross(a, b, fade), c, fade) == Cross(a, Cross(b, c, fade), fade)
  {
    var a0, a1 := a[..|a| - fade], a[|a| - fade..];
    var b0, b1, b2 := b[..fade], b[fade..|b| - fade], b[|b| - fade..];
    var c0, c1 := c[..fade], c[fade..];
    FromLeft(a0, a1, b0, b1, b2, c0, c1);
    FromRight(a0, a1, b0, b1, b2, c0, c1);
    Reassociate(a0 + MixAll(a1, b0), b1, MixAll(b2, c0), c1);
    assert a0 + a1 == a;
    assert b0 + b1 + b2 == b;
    assert c0 + c1 == c;
  }

  /** Inner segments hold two fades, the outer ones hold one. */
  ghost predicate LongEnough(segments: seq<Samples>, fade: nat) {
    && (forall k :: 0 <= k < |segments| ==> |segments[k]| >= fade)
    && (forall k :: 0 < k < |segments| - 1 ==> |segments[k]| >= 2 * fade)
  }

  datatype Bracketing = Leaf(segment: Samples) | Pair(left: Bracketing, right: Bracketing)

  function Leaves(t: Bracketing): seq<Samples> {
    match t
    case Leaf(s) => [s]
    case Pair(l, r) => Leaves(l) + Leaves(r)
  }

  function Eval(t: Bracketing, fade: nat): Samples {
    match t
    case Leaf(s) => s
    case Pair(l, r) => Cross(Eval(l, fade), Eval(r, fade), fade)
  }

  /** Stitching two runs of segments separately and crossfading the results stitches them all. */
  lemma {:induction false} StitchMerges(xs: seq<Samples>, ys: seq<Samples>, fade: nat)
    requires xs != [] && ys != [] && LongEnough(xs + ys, fade)
    ensures Cross(Stitch(xs, fade), Stitch(ys, fade), fade) == Stitch(xs + ys, fade)
    decreases |ys|
  {
    var y := Last(ys);
    assert Front(xs + ys) == xs + Front(ys) && Last(xs + ys) == y;
    if |ys| == 1 {
      assert xs + Front(ys) == xs;
    } else {
      var inner := Front(ys);
      assert forall k :: 0 <= k < |inner| ==> inner[k] == (xs + ys)[|xs| + k];
      assert forall k :: 0 <= k < |xs + inner| ==> (xs + inner)[k] == (xs + ys)[k];
      StitchMerges(xs, inner, fade);
      StitchIsNoShorter(xs, fade, 0);
      StitchIsNoShorter(inner, fade, 0);
      assert xs[0] == (xs + ys)[0] && y == (xs + ys)[|xs + ys| - 1];
      CrossIsAssociative(Stitch(xs, fade), Stitch(inner, fade), y, fade);
    }
  }

  lemma {:induction false} LeavesAreNonEmpty(t: Bracketing)
    ensures Leaves(t) != []
  {
    if t.Pair? {
      LeavesAreNonEmpty(t.left);
    }
  }

  /** The left fold equals every other bracketing when the segments are long enough. */
  lemma {:induction false} AnyBracketing(t: Bracketing, fade: nat)
    requires LongEnough(Leaves(t), fade)
    ensures Eval(t, fade) == Stitch(Leaves(t), fade)
  {
    if t.Pair? {
      var l, r := Leaves(t.left), Leaves(t.right);
      LeavesAreNonEmpty(t.left);
      LeavesAreNonEmpty(t.right);
      assert forall k :: 0 <= k < |l| ==> l[k] == (l + r)[k];
      assert forall k :: 0 <= k < |r| ==> r[k] == (l + r)[|l| + k];
      AnyBracketing(t.left, fade);
      AnyBracketing(t.right, fade);
      StitchMerges(l, r, fade);
    }
  }

  function Total(segments: seq<Samples>): nat {
    if segments == [] then 0 else Total(Front(segments)) + |Last(segments)|
  }

  lemma LastSeam(segments: seq<Samples>, fade: nat)
    requires |segments| > 1 && forall k :: 0 <= k < |segments| ==> |segments[k]| >= fade
    ensures |Stitch(segments, fade)| == |Stitch(Front(segments), fade)| + |Last(segments)| - fade
  {
    StitchIsNoShorter(Front(segments), fade, 0);
    assert Front(segments)[0] == segments[0];
  }

  lemma OneMoreSeam(n: nat, fade: nat)
    ensures (n + 1) * fade == n * fade + fade
  {}

  /** Each of the n - 1 seams takes one fade. */
  lemma {:induction false} StitchLength(segments: seq<Samples>, fade: nat)
    requires segments != [] && forall k :: 0 <= k < |segments| ==> |segments[k]| >= fade
    ensures |Stitch(segments, fade)| == Total(segments) - (|segments| - 1) * fade
  {
    if |segments| == 1 {
      assert Front(segments) == [];
    } else {
      StitchLength(Front(segments), fade);
      LastSeam(segments, fade);
      OneMoreSeam(|segments| - 2, fade);
    }
  }

  function TotalBytes(segments: seq<Pcm>): nat {
    if segments == [] then 0 else TotalBytes(Front(segments)) + |Last(segments)|
  }

  function Unpacked(segments: seq<Pcm>): seq<Samples> {
    seq(|segments|, k requires 0 <= k < |segments| => Unpack(segments[k]))
  }

  lemma {:induction false} BytesOfSamples(segments: seq<Pcm>)
    requires WholeSamples(segments)
    ensures TotalBytes(segments) == 2 * Total(Unpacked(segments))
  {
    if segments != [] {
      BytesOfSamples(Front(segments));
      assert Front(Unpacked(segments)) == Unpacked(Front(segments));
    }
  }

  lemma StitchedIsPacked(segments: seq<Pcm>, sampleRate: int)
    requires segments != [] && WholeSamples(segments) && FadeSamples(sampleRate, 50) >= 0
    ensures StitchOf(segments, sampleRate).Some?
    ensures |StitchOf(segments, sampleRate).value|
         == 2 * |Stitch(Unpacked(segments), FadeSamples(sampleRate, 50))|
  {
    StitchOnSamples(segments, sampleRate, Unpacked(segments));
  }

  /** In bytes: the result is no shorter than any segment. */
  lemma StitchedIsNoShorter(segments: seq<Pcm>, sampleRate: int, k: nat)
    requires WholeSamples(segments) && FadeSamples(sampleRate, 50) >= 0 && k < |segments|
    ensures StitchOf(segments, sampleRate).Some? && |StitchOf(segments, sampleRate).value| >= |segments[k]|
  {
    StitchedIsPacked(segments, sampleRate);
    StitchIsNoShorter(Unpacked(segments), FadeSamples(sampleRate, 50), k);
    assert |Unpacked(segments)[k]| == |segments[k]| / 2;
  }

  /** In bytes: each seam takes one fade, if every segment holds one. */
  lemma StitchedLength(segments: seq<Pcm>, sampleRate: int, fade: nat)
    requires segments != [] && WholeSamples(segments) && fade == FadeSamples(sampleRate, 50)
    requires forall k :: 0 <= k < |segments| ==> |segments[k]| >= 2 * fade
    ensures StitchOf(segments, sampleRate).Some?
    ensures |StitchOf(segments, sampleRate).value| == TotalBytes(segments) - 2 * ((|segments| - 1) * fade)
  {
    StitchedIsPacked(segments, sampleRate);
    BytesOfSamples(segments);
    StitchLength(Unpacked(segments), fade);
  }

  lemma FadeIs(sampleRate: nat, crossfadeMs: nat, fade: nat)
    requires 1000 * fade <= sampleRate * crossfadeMs < 1000 * fade + 1000
    ensures FadeSamples(sampleRate, crossfadeMs) == fade
  {
    var product := sampleRate * crossfadeMs;
    assert product / 1000 == fade;
  }

  lemma CrossfadeBy(a: Samples, b: Samples, fade: int, f: nat)
    requires AllSamples(a) && AllSamples(b) && a != [] && b != [] && f == Overlap(fade, |a|, |b|)
    ensures AllSamples(Cross(a, b, f)) && CrossfadeWith(Pack(a), Pack(b), fade) == Some(Pack(Cross(a, b, f)))
  {
    UnpackInvertsPack(a);
    UnpackInvertsPack(b);
    CrossKeepsRange(a, b, f);
    if f == 0 {
      PackConcat(a, b);
      NoOverlap(a, b, f);
    }
  }

  /** The overlap, in samples: what the milliseconds come to, or the shorter segment. */
  lemma CrossfadeIsCross(a: Samples, b: Samples, sampleRate: nat, crossfadeMs: nat, fade: nat)
    requires AllSamples(a) && AllSamples(b) && a != [] && b != []
    requires 1000 * fade <= sampleRate * crossfadeMs < 1000 * fade + 1000
    ensures var f := if fade <= |a| && fade <= |b| then fade else if |a| <= |b| then |a| else |b|;
            && AllSamples(Cross(a, b, f))
            && CrossfadeOf(Pack(a), Pack(b), sampleRate, crossfadeMs) == Some(Pack(Cross(a, b, f)))
  {
    FadeIs(sampleRate, crossfadeMs, fade);
    CrossfadeBy(a, b, fade, Overlap(fade, |a|, |b|));
  }
}
