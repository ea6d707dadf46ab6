/** The fade transform `fade_samples`: sample i is weighted by w(i / half) in
    the first half and by w((n - i) / half) in the second, where half = n // 2,
    and the weighted value is floored. Eight-bit samples are unsigned, so they
    are moved to be centred on 0 before weighting and moved back after.

    Weights are exact fractions: t = k / half is kept as the pair (k, half),
    and w(t) as a numerator over a denominator, so floor(c * w(t)) is the
    Euclidean quotient of c * numerator by the (positive) denominator. */
module Fade {
  import opened Arith

  /** Which fade `fade_samples` is given: none (`None` in the source), or one
      of the weighting functions `linear` and `quadratic`. */
  datatype Fade = NoFade | Linear | Quadratic

  /** The numerator of w(k / half): k for `linear`, k^2 for `quadratic`. */
  function WeightNumerator(fade: Fade, k: int): int
    requires !fade.NoFade?
  {
    match fade
    case Linear => k
    case Quadratic => k * k
  }

  /** The denominator of w(k / half): half for `linear`, half^2 for `quadratic`. */
  function WeightDenominator(fade: Fade, half: nat): (d: nat)
    requires !fade.NoFade?
    ensures half > 0 ==> d >= half
  {
    match fade
    case Linear => half
    case Quadratic => half * half
  }

  /** The numerator k of the position t = k / half of sample i among n:
      i while i <= half, n - i after. */
  function Position(i: int, n: nat): int {
    if i <= n / 2 then i else n - i
  }

  /** 8-bit samples are unsigned: their silence is 128, not 0. */
  function Recentre(sample: int, sampleSize: nat): int {
    if sampleSize == 1 then sample - 128 else sample
  }

  function Restore(value: int, sampleSize: nat): int {
    if sampleSize == 1 then value + 128 else value
  }

  /** floor(c * w(k / half)). */
  function Weighted(c: int, fade: Fade, k: int, half: nat): int
    requires !fade.NoFade? && half > 0
  {
    (c * WeightNumerator(fade, k)) / WeightDenominator(fade, half)
  }

  /** Sample `sample`, at index i of n, after the fade. */
  function FadedSample(sample: int, i: int, n: nat, sampleSize: nat, fade: Fade): int
    requires !fade.NoFade? && n >= 2
  {
    Restore(Weighted(Recentre(sample, sampleSize), fade, Position(i, n), n / 2), sampleSize)
  }

  /** The transform's loop. With no fade the list is returned as it is. The
      source divides by half = n // 2 for every sample, so a fade of a
      non-empty list needs n >= 2. */
  method FadeSamples(samples: seq<int>, numSamples: nat, sampleSize: nat, fade: Fade)
    returns (faded: seq<int>)
    requires fade.NoFade? || |samples| == 0 || numSamples >= 2
    ensures fade.NoFade? ==> faded == samples
    ensures |faded| == |samples|
    ensures !fade.NoFade? ==> forall i :: 0 <= i < |samples| ==>
      faded[i] == FadedSample(samples[i], i, numSamples, sampleSize, fade)
  {
    if fade.NoFade? {
      return samples;
    }
    faded := [];
    var half := numSamples / 2;
    for i := 0 to |samples|
      invariant |faded| == i
      invariant forall j :: 0 <= j < i ==> faded[j] == FadedSample(samples[j], j, numSamples, sampleSize, fade)
    {
      var newSample := samples[i];
      if sampleSize == 1 {
        newSample := newSample - 128;
      }
      if i <= half {
        newSample := Weighted(newSample, fade, i, half);
      } else {
        newSample := Weighted(newSample, fade, numSamples - i, half);
      }
      if sampleSize == 1 {
        newSample := newSample + 128;
      }
      faded := faded + [newSample];
    }
  }

  /** The position t = k / half of every index lies in [0, 1], and is
      positive after index 0; it is the same at i and at n - i. */
  lemma PositionInUnitInterval(i: int, n: nat)
    requires n >= 2 && 0 <= i < n
    ensures 0 <= Position(i, n) <= n / 2
    ensures i > 0 ==> Position(i, n) > 0
    ensures i > 0 ==> Position(n - i, n) == Position(i, n)
  {
  }

  /** Every weight w(t) with t in [0, 1] is itself in [0, 1]. */
  lemma WeightInUnitInterval(fade: Fade, k: int, half: nat)
    requires !fade.NoFade? && half > 0 && 0 <= k <= half
    ensures 0 <= WeightNumerator(fade, k) <= WeightDenominator(fade, half)
    ensures k == 0 ==> WeightNumerator(fade, k) == 0
    ensures k == half ==> WeightNumerator(fade, k) == WeightDenominator(fade, half)
  {
    if fade.Quadratic? {
      MulMonotone(0, k, k);
      MulMonotone(k, half, k);
      MulMonotone(k, half, half);
    }
  }

  /** A faded sample, taken around its centre, lies between 0 and the
      original: the fade only moves samples toward silence, and floors. */
  lemma FadeMovesTowardSilence(sample: int, i: int, n: nat, sampleSize: nat, fade: Fade)
    requires !fade.NoFade? && n >= 2 && 0 <= i < n
    ensures var c := Recentre(sample, sampleSize);
      var f := Recentre(FadedSample(sample, i, n, sampleSize, fade), sampleSize);
      && (c >= 0 ==> 0 <= f <= c)
      && (c <= 0 ==> c <= f <= 0)
  {
    var k := Position(i, n);
    PositionInUnitInterval(i, n);
    WeightInUnitInterval(fade, k, n / 2);
    ScaledTowardZero(Recentre(sample, sampleSize), WeightNumerator(fade, k), WeightDenominator(fade, n / 2));
  }

  /** The first sample is faded to silence: 0, or 128 for 8-bit samples. */
  lemma FadeStartsSilent(sample: int, n: nat, sampleSize: nat, fade: Fade)
    requires !fade.NoFade? && n >= 2
    ensures FadedSample(sample, 0, n, sampleSize, fade) == (if sampleSize == 1 then 128 else 0)
  {
    WeightInUnitInterval(fade, 0, n / 2);
  }

  /** The sample at index half has weight w(1) = 1 and is unchanged. */
  lemma FadeKeepsMidpoint(sample: int, n: nat, sampleSize: nat, fade: Fade)
    requires !fade.NoFade? && n >= 2
    ensures FadedSample(sample, n / 2, n, sampleSize, fade) == sample
  {
    var half := n / 2;
    WeightInUnitInterval(fade, half, half);
    assert half * half > 0 by {
      MulAtLeast(half, half);
    }
    MulDivCancel(Recentre(sample, sampleSize), WeightDenominator(fade, half));
  }

  /** An 8-bit sample at silence (128) stays 128 under every fade. */
  lemma FadeKeepsEightBitSilence(i: int, n: nat, fade: Fade)
    requires !fade.NoFade? && n >= 2
    ensures FadedSample(128, i, n, 1, fade) == 128
  {
  }

  /** The fade envelope is symmetric: a sample value at i and at n - i is
      faded to the same value. */
  lemma FadeIsSymmetric(sample: int, i: int, n: nat, sampleSize: nat, fade: Fade)
    requires !fade.NoFade? && n >= 2 && 0 < i < n
    ensures FadedSample(sample, i, n, sampleSize, fade) == FadedSample(sample, n - i, n, sampleSize, fade)
  {
    PositionInUnitInterval(i, n);
  }
}
