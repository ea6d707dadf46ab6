/** The range scan `get_samples_range`: one pass keeping the largest and the
    smallest sample seen so far. */
module SampleRange {

  /** `maxValue` and `minValue` are the largest and the smallest element of `samples`. */
  ghost predicate IsRangeOf(samples: seq<int>, maxValue: int, minValue: int) {
    && maxValue in samples
    && minValue in samples
    && forall i :: 0 <= i < |samples| ==> minValue <= samples[i] <= maxValue
  }

  /** The scan. The source starts from -inf and +inf, so the first sample
      replaces both; starting from that sample gives the same result. An empty
      list would give the infinities back and is not modelled. */
  method GetSamplesRange(samples: seq<int>) returns (maxValue: int, minValue: int)
    requires |samples| > 0
    ensures IsRangeOf(samples, maxValue, minValue)
    ensures minValue <= maxValue
  {
    maxValue, minValue := samples[0], samples[0];
    for i := 0 to |samples|
      invariant maxValue in samples && minValue in samples
      invariant forall j :: 0 <= j < i ==> minValue <= samples[j] <= maxValue
    {
      var sample := samples[i];
      if sample > maxValue {
        maxValue := sample;
      }
      if sample < minValue {
        minValue := sample;
      }
    }
  }

  /** A sequence has one range: the scan's result is the only pair it could return. */
  lemma RangeIsUnique(samples: seq<int>, max1: int, min1: int, max2: int, min2: int)
    requires IsRangeOf(samples, max1, min1) && IsRangeOf(samples, max2, min2)
    ensures max1 == max2 && min1 == min2
  {
  }
}
