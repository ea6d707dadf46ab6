/** The sample loop of `draw_waveform`: samples are spread over `width`
    columns by an accumulator that decides when the column cursor x moves
    right, and each sample value is scaled into [0, height] by the value
    range. Instead of drawing on a canvas the loop returns the line segments
    it would draw, in order.

    The source's accumulator is the float `threshold`, compared with and
    reduced by `width_ratio = num_samples / window_width`. Here it is the
    exact integer T = threshold * width: the test is T >= num_samples, the
    reduction subtracts num_samples and each sample adds width. */
module Rasterizer {
  import opened Arith

  datatype Point = Point(x: int, y: int)

  /** One `create_line(prev_x, prev_y, x, y)` call. */
  datatype Segment = Segment(from: Point, to: Point)

  function Abs(v: int): nat { if v < 0 then -v else v }

  /** The column of sample k: floor(k / width_ratio) = floor(k * width / num_samples). */
  function Column(k: nat, numSamples: nat, width: nat): (x: nat)
    requires numSamples > 0
    ensures x * numSamples <= k * width < x * numSamples + numSamples
  {
    DivBounds(k * width, numSamples);
    (k * width) / numSamples
  }

  /** The row of a sample: floor((sample - min) / height_ratio), with
      height_ratio = |max - min| / height. */
  function Row(sample: int, maxValue: int, minValue: int, height: nat): (y: int)
    requires maxValue != minValue
    ensures var range := Abs(maxValue - minValue);
      y * range <= (sample - minValue) * height < y * range + range
  {
    DivBounds((sample - minValue) * height, Abs(maxValue - minValue));
    ((sample - minValue) * height) / Abs(maxValue - minValue)
  }

  /** `segments` is the drawing of `samples`: one segment per sample, in
      order, the first starting at (0, 0) and each next one starting where
      the previous one ended; segment k ends at sample k's column and row. */
  predicate IsDrawing(segments: seq<Segment>, samples: seq<int>, numSamples: nat,
                      maxValue: int, minValue: int, width: nat, height: nat)
    requires |samples| == 0 || (numSamples > 0 && maxValue != minValue)
  {
    && |segments| == |samples|
    && (forall k :: 0 <= k < |segments| ==>
          segments[k].to == Point(Column(k, numSamples, width), Row(samples[k], maxValue, minValue, height)))
    && (|segments| > 0 ==> segments[0].from == Point(0, 0))
    && (forall k :: 0 < k < |segments| ==> segments[k].from == segments[k - 1].to)
  }

  /** The loop. The source divides by the window width and height before the
      loop, and inside it by the height ratio and steps by the width ratio,
      which is 0 when num_samples is 0 and would never let the inner loop end. */
  method Rasterize(samples: seq<int>, numSamples: nat, maxValue: int, minValue: int,
                   width: nat, height: nat) returns (segments: seq<Segment>)
    requires width > 0 && height > 0
    requires |samples| == 0 || (numSamples > 0 && maxValue != minValue)
    ensures IsDrawing(segments, samples, numSamples, maxValue, minValue, width, height)
  {
    var threshold: nat := 0;
    var x: nat, prevX: int, prevY: int := 0, 0, 0;
    segments := [];
    for k := 0 to |samples|
      invariant |segments| == k
      invariant threshold + x * numSamples == k * width
      invariant k == 0 ==> prevX == 0 && prevY == 0
      invariant k > 0 ==> segments[k - 1].to == Point(prevX, prevY)
      invariant IsDrawing(segments, samples[..k], numSamples, maxValue, minValue, width, height)
    {
      while threshold >= numSamples
        invariant threshold + x * numSamples == k * width
        decreases threshold
      {
        threshold := threshold - numSamples;
        x := x + 1;
        assert (x - 1) * numSamples == x * numSamples - numSamples;
      }
      FloorDivBetween(k * width, numSamples, x);
      var y := Row(samples[k], maxValue, minValue, height);
      segments := segments + [Segment(Point(prevX, prevY), Point(x, y))];
      prevX, prevY := x, y;
      threshold := threshold + width;
      assert (k + 1) * width == k * width + width;
    }
    assert samples[..|samples|] == samples;
  }

  /** The first sample is in column 0, and every sample of the
      `num_samples` lies left of the canvas's right edge. */
  lemma ColumnInCanvas(k: nat, numSamples: nat, width: nat)
    requires numSamples > 0 && width > 0 && k < numSamples
    ensures 0 <= Column(k, numSamples, width) < width
    ensures k == 0 ==> Column(k, numSamples, width) == 0
  {
    DivBounds(k * width, numSamples);
    MulMonotone(k + 1, numSamples, width);
    assert (k + 1) * width == k * width + width;
    MulCancelStrict(Column(k, numSamples, width), width, numSamples);
  }

  /** The column cursor never moves left. */
  lemma ColumnMonotone(j: nat, k: nat, numSamples: nat, width: nat)
    requires numSamples > 0 && j <= k
    ensures Column(j, numSamples, width) <= Column(k, numSamples, width)
  {
    MulMonotone(j, k, width);
    DivMonotone(j * width, k * width, numSamples);
  }

  /** With at least as many samples as columns, x moves by at most one
      column per sample, so no column is skipped. */
  lemma ColumnStepAtMostOne(k: nat, numSamples: nat, width: nat)
    requires numSamples > 0 && width <= numSamples
    ensures Column(k + 1, numSamples, width) <= Column(k, numSamples, width) + 1
  {
    assert (k + 1) * width == k * width + width;
    DivMonotone(k * width + width, k * width + numSamples, numSamples);
    DivAddDivisor(k * width, numSamples);
  }

  /** With as many samples as columns, sample k is drawn in column k. */
  lemma ColumnIdentity(k: nat, n: nat)
    requires n > 0
    ensures Column(k, n, n) == k
  {
    MulDivCancel(k, n);
  }

  /** A sample inside the value range is drawn inside [0, height]; the
      minimum on row 0 and the maximum on row `height`. */
  lemma RowInCanvas(sample: int, maxValue: int, minValue: int, height: nat)
    requires minValue < maxValue && minValue <= sample <= maxValue
    ensures 0 <= Row(sample, maxValue, minValue, height) <= height
    ensures sample == minValue ==> Row(sample, maxValue, minValue, height) == 0
    ensures sample == maxValue ==> Row(sample, maxValue, minValue, height) == height
  {
    var a, d := sample - minValue, maxValue - minValue;
    assert Abs(maxValue - minValue) == d;
    assert a * height == height * a;
    ScaledTowardZero(height, a, d);
    if sample == maxValue {
      MulDivCancel(height, d);
    }
  }

  /** Drawing `num_samples` samples whose range is (maxValue, minValue)
      keeps every point on the canvas: x in [0, width), y in [0, height],
      and x never decreases along the polyline. */
  lemma DrawingInsideCanvas(segments: seq<Segment>, samples: seq<int>, numSamples: nat,
                            maxValue: int, minValue: int, width: nat, height: nat)
    requires width > 0 && height > 0 && |samples| <= numSamples && minValue < maxValue
    requires forall i :: 0 <= i < |samples| ==> minValue <= samples[i] <= maxValue
    requires IsDrawing(segments, samples, numSamples, maxValue, minValue, width, height)
    ensures forall k :: 0 <= k < |segments| ==>
      0 <= segments[k].to.x < width && 0 <= segments[k].to.y <= height
    ensures forall j, k :: 0 <= j <= k < |segments| ==> segments[j].to.x <= segments[k].to.x
  {
    forall k | 0 <= k < |segments|
      ensures 0 <= segments[k].to.x < width && 0 <= segments[k].to.y <= height
    {
      ColumnInCanvas(k, numSamples, width);
      RowInCanvas(samples[k], maxValue, minValue, height);
    }
    forall j, k | 0 <= j <= k < |segments|
      ensures segments[j].to.x <= segments[k].to.x
    {
      ColumnMonotone(j, k, numSamples, width);
    }
  }
}
