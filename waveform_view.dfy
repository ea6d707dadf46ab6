/** The state that `create_waveform_functions` shares between its inner
    functions: the five faded sample lists and their ranges, computed once
    when the file is loaded, and the index of the one on screen, which the
    "Next fade type" button cycles through none, linear, quadratic,
    exponential and logarithmic fading. Canvas sizes are parameters; the
    segments are returned instead of drawn. */
module WaveformView {
  import opened Rasterizer

  /** Number of fade types the button cycles through. */
  const FadeCount: nat := 5

  class Waveform {
    /** The samples under each fade type, in button order. */
    const fadedSamplesList: seq<seq<int>>
    /** (max, min) of each list in `fadedSamplesList`. */
    const fadedSamplesRanges: seq<(int, int)>
    /** The sample count the file declares. */
    const numSamples: nat
    /** Which fade type is shown. */
    var currentWaveform: nat

    ghost predicate Valid()
      reads this
    {
      && |fadedSamplesList| == FadeCount
      && |fadedSamplesRanges| == FadeCount
      && currentWaveform < FadeCount
    }

    constructor (fadedSamplesList: seq<seq<int>>, fadedSamplesRanges: seq<(int, int)>, numSamples: nat)
      requires |fadedSamplesList| == FadeCount && |fadedSamplesRanges| == FadeCount
      ensures Valid()
      ensures this.fadedSamplesList == fadedSamplesList
      ensures this.fadedSamplesRanges == fadedSamplesRanges
      ensures this.numSamples == numSamples
      ensures currentWaveform == 0
    {
      this.fadedSamplesList := fadedSamplesList;
      this.fadedSamplesRanges := fadedSamplesRanges;
      this.numSamples := numSamples;
      currentWaveform := 0;
    }

    /** Fade type `index` can be drawn on a width x height canvas without
        the division by zero the source would hit. */
    predicate CanDraw(index: nat, width: nat, height: nat)
      requires index < |fadedSamplesList| && index < |fadedSamplesRanges|
    {
      && width > 0 && height > 0
      && (|fadedSamplesList[index]| == 0
          || (numSamples > 0 && fadedSamplesRanges[index].0 != fadedSamplesRanges[index].1))
    }

    /** `draw_waveform`: the segments of the current fade type on a
        width x height canvas. */
    method DrawWaveform(width: nat, height: nat) returns (segments: seq<Segment>)
      requires Valid() && CanDraw(currentWaveform, width, height)
      ensures IsDrawing(segments, fadedSamplesList[currentWaveform], numSamples,
                        fadedSamplesRanges[currentWaveform].0, fadedSamplesRanges[currentWaveform].1,
                        width, height)
    {
      var samples := fadedSamplesList[currentWaveform];
      var (maxValue, minValue) := fadedSamplesRanges[currentWaveform];
      segments := Rasterize(samples, numSamples, maxValue, minValue, width, height);
    }

    /** `next_waveform`: move to the next fade type, wrapping after the
        fifth, and draw it on the canvas's current width x height. */
    method NextWaveform(width: nat, height: nat) returns (segments: seq<Segment>)
      requires Valid() && CanDraw((currentWaveform + 1) % FadeCount, width, height)
      modifies this
      ensures Valid()
      ensures currentWaveform == (old(currentWaveform) + 1) % FadeCount
      ensures IsDrawing(segments, fadedSamplesList[currentWaveform], numSamples,
                        fadedSamplesRanges[currentWaveform].0, fadedSamplesRanges[currentWaveform].1,
                        width, height)
    {
      currentWaveform := (currentWaveform + 1) % FadeCount;
      segments := DrawWaveform(width, height);
    }
  }

  /** Pressing the button five times shows every fade type once, in button
      order, and comes back to the one shown before. */
  method CycleThroughFades(view: Waveform, width: nat, height: nat) returns (shown: seq<nat>)
    requires view.Valid()
    requires forall i :: 0 <= i < FadeCount ==> view.CanDraw(i, width, height)
    modifies view
    ensures view.Valid()
    ensures view.currentWaveform == old(view.currentWaveform)
    ensures |shown| == FadeCount
    ensures forall i :: 0 <= i < FadeCount ==> shown[i] == (old(view.currentWaveform) + i + 1) % FadeCount
  {
    shown := [];
    for i := 0 to FadeCount
      invariant view.Valid()
      invariant |shown| == i
      invariant view.currentWaveform == (old(view.currentWaveform) + i) % FadeCount
      invariant forall j :: 0 <= j < i ==> shown[j] == (old(view.currentWaveform) + j + 1) % FadeCount
    {
      var _ := view.NextWaveform(width, height);
      shown := shown + [view.currentWaveform];
    }
  }
}
