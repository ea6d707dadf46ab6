# WAV waveform visualizer — verified model of its core

The visualizer opens a canonical PCM WAVE file and reads the 44-byte header
and the samples after it. It computes the samples' range and derives one
faded copy of the samples per fade type. It then draws the current copy as a
polyline scaled to the window, and a button cycles through the fade types.
This project models the non-GUI logic in Dafny and proves what it computes:

- `little_endian.dfy` (`LittleEndian`): `int.from_bytes(..., 'little', signed=...)`,
  and the inverse encoding used by the round trip.
- `wave_decoder.dfy` (`WaveDecoder`): `read_wave_file`. There is a function
  `Decode` of the file's bytes. There is also a method `ReadWaveFile` that reads
  the fields in file order and loops over the samples the way the source does.
  The method is proved equal to the function. Each `sys.exit` becomes an error
  value (`NotWaveFile`, `Compressed`, `NotMono`, `SampleCountMismatch`).
- `wave_encoder.dfy` (`WaveEncoder`): a writer of canonical files. It exists
  only as the decoder's partner: reading a written file gives back its samples.
- `sample_range.dfy` (`SampleRange`): `get_samples_range`.
- `fade.dfy` (`Fade`): `fade_samples` with no fade, `linear` and `quadratic`.
  Weights are exact fractions, so `math.floor(c * w(t))` is an integer
  quotient.
- `rasterizer.dfy` (`Rasterizer`): the sample loop of `draw_waveform`. It
  returns the segments it would draw instead of calling the canvas. The
  float accumulator `threshold` is the exact integer `threshold * width`.
- `waveform_view.dfy` (`WaveformView`): the state `create_waveform_functions`
  shares between `draw_waveform` and `next_waveform`. This is the five cached
  faded lists, their ranges, and the index `current_waveform`, which the button
  moves modulo 5.
- `arith.dfy` (`Arith`): division and multiplication facts the proofs use.

Where the source would crash, the model has a precondition instead:

- a division by zero;
- the rasterizer's inner loop never ending when `num_samples` is 0.

Three behaviours of the source shape the model's contracts:

- Fading a non-empty list with fewer than 2 declared samples divides by
  `half == 0` (:63, :65), so `FadeSamples` requires `numSamples >= 2` when it
  fades a non-empty list.
- When all samples are equal (`max == min`), the row computation divides by
  zero (:188), so `Rasterize` requires `max != min` for a non-empty list.
- `half` is taken from the declared `num_samples` (:53), not from the
  list's length, and the model does the same.

## Model

| member | source | states |
|---|---|---|
| LittleEndian.LeUnsigned | wav-audio-visualization.py:90-107 | `int.from_bytes(bs, 'little')`: byte 0 is least significant, and the empty read is 0 |
| LittleEndian.LeSigned | wav-audio-visualization.py:125 | `int.from_bytes(bs, 'little', signed=True)`: the unsigned value, less 256^w when the top bit of the last byte is set |
| WaveDecoder.Decode | wav-audio-visualization.py:77-136 | The reader as one function of the file's bytes: the first failed check's error (:84, :92, :97, :132), else the samples with Subchunk2Size // sample size and the sample size; a success has an accepted header, a positive sample size, and as many samples as it declares |
| WaveDecoder.DecodeSamples | wav-audio-visualization.py:116-128 | The sample loop as a function: `sample_size`-byte groups up to the end of the file, the last possibly short, each decoded unsigned for one byte and signed otherwise |
| WaveDecoder.ReadWaveFile | wav-audio-visualization.py:77-136 | Reading the header fields in order and then the samples gives exactly `Decode(file)`: the first failed check's error, or the samples with the declared count and sample size |
| WaveDecoder.Read | wav-audio-visualization.py:118-121 | `file.read(n)` at a cursor returns the bytes up to n further, fewer or none at the end of the file, and moves the cursor past them |
| WaveDecoder.ReadSamples | wav-audio-visualization.py:111-128 | The `while True` loop reads `sample_size`-byte groups until a read is empty; it returns the decoded groups of everything after the cursor, and `count` is their number |
| WaveDecoder.DecodeErrors | wav-audio-visualization.py:81-98 | Each error is returned exactly when its check is the first to fail: not RIFF/WAVE; else Subchunk1Size != 16 or AudioFormat != 1; else NumChannels != 1; else the group count differs from the declared count (:132-133) |
| WaveDecoder.DecodeOk | wav-audio-visualization.py:104-136 | Reading succeeds exactly when the header is accepted and ceil(data bytes / sample size) equals Subchunk2Size // sample size; the result then has that many samples, sample k being the integer of bytes [k*size, min((k+1)*size, end)) after offset 44 |
| WaveDecoder.DecodeSamplesLength | wav-audio-visualization.py:116-128 | The loop reads ceil(bytes / sample size) groups; the last may be short |
| WaveDecoder.DecodeSamplesAt | wav-audio-visualization.py:118-127 | Sample k is decoded from the k-th group of `sample_size` bytes, which starts inside the data |
| WaveDecoder.DecodeSamplesEach | wav-audio-visualization.py:118-127 | For every k, sample k is decoded from the k-th group of `sample_size` bytes |
| WaveDecoder.DecodeSamplesInRange | wav-audio-visualization.py:111-125 | One-byte samples are unsigned, in 0..255; w-byte samples with w > 1 are signed, in -2^(8w-1)..2^(8w-1)-1, even when the last group is short |
| WaveDecoder.DecodedSampleRange | wav-audio-visualization.py:109-136 | Every sample of a successful read lies in the range of its sample width, unsigned for 8-bit and signed otherwise |
| LittleEndian.LeUnsignedBound | wav-audio-visualization.py:90 | An unsigned little-endian field of n bytes is below 256^n |
| LittleEndian.LeSignedRange | wav-audio-visualization.py:125 | A signed little-endian group of w bytes lies in [-2^(8w-1), 2^(8w-1)) and is negative exactly when its last byte's top bit is set |
| LittleEndian.LeUnsignedOfBytes | wav-audio-visualization.py:90-107 | Unsigned little-endian decoding inverts encoding modulo 256^w |
| LittleEndian.LeSignedOfBytes | wav-audio-visualization.py:125 | Signed decoding inverts encoding for every value in the signed w-byte range |
| WaveEncoder.DecodeWaveFile | wav-audio-visualization.py:77-136 | A canonical mono PCM file written from any samples that fit the sample width is accepted, and reads back as exactly those samples with their count and size |
| SampleRange.GetSamplesRange | wav-audio-visualization.py:18-31 | For a non-empty list, `max` and `min` are elements of the list, every element lies between them, and min <= max |
| SampleRange.RangeIsUnique | wav-audio-visualization.py:18-31 | Those conditions fix the pair, so the scan returns the list's maximum and minimum |
| Fade.WeightNumerator | wav-audio-visualization.py:34-38 | The numerator of `linear(k/half)` = k/half and `quadratic(k/half)` = k²/half²: k or k² |
| Fade.WeightDenominator | wav-audio-visualization.py:34-38 | The denominator of those weights, half or half²; it is at least `half`, so positive once half > 0 |
| Fade.FadedSample | wav-audio-visualization.py:56-69 | The loop body for sample i: recentre 8-bit samples by 128, multiply by w(i/half) or w((n-i)/half), floor, restore |
| Fade.FadeSamples | wav-audio-visualization.py:48-73 | With no fade the list is returned unchanged; otherwise the result has the same length and order, and element i is sample i recentred, weighted by w(i/half) or w((n-i)/half), floored and restored |
| Fade.WeightInUnitInterval | wav-audio-visualization.py:34-38 | `linear` and `quadratic` map [0, 1] into [0, 1], with w(0) = 0 and w(1) = 1 |
| Fade.PositionInUnitInterval | wav-audio-visualization.py:62-65 | The weight argument i/half or (n-i)/half lies in [0, 1], is positive after index 0, and is the same at i and n-i |
| Fade.FadeMovesTowardSilence | wav-audio-visualization.py:56-69 | A faded sample, taken around its centre, lies between 0 and the original's recentred value |
| Fade.FadeStartsSilent | wav-audio-visualization.py:62-63 | Index 0 fades to 0, or to 128 for 8-bit samples |
| Fade.FadeKeepsMidpoint | wav-audio-visualization.py:62-63 | Index `half` has weight 1 and is unchanged |
| Fade.FadeKeepsEightBitSilence | wav-audio-visualization.py:59-69 | An 8-bit sample of 128 is 128 after every fade |
| Fade.FadeIsSymmetric | wav-audio-visualization.py:62-65 | The same value at index i and at index n-i fades to the same result |
| Rasterizer.Column | wav-audio-visualization.py:169-185 | The column the accumulator reaches at sample k, floor(k*width/num_samples): x*num_samples <= k*width < (x+1)*num_samples |
| Rasterizer.Row | wav-audio-visualization.py:165-188 | `math.floor((sample - min) / height_ratio)` with height_ratio = abs(max-min)/height: y*range <= (sample-min)*height < (y+1)*range |
| Rasterizer.Rasterize | wav-audio-visualization.py:165-197 | One segment per sample, in order; the first starts at (0, 0) and each next starts where the previous ended; segment k ends at (floor(k*width/num_samples), floor((s-min)*height/abs(max-min))) |
| Rasterizer.ColumnInCanvas | wav-audio-visualization.py:169-185 | Sample 0 is in column 0, and each of the `num_samples` samples is left of the right edge |
| Rasterizer.ColumnMonotone | wav-audio-visualization.py:182-185 | The column cursor never moves left |
| Rasterizer.ColumnStepAtMostOne | wav-audio-visualization.py:182-185 | With at least as many samples as columns, x advances by at most one per sample |
| Rasterizer.ColumnIdentity | wav-audio-visualization.py:169-185 | With as many samples as columns, sample k is in column k |
| Rasterizer.RowInCanvas | wav-audio-visualization.py:165-188 | A sample within the range is on a row in [0, height]; the minimum is on row 0 and the maximum on row `height` |
| Rasterizer.DrawingInsideCanvas | wav-audio-visualization.py:165-197 | For samples inside their range, every drawn point is inside the canvas and x never decreases along the polyline |
| WaveformView.Waveform.constructor | wav-audio-visualization.py:140-141 | The view keeps the five faded lists, their ranges and the declared count, and starts on fade type 0 (no fade) |
| WaveformView.Waveform.DrawWaveform | wav-audio-visualization.py:156-159 | Draws the list and range of the current fade type, as `Rasterize` specifies |
| WaveformView.Waveform.NextWaveform | wav-audio-visualization.py:144-149 | `current_waveform` becomes (old + 1) % 5 and the new fade type is drawn |
| WaveformView.CycleThroughFades | wav-audio-visualization.py:144-147 | Five presses show the fade types in button order, each once, and return to the one shown before |

## Left out

- `exponential` and `logarithmic` fades (:40-44) use floating-point `math.pow` and `math.log`. They have no exact integer model, so `Fade` has only no fade, `linear` and `quadratic`. The view stores five lists and does not depend on how each was computed.
- Fade.FadeSamples: the source multiplies by a float weight before `math.floor`. The model uses the exact fraction, so float rounding is not reproduced.
- Rasterizer.Rasterize: `width_ratio`, `height_ratio` and `threshold` are floats in the source (:169-188). The model uses exact integers, so float drift in the accumulator is not reproduced.
- The tkinter GUI: window, canvas, labels, button, event binding, `window.title`, `canvas.delete`/`create_line`, `get_file_name` and `main` (:14-15, :148, :162, :191, :202-241). Canvas sizes are parameters, and drawing returns segments.
- `open`, `file.read` and `close` (:78, :135). The file is a byte sequence and `read` is a slice of it.
- `sys.exit` (:85, :93, :98, :133) is an error value; the message and file name are not modelled.
- WaveDecoder.ReadWaveFile: `.decode('ascii')` of the tags raises on non-ASCII bytes (:81, :83). The model compares raw bytes and returns `NotWaveFile` instead of raising.
- WaveDecoder.ReadWaveFile: a header with fewer than 8 bits per sample divides by zero at :110. It is a precondition (`SampleSizeDefined`) instead of a crash.
- Fade.FadeSamples: fading a non-empty list with fewer than 2 declared samples divides by `half == 0` (:63, :65). It is a precondition.
- Rasterizer.Rasterize: a width or height of 0 divides by zero (:169-170), and so does a constant signal (:188). With `num_samples == 0` the inner loop never ends. These are preconditions.
- SampleRange.GetSamplesRange: the empty list gives back `-inf` and `+inf` (:19-20). The model requires a non-empty list.
- The second range computation at :215 has no effect, and the five lists are precomputed at :212-214; the view takes those lists and ranges as given.
