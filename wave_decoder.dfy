/** The reader of canonical 44-byte-header PCM WAVE files (RIFF container,
    `fmt ` chunk of size 16 with audio format 1, one channel), as the
    visualizer's `read_wave_file` does it. The file is a byte sequence; each
    `sys.exit` of the source is an error value. */
module WaveDecoder {
  import opened Arith
  import opened LittleEndian

  /** Why a file is refused; one value per `sys.exit` of the reader. */
  datatype DecodeError =
    | NotWaveFile          // ChunkID is not "RIFF" or Format is not "WAVE"
    | Compressed           // Subchunk1Size is not 16 or AudioFormat is not 1
    | NotMono              // NumChannels is not 1
    | SampleCountMismatch  // samples in the file differ from Subchunk2Size / sample size

  datatype Result<T> = Ok(value: T) | Err(error: DecodeError)

  /** What the reader returns: the samples, their declared count and the
      sample size in bytes. */
  datatype Wave = Wave(samples: seq<int>, numSamples: nat, sampleSize: nat)

  /** "RIFF" and "WAVE" as ASCII bytes. */
  const RiffTag: seq<Byte> := [82, 73, 70, 70]
  const WaveTag: seq<Byte> := [87, 65, 86, 69]

  /** Offset of the first sample byte: the end of the canonical header. */
  const HeaderSize: nat := 44

  function Min(a: nat, b: nat): nat { if a <= b then a else b }

  /** What `len` bytes read from `offset` yield: fewer, or none, near the end of the file. */
  function Field(file: seq<Byte>, offset: nat, len: nat): (f: seq<Byte>)
    ensures |f| <= len
  {
    file[Min(offset, |file|)..Min(offset + len, |file|)]
  }

  // The header fields the reader looks at, at their canonical offsets.
  function ChunkId(file: seq<Byte>): seq<Byte> { Field(file, 0, 4) }
  function Format(file: seq<Byte>): seq<Byte> { Field(file, 8, 4) }
  function Subchunk1Size(file: seq<Byte>): nat { LeUnsigned(Field(file, 16, 4)) }
  function AudioFormat(file: seq<Byte>): nat { LeUnsigned(Field(file, 20, 2)) }
  function NumChannels(file: seq<Byte>): nat { LeUnsigned(Field(file, 22, 2)) }
  function BitsPerSample(file: seq<Byte>): nat { LeUnsigned(Field(file, 34, 2)) }
  function Subchunk2Size(file: seq<Byte>): nat { LeUnsigned(Field(file, 40, 4)) }

  predicate IsRiffWave(file: seq<Byte>) {
    ChunkId(file) == RiffTag && Format(file) == WaveTag
  }

  predicate IsUncompressed(file: seq<Byte>) {
    Subchunk1Size(file) == 16 && AudioFormat(file) == 1
  }

  predicate IsMono(file: seq<Byte>) {
    NumChannels(file) == 1
  }

  /** The three header checks the reader makes, in order. */
  predicate HeaderAccepted(file: seq<Byte>) {
    IsRiffWave(file) && IsUncompressed(file) && IsMono(file)
  }

  /** Bytes per sample: BitsPerSample divided by 8, rounded down. */
  function SampleSize(file: seq<Byte>): nat { BitsPerSample(file) / 8 }

  /** The reader divides by the sample size once the header is accepted:
      a file with fewer than 8 bits per sample must not get that far. */
  predicate SampleSizeDefined(file: seq<Byte>) {
    HeaderAccepted(file) ==> SampleSize(file) > 0
  }

  /** The sample count the header declares. */
  function DeclaredCount(file: seq<Byte>): nat
    requires SampleSize(file) > 0
  {
    Quotient(Subchunk2Size(file), SampleSize(file))
  }

  /** Everything after the header, which the reader splits into samples. */
  function SampleData(file: seq<Byte>): seq<Byte> { file[Min(HeaderSize, |file|)..] }

  /** One sample from its bytes: unsigned when samples are one byte wide,
      two's complement otherwise. */
  function DecodeSample(group: seq<Byte>, signed: bool): int {
    if signed then LeSigned(group) else LeUnsigned(group)
  }

  /** The samples of `data`, read `size` bytes at a time up to the end; the
      last group may be short. */
  function DecodeSamples(data: seq<Byte>, size: nat): seq<int>
    requires size > 0
    decreases |data|
  {
    if data == [] then []
    else
      var m := Min(size, |data|);
      [DecodeSample(data[..m], size > 1)] + DecodeSamples(data[m..], size)
  }

  /** The reader as one function of the file's bytes. */
  function Decode(file: seq<Byte>): (r: Result<Wave>)
    requires SampleSizeDefined(file)
    ensures r.Ok? ==> HeaderAccepted(file) && r.value.sampleSize == SampleSize(file) > 0
    ensures r.Ok? ==> |r.value.samples| == r.value.numSamples
  {
    if !IsRiffWave(file) then Err(NotWaveFile)
    else if !IsUncompressed(file) then Err(Compressed)
    else if !IsMono(file) then Err(NotMono)
    else
      var size := SampleSize(file);
      var samples := DecodeSamples(SampleData(file), size);
      if |samples| != DeclaredCount(file) then Err(SampleCountMismatch)
      else Ok(Wave(samples, DeclaredCount(file), size))
  }

  /** `file.read(n)` with the cursor at `pos`: the bytes read and the cursor
      after them. `offset` is where the field would start in a long enough file. */
  method Read(file: seq<Byte>, pos: nat, n: nat, ghost offset: nat) returns (bytes: seq<Byte>, next: nat)
    requires pos == Min(offset, |file|)
    ensures next == Min(offset + n, |file|)
    ensures bytes == Field(file, offset, n)
  {
    next := Min(pos + n, |file|);
    bytes := file[pos..next];
  }

  /** The reader, step by step: the header fields in file order, then samples
      until a read comes back empty, then the count check. */
  method ReadWaveFile(file: seq<Byte>) returns (r: Result<Wave>)
    requires SampleSizeDefined(file)
    ensures r == Decode(file)
  {
    var chunkId, chunkSize, format, pos;
    chunkId, pos := Read(file, 0, 4, 0);
    chunkSize, pos := Read(file, pos, 4, 4);
    format, pos := Read(file, pos, 4, 8);
    if chunkId != RiffTag || format != WaveTag {
      return Err(NotWaveFile);
    }

    var subchunk1Id, subchunk1Size, audioFormat;
    subchunk1Id, pos := Read(file, pos, 4, 12);
    subchunk1Size, pos := Read(file, pos, 4, 16);
    audioFormat, pos := Read(file, pos, 2, 20);
    if LeUnsigned(subchunk1Size) != 16 || LeUnsigned(audioFormat) != 1 {
      return Err(Compressed);
    }

    var numChannels;
    numChannels, pos := Read(file, pos, 2, 22);
    if LeUnsigned(numChannels) != 1 {
      return Err(NotMono);
    }

    var sampleRate, byteRate, blockAlign, bitsPerSample, subchunk2Id, subchunk2Size;
    sampleRate, pos := Read(file, pos, 4, 24);
    byteRate, pos := Read(file, pos, 4, 28);
    blockAlign, pos := Read(file, pos, 2, 32);
    bitsPerSample, pos := Read(file, pos, 2, 34);
    subchunk2Id, pos := Read(file, pos, 4, 36);
    subchunk2Size, pos := Read(file, pos, 4, 40);

    var sampleSize := LeUnsigned(bitsPerSample) / 8;
    var numSamples := Quotient(LeUnsigned(subchunk2Size), sampleSize);
    var samples, count := ReadSamples(file, pos, sampleSize);
    assert sampleSize == SampleSize(file) && numSamples == DeclaredCount(file);
    if count != numSamples {
      return Err(SampleCountMismatch);
    }
    return Ok(Wave(samples, numSamples, sampleSize));
  }

  /** The sample loop: read `sampleSize` bytes at a time from `pos` until a
      read comes back empty, converting each group and counting them. */
  method ReadSamples(file: seq<Byte>, pos: nat, sampleSize: nat) returns (samples: seq<int>, count: nat)
    requires pos <= |file| && sampleSize > 0
    ensures samples == DecodeSamples(file[pos..], sampleSize)
    ensures count == |samples|
  {
    var signed := sampleSize > 1;
    samples, count := [], 0;
    var cursor := pos;
    while true
      invariant count == |samples|
      invariant ReadSoFar(file, pos, cursor, samples, sampleSize)
      decreases |file| - cursor
    {
      var sample, next := Read(file, cursor, sampleSize, cursor);
      if sample == [] {
        break;
      }
      ReadOneMore(file, pos, cursor, samples, sampleSize);
      samples := samples + [DecodeSample(sample, signed)];
      count := count + 1;
      cursor := next;
    }
    ReadAll(file, pos, cursor, samples, sampleSize);
  }

  /** The loop invariant: `samples` followed by the samples from `cursor` on
      are the samples from `pos` on. */
  ghost predicate ReadSoFar(file: seq<Byte>, pos: nat, cursor: nat, samples: seq<int>, size: nat)
    requires size > 0
  {
    pos <= cursor <= |file| &&
    samples + DecodeSamples(file[cursor..], size) == DecodeSamples(file[pos..], size)
  }

  /** One turn of the sample loop keeps the invariant. */
  lemma ReadOneMore(file: seq<Byte>, pos: nat, cursor: nat, samples: seq<int>, size: nat)
    requires size > 0 && ReadSoFar(file, pos, cursor, samples, size) && cursor < |file|
    ensures ReadSoFar(file, pos, Min(cursor + size, |file|),
                      samples + [DecodeSample(Field(file, cursor, size), size > 1)], size)
  {
    var next := Min(cursor + size, |file|);
    DecodeSamplesStep(file, cursor, next, size);
  }

  /** When a read comes back empty the loop has read everything. */
  lemma ReadAll(file: seq<Byte>, pos: nat, cursor: nat, samples: seq<int>, size: nat)
    requires size > 0 && ReadSoFar(file, pos, cursor, samples, size) && Field(file, cursor, size) == []
    ensures samples == DecodeSamples(file[pos..], size)
  {
    assert file[cursor..] == [];
  }

  /** The group at `cursor` is the first sample of what is left, and the
      rest is read from `next`. */
  lemma DecodeSamplesStep(file: seq<Byte>, cursor: nat, next: nat, size: nat)
    requires size > 0 && cursor < next == Min(cursor + size, |file|)
    ensures DecodeSamples(file[cursor..], size)
         == [DecodeSample(file[cursor..next], size > 1)] + DecodeSamples(file[next..], size)
  {
    var rest := file[cursor..];
    assert file[cursor..next] == rest[..Min(size, |rest|)];
    assert rest[next - cursor..] == file[next..];
  }

  /** The data splits into ceil(|data| / size) samples. */
  lemma {:induction false} DecodeSamplesLength(data: seq<Byte>, size: nat)
    requires size > 0
    ensures |DecodeSamples(data, size)| == CeilDiv(|data|, size)
    decreases |data|
  {
    if data == [] {
      CeilDivZero(size);
    } else if |data| <= size {
      assert data[..|data|] == data && data[|data|..] == [];
      CeilDivOne(|data|, size);
    } else {
      var rest := data[size..];
      DecodeSamplesLength(rest, size);
      CeilDivStep(|rest|, size);
    }
  }

  /** Sample k is the integer of the k-th group of `size` bytes (the last group may be short). */
  lemma DecodeSamplesAt(data: seq<Byte>, size: nat, k: nat)
    requires size > 0
    requires k < |DecodeSamples(data, size)|
    ensures k * size < |data|
    ensures DecodeSamples(data, size)[k] == DecodeSample(data[k * size..Min(k * size + size, |data|)], size > 1)
  {
    GroupOffsetIsProduct(k, size);
    DecodeSamplesAtDrop(data, size, k);
    GroupOfDrop(data, size, k);
  }

  /** Where group k starts: k groups of `size` bytes, counted one group at a time. */
  function GroupOffset(k: nat, size: nat): nat
  {
    if k == 0 then 0 else GroupOffset(k - 1, size) + size
  }

  lemma {:induction false} GroupOffsetIsProduct(k: nat, size: nat)
    ensures GroupOffset(k, size) == k * size
  {
    if k > 0 {
      GroupOffsetIsProduct(k - 1, size);
      assert (k - 1) * size + size == k * size;
    }
  }

  /** The first group of what is left after k groups is group k of `data`. */
  lemma GroupOfDrop(data: seq<Byte>, size: nat, k: nat)
    requires Drop(data, size, k) != []
    ensures GroupOffset(k, size) < |data|
    ensures var rest := Drop(data, size, k);
      rest[..Min(size, |rest|)] == data[GroupOffset(k, size)..Min(GroupOffset(k, size) + size, |data|)]
  {
    DropIsSuffix(data, size, k);
  }

  /** What is left of `data` after k groups of `size` bytes have been read. */
  function Drop(data: seq<Byte>, size: nat, k: nat): seq<Byte>
  {
    if k == 0 then data else Drop(data[Min(size, |data|)..], size, k - 1)
  }

  /** Sample k is the first group of what is left after k groups. */
  lemma {:induction false} DecodeSamplesAtDrop(data: seq<Byte>, size: nat, k: nat)
    requires size > 0
    requires k < |DecodeSamples(data, size)|
    ensures Drop(data, size, k) != []
    ensures DecodeSamples(data, size)[k]
         == DecodeSample(Drop(data, size, k)[..Min(size, |Drop(data, size, k)|)], size > 1)
  {
    if k > 0 {
      DecodeSamplesAtDrop(data[Min(size, |data|)..], size, k - 1);
    }
  }

  /** What is left after k groups is the suffix from GroupOffset(k). */
  lemma {:induction false} DropIsSuffix(data: seq<Byte>, size: nat, k: nat)
    ensures Drop(data, size, k) == data[Min(GroupOffset(k, size), |data|)..]
  {
    if k > 0 {
      var m := Min(size, |data|);
      DropIsSuffix(data[m..], size, k - 1);
      var o := GroupOffset(k - 1, size);
      assert data[m..][Min(o, |data| - m)..] == data[m + Min(o, |data| - m)..];
    }
  }

  /** Every sample lies in the range of its width: 0..255 for one byte,
      -2^(8w-1)..2^(8w-1)-1 for w > 1 bytes. */
  lemma {:induction false} DecodeSamplesInRange(data: seq<Byte>, size: nat)
    requires size > 0
    ensures size == 1 ==> forall s :: s in DecodeSamples(data, size) ==> 0 <= s < 256
    ensures size > 1 ==> forall s :: s in DecodeSamples(data, size) ==>
      -(SignedLimit(size) as int) <= s < SignedLimit(size)
    decreases |data|
  {
    if data != [] {
      var m := Min(size, |data|);
      DecodeSamplesInRange(data[m..], size);
      if size > 1 {
        LeSignedRange(data[..m]);
        SignedLimitMonotone(m, size);
      } else {
        LeUnsignedBound(data[..m]);
      }
    }
  }

  /** The reader fails with exactly the error of the first check the file fails. */
  lemma DecodeErrors(file: seq<Byte>)
    requires SampleSizeDefined(file)
    ensures Decode(file) == Err(NotWaveFile) <==> ChunkId(file) != RiffTag || Format(file) != WaveTag
    ensures Decode(file) == Err(Compressed) <==>
      IsRiffWave(file) && (Subchunk1Size(file) != 16 || AudioFormat(file) != 1)
    ensures Decode(file) == Err(NotMono) <==>
      IsRiffWave(file) && IsUncompressed(file) && NumChannels(file) != 1
    ensures Decode(file) == Err(SampleCountMismatch) <==>
      HeaderAccepted(file) && CeilDiv(|SampleData(file)|, SampleSize(file)) != DeclaredCount(file)
  {
    if HeaderAccepted(file) {
      DecodeSamplesLength(SampleData(file), SampleSize(file));
    }
  }

  /** The reader succeeds exactly when the header is accepted and the data
      after it splits into as many groups as Subchunk2Size / sample size;
      it then returns that many samples, each the integer of its group. */
  lemma DecodeOk(file: seq<Byte>)
    requires SampleSizeDefined(file)
    ensures Decode(file).Ok? <==>
      HeaderAccepted(file) && CeilDiv(|SampleData(file)|, SampleSize(file)) == DeclaredCount(file)
    ensures Decode(file).Ok? ==>
      var w := Decode(file).value;
      var data := SampleData(file);
      && w.sampleSize == SampleSize(file)
      && |w.samples| == w.numSamples == Subchunk2Size(file) / w.sampleSize
      && forall k :: 0 <= k < |w.samples| ==>
           k * w.sampleSize < |data| &&
           w.samples[k] == DecodeSample(data[k * w.sampleSize..Min(k * w.sampleSize + w.sampleSize, |data|)],
                                        w.sampleSize > 1)
  {
    if HeaderAccepted(file) {
      var size := SampleSize(file);
      DecodeSamplesLength(SampleData(file), size);
      DecodeSamplesEach(SampleData(file), size);
    }
  }

  /** `DecodeSamplesAt` for every k at once. */
  lemma DecodeSamplesEach(data: seq<Byte>, size: nat)
    requires size > 0
    ensures forall k :: 0 <= k < |DecodeSamples(data, size)| ==>
      k * size < |data| && DecodeSamples(data, size)[k] == DecodeSample(data[k * size..Min(k * size + size, |data|)], size > 1)
  {
    forall k | 0 <= k < |DecodeSamples(data, size)| {
      DecodeSamplesAt(data, size, k);
    }
  }

  /** Decoded samples are unsigned bytes for 8-bit files and signed
      two's-complement values of the sample width otherwise. */
  lemma DecodedSampleRange(file: seq<Byte>)
    requires SampleSizeDefined(file)
    requires Decode(file).Ok?
    ensures var w := Decode(file).value;
      && (w.sampleSize == 1 ==> forall k :: 0 <= k < |w.samples| ==> 0 <= w.samples[k] < 256)
      && (w.sampleSize > 1 ==> forall k :: 0 <= k < |w.samples| ==>
            -(SignedLimit(w.sampleSize) as int) <= w.samples[k] < SignedLimit(w.sampleSize))
  {
    var w := Decode(file).value;
    DecodeSamplesInRange(SampleData(file), SampleSize(file));
    assert forall k :: 0 <= k < |w.samples| ==> w.samples[k] in w.samples;
  }
}
