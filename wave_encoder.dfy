/** A writer for the files the reader accepts: a canonical 44-byte header
    followed by the samples, each as `sampleSize` little-endian bytes. It is
    the reader's inverse: reading what it writes gives the samples back. */
module WaveEncoder {
  import opened Arith
  import opened LittleEndian
  import opened WaveDecoder

  /** "fmt " and "data" as ASCII bytes. */
  const FmtTag: seq<Byte> := [102, 109, 116, 32]
  const DataTag: seq<Byte> := [100, 97, 116, 97]

  /** A sample fits `sampleSize` bytes: unsigned for one byte, signed otherwise. */
  predicate SampleFits(sample: int, sampleSize: nat)
    requires sampleSize >= 1
  {
    if sampleSize == 1 then 0 <= sample < 256
    else -(SignedLimit(sampleSize) as int) <= sample < SignedLimit(sampleSize)
  }

  function EncodeSamples(samples: seq<int>, sampleSize: nat): (data: seq<Byte>)
    ensures |data| == |samples| * sampleSize
  {
    if samples == [] then []
    else
      assert |samples| * sampleSize == sampleSize + (|samples| - 1) * sampleSize;
      LeBytes(samples[0], sampleSize) + EncodeSamples(samples[1..], sampleSize)
  }

  /** The canonical header of a mono PCM file with `dataSize` bytes of
      `sampleSize`-byte samples at `sampleRate` samples per second: the RIFF
      chunk descriptor, the `fmt ` sub-chunk and the head of the `data` sub-chunk. */
  function Header(dataSize: nat, sampleSize: nat, sampleRate: nat): (h: seq<Byte>)
    ensures |h| == HeaderSize
  {
    RiffDescriptor(dataSize) + FmtChunk(sampleSize, sampleRate) + DataChunkHead(dataSize)
  }

  function RiffDescriptor(dataSize: nat): (b: seq<Byte>)
    ensures |b| == 12
  {
    RiffTag + LeBytes(36 + dataSize, 4) + WaveTag
  }

  function FmtChunk(sampleSize: nat, sampleRate: nat): (b: seq<Byte>)
    ensures |b| == 24
  {
    FmtTag + LeBytes(16, 4) + LeBytes(1, 2) + LeBytes(1, 2)
    + LeBytes(sampleRate, 4) + LeBytes(sampleRate * sampleSize, 4) + LeBytes(sampleSize, 2)
    + LeBytes(8 * sampleSize, 2)
  }

  function DataChunkHead(dataSize: nat): (b: seq<Byte>)
    ensures |b| == 8
  {
    DataTag + LeBytes(dataSize, 4)
  }

  function WaveFile(samples: seq<int>, sampleSize: nat, sampleRate: nat): seq<Byte> {
    Header(|samples| * sampleSize, sampleSize, sampleRate) + EncodeSamples(samples, sampleSize)
  }

  /** Reading the samples back from their encoding gives them unchanged. */
  lemma {:induction false} DecodeEncodedSamples(samples: seq<int>, sampleSize: nat)
    requires sampleSize >= 1
    requires forall i :: 0 <= i < |samples| ==> SampleFits(samples[i], sampleSize)
    ensures DecodeSamples(EncodeSamples(samples, sampleSize), sampleSize) == samples
  {
    if samples != [] {
      var data := EncodeSamples(samples, sampleSize);
      var first := LeBytes(samples[0], sampleSize);
      assert data == first + EncodeSamples(samples[1..], sampleSize);
      assert data[..sampleSize] == first && data[sampleSize..] == EncodeSamples(samples[1..], sampleSize);
      if sampleSize == 1 {
        LeUnsignedOfByte(samples[0]);
      } else {
        LeSignedOfBytes(samples[0], sampleSize);
      }
      DecodeEncodedSamples(samples[1..], sampleSize);
    }
  }

  /** A value that fits w bytes reads back unchanged. */
  lemma SmallFieldRoundTrip(v: nat, w: nat)
    requires v < Pow256(w)
    ensures LeUnsigned(LeBytes(v, w)) == v
  {
    LeUnsignedOfBytes(v, w);
    DivModUnique(v, Pow256(w), 0, v);
  }

  lemma RiffDescriptorFields(dataSize: nat)
    ensures RiffDescriptor(dataSize)[0..4] == RiffTag
    ensures RiffDescriptor(dataSize)[8..12] == WaveTag
  {
  }

  lemma FmtChunkFields(sampleSize: nat, sampleRate: nat)
    ensures FmtChunk(sampleSize, sampleRate)[4..8] == LeBytes(16, 4)
    ensures FmtChunk(sampleSize, sampleRate)[8..10] == LeBytes(1, 2)
    ensures FmtChunk(sampleSize, sampleRate)[10..12] == LeBytes(1, 2)
    ensures FmtChunk(sampleSize, sampleRate)[22..24] == LeBytes(8 * sampleSize, 2)
  {
    FmtSlices(FmtTag, LeBytes(16, 4), LeBytes(1, 2), LeBytes(1, 2), LeBytes(sampleRate, 4),
              LeBytes(sampleRate * sampleSize, 4), LeBytes(sampleSize, 2), LeBytes(8 * sampleSize, 2));
  }

  /** Where the checked fields fall in eight pieces laid out as the `fmt ` chunk. */
  lemma FmtSlices(t: seq<Byte>, size: seq<Byte>, format: seq<Byte>, channels: seq<Byte>,
                  rate: seq<Byte>, byteRate: seq<Byte>, align: seq<Byte>, bits: seq<Byte>)
    requires |t| == 4 && |size| == 4 && |format| == 2 && |channels| == 2
    requires |rate| == 4 && |byteRate| == 4 && |align| == 2 && |bits| == 2
    ensures var c := t + size + format + channels + rate + byteRate + align + bits;
      && c[4..8] == size && c[8..10] == format && c[10..12] == channels && c[22..24] == bits
  {
  }

  lemma DataChunkHeadFields(dataSize: nat)
    ensures DataChunkHead(dataSize)[4..8] == LeBytes(dataSize, 4)
  {
  }

  /** Where the reader's fields fall in a 12-byte descriptor, a 24-byte
      `fmt ` chunk and an 8-byte `data` head followed by the data. */
  lemma FieldsOfParts(r: seq<Byte>, f: seq<Byte>, d: seq<Byte>, data: seq<Byte>)
    requires |r| == 12 && |f| == 24 && |d| == 8
    ensures var file := r + f + d + data;
      && Field(file, 0, 4) == r[0..4]
      && Field(file, 8, 4) == r[8..12]
      && Field(file, 16, 4) == f[4..8]
      && Field(file, 20, 2) == f[8..10]
      && Field(file, 22, 2) == f[10..12]
      && Field(file, 34, 2) == f[22..24]
      && Field(file, 40, 4) == d[4..8]
      && SampleData(file) == data
  {
  }

  /** The header fields the reader checks sit at their canonical offsets. */
  lemma HeaderFields(dataSize: nat, sampleSize: nat, sampleRate: nat, data: seq<Byte>)
    ensures var file := Header(dataSize, sampleSize, sampleRate) + data;
      && Field(file, 0, 4) == RiffTag
      && Field(file, 8, 4) == WaveTag
      && Field(file, 16, 4) == LeBytes(16, 4)
      && Field(file, 20, 2) == LeBytes(1, 2)
      && Field(file, 22, 2) == LeBytes(1, 2)
      && Field(file, 34, 2) == LeBytes(8 * sampleSize, 2)
      && Field(file, 40, 4) == LeBytes(dataSize, 4)
      && SampleData(file) == data
  {
    var r, f, d := RiffDescriptor(dataSize), FmtChunk(sampleSize, sampleRate), DataChunkHead(dataSize);
    assert Header(dataSize, sampleSize, sampleRate) + data == r + f + d + data;
    RiffDescriptorFields(dataSize);
    FmtChunkFields(sampleSize, sampleRate);
    DataChunkHeadFields(dataSize);
    FieldsOfParts(r, f, d, data);
  }

  /** The canonical header is accepted, and declares the sample size and
      the data size it was written with. */
  lemma HeaderValues(dataSize: nat, sampleSize: nat, sampleRate: nat, data: seq<Byte>)
    requires 1 <= sampleSize && 8 * sampleSize < 65536 && dataSize < Pow256(4)
    ensures var file := Header(dataSize, sampleSize, sampleRate) + data;
      && HeaderAccepted(file)
      && SampleSize(file) == sampleSize
      && Subchunk2Size(file) == dataSize
      && SampleData(file) == data
  {
    HeaderFields(dataSize, sampleSize, sampleRate, data);
    assert Pow256(2) == 65536 && Pow256(4) == 4294967296;
    SmallFieldRoundTrip(16, 4);
    SmallFieldRoundTrip(1, 2);
    SmallFieldRoundTrip(8 * sampleSize, 2);
    SmallFieldRoundTrip(dataSize, 4);
  }

  /** Any list of samples that fit the sample size, written as a canonical
      mono PCM file, is read back as exactly that list. */
  lemma DecodeWaveFile(samples: seq<int>, sampleSize: nat, sampleRate: nat)
    requires 1 <= sampleSize && 8 * sampleSize < 65536
    requires |samples| * sampleSize < Pow256(4)
    requires forall i :: 0 <= i < |samples| ==> SampleFits(samples[i], sampleSize)
    ensures SampleSizeDefined(WaveFile(samples, sampleSize, sampleRate))
    ensures Decode(WaveFile(samples, sampleSize, sampleRate)) == Ok(Wave(samples, |samples|, sampleSize))
  {
    var data := EncodeSamples(samples, sampleSize);
    var file := WaveFile(samples, sampleSize, sampleRate);
    HeaderValues(|samples| * sampleSize, sampleSize, sampleRate, data);
    assert DeclaredCount(file) == |samples| by {
      MulDivCancel(|samples|, sampleSize);
    }
    assert DecodeSamples(SampleData(file), sampleSize) == samples by {
      DecodeEncodedSamples(samples, sampleSize);
    }
  }
}
