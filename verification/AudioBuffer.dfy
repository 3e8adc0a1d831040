/** Presenting 24-bit audio as 32-bit little-endian samples. */
module AudioBuffer {
  import opened Prelude

  datatype SampleFormat = S24_LE | S24_BE | U24_LE | U24_BE {
    predicate IsLittleEndian() { S24_LE? || U24_LE? }
    predicate IsSigned() { S24_LE? || S24_BE? }
  }

  /** Channels are counted in a byte; a frame has room for its samples. */
  datatype AudioSpec = AudioSpec(format: SampleFormat, sampleCount: nat, channelCount: nat, frameStride: nat) {
    predicate Valid() { channelCount <= 255 && frameStride >= 3 * channelCount }

    /** Where frame `i` starts in the original buffer. */
    function FrameAt(i: nat): nat { i * frameStride }

    /** How many samples the first `n` frames hold. */
    function SamplesIn(n: nat): nat { n * channelCount }
  }

  /** How the buffer is presented: a table of samples, or plain bytes. */
  datatype BufferInfo =
    | Samples(itemsize: nat, signed: bool, shape: (nat, nat), strides: (nat, nat))
    | PlainBytes(size: nat)

  // What a sample is worth

  function Unsigned24(low: byte, mid: byte, high: byte): int {
    low as int + 0x100 * mid as int + 0x1_0000 * high as int
  }

  function TwosComplement24(v: int): int {
    if v >= 0x80_0000 then v - 0x100_0000 else v
  }

  /** The 24-bit number the three bytes at `at` stand for, byte order and sign included. */
  function Sample24(spec: AudioSpec, bytes: Bytes, at: nat): int
    requires at + 3 <= |bytes|
  {
    match spec.format
    case U24_LE => Unsigned24(bytes[at], bytes[at + 1], bytes[at + 2])
    case U24_BE => Unsigned24(bytes[at + 2], bytes[at + 1], bytes[at])
    case S24_LE => TwosComplement24(Unsigned24(bytes[at], bytes[at + 1], bytes[at + 2]))
    case S24_BE => TwosComplement24(Unsigned24(bytes[at + 2], bytes[at + 1], bytes[at]))
  }

  /** The sample of channel `c` in frame `i` of the original buffer. */
  function SourceSample(spec: AudioSpec, bytes: Bytes, i: nat, c: nat): int
    requires spec.FrameAt(i) + 3 * c + 3 <= |bytes|
  {
    Sample24(spec, bytes, i * spec.frameStride + 3 * c)
  }

  /** A 32-bit little-endian word of a buffer, signed in two's complement if asked. */
  function Word(bytes: Bytes, at: nat, signed: bool): int
    requires at + 4 <= |bytes|
  {
    var v := bytes[at] as int + 0x100 * bytes[at + 1] as int + 0x1_0000 * bytes[at + 2] as int
             + 0x100_0000 * bytes[at + 3] as int;
    if signed && v >= 0x8000_0000 then v - 0x1_0000_0000 else v
  }

  // The widened buffer

  /** The four bytes written for one sample. */
  function Widened(spec: AudioSpec, bytes: Bytes, at: nat): (w: Bytes)
    requires at + 3 <= |bytes|
    ensures |w| == 4
  {
    var low, mid, high :=
      if spec.format.IsLittleEndian() then bytes[at] else bytes[at + 2],
      bytes[at + 1],
      if spec.format.IsLittleEndian() then bytes[at + 2] else bytes[at];
    [low, mid, high, if spec.format.IsSigned() && high >= 0x80 then 0xFF else 0]
  }

  /** The first `c` samples of the frame at byte offset `frame`. */
  function Row(spec: AudioSpec, bytes: Bytes, frame: nat, c: nat): (r: Bytes)
    requires c <= spec.channelCount && frame + 3 * c <= |bytes|
    ensures |r| == 4 * c
  {
    if c == 0 then [] else Row(spec, bytes, frame, c - 1) + Widened(spec, bytes, frame + 3 * (c - 1))
  }

  /** The buffer holds its first `n` frames. */
  predicate FrameEnds(spec: AudioSpec, bytes: Bytes, n: nat) {
    spec.Valid() && spec.FrameAt(n) <= |bytes|
  }

  /** The first `n` frames, back to back. */
  function Frames(spec: AudioSpec, bytes: Bytes, n: nat): (r: Bytes)
    requires FrameEnds(spec, bytes, n)
    ensures |r| == 4 * spec.SamplesIn(n)
  {
    if n == 0 then []
    else
      FrameStep(spec, n);
      Frames(spec, bytes, n - 1) + Row(spec, bytes, spec.FrameAt(n - 1), spec.channelCount)
  }

  lemma FrameStep(spec: AudioSpec, n: nat)
    requires n > 0
    ensures spec.FrameAt(n) == spec.FrameAt(n - 1) + spec.frameStride
    ensures spec.SamplesIn(n) == spec.SamplesIn(n - 1) + spec.channelCount
  {
    Distribute(n, spec.frameStride);
    Distribute(n, spec.channelCount);
  }

  lemma Distribute(n: nat, k: nat)
    requires n > 0
    ensures n * k == (n - 1) * k + k
  {
  }

  lemma FramesMonotone(spec: AudioSpec, a: nat, b: nat)
    requires a <= b
    ensures spec.FrameAt(a) <= spec.FrameAt(b) && spec.SamplesIn(a) <= spec.SamplesIn(b)
  {
  }

  /** Widening one sample keeps its value. */
  lemma WidenedValue(spec: AudioSpec, bytes: Bytes, at: nat)
    requires at + 3 <= |bytes|
    ensures Word(Widened(spec, bytes, at), 0, spec.format.IsSigned()) == Sample24(spec, bytes, at)
  {
  }

  lemma {:induction false} RowAt(spec: AudioSpec, bytes: Bytes, frame: nat, n: nat, c: nat)
    requires c < n <= spec.channelCount && frame + 3 * n <= |bytes|
    ensures Row(spec, bytes, frame, n)[4 * c..4 * c + 4] == Widened(spec, bytes, frame + 3 * c)
  {
    var front := Row(spec, bytes, frame, n - 1);
    if c < n - 1 {
      RowAt(spec, bytes, frame, n - 1, c);
      assert Row(spec, bytes, frame, n)[4 * c..4 * c + 4] == front[4 * c..4 * c + 4];
    }
  }

  lemma SliceLeft(a: Bytes, b: Bytes, at: nat, w: Bytes)
    requires at + 4 <= |a| && a[at..at + 4] == w
    ensures (a + b)[at..at + 4] == w
  {
  }

  lemma SliceRight(a: Bytes, b: Bytes, k: nat, at: nat, w: Bytes)
    requires at == |a| + k && k + 4 <= |b| && b[k..k + 4] == w
    ensures (a + b)[at..at + 4] == w
  {
  }

  /** Sample (i, c) is in place in a widened buffer. */
  predicate InPlace(spec: AudioSpec, bytes: Bytes, wide: Bytes, i: nat, c: nat) {
    var at := 4 * (spec.SamplesIn(i) + c);
    && spec.FrameAt(i) + 3 * c + 3 <= |bytes|
    && at + 4 <= |wide|
    && wide[at..at + 4] == Widened(spec, bytes, spec.FrameAt(i) + 3 * c)
  }

  lemma {:induction false} FramesAt(spec: AudioSpec, bytes: Bytes, n: nat, i: nat, c: nat)
    requires FrameEnds(spec, bytes, n) && i < n && c < spec.channelCount
    ensures InPlace(spec, bytes, Frames(spec, bytes, n), i, c)
  {
    hide InPlace, Frames;
    if i < n - 1 {
      LastRow(spec, bytes, n);
      FramesAt(spec, bytes, n - 1, i, c);
      KeepsFrame(spec, bytes, n, i, c);
    } else {
      LastFrameAt(spec, bytes, n, c);
    }
  }

  lemma KeepsFrame(spec: AudioSpec, bytes: Bytes, n: nat, i: nat, c: nat)
    requires FrameEnds(spec, bytes, n) && n > 0 && FrameEnds(spec, bytes, n - 1)
    requires InPlace(spec, bytes, Frames(spec, bytes, n - 1), i, c)
    ensures InPlace(spec, bytes, Frames(spec, bytes, n), i, c)
  {
    LastRow(spec, bytes, n);
    hide Frames, Row, Widened, AudioSpec.FrameAt, AudioSpec.SamplesIn;
    SliceLeft(Frames(spec, bytes, n - 1), Row(spec, bytes, spec.FrameAt(n - 1), spec.channelCount),
              4 * (spec.SamplesIn(i) + c), Widened(spec, bytes, spec.FrameAt(i) + 3 * c));
  }

  lemma InPlaceAfter(spec: AudioSpec, bytes: Bytes, front: Bytes, row: Bytes, i: nat, c: nat)
    requires |front| == 4 * spec.SamplesIn(i) && 4 * c + 4 <= |row|
    requires spec.FrameAt(i) + 3 * c + 3 <= |bytes|
    requires row[4 * c..4 * c + 4] == Widened(spec, bytes, spec.FrameAt(i) + 3 * c)
    ensures InPlace(spec, bytes, front + row, i, c)
  {
    hide Widened, AudioSpec.FrameAt, AudioSpec.SamplesIn;
    SliceRight(front, row, 4 * c, 4 * (spec.SamplesIn(i) + c), row[4 * c..4 * c + 4]);
  }

  lemma LastFrameAt(spec: AudioSpec, bytes: Bytes, n: nat, c: nat)
    requires FrameEnds(spec, bytes, n) && n > 0 && c < spec.channelCount
    ensures InPlace(spec, bytes, Frames(spec, bytes, n), n - 1, c)
  {
    LastRow(spec, bytes, n);
    hide Widened, AudioSpec.FrameAt, AudioSpec.SamplesIn, FrameEnds, Frames, Row, InPlace;
    var row := Row(spec, bytes, spec.FrameAt(n - 1), spec.channelCount);
    RowAt(spec, bytes, spec.FrameAt(n - 1), spec.channelCount, c);
    InPlaceAfter(spec, bytes, Frames(spec, bytes, n - 1), row, n - 1, c);
  }

  lemma LastRow(spec: AudioSpec, bytes: Bytes, n: nat)
    requires FrameEnds(spec, bytes, n) && n > 0
    ensures spec.Valid() && FrameEnds(spec, bytes, n - 1)
    ensures spec.FrameAt(n - 1) + 3 * spec.channelCount <= |bytes|
    ensures Frames(spec, bytes, n)
         == Frames(spec, bytes, n - 1) + Row(spec, bytes, spec.FrameAt(n - 1), spec.channelCount)
  {
    FrameStep(spec, n);
  }

  lemma SampleAt(spec: AudioSpec, bytes: Bytes, i: nat, c: nat)
    requires spec.FrameAt(i) + 3 * c + 3 <= |bytes|
    ensures SourceSample(spec, bytes, i, c) == Sample24(spec, bytes, spec.FrameAt(i) + 3 * c)
  {
  }

  /** Every sample of the widened buffer is worth what the original sample was. */
  lemma WideningPreservesValues(spec: AudioSpec, bytes: Bytes, i: nat, c: nat)
    requires FrameEnds(spec, bytes, spec.sampleCount) && i < spec.sampleCount && c < spec.channelCount
    ensures var wide := Frames(spec, bytes, spec.sampleCount);
      && spec.FrameAt(i) + 3 * c + 3 <= |bytes|
      && 4 * (spec.SamplesIn(i) + c) + 4 <= |wide|
      && Word(wide, 4 * (spec.SamplesIn(i) + c), spec.format.IsSigned()) == SourceSample(spec, bytes, i, c)
  {
    hide Frames, Widened, Sample24, SourceSample, AudioSpec.FrameAt, AudioSpec.SamplesIn;
    var wide := Frames(spec, bytes, spec.sampleCount);
    var at := 4 * (spec.SamplesIn(i) + c);
    FramesAt(spec, bytes, spec.sampleCount, i, c);
    WidenedValue(spec, bytes, spec.FrameAt(i) + 3 * c);
    SampleAt(spec, bytes, i, c);
    var w := wide[at..at + 4];
    assert w[0] == wide[at] && w[1] == wide[at + 1] && w[2] == wide[at + 2] && w[3] == wide[at + 3];
  }

  // What Python reads through the table described to it

  /** At row `i`, column `c` of the table described, the buffer reads as the original sample. */
  predicate ReadsAs(info: BufferInfo, bytes: Bytes, spec: AudioSpec, original: Bytes, i: nat, c: nat)
    requires info.Samples?
  {
    var at := i * info.strides.0 + c * info.strides.1;
    && spec.FrameAt(i) + 3 * c + 3 <= |original| && at + info.itemsize <= |bytes| && info.itemsize == 4
    && Word(bytes, at, info.signed) == SourceSample(spec, original, i, c)
  }

  /** The whole table: one row a frame, one column a channel, each entry the original sample. */
  predicate Presents(info: BufferInfo, bytes: Bytes, spec: AudioSpec, original: Bytes) {
    && info.Samples? && info.shape == (spec.sampleCount, spec.channelCount)
    && forall i, c | 0 <= i < spec.sampleCount && 0 <= c < spec.channelCount ::
         ReadsAs(info, bytes, spec, original, i, c)
  }

  lemma WidenedTablePresents(spec: AudioSpec, original: Bytes, info: BufferInfo)
    requires FrameEnds(spec, original, spec.sampleCount)
    requires info == Samples(4, spec.format.IsSigned(), (spec.sampleCount, spec.channelCount),
                             (4 * spec.channelCount, 4))
    ensures Presents(info, Frames(spec, original, spec.sampleCount), spec, original)
  {
    hide Frames, Word, SourceSample, AudioSpec.FrameAt, AudioSpec.SamplesIn;
    forall i, c | 0 <= i < spec.sampleCount && 0 <= c < spec.channelCount
      ensures ReadsAs(info, Frames(spec, original, spec.sampleCount), spec, original, i, c)
    {
      WideningPreservesValues(spec, original, i, c);
      WordPosition(spec, i, c);
    }
  }

  lemma WordPosition(spec: AudioSpec, i: nat, c: nat)
    ensures i * (4 * spec.channelCount) + c * 4 == 4 * (spec.SamplesIn(i) + c)
  {
  }

  /** Whether the buffer has the size its audio spec announces. */
  predicate SizeMatches(spec: AudioSpec, size: nat) {
    size == spec.frameStride * spec.sampleCount
  }

  class ContentBlockBuffer {
    const spec: AudioSpec
    const structuredArray: bool
    var bytes: array<byte>
    var bytesAdjusted: bool
    /** The buffer as read from the file. */
    ghost const original: Bytes

    ghost predicate Valid()
      reads this, bytes
    {
      && spec.Valid()
      && (!bytesAdjusted ==> bytes[..] == original)
      && (bytesAdjusted ==> SizeMatches(spec, |original|) && FrameEnds(spec, original, spec.sampleCount)
                            && bytes[..] == Frames(spec, original, spec.sampleCount))
    }

    constructor (spec: AudioSpec, structuredArray: bool, bytes: array<byte>)
      requires spec.Valid()
      ensures Valid() && !bytesAdjusted && this.bytes == bytes && original == bytes[..]
      ensures this.spec == spec && this.structuredArray == structuredArray
    {
      this.spec, this.structuredArray, this.bytes, bytesAdjusted := spec, structuredArray, bytes, false;
      original := bytes[..];
    }

    /** Presents the block to Python, widening it the first time. */
    method ConvertContentBlockBuffer() returns (info: BufferInfo)
      requires Valid()
      modifies this
      ensures Valid()
      ensures info.Samples? <==> structuredArray && old(bytes.Length) == spec.frameStride * spec.sampleCount
      ensures info.Samples? ==> (info.signed <==> spec.format == S24_LE || spec.format == S24_BE)
      ensures info.Samples? ==> bytesAdjusted && FrameEnds(spec, original, spec.sampleCount)
      ensures info.Samples? ==> bytes[..] == Frames(spec, original, spec.sampleCount)
      ensures info.Samples? ==> Presents(info, bytes[..], spec, original)
      ensures info.Samples? ==> info == Samples(4, spec.format.IsSigned(), (spec.sampleCount, spec.channelCount),
                                                (4 * spec.channelCount, 4))
      ensures info.PlainBytes? ==> info.size == bytes.Length && bytesAdjusted == old(bytesAdjusted)
      ensures info.PlainBytes? || old(bytesAdjusted) ==> bytes == old(bytes) && bytes[..] == old(bytes[..])
    {
      if !structuredArray || bytes.Length != spec.frameStride * spec.sampleCount {
        return PlainBytes(bytes.Length);
      }
      hide Frames, Presents, FrameEnds;
      if !bytesAdjusted {
        var newBuffer := Widen();
        bytes := newBuffer;
        bytesAdjusted := true;
      }
      var audioSampleByteSize := 4;
      var audioSampleStride := audioSampleByteSize * spec.channelCount;
      info := Samples(audioSampleByteSize, spec.format.IsSigned(), (spec.sampleCount, spec.channelCount),
                      (audioSampleStride, audioSampleByteSize));
      WidenedTablePresents(spec, original, info);
      if audioSampleStride > 1 && !bytesAdjusted && !spec.format.IsLittleEndian() {
        // The in-place swap of big-endian samples: widened samples never get here a second time.
        assert false;
      }
    }

    /** The two conversion loops, over frames and channels, with the running source and target offsets. */
    method Widen() returns (newBuffer: array<byte>)
      requires spec.Valid() && SizeMatches(spec, bytes.Length)
      ensures fresh(newBuffer) && FrameEnds(spec, bytes[..], spec.sampleCount)
      ensures newBuffer[..] == Frames(spec, bytes[..], spec.sampleCount)
    {
      newBuffer := new byte[4 * spec.SamplesIn(spec.sampleCount)];
      ghost var input := bytes[..];
      assert spec.FrameAt(spec.sampleCount) == |input|;
      hide Frames, Row, FrameEnds, SizeMatches, AudioSpec.FrameAt, AudioSpec.SamplesIn;
      NoFrames(spec, input);
      var src, dst := 0, 0;
      for sampleIndex := 0 to spec.sampleCount
        invariant FrameEnds(spec, input, spec.sampleCount) && FrameEnds(spec, input, sampleIndex)
        invariant src == spec.FrameAt(sampleIndex) && dst == 4 * spec.SamplesIn(sampleIndex)
        invariant dst <= newBuffer.Length && bytes[..] == input
        invariant newBuffer[..dst] == Frames(spec, input, sampleIndex)
      {
        FrameFits(spec, input, sampleIndex);
        WidenFrame(newBuffer, src, dst);
        ConcatParts(newBuffer[..], dst, dst + 4 * spec.channelCount);
        src := src + spec.frameStride;
        dst := dst + 4 * spec.channelCount;
      }
      assert newBuffer[..] == newBuffer[..dst];
    }

    /** The inner loop: one frame at byte offset `src` widened to byte offset `dst`. */
    method WidenFrame(newBuffer: array<byte>, src: nat, dst: nat)
      requires spec.Valid() && newBuffer != bytes
      requires src + spec.frameStride <= bytes.Length && dst + 4 * spec.channelCount <= newBuffer.Length
      modifies newBuffer
      ensures newBuffer[..dst] == old(newBuffer[..dst])
      ensures newBuffer[dst..dst + 4 * spec.channelCount] == Row(spec, bytes[..], src, spec.channelCount)
    {
      hide Widened;
      ghost var input := bytes[..];
      for channelIndex := 0 to spec.channelCount
        invariant bytes[..] == input
        invariant newBuffer[..dst] == old(newBuffer[..dst])
        invariant newBuffer[dst..dst + 4 * channelIndex] == Row(spec, input, src, channelIndex)
      {
        var target := dst + 4 * channelIndex;
        var sample := Reconstruct(src + 3 * channelIndex);
        ghost var done := newBuffer[..target];
        StoreWord(newBuffer, target, sample);
        assert newBuffer[..dst] == done[..dst];
        assert newBuffer[dst..target] == done[dst..target];
        assert newBuffer[dst..target + 4] == newBuffer[dst..target] + newBuffer[target..target + 4];
      }
    }

    /** The sample reconstruction buffer for the three source bytes at `at`; its top byte starts cleared. */
    method Reconstruct(at: nat) returns (sample: Bytes)
      requires at + 3 <= bytes.Length
      ensures sample == Widened(spec, bytes[..], at)
      ensures Word(sample, 0, spec.format.IsSigned()) == Sample24(spec, bytes[..], at)
    {
      WidenedValue(spec, bytes[..], at);
      sample := [0, 0, 0, 0];
      if !spec.format.IsLittleEndian() {
        sample := sample[0 := bytes[at + 2]][1 := bytes[at + 1]][2 := bytes[at]];
      } else {
        sample := sample[0 := bytes[at]][1 := bytes[at + 1]][2 := bytes[at + 2]];
      }
      if spec.format.IsSigned() {
        sample := sample[3 := if sample[2] >= 0x80 then 0xFF else 0];
      }
    }
  }

  lemma ConcatParts(bytes: Bytes, a: nat, b: nat)
    requires a <= b <= |bytes|
    ensures bytes[..b] == bytes[..a] + bytes[a..b]
  {
  }

  /** There is room for one more frame, in the original and in the widened buffer. */
  lemma FrameFits(spec: AudioSpec, bytes: Bytes, i: nat)
    requires FrameEnds(spec, bytes, spec.sampleCount) && i < spec.sampleCount
    ensures spec.Valid() && FrameEnds(spec, bytes, i) && FrameEnds(spec, bytes, i + 1)
    ensures spec.FrameAt(i) + spec.frameStride == spec.FrameAt(i + 1) <= |bytes|
    ensures spec.SamplesIn(i) + spec.channelCount == spec.SamplesIn(i + 1) <= spec.SamplesIn(spec.sampleCount)
    ensures spec.FrameAt(i) + 3 * spec.channelCount <= |bytes|
    ensures Frames(spec, bytes, i + 1)
         == Frames(spec, bytes, i) + Row(spec, bytes, spec.FrameAt(i), spec.channelCount)
  {
    FrameStep(spec, i + 1);
    FramesMonotone(spec, i + 1, spec.sampleCount);
    LastRow(spec, bytes, i + 1);
  }

  lemma NoFrames(spec: AudioSpec, bytes: Bytes)
    requires spec.Valid()
    ensures FrameEnds(spec, bytes, 0) && Frames(spec, bytes, 0) == []
    ensures spec.FrameAt(0) == 0 && spec.SamplesIn(0) == 0
  {
  }

  /** A four-byte store. */
  method StoreWord(buffer: array<byte>, at: nat, word: Bytes)
    requires |word| == 4 && at + 4 <= buffer.Length
    modifies buffer
    ensures buffer[..at] == old(buffer[..at]) && buffer[at..at + 4] == word
    ensures buffer[at + 4..] == old(buffer[at + 4..])
  {
    buffer[at], buffer[at + 1], buffer[at + 2], buffer[at + 3] := word[0], word[1], word[2], word[3];
  }

  /** Presenting a widened block again still finds samples only if frames were already four bytes a channel. */
  lemma SecondConversionIff(spec: AudioSpec, bytes: Bytes)
    requires FrameEnds(spec, bytes, spec.sampleCount)
    ensures SizeMatches(spec, |Frames(spec, bytes, spec.sampleCount)|)
      <==> spec.sampleCount == 0 || spec.frameStride == 4 * spec.channelCount
  {
    var n, s, c := spec.sampleCount, spec.frameStride, 4 * spec.channelCount;
    assert 4 * spec.SamplesIn(n) == n * c;
    if s < c {
      CancelStrict(n, s, c);
    } else if c < s {
      CancelStrict(n, c, s);
    }
  }

  lemma CancelStrict(n: nat, a: nat, b: nat)
    requires a < b
    ensures n > 0 ==> a * n < b * n
  {
    assert b * n == a * n + (b - a) * n;
  }
}
