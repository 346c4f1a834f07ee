/** APEReader: recognises a Monkey's Audio stream by its "MAC " magic,
    then reads either the descriptor and new header (version 3.98 and
    later) or the old header, and fills an `APEFileInfo` with the stream
    layout and the quantities derived from it.

    The reader depends on the header parsers, which read the wrong bytes as
    written, and on a wave-header copy that cannot succeed as written, so
    every reading operation takes a `Variant`: `AsWritten` composes the
    parsers and the copy as the code has them, `Intended` composes their
    corrected forms. The derived arithmetic is the same in both. */
module ApeReader {
  import opened Wrappers
  import opened JavaInt
  import opened ExtractorInput
  import opened InputWrapper
  import ApeDescriptor
  import ApeHeaderNew
  import ApeHeaderOld

  const MAC_FORMAT_FLAG_8_BIT: int := 1
  const MAC_FORMAT_FLAG_CRC: int := 2
  const MAC_FORMAT_FLAG_HAS_PEAK_LEVEL: int := 4
  const MAC_FORMAT_FLAG_24_BIT: int := 8
  const MAC_FORMAT_FLAG_HAS_SEEK_ELEMENTS: int := 16
  const MAC_FORMAT_FLAG_CREATE_WAV_HEADER: int := 32
  const WAVE_HEADER_BYTES: int := 44
  /** `CompressionLevel.COMPRESSION_LEVEL_EXTRA_HIGH`. */
  const COMPRESSION_LEVEL_EXTRA_HIGH: int := 4000
  /** The first version whose files open with a descriptor. */
  const DESCRIPTOR_VERSION: int := 3980
  const INTEGER_MAX_VALUE: int := TWO_31 - 1

  datatype Variant = AsWritten | Intended

  /** Java's `(flags & flag) > 0` on a u16 flags word. */
  predicate HasFlag(flags: int, flag: int)
    requires 0 <= flags < TWO_16 && 0 < flag < TWO_16
  {
    (flags as bv16) & (flag as bv16) != 0
  }

  /** `APEFileInfo`. The arrays are `None` while unassigned (Java `null`). */
  datatype FileInfo = FileInfo(
    version: int,
    compressionLevel: int,
    formatFlags: int,
    totalFrames: int,
    blocksPerFrame: int,
    finalFrameBlocks: int,
    channels: int,
    sampleRate: int,
    bitsPerSample: int,
    bytesPerSample: int,
    blockAlign: int,
    wavHeaderBytes: int,
    wavDataBytes: int,
    wavTerminatingBytes: int,
    wavTotalBytes: int,
    apeTotalBytes: int,
    totalBlocks: int,
    lengthMs: int,
    averageBitrate: int,
    decompressedBitrate: int,
    peakLevel: int,
    junkHeaderBytes: int,
    seekTableElements: int,
    seekByteTable: Option<seq<int>>,
    seekBitTable: Option<seq<uint8>>,
    waveHeaderData: Option<seq<uint8>>,
    descriptor: Option<ApeDescriptor.Descriptor>)

  /** A freshly constructed `APEFileInfo`: every number 0, every array null. */
  const EMPTY_INFO: FileInfo :=
    FileInfo(0, 0, 0, 0, 0, 0, 0, 0, 0, 0, 0, 0, 0, 0, 0, 0, 0, 0, 0, 0, 0, 0, 0,
             None, None, None, None)

  // ---------------------------------------------------------------------
  // Sniffing.

  /** An `APEReader`: the input it reads from and the version sniffed from
      the stream's first header. */
  datatype Reader = Reader(input: Input, version: int)

  /** What `sniff` returns (a reader, `null`, or an exception) and the input
      as it leaves it: the peek cursor always goes back to the read cursor. */
  datatype Sniffed = Sniffed(outcome: Result<Option<Reader>>, input: Input)

  /** The four bytes at the peek cursor decode to "MAC " exactly when they
      are the bytes of "MAC ". */
  lemma MagicDecodes(inp: Input)
    requires inp.Valid() && 4 <= inp.PeekRemaining()
    ensures DecodeAscii(Window(inp, 4)) == "MAC " <==> Window(inp, 4) == AsciiBytes("MAC ")
  {
    var bs, magic := Window(inp, 4), AsciiBytes("MAC ");
    if bs == magic {
      assert DecodeAscii(bs) == "MAC ";
    }
    if DecodeAscii(bs) == "MAC " {
      assert forall i :: 0 <= i < 4 ==> AsciiChar(bs[i]) == "MAC "[i];
      assert forall i :: 0 <= i < 4 ==> bs[i] == magic[i];
    }
  }

  /** `APEReader.sniff`. The four bytes at the peek cursor are compared with
      "MAC "; on a match the version is the u16 after them, where both the
      descriptor and the old header keep it. End of input is an error. The
      peek cursor is reset in every outcome. `peekString` and
      `peekUnsignedShort` are taken to peek their full width. */
  function Sniff(inp: Input): (s: Sniffed)
    requires inp.Valid()
    ensures s.input == ResetPeekPosition(inp)
    ensures var q := inp.peekPosition;
      && (s.outcome.Success? && s.outcome.value.Some? <==>
            6 <= inp.PeekRemaining() && inp.data[q .. q + 4] == AsciiBytes("MAC "))
      && (s.outcome == Success(None) <==>
            4 <= inp.PeekRemaining() && inp.data[q .. q + 4] != AsciiBytes("MAC "))
      && (s.outcome.Failure? ==> s.outcome.error == EndOfInput)
      && (s.outcome.Success? && s.outcome.value.Some? ==>
            s.outcome.value.value == Reader(ResetPeekPosition(inp), FieldAt(inp.data, q + 4, 2)))
  {
    var reset := ResetPeekPosition(inp);
    var outcome := (
      var id :- ReadStringIntended(inp, 4);
      MagicDecodes(inp);
      if id.value != "MAC " then Success(None)
      else
        var version :- ReadUnsignedShort(id.rest);
        Success(Some(Reader(reset, version.value))));
    Sniffed(outcome, reset)
  }

  // ---------------------------------------------------------------------
  // Steps shared by both layouts.

  /** `peekUnsignedInt()` narrowed by `(int)`. */
  function PeekInt(inp: Input): (r: Result<Parsed<int>>)
    requires inp.Valid()
    ensures r.Success? <==> 4 <= inp.PeekRemaining()
    ensures r.Failure? ==> r.error == EndOfInput
    ensures r.Success? ==>
      && r.value.value == ToInt(FieldAt(inp.data, inp.peekPosition, 4))
      && Advanced(inp, r.value.rest, 4) && r.value.rest.Valid()
  {
    var u :- ReadUnsignedInt(inp);
    Success(Parsed(ToInt(u.value), u.rest))
  }

  /** The seek-byte-table loop: `n` consecutive `(int) peekUnsignedInt()`. */
  function PeekInts(inp: Input, n: nat): (r: Result<Parsed<seq<int>>>)
    requires inp.Valid()
    ensures r.Success? <==> 4 * n <= inp.PeekRemaining()
    ensures r.Failure? ==> r.error == EndOfInput
    ensures r.Success? ==>
      && |r.value.value| == n
      && (forall i :: 0 <= i < n ==>
            r.value.value[i] == ToInt(FieldAt(inp.data, inp.peekPosition + 4 * i, 4)))
      && Advanced(inp, r.value.rest, 4 * n) && r.value.rest.Valid()
    decreases n
  {
    if n == 0 then Success(Parsed([], inp))
    else
      var head :- PeekInt(inp);
      var tail :- PeekInts(head.rest, n - 1);
      ConsFields(inp.data, inp.peekPosition, head.value, tail.value);
      Success(Parsed([head.value] + tail.value, tail.rest))
  }

  /** The ints read from `at` are the first one there and the ones read
      from the next field on. */
  lemma ConsFields(data: seq<uint8>, at: nat, x: int, xs: seq<int>)
    requires at + 4 * (|xs| + 1) <= |data|
    requires x == ToInt(FieldAt(data, at, 4))
    requires forall i :: 0 <= i < |xs| ==> xs[i] == ToInt(FieldAt(data, at + 4 + 4 * i, 4))
    ensures forall i :: 0 <= i < |xs| + 1 ==> ([x] + xs)[i] == ToInt(FieldAt(data, at + 4 * i, 4))
  {
    forall i | 0 <= i < |xs| + 1
      ensures ([x] + xs)[i] == ToInt(FieldAt(data, at + 4 * i, 4))
    {
      if i > 0 {
        assert at + 4 * i == at + 4 + 4 * (i - 1);
      }
    }
  }

  /** `if (extra > 0) advancePeekPosition((int) extra)`: passes over the
      bytes a header declares beyond the ones this reader knows. */
  function PassExtra(inp: Input, extra: int): (r: Result<Input>)
    requires inp.Valid()
    ensures extra <= 0 ==> r == Success(inp)
    ensures 0 < extra < TWO_31 ==>
      (r.Success? <==> extra <= inp.PeekRemaining())
    ensures r.Success? ==>
      && r.value.Valid() && r.value.data == inp.data
      && r.value.position == inp.position && r.value.peekPosition >= inp.peekPosition
  {
    if extra > 0 then AdvancePeekPosition(inp, ToInt(extra)) else Success(inp)
  }

  /** Blocks per frame of an old file: 9216 before 3.80, 73728 from 3.90
      (or from 3.80 at extra-high compression), and four times that from
      3.95. */
  function BlocksPerFrameOld(version: int, compressionLevel: int): (r: int)
    ensures r == 9216 || r == 73728 || r == 73728 * 4
    ensures version >= 3950 <==> r == 73728 * 4
    ensures r == 9216 <==>
      version < 3800 || (version < 3900 && compressionLevel != COMPRESSION_LEVEL_EXTRA_HIGH)
  {
    var blocks :=
      if version >= 3900 || (version >= 3800 && compressionLevel == COMPRESSION_LEVEL_EXTRA_HIGH)
      then 73728 else 9216;
    if version >= 3950 then 73728 * 4 else blocks
  }

  /** A later version never has fewer blocks per frame. */
  lemma BlocksPerFrameGrowsWithVersion(v1: int, v2: int, compressionLevel: int)
    requires v1 <= v2
    ensures BlocksPerFrameOld(v1, compressionLevel) <= BlocksPerFrameOld(v2, compressionLevel)
  {
  }

  /** Bits per sample of an old file: 8 with the 8-bit flag, else 24 with
      the 24-bit flag, else 16. */
  function BitsPerSampleOld(flags: int): (r: int)
    requires 0 <= flags < TWO_16
    ensures r == 8 <==> HasFlag(flags, MAC_FORMAT_FLAG_8_BIT)
    ensures r == 24 <==> !HasFlag(flags, MAC_FORMAT_FLAG_8_BIT) && HasFlag(flags, MAC_FORMAT_FLAG_24_BIT)
    ensures r == 16 <==> !HasFlag(flags, MAC_FORMAT_FLAG_8_BIT) && !HasFlag(flags, MAC_FORMAT_FLAG_24_BIT)
  {
    if HasFlag(flags, MAC_FORMAT_FLAG_8_BIT) then 8
    else if HasFlag(flags, MAC_FORMAT_FLAG_24_BIT) then 24
    else 16
  }

  /** What `readNew` and `readOld` take from their headers before the
      arithmetic they share. Fields marked long are the unsigned 32-bit
      values still held in a Java `long`. */
  datatype Stream = Stream(
    version: int,
    compressionLevel: int,
    formatFlags: int,
    totalFrames: int,          // long
    finalFrameBlocks: int,     // long
    blocksPerFrame: int,       // int
    channels: int,
    sampleRate: int,           // long
    bitsPerSample: int,
    wavHeaderSource: int,      // long: header bytes stored in the file
    wavTerminating: int)       // long

  /** The number of blocks in each frame of a stream: every frame is full
      except the last, which holds `finalFrameBlocks`. */
  function FrameBlocks(totalFrames: nat, blocksPerFrame: int, finalFrameBlocks: int): (bs: seq<int>)
    ensures |bs| == totalFrames
  {
    seq(totalFrames, i => if i == totalFrames - 1 then finalFrameBlocks else blocksPerFrame)
  }

  function Sum(xs: seq<int>): int {
    if |xs| == 0 then 0 else Sum(xs[..|xs| - 1]) + xs[|xs| - 1]
  }

  /** The source's closed form for the block count is the sum over frames. */
  lemma {:induction false} TotalBlocksSumsFrames(totalFrames: nat, blocksPerFrame: int, finalFrameBlocks: int)
    ensures Sum(FrameBlocks(totalFrames, blocksPerFrame, finalFrameBlocks))
         == if totalFrames == 0 then 0 else (totalFrames - 1) * blocksPerFrame + finalFrameBlocks
  {
    if totalFrames > 0 {
      var bs := FrameBlocks(totalFrames, blocksPerFrame, finalFrameBlocks);
      FullFrames(totalFrames - 1, blocksPerFrame);
      assert bs[..totalFrames - 1] == seq(totalFrames - 1, i => blocksPerFrame);
    }
  }

  lemma {:induction false} FullFrames(n: nat, blocksPerFrame: int)
    ensures Sum(seq(n, i => blocksPerFrame)) == n * blocksPerFrame
  {
    if n > 0 {
      var bs := seq(n, i => blocksPerFrame);
      assert bs[..n - 1] == seq(n - 1, i => blocksPerFrame);
      FullFrames(n - 1, blocksPerFrame);
    }
  }

  /** The block count `(totalFrames - 1) * blocksPerFrame + finalFrameBlocks`
      is computed in `long` and cannot overflow it: both counts are u32 and
      `blocksPerFrame` is an `int`. The millisecond and bitrate products
      that follow are `long` products of `int`s and cannot overflow
      either, so the model computes them exactly. */
  lemma LongArithmeticNeverWraps(totalFrames: int, blocksPerFrame: int, finalFrameBlocks: int,
                                 totalBlocks: int, apeTotalBytes: int)
    requires 1 <= totalFrames < TWO_32 && 0 <= finalFrameBlocks < TWO_32
    requires IsInt(blocksPerFrame) && IsInt(totalBlocks) && IsInt(apeTotalBytes)
    ensures IsLong((totalFrames - 1) * blocksPerFrame + finalFrameBlocks)
    ensures IsLong(totalBlocks * 1000) && IsLong(apeTotalBytes * 8)
  {
    var f := totalFrames - 1;
    MulMonotone(f, blocksPerFrame, TWO_31);
    MulMonotone(f, -TWO_31, blocksPerFrame);
  }

  /** `nBlockAlign = nBytesPerSample * nChannels` in `int`. */
  function BlockAlign(bitsPerSample: int, channels: int): (r: int)
    requires 0 <= bitsPerSample
    ensures IsInt(r)
  {
    ToInt((bitsPerSample / 8) * channels)
  }

  /** For u16 sample widths and channel counts the block alignment never
      wraps: it is exactly bytes per sample times channels. */
  lemma BlockAlignIsExact(bitsPerSample: int, channels: int)
    requires 0 <= bitsPerSample < TWO_16 && 0 <= channels < TWO_16
    ensures BlockAlign(bitsPerSample, channels) == (bitsPerSample / 8) * channels
  {
    var b := bitsPerSample / 8;
    MulMonotone(channels, b, TWO_13);
    assert channels * b == b * channels;
  }

  /** `nTotalBlocks`: the `long` block count narrowed to an `int`. */
  function TotalBlocks(totalFrames: nat, blocksPerFrame: int, finalFrameBlocks: int): (r: int)
    ensures IsInt(r)
  {
    ToInt(if totalFrames == 0 then 0 else (totalFrames - 1) * blocksPerFrame + finalFrameBlocks)
  }

  /** The block count is the per-frame block counts summed, narrowed to an
      `int`. */
  lemma TotalBlocksCountsEveryFrame(totalFrames: nat, blocksPerFrame: int, finalFrameBlocks: int)
    ensures TotalBlocks(totalFrames, blocksPerFrame, finalFrameBlocks)
         == ToInt(Sum(FrameBlocks(totalFrames, blocksPerFrame, finalFrameBlocks)))
  {
    TotalBlocksSumsFrames(totalFrames, blocksPerFrame, finalFrameBlocks);
  }

  /** `nWAVTotalBytes = nWAVDataBytes + nWAVHeaderBytes + nWAVTerminatingBytes`
      as two `int` additions. */
  function WavTotalBytes(data: int, header: int, terminating: int): (r: int)
    ensures IsInt(r)
  {
    ToInt(ToInt(data + header) + terminating)
  }

  /** The two wrapping additions wrap like one exact sum. */
  lemma WavTotalAddsParts(data: int, header: int, terminating: int)
    ensures WavTotalBytes(data, header, terminating) == ToInt(data + header + terminating)
  {
    ToIntOfSum(data + header, terminating);
  }

  /** `nLengthMS = (int) ((nTotalBlocks * 1000L) / nSampleRate)`. */
  function LengthMs(totalBlocks: int, sampleRate: int): (r: int)
    requires sampleRate != 0
    ensures IsInt(r)
  {
    ToInt(Quot(totalBlocks * 1000, sampleRate))
  }

  /** With a positive sample rate and a non-negative block count, the
      length in milliseconds is the duration rounded down, whenever it fits
      an `int`. */
  lemma LengthRoundsDown(totalBlocks: int, sampleRate: int)
    requires sampleRate > 0 && totalBlocks >= 0 && IsInt(totalBlocks * 1000 / sampleRate)
    ensures LengthMs(totalBlocks, sampleRate) * sampleRate <= totalBlocks * 1000
    ensures totalBlocks * 1000 < (LengthMs(totalBlocks, sampleRate) + 1) * sampleRate
  {
    QuotOfNonNegative(totalBlocks * 1000, sampleRate);
  }

  /** `nAverageBitrate`: 0 unless the length is positive, else the file
      bytes times 8 over the milliseconds. */
  function AverageBitrate(apeTotalBytes: int, lengthMs: int): (r: int)
    ensures IsInt(r)
    ensures lengthMs <= 0 ==> r == 0
  {
    if lengthMs <= 0 then 0 else ToInt(Quot(apeTotalBytes * 8, lengthMs))
  }

  /** The arithmetic `readNew` and `readOld` share, in Java's types: `int`
      products and sums wrap, the block count is computed in `long` and then
      narrowed, the length in milliseconds divides by the sample rate (so a
      zero rate throws `ArithmeticException`), and the average bitrate is 0
      for a stream with no positive length. Peak level, seek elements and
      the arrays are left for the caller. */
  function Fill(s: Stream, length: int): (r: Result<FileInfo>)
    requires 0 <= s.bitsPerSample && 0 <= s.totalFrames && 0 <= s.formatFlags < TWO_16
    ensures r.Failure? <==> ToInt(s.sampleRate) == 0
    ensures r.Failure? ==> r.error == Arithmetic
    ensures r.Success? ==>
      var info := r.value;
      && info.version == s.version && info.compressionLevel == s.compressionLevel
      && info.formatFlags == s.formatFlags && info.blocksPerFrame == s.blocksPerFrame
      && info.totalFrames == ToInt(s.totalFrames) && info.finalFrameBlocks == ToInt(s.finalFrameBlocks)
      && info.channels == s.channels && info.bitsPerSample == s.bitsPerSample
      && info.sampleRate == ToInt(s.sampleRate) && info.sampleRate != 0
      && info.bytesPerSample * 8 <= s.bitsPerSample < info.bytesPerSample * 8 + 8
      && info.blockAlign == BlockAlign(s.bitsPerSample, s.channels)
      && info.totalBlocks == TotalBlocks(s.totalFrames, s.blocksPerFrame, s.finalFrameBlocks)
      && info.wavHeaderBytes ==
           ToInt(if HasFlag(s.formatFlags, MAC_FORMAT_FLAG_CREATE_WAV_HEADER) then WAVE_HEADER_BYTES else s.wavHeaderSource)
      && info.wavDataBytes == ToInt(info.totalBlocks * info.blockAlign)
      && info.wavTerminatingBytes == ToInt(s.wavTerminating)
      && info.wavTotalBytes == WavTotalBytes(info.wavDataBytes, info.wavHeaderBytes, info.wavTerminatingBytes)
      && info.apeTotalBytes == ToInt(length)
      && info.lengthMs == LengthMs(info.totalBlocks, info.sampleRate)
      && info.averageBitrate == AverageBitrate(info.apeTotalBytes, info.lengthMs)
      && info.peakLevel == 0 && info.junkHeaderBytes == 0 && info.seekTableElements == 0
      && info.seekByteTable.None? && info.seekBitTable.None?
      && info.waveHeaderData.None? && info.descriptor.None?
  {
    var sampleRate := ToInt(s.sampleRate);
    if sampleRate == 0 then Failure(Arithmetic)
    else
      var blockAlign := BlockAlign(s.bitsPerSample, s.channels);
      var totalBlocks := TotalBlocks(s.totalFrames, s.blocksPerFrame, s.finalFrameBlocks);
      var wavHeaderBytes :=
        ToInt(if HasFlag(s.formatFlags, MAC_FORMAT_FLAG_CREATE_WAV_HEADER)
              then WAVE_HEADER_BYTES else s.wavHeaderSource);
      var wavTerminatingBytes := ToInt(s.wavTerminating);
      var wavDataBytes := ToInt(totalBlocks * blockAlign);
      var apeTotalBytes := ToInt(length);
      var lengthMs := LengthMs(totalBlocks, sampleRate);
      Success(FileInfo(
        s.version, s.compressionLevel, s.formatFlags, ToInt(s.totalFrames), s.blocksPerFrame,
        ToInt(s.finalFrameBlocks), s.channels, sampleRate, s.bitsPerSample, s.bitsPerSample / 8,
        blockAlign, wavHeaderBytes, wavDataBytes, wavTerminatingBytes,
        WavTotalBytes(wavDataBytes, wavHeaderBytes, wavTerminatingBytes),
        apeTotalBytes, totalBlocks, lengthMs, AverageBitrate(apeTotalBytes, lengthMs),
        Quot(ToInt(ToInt(blockAlign * sampleRate) * 8), 1000),
        0, 0, 0, None, None, None, None))
  }

  /** The info `readNew` and `readOld` leave: the shared arithmetic of
      `base`, with only the fields the layouts fill differently (peak level,
      seek tables, wave-header data, descriptor) set apart. */
  predicate FilledFrom(info: FileInfo, base: FileInfo) {
    info == base.(peakLevel := info.peakLevel, seekTableElements := info.seekTableElements,
                  seekByteTable := info.seekByteTable, seekBitTable := info.seekBitTable,
                  waveHeaderData := info.waveHeaderData, descriptor := info.descriptor)
  }

  // ---------------------------------------------------------------------
  // The wave-header copy.

  /** The wave-header copy as written. When the header is stored in the
      file (the CREATE_WAV_HEADER flag is clear) the code allocates the
      buffer only if the declared size exceeds `Integer.MAX_VALUE` — a size
      whose `(int)` cast is negative, so the allocation throws — and
      otherwise peeks 44 bytes into a null buffer. `declared` is the
      declared size in the type the source compares it in. Either way a
      stored header makes the read fail. */
  function WaveHeaderAsWritten(inp: Input, flags: int, declared: int): (r: Result<Parsed<Option<seq<uint8>>>>)
    requires inp.Valid() && 0 <= flags < TWO_16
    ensures r.Success? <==> HasFlag(flags, MAC_FORMAT_FLAG_CREATE_WAV_HEADER)
    ensures r.Success? ==> r.value == Parsed(None, inp)
    ensures r.Failure? && declared <= INTEGER_MAX_VALUE && WAVE_HEADER_BYTES <= inp.PeekRemaining() ==>
      r.error == NullPointer
  {
    if HasFlag(flags, MAC_FORMAT_FLAG_CREATE_WAV_HEADER) then Success(Parsed(None, inp))
    else if declared > INTEGER_MAX_VALUE then Failure(NegativeArraySize)
    else if WAVE_HEADER_BYTES > inp.PeekRemaining() then Failure(EndOfInput)
    else Failure(NullPointer)
  }

  /** The evident intent of the copy: when the header is stored, allocate
      `size` bytes and peek them. */
  function WaveHeaderIntended(inp: Input, flags: int, size: int): (r: Result<Parsed<Option<seq<uint8>>>>)
    requires inp.Valid() && 0 <= flags < TWO_16
    ensures HasFlag(flags, MAC_FORMAT_FLAG_CREATE_WAV_HEADER) ==> r == Success(Parsed(None, inp))
    ensures !HasFlag(flags, MAC_FORMAT_FLAG_CREATE_WAV_HEADER) ==>
      && (r.Success? <==> 0 <= size <= inp.PeekRemaining())
      && (r.Success? ==>
            && r.value.value == Some(Window(inp, size))
            && Advanced(inp, r.value.rest, size) && r.value.rest.Valid())
  {
    if HasFlag(flags, MAC_FORMAT_FLAG_CREATE_WAV_HEADER) then Success(Parsed(None, inp))
    else if size < 0 then Failure(NegativeArraySize)
    else
      var bytes :- PeekFully(inp, size);
      Success(Parsed(Some(bytes.value), bytes.rest))
  }

  function WaveHeader(v: Variant, inp: Input, flags: int, declared: int, size: int)
    : (r: Result<Parsed<Option<seq<uint8>>>>)
    requires inp.Valid() && 0 <= flags < TWO_16
    ensures r.Success? ==> r.value.rest.Valid() && r.value.rest.data == inp.data
    ensures r.Success? && v.AsWritten? ==> HasFlag(flags, MAC_FORMAT_FLAG_CREATE_WAV_HEADER)
    ensures r.Success? ==>
      (r.value.value.None? <==> HasFlag(flags, MAC_FORMAT_FLAG_CREATE_WAV_HEADER))
  {
    match v
    case AsWritten => WaveHeaderAsWritten(inp, flags, declared)
    case Intended => WaveHeaderIntended(inp, flags, size)
  }

  // ---------------------------------------------------------------------
  // readNew, readOld, read.

  function ReadDescriptor(v: Variant, inp: Input): (r: Result<Parsed<ApeDescriptor.Descriptor>>)
    requires inp.Valid()
    ensures r.Success? ==>
      r.value.value.InRange() && r.value.rest.Valid() && r.value.rest.data == inp.data
  {
    match v
    case AsWritten => ApeDescriptor.Read(inp)
    case Intended => ApeDescriptor.ReadIntended(inp)
  }

  function ReadHeaderOld(v: Variant, inp: Input): (r: Result<Parsed<ApeHeaderOld.HeaderOld>>)
    requires inp.Valid()
    ensures r.Success? ==>
      r.value.value.InRange() && r.value.rest.Valid() && r.value.rest.data == inp.data
  {
    match v
    case AsWritten => ApeHeaderOld.Read(inp)
    case Intended => ApeHeaderOld.ReadIntended(inp)
  }

  /** What `readNew` finds before its arithmetic: the descriptor and the new
      header, with any bytes either declares beyond the known ones passed
      over on the peek cursor. */
  datatype NewLayout = NewLayout(descriptor: ApeDescriptor.Descriptor, header: ApeHeaderNew.HeaderNew)

  function ReadNewLayout(v: Variant, inp: Input): (r: Result<Parsed<NewLayout>>)
    requires inp.Valid()
    ensures r.Success? ==>
      && r.value.value.descriptor.InRange() && r.value.value.header.InRange()
      && r.value.rest.Valid() && r.value.rest.data == inp.data
  {
    var descriptor :- ReadDescriptor(v, inp);
    var d := descriptor.value;
    var afterDescriptor :- PassExtra(descriptor.rest, d.descriptorBytes - ApeDescriptor.APE_DESCRIPTOR_BYTES);
    var header :- ApeHeaderNew.Read(afterDescriptor);
    var afterHeader :- PassExtra(header.rest, d.headerBytes - ApeHeaderNew.APE_HEADER_BYTES);
    Success(Parsed(NewLayout(d, header.value), afterHeader))
  }

  /** The fields `readNew` feeds the shared arithmetic: the version and
      the stored header and terminating sizes from the descriptor, the rest
      from the new header. */
  function NewStream(d: ApeDescriptor.Descriptor, h: ApeHeaderNew.HeaderNew): Stream {
    Stream(d.version, h.compressionLevel, h.formatFlags, h.totalFrames,
           h.finalFrameBlocks, ToInt(h.blocksPerFrame), h.channels, h.sampleRate,
           h.bitsPerSample, d.headerDataBytes, d.terminatingDataBytes)
  }

  /** `readNew`: the descriptor, any descriptor bytes beyond the 52 known
      ones, the new header, any header bytes beyond its 24, the shared
      arithmetic, a seek table of `seekTableBytes / 4` entries and the wave
      header. The version comes from the descriptor, the peak level is
      unknown (-1), and there is no seek-bit table. */
  function ReadNew(v: Variant, inp: Input, length: int): (r: Result<Parsed<FileInfo>>)
    requires inp.Valid()
    ensures r.Success? ==>
      var info := r.value.value;
      && info.descriptor.Some?
      && info.version == info.descriptor.value.version
      && info.peakLevel == -1
      && info.seekTableElements == info.descriptor.value.seekTableBytes / 4
      && info.seekByteTable.Some? && |info.seekByteTable.value| == info.seekTableElements
      && info.seekBitTable.None?
      && info.sampleRate != 0
      && 0 <= info.formatFlags < TWO_16
      && (info.waveHeaderData.None? <==> HasFlag(info.formatFlags, MAC_FORMAT_FLAG_CREATE_WAV_HEADER))
      && (v.AsWritten? ==> HasFlag(info.formatFlags, MAC_FORMAT_FLAG_CREATE_WAV_HEADER))
      && r.value.rest.Valid() && r.value.rest.data == inp.data
    ensures r.Success? ==>
      var layout := ReadNewLayout(v, inp);
      && layout.Success? && r.value.value.descriptor == Some(layout.value.value.descriptor)
      && var base := Fill(NewStream(layout.value.value.descriptor, layout.value.value.header), length);
      && base.Success? && FilledFrom(r.value.value, base.value)
  {
    var layout :- ReadNewLayout(v, inp);
    var d, h := layout.value.descriptor, layout.value.header;
    var info :- Fill(NewStream(d, h), length);
    var seekTableElements := d.seekTableBytes / 4;
    var seekTable :- PeekInts(layout.rest, seekTableElements);
    var wave :- WaveHeader(v, seekTable.rest, h.formatFlags, info.wavHeaderBytes, info.wavHeaderBytes);
    Success(Parsed(
      info.(peakLevel := -1, seekTableElements := seekTableElements,
            seekByteTable := Some(seekTable.value), waveHeaderData := wave.value,
            descriptor := Some(d)),
      wave.rest))
  }

  /** What `readOld` finds after the header of a stream with frames: the
      peak level (-1 unless flagged) and the seek-element count (one per
      frame unless flagged), each flagged value a `(int)` u32 peek. */
  datatype OldLayout = OldLayout(header: ApeHeaderOld.HeaderOld, peakLevel: int, seekElements: int)

  function ReadOldExtras(h: ApeHeaderOld.HeaderOld, inp: Input): (r: Result<Parsed<OldLayout>>)
    requires inp.Valid() && h.InRange()
    ensures r.Success? ==>
      && r.value.value.header == h
      && (!HasFlag(h.formatFlags, MAC_FORMAT_FLAG_HAS_PEAK_LEVEL) ==> r.value.value.peakLevel == -1)
      && (!HasFlag(h.formatFlags, MAC_FORMAT_FLAG_HAS_SEEK_ELEMENTS) ==>
            r.value.value.seekElements == ToInt(h.totalFrames))
      && r.value.rest.Valid() && r.value.rest.data == inp.data
  {
    var peak :-
      if HasFlag(h.formatFlags, MAC_FORMAT_FLAG_HAS_PEAK_LEVEL) then PeekInt(inp)
      else Success(Parsed(-1, inp));
    var seekElements :-
      if HasFlag(h.formatFlags, MAC_FORMAT_FLAG_HAS_SEEK_ELEMENTS) then PeekInt(peak.rest)
      else Success(Parsed(ToInt(h.totalFrames), peak.rest));
    Success(Parsed(OldLayout(h, peak.value, seekElements.value), seekElements.rest))
  }

  /** The seek tables of an old stream: `seekElements` `(int)` u32 entries,
      then, up to version 3.80, as many single bytes. A negative count fails
      to allocate. */
  function ReadOldSeekTables(inp: Input, seekElements: int, version: int)
    : (r: Result<Parsed<(seq<int>, Option<seq<uint8>>)>>)
    requires inp.Valid()
    ensures r.Success? ==>
      && seekElements >= 0
      && |r.value.value.0| == seekElements
      && (r.value.value.1.Some? <==> version <= 3800)
      && (r.value.value.1.Some? ==> |r.value.value.1.value| == seekElements)
      && r.value.rest.Valid() && r.value.rest.data == inp.data
  {
    if seekElements < 0 then Failure(NegativeArraySize)
    else
      var seekTable :- PeekInts(inp, seekElements);
      if version <= 3800 then
        var bits :- PeekFully(seekTable.rest, seekElements);
        Success(Parsed((seekTable.value, Some(bits.value)), bits.rest))
      else Success(Parsed((seekTable.value, None), seekTable.rest))
  }

  /** The fields `readOld` feeds the shared arithmetic: the old header's,
      with blocks per frame and bits per sample derived from its version,
      compression level and flags. */
  function OldStream(h: ApeHeaderOld.HeaderOld): Stream
    requires h.InRange()
  {
    Stream(h.version, h.compressionLevel, h.formatFlags, h.totalFrames,
           h.finalFrameBlocks, BlocksPerFrameOld(h.version, h.compressionLevel),
           h.channels, h.sampleRate, BitsPerSampleOld(h.formatFlags),
           h.headerBytes, h.terminatingBytes)
  }

  /** The rest of `readOld` for a stream with frames, once its header,
      peak level and seek-element count are known: the shared arithmetic
      with blocks per frame and bits per sample derived from version and
      flags, the wave header, and the seek tables. */
  function ReadOldFrames(v: Variant, layout: OldLayout, inp: Input, length: int): (r: Result<Parsed<FileInfo>>)
    requires inp.Valid() && layout.header.InRange() && layout.header.totalFrames != 0
    ensures r.Success? ==>
      var info, h := r.value.value, layout.header;
      && info.version == h.version && info.formatFlags == h.formatFlags
      && info.compressionLevel == h.compressionLevel
      && info.totalFrames == ToInt(h.totalFrames) && info.totalFrames != 0
      && info.blocksPerFrame == BlocksPerFrameOld(h.version, h.compressionLevel)
      && info.bitsPerSample == BitsPerSampleOld(h.formatFlags)
      && info.peakLevel == layout.peakLevel && info.seekTableElements == layout.seekElements
      && info.seekByteTable.Some? && |info.seekByteTable.value| == info.seekTableElements
      && (info.seekBitTable.Some? <==> h.version <= 3800)
      && (info.seekBitTable.Some? ==> |info.seekBitTable.value| == info.seekTableElements)
      && (info.waveHeaderData.None? <==> HasFlag(h.formatFlags, MAC_FORMAT_FLAG_CREATE_WAV_HEADER))
      && (v.AsWritten? ==> HasFlag(h.formatFlags, MAC_FORMAT_FLAG_CREATE_WAV_HEADER))
      && info.descriptor.None?
      && r.value.rest.Valid() && r.value.rest.data == inp.data
    ensures r.Success? ==>
      var base := Fill(OldStream(layout.header), length);
      base.Success? && FilledFrom(r.value.value, base.value)
  {
    var h := layout.header;
    NarrowedU32NonZero(h.totalFrames);
    var info :- Fill(OldStream(h), length);
    var wave :- WaveHeader(v, inp, h.formatFlags, h.headerBytes, info.wavHeaderBytes);
    var tables :- ReadOldSeekTables(wave.rest, layout.seekElements, h.version);
    Success(Parsed(
      info.(peakLevel := layout.peakLevel, seekTableElements := layout.seekElements,
            seekByteTable := Some(tables.value.0), seekBitTable := tables.value.1,
            waveHeaderData := wave.value),
      tables.rest))
  }

  /** `readOld`: the old header; a stream with no frames returns the info
      untouched; otherwise an optional peak level, an optional seek-element
      count (else one per frame), and the rest as `ReadOldFrames`. */
  function ReadOld(v: Variant, inp: Input, length: int): (r: Result<Parsed<FileInfo>>)
    requires inp.Valid()
    ensures var header := ReadHeaderOld(v, inp);
      header.Success? && header.value.value.totalFrames == 0 ==>
        r == Success(Parsed(EMPTY_INFO, header.value.rest))
    ensures r.Success? && r.value.value.totalFrames != 0 ==>
      var info := r.value.value;
      && 0 <= info.formatFlags < TWO_16
      && info.blocksPerFrame == BlocksPerFrameOld(info.version, info.compressionLevel)
      && info.bitsPerSample == BitsPerSampleOld(info.formatFlags)
      && (!HasFlag(info.formatFlags, MAC_FORMAT_FLAG_HAS_PEAK_LEVEL) ==> info.peakLevel == -1)
      && (!HasFlag(info.formatFlags, MAC_FORMAT_FLAG_HAS_SEEK_ELEMENTS) ==>
            info.seekTableElements == info.totalFrames)
      && info.seekByteTable.Some? && |info.seekByteTable.value| == info.seekTableElements
      && (info.seekBitTable.Some? <==> info.version <= 3800)
      && (info.waveHeaderData.None? <==> HasFlag(info.formatFlags, MAC_FORMAT_FLAG_CREATE_WAV_HEADER))
      && (v.AsWritten? ==> HasFlag(info.formatFlags, MAC_FORMAT_FLAG_CREATE_WAV_HEADER))
    ensures r.Success? && r.value.value.totalFrames != 0 ==>
      var header := ReadHeaderOld(v, inp);
      && header.Success?
      && var base := Fill(OldStream(header.value.value), length);
      && base.Success? && FilledFrom(r.value.value, base.value)
    ensures r.Success? ==> r.value.value.descriptor.None?
    ensures r.Success? ==> (r.value.value.totalFrames == 0 <==> r.value.value == EMPTY_INFO)
    ensures r.Success? ==> r.value.rest.Valid() && r.value.rest.data == inp.data
  {
    match ReadHeaderOld(v, inp)
    case Failure(e) => Failure(e)
    case Success(header) =>
      var h := header.value;
      if h.totalFrames == 0 then Success(Parsed(EMPTY_INFO, header.rest))
      else
        match ReadOldExtras(h, header.rest)
        case Failure(e) => Failure(e)
        case Success(extras) => ReadOldFrames(v, extras.value, extras.rest, length)
  }

  /** `APEReader.read`: the sniffed version picks the layout, so a stream
      read successfully carries a descriptor exactly when its sniffed
      version is 3.98 or later. `length` is what the input reports as its
      total length (`C.LENGTH_UNSET`, -1, when unknown). */
  function Read(v: Variant, reader: Reader, length: int): (r: Result<Parsed<FileInfo>>)
    requires reader.input.Valid()
    ensures r.Success? ==>
      (r.value.value.descriptor.Some? <==> reader.version >= DESCRIPTOR_VERSION)
    ensures r.Success? && v.AsWritten? ==>
      r.value.value == EMPTY_INFO
      || (0 <= r.value.value.formatFlags < TWO_16
          && HasFlag(r.value.value.formatFlags, MAC_FORMAT_FLAG_CREATE_WAV_HEADER))
  {
    if reader.version >= DESCRIPTOR_VERSION then ReadNew(v, reader.input, length)
    else ReadOld(v, reader.input, length)
  }
}
