/** APEHeaderNew: the fixed 24-byte header that follows the descriptor in
    files of version 3.98 and later. It has no magic of its own; parsing
    starts at the first field and validates nothing. */
module ApeHeaderNew {
  import opened Wrappers
  import opened JavaInt
  import opened ExtractorInput
  import opened InputWrapper

  const APE_HEADER_BYTES: int := 24

  datatype HeaderNew = HeaderNew(
    compressionLevel: int,   // u16
    formatFlags: int,        // u16
    blocksPerFrame: int,     // u32, held in a Java long
    finalFrameBlocks: int,   // u32, held in a Java long
    totalFrames: int,        // u32, held in a Java long
    bitsPerSample: int,      // u16
    channels: int,           // u16
    sampleRate: int)         // u32, held in a Java long
  {
    /** Every u16 field is in [0, 2^16) and every u32 field in [0, 2^32). */
    predicate InRange() {
      && 0 <= compressionLevel < TWO_16 && 0 <= formatFlags < TWO_16
      && 0 <= blocksPerFrame < TWO_32 && 0 <= finalFrameBlocks < TWO_32
      && 0 <= totalFrames < TWO_32
      && 0 <= bitsPerSample < TWO_16 && 0 <= channels < TWO_16
      && 0 <= sampleRate < TWO_32
    }
  }

  /** `APEHeaderNew.read`: eight unsigned fields in a row. The header
      occupies exactly the 24 bytes at the peek cursor, field `k` at the
      offset given by the widths of the fields before it. */
  function Read(inp: Input): (r: Result<Parsed<HeaderNew>>)
    requires inp.Valid()
    ensures r.Success? <==> APE_HEADER_BYTES <= inp.PeekRemaining()
    ensures r.Failure? ==> r.error == EndOfInput
    ensures r.Success? ==>
      var q, d, h := inp.peekPosition, inp.data, r.value.value;
      && h.InRange()
      && h.compressionLevel == FieldAt(d, q, 2)
      && h.formatFlags == FieldAt(d, q + 2, 2)
      && h.blocksPerFrame == FieldAt(d, q + 4, 4)
      && h.finalFrameBlocks == FieldAt(d, q + 8, 4)
      && h.totalFrames == FieldAt(d, q + 12, 4)
      && h.bitsPerSample == FieldAt(d, q + 16, 2)
      && h.channels == FieldAt(d, q + 18, 2)
      && h.sampleRate == FieldAt(d, q + 20, 4)
      && Advanced(inp, r.value.rest, APE_HEADER_BYTES)
  {
    var compression :- ReadUnsignedShort(inp);
    var flags :- ReadUnsignedShort(compression.rest);
    var blocksPerFrame :- ReadUnsignedInt(flags.rest);
    var finalFrameBlocks :- ReadUnsignedInt(blocksPerFrame.rest);
    var totalFrames :- ReadUnsignedInt(finalFrameBlocks.rest);
    var bits :- ReadUnsignedShort(totalFrames.rest);
    var channels :- ReadUnsignedShort(bits.rest);
    var sampleRate :- ReadUnsignedInt(channels.rest);
    Success(Parsed(
      HeaderNew(compression.value, flags.value, blocksPerFrame.value, finalFrameBlocks.value,
                totalFrames.value, bits.value, channels.value, sampleRate.value),
      sampleRate.rest))
  }

  /** The 24 bytes that `Read` decodes into `h`. */
  function Write(h: HeaderNew): (bs: seq<uint8>)
    requires h.InRange()
    ensures |bs| == APE_HEADER_BYTES
  {
    Encode(h.compressionLevel, 2) + Encode(h.formatFlags, 2)
    + Encode(h.blocksPerFrame, 4) + Encode(h.finalFrameBlocks, 4) + Encode(h.totalFrames, 4)
    + Encode(h.bitsPerSample, 2) + Encode(h.channels, 2) + Encode(h.sampleRate, 4)
  }

  /** Reading a written header gives it back and stops right after it. */
  lemma ReadWrite(h: HeaderNew, tail: seq<uint8>)
    requires h.InRange()
    ensures Read(Fresh(Write(h) + tail))
         == Success(Parsed(h, Input(Write(h) + tail, 0, APE_HEADER_BYTES)))
  {
    WrittenFirstFields(h, tail);
    WrittenLastFields(h, tail);
    ReadFinds(Write(h) + tail, h);
  }

  /** Input whose fields hold the values of `h` reads as `h`. */
  lemma ReadFinds(d: seq<uint8>, h: HeaderNew)
    requires APE_HEADER_BYTES <= |d|
    requires FieldAt(d, 0, 2) == h.compressionLevel
    requires FieldAt(d, 2, 2) == h.formatFlags
    requires FieldAt(d, 4, 4) == h.blocksPerFrame
    requires FieldAt(d, 8, 4) == h.finalFrameBlocks
    requires FieldAt(d, 12, 4) == h.totalFrames
    requires FieldAt(d, 16, 2) == h.bitsPerSample
    requires FieldAt(d, 18, 2) == h.channels
    requires FieldAt(d, 20, 4) == h.sampleRate
    ensures Read(Fresh(d)) == Success(Parsed(h, Input(d, 0, APE_HEADER_BYTES)))
  {
  }

  /** Each field of a written record decodes from its offset. */
  lemma WrittenFirstFields(h: HeaderNew, tail: seq<uint8>)
    requires h.InRange()
    ensures var d := Write(h) + tail;
      && FieldAt(d, 0, 2) == h.compressionLevel
      && FieldAt(d, 2, 2) == h.formatFlags
      && FieldAt(d, 4, 4) == h.blocksPerFrame
      && FieldAt(d, 8, 4) == h.finalFrameBlocks
  {
    var d := Write(h) + tail;
    assert d[0..2] == Encode(h.compressionLevel, 2);
    U16At(d, 0, h.compressionLevel);
    assert d[2..4] == Encode(h.formatFlags, 2);
    U16At(d, 2, h.formatFlags);
    assert d[4..8] == Encode(h.blocksPerFrame, 4);
    U32At(d, 4, h.blocksPerFrame);
    assert d[8..12] == Encode(h.finalFrameBlocks, 4);
    U32At(d, 8, h.finalFrameBlocks);
  }

  lemma WrittenLastFields(h: HeaderNew, tail: seq<uint8>)
    requires h.InRange()
    ensures var d := Write(h) + tail;
      && FieldAt(d, 12, 4) == h.totalFrames
      && FieldAt(d, 16, 2) == h.bitsPerSample
      && FieldAt(d, 18, 2) == h.channels
      && FieldAt(d, 20, 4) == h.sampleRate
  {
    var d := Write(h) + tail;
    assert d[12..16] == Encode(h.totalFrames, 4);
    U32At(d, 12, h.totalFrames);
    assert d[16..18] == Encode(h.bitsPerSample, 2);
    U16At(d, 16, h.bitsPerSample);
    assert d[18..20] == Encode(h.channels, 2);
    U16At(d, 18, h.channels);
    assert d[20..24] == Encode(h.sampleRate, 4);
    U32At(d, 20, h.sampleRate);
  }
}
