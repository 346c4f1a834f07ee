/** APEHeaderOld: the 32-byte header of files older than version 3.98 — a
    4-character ID ("MAC "), four u16 fields and five u32 fields. The ID is
    read but not compared with "MAC " here.

    As written, the ID read consumes one byte instead of four, so every
    later field comes from three bytes too early and the header spans 29
    bytes. `Read` models the code as written; `ReadIntended` is the layout
    `APE_HEADER_OLD_BYTES` describes. */
module ApeHeaderOld {
  import opened Wrappers
  import opened JavaInt
  import opened ExtractorInput
  import opened InputWrapper

  const APE_HEADER_OLD_BYTES: int := 32

  datatype HeaderOld = HeaderOld(
    id: string,              // char[4], expected to be "MAC "
    version: int,            // u16, version * 1000
    compressionLevel: int,   // u16
    formatFlags: int,        // u16
    channels: int,           // u16
    sampleRate: int,         // u32, held in a Java long
    headerBytes: int,        // u32, held in a Java long
    terminatingBytes: int,   // u32, held in a Java long
    totalFrames: int,        // u32, held in a Java long
    finalFrameBlocks: int)   // u32, held in a Java long
  {
    /** Every u16 field is in [0, 2^16) and every u32 field in [0, 2^32). */
    predicate InRange() {
      && 0 <= version < TWO_16 && 0 <= compressionLevel < TWO_16
      && 0 <= formatFlags < TWO_16 && 0 <= channels < TWO_16
      && 0 <= sampleRate < TWO_32 && 0 <= headerBytes < TWO_32
      && 0 <= terminatingBytes < TWO_32 && 0 <= totalFrames < TWO_32
      && 0 <= finalFrameBlocks < TWO_32
    }
  }

  /** Everything after the ID: 28 bytes from the peek cursor. */
  function ReadFields(inp: Input, id: string): (r: Result<Parsed<HeaderOld>>)
    requires inp.Valid()
    ensures r.Success? <==> 28 <= inp.PeekRemaining()
    ensures r.Failure? ==> r.error == EndOfInput
    ensures r.Success? ==>
      var q, d, h := inp.peekPosition, inp.data, r.value.value;
      && h.InRange() && h.id == id
      && h.version == FieldAt(d, q, 2)
      && h.compressionLevel == FieldAt(d, q + 2, 2)
      && h.formatFlags == FieldAt(d, q + 4, 2)
      && h.channels == FieldAt(d, q + 6, 2)
      && h.sampleRate == FieldAt(d, q + 8, 4)
      && h.headerBytes == FieldAt(d, q + 12, 4)
      && h.terminatingBytes == FieldAt(d, q + 16, 4)
      && h.totalFrames == FieldAt(d, q + 20, 4)
      && h.finalFrameBlocks == FieldAt(d, q + 24, 4)
      && Advanced(inp, r.value.rest, 28)
  {
    var version :- ReadUnsignedShort(inp);
    var compression :- ReadUnsignedShort(version.rest);
    var flags :- ReadUnsignedShort(compression.rest);
    var channels :- ReadUnsignedShort(flags.rest);
    var sampleRate :- ReadUnsignedInt(channels.rest);
    var headerBytes :- ReadUnsignedInt(sampleRate.rest);
    var terminatingBytes :- ReadUnsignedInt(headerBytes.rest);
    var totalFrames :- ReadUnsignedInt(terminatingBytes.rest);
    var finalFrameBlocks :- ReadUnsignedInt(totalFrames.rest);
    Success(Parsed(
      HeaderOld(id, version.value, compression.value, flags.value, channels.value,
                sampleRate.value, headerBytes.value, terminatingBytes.value,
                totalFrames.value, finalFrameBlocks.value),
      finalFrameBlocks.rest))
  }

  /** `APEHeaderOld.read` as written: the ID read peeks one byte, so the
      version is decoded from bytes 1-2 of the record and the whole header
      spans 29 bytes from the peek cursor. */
  function Read(inp: Input): (r: Result<Parsed<HeaderOld>>)
    requires inp.Valid()
    ensures r.Success? <==> 29 <= inp.PeekRemaining()
    ensures r.Failure? ==> r.error == EndOfInput
    ensures r.Success? ==>
      var q, d, h := inp.peekPosition, inp.data, r.value.value;
      && h.InRange()
      && |h.id| == 4 && h.id[0] == AsciiChar(d[q]) && h.id[1..] == "\0\0\0"
      && h.version == FieldAt(d, q + 1, 2)
      && h.compressionLevel == FieldAt(d, q + 3, 2)
      && h.formatFlags == FieldAt(d, q + 5, 2)
      && h.channels == FieldAt(d, q + 7, 2)
      && h.sampleRate == FieldAt(d, q + 9, 4)
      && h.headerBytes == FieldAt(d, q + 13, 4)
      && h.terminatingBytes == FieldAt(d, q + 17, 4)
      && h.totalFrames == FieldAt(d, q + 21, 4)
      && h.finalFrameBlocks == FieldAt(d, q + 25, 4)
      && Advanced(inp, r.value.rest, 29)
  {
    var id :- ReadString(inp, 4);
    ReadFields(id.rest, id.value)
  }

  /** The evident intent of `APEHeaderOld.read`: a four-byte ID and then the
      fields, exactly `APE_HEADER_OLD_BYTES` bytes from the peek cursor. */
  function ReadIntended(inp: Input): (r: Result<Parsed<HeaderOld>>)
    requires inp.Valid()
    ensures r.Success? <==> APE_HEADER_OLD_BYTES <= inp.PeekRemaining()
    ensures r.Failure? ==> r.error == EndOfInput
    ensures r.Success? ==>
      var q, d, h := inp.peekPosition, inp.data, r.value.value;
      && h.InRange()
      && h.id == DecodeAscii(d[q .. q + 4])
      && h.version == FieldAt(d, q + 4, 2)
      && h.compressionLevel == FieldAt(d, q + 6, 2)
      && h.formatFlags == FieldAt(d, q + 8, 2)
      && h.channels == FieldAt(d, q + 10, 2)
      && h.sampleRate == FieldAt(d, q + 12, 4)
      && h.headerBytes == FieldAt(d, q + 16, 4)
      && h.terminatingBytes == FieldAt(d, q + 20, 4)
      && h.totalFrames == FieldAt(d, q + 24, 4)
      && h.finalFrameBlocks == FieldAt(d, q + 28, 4)
      && Advanced(inp, r.value.rest, APE_HEADER_OLD_BYTES)
  {
    var id :- ReadStringIntended(inp, 4);
    ReadFields(id.rest, id.value)
  }

  /** The 32 bytes that `ReadIntended` decodes into `h`. */
  function Write(h: HeaderOld): (bs: seq<uint8>)
    requires h.InRange() && |h.id| == 4 && IsAscii(h.id)
    ensures |bs| == APE_HEADER_OLD_BYTES
  {
    AsciiBytes(h.id)
    + Encode(h.version, 2) + Encode(h.compressionLevel, 2)
    + Encode(h.formatFlags, 2) + Encode(h.channels, 2)
    + Encode(h.sampleRate, 4) + Encode(h.headerBytes, 4) + Encode(h.terminatingBytes, 4)
    + Encode(h.totalFrames, 4) + Encode(h.finalFrameBlocks, 4)
  }

  /** The intended reader gives back every written header and stops right
      after its 32 bytes. */
  lemma ReadIntendedWrite(h: HeaderOld, tail: seq<uint8>)
    requires h.InRange() && |h.id| == 4 && IsAscii(h.id)
    ensures ReadIntended(Fresh(Write(h) + tail))
         == Success(Parsed(h, Input(Write(h) + tail, 0, APE_HEADER_OLD_BYTES)))
  {
    WrittenFirstFields(h, tail);
    WrittenMiddleFields(h, tail);
    WrittenLastFields(h, tail);
    ReadFinds(Write(h) + tail, h);
  }

  /** Input whose fields hold the values of `h` reads as `h`. */
  lemma ReadFinds(d: seq<uint8>, h: HeaderOld)
    requires APE_HEADER_OLD_BYTES <= |d|
    requires DecodeAscii(d[0..4]) == h.id
    requires FieldAt(d, 4, 2) == h.version
    requires FieldAt(d, 6, 2) == h.compressionLevel
    requires FieldAt(d, 8, 2) == h.formatFlags
    requires FieldAt(d, 10, 2) == h.channels
    requires FieldAt(d, 12, 4) == h.sampleRate
    requires FieldAt(d, 16, 4) == h.headerBytes
    requires FieldAt(d, 20, 4) == h.terminatingBytes
    requires FieldAt(d, 24, 4) == h.totalFrames
    requires FieldAt(d, 28, 4) == h.finalFrameBlocks
    ensures ReadIntended(Fresh(d)) == Success(Parsed(h, Input(d, 0, APE_HEADER_OLD_BYTES)))
  {
  }

  /** Each field of a written record decodes from its offset. */
  lemma WrittenFirstFields(h: HeaderOld, tail: seq<uint8>)
    requires h.InRange() && |h.id| == 4 && IsAscii(h.id)
    ensures var d := Write(h) + tail;
      && DecodeAscii(d[0..4]) == h.id
      && FieldAt(d, 4, 2) == h.version
      && FieldAt(d, 6, 2) == h.compressionLevel
      && FieldAt(d, 8, 2) == h.formatFlags
  {
    var d := Write(h) + tail;
    assert d[0..4] == AsciiBytes(h.id);
    assert d[4..6] == Encode(h.version, 2);
    U16At(d, 4, h.version);
    assert d[6..8] == Encode(h.compressionLevel, 2);
    U16At(d, 6, h.compressionLevel);
    assert d[8..10] == Encode(h.formatFlags, 2);
    U16At(d, 8, h.formatFlags);
  }

  lemma WrittenMiddleFields(h: HeaderOld, tail: seq<uint8>)
    requires h.InRange() && |h.id| == 4 && IsAscii(h.id)
    ensures var d := Write(h) + tail;
      && FieldAt(d, 10, 2) == h.channels
      && FieldAt(d, 12, 4) == h.sampleRate
      && FieldAt(d, 16, 4) == h.headerBytes
      && FieldAt(d, 20, 4) == h.terminatingBytes
  {
    var d := Write(h) + tail;
    assert d[10..12] == Encode(h.channels, 2);
    U16At(d, 10, h.channels);
    assert d[12..16] == Encode(h.sampleRate, 4);
    U32At(d, 12, h.sampleRate);
    assert d[16..20] == Encode(h.headerBytes, 4);
    U32At(d, 16, h.headerBytes);
    assert d[20..24] == Encode(h.terminatingBytes, 4);
    U32At(d, 20, h.terminatingBytes);
  }

  lemma WrittenLastFields(h: HeaderOld, tail: seq<uint8>)
    requires h.InRange() && |h.id| == 4 && IsAscii(h.id)
    ensures var d := Write(h) + tail;
      && FieldAt(d, 24, 4) == h.totalFrames
      && FieldAt(d, 28, 4) == h.finalFrameBlocks
  {
    var d := Write(h) + tail;
    assert d[24..28] == Encode(h.totalFrames, 4);
    U32At(d, 24, h.totalFrames);
    assert d[28..32] == Encode(h.finalFrameBlocks, 4);
    U32At(d, 28, h.finalFrameBlocks);
  }

  /** As written, every header that starts with "MAC " reports version
      0x4341 — the bytes "AC" of its own ID — whatever it carries. */
  lemma ReadMisplacesVersion(rest: seq<uint8>)
    requires |rest| >= 25
    ensures var r := Read(Fresh(AsciiBytes("MAC ") + rest));
      && r.Success?
      && r.value.value.version == 0x4341
      && r.value.value.id == "M\0\0\0"
  {
    var d := AsciiBytes("MAC ") + rest;
    assert d[..4] == AsciiBytes("MAC ");
    MagicMisread(d);
  }

  /** Any input that starts with "MAC " is read with the version taken from
      its bytes "AC". */
  lemma MagicMisread(d: seq<uint8>)
    requires |d| >= 29 && d[..4] == AsciiBytes("MAC ")
    ensures var r := Read(Fresh(d));
      && r.Success?
      && r.value.value.version == 0x4341
      && r.value.value.id == "M\0\0\0"
  {
    MagicFields(d);
    assert Read(Fresh(d)).value.value.id == "M\0\0\0";
  }
}
