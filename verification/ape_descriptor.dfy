/** APEDescriptor: the 52-byte record that opens files of version 3.98
    and later — a 4-character ID ("MAC "), a u16 version, two bytes of
    padding, seven u32 byte counters and a 16-byte MD5. The ID is read but
    never compared with "MAC " here.

    As written, the parser's ID read consumes one byte instead of four, and
    the padding is skipped with `skip(2)`, which moves the read cursor two
    bytes past where it stood and resets the peek cursor there. Every later
    field is therefore decoded from the wrong offset. `Read` models
    the code as written; `ReadIntended` is the layout the field widths and
    `APE_DESCRIPTOR_BYTES` describe. */
module ApeDescriptor {
  import opened Wrappers
  import opened JavaInt
  import opened ExtractorInput
  import opened InputWrapper

  const APE_DESCRIPTOR_BYTES: int := 52

  datatype Descriptor = Descriptor(
    id: string,                 // char[4], expected to be "MAC "
    version: int,               // u16, version * 1000
    descriptorBytes: int,       // u32 counters, each held in a Java long
    headerBytes: int,
    seekTableBytes: int,
    headerDataBytes: int,
    frameDataBytes: int,
    frameDataBytesHigh: int,
    terminatingDataBytes: int,
    md5: seq<uint8>)            // unsigned char[16]
  {
    /** Each counter is a u32 and the MD5 has 16 bytes. */
    predicate CountersInRange() {
      && 0 <= descriptorBytes < TWO_32 && 0 <= headerBytes < TWO_32
      && 0 <= seekTableBytes < TWO_32 && 0 <= headerDataBytes < TWO_32
      && 0 <= frameDataBytes < TWO_32 && 0 <= frameDataBytesHigh < TWO_32
      && 0 <= terminatingDataBytes < TWO_32
      && |md5| == 16
    }

    /** The version is a u16, and the counters and MD5 are in range. */
    predicate InRange() {
      0 <= version < TWO_16 && CountersInRange()
    }
  }

  /** The declared widths of the fields: ID, version, padding, seven
      counters and the MD5. */
  const FIELD_WIDTHS: seq<int> := [4, 2, 2, 4, 4, 4, 4, 4, 4, 4, 16]

  function SumOf(xs: seq<int>): int {
    if |xs| == 0 then 0 else xs[0] + SumOf(xs[1..])
  }

  /** The declared field widths add up to `APE_DESCRIPTOR_BYTES`. */
  lemma DeclaredWidthsFillDescriptor()
    ensures SumOf(FIELD_WIDTHS) == APE_DESCRIPTOR_BYTES
  {
    var w := FIELD_WIDTHS;
    assert w[1..][1..][1..][1..][1..][1..][1..][1..][1..][1..][1..] == [];
  }

  /** The seven u32 counters and the MD5 of a descriptor, in record order. */
  type CounterFields = (int, int, int, int, int, int, int, seq<uint8>)

  function CountersOf(h: Descriptor): CounterFields {
    (h.descriptorBytes, h.headerBytes, h.seekTableBytes, h.headerDataBytes,
     h.frameDataBytes, h.frameDataBytesHigh, h.terminatingDataBytes, h.md5)
  }

  /** The 44 bytes of `d` from `at` decoded as seven little-endian u32
      counters followed by the 16-byte MD5. */
  function DecodeCounters(d: seq<uint8>, at: nat): CounterFields
    requires at + 44 <= |d|
  {
    (FieldAt(d, at, 4), FieldAt(d, at + 4, 4), FieldAt(d, at + 8, 4), FieldAt(d, at + 12, 4),
     FieldAt(d, at + 16, 4), FieldAt(d, at + 20, 4), FieldAt(d, at + 24, 4), d[at + 28 .. at + 44])
  }

  /** The part both layouts share: seven u32 counters then a 16-byte MD5,
      44 bytes from the peek cursor. */
  function ReadCounters(inp: Input, id: string, version: int): (r: Result<Parsed<Descriptor>>)
    requires inp.Valid()
    ensures r.Success? <==> 44 <= inp.PeekRemaining()
    ensures r.Failure? ==> r.error == EndOfInput
    ensures r.Success? ==>
      var q, d, h := inp.peekPosition, inp.data, r.value.value;
      && h.id == id && h.version == version
      && h.CountersInRange() && CountersOf(h) == DecodeCounters(d, q)
      && Advanced(inp, r.value.rest, 44) && r.value.rest.Valid()
  {
    var descriptorBytes :- ReadUnsignedInt(inp);
    var headerBytes :- ReadUnsignedInt(descriptorBytes.rest);
    var seekTableBytes :- ReadUnsignedInt(headerBytes.rest);
    var headerDataBytes :- ReadUnsignedInt(seekTableBytes.rest);
    var frameDataBytes :- ReadUnsignedInt(headerDataBytes.rest);
    var frameDataBytesHigh :- ReadUnsignedInt(frameDataBytes.rest);
    var terminatingDataBytes :- ReadUnsignedInt(frameDataBytesHigh.rest);
    var md5 :- PeekFully(terminatingDataBytes.rest, 16);
    Success(Parsed(
      Descriptor(id, version, descriptorBytes.value, headerBytes.value, seekTableBytes.value,
                 headerDataBytes.value, frameDataBytes.value, frameDataBytesHigh.value,
                 terminatingDataBytes.value, md5.value),
      md5.rest))
  }

  /** The first two reads of `APEDescriptor.read` as written: a one-byte ID
      padded with NULs, then the u16 version, both peeked. */
  function ReadIdAndVersion(inp: Input): (r: Result<Parsed<(string, int)>>)
    requires inp.Valid()
    ensures r.Success? <==> 3 <= inp.PeekRemaining()
    ensures r.Success? ==>
      var q, d, id := inp.peekPosition, inp.data, r.value.value.0;
      && |id| == 4 && id[0] == AsciiChar(d[q]) && id[1..] == "\0\0\0"
      && 0 <= r.value.value.1 < TWO_16 && r.value.value.1 == FieldAt(d, q + 1, 2)
      && Advanced(inp, r.value.rest, 3) && r.value.rest.Valid()
  {
    var id :- ReadString(inp, 4);
    assert id.value[1..] == "\0\0\0";
    var version :- ReadUnsignedShort(id.rest);
    Success(Parsed((id.value, version.value), version.rest))
  }

  /** The rest of `APEDescriptor.read` as written: `skip(2)` moves the read
      cursor two bytes on and resets the peek cursor there, whatever had
      been peeked, and the counters are read from that point. */
  function SkipThenReadCounters(inp: Input, id: string, version: int): (r: Result<Parsed<Descriptor>>)
    requires inp.Valid()
    ensures r.Success? <==> 46 <= |inp.data| - inp.position
    ensures r.Success? ==>
      var p, d, h := inp.position, inp.data, r.value.value;
      && h.id == id && h.version == version
      && h.CountersInRange() && CountersOf(h) == DecodeCounters(d, p + 2)
      && r.value.rest == Input(d, p + 2, p + 46)
  {
    var gap := Skip(inp, 2);
    assert 2 <= |inp.data| - inp.position ==> gap == Input(inp.data, inp.position + 2, inp.position + 2);
    ReadCounters(gap, id, version)
  }

  /** `APEDescriptor.read` as written. The ID read peeks one byte and the
      version the next two, both from the peek cursor. `skip(2)` then moves
      the read cursor two bytes on and resets the peek cursor there, so the
      counters and the MD5 are read from the read cursor plus two: the
      record spans 46 bytes from the read cursor. */
  function Read(inp: Input): (r: Result<Parsed<Descriptor>>)
    requires inp.Valid()
    ensures r.Success? <==> 3 <= inp.PeekRemaining() && 46 <= |inp.data| - inp.position
    ensures r.Success? ==>
      var p, q, d, h := inp.position, inp.peekPosition, inp.data, r.value.value;
      && h.InRange()
      && |h.id| == 4 && h.id[0] == AsciiChar(d[q]) && h.id[1..] == "\0\0\0"
      && h.version == FieldAt(d, q + 1, 2)
      && CountersOf(h) == DecodeCounters(d, p + 2)
      && r.value.rest == Input(d, p + 2, p + 46)
  {
    match ReadIdAndVersion(inp)
    case Failure(e) => Failure(e)
    case Success(head) =>
      var r := SkipThenReadCounters(head.rest, head.value.0, head.value.1);
      PeekIgnored(inp, head.rest, r);
      r
  }

  /** What `SkipThenReadCounters` promises about an input holds of any input
      with the same data and read cursor, whatever its peek cursor. */
  lemma PeekIgnored(inp: Input, peeked: Input, r: Result<Parsed<Descriptor>>)
    requires peeked.data == inp.data && peeked.position == inp.position
    requires r.Success? <==> 46 <= |peeked.data| - peeked.position
    requires r.Success? ==>
      && CountersOf(r.value.value) == DecodeCounters(peeked.data, peeked.position + 2)
      && r.value.rest == Input(peeked.data, peeked.position + 2, peeked.position + 46)
    ensures r.Success? <==> 46 <= |inp.data| - inp.position
    ensures r.Success? ==>
      && CountersOf(r.value.value) == DecodeCounters(inp.data, inp.position + 2)
      && r.value.rest == Input(inp.data, inp.position + 2, inp.position + 46)
  {
  }

  /** The evident intent of `APEDescriptor.read`: a four-byte ID, the
      version, two bytes of padding passed over on the peek cursor, then
      the counters — exactly `APE_DESCRIPTOR_BYTES` bytes from the peek
      cursor, leaving the read cursor alone. */
  function ReadIntended(inp: Input): (r: Result<Parsed<Descriptor>>)
    requires inp.Valid()
    ensures r.Success? <==> APE_DESCRIPTOR_BYTES <= inp.PeekRemaining()
    ensures r.Success? ==>
      var q, d, h := inp.peekPosition, inp.data, r.value.value;
      && h.InRange()
      && h.id == DecodeAscii(d[q .. q + 4])
      && h.version == FieldAt(d, q + 4, 2)
      && CountersOf(h) == DecodeCounters(d, q + 8)
      && Advanced(inp, r.value.rest, APE_DESCRIPTOR_BYTES)
  {
    var id :- ReadStringIntended(inp, 4);
    var version :- ReadUnsignedShort(id.rest);
    var gap :- AdvancePeekPosition(version.rest, 2);
    ReadCounters(gap, id.value, version.value)
  }

  /** The bytes of a descriptor laid out as `ReadIntended` expects, with
      zero padding. */
  function Write(h: Descriptor): (bs: seq<uint8>)
    requires h.InRange() && |h.id| == 4 && IsAscii(h.id)
    ensures |bs| == APE_DESCRIPTOR_BYTES
  {
    AsciiBytes(h.id) + Encode(h.version, 2) + [0, 0]
    + Encode(h.descriptorBytes, 4) + Encode(h.headerBytes, 4) + Encode(h.seekTableBytes, 4)
    + Encode(h.headerDataBytes, 4) + Encode(h.frameDataBytes, 4) + Encode(h.frameDataBytesHigh, 4)
    + Encode(h.terminatingDataBytes, 4) + h.md5
  }

  /** The intended reader returns every written descriptor and stops right
      after its 52 bytes. */
  lemma ReadIntendedWrite(h: Descriptor, tail: seq<uint8>)
    requires h.InRange() && |h.id| == 4 && IsAscii(h.id)
    ensures ReadIntended(Fresh(Write(h) + tail))
         == Success(Parsed(h, Input(Write(h) + tail, 0, APE_DESCRIPTOR_BYTES)))
  {
    WrittenFirstFields(h, tail);
    WrittenMiddleFields(h, tail);
    WrittenLastFields(h, tail);
    ReadFinds(Write(h) + tail, h);
  }

  /** Input whose fields hold the values of `h` reads as `h`. */
  lemma ReadFinds(d: seq<uint8>, h: Descriptor)
    requires APE_DESCRIPTOR_BYTES <= |d|
    requires DecodeAscii(d[0..4]) == h.id
    requires FieldAt(d, 4, 2) == h.version
    requires FieldAt(d, 8, 4) == h.descriptorBytes
    requires FieldAt(d, 12, 4) == h.headerBytes
    requires FieldAt(d, 16, 4) == h.seekTableBytes
    requires FieldAt(d, 20, 4) == h.headerDataBytes
    requires FieldAt(d, 24, 4) == h.frameDataBytes
    requires FieldAt(d, 28, 4) == h.frameDataBytesHigh
    requires FieldAt(d, 32, 4) == h.terminatingDataBytes
    requires d[36..52] == h.md5
    ensures ReadIntended(Fresh(d)) == Success(Parsed(h, Input(d, 0, APE_DESCRIPTOR_BYTES)))
  {
    var r := ReadIntended(Fresh(d));
    assert r.Success?;
    assert CountersOf(r.value.value) == DecodeCounters(d, 8) == CountersOf(h);
  }

  /** Each field of a written record decodes from its offset. */
  lemma WrittenFirstFields(h: Descriptor, tail: seq<uint8>)
    requires h.InRange() && |h.id| == 4 && IsAscii(h.id)
    ensures var d := Write(h) + tail;
      && DecodeAscii(d[0..4]) == h.id
      && FieldAt(d, 4, 2) == h.version
      && FieldAt(d, 8, 4) == h.descriptorBytes
      && FieldAt(d, 12, 4) == h.headerBytes
  {
    var d := Write(h) + tail;
    assert d[0..4] == AsciiBytes(h.id);
    assert d[4..6] == Encode(h.version, 2);
    U16At(d, 4, h.version);
    assert d[8..12] == Encode(h.descriptorBytes, 4);
    U32At(d, 8, h.descriptorBytes);
    assert d[12..16] == Encode(h.headerBytes, 4);
    U32At(d, 12, h.headerBytes);
  }

  lemma WrittenMiddleFields(h: Descriptor, tail: seq<uint8>)
    requires h.InRange() && |h.id| == 4 && IsAscii(h.id)
    ensures var d := Write(h) + tail;
      && FieldAt(d, 16, 4) == h.seekTableBytes
      && FieldAt(d, 20, 4) == h.headerDataBytes
      && FieldAt(d, 24, 4) == h.frameDataBytes
      && FieldAt(d, 28, 4) == h.frameDataBytesHigh
  {
    var d := Write(h) + tail;
    assert d[16..20] == Encode(h.seekTableBytes, 4);
    U32At(d, 16, h.seekTableBytes);
    assert d[20..24] == Encode(h.headerDataBytes, 4);
    U32At(d, 20, h.headerDataBytes);
    assert d[24..28] == Encode(h.frameDataBytes, 4);
    U32At(d, 24, h.frameDataBytes);
    assert d[28..32] == Encode(h.frameDataBytesHigh, 4);
    U32At(d, 28, h.frameDataBytesHigh);
  }

  lemma WrittenLastFields(h: Descriptor, tail: seq<uint8>)
    requires h.InRange() && |h.id| == 4 && IsAscii(h.id)
    ensures var d := Write(h) + tail;
      && FieldAt(d, 32, 4) == h.terminatingDataBytes
      && d[36..52] == h.md5
  {
    var d := Write(h) + tail;
    assert d[32..36] == Encode(h.terminatingDataBytes, 4);
    U32At(d, 32, h.terminatingDataBytes);
    assert d[36..52] == h.md5;
  }

  /** As written, a file that starts with "MAC " and a real version number
      always reports version 0x4341 — the bytes "AC" of the magic — and an
      ID of "M" and three NULs, whatever version the file carries. */
  lemma ReadMisplacesVersion(version: int, rest: seq<uint8>)
    requires 0 <= version < TWO_16 && |rest| >= 40
    ensures var r := Read(Fresh(AsciiBytes("MAC ") + Encode(version, 2) + rest));
      && r.Success?
      && r.value.value.version == 0x4341
      && r.value.value.id == "M\0\0\0"
  {
    var d := AsciiBytes("MAC ") + Encode(version, 2) + rest;
    assert d[..4] == AsciiBytes("MAC ");
    MagicMisread(d);
  }

  /** Any input that starts with "MAC " is read with the version taken from
      its bytes "AC". */
  lemma MagicMisread(d: seq<uint8>)
    requires |d| >= 46 && d[..4] == AsciiBytes("MAC ")
    ensures var r := Read(Fresh(d));
      && r.Success?
      && r.value.value.version == 0x4341
      && r.value.value.id == "M\0\0\0"
  {
    MagicFields(d);
    assert Read(Fresh(d)).value.value.id == "M\0\0\0";
  }
}
