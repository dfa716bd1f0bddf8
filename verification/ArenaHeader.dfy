/**
 The fixed 128-byte header at the start of every arena file: magic number and
 version, the trace it belongs to, where the data begins and how far it has been
 written, and the capacity the file was created with, each at its own offset and
 padded to alignment. It is read back field by field, and checked before an
 arena is opened.
 */
module ArenaHeader {
  import opened Prelude
  import opened Bytes

  const ARENA_MAGIC: nat := 0x5845_5256_4152_454E
  const ARENA_VERSION: nat := 1
  const HEADER_SIZE: nat := 128

  datatype Header = Header(
    magic: nat, version: nat, flags: nat, traceId: seq<byte>, configOffset: nat, configSize: nat,
    dataOffset: nat, writePos: nat, capacity: nat, createdAt: nat, schemaHash: nat, pipelineVersion: nat,
    reserved: seq<byte>)
  {
    /** The fields stay inside their widths. */
    ghost predicate WellSized() {
      && magic < U64_RANGE && version < U32_RANGE && flags < U32_RANGE && |traceId| == 16
      && configOffset < U64_RANGE && configSize < U32_RANGE && dataOffset < U64_RANGE && writePos < U64_RANGE
      && capacity < U64_RANGE && createdAt < U64_RANGE && schemaHash < U64_RANGE && pipelineVersion < U32_RANGE
      && |reserved| == 32
    }
  }

  function NewHeader(traceId: seq<byte>, capacity: nat, now: nat): Header {
    Header(ARENA_MAGIC, ARENA_VERSION, 0, traceId, HEADER_SIZE, 0, HEADER_SIZE, HEADER_SIZE, capacity, now, 0, 0,
           seq(32, _ => 0))
  }

  function Validate(h: Header): Result<(), string> {
    if h.magic != ARENA_MAGIC then Err("Invalid magic number")
    else if h.version != ARENA_VERSION then Err("Unsupported arena version")
    else if h.writePos > h.capacity then Err("Write position exceeds capacity")
    else Ok(())
  }

  /** The fields in file order, with the alignment padding. */
  function Fields(h: Header): (r: seq<seq<byte>>)
    ensures |r| == 15
  {
    [LittleEndian(h.magic, 8), LittleEndian(h.version, 4), LittleEndian(h.flags, 4), h.traceId,
     LittleEndian(h.configOffset, 8), LittleEndian(h.configSize, 4), LittleEndian(0, 4),
     LittleEndian(h.dataOffset, 8), LittleEndian(h.writePos, 8), LittleEndian(h.capacity, 8),
     LittleEndian(h.createdAt, 8), LittleEndian(h.schemaHash, 8), LittleEndian(h.pipelineVersion, 4),
     LittleEndian(0, 4), h.reserved]
  }

  function ToBytes(h: Header): seq<byte> {
    Concat(Fields(h))
  }

  datatype Tail = Tail(
    dataOffset: nat, writePos: nat, capacity: nat, createdAt: nat, schemaHash: nat, pipelineVersion: nat,
    reserved: seq<byte>)

  function ReadTail(bs: seq<byte>): Result<Tail, ReadError> {
    var (dataOffset, bs) :- ReadNumber(bs, 8);
    var (writePos, bs) :- ReadNumber(bs, 8);
    var (capacity, bs) :- ReadNumber(bs, 8);
    var (createdAt, bs) :- ReadNumber(bs, 8);
    var (schemaHash, bs) :- ReadNumber(bs, 8);
    var (pipelineVersion, bs) :- ReadNumber(bs, 4);
    var (_, bs) :- ReadNumber(bs, 4);
    var (reserved, bs) :- ReadExact(bs, 32);
    Ok(Tail(dataOffset, writePos, capacity, createdAt, schemaHash, pipelineVersion, reserved))
  }

  function FromBytes(bytes: seq<byte>): Result<Header, ReadError> {
    if |bytes| < HEADER_SIZE then Err(Invalid("Buffer too small for header"))
    else
      var (magic, bs) :- ReadNumber(bytes, 8);
      var (version, bs) :- ReadNumber(bs, 4);
      var (flags, bs) :- ReadNumber(bs, 4);
      var (traceId, bs) :- ReadExact(bs, 16);
      var (configOffset, bs) :- ReadNumber(bs, 8);
      var (configSize, bs) :- ReadNumber(bs, 4);
      var (_, bs) :- ReadNumber(bs, 4);
      var t :- ReadTail(bs);
      Ok(Header(magic, version, flags, traceId, configOffset, configSize, t.dataOffset, t.writePos, t.capacity,
                t.createdAt, t.schemaHash, t.pipelineVersion, t.reserved))
  }

  lemma TailRoundTrip(h: Header, fs: seq<seq<byte>>, rest: seq<byte>)
    requires h.WellSized() && |fs| == 15
    requires fs[7] == LittleEndian(h.dataOffset, 8) && fs[8] == LittleEndian(h.writePos, 8)
    requires fs[9] == LittleEndian(h.capacity, 8) && fs[10] == LittleEndian(h.createdAt, 8)
    requires fs[11] == LittleEndian(h.schemaHash, 8) && fs[12] == LittleEndian(h.pipelineVersion, 4)
    requires fs[13] == LittleEndian(0, 4) && fs[14] == h.reserved
    ensures ReadTail(Concat(fs[7..]) + rest)
         == Ok(Tail(h.dataOffset, h.writePos, h.capacity, h.createdAt, h.schemaHash, h.pipelineVersion, h.reserved))
  {
    Widths();
    ReadsBackNumberPart(fs, rest, 7, h.dataOffset, 8);
    ReadsBackNumberPart(fs, rest, 8, h.writePos, 8);
    ReadsBackNumberPart(fs, rest, 9, h.capacity, 8);
    ReadsBackNumberPart(fs, rest, 10, h.createdAt, 8);
    ReadsBackNumberPart(fs, rest, 11, h.schemaHash, 8);
    ReadsBackNumberPart(fs, rest, 12, h.pipelineVersion, 4);
    ReadsBackNumberPart(fs, rest, 13, 0, 4);
    ReadsBackBytesPart(fs, rest, 14);
  }

  /** The length of what is left from field `k` on, counted over up to four fields. */
  lemma LengthFrom(fs: seq<seq<byte>>, k: nat)
    requires k + 3 <= |fs|
    ensures |Concat(fs[k..])| == |fs[k]| + |fs[k + 1]| + |fs[k + 2]|
              + (if k + 3 < |fs| then |fs[k + 3]| + |Concat(fs[k + 4..])| else 0)
  {
    ConcatFrom(fs, [], k);
    ConcatFrom(fs, [], k + 1);
    ConcatFrom(fs, [], k + 2);
    if k + 3 < |fs| {
      ConcatFrom(fs, [], k + 3);
    } else {
      assert fs[k + 3..] == [];
    }
  }

  /** A header is 128 bytes long. */
  lemma HeaderLength(h: Header)
    requires |h.traceId| == 16 && |h.reserved| == 32
    ensures |ToBytes(h)| == HEADER_SIZE
  {
    var fs := Fields(h);
    assert fs[0..] == fs;
    LengthFrom(fs, 0);
    LengthFrom(fs, 4);
    LengthFrom(fs, 8);
    LengthFrom(fs, 12);
  }

  /** Every header is read back from its bytes, whatever follows them. */
  lemma HeaderRoundTrip(h: Header, rest: seq<byte>)
    requires h.WellSized()
    ensures |ToBytes(h)| == HEADER_SIZE && FromBytes(ToBytes(h) + rest) == Ok(h)
  {
    hide LittleEndian, Concat, ReadNumber, ReadExact, ReadTail;
    Widths();
    HeaderLength(h);
    var fs := Fields(h);
    assert fs[0..] == fs;
    ReadsBackNumberPart(fs, rest, 0, h.magic, 8);
    ReadsBackNumberPart(fs, rest, 1, h.version, 4);
    ReadsBackNumberPart(fs, rest, 2, h.flags, 4);
    ReadsBackBytesPart(fs, rest, 3);
    ReadsBackNumberPart(fs, rest, 4, h.configOffset, 8);
    ReadsBackNumberPart(fs, rest, 5, h.configSize, 4);
    ReadsBackNumberPart(fs, rest, 6, 0, 4);
    TailRoundTrip(h, fs, rest);
  }

  /** A header that is read has its byte fields in their fixed widths. */
  lemma ReadWidths(bytes: seq<byte>)
    requires FromBytes(bytes).Ok?
    ensures |FromBytes(bytes).value.traceId| == 16 && |FromBytes(bytes).value.reserved| == 32
  {
  }

  /** Where each field stands in the first 128 bytes. */
  lemma FieldsAt(bytes: seq<byte>)
    requires HEADER_SIZE <= |bytes|
    ensures
      FromBytes(bytes) == Ok(Header(
        Value(bytes[0..8]), Value(bytes[8..12]), Value(bytes[12..16]), bytes[16..32],
        Value(bytes[32..40]), Value(bytes[40..44]), Value(bytes[48..56]), Value(bytes[56..64]),
        Value(bytes[64..72]), Value(bytes[72..80]), Value(bytes[80..88]), Value(bytes[88..92]), bytes[96..128]))
  {
    hide Value, ReadNumber, ReadExact, ReadTail;
    assert bytes[0..] == bytes;
    ReadAt(bytes, 0, 8);
    ReadAt(bytes, 8, 4);
    ReadAt(bytes, 12, 4);
    ReadAt(bytes, 16, 16);
    ReadAt(bytes, 32, 8);
    ReadAt(bytes, 40, 4);
    ReadAt(bytes, 44, 4);
    TailAt(bytes);
  }

  lemma TailAt(bytes: seq<byte>)
    requires HEADER_SIZE <= |bytes|
    ensures
      ReadTail(bytes[48..]) == Ok(Tail(
        Value(bytes[48..56]), Value(bytes[56..64]), Value(bytes[64..72]), Value(bytes[72..80]),
        Value(bytes[80..88]), Value(bytes[88..92]), bytes[96..128]))
  {
    hide Value, ReadNumber, ReadExact;
    ReadAt(bytes, 48, 8);
    ReadAt(bytes, 56, 8);
    ReadAt(bytes, 64, 8);
    ReadAt(bytes, 72, 8);
    ReadAt(bytes, 80, 8);
    ReadAt(bytes, 88, 4);
    ReadAt(bytes, 92, 4);
    ReadAt(bytes, 96, 32);
  }
}
