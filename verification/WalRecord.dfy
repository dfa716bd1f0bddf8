/**
 The write-ahead log's record format: a fixed prefix, then a checksummed payload
 with two length-prefixed strings. Records read back from their bytes, a cut-off
 record is refused, and a concatenation of records splits in one way only. A
 length field below the minimum may make the decoder panic.
 */
module WalRecord {
  import opened Prelude
  import opened Bytes

  const MIN_RECORD_SIZE: nat := 29

  /** The checksum is some function of the payload. */
  type Checksum = seq<byte> -> u32

  datatype RecordType =
    | TraceStart | NodeStart | NodeDone | NodeError | TraceComplete | TraceFailed | TraceSuspended
    | TraceResumed | Checkpoint | LoopIteration | LoopExit

  function TypeCode(t: RecordType): (n: nat)
    ensures n <= 10
  {
    match t
    case TraceStart => 0
    case NodeStart => 1
    case NodeDone => 2
    case NodeError => 3
    case TraceComplete => 4
    case TraceFailed => 5
    case TraceSuspended => 6
    case TraceResumed => 7
    case Checkpoint => 8
    case LoopIteration => 9
    case LoopExit => 10
  }

  function TypeOf(code: nat): (t: Option<RecordType>)
    ensures t.Some? <==> code <= 10
    ensures t.Some? ==> TypeCode(t.value) == code
  {
    match code
    case 0 => Some(TraceStart)
    case 1 => Some(NodeStart)
    case 2 => Some(NodeDone)
    case 3 => Some(NodeError)
    case 4 => Some(TraceComplete)
    case 5 => Some(TraceFailed)
    case 6 => Some(TraceSuspended)
    case 7 => Some(TraceResumed)
    case 8 => Some(Checkpoint)
    case 9 => Some(LoopIteration)
    case 10 => Some(LoopExit)
    case _ => None
  }

  /** Strings are their UTF-8 bytes. */
  datatype Record = Record(
    recordType: RecordType, traceId: seq<byte>, nodeId: nat, timestamp: nat, outputOffset: nat, outputSize: nat,
    schemaHash: nat, errorMessage: Option<seq<byte>>, iteration: nat, metadata: Option<seq<byte>>)
  {
    /** The fields stay inside their widths and the whole record inside a 32-bit length. */
    ghost predicate WellSized() {
      && |traceId| == 16 && nodeId < U32_RANGE && timestamp < U64_RANGE && outputOffset < U64_RANGE
      && outputSize < U32_RANGE && schemaHash < U64_RANGE && iteration < U32_RANGE
      && 69 + |Text(errorMessage)| + |Text(metadata)| < U32_RANGE
    }

    /** An empty string is written like an absent one. */
    function Normalized(): Record {
      this.(errorMessage := NonEmpty(Text(errorMessage)), metadata := NonEmpty(Text(metadata)))
    }
  }

  function Text(s: Option<seq<byte>>): seq<byte> {
    if s.Some? then s.value else []
  }

  function NonEmpty(s: seq<byte>): Option<seq<byte>> {
    if s == [] then None else Some(s)
  }

  // ---------------------------------------------------------------------------
  // Encoding
  // ---------------------------------------------------------------------------

  function PayloadParts(r: Record): (ps: seq<seq<byte>>)
    ensures |ps| == 9
  {
    [LittleEndian(r.timestamp, 8), LittleEndian(r.outputOffset, 8), LittleEndian(r.outputSize, 4),
     LittleEndian(r.schemaHash, 8), LittleEndian(r.iteration, 4),
     LittleEndian(|Text(r.errorMessage)|, 4), Text(r.errorMessage),
     LittleEndian(|Text(r.metadata)|, 4), Text(r.metadata)]
  }

  function Payload(r: Record): seq<byte> {
    Concat(PayloadParts(r))
  }

  function RecordParts(r: Record, crc: Checksum): (ps: seq<seq<byte>>)
    ensures |ps| == 6
  {
    [LittleEndian(MIN_RECORD_SIZE + |Payload(r)|, 4), LittleEndian(crc(Payload(r)), 4),
     LittleEndian(TypeCode(r.recordType), 1), r.traceId, LittleEndian(r.nodeId, 4), Payload(r)]
  }

  function Encode(r: Record, crc: Checksum): seq<byte> {
    Concat(RecordParts(r, crc))
  }

  // ---------------------------------------------------------------------------
  // Decoding
  // ---------------------------------------------------------------------------

  datatype Decoded = Read(record: Record) | Refused(error: ReadError) | Panics

  datatype Prefix = Prefix(totalLen: nat, crc: nat, recordType: RecordType, traceId: seq<byte>, nodeId: nat)

  function ReadPrefix(bytes: seq<byte>): Result<Prefix, ReadError> {
    var (totalLen, bs) :- ReadNumber(bytes, 4);
    var (crc, bs) :- ReadNumber(bs, 4);
    var (code, bs) :- ReadNumber(bs, 1);
    if TypeOf(code).None? then Err(Invalid("Unknown WAL record type"))
    else
      var (traceId, bs) :- ReadExact(bs, 16);
      var (nodeId, bs) :- ReadNumber(bs, 4);
      Ok(Prefix(totalLen, crc, TypeOf(code).value, traceId, nodeId))
  }

  /** A length and, if it is not zero, that many bytes. */
  function ReadText(bs: seq<byte>): Result<(Option<seq<byte>>, seq<byte>), ReadError> {
    var (len, bs) :- ReadNumber(bs, 4);
    if len > 0 then
      var (text, bs) :- ReadExact(bs, len);
      Ok((Some(text), bs))
    else Ok((None, bs))
  }

  datatype Fixed = Fixed(timestamp: nat, outputOffset: nat, outputSize: nat, schemaHash: nat, iteration: nat)

  function ReadFixed(payload: seq<byte>): Result<(Fixed, seq<byte>), ReadError> {
    var (timestamp, bs) :- ReadNumber(payload, 8);
    var (outputOffset, bs) :- ReadNumber(bs, 8);
    var (outputSize, bs) :- ReadNumber(bs, 4);
    var (schemaHash, bs) :- ReadNumber(bs, 8);
    var (iteration, bs) :- ReadNumber(bs, 4);
    Ok((Fixed(timestamp, outputOffset, outputSize, schemaHash, iteration), bs))
  }

  function ReadPayload(p: Prefix, payload: seq<byte>): Result<Record, ReadError> {
    var (f, bs) :- ReadFixed(payload);
    var (errorMessage, bs) :- ReadText(bs);
    var (metadata, bs) :- ReadText(bs);
    Ok(Record(p.recordType, p.traceId, p.nodeId, f.timestamp, f.outputOffset, f.outputSize, f.schemaHash,
              errorMessage, f.iteration, metadata))
  }

  /** Slicing the payload panics when the length field is shorter than the prefix. */
  function Decode(bytes: seq<byte>, crc: Checksum): Decoded {
    if |bytes| < MIN_RECORD_SIZE then Refused(Invalid("Record too small"))
    else
      match ReadPrefix(bytes)
      case Err(e) => Refused(e)
      case Ok(p) =>
        if |bytes| < p.totalLen then Refused(Invalid("Record truncated"))
        else if p.totalLen < MIN_RECORD_SIZE then Panics
        else
          var payload := bytes[MIN_RECORD_SIZE..p.totalLen];
          if crc(payload) != p.crc then Refused(Invalid("CRC mismatch"))
          else
            match ReadPayload(p, payload)
            case Err(e) => Refused(e)
            case Ok(r) => Read(r)
  }

  // ---------------------------------------------------------------------------
  // Round trip
  // ---------------------------------------------------------------------------

  lemma ReadsBackText(parts: seq<seq<byte>>, rest: seq<byte>, k: nat, text: seq<byte>)
    requires k + 1 < |parts| && parts[k] == LittleEndian(|text|, 4) && parts[k + 1] == text && |text| < U32_RANGE
    ensures ReadText(Concat(parts[k..]) + rest) == Ok((NonEmpty(text), Concat(parts[k + 2..]) + rest))
  {
    Widths();
    ReadsBackNumberPart(parts, rest, k, |text|, 4);
    ReadsBackBytesPart(parts, rest, k + 1);
    ConcatFrom(parts, rest, k + 1);
  }

  lemma FixedReadsBack(f: Fixed, parts: seq<seq<byte>>)
    requires f.timestamp < U64_RANGE && f.outputOffset < U64_RANGE && f.outputSize < U32_RANGE
    requires f.schemaHash < U64_RANGE && f.iteration < U32_RANGE && |parts| == 9
    requires parts[0] == LittleEndian(f.timestamp, 8) && parts[1] == LittleEndian(f.outputOffset, 8)
    requires parts[2] == LittleEndian(f.outputSize, 4) && parts[3] == LittleEndian(f.schemaHash, 8)
    requires parts[4] == LittleEndian(f.iteration, 4)
    ensures ReadFixed(Concat(parts) + []) == Ok((f, Concat(parts[5..]) + []))
  {
    Widths();
    assert parts[0..] == parts;
    ReadsBackNumberPart(parts, [], 0, f.timestamp, 8);
    ReadsBackNumberPart(parts, [], 1, f.outputOffset, 8);
    ReadsBackNumberPart(parts, [], 2, f.outputSize, 4);
    ReadsBackNumberPart(parts, [], 3, f.schemaHash, 8);
    ReadsBackNumberPart(parts, [], 4, f.iteration, 4);
  }

  lemma {:induction false} TextsReadBack(parts: seq<seq<byte>>, message: seq<byte>, meta: seq<byte>)
    requires |parts| == 9 && |message| < U32_RANGE && |meta| < U32_RANGE
    requires parts[5] == LittleEndian(|message|, 4) && parts[6] == message
    requires parts[7] == LittleEndian(|meta|, 4) && parts[8] == meta
    ensures ReadText(Concat(parts[5..]) + []) == Ok((NonEmpty(message), Concat(parts[7..]) + []))
    ensures ReadText(Concat(parts[7..]) + []).Ok? && ReadText(Concat(parts[7..]) + []).value.0 == NonEmpty(meta)
  {
    ReadsBackText(parts, [], 5, message);
    ReadsBackText(parts, [], 7, meta);
  }

  lemma PayloadReadsBack(r: Record, p: Prefix)
    requires r.WellSized()
    requires p.recordType == r.recordType && p.traceId == r.traceId && p.nodeId == r.nodeId
    ensures ReadPayload(p, Payload(r)) == Ok(r.Normalized())
  {
    var parts := PayloadParts(r);
    FixedReadsBack(Fixed(r.timestamp, r.outputOffset, r.outputSize, r.schemaHash, r.iteration), parts);
    TextsReadBack(parts, Text(r.errorMessage), Text(r.metadata));
    assert Payload(r) + [] == Payload(r);
  }

  lemma PayloadLength(r: Record, parts: seq<seq<byte>>)
    requires parts == PayloadParts(r)
    ensures |Concat(parts)| == 40 + |Text(r.errorMessage)| + |Text(r.metadata)|
  {
    ThreeFrom(parts, 0);
    ThreeFrom(parts, 3);
    ThreeFrom(parts, 6);
    assert parts[0..] == parts && parts[9..] == [];
  }

  lemma ThreeFrom(parts: seq<seq<byte>>, k: nat)
    requires k + 3 <= |parts|
    ensures |Concat(parts[k..])| == |parts[k]| + |parts[k + 1]| + |parts[k + 2]| + |Concat(parts[k + 3..])|
  {
    ConcatFrom(parts, [], k);
    ConcatFrom(parts, [], k + 1);
    ConcatFrom(parts, [], k + 2);
  }

  lemma PrefixReadsBack(parts: seq<seq<byte>>, rest: seq<byte>, len: nat, sum: nat, t: RecordType, nodeId: nat)
    requires |parts| == 6 && len < U32_RANGE && sum < U32_RANGE && nodeId < U32_RANGE
    requires parts[0] == LittleEndian(len, 4) && parts[1] == LittleEndian(sum, 4)
    requires parts[2] == LittleEndian(TypeCode(t), 1) && |parts[3]| == 16 && parts[4] == LittleEndian(nodeId, 4)
    ensures ReadPrefix(Concat(parts) + rest) == Ok(Prefix(len, sum, t, parts[3], nodeId))
    ensures |Concat(parts)| == MIN_RECORD_SIZE + |parts[5]|
    ensures (Concat(parts) + rest)[MIN_RECORD_SIZE..MIN_RECORD_SIZE + |parts[5]|] == parts[5]
  {
    hide LittleEndian, Concat, Value, ReadNumber, ReadExact;
    Widths();
    assert parts[0..] == parts;
    ReadsBackNumberPart(parts, rest, 0, len, 4);
    ReadsBackNumberPart(parts, rest, 1, sum, 4);
    ReadsBackNumberPart(parts, rest, 2, TypeCode(t), 1);
    ReadsBackBytesPart(parts, rest, 3);
    ReadsBackNumberPart(parts, rest, 4, nodeId, 4);
    PrefixThenPayload(parts, rest);
  }

  /** The first five parts take up 29 bytes; the payload follows. */
  lemma PrefixThenPayload(parts: seq<seq<byte>>, rest: seq<byte>)
    requires |parts| == 6 && |parts[0]| == 4 && |parts[1]| == 4 && |parts[2]| == 1
    requires |parts[3]| == 16 && |parts[4]| == 4
    ensures |Concat(parts)| == MIN_RECORD_SIZE + |parts[5]|
    ensures (Concat(parts) + rest)[MIN_RECORD_SIZE..MIN_RECORD_SIZE + |parts[5]|] == parts[5]
  {
    var front := parts[0] + parts[1] + parts[2] + parts[3] + parts[4];
    assert parts[0..] == parts && parts[6..] == [];
    ConcatFrom(parts, [], 0);
    ConcatFrom(parts, [], 1);
    ConcatFrom(parts, [], 2);
    ConcatFrom(parts, [], 3);
    ConcatFrom(parts, [], 4);
    ConcatFrom(parts, [], 5);
    assert Concat(parts) == front + parts[5];
    assert Concat(parts) + rest == front + (parts[5] + rest);
  }

  /** The length field holds the record's length, which serialized_size predicts. */
  lemma LengthFieldIsLength(r: Record, crc: Checksum)
    requires r.WellSized()
    ensures |Encode(r, crc)| == 69 + |Text(r.errorMessage)| + |Text(r.metadata)|
    ensures MIN_RECORD_SIZE + |Payload(r)| == |Encode(r, crc)| < U32_RANGE
  {
    PayloadLength(r, PayloadParts(r));
    PrefixThenPayload(RecordParts(r, crc), []);
  }

  /**
   Every record that fits is read back from its bytes, whatever follows them, except that an empty
   string comes back as an absent one.
   */
  lemma RecordRoundTrip(r: Record, crc: Checksum, rest: seq<byte>)
    requires r.WellSized()
    ensures Decode(Encode(r, crc) + rest, crc) == Read(r.Normalized())
  {
    var parts := RecordParts(r, crc);
    LengthFieldIsLength(r, crc);
    PrefixReadsBack(parts, rest, MIN_RECORD_SIZE + |Payload(r)|, crc(Payload(r)), r.recordType, r.nodeId);
    PayloadReadsBack(r,
      Prefix(MIN_RECORD_SIZE + |Payload(r)|, crc(Payload(r)), r.recordType, r.traceId, r.nodeId));
  }

  /** Reading it back gives the very same record exactly when neither string is present but empty. */
  lemma RoundTripExactIff(r: Record, crc: Checksum)
    requires r.WellSized()
    ensures Decode(Encode(r, crc), crc) == Read(r)
            <==> r.errorMessage != Some([]) && r.metadata != Some([])
  {
    RecordRoundTrip(r, crc, []);
    assert Encode(r, crc) + [] == Encode(r, crc);
  }

  /** A failed node whose error message is empty comes back without one. */
  lemma EmptyMessageVanishes(traceId: seq<byte>, crc: Checksum)
    requires |traceId| == 16
    ensures
      var r := Record(NodeError, traceId, 1, 0, 0, 0, 0, Some([]), 0, None);
      Decode(Encode(r, crc), crc) == Read(r.(errorMessage := None)) != Read(r)
  {
    var r := Record(NodeError, traceId, 1, 0, 0, 0, 0, Some([]), 0, None);
    RecordRoundTrip(r, crc, []);
    assert Encode(r, crc) + [] == Encode(r, crc);
  }

  /** A record cut off anywhere before its end is refused, and never makes the decoder panic. */
  lemma TornRecordRefused(r: Record, crc: Checksum, n: nat)
    requires r.WellSized() && n < |Encode(r, crc)|
    ensures Decode(Encode(r, crc)[..n], crc).Refused?
  {
    var bytes := Encode(r, crc);
    LengthFieldIsLength(r, crc);
    if n >= MIN_RECORD_SIZE {
      PrefixReadsBack(RecordParts(r, crc), [], |bytes|, crc(Payload(r)), r.recordType, r.nodeId);
      assert bytes + [] == bytes;
      PrefixOnly(bytes, n);
    }
  }

  /** Only the first 29 bytes matter to the prefix. */
  lemma PrefixOnly(bytes: seq<byte>, n: nat)
    requires MIN_RECORD_SIZE <= n <= |bytes|
    ensures ReadPrefix(bytes[..n]) == ReadPrefix(bytes)
  {
    var cut := bytes[..n];
    assert cut[..4] == bytes[..4] && cut[4..][..4] == bytes[4..][..4];
    assert cut[4..][4..] == cut[8..] && bytes[4..][4..] == bytes[8..];
    assert cut[8..][..1] == bytes[8..][..1];
    assert cut[8..][1..] == cut[9..] && bytes[8..][1..] == bytes[9..];
    assert cut[9..][..16] == bytes[9..][..16];
    assert cut[9..][16..] == cut[25..] && bytes[9..][16..] == bytes[25..];
    assert cut[25..][..4] == bytes[25..][..4];
  }

  /** The decoder panics exactly on a known type with a length field below the minimum. */
  lemma PanicsIff(bytes: seq<byte>, crc: Checksum)
    ensures Decode(bytes, crc).Panics?
            <==> |bytes| >= MIN_RECORD_SIZE && bytes[8] as nat <= 10 && Value(bytes[..4]) < MIN_RECORD_SIZE
  {
    if |bytes| >= MIN_RECORD_SIZE {
      assert bytes[4..][4..] == bytes[8..];
      assert bytes[8..][..1] == [bytes[8]];
      assert Value([bytes[8]]) == bytes[8] as nat by {
        assert [bytes[8]][1..] == [];
      }
    }
  }

  /** It does on 29 zeros: a trace start with a length of 0. */
  lemma ZerosPanic(crc: Checksum)
    ensures Decode(seq(MIN_RECORD_SIZE, _ => 0), crc).Panics?
  {
    var zeros: seq<byte> := seq(MIN_RECORD_SIZE, _ => 0);
    assert zeros[..4] == [0, 0, 0, 0];
    assert [0 as byte, 0, 0, 0][1..] == [0, 0, 0] && [0 as byte, 0, 0][1..] == [0, 0] && [0 as byte, 0][1..] == [0];
    assert [0 as byte][1..] == [];
    PanicsIff(zeros, crc);
  }

  // ---------------------------------------------------------------------------
  // What is read, byte by byte
  // ---------------------------------------------------------------------------

  /** The types in the order of their codes. */
  const TYPES: seq<RecordType> :=
    [TraceStart, NodeStart, NodeDone, NodeError, TraceComplete, TraceFailed, TraceSuspended,
     TraceResumed, Checkpoint, LoopIteration, LoopExit]

  lemma CodesCountTypes(t: RecordType)
    ensures |TYPES| == 11 && TYPES[TypeCode(t)] == t
  {
  }

  lemma PrefixAt(bytes: seq<byte>)
    requires |bytes| >= MIN_RECORD_SIZE
    ensures bytes[8] as nat > 10 ==> ReadPrefix(bytes).Err?
    ensures bytes[8] as nat <= 10 ==>
              ReadPrefix(bytes) == Ok(Prefix(
                Value(bytes[0..4]), Value(bytes[4..8]), TYPES[bytes[8] as nat], bytes[9..25], Value(bytes[25..29])))
  {
    hide ReadNumber, ReadExact;
    assert bytes[0..] == bytes;
    ReadAt(bytes, 0, 4);
    ReadAt(bytes, 4, 4);
    ReadAt(bytes, 8, 1);
    ReadAt(bytes, 9, 16);
    ReadAt(bytes, 25, 4);
    assert bytes[8..9] == [bytes[8]] && Value([bytes[8]]) == bytes[8] as nat;
    if bytes[8] as nat <= 10 {
      CodesCountTypes(TypeOf(bytes[8] as nat).value);
    }
  }

  lemma FixedAt(p: seq<byte>)
    requires |p| >= 32
    ensures
      ReadFixed(p) == Ok((Fixed(Value(p[0..8]), Value(p[8..16]), Value(p[16..20]), Value(p[20..28]), Value(p[28..32])),
                          p[32..]))
  {
    hide Value, ReadNumber, ReadExact;
    assert p[0..] == p;
    ReadAt(p, 0, 8);
    ReadAt(p, 8, 8);
    ReadAt(p, 16, 4);
    ReadAt(p, 20, 8);
    ReadAt(p, 28, 4);
  }

  /** A length-prefixed text stands at `at`, all of it. */
  predicate HasText(p: seq<byte>, at: nat) {
    at + 4 <= |p| && at + 4 + Value(p[at..at + 4]) <= |p|
  }

  function TextAt(p: seq<byte>, at: nat): seq<byte>
    requires HasText(p, at)
  {
    p[at + 4..at + 4 + Value(p[at..at + 4])]
  }

  lemma ReadTextAt(p: seq<byte>, at: nat)
    requires at <= |p|
    ensures ReadText(p[at..]).Ok? <==> HasText(p, at)
    ensures HasText(p, at) ==> ReadText(p[at..]) == Ok((NonEmpty(TextAt(p, at)), p[at + 4 + |TextAt(p, at)|..]))
  {
    hide Value;
    if at + 4 <= |p| {
      ReadAt(p, at, 4);
      var len := Value(p[at..at + 4]);
      if at + 4 + len <= |p| {
        ReadAt(p, at + 4, len);
      }
    }
  }

  /** Both texts of a payload are complete. */
  predicate HasTexts(p: seq<byte>) {
    HasText(p, 32) && HasText(p, 36 + |TextAt(p, 32)|)
  }

  /** What a payload tells, by the bytes that stand in it. */
  lemma PayloadAt(prefix: Prefix, p: seq<byte>)
    ensures ReadPayload(prefix, p).Ok? <==> HasTexts(p)
    ensures HasTexts(p) ==>
              ReadPayload(prefix, p) == Ok(Record(
                prefix.recordType, prefix.traceId, prefix.nodeId, Value(p[0..8]), Value(p[8..16]), Value(p[16..20]),
                Value(p[20..28]), NonEmpty(TextAt(p, 32)), Value(p[28..32]), NonEmpty(TextAt(p, 36 + |TextAt(p, 32)|))))
  {
    hide Value, ReadText, ReadNumber, ReadExact;
    if |p| >= 32 {
      FixedAt(p);
      ReadTextAt(p, 32);
      if HasText(p, 32) {
        ReadTextAt(p, 36 + |TextAt(p, 32)|);
      }
    } else {
      FixedNeeds32(p);
    }
  }

  lemma FixedNeeds32(p: seq<byte>)
    requires |p| < 32
    ensures ReadFixed(p).Err?
  {
    hide Value;
  }

  /**
   Bytes are read as a record if and only if they are as many as their length field says, and that at least
   29, the type is known, the checksum is that of the payload, and the payload holds both texts.
   */
  lemma ReadIff(bytes: seq<byte>, crc: Checksum)
    ensures Decode(bytes, crc).Read? <==>
            && |bytes| >= 29 && bytes[8] as nat <= 10
            && 29 <= Value(bytes[0..4]) <= |bytes|
            && Value(bytes[4..8]) == crc(bytes[29..Value(bytes[0..4])])
            && HasTexts(bytes[29..Value(bytes[0..4])])
  {
    hide Value, ReadPrefix, ReadPayload;
    if |bytes| >= 29 {
      PrefixAt(bytes);
      if ReadPrefix(bytes).Ok? && 29 <= Value(bytes[0..4]) <= |bytes| {
        PayloadAt(ReadPrefix(bytes).value, bytes[29..Value(bytes[0..4])]);
      }
    }
  }

  /** And each field is what stands in its place. */
  lemma ReadTells(bytes: seq<byte>, crc: Checksum)
    requires Decode(bytes, crc).Read?
    ensures
      && |bytes| >= 29 && bytes[8] as nat <= 10 && 29 <= Value(bytes[0..4]) <= |bytes|
      && var p := bytes[29..Value(bytes[0..4])];
      && HasTexts(p)
      && Decode(bytes, crc).record == Record(
        TYPES[bytes[8] as nat], bytes[9..25], Value(bytes[25..29]), Value(p[0..8]), Value(p[8..16]), Value(p[16..20]),
        Value(p[20..28]), NonEmpty(TextAt(p, 32)), Value(p[28..32]), NonEmpty(TextAt(p, 36 + |TextAt(p, 32)|)))
  {
    hide Value, ReadPrefix, ReadPayload;
    ReadIff(bytes, crc);
    PrefixAt(bytes);
    PayloadAt(ReadPrefix(bytes).value, bytes[29..Value(bytes[0..4])]);
  }

  /** A record whose payload was exchanged for one with another checksum is refused. */
  lemma CorruptedIsRefused(r: Record, crc: Checksum, p: seq<byte>)
    requires r.WellSized() && |p| == |Payload(r)| && crc(p) != crc(Payload(r))
    ensures |Encode(r, crc)| >= 29 && Decode(Encode(r, crc)[..29] + p, crc) == Refused(Invalid("CRC mismatch"))
  {
    hide Value, ReadPayload, Payload;
    var bytes := Encode(r, crc);
    LengthFieldIsLength(r, crc);
    PrefixReadsBack(RecordParts(r, crc), [], |bytes|, crc(Payload(r)), r.recordType, r.nodeId);
    assert bytes + [] == bytes;
    var changed := bytes[..29] + p;
    PrefixOnly(bytes, 29);
    PrefixOnly(changed, 29);
    assert changed[..29] == bytes[..29] && changed[29..|bytes|] == p;
  }

  // ---------------------------------------------------------------------------
  // Streams of records
  // ---------------------------------------------------------------------------

  function EncodeAll(rs: seq<Record>, crc: Checksum): seq<byte> {
    if rs == [] then [] else Encode(rs[0], crc) + EncodeAll(rs[1..], crc)
  }

  /** Two lists of records with the same bytes are the same list, up to absent and empty strings. */
  lemma {:induction false} StreamSplitsUniquely(xs: seq<Record>, ys: seq<Record>, crc: Checksum)
    requires forall i :: 0 <= i < |xs| ==> xs[i].WellSized()
    requires forall i :: 0 <= i < |ys| ==> ys[i].WellSized()
    requires EncodeAll(xs, crc) == EncodeAll(ys, crc)
    ensures |xs| == |ys| && forall i :: 0 <= i < |xs| ==> xs[i].Normalized() == ys[i].Normalized()
    decreases |xs|
  {
    if xs != [] {
      LengthFieldIsLength(xs[0], crc);
    }
    if ys != [] {
      LengthFieldIsLength(ys[0], crc);
    }
    if xs != [] && ys != [] {
      FirstIsSame(xs[0], ys[0], EncodeAll(xs[1..], crc), EncodeAll(ys[1..], crc), crc);
      StreamSplitsUniquely(xs[1..], ys[1..], crc);
      forall i | 0 <= i < |xs| ensures xs[i].Normalized() == ys[i].Normalized() {
        if i > 0 {
          assert xs[i] == xs[1..][i - 1] && ys[i] == ys[1..][i - 1];
        }
      }
    }
  }

  /** The first record of a stream, and where it ends, are fixed by the bytes. */
  lemma FirstIsSame(a: Record, b: Record, aRest: seq<byte>, bRest: seq<byte>, crc: Checksum)
    requires a.WellSized() && b.WellSized() && Encode(a, crc) + aRest == Encode(b, crc) + bRest
    ensures a.Normalized() == b.Normalized() && aRest == bRest
  {
    RecordRoundTrip(a, crc, aRest);
    RecordRoundTrip(b, crc, bRest);
    SameTail(Encode(a, crc), aRest, bRest);
  }

  lemma SameTail(head: seq<byte>, a: seq<byte>, b: seq<byte>)
    requires head + a == head + b
    ensures a == b
  {
    assert a == (head + a)[|head|..] && b == (head + b)[|head|..];
  }

  // ---------------------------------------------------------------------------
  // The program's own steps
  // ---------------------------------------------------------------------------

  method SerializedSize(r: Record, ghost crc: Checksum) returns (size: nat)
    requires r.WellSized()
    ensures size == |Encode(r, crc)|
  {
    LengthFieldIsLength(r, crc);
    size := MIN_RECORD_SIZE;
    size := size + (8 + 8 + 4 + 8 + 4);
    size := size + 4;
    if r.errorMessage.Some? {
      size := size + |r.errorMessage.value|;
    }
    size := size + 4;
    if r.metadata.Some? {
      size := size + |r.metadata.value|;
    }
  }

  lemma {:induction false} ConcatSnoc(parts: seq<seq<byte>>, k: nat)
    requires k < |parts|
    ensures Concat(parts[..k + 1]) == Concat(parts[..k]) + parts[k]
    decreases k
  {
    if k > 0 {
      ConcatSnoc(parts[1..], k - 1);
      assert parts[..k + 1][1..] == parts[1..][..k] && parts[..k][1..] == parts[1..][..k - 1];
    }
  }

  /** The payload, field by field onto the end of a buffer. */
  method WritePayload(r: Record) returns (payload: seq<byte>)
    ensures payload == Payload(r)
  {
    ghost var parts := PayloadParts(r);
    payload := [];
    assert Concat(parts[..0]) == payload;
    hide LittleEndian, Concat;
    ConcatSnoc(parts, 0);
    payload := payload + LittleEndian(r.timestamp, 8);
    ConcatSnoc(parts, 1);
    payload := payload + LittleEndian(r.outputOffset, 8);
    ConcatSnoc(parts, 2);
    payload := payload + LittleEndian(r.outputSize, 4);
    ConcatSnoc(parts, 3);
    payload := payload + LittleEndian(r.schemaHash, 8);
    ConcatSnoc(parts, 4);
    payload := payload + LittleEndian(r.iteration, 4);
    ConcatSnoc(parts, 5);
    ConcatSnoc(parts, 6);
    payload := WriteText(payload, r.errorMessage);
    ConcatSnoc(parts, 7);
    ConcatSnoc(parts, 8);
    payload := WriteText(payload, r.metadata);
    assert parts[..9] == parts;
  }

  method WriteText(buffer: seq<byte>, text: Option<seq<byte>>) returns (buffer': seq<byte>)
    ensures buffer' == buffer + LittleEndian(|Text(text)|, 4) + Text(text)
  {
    if text.Some? {
      buffer' := buffer + LittleEndian(|text.value|, 4);
      buffer' := buffer' + text.value;
    } else {
      buffer' := buffer + LittleEndian(0, 4);
    }
  }

  method ToBytes(r: Record, crc: Checksum) returns (record: seq<byte>)
    ensures record == Encode(r, crc)
  {
    var payload := WritePayload(r);
    ghost var parts := RecordParts(r, crc);
    record := [];
    ConcatSnoc(parts, 0);
    record := record + LittleEndian(MIN_RECORD_SIZE + |payload|, 4);
    ConcatSnoc(parts, 1);
    record := record + LittleEndian(crc(payload), 4);
    ConcatSnoc(parts, 2);
    record := record + LittleEndian(TypeCode(r.recordType), 1);
    ConcatSnoc(parts, 3);
    record := record + r.traceId;
    ConcatSnoc(parts, 4);
    record := record + LittleEndian(r.nodeId, 4);
    ConcatSnoc(parts, 5);
    record := record + payload;
    assert parts[..6] == parts;
  }
}
