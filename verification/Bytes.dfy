/**
 Little-endian numbers on the wire, and reading them back from the front of a
 byte sequence. A record is a list of fields, each of its own width, written one
 after another; reading takes the fields off the front again, in order, and
 leaves whatever follows. The arena's header and the log's records are both of
 this form, and both round trips rest on these lemmas.
 */
module Bytes {
  import opened Prelude

  function Pow256(width: nat): nat {
    if width == 0 then 1 else 256 * Pow256(width - 1)
  }

  lemma Widths()
    ensures Pow256(1) == 256 && Pow256(4) == U32_RANGE && Pow256(8) == U64_RANGE
  {
    assert Pow256(2) == 0x1_0000 && Pow256(4) == U32_RANGE;
    assert Pow256(6) == 0x1_0000_0000_0000 && Pow256(8) == U64_RANGE;
  }

  /** The `i`-th base-256 digit of `n`, counted from the least significant. */
  function Digit(n: nat, i: nat): byte {
    if i == 0 then (n % 256) as byte else Digit(n / 256, i - 1)
  }

  /** `n` in `width` bytes, least significant first; higher digits are cut off. */
  function LittleEndian(n: nat, width: nat): (bs: seq<byte>)
    ensures |bs| == width
  {
    seq(width, i requires 0 <= i < width => Digit(n, i))
  }

  /** The least significant byte comes first, the others of the number after it. */
  lemma LowestFirst(n: nat, width: nat)
    requires width > 0
    ensures LittleEndian(n, width)[0] as nat == n % 256
    ensures LittleEndian(n, width)[1..] == LittleEndian(n / 256, width - 1)
  {
  }

  function Value(bs: seq<byte>): nat {
    if bs == [] then 0 else bs[0] as nat + 256 * Value(bs[1..])
  }

  lemma {:induction false} ValueOfLittleEndian(n: nat, width: nat)
    requires n < Pow256(width)
    ensures Value(LittleEndian(n, width)) == n
  {
    if width > 0 {
      ValueOfLittleEndian(n / 256, width - 1);
      assert LittleEndian(n, width)[1..] == LittleEndian(n / 256, width - 1);
    }
  }

  datatype ReadError = UnexpectedEof | Invalid(cause: string)

  /** Reading `width` bytes off the front as a number; the second part is what is left. */
  function ReadNumber(bs: seq<byte>, width: nat): Result<(nat, seq<byte>), ReadError> {
    if |bs| < width then Err(UnexpectedEof) else Ok((Value(bs[..width]), bs[width..]))
  }

  function ReadExact(bs: seq<byte>, n: nat): Result<(seq<byte>, seq<byte>), ReadError> {
    if |bs| < n then Err(UnexpectedEof) else Ok((bs[..n], bs[n..]))
  }

  /** Reading from offset `at` on takes the bytes that stand there. */
  lemma ReadAt(bytes: seq<byte>, at: nat, width: nat)
    requires at + width <= |bytes|
    ensures ReadNumber(bytes[at..], width) == Ok((Value(bytes[at..at + width]), bytes[at + width..]))
    ensures ReadExact(bytes[at..], width) == Ok((bytes[at..at + width], bytes[at + width..]))
  {
    assert bytes[at..][..width] == bytes[at..at + width] && bytes[at..][width..] == bytes[at + width..];
  }

  lemma ReadsBackNumber(n: nat, width: nat, tail: seq<byte>)
    requires n < Pow256(width)
    ensures ReadNumber(LittleEndian(n, width) + tail, width) == Ok((n, tail))
  {
    ValueOfLittleEndian(n, width);
    assert (LittleEndian(n, width) + tail)[..width] == LittleEndian(n, width);
    assert (LittleEndian(n, width) + tail)[width..] == tail;
  }

  /** Byte strings written one after another. */
  function Concat(parts: seq<seq<byte>>): seq<byte> {
    if parts == [] then [] else parts[0] + Concat(parts[1..])
  }

  /** What is left of the parts from `k` on begins with part `k`. */
  lemma ConcatFrom(parts: seq<seq<byte>>, rest: seq<byte>, k: nat)
    requires k < |parts|
    ensures Concat(parts[k..]) + rest == parts[k] + (Concat(parts[k + 1..]) + rest)
  {
    assert parts[k..][1..] == parts[k + 1..];
  }

  lemma ReadsBackNumberPart(parts: seq<seq<byte>>, rest: seq<byte>, k: nat, n: nat, width: nat)
    requires k < |parts| && parts[k] == LittleEndian(n, width) && n < Pow256(width)
    ensures ReadNumber(Concat(parts[k..]) + rest, width) == Ok((n, Concat(parts[k + 1..]) + rest))
  {
    ConcatFrom(parts, rest, k);
    ReadsBackNumber(n, width, Concat(parts[k + 1..]) + rest);
  }

  lemma ReadsBackBytesPart(parts: seq<seq<byte>>, rest: seq<byte>, k: nat)
    requires k < |parts|
    ensures ReadExact(Concat(parts[k..]) + rest, |parts[k]|) == Ok((parts[k], Concat(parts[k + 1..]) + rest))
  {
    ConcatFrom(parts, rest, k);
  }
}
