/**
 * Fixed-width integers and their big-endian byte encodings, as used by
 * Go's `encoding/binary.BigEndian` and the `uint8(...)` conversion.
 */
module Wire {

  type byte = x: int | 0 <= x < 0x100
  type uint16 = x: int | 0 <= x < 0x1_0000
  type uint32 = x: int | 0 <= x < 0x1_0000_0000

  /** `binary.BigEndian.PutUint16`: the two bytes of `v`, most significant first. */
  function U16Bytes(v: uint16): (b: seq<byte>)
    ensures |b| == 2
  {
    [v / 0x100, v % 0x100]
  }

  /** `binary.BigEndian.Uint16` of a two-byte slice. */
  function ReadU16(b: seq<byte>): (v: uint16)
    requires |b| == 2
  {
    (b[0] as int) * 0x100 + b[1]
  }

  /** `binary.BigEndian.PutUint32`: the four bytes of `v`, most significant first. */
  function U32Bytes(v: uint32): (b: seq<byte>)
    ensures |b| == 4
  {
    var hi, lo := v / 0x1_0000, v % 0x1_0000;
    [hi / 0x100, hi % 0x100, lo / 0x100, lo % 0x100]
  }

  /** `binary.BigEndian.Uint32` of a four-byte slice. */
  function ReadU32(b: seq<byte>): (v: uint32)
    requires |b| == 4
  {
    (b[0] as int) * 0x100_0000 + (b[1] as int) * 0x1_0000 + (b[2] as int) * 0x100 + b[3]
  }

  /** Go's `uint8(v)` conversion of a 16-bit value: keeps the low byte. */
  function Truncate8(v: uint16): (r: byte)
    ensures v < 0x100 ==> r == v
  {
    v % 0x100
  }

  lemma U16RoundTrip(v: uint16)
    ensures ReadU16(U16Bytes(v)) == v
  {
  }

  lemma U16BytesOfRead(b: seq<byte>)
    requires |b| == 2
    ensures U16Bytes(ReadU16(b)) == b
  {
  }

  lemma U32RoundTrip(v: uint32)
    ensures ReadU32(U32Bytes(v)) == v
  {
    var hi, lo := v / 0x1_0000, v % 0x1_0000;
    assert v == hi * 0x1_0000 + lo;
    assert hi == (hi / 0x100) * 0x100 + hi % 0x100;
    assert lo == (lo / 0x100) * 0x100 + lo % 0x100;
  }

  /** Truncating a decoded 16-bit value keeps exactly its second (low) byte. */
  lemma Truncate8OfRead(b: seq<byte>)
    requires |b| == 2
    ensures Truncate8(ReadU16(b)) == b[1]
  {
  }

  // Two facts about byte strings, stated once so that proofs about long
  // concatenations can cite them instead of rediscovering them.

  lemma Assoc(a: seq<byte>, b: seq<byte>, c: seq<byte>)
    ensures a + b + c == a + (b + c)
  {
  }

  lemma AppendSlices(a: seq<byte>, b: seq<byte>)
    ensures (a + b)[..|a|] == a && (a + b)[|a|..] == b
  {
  }
}
