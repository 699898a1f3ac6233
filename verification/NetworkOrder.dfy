// Numbers in network byte order.
module NetworkOrder {
  import opened Records

  /** read_u16 */
  function U16(q: seq<byte>, off: nat): (v: nat)
    requires off + 1 < |q|
    ensures v < 0x1_0000
  {
    var hi: int := q[off];
    hi * 256 + q[off + 1]
  }

  /** The bytes that write_u16 stores for a value. */
  function Bytes16(v: nat): (b: seq<byte>)
    ensures |b| == 2 && U16(b, 0) == v % 0x1_0000
  {
    [(v / 256) % 256, v % 256]
  }

  /** The bytes that write_u32 stores for a value. */
  function Bytes32(v: nat): (b: seq<byte>)
    ensures |b| == 4 && U16(b, 0) * 0x1_0000 + U16(b, 2) == v % 0x1_0000_0000
  {
    Bytes16(v / 0x1_0000) + Bytes16(v)
  }
}
