/**
 * Little-endian views of the shared I/O data area. On x86 a store through an
 * `unsigned short *` or a load through an `unsigned int *` puts the least
 * significant byte at the lowest address; the dispatcher relies on both.
 */
module LittleEndian {

  /** The two bytes, lowest address first, that a 16-bit store writes. */
  function Bytes16(v: bv16): (r: seq<bv8>)
    ensures |r| == 2
  {
    [(v & 0xff) as bv8, (v >> 8) as bv8]
  }

  /** The 16-bit value held in the first two bytes of `b`; storing it back gives the same two. */
  function Value16(b: seq<bv8>): (r: bv16)
    requires |b| >= 2
    ensures Bytes16(r) == b[..2]
  {
    (b[0] as bv16) | ((b[1] as bv16) << 8)
  }

  /** The four bytes, lowest address first, that a 32-bit store writes. */
  function Bytes32(v: bv32): (r: seq<bv8>)
    ensures |r| == 4
  {
    [(v & 0xff) as bv8, ((v >> 8) & 0xff) as bv8, ((v >> 16) & 0xff) as bv8, (v >> 24) as bv8]
  }

  /**
   * The 32-bit value a 32-bit load reads from the first four bytes of `b`.
   * The load keeps every byte: storing the value back gives the same four.
   */
  function Value32(b: seq<bv8>): (r: bv32)
    requires |b| >= 4
    ensures Bytes32(r) == b[..4]
  {
    (b[0] as bv32) | ((b[1] as bv32) << 8) | ((b[2] as bv32) << 16) | ((b[3] as bv32) << 24)
  }

  /** `b` with its first two bytes replaced by the 16-bit store of `v`. */
  function Store16(b: seq<bv8>, v: bv16): (r: seq<bv8>)
    requires |b| >= 2
    ensures |r| == |b|
    ensures Value16(r) == v
    ensures r[2..] == b[2..]
  {
    Bytes16(v) + b[2..]
  }

  /** Reading back a 16-bit store gives the stored value. */
  lemma Value16OfBytes16(v: bv16)
    ensures Value16(Bytes16(v)) == v
  {
  }

  /** Reading back a 32-bit store gives the stored value. */
  lemma Value32OfBytes32(v: bv32)
    ensures Value32(Bytes32(v)) == v
  {
  }
}
