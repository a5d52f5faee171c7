/**
 * Little-endian unsigned integers as Python's `struct` module reads them
 * with the `<H` (2 bytes) and `<I` (4 bytes) codes.
 */
module LittleEndian {

  /** One byte of memory. */
  type Byte = x: int | 0 <= x < 0x100

  /** Python `struct` code `H`: unsigned 16-bit. */
  type U16 = x: int | 0 <= x < 0x1_0000

  /** Python `struct` code `I`: unsigned 32-bit. */
  type U32 = x: int | 0 <= x < 0x1_0000_0000

  /** Unpacks `<H`: the low byte comes first. */
  function ToU16(b: seq<Byte>): (x: U16)
    requires |b| == 2
    ensures FromU16(x) == b
  {
    b[0] as int + 0x100 * (b[1] as int)
  }

  /** Unpacks `<I`: the low 16-bit half comes first. */
  function ToU32(b: seq<Byte>): (x: U32)
    requires |b| == 4
    ensures FromU32(x) == b
  {
    var lo, hi := ToU16(b[0..2]), ToU16(b[2..4]);
    var x := lo + 0x1_0000 * hi;
    assert x % 0x1_0000 == lo && x / 0x1_0000 == hi;
    assert FromU32(x) == FromU16(lo) + FromU16(hi);
    assert b == b[0..2] + b[2..4];
    x
  }

  /** Packs `<H`. */
  function FromU16(x: U16): (b: seq<Byte>)
    ensures |b| == 2
  {
    [x % 0x100, x / 0x100]
  }

  /** Packs `<I`. */
  function FromU32(x: U32): (b: seq<Byte>)
    ensures |b| == 4
  {
    FromU16(x % 0x1_0000) + FromU16(x / 0x1_0000)
  }

  lemma U16RoundTrip(x: U16)
    ensures ToU16(FromU16(x)) == x
  {
  }

  lemma U32RoundTrip(x: U32)
    ensures ToU32(FromU32(x)) == x
  {
  }
}
