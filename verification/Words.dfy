/** Machine words and the copying of bytes. */
module Words {
  type byte = b: int | 0 <= b < 0x100
  type uint16 = x: int | 0 <= x < 0x1_0000
  type uint32 = x: int | 0 <= x < 0x1_0000_0000
  type int16 = x: int | -0x8000 <= x < 0x8000
  type int32 = x: int | -0x8000_0000 <= x < 0x8000_0000

  /** `memcpy` of `src` to `at`. */
  function Splice(data: seq<byte>, at: nat, src: seq<byte>): seq<byte>
    requires at + |src| <= |data|
  {
    data[..at] + src + data[at + |src|..]
  }

  /** The wrap-around of 32-bit unsigned arithmetic. */
  function U32(x: int): (r: int)
    ensures 0 <= r < 0x1_0000_0000
  {
    x % 0x1_0000_0000
  }

  /** The same 32 bits read as a signed number. */
  function I32(x: uint32): int32 {
    if x < 0x8000_0000 then x else x - 0x1_0000_0000
  }

  /** One more, in 16 bits with a sign. */
  function Next16(x: int16): int16 {
    if x == 0x7fff then -0x8000 else x + 1
  }

  lemma U32Exact(x: int)
    requires 0 <= x < 0x1_0000_0000
    ensures U32(x) == x
  {
  }
}
