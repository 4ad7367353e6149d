/** Bytes, 16-bit big-endian fields and the optional results shared by every module. */
module Bytes {

  type byte = x: int | 0 <= x < 0x100

  type u16 = x: int | 0 <= x < 0x1_0000

  datatype Option<+T> = None | Some(value: T)

  function U16(hi: byte, lo: byte): u16 {
    hi * 0x100 + lo
  }

  function U16Bytes(v: u16): seq<byte> {
    [v / 0x100, v % 0x100]
  }

  /** A counter of the C type uint32_t. */
  function Wrap32(v: int): nat {
    v % 0x1_0000_0000
  }

  /** The value of a NUL-terminated character buffer: everything before the first NUL. */
  function CString(s: seq<byte>): (r: seq<byte>)
    ensures 0 !in r && r <= s
    ensures |r| < |s| ==> s[|r|] == 0
  {
    if s == [] || s[0] == 0 then [] else [s[0]] + CString(s[1..])
  }

  function Min(a: int, b: int): int {
    if a < b then a else b
  }
}
