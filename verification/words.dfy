/** The fixed-width unsigned integers of the Rust toolchain, as ranges of
    `int`, and the wrapping arithmetic it applies to them. */
module Words {

  newtype u8 = x: int | 0 <= x < 0x100
  newtype u16 = x: int | 0 <= x < 0x1_0000
  newtype u32 = x: int | 0 <= x < 0x1_0000_0000

  /** `u16::wrapping_add(1)` */
  function Inc16(a: u16): (r: u16)
    ensures r as int == (a as int + 1) % 0x1_0000
  {
    if a == 0xFFFF then 0 else a + 1
  }

  /** `u16::wrapping_sub(1)` */
  function Dec16(a: u16): (r: u16)
    ensures r as int == (a as int - 1) % 0x1_0000
  {
    if a == 0 then 0xFFFF else a - 1
  }

  /** `u32::wrapping_add(1)` */
  function Inc32(a: u32): (r: u32)
    ensures r as int == (a as int + 1) % 0x1_0000_0000
  {
    if a == 0xFFFF_FFFF then 0 else a + 1
  }

  /** `u32::wrapping_sub(1)` */
  function Dec32(a: u32): (r: u32)
    ensures r as int == (a as int - 1) % 0x1_0000_0000
  {
    if a == 0 then 0xFFFF_FFFF else a - 1
  }

  /** A wrapping decrement followed by a wrapping increment is the identity,
      even from 0: this is why a skipped character leaves `pc` unchanged. */
  lemma IncDec16(a: u16)
    ensures Inc16(Dec16(a)) == a
  {
  }

  /** Bitwise NOT of a `u16` (Rust's unary `!` on an unsigned integer):
      flipping all sixteen bits of `a` is subtracting it from 0xFFFF. */
  function Not16(a: u16): u16
  {
    0xFFFF - a
  }

  /** `u16::from_be_bytes([hi, lo])` */
  function FromBeBytes(hi: u8, lo: u8): (r: u16)
    ensures r as int / 0x100 == hi as int
    ensures r as int % 0x100 == lo as int
  {
    (hi as u16) * 0x100 + lo as u16
  }

  /** `u16::to_be_bytes`, the inverse of `FromBeBytes`. */
  function ToBeBytes(v: u16): (bytes: (u8, u8))
  {
    ((v / 0x100) as u8, (v % 0x100) as u8)
  }

  lemma BeBytesRoundTrip(v: u16, hi: u8, lo: u8)
    ensures FromBeBytes(ToBeBytes(v).0, ToBeBytes(v).1) == v
    ensures ToBeBytes(FromBeBytes(hi, lo)) == (hi, lo)
  {
  }
}
