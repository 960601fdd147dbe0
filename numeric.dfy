/** Fixed-width integers of the .NET runtime, written out over unbounded `int`. */
module Numeric {

  const TwoTo32: int := 0x1_0000_0000

  /** A byte (`System.Byte`). */
  type Byte = x: int | 0 <= x < 0x100

  /** A signed 32-bit integer (`System.Int32`, C# `int`). */
  type Int32 = x: int | -0x8000_0000 <= x < 0x8000_0000

  /** An unsigned 32-bit integer (`System.UInt32`). */
  type UInt32 = x: int | 0 <= x < 0x1_0000_0000

  /** The `unchecked((uint)x)` cast: the same 32 bits read as unsigned. */
  function AsUnsigned(x: Int32): (u: UInt32)
    ensures u == x % TwoTo32
    ensures 0 <= x ==> u == x
  {
    if x < 0 then x + TwoTo32 else x
  }

  /** The `unchecked((int)u)` cast: the same 32 bits read as signed. */
  function AsSigned(u: UInt32): (x: Int32)
    ensures AsUnsigned(x) == u
  {
    if u < 0x8000_0000 then u else u - TwoTo32
  }

  /** Reinterpreting the bits twice gives back the signed value. */
  lemma SignedUnsignedRoundTrip(x: Int32)
    ensures AsSigned(AsUnsigned(x)) == x
  {
  }
}
