/** The C-level integer conversions the bindings perform implicitly.
    Dafny integers are unbounded, so every narrowing or sign change that
    the C code relies on is written out here once. */
module CTypes {

  /** One byte of a buffer or of a Lua string. */
  type byte = x: int | 0 <= x < 256

  const TWO_TO_THE_31: int := 0x8000_0000
  const TWO_TO_THE_32: int := 0x1_0000_0000
  const TWO_TO_THE_63: int := 0x8000_0000_0000_0000
  const TWO_TO_THE_64: int := 0x1_0000_0000_0000_0000

  /** Largest value of a C `int`. */
  const INT_MAX: int := TWO_TO_THE_31 - 1

  /** A `lua_Integer` (a signed 64-bit integer), as returned by
      `luaL_checkinteger` and `luaL_optinteger`. */
  type LuaInteger = x: int | -TWO_TO_THE_63 <= x < TWO_TO_THE_63

  /** Conversion of a signed integer to `size_t` (64 bits): a negative
      value wraps around to a huge unsigned one. */
  function ToSizeT(x: LuaInteger): (u: nat)
    ensures u < TWO_TO_THE_64
    ensures x >= 0 ==> u == x
    ensures x < 0 ==> u == x + TWO_TO_THE_64 && u >= TWO_TO_THE_63
  {
    x % TWO_TO_THE_64
  }

  /** Conversion of a `lua_Integer` to a C `int` as the usual compilers do
      it: the value is reduced modulo 2^32 into the signed 32-bit range. */
  function ToInt32(x: int): (i: int)
    ensures -TWO_TO_THE_31 <= i < TWO_TO_THE_31
    ensures (i - x) % TWO_TO_THE_32 == 0
    ensures -TWO_TO_THE_31 <= x < TWO_TO_THE_31 ==> i == x
  {
    (x + TWO_TO_THE_31) % TWO_TO_THE_32 - TWO_TO_THE_31
  }

  /** The `int` a C `char` holding byte `b` promotes to. Whether plain
      `char` is signed depends on the target, so it is a parameter. */
  function CharValue(b: byte, charIsSigned: bool): (v: int)
    ensures 0 <= b < 128 ==> v == b
    ensures !charIsSigned ==> v == b
    ensures charIsSigned ==> -128 <= v < 128
    ensures charIsSigned && b >= 128 ==> v == b - 256
  {
    if charIsSigned && b >= 128 then b - 256 else b
  }

  /** `a` clamped to at most `limit`. */
  function Min(a: nat, limit: nat): nat
  {
    if a > limit then limit else a
  }
}
