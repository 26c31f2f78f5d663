/** The few Lua values and C API conversions the bindings depend on.

    Lua strings are byte strings. Where a binding moves them as raw data
    (the buffer, TLS reads and writes) they are `seq<byte>`; where the log
    assembler renders them they are `string`, one character standing for
    one byte, so that the literal texts "true", "false", "nil" and the tab
    read as written. */
module Lua {
  import opened Wrappers
  import opened CTypes

  /** A value on the Lua stack, tagged by its Lua type. A number carries
      the text `lua_tolstring` produces for it and, when the number has an
      exact integer value, that integer. Every type the bindings do not
      look at (tables, functions, userdata, threads) is `Other`. */
  datatype LuaValue =
    | Nil
    | Boolean(b: bool)
    | Number(text: string, exact: Option<LuaInteger>)
    | Str(s: string)
    | Other(typeName: string)

  /** `lua_toboolean`: only nil and false are false. An absent argument
      reads as nil. */
  function Truthy(v: LuaValue): (t: bool)
    ensures v.Nil? ==> !t
    ensures v.Boolean? ==> t == v.b
    ensures !v.Nil? && !v.Boolean? ==> t
  {
    match v
    case Nil => false
    case Boolean(b) => b
    case _ => true
  }

  /** `lua_tointeger`: a number with an exact integer value gives that
      integer, every other value gives 0. */
  function ToInteger(v: LuaValue): (i: LuaInteger)
    ensures v.Number? && v.exact.Some? ==> i == v.exact.value
    ensures v.Number? && v.exact.None? ==> i == 0
    ensures !v.Number? ==> i == 0
  {
    if v.Number? then v.exact.GetOr(0) else 0
  }
}
