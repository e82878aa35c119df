/** The scripting language's runtime values, as far as the host objects use them. */
module Values {

  /** A tagged runtime value. `Number` is a double in the host and a real number
      here: rounding is not modelled, and no operation of the host objects rounds
      (see the counter module for why its numbers stay exact). `ObjectRef` is an
      opaque handle: object identity and lifetime are not modelled. */
  datatype Value =
    | Void
    | Number(n: real)
    | Str(s: string)
    | Boolean(b: bool)
    | ObjectRef(handle: nat)
    | Array(items: seq<Value>)
}
