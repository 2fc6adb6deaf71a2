/** The values of the configuration language (`ol.h`): a tagged union of
    decimal and hexadecimal integers, floating-point literals, identifiers,
    strings and blocks, where a block is a list of fields with an optional
    key. */
module OlValues {
  import opened Results

  /** The tags of `OlValueType`.  The C code keeps them as one-bit flags so
      that a set of allowed tags is a bitmask; here it is a `set<Kind>`. */
  datatype Kind = DecKind | HexKind | FpKind | IdentKind | StrKind | BlockKind

  /** An `OlValue`.  Integers are the `uint64_t` the parser stores; a
      floating-point literal keeps its sign and digit text, since `atof` is
      not part of this model.  Strings and identifiers are byte strings; a
      string keeps every byte read, where C's NUL-terminated copy would end
      at the first NUL. */
  datatype Value =
    | Dec(dec: int)
    | Hex(hex: int)
    | Fp(sign: int, text: seq<int>)
    | Ident(ident: seq<int>)
    | Str(str: seq<int>)
    | Block(fields: seq<Field>)

  /** An `OlField`: `key = value`, or a bare value with no key. */
  datatype Field = Field(key: Option<Value>, value: Value)

  function KindOf(v: Value): Kind {
    match v
    case Dec(_) => DecKind
    case Hex(_) => HexKind
    case Fp(_, _) => FpKind
    case Ident(_) => IdentKind
    case Str(_) => StrKind
    case Block(_) => BlockKind
  }
}
