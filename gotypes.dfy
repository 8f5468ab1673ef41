/** Go's value types as the agent uses them. */
module GoTypes {

  /** A Go `byte` (uint8). */
  type byte = x: int | 0 <= x < 256

  /** A Go `string`: an immutable sequence of bytes with no encoding requirement.
      Command output, error text, topics and broker URIs are all of this type. */
  type GoString = seq<byte>

  datatype Option<+T> = None | Some(value: T)

  /** The bytes of an ASCII literal, for writing Go string constants (each
      character keeps the low 8 bits of its code, so ASCII is kept as is). */
  function Ascii(s: string): (r: GoString) {
    seq(|s|, i requires 0 <= i < |s| => (s[i] as int) % 256)
  }
}
