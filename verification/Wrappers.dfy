/** What may be absent: `null`, `undefined`, `None`, NULL. */
module Wrappers {

  datatype Option<+T> = None | Some(value: T)

  /** One character of a Python string: any code point, surrogates included. */
  type CodePoint = c: int | 0 <= c < 0x11_0000

  /** A name as Python holds it: a package name, a label, a path, a version. */
  type Name = seq<CodePoint>
}
