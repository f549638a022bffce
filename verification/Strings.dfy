/** Bytes, and the concatenation of strings. */
module Strings {
  type Byte = b: int | 0 <= b < 256

  lemma ConcatAssociative(a: string, b: string, c: string)
    ensures a + b + c == a + (b + c)
  {}
}
