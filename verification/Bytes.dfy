/** Types and sequence facts shared by the byte-level components. */
module Bytes {
  /** One unsigned 8-bit cell of memory or of a file. */
  type byte = x: int | 0 <= x < 256

  datatype Option<+T> = None | Some(value: T)

  lemma Assoc<T>(a: seq<T>, b: seq<T>, c: seq<T>)
    ensures a + (b + c) == (a + b) + c
  {}

  /** Dropping twice, and dropping a whole prefix. */
  lemma DropDrop<T>(s: seq<T>, i: nat, j: nat)
    requires i + j <= |s|
    ensures s[i..][j..] == s[i + j..]
  {}

  lemma DropAppend<T>(a: seq<T>, b: seq<T>)
    ensures (a + b)[|a|..] == b && (a + b)[..|a|] == a
  {}
}
