/** What several modules share. */
module Prelude {

  datatype Option<T> = None | Some(value: T)

  type Byte = b: int | 0 <= b < 256

  lemma Joined<T>(a: seq<T>, b: seq<T>, c: seq<T>)
    ensures a + b + c == a + (b + c)
  {}
}
