/** Small wrapper types and sequence facts shared by every module. */
module Wrappers {

  /** An optional value: Go's nil pointer or nil slice versus a present one. */
  datatype Option<+T> = None | Some(value: T)

  lemma ConcatAssoc<T>(a: seq<T>, b: seq<T>, c: seq<T>)
    ensures a + (b + c) == (a + b) + c
  {
  }
}
