/** What all models share. */
module Basics {

  type byte = bv8

  datatype Option<+T> = None | Some(value: T)

  /** No two places of q hold the same element. */
  ghost predicate Distinct<T>(q: seq<T>) {
    forall i, j :: 0 <= i < j < |q| ==> q[i] != q[j]
  }
}
