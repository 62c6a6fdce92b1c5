/** Facts about sequences that the other modules share. */
module Sequences {

  /** No two positions hold the same element. */
  predicate Distinct<T(==)>(s: seq<T>)
  {
    forall i, j | 0 <= i < j < |s| :: s[i] != s[j]
  }
}
