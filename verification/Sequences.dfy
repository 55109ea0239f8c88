/** Sequences of numbers in which nothing occurs twice. */
module Sequences {
  predicate NoRepeats(s: seq<nat>) {
    forall i, j | 0 <= i < j < |s| :: s[i] != s[j]
  }
}
