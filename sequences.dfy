/** Facts about sequences of identifiers shared by the modules below. */
module Sequences {

  /** No identifier occurs twice. */
  predicate Distinct(s: seq<int>)
  {
    forall i, j :: 0 <= i < j < |s| ==> s[i] != s[j]
  }
}
