/** Facts about sequences of numbers, which name states, pages and blocks. */
module Sequences {

  ghost predicate Distinct(s: seq<nat>) {
    forall i, j :: 0 <= i < j < |s| ==> s[i] != s[j]
  }

  lemma FirstIn(s: seq<nat>)
    requires s != []
    ensures s[0] in s
  {
  }
}
