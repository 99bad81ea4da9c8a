/** A value or none; lists without repeats and what is in them. */
module Basics {

  datatype Option<T> = None | Some(value: T)

  predicate Distinct(s: seq<int>) {
    forall i, j :: 0 <= i < j < |s| ==> s[i] != s[j]
  }

  function Elems(s: seq<int>): set<int> {
    set x | x in s
  }
}
