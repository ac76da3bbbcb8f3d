/** Option, the failure-carrying datatype the model uses where the program
    has `None`, a caught exception or an early return, and two facts about
    a list: the set of its elements and whether it repeats one. */
module Wrappers {

  datatype Option<+T> = None | Some(value: T)

  /** The elements of a list, as a set (`set(s)`). */
  function SetOf<T(!new)>(s: seq<T>): (r: set<T>)
    ensures forall x :: x in r <==> x in s
  {
    set x | x in s
  }

  /** No element occurs twice (the ids of a table, in any order). */
  predicate Distinct<T(==)>(s: seq<T>) {
    forall i, j :: 0 <= i < j < |s| ==> s[i] != s[j]
  }
}
