/** Small declarations the other modules share. */
module Wrappers {

  datatype Option<+T> = None | Some(value: T)

  /** A set of numbers that is not empty has a member to pick. */
  lemma SomeMember(s: set<int>)
    requires s != {}
    ensures exists x :: x in s
  {
    if forall x :: x !in s { assert false; }
  }
}
