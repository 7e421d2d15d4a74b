// Ordered traversal of sets of unsigned keys: std::set and std::map visit
// their keys in ascending order, which the models follow by repeatedly
// taking the smallest remaining key.
module OrderedSets {

  lemma {:induction false} SetMinExists(s: set<nat>, x: nat)
    requires x in s
    ensures exists m :: m in s && forall y :: y in s ==> m <= y
    decreases x
  {
    if !(forall y :: y in s ==> x <= y) {
      var y :| y in s && y < x;
      SetMinExists(s, y);
    }
  }

  /** The smallest element: std::set iterates in ascending order. */
  function SetMin(s: set<nat>): (m: nat)
    requires s != {}
    ensures m in s && forall x :: x in s ==> m <= x
  {
    var x :| x in s;
    SetMinExists(s, x);
    var m :| m in s && forall x :: x in s ==> m <= x;
    m
  }
}
