// Small helpers shared by every component of the model.
module Prelude {

  datatype Option<+T> = None | Some(value: T)

  lemma Pick<T>(s: set<T>) returns (x: T)
    requires s != {}
    ensures x in s
  {
    x :| x in s;
  }

  lemma HasMinimum(s: set<int>)
    requires s != {}
    ensures exists m :: m in s && forall x :: x in s ==> m <= x
  {
    var y := Pick(s);
    if s != {y} {
      HasMinimum(s - {y});
      var n :| n in s - {y} && forall x :: x in s - {y} ==> n <= x;
      var m := if y < n then y else n;
      assert forall x :: x in s ==> x == y || x in s - {y};
      assert m in s && forall x :: x in s ==> m <= x;
    }
  }

  ghost predicate Increasing(xs: seq<int>) {
    forall i, j :: 0 <= i < j < |xs| ==> xs[i] < xs[j]
  }

  /** The elements of a set in increasing order: what collecting the keys of a Go
      map and calling sort.Slice on them yields. */
  function Sorted(s: set<int>): (xs: seq<int>)
    ensures Increasing(xs)
    ensures forall x :: x in xs <==> x in s
  {
    if s == {} then [] else
      HasMinimum(s);
      var m :| m in s && forall x :: x in s ==> m <= x;
      [m] + Sorted(s - {m})
  }
}
