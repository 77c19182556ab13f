/** Strictly ascending sequences of integers. */
module Sorting {
  ghost predicate Ascending(s: seq<int>) {
    forall i, j :: 0 <= i < j < |s| ==> s[i] < s[j]
  }

  /** Insert a new element in place. */
  function Insert(x: int, s: seq<int>): (r: seq<int>)
    requires Ascending(s) && x !in s
    ensures Ascending(r) && |r| == |s| + 1
    ensures forall y :: y in r <==> y == x || y in s
  {
    if s == [] || x < s[0] then [x] + s
    else
      var rest := Insert(x, s[1..]);
      assert forall i :: 0 <= i < |rest| ==> s[0] < rest[i] by {
        assert forall i :: 0 <= i < |rest| ==> rest[i] in rest;
      }
      [s[0]] + rest
  }

  lemma HasElement(s: seq<int>)
    requires s != []
    ensures exists x :: x in s
  {
    var x := s[0];
    assert x in s;
  }

  /** An ascending sequence is determined by its elements. */
  lemma {:induction false} AscendingIsDetermined(a: seq<int>, b: seq<int>)
    requires Ascending(a) && Ascending(b)
    requires forall x :: x in a <==> x in b
    ensures a == b
  {
    if a == [] {
      if b != [] {
        HasElement(b);
      }
    } else {
      assert a[0] in b && b[0] in a;
      assert a[0] == b[0];
      forall x | x in a[1..] || x in b[1..] ensures x in a[1..] && x in b[1..] {
        assert x in a && x in b;
        assert x != a[0];
      }
      AscendingIsDetermined(a[1..], b[1..]);
      assert a == [a[0]] + a[1..] && b == [b[0]] + b[1..];
    }
  }
}
