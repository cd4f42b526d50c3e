/** Sets walked in ascending order, as a `BTreeSet` or a `sorted(...)` list walks them. */
module Ordering {

  ghost predicate StrictlyAscending(s: seq<int>) {
    forall i, j :: 0 <= i < j < |s| ==> s[i] < s[j]
  }

  /** Some element of a set that has one. */
  ghost function Pick<T>(s: set<T>): (x: T)
    requires s != {}
    ensures x in s
  {
    var x :| x in s; x
  }

  lemma {:induction false} LeastExists(s: set<int>)
    requires s != {}
    ensures exists x :: x in s && forall y :: y in s ==> x <= y
  {
    var x := Pick(s);
    var rest := s - {x};
    if rest == {} {
      assert s == {x};
    } else {
      LeastExists(rest);
      var y :| y in rest && forall z :: z in rest ==> y <= z;
      var least := if x <= y then x else y;
      forall z | z in s ensures least <= z {
        assert z == x || z in rest;
      }
      assert least in s;
    }
  }

  function Least(s: set<int>): (x: int)
    requires s != {}
    ensures x in s && forall y :: y in s ==> x <= y
  {
    LeastExists(s);
    var x :| x in s && forall y :: y in s ==> x <= y;
    x
  }

  /** The elements of `s`, each once, smallest first. */
  function Ascending(s: set<int>): (r: seq<int>)
    ensures StrictlyAscending(r)
    ensures |r| == |s|
    ensures forall x :: x in r <==> x in s
  {
    if s == {} then [] else
      var x := Least(s);
      [x] + Ascending(s - {x})
  }

  /** A strictly ascending sequence is determined by its elements. */
  lemma {:induction false} AscendingIsUnique(r: seq<int>, s: set<int>)
    requires StrictlyAscending(r)
    requires forall x :: x in r <==> x in s
    ensures r == Ascending(s)
    decreases |r|
  {
    if r == [] {
      assert forall x :: x !in s;
    } else {
      var x := r[0];
      assert x in s;
      assert Least(s) in r;
      var tail := r[1..];
      assert r == [x] + tail;
      forall y ensures y in tail <==> y in s - {x} {
        if y in tail {
          var k :| 0 <= k < |tail| && tail[k] == y;
          assert r[k + 1] == y && y in r;
        }
        if y in s - {x} {
          var k :| 0 <= k < |r| && r[k] == y;
          assert tail[k - 1] == y;
        }
      }
      AscendingIsUnique(tail, s - {x});
    }
  }
}
