/** Ascending enumeration of a finite set of integers, the order in which a
    sorted-map key set is iterated. */
module Ordered {

  ghost predicate StrictlyAscending(s: seq<int>)
  {
    forall i, j :: 0 <= i < j < |s| ==> s[i] < s[j]
  }

  predicate IsLeast(m: int, s: set<int>)
  {
    m in s && forall y :: y in s ==> m <= y
  }

  /** A set other than the empty set has a member. */
  lemma NonEmptyHasMember(s: set<int>)
    requires s != {}
    ensures exists y :: y in s
  {
    if forall y :: y !in s {
      assert false;
    }
  }

  lemma Pick(s: set<int>) returns (x: int)
    requires s != {}
    ensures x in s
  {
    NonEmptyHasMember(s);
    x :| x in s;
  }

  /** Adding x to a set whose least element is m gives the smaller of the two
      as least element. */
  lemma LeastOfInsert(x: int, rest: set<int>, m: int)
    requires IsLeast(m, rest)
    ensures IsLeast(if x < m then x else m, rest + {x})
  {
  }

  /** Every non-empty finite set has a least element. */
  lemma {:induction false} LeastExists(s: set<int>)
    requires s != {}
    ensures exists m :: IsLeast(m, s)
    decreases |s|
  {
    var x := Pick(s);
    if s == {x} {
      assert IsLeast(x, s);
    } else {
      var rest := s - {x};
      LeastExists(rest);
      var m :| IsLeast(m, rest);
      LeastOfInsert(x, rest, m);
      assert rest + {x} == s;
    }
  }

  function Least(s: set<int>): (m: int)
    requires s != {}
    ensures m in s && forall y :: y in s ==> m <= y
  {
    LeastExists(s);
    var m :| IsLeast(m, s);
    m
  }

  /** The elements of s in strictly ascending order, each exactly once. */
  function SortedElements(s: set<int>): (r: seq<int>)
    ensures StrictlyAscending(r)
    ensures forall x :: x in r <==> x in s
    ensures |r| == |s|
    decreases |s|
  {
    if s == {} then []
    else
      var m := Least(s);
      var rest := SortedElements(s - {m});
      assert forall i :: 0 <= i < |rest| ==> rest[i] in s - {m};
      [m] + rest
  }
}
