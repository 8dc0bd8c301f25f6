/** Distinct elements and how many of them there can be. */
module Counting {

  ghost predicate NoDuplicates<T>(s: seq<T>)
  {
    forall i, j :: 0 <= i < j < |s| ==> s[i] != s[j]
  }

  ghost function Range(n: nat): (s: set<nat>)
    ensures |s| == n && forall i :: i in s <==> 0 <= i < n
  {
    if n == 0 then {} else Range(n - 1) + {n - 1}
  }

  ghost function Elements<T>(s: seq<T>): set<T>
  {
    set x | x in s
  }

  lemma {:induction false} ElementsCount<T>(s: seq<T>)
    requires NoDuplicates(s)
    ensures |Elements(s)| == |s|
  {
    if s != [] {
      var init, last := s[..|s| - 1], s[|s| - 1];
      ElementsCount(init);
      assert s == init + [last];
      assert Elements(s) == Elements(init) + {last};
      assert last !in init;
    }
  }

  lemma SubsetSize<T>(a: set<T>, b: set<T>)
    requires a <= b
    ensures |a| <= |b|
  {
    assert b == a + (b - a);
  }

  lemma DistinctBelow(s: seq<nat>, n: nat)
    requires NoDuplicates(s) && forall x :: x in s ==> x < n
    ensures |s| <= n
  {
    ElementsCount(s);
    SubsetSize(Elements(s), Range(n));
  }
}
