/**
 The library sort used by the modelled code.  Proofs use its contract only, so
 elements with equal keys may come out in any order.
 */
module Sorting {

  ghost predicate SortedBy<T(!new)>(s: seq<T>, key: T -> int) {
    forall i, j :: 0 <= i < j < |s| ==> key(s[i]) <= key(s[j])
  }

  function SortBy<T(!new)>(s: seq<T>, key: T -> int): (out: seq<T>)
    ensures SortedBy(out, key) && multiset(out) == multiset(s)
    ensures |out| == |s| && forall x :: x in out <==> x in s
  {
    if s == [] then [] else
    assert s == [s[0]] + s[1..];
    var out := Insert(s[0], SortBy(s[1..], key), key);
    SameElements(out, s);
    out
  }

  function Insert<T(!new)>(x: T, s: seq<T>, key: T -> int): (out: seq<T>)
    requires SortedBy(s, key)
    ensures SortedBy(out, key) && multiset(out) == multiset(s) + multiset{x}
    ensures |out| > 0 && (out[0] == x || (s != [] && out[0] == s[0]))
  {
    if s == [] || key(x) <= key(s[0]) then
      SortedFrom(x, s, key);
      [x] + s
    else
      assert s == [s[0]] + s[1..];
      var tail := Insert(x, s[1..], key);
      SortedFrom(s[0], tail, key);
      [s[0]] + tail
  }

  lemma {:induction false} SortedFrom<T(!new)>(x: T, s: seq<T>, key: T -> int)
    requires SortedBy(s, key) && (s != [] ==> key(x) <= key(s[0]))
    ensures SortedBy([x] + s, key)
  {
    assert forall k | 0 < k < |s| :: key(s[0]) <= key(s[k]);
  }

  ghost predicate Distinct<T>(s: seq<T>) {
    forall i, j | 0 <= i < j < |s| :: s[i] != s[j]
  }

  lemma {:induction false} SameElements<T>(a: seq<T>, b: seq<T>)
    requires multiset(a) == multiset(b)
    ensures |a| == |b| && forall x :: x in a <==> x in b
  {
    assert |multiset(a)| == |multiset(b)|;
    assert forall x :: x in a <==> x in multiset(a);
    assert forall x :: x in b <==> x in multiset(b);
  }

  lemma {:induction false} SameEmptiness(s: seq<int>, elements: set<int>)
    requires forall x :: x in s <==> x in elements
    ensures s == [] <==> elements == {}
  {
    if s != [] {
      var x := s[0];
      assert x in s;
      assert x in elements;
    } else {
      assert forall x :: x !in elements;
      assert elements == {};
    }
  }
}
