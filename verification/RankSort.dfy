/** Sorting by an integer rank: the contract of the library's sort, realised by insertion. */
module RankSort {
  predicate Ranked<T>(s: seq<T>, rank: T -> int) {
    forall i, j :: 0 <= i < j < |s| ==> rank(s[i]) <= rank(s[j])
  }

  lemma InsertedAt<T>(s: seq<T>, i: nat, x: T)
    requires i <= |s|
    ensures multiset(s[..i] + [x] + s[i..]) == multiset(s) + multiset{x}
  {
    assert s == s[..i] + s[i..];
  }

  method Insert<T>(s: seq<T>, x: T, rank: T -> int) returns (r: seq<T>)
    requires Ranked(s, rank)
    ensures Ranked(r, rank) && multiset(r) == multiset(s) + multiset{x}
  {
    var i := |s|;
    while i > 0 && rank(s[i - 1]) > rank(x)
      invariant 0 <= i <= |s|
      invariant forall k :: i <= k < |s| ==> rank(s[k]) > rank(x)
    {
      i := i - 1;
    }
    r := s[..i] + [x] + s[i..];
    InsertedAt(s, i, x);
  }

  method Sort<T>(s: seq<T>, rank: T -> int) returns (r: seq<T>)
    ensures Ranked(r, rank) && multiset(r) == multiset(s)
  {
    r := [];
    for k := 0 to |s|
      invariant Ranked(r, rank) && multiset(r) == multiset(s[..k])
    {
      r := Insert(r, s[k], rank);
      assert s[..k + 1] == s[..k] + [s[k]];
    }
    assert s[..|s|] == s;
  }

  lemma SameElements<T>(s: seq<T>, t: seq<T>)
    requires multiset(s) == multiset(t)
    ensures |s| == |t| && forall x :: x in s <==> x in t
  {
    assert |s| == |multiset(s)| && |t| == |multiset(t)|;
    forall x
      ensures x in s <==> x in t
    {
      assert x in s <==> x in multiset(s);
      assert x in t <==> x in multiset(t);
    }
  }
}
