/** sort.Slice: some reordering of a slice that its comparison accepts, and nothing more. */
module Sorting {

  ghost predicate TotalPreorder<T(!new)>(leq: (T, T) -> bool) {
    && (forall a, b :: leq(a, b) || leq(b, a))
    && (forall a, b, c :: leq(a, b) && leq(b, c) ==> leq(a, c))
  }

  ghost predicate Sorted<T>(s: seq<T>, leq: (T, T) -> bool) {
    forall i, j :: 0 <= i < j < |s| ==> leq(s[i], s[j])
  }

  /** Callers learn nothing about how elements that compare equal end up. */
  method SortSlice<T(!new)>(s: seq<T>, leq: (T, T) -> bool) returns (r: seq<T>)
    requires TotalPreorder(leq)
    ensures Sorted(r, leq)
    ensures multiset(r) == multiset(s) && |r| == |s|
  {
    r := [];
    for n := 0 to |s|
      invariant Sorted(r, leq)
      invariant multiset(r) == multiset(s[..n])
    {
      var i := 0;
      while i < |r| && leq(r[i], s[n])
        invariant i <= |r|
        invariant forall k :: 0 <= k < i ==> leq(r[k], s[n])
      {
        i := i + 1;
      }
      r := Inserted(r, i, s[n], leq);
      assert s[..n + 1] == s[..n] + [s[n]];
    }
    assert s[..|s|] == s;
    assert |multiset(r)| == |r| && |multiset(s)| == |s|;
  }

  function Inserted<T(!new)>(r: seq<T>, i: nat, x: T, ghost leq: (T, T) -> bool): (t: seq<T>)
    requires TotalPreorder(leq) && Sorted(r, leq) && i <= |r|
    requires forall k :: 0 <= k < i ==> leq(r[k], x)
    requires i < |r| ==> !leq(r[i], x)
    ensures Sorted(t, leq) && multiset(t) == multiset(r) + multiset{x}
  {
    InsertedFits(r, i, x, leq);
    r[..i] + [x] + r[i..]
  }

  lemma InsertedFits<T(!new)>(r: seq<T>, i: nat, x: T, leq: (T, T) -> bool)
    requires TotalPreorder(leq) && Sorted(r, leq) && i <= |r|
    requires forall k :: 0 <= k < i ==> leq(r[k], x)
    requires i < |r| ==> !leq(r[i], x)
    ensures Sorted(r[..i] + [x] + r[i..], leq)
    ensures multiset(r[..i] + [x] + r[i..]) == multiset(r) + multiset{x}
  {
    InsertedAdds(r, i, x);
    forall k | i <= k < |r| ensures leq(x, r[k]) {
      assert leq(x, r[i]);
      if k > i { assert leq(r[i], r[k]); }
    }
    hide TotalPreorder;
  }

  lemma InsertedAdds<T>(r: seq<T>, i: nat, x: T)
    requires i <= |r|
    ensures multiset(r[..i] + [x] + r[i..]) == multiset(r) + multiset{x}
  {
    assert r == r[..i] + r[i..];
  }

  lemma CountTwice<T>(s: seq<T>, i: nat, j: nat)
    requires i < j < |s| && s[i] == s[j]
    ensures multiset(s)[s[i]] >= 2
  {
    assert s == s[..i] + [s[i]] + s[i + 1..j] + [s[j]] + s[j + 1..];
  }

  lemma {:induction false} TwiceMeansPair<T>(s: seq<T>, x: T)
    requires multiset(s)[x] >= 2
    ensures exists i, j :: 0 <= i < j < |s| && s[i] == x && s[j] == x
  {
    var front := s[..|s| - 1];
    assert s == front + [s[|s| - 1]];
    if multiset(front)[x] >= 2 {
      TwiceMeansPair(front, x);
      var i, j :| 0 <= i < j < |front| && front[i] == x && front[j] == x;
      assert s[i] == x && s[j] == x;
    } else {
      assert s[|s| - 1] == x && x in front;
      var i :| 0 <= i < |front| && front[i] == x;
      assert s[i] == x && s[|s| - 1] == x;
    }
  }
}
