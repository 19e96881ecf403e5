/** The library's unstable sort: the same elements in order, ties in any order. */
module Sorting {
  ghost predicate TotalPreorder<T(!new)>(leq: (T, T) -> bool) {
    && (forall a, b :: leq(a, b) || leq(b, a))
    && (forall a, b, c :: leq(a, b) && leq(b, c) ==> leq(a, c))
  }

  ghost predicate SortedBy<T>(leq: (T, T) -> bool, s: seq<T>) {
    forall i, j | 0 <= i < j < |s| :: leq(s[i], s[j])
  }

  method Insert<T(!new)>(leq: (T, T) -> bool, s: seq<T>, x: T) returns (r: seq<T>)
    requires TotalPreorder(leq) && SortedBy(leq, s)
    ensures SortedBy(leq, r) && multiset(r) == multiset(s) + multiset{x}
  {
    hide SortedBy;
    var at := 0;
    while at < |s| && leq(s[at], x)
      invariant 0 <= at <= |s|
      invariant forall i | 0 <= i < at :: leq(s[i], x)
    {
      at := at + 1;
    }
    r := s[..at] + [x] + s[at..];
    assert s == s[..at] + s[at..];
    InsertedSorted(leq, s, x, at);
  }

  lemma InsertedSorted<T(!new)>(leq: (T, T) -> bool, s: seq<T>, x: T, at: nat)
    requires TotalPreorder(leq) && SortedBy(leq, s) && at <= |s|
    requires forall i | 0 <= i < at :: leq(s[i], x)
    requires at < |s| ==> !leq(s[at], x)
    ensures SortedBy(leq, s[..at] + [x] + s[at..])
  {
    forall j | at <= j < |s|
      ensures leq(x, s[j])
    {
      assert leq(x, s[at]);
      assert j > at ==> leq(s[at], s[j]);
    }
  }

  method Sort<T(!new)>(leq: (T, T) -> bool, s: seq<T>) returns (r: seq<T>)
    requires TotalPreorder(leq)
    ensures SortedBy(leq, r) && multiset(r) == multiset(s)
  {
    r := [];
    for n := 0 to |s|
      invariant SortedBy(leq, r) && multiset(r) == multiset(s[..n])
    {
      assert s[..n + 1] == s[..n] + [s[n]];
      r := Insert(leq, r, s[n]);
    }
    assert s[..|s|] == s;
  }
}
