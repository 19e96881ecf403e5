/** Permutations of `0..n` as sequences, and what mapping does to multisets. */
module Permutations {
  ghost function Iota(n: nat): (s: seq<nat>) { seq(n, i => i) }

  ghost predicate IsPermutation(p: seq<nat>, n: nat) {
    multiset(p) == multiset(Iota(n))
  }

  ghost function MapSeq<A, B>(f: A -> B, s: seq<A>): (r: seq<B>)
    ensures |r| == |s| && forall i | 0 <= i < |s| :: r[i] == f(s[i])
  {
    seq(|s|, i requires 0 <= i < |s| => f(s[i]))
  }

  lemma RemoveAt<A>(s: seq<A>, k: nat)
    requires k < |s|
    ensures multiset(s) == multiset(s[..k] + s[k + 1..]) + multiset{s[k]}
  {
    assert s == s[..k] + [s[k]] + s[k + 1..];
  }

  lemma MapSeqRemove<A, B>(f: A -> B, s: seq<A>, k: nat)
    requires k < |s|
    ensures multiset(MapSeq(f, s)) == multiset(MapSeq(f, s[..k] + s[k + 1..])) + multiset{f(s[k])}
  {
    var left, right := MapSeq(f, s)[..k] + MapSeq(f, s)[k + 1..], MapSeq(f, s[..k] + s[k + 1..]);
    forall i | 0 <= i < |left|
      ensures left[i] == right[i]
    {
      assert (s[..k] + s[k + 1..])[i] == if i < k then s[i] else s[i + 1];
    }
    assert left == right;
    RemoveAt(MapSeq(f, s), k);
  }

  lemma SplitMultiset<A>(s: seq<A>)
    requires s != []
    ensures multiset(s) == multiset(s[1..]) + multiset{s[0]}
  {
    assert s == [s[0]] + s[1..];
  }

  lemma MultisetCancel<A>(x: multiset<A>, y: multiset<A>, e: A)
    requires x + multiset{e} == y + multiset{e}
    ensures x == y
  {
    assert x == (x + multiset{e}) - multiset{e};
    assert y == (y + multiset{e}) - multiset{e};
  }

  lemma MapSeqFirst<A, B>(f: A -> B, a: seq<A>)
    requires a != []
    ensures multiset(MapSeq(f, a)) == multiset(MapSeq(f, a[1..])) + multiset{f(a[0])}
  {
    MapSeqRemove(f, a, 0);
    assert a[..0] + a[0 + 1..] == a[1..];
  }

  lemma FirstOccurs<A>(a: seq<A>, b: seq<A>) returns (k: nat)
    requires a != [] && multiset(a) == multiset(b)
    ensures k < |b| && b[k] == a[0]
  {
    assert a[0] in multiset(b);
    k :| 0 <= k < |b| && b[k] == a[0];
  }

  lemma RemoveSame<A>(a: seq<A>, b: seq<A>, k: nat)
    requires a != [] && multiset(a) == multiset(b) && k < |b| && b[k] == a[0]
    ensures multiset(a[1..]) == multiset(b[..k] + b[k + 1..])
  {
    SplitMultiset(a);
    RemoveAt(b, k);
    MultisetCancel(multiset(a[1..]), multiset(b[..k] + b[k + 1..]), a[0]);
  }

  lemma {:induction false} MapPreservesMultiset<A, B>(f: A -> B, a: seq<A>, b: seq<A>)
    requires multiset(a) == multiset(b)
    ensures multiset(MapSeq(f, a)) == multiset(MapSeq(f, b))
    decreases |a|
  {
    if a == [] {
      assert |multiset(b)| == 0;
    } else {
      hide MapSeq;
      var k := FirstOccurs(a, b);
      RemoveSame(a, b, k);
      MapPreservesMultiset(f, a[1..], b[..k] + b[k + 1..]);
      MapSeqFirst(f, a);
      MapSeqRemove(f, b, k);
    }
  }

  lemma InsertKeepsPermutation(p: seq<nat>, at: nat)
    requires IsPermutation(p, |p|) && at <= |p|
    ensures IsPermutation(p[..at] + [|p|] + p[at..], |p| + 1)
  {
    assert p == p[..at] + p[at..];
    assert Iota(|p| + 1) == Iota(|p|) + [|p|];
  }

  lemma {:induction false} DistinctOccursOnce(s: seq<nat>, x: nat)
    requires forall i, j | 0 <= i < j < |s| :: s[i] != s[j]
    ensures multiset(s)[x] == if x in s then 1 else 0
  {
    if s != [] {
      DistinctOccursOnce(s[1..], x);
      assert s == [s[0]] + s[1..];
    }
  }

  lemma DistinctIsPermutation(p: seq<nat>)
    requires forall i, j | 0 <= i < j < |p| :: p[i] != p[j]
    requires forall x | 0 <= x < |p| :: x in p
    requires forall i | 0 <= i < |p| :: p[i] < |p|
    ensures IsPermutation(p, |p|)
  {
    var iota := Iota(|p|);
    forall x: nat
      ensures multiset(p)[x] == multiset(iota)[x]
    {
      DistinctOccursOnce(p, x);
      DistinctOccursOnce(iota, x);
      if x < |p| {
        assert iota[x] == x;
      }
    }
  }

  lemma RepeatOccursTwice(s: seq<nat>, i: nat, j: nat)
    requires i < j < |s| && s[i] == s[j]
    ensures multiset(s)[s[i]] >= 2
  {
    assert s == s[..j] + [s[j]] + s[j + 1..];
    assert s[i] == s[..j][i];
  }

  lemma PermutationRange(p: seq<nat>, n: nat, i: nat)
    requires IsPermutation(p, n) && i < |p|
    ensures p[i] < n
  {
    assert p[i] in multiset(p);
    assert p[i] in Iota(n);
  }

  lemma PermutationDistinct(p: seq<nat>, n: nat, i: nat, j: nat)
    requires IsPermutation(p, n) && i < j < |p|
    ensures p[i] != p[j]
  {
    DistinctOccursOnce(Iota(n), p[i]);
    if p[i] == p[j] {
      RepeatOccursTwice(p, i, j);
    }
  }
}
