/** `map`, `filter`, `slice(0, n)` over sequences, and what they preserve. */
module Seqs {

  function Map<T, U>(s: seq<T>, f: T -> U): (r: seq<U>)
    ensures |r| == |s|
    ensures forall i :: 0 <= i < |s| ==> r[i] == f(s[i])
  {
    seq(|s|, i requires 0 <= i < |s| => f(s[i]))
  }

  /** `Array.prototype.filter`: the elements satisfying `p`, in their original order. */
  function Filter<T>(s: seq<T>, p: T -> bool): (r: seq<T>)
    ensures |r| <= |s|
    ensures forall i :: 0 <= i < |r| ==> p(r[i])
    ensures forall i :: 0 <= i < |r| ==> r[i] in s
    ensures forall i :: 0 <= i < |s| && p(s[i]) ==> s[i] in r
  {
    if s == [] then [] else (if p(s[0]) then [s[0]] else []) + Filter(s[1..], p)
  }

  /** `r` is `s` with some elements left out, the rest kept in order. */
  predicate IsSubseq<T(==)>(r: seq<T>, s: seq<T>)
    decreases |s|
  {
    r == [] || (s != [] && ((r[0] == s[0] && IsSubseq(r[1..], s[1..])) || IsSubseq(r, s[1..])))
  }

  /** The first `n` elements, or all of them when there are fewer: a query's `.limit(n)`. */
  function Take<T>(s: seq<T>, n: nat): (r: seq<T>)
    ensures |r| == if n < |s| then n else |s|
    ensures r == s[..|r|]
  {
    if n < |s| then s[..n] else s
  }

  lemma {:induction false} FilterIsSubseq<T>(s: seq<T>, p: T -> bool)
    ensures IsSubseq(Filter(s, p), s)
    decreases |s|
  {
    if s != [] {
      FilterIsSubseq(s[1..], p);
      if !p(s[0]) {
        assert Filter(s, p) == Filter(s[1..], p);
        SubseqOfTail(Filter(s, p), s);
      } else {
        var r := Filter(s, p);
        assert r[0] == s[0] && r[1..] == Filter(s[1..], p);
      }
    }
  }

  /** Dropping the head of `s` keeps `r` a subsequence when it was one of the tail. */
  lemma SubseqOfTail<T>(r: seq<T>, s: seq<T>)
    requires s != [] && IsSubseq(r, s[1..])
    ensures IsSubseq(r, s)
  {
  }

  lemma {:induction false} MapKeepsSubseq<T, U>(r: seq<T>, s: seq<T>, f: T -> U)
    requires IsSubseq(r, s)
    ensures IsSubseq(Map(r, f), Map(s, f))
    decreases |s|
  {
    if r != [] {
      assert Map(s, f)[1..] == Map(s[1..], f);
      if r[0] == s[0] && IsSubseq(r[1..], s[1..]) {
        MapKeepsSubseq(r[1..], s[1..], f);
        assert Map(r, f)[1..] == Map(r[1..], f);
      } else {
        MapKeepsSubseq(r, s[1..], f);
      }
    }
  }

  lemma {:induction false} FilterConcat<T>(a: seq<T>, b: seq<T>, p: T -> bool)
    ensures Filter(a + b, p) == Filter(a, p) + Filter(b, p)
    decreases |a|
  {
    if a == [] {
      assert a + b == b;
    } else {
      var ab := a + b;
      var head := if p(a[0]) then [a[0]] else [];
      assert ab[0] == a[0] && ab[1..] == a[1..] + b;
      assert Filter(ab, p) == head + Filter(a[1..] + b, p);
      assert Filter(a, p) == head + Filter(a[1..], p);
      FilterConcat(a[1..], b, p);
      assert head + (Filter(a[1..], p) + Filter(b, p)) == (head + Filter(a[1..], p)) + Filter(b, p);
    }
  }

  /** Filtering keeps every copy of each element that satisfies `p` and no copy of any other. */
  lemma {:induction false} FilterCount<T>(s: seq<T>, p: T -> bool, e: T)
    ensures multiset(Filter(s, p))[e] == if p(e) then multiset(s)[e] else 0
    decreases |s|
  {
    if s != [] {
      FilterCount(s[1..], p, e);
      var head := if p(s[0]) then [s[0]] else [];
      assert s == [s[0]] + s[1..];
      assert Filter(s, p) == head + Filter(s[1..], p);
      assert multiset(Filter(s, p)) == multiset(head) + multiset(Filter(s[1..], p));
      assert multiset(s) == multiset{s[0]} + multiset(s[1..]);
    }
  }

  /** Filtering by two predicates that agree on the sequence gives the same result. */
  lemma {:induction false} FilterCongruent<T>(s: seq<T>, p: T -> bool, q: T -> bool)
    requires forall i :: 0 <= i < |s| ==> p(s[i]) == q(s[i])
    ensures Filter(s, p) == Filter(s, q)
    decreases |s|
  {
    if s != [] {
      FilterCongruent(s[1..], p, q);
    }
  }

  /** After filtering and mapping, a value is present exactly when it is the image of a kept element. */
  lemma FilterMapMembers<T, U>(s: seq<T>, p: T -> bool, f: T -> U, o: U)
    ensures o in Map(Filter(s, p), f) <==> exists x :: x in s && p(x) && o == f(x)
  {
    var k := Filter(s, p);
    var r := Map(k, f);
    if o in r {
      var i :| 0 <= i < |r| && r[i] == o;
      assert k[i] in s && p(k[i]) && o == f(k[i]);
    }
    if exists x :: x in s && p(x) && o == f(x) {
      var x :| x in s && p(x) && o == f(x);
      var j :| 0 <= j < |s| && s[j] == x;
      assert x in k;
      var i :| 0 <= i < |k| && k[i] == x;
      assert r[i] == o;
    }
  }

  /** `Array.from(new Set(s))`: each element once, in the order of its first appearance. */
  function Distinct<T(==, !new)>(s: seq<T>): (r: seq<T>)
    ensures forall i, j :: 0 <= i < j < |r| ==> r[i] != r[j]
    ensures forall x :: x in r <==> x in s
    decreases |s|
  {
    if s == [] then []
    else
      var rest := Distinct(s[..|s| - 1]);
      assert forall x :: x in s <==> x in s[..|s| - 1] || x == s[|s| - 1] by {
        assert s == s[..|s| - 1] + [s[|s| - 1]];
      }
      if s[|s| - 1] in rest then rest else rest + [s[|s| - 1]]
  }

  /**
   * Of two elements of the result, the one listed first appears in `s` before every occurrence
   * of the other.
   */
  lemma {:induction false} DistinctFirstAppearance<T(!new)>(s: seq<T>, i: nat, j: nat, k: nat)
    requires i < j < |Distinct(s)| && k < |s| && s[k] == Distinct(s)[j]
    ensures Distinct(s)[i] in s[..k]
    decreases |s|
  {
    var init := s[..|s| - 1];
    var x := s[|s| - 1];
    var rest := Distinct(init);
    var r := Distinct(s);
    assert r == rest || r == rest + [x];
    if j < |rest| {
      assert r[i] == rest[i] && r[j] == rest[j];
      if k < |init| {
        assert init[k] == s[k];
        DistinctFirstAppearance(init, i, j, k);
        assert init[..k] == s[..k];
      } else {
        assert rest[i] in rest;
        assert s[..k] == init;
      }
    } else {
      assert r == rest + [x] && r[j] == x && r[i] == rest[i];
      assert x !in rest;
      assert rest[i] in rest;
      assert s[..k] == init;
    }
  }

  lemma FilterSnoc<T>(s: seq<T>, x: T, p: T -> bool)
    ensures Filter(s + [x], p) == Filter(s, p) + (if p(x) then [x] else [])
  {
    FilterConcat(s, [x], p);
    assert [x][1..] == [];
  }

  lemma MapSnoc<T, U>(s: seq<T>, x: T, f: T -> U)
    ensures Map(s + [x], f) == Map(s, f) + [f(x)]
  {
  }

  lemma DistinctSnoc<T(!new)>(s: seq<T>, x: T)
    ensures Distinct(s + [x]) == if x in Distinct(s) then Distinct(s) else Distinct(s) + [x]
  {
    assert (s + [x])[..|s|] == s;
  }

  /** An element of a sequence without repetitions occurs in it at most once. */
  lemma {:induction false} NoRepeatCount<T>(s: seq<T>, x: T)
    requires forall i, j :: 0 <= i < j < |s| ==> s[i] != s[j]
    ensures multiset(s)[x] <= 1
    decreases |s|
  {
    if s != [] {
      assert s == [s[0]] + s[1..];
      NoRepeatCount(s[1..], x);
      if s[0] == x {
        assert x !in s[1..];
      }
    }
  }

  /** An element found at two positions occurs at least twice. */
  lemma RepeatCount<T>(s: seq<T>, i: nat, j: nat)
    requires i < j < |s| && s[i] == s[j]
    ensures multiset(s)[s[i]] >= 2
  {
    assert s == s[..j] + s[j..];
    assert s[i] in s[..j];
    assert s[j..][0] == s[i];
  }

  /** Rearranging a sequence without repetitions gives one without repetitions. */
  lemma NoRepeatPermutation<T>(a: seq<T>, b: seq<T>)
    requires multiset(a) == multiset(b)
    requires forall i, j :: 0 <= i < j < |a| ==> a[i] != a[j]
    ensures forall i, j :: 0 <= i < j < |b| ==> b[i] != b[j]
  {
    forall i, j | 0 <= i < j < |b|
      ensures b[i] != b[j]
    {
      if b[i] == b[j] {
        RepeatCount(b, i, j);
        NoRepeatCount(a, b[i]);
        assert false;
      }
    }
  }

  /** The total of `f` over the elements of `s`. */
  function SumOf<T>(s: seq<T>, f: T -> int): int {
    if s == [] then 0 else f(s[0]) + SumOf(s[1..], f)
  }

  lemma {:induction false} SumOfConcat<T>(a: seq<T>, b: seq<T>, f: T -> int)
    ensures SumOf(a + b, f) == SumOf(a, f) + SumOf(b, f)
    decreases |a|
  {
    if a == [] {
      assert a + b == b;
    } else {
      assert (a + b)[0] == a[0];
      assert (a + b)[1..] == a[1..] + b;
      SumOfConcat(a[1..], b, f);
    }
  }

  /** A total does not depend on the order of the elements. */
  lemma {:induction false} SumOfPermutation<T>(a: seq<T>, b: seq<T>, f: T -> int)
    requires multiset(a) == multiset(b)
    ensures SumOf(a, f) == SumOf(b, f)
    decreases |a|
  {
    if a == [] {
      assert |b| == |multiset(b)| == 0;
    } else {
      assert a[0] in multiset(a);
      var k :| 0 <= k < |b| && b[k] == a[0];
      RemoveAtPermutation(a, b, k);
      SumOfPermutation(a[1..], b[..k] + b[k + 1..], f);
      SumOfRemoveAt(b, k, f);
    }
  }

  /** Taking the head of `a` out of `b` leaves a permutation of the tail of `a`. */
  lemma RemoveAtPermutation<T>(a: seq<T>, b: seq<T>, k: nat)
    requires a != [] && multiset(a) == multiset(b) && k < |b| && b[k] == a[0]
    ensures multiset(b[..k] + b[k + 1..]) == multiset(a[1..])
  {
    var x, rest := a[0], b[..k] + b[k + 1..];
    assert a == [x] + a[1..];
    assert b == b[..k] + ([x] + b[k + 1..]);
    assert multiset(b) == multiset{x} + multiset(rest);
    assert multiset(a) == multiset{x} + multiset(a[1..]);
    forall y
      ensures multiset(rest)[y] == multiset(a[1..])[y]
    {
      assert (multiset{x} + multiset(rest))[y] == multiset{x}[y] + multiset(rest)[y];
      assert (multiset{x} + multiset(a[1..]))[y] == multiset{x}[y] + multiset(a[1..])[y];
    }
  }

  /** The total is the removed element's share plus the total of what is left. */
  lemma SumOfRemoveAt<T>(b: seq<T>, k: nat, f: T -> int)
    requires k < |b|
    ensures SumOf(b, f) == f(b[k]) + SumOf(b[..k] + b[k + 1..], f)
  {
    var x, left, right := b[k], b[..k], b[k + 1..];
    var mid := [x] + right;
    assert b == left + mid;
    assert mid != [] && mid[0] == x && mid[1..] == right;
    calc {
      SumOf(b, f);
      { SumOfConcat(left, mid, f); }
      SumOf(left, f) + SumOf(mid, f);
      SumOf(left, f) + (f(x) + SumOf(right, f));
      { SumOfConcat(left, right, f); }
      f(x) + SumOf(left + right, f);
    }
  }

  /** Filtering by "p or q" for disjoint `p` and `q` keeps as many elements as both filters together. */
  lemma {:induction false} FilterDisjointUnion<T>(s: seq<T>, p: T -> bool, q: T -> bool, pq: T -> bool)
    requires forall i :: 0 <= i < |s| ==> pq(s[i]) == (p(s[i]) || q(s[i]))
    requires forall i :: 0 <= i < |s| ==> !(p(s[i]) && q(s[i]))
    ensures |Filter(s, pq)| == |Filter(s, p)| + |Filter(s, q)|
    decreases |s|
  {
    if s != [] {
      assert forall i :: 1 <= i < |s| ==> s[1..][i - 1] == s[i];
      FilterDisjointUnion(s[1..], p, q, pq);
    }
  }

  lemma {:induction false} FilterNone<T>(s: seq<T>, p: T -> bool)
    requires forall i :: 0 <= i < |s| ==> !p(s[i])
    ensures Filter(s, p) == []
    decreases |s|
  {
    if s != [] {
      assert forall i :: 1 <= i < |s| ==> s[1..][i - 1] == s[i];
      FilterNone(s[1..], p);
    }
  }
}
