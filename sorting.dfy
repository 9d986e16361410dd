/**
 * Ordering rows: a stable insertion sort over any total preorder, the text order
 * used for `ORDER BY name` / `ORDER BY topic_id`, and lexicographic combination of
 * two orders (`.order(a).order(b)`).
 */
module Sorting {

  /** `le` compares every pair and is transitive. */
  ghost predicate TotalPreorder<T(!new)>(le: (T, T) -> bool) {
    && (forall a, b :: le(a, b) || le(b, a))
    && (forall a, b, c :: le(a, b) && le(b, c) ==> le(a, c))
  }

  predicate Sorted<T>(s: seq<T>, le: (T, T) -> bool) {
    forall i, j :: 0 <= i < j < |s| ==> le(s[i], s[j])
  }

  /** Puts `x` in front of the first element it does not come after. */
  function InsertSorted<T>(x: T, s: seq<T>, le: (T, T) -> bool): (r: seq<T>)
    ensures |r| == |s| + 1
    ensures multiset(r) == multiset(s) + multiset{x}
  {
    if s == [] then [x]
    else if le(x, s[0]) then [x] + s
    else
      assert s == [s[0]] + s[1..];
      [s[0]] + InsertSorted(x, s[1..], le)
  }

  /**
   * Insertion sort. Elements that compare equal keep their input order, which is
   * what `Array.prototype.sort` promises and one of the orders a database may return.
   */
  function SortBy<T>(s: seq<T>, le: (T, T) -> bool): (r: seq<T>)
    ensures |r| == |s|
    ensures multiset(r) == multiset(s)
  {
    if s == [] then []
    else
      assert s == [s[0]] + s[1..];
      InsertSorted(s[0], SortBy(s[1..], le), le)
  }

  lemma {:induction false} InsertSortedSorted<T(!new)>(x: T, s: seq<T>, le: (T, T) -> bool)
    requires TotalPreorder(le)
    requires Sorted(s, le)
    ensures Sorted(InsertSorted(x, s, le), le)
    decreases |s|
  {
    if s != [] && !le(x, s[0]) {
      InsertSortedSorted(x, s[1..], le);
      var tail := InsertSorted(x, s[1..], le);
      InsertedAfterHead(x, s, le);
      var r := InsertSorted(x, s, le);
      assert r == [s[0]] + tail;
      forall i, j | 0 <= i < j < |r|
        ensures le(r[i], r[j])
      {
        if i == 0 {
          assert r[0] == s[0] && r[j] == tail[j - 1];
          assert le(s[0], tail[j - 1]);
        } else {
          assert r[i] == tail[i - 1] && r[j] == tail[j - 1];
          assert le(tail[i - 1], tail[j - 1]);
        }
      }
    }
  }

  /** When `x` goes after the head of `s`, everything inserted behind the head comes after it. */
  lemma InsertedAfterHead<T(!new)>(x: T, s: seq<T>, le: (T, T) -> bool)
    requires TotalPreorder(le) && Sorted(s, le)
    requires s != [] && !le(x, s[0])
    ensures forall k :: 0 <= k < |InsertSorted(x, s[1..], le)| ==> le(s[0], InsertSorted(x, s[1..], le)[k])
  {
    var tail := InsertSorted(x, s[1..], le);
    forall k | 0 <= k < |tail|
      ensures le(s[0], tail[k])
    {
      var y := tail[k];
      assert y in multiset(tail);
      if y != x {
        assert y in multiset(s[1..]);
        var m :| 0 <= m < |s[1..]| && s[1..][m] == y;
        assert s[1 + m] == y;
      }
    }
  }

  lemma {:induction false} SortBySorted<T(!new)>(s: seq<T>, le: (T, T) -> bool)
    requires TotalPreorder(le)
    ensures Sorted(SortBy(s, le), le)
    decreases |s|
  {
    if s != [] {
      SortBySorted(s[1..], le);
      InsertSortedSorted(s[0], SortBy(s[1..], le), le);
    }
  }

  lemma SortedMembers<T>(s: seq<T>, le: (T, T) -> bool, x: T)
    requires x in SortBy(s, le)
    ensures x in s
  {
    assert x in multiset(SortBy(s, le));
  }

  lemma SortedContains<T>(s: seq<T>, le: (T, T) -> bool, x: T)
    requires x in s
    ensures x in SortBy(s, le)
  {
    assert x in multiset(s);
  }

  /** Ascending by an integer key (`ORDER BY k`, or a comparator `a.k - b.k`). */
  function Ascending<T>(key: T -> int): (le: (T, T) -> bool)
  {
    (a: T, b: T) => key(a) <= key(b)
  }

  /** Descending by an integer key (`ORDER BY k DESC`). */
  function Descending<T>(key: T -> int): (le: (T, T) -> bool)
  {
    (a: T, b: T) => key(a) >= key(b)
  }

  lemma AscendingTotal<T(!new)>(key: T -> int)
    ensures TotalPreorder(Ascending(key))
  {
  }

  lemma DescendingTotal<T(!new)>(key: T -> int)
    ensures TotalPreorder(Descending(key))
  {
  }

  /** Code-point lexicographic order on text; a proper prefix comes first. */
  predicate TextLe(a: string, b: string)
    decreases |a|
  {
    a == [] || (b != [] && (a[0] < b[0] || (a[0] == b[0] && TextLe(a[1..], b[1..]))))
  }

  lemma {:induction false} TextLeTotal(a: string, b: string)
    ensures TextLe(a, b) || TextLe(b, a)
    decreases |a|
  {
    if a != [] && b != [] && a[0] == b[0] {
      TextLeTotal(a[1..], b[1..]);
    }
  }

  lemma {:induction false} TextLeReflexive(a: string)
    ensures TextLe(a, a)
    decreases |a|
  {
    if a != [] {
      TextLeReflexive(a[1..]);
    }
  }

  lemma {:induction false} TextLeTransitive(a: string, b: string, c: string)
    requires TextLe(a, b) && TextLe(b, c)
    ensures TextLe(a, c)
    decreases |a|
  {
    if a != [] && a[0] == b[0] && b[0] == c[0] {
      TextLeTransitive(a[1..], b[1..], c[1..]);
    }
  }

  lemma {:induction false} TextLeAntisymmetric(a: string, b: string)
    requires TextLe(a, b) && TextLe(b, a)
    ensures a == b
    decreases |a|
  {
    if a != [] {
      TextLeAntisymmetric(a[1..], b[1..]);
      assert a == [a[0]] + a[1..] && b == [b[0]] + b[1..];
    }
  }

  /** Ascending by a text key. */
  function ByText<T>(key: T -> string): (le: (T, T) -> bool)
  {
    (a: T, b: T) => TextLe(key(a), key(b))
  }

  lemma ByTextTotal<T(!new)>(key: T -> string)
    ensures TotalPreorder(ByText(key))
  {
    var le := ByText(key);
    forall a, b
      ensures le(a, b) || le(b, a)
    {
      TextLeTotal(key(a), key(b));
    }
    forall a, b, c | le(a, b) && le(b, c)
      ensures le(a, c)
    {
      TextLeTransitive(key(a), key(b), key(c));
    }
  }

  /** Order by `first`; break ties (elements `first` ranks equal) by `second`. */
  function ThenBy<T>(first: (T, T) -> bool, second: (T, T) -> bool): (le: (T, T) -> bool)
  {
    (a: T, b: T) => first(a, b) && (!first(b, a) || second(a, b))
  }

  lemma ThenByTotal<T(!new)>(first: (T, T) -> bool, second: (T, T) -> bool)
    requires TotalPreorder(first) && TotalPreorder(second)
    ensures TotalPreorder(ThenBy(first, second))
  {
  }
}
