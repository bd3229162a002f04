/** Sorting by an integer key, as `std::sort` is used on enum and integer
    vectors throughout the analyzer, and the sequence helpers the
    catalogues and the matcher need. `std::sort` is library code; it is
    modelled by a functional insertion sort, which is enough because with an
    injective key every sorting algorithm returns the same sequence
    (SortedUnique). */
module Sorting {

  /** The elements of `s` appear in non-decreasing key order. */
  ghost predicate SortedBy<T>(s: seq<T>, key: T -> int) {
    forall i, j :: 0 <= i < j < |s| ==> key(s[i]) <= key(s[j])
  }

  ghost predicate Injective<T(!new)>(key: T -> int) {
    forall a, b :: key(a) == key(b) ==> a == b
  }

  /** Inserts `x` before the first element with a larger key. */
  function Insert<T>(x: T, s: seq<T>, key: T -> int): (r: seq<T>)
    ensures multiset(r) == multiset(s) + multiset{x}
    ensures |r| == |s| + 1
  {
    if s == [] then [x]
    else if key(x) <= key(s[0]) then [x] + s
    else
      assert s == [s[0]] + s[1..];
      [s[0]] + Insert(x, s[1..], key)
  }

  /** Inserting into a sorted sequence keeps it sorted. */
  lemma {:induction false} InsertSorted<T>(x: T, s: seq<T>, key: T -> int)
    requires SortedBy(s, key)
    ensures SortedBy(Insert(x, s, key), key)
  {
    if s != [] && key(x) > key(s[0]) {
      var rest := Insert(x, s[1..], key);
      InsertSorted(x, s[1..], key);
      forall k | 0 <= k < |rest| ensures key(s[0]) <= key(rest[k]) {
        assert rest[k] in multiset(rest);
        if rest[k] != x {
          assert rest[k] in multiset(s[1..]);
          var j :| 0 <= j < |s[1..]| && s[1..][j] == rest[k];
          assert s[j + 1] == rest[k];
        }
      }
      assert Insert(x, s, key) == [s[0]] + rest;
    }
  }

  /** The sequence `s` sorted by `key` (the model of `std::sort`). */
  function SortBy<T>(s: seq<T>, key: T -> int): (r: seq<T>)
    ensures SortedBy(r, key)
    ensures multiset(r) == multiset(s)
    ensures |r| == |s|
  {
    if s == [] then []
    else
      assert s == [s[0]] + s[1..];
      InsertSorted(s[0], SortBy(s[1..], key), key);
      Insert(s[0], SortBy(s[1..], key), key)
  }

  /** The first element of a non-empty sorted sequence has the least key. */
  lemma SortedHeadIsLeast<T>(s: seq<T>, key: T -> int, y: T)
    requires SortedBy(s, key) && y in multiset(s)
    ensures |s| > 0 && key(s[0]) <= key(y)
  {
    var k :| 0 <= k < |s| && s[k] == y;
  }

  /** Two sorted sequences with the same elements are equal when the key
      tells elements apart. */
  lemma {:induction false} SortedUnique<T(!new)>(a: seq<T>, b: seq<T>, key: T -> int)
    requires Injective(key)
    requires SortedBy(a, key) && SortedBy(b, key)
    requires multiset(a) == multiset(b)
    ensures a == b
  {
    if a == [] {
      assert |b| == |multiset(b)| == 0;
    } else {
      assert a[0] in multiset(a);
      assert |b| == |multiset(b)| == |multiset(a)| == |a|;
      assert b[0] in multiset(b);
      SortedHeadIsLeast(a, key, b[0]);
      SortedHeadIsLeast(b, key, a[0]);
      assert a[0] == b[0];
      assert a == [a[0]] + a[1..];
      assert b == [b[0]] + b[1..];
      assert multiset(a) == multiset{a[0]} + multiset(a[1..]);
      assert multiset(b) == multiset{b[0]} + multiset(b[1..]);
      assert multiset(a[1..]) == multiset(a) - multiset{a[0]};
      assert multiset(b[1..]) == multiset(b) - multiset{b[0]};
      SortedUnique(a[1..], b[1..], key);
    }
  }

  /** Sorting forgets the order of its input: permutations sort alike. */
  lemma SortByPermutation<T(!new)>(s1: seq<T>, s2: seq<T>, key: T -> int)
    requires Injective(key)
    requires multiset(s1) == multiset(s2)
    ensures SortBy(s1, key) == SortBy(s2, key)
  {
    SortedUnique(SortBy(s1, key), SortBy(s2, key), key);
  }

  /** Sorting an already sorted sequence changes nothing. */
  lemma SortByIdentity<T(!new)>(s: seq<T>, key: T -> int)
    requires Injective(key)
    requires SortedBy(s, key)
    ensures SortBy(s, key) == s
  {
    SortedUnique(SortBy(s, key), s, key);
  }

  /** `f` applied to every element, in order. */
  function MapSeq<A, B>(f: A -> B, s: seq<A>): (r: seq<B>)
    ensures |r| == |s|
    ensures forall i :: 0 <= i < |s| ==> r[i] == f(s[i])
  {
    if s == [] then [] else MapSeq(f, s[..|s| - 1]) + [f(s[|s| - 1])]
  }

  lemma MapSeqAppend<A, B>(f: A -> B, s: seq<A>, t: seq<A>)
    ensures MapSeq(f, s + t) == MapSeq(f, s) + MapSeq(f, t)
  {
  }

  /** Mapping a sequence with a first element. */
  lemma MapSeqCons<A, B>(f: A -> B, x: A, s: seq<A>)
    ensures MapSeq(f, [x] + s) == [f(x)] + MapSeq(f, s)
  {
    var all := MapSeq(f, [x] + s);
    forall k | 0 <= k < |all| ensures all[k] == ([f(x)] + MapSeq(f, s))[k] {
      if k > 0 {
        assert ([x] + s)[k] == s[k - 1];
      }
    }
  }

  /** Mapping a sequence with one element taken out. */
  lemma {:induction false} MapSeqRemove<A, B>(f: A -> B, s: seq<A>, i: nat)
    requires i < |s|
    ensures multiset(MapSeq(f, s)) == multiset(MapSeq(f, s[..i] + s[i + 1..])) + multiset{f(s[i])}
  {
    var pre, post := s[..i], s[i + 1..];
    assert s == pre + [s[i]] + post;
    MapSeqAppend(f, pre + [s[i]], post);
    MapSeqAppend(f, pre, [s[i]]);
    MapSeqAppend(f, pre, post);
    var mp, mx, mq := MapSeq(f, pre), MapSeq(f, [s[i]]), MapSeq(f, post);
    assert mx == [f(s[i])];
    assert MapSeq(f, s) == mp + mx + mq;
    assert MapSeq(f, pre + post) == mp + mq;
    assert multiset(mp + mx + mq) == multiset(mp) + multiset(mx) + multiset(mq);
  }

  /** Mapping respects permutation: equal element multisets stay equal. */
  lemma {:induction false} MapSeqPermutation<A, B>(f: A -> B, s1: seq<A>, s2: seq<A>)
    requires multiset(s1) == multiset(s2)
    ensures multiset(MapSeq(f, s1)) == multiset(MapSeq(f, s2))
  {
    if s1 == [] {
      assert |s2| == |multiset(s2)| == 0;
    } else {
      var n := |s1| - 1;
      var x := s1[n];
      assert s1 == s1[..n] + [x];
      assert x in multiset(s2);
      var i :| 0 <= i < |s2| && s2[i] == x;
      assert s2 == s2[..i] + [x] + s2[i + 1..];
      assert multiset(s2[..i] + s2[i + 1..]) == multiset(s2) - multiset{x};
      assert multiset(s1[..n]) == multiset(s1) - multiset{x};
      MapSeqPermutation(f, s1[..n], s2[..i] + s2[i + 1..]);
      MapSeqRemove(f, s2, i);
      MapSeqRemove(f, s1, n);
      assert s1[..n] + s1[n + 1..] == s1[..n];
    }
  }

  /** The elements of `s` that satisfy `p`, in order. */
  function Filter<T>(p: T -> bool, s: seq<T>): (r: seq<T>)
    ensures forall k :: 0 <= k < |r| ==> p(r[k])
    ensures |r| <= |s|
  {
    if s == [] then []
    else Filter(p, s[..|s| - 1]) + (if p(s[|s| - 1]) then [s[|s| - 1]] else [])
  }

  lemma {:induction false} FilterAppend<T>(p: T -> bool, s: seq<T>, t: seq<T>)
    ensures Filter(p, s + t) == Filter(p, s) + Filter(p, t)
  {
    if t == [] {
      assert s + t == s;
    } else {
      var n := |t| - 1;
      FilterAppend(p, s, t[..n]);
      assert (s + t)[..|s + t| - 1] == s + t[..n];
    }
  }

  /** Filtering keeps a sequence whose elements all pass, and empties one
      whose elements all fail. */
  lemma {:induction false} FilterAllOrNone<T>(p: T -> bool, s: seq<T>)
    ensures (forall k :: 0 <= k < |s| ==> p(s[k])) ==> Filter(p, s) == s
    ensures (forall k :: 0 <= k < |s| ==> !p(s[k])) ==> Filter(p, s) == []
  {
    if s != [] {
      var n := |s| - 1;
      FilterAllOrNone(p, s[..n]);
      assert s == s[..n] + [s[n]];
    }
  }

  /** Mapping a sequence with one element inserted. */
  lemma MapSeqInsert<A, B>(f: A -> B, pre: seq<A>, c: A, post: seq<A>)
    ensures multiset(MapSeq(f, pre + [c] + post)) == multiset(MapSeq(f, pre + post) + [f(c)])
  {
    MapSeqAppend(f, pre + [c], post);
    MapSeqAppend(f, pre, [c]);
    MapSeqAppend(f, pre, post);
  }

  /** Filtering keeps every occurrence of a kept value and none of the others. */
  lemma {:induction false} FilterCount<T>(p: T -> bool, s: seq<T>, x: T)
    ensures multiset(Filter(p, s))[x] == if p(x) then multiset(s)[x] else 0
  {
    if s != [] {
      var n := |s| - 1;
      FilterCount(p, s[..n], x);
      assert s == s[..n] + [s[n]];
      var tail := if p(s[n]) then [s[n]] else [];
      assert Filter(p, s) == Filter(p, s[..n]) + tail;
      assert multiset(Filter(p, s)) == multiset(Filter(p, s[..n])) + multiset(tail);
      assert multiset(s) == multiset(s[..n]) + multiset{s[n]};
      if p(s[n]) {
        assert multiset(tail) == multiset{s[n]};
      } else {
        assert multiset(tail)[x] == 0;
        assert p(x) ==> x != s[n];
      }
    }
  }

  lemma FilterPermutation<T(!new)>(p: T -> bool, s1: seq<T>, s2: seq<T>)
    requires multiset(s1) == multiset(s2)
    ensures multiset(Filter(p, s1)) == multiset(Filter(p, s2))
  {
    forall x ensures multiset(Filter(p, s1))[x] == multiset(Filter(p, s2))[x] {
      FilterCount(p, s1, x);
      FilterCount(p, s2, x);
    }
  }

  /** Number of occurrences of `x` in `s`. */
  function Count<T(==)>(s: seq<T>, x: T): (n: nat)
    ensures n == multiset(s)[x]
  {
    if s == [] then 0
    else
      assert s == s[..|s| - 1] + [s[|s| - 1]];
      Count(s[..|s| - 1], x) + (if s[|s| - 1] == x then 1 else 0)
  }

  /** No element occurs twice. */
  ghost predicate Distinct<T>(s: seq<T>) {
    forall i, j :: 0 <= i < j < |s| ==> s[i] != s[j]
  }
}
