/** The array operations the normaliser and the filter are built from:
    `filter`, `map`, `find`, `some`, and `Array.from(new Set(xs))`, which keeps
    the first occurrence of every element in the order it was first seen. */
module Seqs {

  /** `s.filter(keep)`. */
  function Filter<T>(s: seq<T>, keep: T -> bool): (r: seq<T>)
    ensures |r| <= |s|
  {
    if s == [] then [] else Filter(s[..|s| - 1], keep) + (if keep(s[|s| - 1]) then [s[|s| - 1]] else [])
  }

  /** `s.map(f)`. */
  function Map<T, U>(s: seq<T>, f: T -> U): (r: seq<U>)
    ensures |r| == |s|
  {
    if s == [] then [] else Map(s[..|s| - 1], f) + [f(s[|s| - 1])]
  }

  /** An element survives the filter exactly when it is in the input and passes. */
  lemma {:induction false} FilterMember<T>(s: seq<T>, keep: T -> bool, x: T)
    ensures x in Filter(s, keep) <==> x in s && keep(x)
  {
    if s != [] {
      var init := s[..|s| - 1];
      FilterMember(init, keep, x);
      assert s == init + [s[|s| - 1]];
    }
  }

  /** Every element of the filter passes it. */
  lemma FilterAll<T>(s: seq<T>, keep: T -> bool)
    ensures forall x :: x in Filter(s, keep) ==> keep(x)
  {
    forall x | x in Filter(s, keep) ensures keep(x) {
      FilterMember(s, keep, x);
    }
  }

  /** The filter takes each element as often as the input holds it, or not at all. */
  lemma {:induction false} FilterCount<T>(s: seq<T>, keep: T -> bool, x: T)
    ensures multiset(Filter(s, keep))[x] == if keep(x) then multiset(s)[x] else 0
  {
    if s != [] {
      var init := s[..|s| - 1];
      FilterCount(init, keep, x);
      assert s == init + [s[|s| - 1]];
    }
  }

  /** Filtering distributes over concatenation. */
  lemma {:induction false} FilterConcat<T>(a: seq<T>, b: seq<T>, keep: T -> bool)
    ensures Filter(a + b, keep) == Filter(a, keep) + Filter(b, keep)
    decreases |b|
  {
    if b == [] {
      assert a + b == a;
    } else {
      var init := b[..|b| - 1];
      assert (a + b)[..|a + b| - 1] == a + init;
      FilterConcat(a, init, keep);
    }
  }

  /** Two filters in a row are one filter by both tests. */
  lemma {:induction false} FilterFilter<T>(s: seq<T>, p: T -> bool, q: T -> bool, both: T -> bool)
    requires forall x :: both(x) == (p(x) && q(x))
    ensures Filter(Filter(s, p), q) == Filter(s, both)
  {
    if s != [] {
      var init, x := s[..|s| - 1], s[|s| - 1];
      FilterFilter(init, p, q, both);
      FilterConcat(Filter(init, p), if p(x) then [x] else [], q);
      assert Filter([x], q) == Filter([], q) + (if q(x) then [x] else []);
    }
  }

  /** Filtering after a map is mapping after filtering by the composed test. */
  lemma {:induction false} FilterMap<T, U>(s: seq<T>, f: T -> U, p: U -> bool, pf: T -> bool)
    requires forall x :: pf(x) == p(f(x))
    ensures Filter(Map(s, f), p) == Map(Filter(s, pf), f)
  {
    if s != [] {
      var init, x := s[..|s| - 1], s[|s| - 1];
      FilterMap(init, f, p, pf);
      var ms := Map(s, f);
      assert ms[..|ms| - 1] == Map(init, f) && ms[|ms| - 1] == f(x);
      assert Filter(ms, p) == Filter(Map(init, f), p) + (if p(f(x)) then [f(x)] else []);
      if pf(x) {
        var fi := Filter(init, pf);
        assert Filter(s, pf) == fi + [x];
        assert (fi + [x])[..|fi|] == fi;
        assert Map(fi + [x], f) == Map(fi, f) + [f(x)];
        assert p(f(x));
      } else {
        assert !p(f(x));
        assert Filter(s, pf) == Filter(init, pf);
        assert Filter(ms, p) == Filter(Map(init, f), p);
      }
    }
  }

  /** An element of the map is the image of an element of the input. */
  lemma {:induction false} MapMember<T, U>(s: seq<T>, f: T -> U, y: U)
    ensures y in Map(s, f) <==> exists x :: x in s && y == f(x)
  {
    if s != [] {
      var init := s[..|s| - 1];
      MapMember(init, f, y);
      assert s == init + [s[|s| - 1]];
      if y in Map(s, f) && y !in Map(init, f) {
        assert y == f(s[|s| - 1]);
      }
    }
  }

  /** The position of the first element that passes `test`: what `find` and
      `some` stop at. */
  function FindIndex<T>(s: seq<T>, test: T -> bool, from: nat): (r: nat)
    requires from <= |s|
    ensures from <= r <= |s|
    ensures r < |s| ==> test(s[r])
    ensures forall k :: from <= k < r ==> !test(s[k])
    decreases |s| - from
  {
    if from == |s| then from else if test(s[from]) then from else FindIndex(s, test, from + 1)
  }

  function FirstIndex<T(==)>(s: seq<T>, x: T): (i: nat)
    requires x in s
    ensures i < |s| && s[i] == x && x !in s[..i]
  {
    if s[0] == x then 0 else 1 + FirstIndex(s[1..], x)
  }

  predicate NoDuplicates<T(==)>(s: seq<T>) {
    forall i, j :: 0 <= i < j < |s| ==> s[i] != s[j]
  }

  /** A filter of a list without duplicates has none. */
  lemma {:induction false} FilterNoDuplicates<T>(s: seq<T>, keep: T -> bool)
    requires NoDuplicates(s)
    ensures NoDuplicates(Filter(s, keep))
  {
    if s != [] {
      var init, x := s[..|s| - 1], s[|s| - 1];
      FilterNoDuplicates(init, keep);
      FilterMember(init, keep, x);
      assert forall k :: 0 <= k < |init| ==> init[k] == s[k];
    }
  }

  /** A one-to-one map of a list without duplicates has none. */
  lemma {:induction false} MapNoDuplicates<T, U>(s: seq<T>, f: T -> U)
    requires NoDuplicates(s)
    requires forall x, y :: f(x) == f(y) ==> x == y
    ensures NoDuplicates(Map(s, f))
  {
    if s != [] {
      var init, x := s[..|s| - 1], s[|s| - 1];
      MapNoDuplicates(init, f);
      MapMember(init, f, f(x));
      assert forall k :: 0 <= k < |init| ==> init[k] == s[k];
    }
  }

  /** A list without duplicates holds each element at most once. */
  lemma {:induction false} NoDuplicatesCount<T>(s: seq<T>, x: T)
    requires NoDuplicates(s)
    ensures multiset(s)[x] <= 1
  {
    if s != [] {
      var init := s[..|s| - 1];
      assert forall k :: 0 <= k < |init| ==> init[k] == s[k];
      NoDuplicatesCount(init, x);
      assert s == init + [s[|s| - 1]];
    }
  }

  /** A permutation of a list without duplicates has none. */
  lemma PermutationNoDuplicates<T>(a: seq<T>, b: seq<T>)
    requires multiset(a) == multiset(b) && NoDuplicates(a)
    ensures NoDuplicates(b)
  {
    forall i, j | 0 <= i < j < |b| ensures b[i] != b[j] {
      var x := b[j];
      NoDuplicatesCount(a, x);
      assert b == b[..j] + [x] + b[j + 1..];
      assert multiset(b[..j])[x] == 0;
      assert b[i] in b[..j];
    }
  }

  /** `Array.from(new Set(s))`: each element once, at the place it was first seen. */
  function Distinct<T(==)>(s: seq<T>): (r: seq<T>)
  {
    if s == [] then []
    else
      var d := Distinct(s[..|s| - 1]);
      if s[|s| - 1] in d then d else d + [s[|s| - 1]]
  }

  /** The set holds exactly the elements of the input, each once. */
  lemma {:induction false} DistinctMembers<T>(s: seq<T>)
    ensures forall x :: x in Distinct(s) <==> x in s
    ensures NoDuplicates(Distinct(s))
    ensures |Distinct(s)| <= |s|
  {
    if s != [] {
      var init := s[..|s| - 1];
      DistinctMembers(init);
      assert s == init + [s[|s| - 1]];
    }
  }

  /** The elements come in the order of their first occurrences in the input. */
  lemma {:induction false} DistinctOrder<T>(s: seq<T>, i: nat, j: nat)
    requires i < j < |Distinct(s)|
    ensures Distinct(s)[i] in s && Distinct(s)[j] in s
    ensures FirstIndex(s, Distinct(s)[i]) < FirstIndex(s, Distinct(s)[j])
  {
    var init := s[..|s| - 1];
    var d := Distinct(init);
    DistinctMembers(s);
    DistinctMembers(init);
    assert s == init + [s[|s| - 1]];
    if j < |d| {
      DistinctOrder(init, i, j);
      FirstIndexPrefix(init, s, d[i]);
      FirstIndexPrefix(init, s, d[j]);
    } else {
      assert s[|s| - 1] !in d && Distinct(s) == d + [s[|s| - 1]];
      assert Distinct(s)[i] == d[i] && d[i] in d;
      DistinctHolds(init, i);
      assert init <= s;
      FirstIndexPrefix(init, s, d[i]);
      FirstIndexLast(s, init);
    }
  }

  lemma DistinctHolds<T>(s: seq<T>, i: nat)
    requires i < |Distinct(s)|
    ensures Distinct(s)[i] in s
  {
    DistinctMembers(s);
    assert Distinct(s)[i] in Distinct(s);
  }

  /** The first occurrence of an element of a prefix lies in the prefix. */
  lemma FirstIndexPrefix<T>(p: seq<T>, s: seq<T>, x: T)
    requires x in p && p <= s
    ensures FirstIndex(s, x) == FirstIndex(p, x)
  {
    var i := FirstIndex(p, x);
    var k := FirstIndex(s, x);
    assert s[..i] == p[..i];
  }

  /** An element first seen at the end is first found at the end. */
  lemma FirstIndexLast<T>(s: seq<T>, init: seq<T>)
    requires s != [] && init == s[..|s| - 1] && s[|s| - 1] !in init
    ensures FirstIndex(s, s[|s| - 1]) == |s| - 1
  {
  }
}
