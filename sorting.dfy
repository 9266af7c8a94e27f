/** The stable sort that `Array.prototype.sort` performs with a consistent
    comparator, as a specification function and as an in-place insertion sort
    on an array. `le(a, b)` stands for "the comparator does not put `b` before
    `a`", i.e. `compare(a, b) <= 0`. */
module Sorting {

  ghost predicate Transitive<T(!new)>(le: (T, T) -> bool) {
    forall x, y, z :: le(x, y) && le(y, z) ==> le(x, z)
  }

  ghost predicate TotalPreorder<T(!new)>(le: (T, T) -> bool) {
    && (forall x, y :: le(x, y) || le(y, x))
    && Transitive(le)
  }

  ghost predicate SortedBy<T>(s: seq<T>, le: (T, T) -> bool) {
    forall i, j :: 0 <= i < j < |s| ==> le(s[i], s[j])
  }

  /** Elements that compare equal to `e`. */
  predicate Tied<T>(x: T, e: T, le: (T, T) -> bool) {
    le(x, e) && le(e, x)
  }

  /** The elements of `s` that compare equal to `e`, in their order in `s`. */
  function TiedWith<T>(s: seq<T>, e: T, le: (T, T) -> bool): seq<T> {
    if s == [] then []
    else TiedWith(s[..|s| - 1], e, le) + (if Tied(s[|s| - 1], e, le) then [s[|s| - 1]] else [])
  }

  /** Insert `x` into `t` after every element that does not compare greater than it. */
  function Insert<T>(t: seq<T>, x: T, le: (T, T) -> bool): seq<T> {
    if t == [] then [x]
    else if le(t[|t| - 1], x) then t + [x]
    else Insert(t[..|t| - 1], x, le) + [t[|t| - 1]]
  }

  /** The stable sort of `s`: insert each element in turn, left to right. */
  function StableSort<T>(s: seq<T>, le: (T, T) -> bool): seq<T> {
    if s == [] then [] else Insert(StableSort(s[..|s| - 1], le), s[|s| - 1], le)
  }

  lemma {:induction false} InsertPermutes<T>(t: seq<T>, x: T, le: (T, T) -> bool)
    ensures multiset(Insert(t, x, le)) == multiset(t) + multiset{x}
  {
    if t != [] && !le(t[|t| - 1], x) {
      InsertPermutes(t[..|t| - 1], x, le);
      assert t == t[..|t| - 1] + [t[|t| - 1]];
    }
  }

  /** The sort is a permutation of its input. */
  lemma {:induction false} StableSortPermutes<T>(s: seq<T>, le: (T, T) -> bool)
    ensures multiset(StableSort(s, le)) == multiset(s)
  {
    if s != [] {
      var init, x := s[..|s| - 1], s[|s| - 1];
      StableSortPermutes(init, le);
      InsertPermutes(StableSort(init, le), x, le);
      assert s == init + [x];
      assert multiset(s) == multiset(init) + multiset{x};
    }
  }

  /** Every element of an insertion is the inserted one or comes from `t`. */
  lemma {:induction false} InsertElements<T>(t: seq<T>, x: T, le: (T, T) -> bool, k: nat)
    requires k < |Insert(t, x, le)|
    ensures Insert(t, x, le)[k] == x || exists m :: 0 <= m < |t| && t[m] == Insert(t, x, le)[k]
  {
    if t != [] && !le(t[|t| - 1], x) {
      var u := t[..|t| - 1];
      if k < |Insert(u, x, le)| {
        InsertElements(u, x, le, k);
        if Insert(t, x, le)[k] != x {
          var m :| 0 <= m < |u| && u[m] == Insert(u, x, le)[k];
          assert t[m] == u[m];
        }
      } else {
        assert Insert(t, x, le)[k] == t[|t| - 1];
      }
    } else if t != [] && k < |t| {
      assert Insert(t, x, le)[k] == t[k];
    }
  }

  lemma {:induction false} InsertSorted<T(!new)>(t: seq<T>, x: T, le: (T, T) -> bool)
    requires TotalPreorder(le)
    requires SortedBy(t, le)
    ensures SortedBy(Insert(t, x, le), le)
    ensures |Insert(t, x, le)| == |t| + 1
  {
    if t != [] && !le(t[|t| - 1], x) {
      var u := t[..|t| - 1];
      var last := t[|t| - 1];
      InsertSorted(u, x, le);
      var v := Insert(u, x, le);
      forall k | 0 <= k < |v| ensures le(v[k], last) {
        InsertElements(u, x, le, k);
        if v[k] != x {
          var m :| 0 <= m < |u| && u[m] == v[k];
          assert t[m] == u[m];
        }
      }
    }
  }

  /** The sort orders its output by `le`. */
  lemma {:induction false} StableSortSorted<T(!new)>(s: seq<T>, le: (T, T) -> bool)
    requires TotalPreorder(le)
    ensures SortedBy(StableSort(s, le), le)
    ensures |StableSort(s, le)| == |s|
  {
    if s != [] {
      StableSortSorted(s[..|s| - 1], le);
      InsertSorted(StableSort(s[..|s| - 1], le), s[|s| - 1], le);
    }
  }

  lemma TiedWithConcat<T>(a: seq<T>, b: seq<T>, e: T, le: (T, T) -> bool)
    ensures TiedWith(a + b, e, le) == TiedWith(a, e, le) + TiedWith(b, e, le)
    decreases |b|
  {
    if b != [] {
      assert (a + b)[..|a + b| - 1] == a + b[..|b| - 1];
      TiedWithConcat(a, b[..|b| - 1], e, le);
    } else {
      assert a + b == a;
    }
  }

  /** Passing over an element greater than `x` never reorders two elements tied with `e`. */
  lemma NotBothTied<T(!new)>(x: T, y: T, e: T, le: (T, T) -> bool)
    requires Transitive(le)
    requires !le(y, x)
    ensures !(Tied(x, e, le) && Tied(y, e, le))
  {
  }

  lemma {:induction false} InsertKeepsTies<T(!new)>(t: seq<T>, x: T, e: T, le: (T, T) -> bool)
    requires Transitive(le)
    ensures TiedWith(Insert(t, x, le), e, le) == TiedWith(t, e, le) + TiedWith([x], e, le)
  {
    assert [x][..0] == [];
    if t == [] {
    } else if le(t[|t| - 1], x) {
      TiedWithConcat(t, [x], e, le);
    } else {
      var u := t[..|t| - 1];
      var y := t[|t| - 1];
      assert t == u + [y];
      assert [y][..0] == [];
      InsertKeepsTies(u, x, e, le);
      TiedWithConcat(Insert(u, x, le), [y], e, le);
      TiedWithConcat(u, [y], e, le);
      NotBothTied(x, y, e, le);
    }
  }

  /** Stability: elements that compare equal keep their input order. */
  lemma {:induction false} StableSortKeepsTies<T(!new)>(s: seq<T>, e: T, le: (T, T) -> bool)
    requires TotalPreorder(le)
    ensures TiedWith(StableSort(s, le), e, le) == TiedWith(s, e, le)
  {
    if s != [] {
      var init := s[..|s| - 1];
      StableSortKeepsTies(init, e, le);
      InsertKeepsTies(StableSort(init, le), s[|s| - 1], e, le);
      assert s == init + [s[|s| - 1]];
      TiedWithConcat(init, [s[|s| - 1]], e, le);
    }
  }

  /** Sorts `a` in place by insertion; the result is exactly `StableSort` of the old contents. */
  method InsertionSort<T>(a: array<T>, le: (T, T) -> bool)
    modifies a
    ensures a[..] == StableSort(old(a[..]), le)
  {
    ghost var orig := a[..];
    var i := 0;
    while i < a.Length
      invariant 0 <= i <= a.Length
      invariant a[..i] == StableSort(orig[..i], le)
      invariant forall k :: i <= k < a.Length ==> a[k] == orig[k]
    {
      assert orig[..i + 1][..i] == orig[..i];
      InsertStep(a, i, le);
      i := i + 1;
    }
    assert orig[..a.Length] == orig && a[..a.Length] == a[..];
  }

  /** Moves `a[i]` left past every greater element of the sorted prefix `a[..i]`. */
  method InsertStep<T>(a: array<T>, i: nat, le: (T, T) -> bool)
    requires i < a.Length
    modifies a
    ensures a[..i + 1] == Insert(old(a[..i]), old(a[i]), le)
    ensures forall k :: i < k < a.Length ==> a[k] == old(a[k])
  {
    var x := a[i];
    ghost var prefix := a[..i];
    var j := i;
    assert prefix[..i] == prefix && prefix[i..i] == [];
    while j > 0 && !le(a[j - 1], x)
      invariant 0 <= j <= i
      invariant forall k {:trigger a[k]} :: 0 <= k < j ==> a[k] == prefix[k]
      invariant forall k {:trigger a[k]} :: j < k <= i ==> a[k] == prefix[k - 1]
      invariant forall k :: i < k < a.Length ==> a[k] == old(a[k])
      invariant Insert(prefix, x, le) == Insert(prefix[..j], x, le) + prefix[j..]
    {
      ShiftStep(prefix, j, x, le);
      var y := a[j - 1];
      assert y == prefix[j - 1];
      a[j] := y;
      j := j - 1;
      assert a[j + 1] == prefix[j];
    }
    a[j] := x;
    InsertStop(prefix, j, x, le);
    SpliceAt(prefix, j, x);
    assert a[..i + 1] == prefix[..j] + [x] + prefix[j..];
  }

  /** Where the inner loop stops, `x` goes in. */
  lemma InsertStop<T>(prefix: seq<T>, j: nat, x: T, le: (T, T) -> bool)
    requires j <= |prefix|
    requires j == 0 || le(prefix[j - 1], x)
    requires Insert(prefix, x, le) == Insert(prefix[..j], x, le) + prefix[j..]
    ensures Insert(prefix, x, le) == prefix[..j] + [x] + prefix[j..]
  {
    if j > 0 {
      assert prefix[..j][j - 1] == prefix[j - 1];
    }
  }

  /** The positions of `x` inserted into `p` at index `j`. */
  lemma SpliceAt<T>(p: seq<T>, j: nat, x: T)
    requires j <= |p|
    ensures var d := p[..j] + [x] + p[j..];
      && |d| == |p| + 1 && d[j] == x
      && (forall k :: 0 <= k < j ==> d[k] == p[k])
      && (forall k :: j < k <= |p| ==> d[k] == p[k - 1])
  {
  }

  /** One step of the inner loop: moving past an element greater than `x`. */
  lemma ShiftStep<T>(prefix: seq<T>, j: nat, x: T, le: (T, T) -> bool)
    requires 0 < j <= |prefix|
    requires !le(prefix[j - 1], x)
    ensures Insert(prefix[..j], x, le) + prefix[j..] == Insert(prefix[..j - 1], x, le) + prefix[j - 1..]
  {
    assert prefix[..j][..j - 1] == prefix[..j - 1];
    assert prefix[j - 1..] == [prefix[j - 1]] + prefix[j..];
  }
}
