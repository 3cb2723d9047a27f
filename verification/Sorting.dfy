/** The stable sort of Go's `sort.SliceStable`: what it returns, and the in-place method that computes it. */
module Sorting {
  import opened Prelude

  /** `less` is a strict weak order: the contract `sort.SliceStable` has with its callers. */
  ghost predicate StrictWeak<T(!new)>(less: (T, T) -> bool) {
    && (forall x, y :: less(x, y) ==> !less(y, x))
    && (forall x, y, z :: less(x, z) ==> less(x, y) || less(y, z))
  }

  /** No later element belongs before an earlier one. */
  ghost predicate Sorted<T(!new)>(less: (T, T) -> bool, s: seq<T>) {
    forall i, j :: 0 <= i < j < |s| ==> !less(s[j], s[i])
  }

  /** Every two different elements of `s` are ordered, so equal keys do not occur. */
  ghost predicate Discriminates<T(!new)>(less: (T, T) -> bool, s: seq<T>) {
    forall x, y :: x in s && y in s && x != y ==> less(x, y) || less(y, x)
  }

  /** Puts `x` behind every element of the sorted `s` that it does not belong before. */
  function Insert<T>(less: (T, T) -> bool, s: seq<T>, x: T): (r: seq<T>)
    ensures |r| == |s| + 1
  {
    if s == [] || !less(x, s[|s| - 1]) then s + [x]
    else Insert(less, s[..|s| - 1], x) + [s[|s| - 1]]
  }

  /** Stable sorting: elements are taken in input order, each going behind its equals. */
  function StableSort<T>(less: (T, T) -> bool, s: seq<T>): (r: seq<T>)
    ensures |r| == |s|
  {
    if s == [] then [] else Insert(less, StableSort(less, s[..|s| - 1]), s[|s| - 1])
  }

  lemma {:induction false} InsertPermutes<T>(less: (T, T) -> bool, s: seq<T>, x: T)
    ensures multiset(Insert(less, s, x)) == multiset(s) + multiset{x}
  {
    if s != [] && less(x, s[|s| - 1]) {
      assert s == s[..|s| - 1] + [s[|s| - 1]];
      InsertPermutes(less, s[..|s| - 1], x);
    }
  }

  lemma {:induction false} SortPermutes<T>(less: (T, T) -> bool, s: seq<T>)
    ensures multiset(StableSort(less, s)) == multiset(s)
    ensures forall x :: x in StableSort(less, s) <==> x in s
  {
    if s != [] {
      assert s == s[..|s| - 1] + [s[|s| - 1]];
      SortPermutes(less, s[..|s| - 1]);
      InsertPermutes(less, StableSort(less, s[..|s| - 1]), s[|s| - 1]);
    }
    SameMembers(StableSort(less, s), s);
  }

  lemma SameMembers<T>(a: seq<T>, b: seq<T>)
    requires multiset(a) == multiset(b)
    ensures forall x :: x in a <==> x in b
  {
    forall x ensures x in a <==> x in b {
      assert x in a <==> x in multiset(a);
      assert x in b <==> x in multiset(b);
    }
  }

  lemma {:induction false} PermutedDistinct<T>(a: seq<T>, b: seq<T>)
    requires Distinct(a) && multiset(a) == multiset(b)
    ensures Distinct(b)
  {
    forall i, j | 0 <= i < j < |b| ensures b[i] != b[j] {
      DistinctCount(a, b[i]);
      assert b == b[..i] + [b[i]] + b[i + 1..j] + [b[j]] + b[j + 1..];
    }
  }

  lemma {:induction false} InsertSorted<T(!new)>(less: (T, T) -> bool, s: seq<T>, x: T)
    requires StrictWeak(less) && Sorted(less, s)
    ensures Sorted(less, Insert(less, s, x))
  {
    if s != [] && less(x, s[|s| - 1]) {
      var init, last := s[..|s| - 1], s[|s| - 1];
      InsertSorted(less, init, x);
      InsertPermutes(less, init, x);
      var r := Insert(less, init, x);
      forall k | 0 <= k < |r| ensures !less(last, r[k]) {
        assert r[k] in multiset(r);
        assert r[k] in init || r[k] == x;
      }
    } else if s != [] {
      var last := s[|s| - 1];
      assert forall i :: 0 <= i < |s| - 1 ==> !less(last, s[i]);
    }
  }

  lemma {:induction false} SortSorted<T(!new)>(less: (T, T) -> bool, s: seq<T>)
    requires StrictWeak(less)
    ensures Sorted(less, StableSort(less, s))
  {
    if s != [] {
      SortSorted(less, s[..|s| - 1]);
      InsertSorted(less, StableSort(less, s[..|s| - 1]), s[|s| - 1]);
    }
  }

  /** Sorting what is sorted already moves nothing: equal elements keep their places. */
  lemma {:induction false} SortFixpoint<T(!new)>(less: (T, T) -> bool, s: seq<T>)
    requires Sorted(less, s)
    ensures StableSort(less, s) == s
  {
    if s != [] {
      var init, last := s[..|s| - 1], s[|s| - 1];
      assert forall i :: 0 <= i < |init| ==> init[i] == s[i];
      SortFixpoint(less, init);
      assert init != [] ==> !less(last, init[|init| - 1]);
      assert s == init + [last];
    }
  }

  /** Two arrangements sorted by such an order end in the same element. */
  lemma SameLast<T(!new)>(less: (T, T) -> bool, a: seq<T>, b: seq<T>)
    requires Sorted(less, a) && Sorted(less, b) && multiset(a) == multiset(b)
    requires Discriminates(less, a) && a != [] && b != []
    ensures a[|a| - 1] == b[|b| - 1]
  {
    var x, y := a[|a| - 1], b[|b| - 1];
    SameMembers(a, b);
    assert x in b && y in a;
    var i :| 0 <= i < |a| && a[i] == y;
    var k :| 0 <= k < |b| && b[k] == x;
    assert x == y || !less(x, y);
    assert x == y || !less(y, x);
  }

  /** An order that tells all elements apart leaves one sorted arrangement only. */
  lemma {:induction false} SortedUnique<T(!new)>(less: (T, T) -> bool, a: seq<T>, b: seq<T>)
    requires Sorted(less, a) && Sorted(less, b) && multiset(a) == multiset(b)
    requires Discriminates(less, a)
    ensures a == b
    decreases |a|
  {
    assert |a| == |multiset(a)| && |multiset(b)| == |b|;
    if a == [] {
    } else {
      SameLast(less, a, b);
      WithoutLast(a, b);
      SortedUnique(less, a[..|a| - 1], b[..|b| - 1]);
      assert a == a[..|a| - 1] + [a[|a| - 1]] && b == b[..|b| - 1] + [b[|b| - 1]];
    }
  }

  lemma WithoutLast<T>(a: seq<T>, b: seq<T>)
    requires a != [] && b != [] && multiset(a) == multiset(b) && a[|a| - 1] == b[|b| - 1]
    ensures multiset(a[..|a| - 1]) == multiset(b[..|b| - 1])
  {
    var last := a[|a| - 1];
    assert a == a[..|a| - 1] + [last] && b == b[..|b| - 1] + [last];
    Cancel(multiset(a[..|a| - 1]), multiset(b[..|b| - 1]), last);
  }

  /** The order of the input does not matter to a sort that tells all elements apart. */
  lemma SortOrderIndependent<T(!new)>(less: (T, T) -> bool, a: seq<T>, b: seq<T>)
    requires StrictWeak(less) && multiset(a) == multiset(b) && Discriminates(less, a)
    ensures StableSort(less, a) == StableSort(less, b)
  {
    var x, y := StableSort(less, a), StableSort(less, b);
    SortSorted(less, a);
    SortSorted(less, b);
    SortPermutes(less, a);
    SortPermutes(less, b);
    SortedUnique(less, x, y);
  }

  /** Neighbours that no order puts apart may change places. */
  lemma SwapNeighbours<T(!new)>(less: (T, T) -> bool, d: seq<T>, n: nat) returns (b: seq<T>)
    requires Sorted(less, d) && 0 < n < |d| && !less(d[n - 1], d[n])
    ensures b == d[n - 1 := d[n]][n := d[n - 1]]
    ensures multiset(b) == multiset(d) && Sorted(less, b)
  {
    b := d[n - 1 := d[n]][n := d[n - 1]];
    assert d == d[..n - 1] + [d[n - 1], d[n]] + d[n + 1..];
    assert b == d[..n - 1] + [d[n], d[n - 1]] + d[n + 1..];
    forall i, j | 0 <= i < j < |b| ensures !less(b[j], b[i]) {
      var i' := if i == n - 1 then n else if i == n then n - 1 else i;
      var j' := if j == n - 1 then n else if j == n then n - 1 else j;
      assert i' < j' ==> !less(d[j'], d[i']);
    }
  }

  /** In a sorted list two different elements that are not ordered have neighbours between them that are not. */
  lemma TiedNeighbours<T(!new)>(less: (T, T) -> bool, d: seq<T>) returns (n: nat)
    requires StrictWeak(less) && Sorted(less, d) && !Discriminates(less, d)
    ensures 0 < n < |d| && !less(d[n - 1], d[n])
  {
    var x, y :| x in d && y in d && x != y && !less(x, y) && !less(y, x);
    var i :| 0 <= i < |d| && d[i] == x;
    var j :| 0 <= j < |d| && d[j] == y;
    n := Min(i, j) + 1;
    assert n <= Max(i, j) && (n == Max(i, j) || !less(d[Max(i, j)], d[n]));
  }

  /** Exactly when the order of the input does not matter to a sort of different elements. */
  lemma SortOrderIndependentIff<T(!new)>(less: (T, T) -> bool, s: seq<T>)
    requires StrictWeak(less) && Distinct(s)
    ensures Discriminates(less, s) <==>
            forall b: seq<T> :: multiset(b) == multiset(s) ==> StableSort(less, b) == StableSort(less, s)
  {
    if Discriminates(less, s) {
      forall b: seq<T> | multiset(b) == multiset(s) ensures StableSort(less, b) == StableSort(less, s) {
        SortOrderIndependent(less, s, b);
      }
    } else {
      var d := StableSort(less, s);
      SortSorted(less, s);
      SortPermutes(less, s);
      PermutedDistinct(s, d);
      var n := TiedNeighbours(less, d);
      var b := SwapNeighbours(less, d, n);
      SortFixpoint(less, b);
      assert b[n] != d[n];
    }
  }

  /** One insertion into a sorted prefix, shifting in place from the right. */
  method InsertInPlace<T>(a: array<T>, i: nat, less: (T, T) -> bool)
    requires i < a.Length
    modifies a
    ensures a[..i + 1] == Insert(less, old(a[..i]), old(a[i]))
    ensures forall k :: i < k < a.Length ==> a[k] == old(a[k])
  {
    var x := a[i];
    var j := i;
    ghost var was := a[..i];
    ghost var tail: seq<T> := [];
    assert was[..i] == was && Insert(less, was, x) + tail == Insert(less, was, x);
    while j > 0 && less(x, a[j - 1])
      invariant 0 <= j <= i
      invariant forall k :: 0 <= k < j ==> a[k] == was[k]
      invariant |tail| == i - j && forall k :: 0 <= k < |tail| ==> a[j + 1 + k] == tail[k]
      invariant Insert(less, was, x) == Insert(less, was[..j], x) + tail
      invariant forall k :: i < k < a.Length ==> a[k] == old(a[k])
    {
      InsertStep(less, was[..j], x, tail);
      assert was[..j][..j - 1] == was[..j - 1];
      tail := [was[j - 1]] + tail;
      a[j] := a[j - 1];
      j := j - 1;
    }
    a[j] := x;
    assert a[..i + 1] == was[..j] + [x] + tail;
  }

  /** An insertion that passes the last element leaves it behind the rest. */
  lemma InsertStep<T>(less: (T, T) -> bool, s: seq<T>, x: T, tail: seq<T>)
    requires s != [] && less(x, s[|s| - 1])
    ensures Insert(less, s, x) + tail == Insert(less, s[..|s| - 1], x) + ([s[|s| - 1]] + tail)
  {
  }

  /** `sort.SliceStable` on the first `n` elements of a slice's backing array. */
  method SliceStable<T>(a: array<T>, n: nat, less: (T, T) -> bool)
    requires n <= a.Length
    modifies a
    ensures a[..n] == StableSort(less, old(a[..n]))
    ensures forall k :: n <= k < a.Length ==> a[k] == old(a[k])
  {
    ghost var was := a[..n];
    var i := 0;
    while i < n
      invariant 0 <= i <= n
      invariant a[..i] == StableSort(less, was[..i])
      invariant forall k :: i <= k < a.Length ==> a[k] == old(a[k])
    {
      assert was[..i + 1][..i] == was[..i];
      InsertInPlace(a, i, less);
      i := i + 1;
    }
    assert was[..n] == was;
  }

  /** The same sort of a slice nothing else refers to. */
  method SortSlice<T>(s: seq<T>, less: (T, T) -> bool) returns (r: seq<T>)
    ensures r == StableSort(less, s)
  {
    var a := new T[|s|](i requires 0 <= i < |s| => s[i]);
    assert a[..|s|] == s;
    SliceStable(a, |s|, less);
    r := a[..|s|];
  }
}
