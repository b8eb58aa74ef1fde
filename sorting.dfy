/** `Array.prototype.sort` with a numeric comparator `(a, b) => key(a) - key(b)`.
    The engine's sort is stable, so the model is a stable insertion sort:
    `SortBy` is its specification on sequences and `SortInPlace` the same
    algorithm run in place on an array, as the source sorts its arrays. */
module Sorting {

  predicate SortedBy<T>(s: seq<T>, key: T -> int) {
    forall i, j :: 0 <= i < j < |s| ==> key(s[i]) <= key(s[j])
  }

  /** Inserts `x` after every element of `t` whose key is not larger. */
  function InsertBy<T>(t: seq<T>, x: T, key: T -> int): (r: seq<T>)
    ensures |r| == |t| + 1
  {
    if |t| == 0 || key(t[|t| - 1]) <= key(x) then t + [x]
    else InsertBy(t[..|t| - 1], x, key) + [t[|t| - 1]]
  }

  /** Insertion sort, one element at a time from the left. */
  function SortBy<T>(s: seq<T>, key: T -> int): (r: seq<T>)
    ensures |r| == |s|
  {
    if |s| == 0 then [] else InsertBy(SortBy(s[..|s| - 1], key), s[|s| - 1], key)
  }

  lemma {:induction false} InsertByMultiset<T>(t: seq<T>, x: T, key: T -> int)
    ensures multiset(InsertBy(t, x, key)) == multiset(t) + multiset{x}
  {
    if |t| > 0 && key(t[|t| - 1]) > key(x) {
      InsertByMultiset(t[..|t| - 1], x, key);
      assert t == t[..|t| - 1] + [t[|t| - 1]];
    }
  }

  lemma {:induction false} InsertBySorted<T>(t: seq<T>, x: T, key: T -> int)
    requires SortedBy(t, key)
    ensures SortedBy(InsertBy(t, x, key), key)
  {
    if |t| > 0 && key(t[|t| - 1]) > key(x) {
      var u := t[..|t| - 1];
      InsertBySorted(u, x, key);
      InsertByMultiset(u, x, key);
      var r := InsertBy(u, x, key);
      forall i | 0 <= i < |r|
        ensures key(r[i]) <= key(t[|t| - 1])
      {
        assert r[i] in multiset(u) + multiset{x};
        if r[i] in multiset(u) {
          var k :| 0 <= k < |u| && u[k] == r[i];
          assert u[k] == t[k];
        }
      }
    }
  }

  /** The sorted sequence is ordered by key. */
  lemma {:induction false} SortBySorted<T>(s: seq<T>, key: T -> int)
    ensures SortedBy(SortBy(s, key), key)
  {
    if |s| > 0 {
      SortBySorted(s[..|s| - 1], key);
      InsertBySorted(SortBy(s[..|s| - 1], key), s[|s| - 1], key);
    }
  }

  /** The sorted sequence is a permutation of the input. */
  lemma {:induction false} SortByPermutation<T>(s: seq<T>, key: T -> int)
    ensures multiset(SortBy(s, key)) == multiset(s)
  {
    if |s| > 0 {
      SortByPermutation(s[..|s| - 1], key);
      InsertByMultiset(SortBy(s[..|s| - 1], key), s[|s| - 1], key);
      assert s == s[..|s| - 1] + [s[|s| - 1]];
    }
  }

  /** `InsertBy` puts `x` right after the last element whose key is not
      larger than `x`'s: before every element of a larger key at the end. */
  lemma {:induction false} InsertByAt<T>(t: seq<T>, j: nat, x: T, key: T -> int)
    requires j <= |t|
    requires j == 0 || key(t[j - 1]) <= key(x)
    requires forall k :: j <= k < |t| ==> key(t[k]) > key(x)
    ensures InsertBy(t, x, key) == t[..j] + [x] + t[j..]
  {
    if j == |t| {
      assert t[..j] == t && t[j..] == [];
    } else {
      var u := t[..|t| - 1];
      var last := t[|t| - 1];
      assert key(last) > key(x);
      InsertByAt(u, j, x, key);
      assert u[..j] == t[..j];
      assert u[j..] + [last] == t[j..];
    }
  }

  /** A sequence holding `t[..j]`, then `x`, then the rest of `t` shifted
      one place right is `t` with `x` inserted at `j`. */
  lemma Assembled<T>(t: seq<T>, j: nat, x: T, s: seq<T>)
    requires j <= |t| && |s| == |t| + 1 && s[j] == x
    requires forall k :: 0 <= k < j ==> s[k] == t[k]
    requires forall k :: j < k < |s| ==> s[k] == t[k - 1]
    ensures s == t[..j] + [x] + t[j..]
  {
  }

  /** The inner loop: shifts the elements of the sorted prefix `a[..i]`
      whose key is larger than `x`'s one place right and returns the gap,
      where inserting `x` gives `InsertBy`. */
  method ShiftLarger<T>(a: array<T>, i: nat, x: T, key: T -> int, ghost t: seq<T>) returns (j: nat)
    requires i < a.Length && t == a[..i]
    modifies a
    ensures j <= i
    ensures forall k :: 0 <= k < j ==> a[k] == t[k]
    ensures forall k :: j < k <= i ==> a[k] == t[k - 1]
    ensures forall k :: i < k < a.Length ==> a[k] == old(a[k])
    ensures InsertBy(t, x, key) == t[..j] + [x] + t[j..]
  {
    j := i;
    while j > 0 && key(a[j - 1]) > key(x)
      invariant 0 <= j <= i
      invariant forall k :: 0 <= k < j ==> a[k] == t[k]
      invariant forall k :: j < k <= i ==> a[k] == t[k - 1]
      invariant forall k :: i < k < a.Length ==> a[k] == old(a[k])
      invariant forall k :: j <= k < i ==> key(t[k]) > key(x)
    {
      a[j] := a[j - 1];
      j := j - 1;
    }
    InsertByAt(t, j, x, key);
  }

  /** One step of the sort: drops `a[i]` into its place in the sorted
      prefix `a[..i]`, leaving the rest of the array alone. */
  method InsertInPlace<T>(a: array<T>, i: nat, key: T -> int)
    requires i < a.Length
    modifies a
    ensures a[..i + 1] == InsertBy(old(a[..i]), old(a[i]), key)
    ensures a[i + 1..] == old(a[i + 1..])
  {
    ghost var t := a[..i];
    var x := a[i];
    var j := ShiftLarger(a, i, x, key, t);
    a[j] := x;
    Assembled(t, j, x, a[..i + 1]);
  }

  /** Stable insertion sort on the array itself. */
  method SortInPlace<T>(a: array<T>, key: T -> int)
    modifies a
    ensures a[..] == SortBy(old(a[..]), key)
  {
    ghost var input := a[..];
    var i := 0;
    while i < a.Length
      invariant 0 <= i <= a.Length
      invariant a[..i] == SortBy(input[..i], key)
      invariant a[i..] == input[i..]
    {
      InsertInPlace(a, i, key);
      assert input[..i + 1][..i] == input[..i];
      i := i + 1;
    }
    assert input[..a.Length] == input;
  }

  /** Sorts the rows of a freshly fetched array in place and returns them. */
  method SortSequence<T>(s: seq<T>, key: T -> int) returns (sorted: seq<T>)
    ensures sorted == SortBy(s, key)
  {
    var a := new T[|s|](k requires 0 <= k < |s| => s[k]);
    assert a[..] == s;
    SortInPlace(a, key);
    sorted := a[..];
  }
}
