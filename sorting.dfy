/**
  Python's `list.sort(key=...)`, which the engine uses twice: to order the VMs
  by arrival before the greedy placement, and to order the sweep-line events
  by time. Python's sort is stable, so the result is fully determined: it is
  the stable insertion sort below, and `SortBy` computes it in place.
 */
module Sorting {

  predicate SortedBy<T>(s: seq<T>, key: T -> int)
  {
    forall i, j :: 0 <= i < j < |s| ==> key(s[i]) <= key(s[j])
  }

  /** The entries of `s` whose key is `k`, in their order in `s`. */
  function WithKey<T>(s: seq<T>, key: T -> int, k: int): seq<T>
  {
    if s == [] then []
    else WithKey(s[..|s| - 1], key, k) + (if key(s[|s| - 1]) == k then [s[|s| - 1]] else [])
  }

  /**
    Where `x` goes when it is inserted into `s`: after every entry whose key is
    at most `x`'s, counted from the right, so that equal keys keep their order.
   */
  function InsertPos<T>(s: seq<T>, x: T, key: T -> int): (k: nat)
    ensures k <= |s|
  {
    if s == [] || key(s[|s| - 1]) <= key(x) then |s| else InsertPos(s[..|s| - 1], x, key)
  }

  /** Everything before the insertion point ends with a key at most `x`'s; everything after is larger. */
  lemma {:induction false} InsertPosSplits<T>(s: seq<T>, x: T, key: T -> int)
    ensures var k := InsertPos(s, x, key);
      && (k == 0 || key(s[k - 1]) <= key(x))
      && forall i :: k <= i < |s| ==> key(s[i]) > key(x)
  {
    if s != [] && key(s[|s| - 1]) > key(x) {
      InsertPosSplits(s[..|s| - 1], x, key);
    }
  }

  function Insert<T>(s: seq<T>, x: T, key: T -> int): (r: seq<T>)
  {
    var k := InsertPos(s, x, key);
    s[..k] + [x] + s[k..]
  }

  function InsertionSort<T>(s: seq<T>, key: T -> int): seq<T>
  {
    if s == [] then [] else Insert(InsertionSort(s[..|s| - 1], key), s[|s| - 1], key)
  }

  lemma {:induction false} WithKeyConcat<T>(a: seq<T>, b: seq<T>, key: T -> int, k: int)
    ensures WithKey(a + b, key, k) == WithKey(a, key, k) + WithKey(b, key, k)
  {
    if b == [] {
      assert a + b == a;
    } else {
      var b' := b[..|b| - 1];
      assert (a + b)[..|a + b| - 1] == a + b';
      WithKeyConcat(a, b', key, k);
    }
  }

  /** No entry of `s` has key `k` when every key in `s` exceeds it. */
  lemma {:induction false} WithKeyAbove<T>(s: seq<T>, key: T -> int, k: int)
    requires forall i :: 0 <= i < |s| ==> key(s[i]) > k
    ensures WithKey(s, key, k) == []
  {
    if s != [] {
      WithKeyAbove(s[..|s| - 1], key, k);
    }
  }

  /** Inserting into a sorted list keeps it sorted. */
  lemma InsertSorted<T>(s: seq<T>, x: T, key: T -> int)
    requires SortedBy(s, key)
    ensures SortedBy(Insert(s, x, key), key)
  {
    var k := InsertPos(s, x, key);
    var r := Insert(s, x, key);
    InsertPosSplits(s, x, key);
    assert forall i :: 0 <= i < k ==> key(s[i]) <= key(x) by {
      forall i | 0 <= i < k ensures key(s[i]) <= key(x) {
        assert key(s[i]) <= key(s[k - 1]);
      }
    }
    forall i, j | 0 <= i < j < |r| ensures key(r[i]) <= key(r[j]) {
      var si := if i < k then i else if i == k then -1 else i - 1;
      var sj := if j < k then j else if j == k then -1 else j - 1;
      assert si != -1 ==> r[i] == s[si];
      assert sj != -1 ==> r[j] == s[sj];
    }
  }

  lemma InsertPermutes<T>(s: seq<T>, x: T, key: T -> int)
    ensures multiset(Insert(s, x, key)) == multiset(s) + multiset{x}
  {
    var k := InsertPos(s, x, key);
    assert s == s[..k] + s[k..];
  }

  lemma InsertStable<T>(s: seq<T>, x: T, key: T -> int, k: int)
    ensures WithKey(Insert(s, x, key), key, k)
         == WithKey(s, key, k) + (if key(x) == k then [x] else [])
  {
    var p := InsertPos(s, x, key);
    var front, back := s[..p], s[p..];
    assert s == front + back;
    assert Insert(s, x, key) == (front + [x]) + back;
    WithKeyConcat(front, back, key, k);
    WithKeyConcat(front + [x], back, key, k);
    assert WithKey(front + [x], key, k) == WithKey(front, key, k) + (if key(x) == k then [x] else []) by {
      assert (front + [x])[..|front + [x]| - 1] == front;
    }
    if key(x) == k {
      InsertPosSplits(s, x, key);
      WithKeyAbove(back, key, k);
    }
  }

  /** The sort returns its input in ascending key order. */
  lemma {:induction false} SortSorted<T>(s: seq<T>, key: T -> int)
    ensures SortedBy(InsertionSort(s, key), key)
  {
    if s != [] {
      SortSorted(s[..|s| - 1], key);
      InsertSorted(InsertionSort(s[..|s| - 1], key), s[|s| - 1], key);
    }
  }

  /** The sort returns a permutation of its input. */
  lemma {:induction false} SortPermutes<T>(s: seq<T>, key: T -> int)
    ensures multiset(InsertionSort(s, key)) == multiset(s)
  {
    if s != [] {
      var t := s[..|s| - 1];
      assert s == t + [s[|s| - 1]];
      SortPermutes(t, key);
      InsertPermutes(InsertionSort(t, key), s[|s| - 1], key);
    }
  }

  /** The sort is stable: entries with equal keys keep their relative order. */
  lemma {:induction false} SortStable<T>(s: seq<T>, key: T -> int, k: int)
    ensures WithKey(InsertionSort(s, key), key, k) == WithKey(s, key, k)
  {
    if s != [] {
      SortStable(s[..|s| - 1], key, k);
      InsertStable(InsertionSort(s[..|s| - 1], key), s[|s| - 1], key, k);
    }
  }

  /** Inserting past a tail of larger keys is inserting into what precedes them. */
  lemma InsertPosSkips<T>(s: seq<T>, x: T, key: T -> int, j: nat)
    requires 0 < j <= |s| && key(s[j - 1]) > key(x)
    ensures InsertPos(s[..j], x, key) == InsertPos(s[..j - 1], x, key)
  {
    assert s[..j][..j - 1] == s[..j - 1];
  }

  /** Where the backward scan for `x` stops, there `x` is inserted. */
  lemma InsertPosStops<T>(s: seq<T>, x: T, key: T -> int, j: nat)
    requires j <= |s| && (j == 0 || key(s[j - 1]) <= key(x))
    requires InsertPos(s, x, key) == InsertPos(s[..j], x, key)
    ensures InsertPos(s, x, key) == j
  {
  }

  /**
    The inner loop of one insertion step: shifts the entries before `a[i]`
    whose key exceeds `a[i]`'s one place right, and returns the gap left,
    which is where `a[i]` belongs.
   */
  method ShiftLarger<T>(a: array<T>, i: nat, key: T -> int) returns (j: nat)
    requires i < a.Length
    modifies a
    ensures j == InsertPos(old(a[..i]), old(a[i]), key)
    ensures forall k :: 0 <= k < j ==> a[k] == old(a[k])
    ensures forall k :: j < k <= i ==> a[k] == old(a[k - 1])
    ensures forall k :: i < k < a.Length ==> a[k] == old(a[k])
  {
    var x := a[i];
    ghost var sorted := a[..i];
    j := i;
    assert sorted[..j] == sorted;
    while j > 0 && key(a[j - 1]) > key(x)
      invariant 0 <= j <= i
      invariant forall k :: 0 <= k < j ==> a[k] == sorted[k]
      invariant forall k :: j < k <= i ==> a[k] == sorted[k - 1]
      invariant forall k :: i < k < a.Length ==> a[k] == old(a[k])
      invariant InsertPos(sorted, x, key) == InsertPos(sorted[..j], x, key)
    {
      InsertPosSkips(sorted, x, key, j);
      a[j] := a[j - 1];
      j := j - 1;
    }
    InsertPosStops(sorted, x, key, j);
  }

  /** Moves `a[i]` left past the larger keys before it: one step of the insertion sort. */
  method InsertLast<T>(a: array<T>, i: nat, key: T -> int)
    requires i < a.Length
    modifies a
    ensures a[..i + 1] == Insert(old(a[..i]), old(a[i]), key)
    ensures a[i + 1..] == old(a[i + 1..])
  {
    var x := a[i];
    ghost var sorted := a[..i];
    var j := ShiftLarger(a, i, key);
    a[j] := x;
    ghost var spliced := sorted[..j] + [x] + sorted[j..];
    forall k | 0 <= k <= i
      ensures a[k] == spliced[k]
    {
      if k > j {
        assert spliced[k] == sorted[k - 1];
      }
    }
    assert a[..i + 1] == spliced;
  }

  /** Stable insertion sort of `a` by `key`, in place. */
  method SortBy<T>(a: array<T>, key: T -> int)
    modifies a
    ensures a[..] == InsertionSort(old(a[..]), key)
  {
    ghost var input := a[..];
    var i := 0;
    while i < a.Length
      invariant 0 <= i <= a.Length
      invariant a[..i] == InsertionSort(input[..i], key)
      invariant a[i..] == input[i..]
    {
      InsertLast(a, i, key);
      assert input[..i + 1][..i] == input[..i];
      i := i + 1;
    }
    assert input[..a.Length] == input;
  }
}
