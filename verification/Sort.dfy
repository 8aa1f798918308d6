/** In-place, non-recursive heapsort by an integer key. */
module Sort {

  function Parent(c: nat): nat
    requires c > 0
  {
    (c - 1) / 2
  }

  /** The key of `c`'s parent is at least the key of `c`. */
  ghost predicate Under<T(!new)>(s: seq<T>, key: T -> int, c: nat)
    requires 0 < c < |s|
  {
    key(s[Parent(c)]) >= key(s[c])
  }

  /** Max-heap order among the first `n` slots for every parent at or above `lo`. */
  ghost predicate Heap<T(!new)>(s: seq<T>, key: T -> int, lo: nat, n: nat) {
    n <= |s| && forall c | 0 < c < n && Parent(c) >= lo :: Under(s, key, c)
  }

  /** Heap order except below the hole `i`, whose children still fit under `i`'s parent. */
  ghost predicate HeapButFor<T(!new)>(s: seq<T>, key: T -> int, lo: nat, n: nat, i: nat) {
    && n <= |s|
    && (forall c | 0 < c < n && Parent(c) >= lo && Parent(c) != i :: Under(s, key, c))
    && (forall c | 0 < c < n && Parent(c) == i && i > lo && Parent(i) >= lo :: key(s[Parent(i)]) >= key(s[c]))
  }

  ghost predicate Sorted<T(!new)>(s: seq<T>, key: T -> int) {
    forall i, j | 0 <= i < j < |s| :: key(s[i]) <= key(s[j])
  }

  /** `t` rearranges the first `n` elements of `s` and nothing else. */
  ghost predicate Rearranged<T>(s: seq<T>, t: seq<T>, n: nat) {
    && n <= |s| == |t|
    && multiset(s[..n]) == multiset(t[..n])
    && s[n..] == t[n..]
  }

  function Swapped<T>(s: seq<T>, i: nat, j: nat): seq<T>
    requires i < |s| && j < |s|
  {
    s[i := s[j]][j := s[i]]
  }

  lemma SwapMultiset<T>(s: seq<T>, i: nat, j: nat)
    requires i < |s| && j < |s|
    ensures multiset(Swapped(s, i, j)) == multiset(s)
  {
  }

  lemma SwapRearranged<T>(s: seq<T>, t: seq<T>, n: nat, i: nat, j: nat)
    requires Rearranged(s, t, n) && i < n && j < n
    ensures Rearranged(s, Swapped(t, i, j), n)
  {
    var u := Swapped(t, i, j);
    assert u[..n] == Swapped(t[..n], i, j);
    SwapMultiset(t[..n], i, j);
    assert u[n..] == t[n..];
  }

  /** Moving the larger child up moves the hole down. */
  lemma SiftStep<T(!new)>(s: seq<T>, key: T -> int, lo: nat, n: nat, i: nat, max: nat)
    requires HeapButFor(s, key, lo, n, i) && lo <= i < max < n && Parent(max) == i
    requires forall c | 0 < c < n && Parent(c) == i :: key(s[c]) <= key(s[max])
    requires key(s[i]) < key(s[max])
    ensures HeapButFor(Swapped(s, i, max), key, lo, n, max)
  {
    var t := Swapped(s, i, max);
    forall c | 0 < c < n && Parent(c) >= lo && Parent(c) != max ensures Under(t, key, c) {
      if c == i {
        assert key(s[Parent(i)]) >= key(s[max]);
      } else if Parent(c) == i {
        assert key(s[c]) <= key(s[max]);
      } else {
        assert Under(s, key, c);
      }
    }
    forall c | 0 < c < n && Parent(c) == max ensures key(t[Parent(max)]) >= key(t[c]) {
      assert Under(s, key, c);
    }
  }

  lemma {:induction false} RootIsMax<T(!new)>(s: seq<T>, key: T -> int, n: nat, j: nat)
    requires Heap(s, key, 0, n) && j < n
    ensures key(s[0]) >= key(s[j])
    decreases j
  {
    if j > 0 {
      RootIsMax(s, key, n, Parent(j));
      assert Under(s, key, j);
    }
  }

  method SiftDown<T(!new)>(a: array<T>, start: nat, heapLen: nat, key: T -> int)
    requires start < heapLen <= a.Length
    requires Heap(a[..], key, start + 1, heapLen)
    modifies a
    ensures Heap(a[..], key, start, heapLen)
    ensures Rearranged(old(a[..]), a[..], heapLen)
  {
    var i := start;
    while true
      invariant start <= i < heapLen
      invariant HeapButFor(a[..], key, start, heapLen, i)
      invariant Rearranged(old(a[..]), a[..], heapLen)
      decreases heapLen - i
    {
      ghost var s := a[..];
      var left := 2 * i + 1;
      if left >= heapLen {
        return;
      }
      var right := left + 1;
      var max := left;
      if right < heapLen && key(a[right]) > key(a[left]) {
        max := right;
      }
      assert forall c | 0 < c < heapLen && Parent(c) == i :: c == left || c == right;
      if key(a[i]) >= key(a[max]) {
        forall c | 0 < c < heapLen && Parent(c) >= start ensures Under(s, key, c) {
          if Parent(c) == i {
            assert c == left || c == right;
          }
        }
        return;
      }
      SiftStep(s, key, start, heapLen, i, max);
      SwapRearranged(old(a[..]), s, heapLen, i, max);
      a[i], a[max] := a[max], a[i];
      assert a[..] == Swapped(s, i, max);
      i := max;
    }
  }

  /** Slots n..len are sorted and none of them is below any of the first `n`. */
  ghost predicate SortedFrom<T(!new)>(s: seq<T>, key: T -> int, n: nat, len: nat) {
    && n <= len <= |s|
    && Sorted(s[n..len], key)
    && forall i, j | 0 <= i < n <= j < len :: key(s[i]) <= key(s[j])
  }

  /** Swapping the root of the heap to the end extends the sorted part. */
  lemma TakeMax<T(!new)>(s: seq<T>, key: T -> int, n: nat, len: nat)
    requires 0 < n && Heap(s, key, 0, n) && SortedFrom(s, key, n, len)
    ensures SortedFrom(Swapped(s, 0, n - 1), key, n - 1, len)
    ensures Heap(Swapped(s, 0, n - 1), key, 1, n - 1)
  {
    var t := Swapped(s, 0, n - 1);
    assert t[n..len] == s[n..len];
    forall i | 0 <= i < n ensures key(t[i]) <= key(t[n - 1]) {
      RootIsMax(s, key, n, if i == 0 then n - 1 else i);
    }
    assert t[n - 1..len] == [t[n - 1]] + t[n..len];
    forall c | 0 < c < n - 1 && Parent(c) >= 1 ensures Under(t, key, c) {
      assert Under(s, key, c);
    }
    forall i, j | 0 <= i < n - 1 <= j < len ensures key(t[i]) <= key(t[j]) {
      if j >= n {
        assert t[j] == s[j];
        assert t[i] == s[i] || t[i] == s[n - 1];
      }
    }
  }

  lemma RearrangedKeeps<T(!new)>(s: seq<T>, t: seq<T>, key: T -> int, n: nat, len: nat)
    requires SortedFrom(s, key, n, len) && Rearranged(s, t, n)
    ensures SortedFrom(t, key, n, len)
  {
    forall j | n <= j < |s| ensures t[j] == s[j] {
      assert t[j] == t[n..][j - n] && s[j] == s[n..][j - n];
    }
    assert t[n..len] == s[n..len];
    forall i, j | 0 <= i < n <= j < len ensures key(t[i]) <= key(t[j]) {
      assert t[i] in multiset(t[..n]) by { assert t[i] == t[..n][i]; }
      var k :| 0 <= k < n && s[..n][k] == t[i];
    }
  }

  lemma RearrangedMore<T>(s: seq<T>, t: seq<T>, n: nat, len: nat)
    requires Rearranged(s, t, n) && n <= len <= |s|
    ensures Rearranged(s, t, len)
  {
    assert s[..len] == s[..n] + s[n..][..len - n];
    assert t[..len] == t[..n] + t[n..][..len - n];
    assert s[len..] == s[n..][len - n..];
    assert t[len..] == t[n..][len - n..];
  }

  /** Sort the first `len` slots. */
  method SortByKey<T(!new)>(a: array<T>, len: nat, key: T -> int)
    requires len <= a.Length
    modifies a
    ensures Sorted(a[..len], key)
    ensures Rearranged(old(a[..]), a[..], len)
  {
    if len < 2 {
      return;
    }
    ghost var before := a[..];
    var i := len / 2;
    while i > 0
      invariant 0 <= i <= len / 2
      invariant Heap(a[..], key, i, len)
      invariant Rearranged(before, a[..], len)
    {
      i := i - 1;
      SiftDown(a, i, len, key);
    }
    var n := len;
    while n > 1
      invariant 1 <= n <= len
      invariant Heap(a[..], key, 0, n)
      invariant SortedFrom(a[..], key, n, len)
      invariant Rearranged(before, a[..], len)
    {
      ghost var s := a[..];
      n := n - 1;
      TakeMax(s, key, n + 1, len);
      SwapRearranged(before, s, len, 0, n);
      a[0], a[n] := a[n], a[0];
      ghost var t := a[..];
      assert t == Swapped(s, 0, n);
      SiftDown(a, 0, n, key);
      RearrangedKeeps(t, a[..], key, n, len);
      RearrangedMore(t, a[..], n, len);
    }
    SortedAll(a[..], key, len);
  }

  /** One element in front of a sorted run that it does not exceed. */
  lemma SortedAll<T(!new)>(s: seq<T>, key: T -> int, len: nat)
    requires SortedFrom(s, key, 1, len)
    ensures Sorted(s[..len], key)
  {
    assert s[..len] == [s[0]] + s[1..len];
  }
}
