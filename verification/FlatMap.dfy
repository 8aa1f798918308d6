/** Flat sorted maps: push pairs in any order, sort, merge duplicates in place, look up by bisection. */
module FlatMap {
  import opened Wrappers
  import opened FixedVec
  import opened Pairs
  import opened Sort
  import opened Sequences

  function Key<V>(p: (nat, V)): int {
    p.0
  }

  ghost predicate StrictKeys<V(!new)>(m: seq<(nat, V)>) {
    forall i, j | 0 <= i < j < |m| :: m[i].0 < m[j].0
  }

  // ── The finite map the pushed pairs stand for ──

  /** All values merged from the left; nothing when there are none. */
  ghost function Folded<V>(vs: seq<V>, merge: (V, V) -> V): Option<V> {
    if vs == [] then None
    else if |vs| == 1 then Some(vs[0])
    else Some(merge(Folded(vs[..|vs| - 1], merge).value, vs[|vs| - 1]))
  }

  ghost predicate AssociativeCommutative<V(!new)>(merge: (V, V) -> V) {
    forall a, b, c :: MergesAt(merge, a, b, c)
  }

  ghost predicate MergesAt<V>(merge: (V, V) -> V, a: V, b: V, c: V) {
    merge(a, b) == merge(b, a) && merge(merge(a, b), c) == merge(a, merge(b, c))
  }

  /** What a lookup in the frozen buffer finds. */
  ghost function Lookup<V>(m: seq<(nat, V)>, k: nat): Option<V> {
    if m == [] then None
    else if m[|m| - 1].0 == k then Some(m[|m| - 1].1)
    else Lookup(m[..|m| - 1], k)
  }

  // ── Merging a sorted run ──

  /** Merge equal neighbours, the left one absorbing the right. */
  ghost function Dedup<V>(s: seq<(nat, V)>, merge: (V, V) -> V): (d: seq<(nat, V)>)
    ensures d == [] <==> s == []
    ensures |d| <= |s|
    ensures d != [] ==> d[|d| - 1].0 == s[|s| - 1].0
  {
    if s == [] then []
    else Absorb(Dedup(s[..|s| - 1], merge), s[|s| - 1], merge)
  }

  function Absorb<V>(d: seq<(nat, V)>, x: (nat, V), merge: (V, V) -> V): (r: seq<(nat, V)>)
    ensures r != [] && r[|r| - 1].0 == x.0 && |r| <= |d| + 1
  {
    var w := |d|;
    if d != [] && d[w - 1].0 == x.0 then d[..w - 1] + [(x.0, merge(d[w - 1].1, x.1))] else d + [x]
  }

  lemma SortedPrefix<V(!new)>(s: seq<(nat, V)>)
    requires Sorted(s, Key) && s != []
    ensures Sorted(s[..|s| - 1], Key)
    ensures forall i | 0 <= i < |s| - 1 :: s[i].0 <= s[|s| - 1].0
  {
    forall i | 0 <= i < |s| - 1 ensures s[i].0 <= s[|s| - 1].0 {
      assert Key(s[i]) <= Key(s[|s| - 1]);
    }
  }

  lemma {:induction false} DedupStrict<V(!new)>(s: seq<(nat, V)>, merge: (V, V) -> V)
    requires Sorted(s, Key)
    ensures StrictKeys(Dedup(s, merge))
  {
    if s != [] {
      SortedPrefix(s);
      var front := s[..|s| - 1];
      DedupStrict(front, merge);
      var d := Dedup(front, merge);
      if d != [] {
        assert front[|front| - 1].0 <= s[|s| - 1].0;
      }
    }
  }

  lemma {:induction false} LookupAbove<V(!new)>(m: seq<(nat, V)>, k: nat)
    requires forall i | 0 <= i < |m| :: m[i].0 < k
    ensures Lookup(m, k) == None
  {
    if m != [] {
      LookupAbove(m[..|m| - 1], k);
    }
  }

  lemma AbsorbLookup<V(!new)>(d: seq<(nat, V)>, x: (nat, V), merge: (V, V) -> V, k: nat)
    ensures Lookup(Absorb(d, x, merge), k)
         == if x.0 != k then Lookup(d, k)
            else if d != [] && d[|d| - 1].0 == k then Some(merge(d[|d| - 1].1, x.1))
            else Some(x.1)
  {
    var r := Absorb(d, x, merge);
    assert r[..|r| - 1] == if d != [] && d[|d| - 1].0 == x.0 then d[..|d| - 1] else d;
  }

  lemma FoldedStep<V>(vs: seq<V>, x: V, merge: (V, V) -> V)
    ensures Folded(vs + [x], merge) == if vs == [] then Some(x) else Some(merge(Folded(vs, merge).value, x))
  {
    assert (vs + [x])[..|vs|] == vs;
  }

  lemma {:induction false} DedupLookup<V(!new)>(s: seq<(nat, V)>, merge: (V, V) -> V, k: nat)
    requires Sorted(s, Key)
    ensures Lookup(Dedup(s, merge), k) == Folded(ValuesOf(s, k), merge)
  {
    if s == [] {
      return;
    }
    SortedPrefix(s);
    var front, x := s[..|s| - 1], s[|s| - 1];
    DedupLookup(front, merge, k);
    var d := Dedup(front, merge);
    AbsorbLookup(d, x, merge, k);
    FoldedStep(ValuesOf(front, k), x.1, merge);
    if x.0 == k && (d == [] || d[|d| - 1].0 != k) {
      BelowLast(front, k);
      ValuesNone(front, k);
    }
    hide Absorb, Folded, Sorted;
    assert ValuesOf(front, k) + [] == ValuesOf(front, k);
  }

  lemma BelowLast<V(!new)>(s: seq<(nat, V)>, k: nat)
    requires Sorted(s, Key) && (s != [] ==> s[|s| - 1].0 != k)
    requires forall i | 0 <= i < |s| :: s[i].0 <= k
    ensures forall i | 0 <= i < |s| :: s[i].0 != k
  {
    if s != [] {
      SortedPrefix(s);
    }
  }

  // ── Order of merging ──

  lemma {:induction false} FoldMove<V(!new)>(a: seq<V>, x: V, b: seq<V>, merge: (V, V) -> V)
    requires AssociativeCommutative(merge) && a + b != []
    ensures Folded(a + b, merge).Some?
    ensures Folded(a + [x] + b, merge) == Some(merge(Folded(a + b, merge).value, x))
    decreases |b|
  {
    var whole := a + [x] + b;
    if b == [] {
      assert a + b == a && whole == a + [x] && whole[..|whole| - 1] == a;
    } else {
      var rest, y := b[..|b| - 1], b[|b| - 1];
      assert whole[..|whole| - 1] == a + [x] + rest;
      assert (a + b)[..|a + b| - 1] == a + rest;
      if a + rest == [] {
        assert a + [x] + rest == [x] && a + b == [y];
        assert MergesAt(merge, x, y, y);
      } else {
        FoldMove(a, x, rest, merge);
        var f := Folded(a + rest, merge).value;
        assert MergesAt(merge, f, x, y) && MergesAt(merge, f, y, x) && MergesAt(merge, x, y, f);
      }
    }
  }

  lemma {:induction false} FoldAnyOrder<V(!new)>(xs: seq<V>, ys: seq<V>, merge: (V, V) -> V)
    requires AssociativeCommutative(merge) && multiset(xs) == multiset(ys)
    ensures Folded(xs, merge) == Folded(ys, merge)
    decreases |xs|
  {
    assert |xs| == |multiset(xs)| == |multiset(ys)| == |ys|;
    if |xs| == 1 {
      assert xs[0] in multiset(ys);
    } else if |xs| > 1 {
      var front, x := xs[..|xs| - 1], xs[|xs| - 1];
      assert xs == front + [x];
      assert x in multiset(ys);
      var j :| 0 <= j < |ys| && ys[j] == x;
      var a, b := ys[..j], ys[j + 1..];
      assert ys == a + [x] + b;
      DropSame(front, x, a, b);
      FoldAnyOrder(front, a + b, merge);
      FoldMove(a, x, b, merge);
    }
  }

  /** The frozen map is the finite map of the pushed pairs, whatever order the sort left equal keys in. */
  lemma FrozenIsFiniteMap<V(!new)>(pushed: seq<(nat, V)>, order: seq<(nat, V)>, merge: (V, V) -> V, k: nat)
    requires AssociativeCommutative(merge)
    requires Sorted(order, Key) && multiset(order) == multiset(pushed)
    ensures Lookup(Dedup(order, merge), k) == Folded(ValuesOf(pushed, k), merge)
  {
    DedupLookup(order, merge, k);
    ValuesOfAnyOrder(order, pushed, k);
    FoldAnyOrder(ValuesOf(order, k), ValuesOf(pushed, k), merge);
  }

  /** With distinct keys nothing is merged, so any `merge` will do. */
  lemma FrozenDistinct<V(!new)>(pushed: seq<(nat, V)>, order: seq<(nat, V)>, merge: (V, V) -> V, i: nat)
    requires Sorted(order, Key) && multiset(order) == multiset(pushed)
    requires DistinctKeys(pushed) && i < |pushed|
    ensures Lookup(Dedup(order, merge), pushed[i].0) == Some(pushed[i].1)
  {
    var k, v := pushed[i].0, pushed[i].1;
    DedupLookup(order, merge, k);
    ValuesOfAnyOrder(order, pushed, k);
    ValuesOfOne(pushed, i);
    var vs := ValuesOf(order, k);
    assert |vs| == |multiset(vs)| == |multiset([v])| == 1;
    assert vs[0] in multiset(vs);
  }

  lemma FrozenAbsent<V(!new)>(pushed: seq<(nat, V)>, order: seq<(nat, V)>, merge: (V, V) -> V, k: nat)
    requires Sorted(order, Key) && multiset(order) == multiset(pushed)
    requires forall i | 0 <= i < |pushed| :: pushed[i].0 != k
    ensures Lookup(Dedup(order, merge), k) == None
  {
    DedupLookup(order, merge, k);
    ValuesOfAnyOrder(order, pushed, k);
    ValuesNone(pushed, k);
    var vs := ValuesOf(order, k);
    assert |vs| == |multiset(vs)| == 0;
  }

  // ── Freezing and lookup ──

  lemma DedupShort<V>(s: seq<(nat, V)>, merge: (V, V) -> V)
    requires |s| < 2
    ensures Dedup(s, merge) == s
  {
    if s != [] {
      assert s[..0] == [] && s == [s[0]];
    }
  }

  lemma DedupStep<V>(s: seq<(nat, V)>, r: nat, merge: (V, V) -> V)
    requires r < |s|
    ensures Dedup(s[..r + 1], merge) == Absorb(Dedup(s[..r], merge), s[r], merge)
  {
    assert s[..r + 1][..r] == s[..r];
  }

  /** Slot `r` joins the `w` keepers: merged into the last one, or moved behind it. */
  method KeepOrMerge<V(0,!new)>(a: array<(nat, V)>, w: nat, r: nat, merge: (V, V) -> V) returns (w': nat)
    requires 0 < w <= r < a.Length
    modifies a
    ensures w' <= r + 1 && a[..w'] == Absorb(old(a[..w]), old(a[r]), merge)
    ensures forall i | r < i < a.Length :: a[i] == old(a[i])
  {
    if a[w - 1].0 == a[r].0 {
      a[w - 1] := (a[w - 1].0, merge(a[w - 1].1, a[r].1));
      w' := w;
    } else {
      if w != r {
        a[w] := a[r];
      }
      w' := w + 1;
    }
  }

  /** Compact a sorted run in place; `merge` folds the doomed element into its keeper. */
  method DedupInPlace<V(0,!new)>(a: array<(nat, V)>, len: nat, merge: (V, V) -> V) returns (w: nat)
    requires len <= a.Length
    modifies a
    ensures w <= len && a[..w] == Dedup(old(a[..len]), merge)
  {
    if len < 2 {
      DedupShort(a[..len], merge);
      return len;
    }
    ghost var order := a[..len];
    hide *;
    DedupShort(order[..1], merge);
    w := 1;
    var r := 1;
    while r < len
      invariant 1 <= w <= r <= len
      invariant a[..w] == Dedup(order[..r], merge)
      invariant forall i | r <= i < len :: a[i] == order[i]
    {
      DedupStep(order, r, merge);
      w := KeepOrMerge(a, w, r, merge);
      r := r + 1;
    }
    assert order[..r] == order;
  }

  /** Sort and merge the pushed pairs in place. */
  method FreezeMap<V(0,!new)>(entries: FVec<(nat, V)>, merge: (V, V) -> V)
    requires entries.Valid()
    modifies entries, entries.slots
    ensures entries.Valid() && StrictKeys(entries.Items())
    ensures exists order ::
      && multiset(order) == multiset(old(entries.Items())) && Sorted(order, Key)
      && entries.Items() == Dedup(order, merge)
  {
    SortByKey(entries.slots, entries.len, Key);
    ghost var order := entries.slots[..entries.len];
    DedupStrict(order, merge);
    var w := DedupInPlace(entries.slots, entries.len, merge);
    entries.len := w;
  }

  lemma {:induction false} LookupAt<V(!new)>(m: seq<(nat, V)>, i: nat)
    requires StrictKeys(m) && i < |m|
    ensures Lookup(m, m[i].0) == Some(m[i].1)
  {
    if i < |m| - 1 {
      LookupAt(m[..|m| - 1], i);
    }
  }

  lemma {:induction false} LookupMissing<V(!new)>(m: seq<(nat, V)>, k: nat)
    requires forall i | 0 <= i < |m| :: m[i].0 != k
    ensures Lookup(m, k) == None
  {
    if m != [] {
      LookupMissing(m[..|m| - 1], k);
    }
  }

  /** Binary search in a frozen map. */
  method Get<V(!new)>(m: seq<(nat, V)>, k: nat) returns (r: Option<V>)
    requires StrictKeys(m)
    ensures r == Lookup(m, k)
  {
    var lo, hi := 0, |m|;
    while lo < hi
      invariant 0 <= lo <= hi <= |m|
      invariant forall i | 0 <= i < lo :: m[i].0 < k
      invariant forall i | hi <= i < |m| :: k < m[i].0
    {
      var mid := (lo + hi) / 2;
      if m[mid].0 == k {
        LookupAt(m, mid);
        return Some(m[mid].1);
      } else if m[mid].0 < k {
        lo := mid + 1;
      } else {
        hi := mid;
      }
    }
    LookupMissing(m, k);
    return None;
  }
}
