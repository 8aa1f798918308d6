/** Key-value pairs in emission order. */
module Pairs {
  import opened Sequences

  /** Values tagged `k`, in emission order. */
  ghost function ValuesOf<V>(s: seq<(nat, V)>, k: nat): seq<V> {
    if s == [] then []
    else
      var x := s[|s| - 1];
      ValuesOf(s[..|s| - 1], k) + if x.0 == k then [x.1] else []
  }

  ghost predicate DistinctKeys<V(!new)>(s: seq<(nat, V)>) {
    forall i, j | 0 <= i < j < |s| :: s[i].0 != s[j].0
  }

  lemma ValuesOfStep<V>(s: seq<(nat, V)>, j: nat, k: nat)
    requires j < |s|
    ensures ValuesOf(s[..j + 1], k) == ValuesOf(s[..j], k) + if s[j].0 == k then [s[j].1] else []
  {
    assert s[..j + 1][..j] == s[..j];
  }

  lemma {:induction false} ValuesOfPrefix<V>(s: seq<(nat, V)>, j: nat, k: nat)
    requires j <= |s|
    ensures |ValuesOf(s[..j], k)| <= |ValuesOf(s, k)|
    decreases |s| - j
  {
    if j == |s| {
      assert s[..j] == s;
    } else {
      ValuesOfStep(s, j, k);
      ValuesOfPrefix(s, j + 1, k);
    }
  }

  lemma {:induction false} ValuesNone<V(!new)>(s: seq<(nat, V)>, k: nat)
    requires forall i | 0 <= i < |s| :: s[i].0 != k
    ensures ValuesOf(s, k) == []
  {
    if s != [] {
      ValuesNone(s[..|s| - 1], k);
    }
  }

  lemma {:induction false} ValuesOfOne<V(!new)>(s: seq<(nat, V)>, i: nat)
    requires DistinctKeys(s) && i < |s|
    ensures ValuesOf(s, s[i].0) == [s[i].1]
  {
    var front := s[..|s| - 1];
    if i == |s| - 1 {
      ValuesNone(front, s[i].0);
    } else {
      ValuesOfOne(front, i);
    }
  }

  lemma {:induction false} ValuesCount<V(!new)>(s: seq<(nat, V)>, k: nat, v: V)
    ensures multiset(ValuesOf(s, k))[v] == multiset(s)[(k, v)]
  {
    if s != [] {
      ValuesCount(s[..|s| - 1], k, v);
      assert s == s[..|s| - 1] + [s[|s| - 1]];
    }
  }

  lemma ValuesOfAnyOrder<V(!new)>(s: seq<(nat, V)>, t: seq<(nat, V)>, k: nat)
    requires multiset(s) == multiset(t)
    ensures multiset(ValuesOf(s, k)) == multiset(ValuesOf(t, k))
  {
    forall v ensures multiset(ValuesOf(s, k))[v] == multiset(ValuesOf(t, k))[v] {
      ValuesCount(s, k, v);
      ValuesCount(t, k, v);
    }
  }

  lemma DistinctKeysAnyOrder<V(!new)>(s: seq<(nat, V)>, t: seq<(nat, V)>)
    requires DistinctKeys(s) && multiset(s) == multiset(t)
    ensures DistinctKeys(t)
  {
    var key := (x: (nat, V)) => x.0;
    assert DistinctBy(s, key);
    DistinctAnyOrder(s, t, key);
    assert forall i, j | 0 <= i < j < |t| :: key(t[i]) != key(t[j]);
  }
}
