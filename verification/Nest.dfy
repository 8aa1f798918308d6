/**
 Bucketed collections in two flat arrays, built in two passes over the same emission: tally,
 prefix-sum, then fill through per-bucket cursors.
 */
module Nest {
  import opened Wrappers
  import opened Pairs

  /** `offsets[b]..offsets[b + 1]` is bucket `b`'s range of `data`. */
  datatype FNest<T> = FNest(offsets: seq<nat>, data: seq<T>) {

    ghost predicate Valid() {
      && |offsets| >= 1 && offsets[0] == 0 && offsets[|offsets| - 1] == |data|
      && forall a, b | 0 <= a <= b < |offsets| :: offsets[a] <= offsets[b]
    }

    function Bucket(b: nat): seq<T>
      requires Valid() && b < |offsets| - 1
    {
      assert offsets[b] <= offsets[b + 1] <= offsets[|offsets| - 1];
      data[offsets[b]..offsets[b + 1]]
    }
  }

  /** Values tagged with one of the first `b` buckets: where bucket `b` starts. */
  ghost function Start<T>(s: seq<(nat, T)>, b: nat): nat {
    if b == 0 then 0 else Start(s, b - 1) + |ValuesOf(s, b - 1)|
  }

  lemma {:induction false} StartMonotone<T>(s: seq<(nat, T)>, a: nat, b: nat)
    requires a <= b
    ensures Start(s, a) <= Start(s, b)
    decreases b
  {
    if a < b {
      StartMonotone(s, a, b - 1);
    }
  }

  lemma StartStep<T>(s: seq<(nat, T)>, b: nat)
    ensures Start(s, b + 1) == Start(s, b) + |ValuesOf(s, b)|
  {
  }

  ghost predicate TagsBelow<T>(s: seq<(nat, T)>, n: nat) {
    forall i | 0 <= i < |s| :: s[i].0 < n
  }

  /** The builder's contract: in-range buckets, and each bucket as full on both passes. */
  ghost predicate SameShape<T(!new)>(pass1: seq<(nat, T)>, pass2: seq<(nat, T)>, n: nat) {
    && TagsBelow(pass1, n)
    && forall b: nat :: |ValuesOf(pass1, b)| == |ValuesOf(pass2, b)|
  }

  /** Offsets hold the tally of each bucket one slot up. */
  ghost predicate Tallied<T>(s: seq<(nat, T)>, offsets: seq<nat>) {
    && offsets != [] && offsets[0] == 0
    && forall b | 1 <= b < |offsets| :: offsets[b] == |ValuesOf(s, b - 1)|
  }

  lemma TallyStep<T>(s: seq<(nat, T)>, j: nat, offsets: seq<nat>)
    requires j < |s| && Tallied(s[..j], offsets) && s[j].0 + 1 < |offsets|
    ensures Tallied(s[..j + 1], offsets[s[j].0 + 1 := offsets[s[j].0 + 1] + 1])
  {
    hide ValuesOf;
    var later := offsets[s[j].0 + 1 := offsets[s[j].0 + 1] + 1];
    forall b | 1 <= b < |later| ensures later[b] == |ValuesOf(s[..j + 1], b - 1)| {
      ValuesOfStep(s, j, b - 1);
    }
  }

  method Tally<T>(pass1: seq<(nat, T)>, n: nat, offsets: array<nat>) returns (ok: bool)
    requires offsets.Length == n + 1 && forall i | 0 <= i <= n :: offsets[i] == 0
    modifies offsets
    ensures ok <==> TagsBelow(pass1, n)
    ensures ok ==> Tallied(pass1, offsets[..])
  {
    var j := 0;
    while j < |pass1|
      invariant 0 <= j <= |pass1| && TagsBelow(pass1[..j], n)
      invariant Tallied(pass1[..j], offsets[..])
    {
      if pass1[j].0 >= n {
        return false;
      }
      TallyStep(pass1, j, offsets[..]);
      hide Tallied;
      ghost var was := offsets[..];
      offsets[pass1[j].0 + 1] := offsets[pass1[j].0 + 1] + 1;
      assert offsets[..] == was[pass1[j].0 + 1 := was[pass1[j].0 + 1] + 1];
      j := j + 1;
    }
    assert pass1[..j] == pass1;
    return true;
  }

  /** Slots below `i` are cumulative offsets, the others still counts. */
  ghost predicate Summed<T>(s: seq<(nat, T)>, offsets: seq<nat>, i: nat) {
    && 1 <= i <= |offsets|
    && (forall b | 0 <= b < i :: offsets[b] == Start(s, b))
    && (forall b | i <= b < |offsets| :: offsets[b] == |ValuesOf(s, b - 1)|)
  }

  lemma SumStep<T>(s: seq<(nat, T)>, offsets: seq<nat>, i: nat)
    requires Summed(s, offsets, i) && i < |offsets|
    ensures Summed(s, offsets[i := offsets[i] + offsets[i - 1]], i + 1)
  {
    StartStep(s, i - 1);
    hide Start, ValuesOf;
  }

  /** Counts become cumulative offsets, in place. */
  method PrefixSum<T>(ghost s: seq<(nat, T)>, offsets: array<nat>)
    requires Tallied(s, offsets[..])
    modifies offsets
    ensures Starts(s, offsets[..])
  {
    assert Summed(s, offsets[..], 1);
    hide Tallied, ValuesOf, Start;
    var i := 1;
    while i < offsets.Length
      invariant 1 <= i <= offsets.Length
      invariant Summed(s, offsets[..], i)
    {
      ghost var was := offsets[..];
      SumStep(s, was, i);
      hide Summed;
      offsets[i] := offsets[i] + offsets[i - 1];
      assert offsets[..] == was[i := was[i] + was[i - 1]];
      i := i + 1;
    }
  }

  ghost predicate Starts<T>(s: seq<(nat, T)>, offsets: seq<nat>) {
    forall b | 0 <= b < |offsets| :: offsets[b] == Start(s, b)
  }

  /** After the first `j` emissions of pass 2: each cursor stands behind its bucket's values so far. */
  ghost predicate Filled<T>(pass1: seq<(nat, T)>, pass2: seq<(nat, T)>, j: nat, b: nat, cursor: nat, data: seq<T>)
    requires j <= |pass2|
  {
    var values := ValuesOf(pass2[..j], b);
    && cursor == Start(pass1, b) + |values|
    && |values| <= |ValuesOf(pass1, b)|
    && cursor <= |data|
    && data[Start(pass1, b)..cursor] == values
  }

  /** Writing one value at its bucket's cursor leaves every other bucket's run alone. */
  lemma FillStep<T>(pass1: seq<(nat, T)>, pass2: seq<(nat, T)>, j: nat, b: nat, cursor: nat, data: seq<T>, at: nat)
    requires j < |pass2| && Filled(pass1, pass2, j, b, cursor, data)
    requires at < |data| && |ValuesOf(pass2[..j], pass2[j].0)| < |ValuesOf(pass1, pass2[j].0)|
    requires at == Start(pass1, pass2[j].0) + |ValuesOf(pass2[..j], pass2[j].0)|
    ensures Filled(pass1, pass2, j + 1, b, if b == pass2[j].0 then cursor + 1 else cursor, data[at := pass2[j].1])
  {
    hide ValuesOf, Start;
    var c := pass2[j].0;
    ValuesOfStep(pass2, j, b);
    StartStep(pass1, b);
    StartStep(pass1, c);
    if b < c {
      StartMonotone(pass1, b + 1, c);
    } else if c < b {
      StartMonotone(pass1, c + 1, b);
    }
    var later := data[at := pass2[j].1];
    if b != c {
      assert later[Start(pass1, b)..cursor] == data[Start(pass1, b)..cursor];
    } else {
      assert later[Start(pass1, b)..cursor + 1] == data[Start(pass1, b)..cursor] + [pass2[j].1];
    }
  }

  ghost predicate AllFilled<T>(pass1: seq<(nat, T)>, pass2: seq<(nat, T)>, j: nat, cursors: seq<nat>, data: seq<T>) {
    && j <= |pass2|
    && |data| == Start(pass1, |cursors|)
    && forall b | 0 <= b < |cursors| :: Filled(pass1, pass2, j, b, cursors[b], data)
  }

  lemma FillStart<T>(pass1: seq<(nat, T)>, pass2: seq<(nat, T)>, cursors: seq<nat>, data: seq<T>)
    requires Starts(pass1, cursors) && |data| == Start(pass1, |cursors|)
    ensures AllFilled(pass1, pass2, 0, cursors, data)
  {
    forall b | 0 <= b < |cursors| ensures Filled(pass1, pass2, 0, b, cursors[b], data) {
      StartMonotone(pass1, b, |cursors|);
    }
  }

  lemma FillAll<T>(pass1: seq<(nat, T)>, pass2: seq<(nat, T)>, j: nat, cursors: seq<nat>, data: seq<T>, b: nat)
    requires AllFilled(pass1, pass2, j, cursors, data) && j < |pass2| && b == pass2[j].0 < |cursors|
    requires |ValuesOf(pass2[..j], b)| < |ValuesOf(pass1, b)|
    requires cursors[b] == Start(pass1, b) + |ValuesOf(pass2[..j], b)| < |data|
    ensures AllFilled(pass1, pass2, j + 1, cursors[b := cursors[b] + 1], data[cursors[b] := pass2[j].1])
  {
    hide Filled, Start, ValuesOf;
    forall c | 0 <= c < |cursors| {
      FillStep(pass1, pass2, j, c, cursors[c], data, cursors[b]);
    }
  }

  /** Room in the bucket is exactly a cursor below the next bucket's start. */
  lemma FillRoom<T(!new)>(pass1: seq<(nat, T)>, pass2: seq<(nat, T)>, j: nat, cursors: seq<nat>, data: seq<T>)
    requires AllFilled(pass1, pass2, j, cursors, data) && j < |pass2| && pass2[j].0 < |cursors|
    ensures var b := pass2[j].0;
      if cursors[b] < Start(pass1, b + 1)
      then cursors[b] < |data|
           && AllFilled(pass1, pass2, j + 1, cursors[b := cursors[b] + 1], data[cursors[b] := pass2[j].1])
      else |ValuesOf(pass1, b)| < |ValuesOf(pass2, b)|
  {
    hide ValuesOf, Start;
    var b := pass2[j].0;
    assert Filled(pass1, pass2, j, b, cursors[b], data);
    StartStep(pass1, b);
    StartMonotone(pass1, b + 1, |cursors|);
    if cursors[b] < Start(pass1, b + 1) {
      FillAll(pass1, pass2, j, cursors, data, b);
    } else {
      ValuesOfStep(pass2, j, b);
      ValuesOfPrefix(pass2, j + 1, b);
    }
    hide Filled;
  }

  lemma StrayBucket<T(!new)>(pass1: seq<(nat, T)>, pass2: seq<(nat, T)>, j: nat, n: nat)
    requires TagsBelow(pass1, n) && j < |pass2| && pass2[j].0 >= n
    ensures |ValuesOf(pass1, pass2[j].0)| < |ValuesOf(pass2, pass2[j].0)|
  {
    ValuesNone(pass1, pass2[j].0);
    ValuesOfStep(pass2, j, pass2[j].0);
    ValuesOfPrefix(pass2, j + 1, pass2[j].0);
  }

  /** Where the j-th value of pass 2 goes. */
  ghost function SlotFor<T>(pass1: seq<(nat, T)>, pass2: seq<(nat, T)>, j: nat): nat
    requires j < |pass2|
  {
    Start(pass1, pass2[j].0) + |ValuesOf(pass2[..j], pass2[j].0)|
  }

  lemma SlotIsCursor<T>(pass1: seq<(nat, T)>, pass2: seq<(nat, T)>, j: nat, cursors: seq<nat>, data: seq<T>)
    requires AllFilled(pass1, pass2, j, cursors, data) && j < |pass2| && pass2[j].0 < |cursors|
    ensures cursors[pass2[j].0] == SlotFor(pass1, pass2, j)
  {
    assert Filled(pass1, pass2, j, pass2[j].0, cursors[pass2[j].0], data);
    hide Start, ValuesOf;
  }

  /** The slots of a fill, in the order they were written. */
  ghost predicate Written<T>(pass1: seq<(nat, T)>, pass2: seq<(nat, T)>, j: nat, writes: seq<nat>) {
    |writes| == j <= |pass2| && forall i | 0 <= i < j :: writes[i] == SlotFor(pass1, pass2, i)
  }

  /** Fill `data` through the cursors; false when a bucket gets more than pass 1 counted. `writes` logs the slots. */
  method Fill<T(!new)>(ghost pass1: seq<(nat, T)>, pass2: seq<(nat, T)>, offsets: array<nat>, cursors: array<nat>,
      data: array<T>)
    returns (ok: bool, ghost writes: seq<nat>)
    requires TagsBelow(pass1, cursors.Length) && offsets.Length == cursors.Length + 1 && offsets != cursors
    requires data as object != offsets && data as object != cursors
    requires Starts(pass1, offsets[..]) && AllFilled(pass1, pass2, 0, cursors[..], data[..])
    modifies cursors, data
    ensures offsets[..] == old(offsets[..])
    ensures ok ==> AllFilled(pass1, pass2, |pass2|, cursors[..], data[..]) && TagsBelow(pass2, cursors.Length)
    ensures ok ==> Written(pass1, pass2, |pass2|, writes)
    ensures !ok ==> exists b: nat :: |ValuesOf(pass1, b)| < |ValuesOf(pass2, b)|
  {
    hide ValuesOf, Start, AllFilled, SlotFor;
    writes := [];
    var j := 0;
    while j < |pass2|
      invariant 0 <= j <= |pass2| && TagsBelow(pass2[..j], cursors.Length)
      invariant offsets[..] == old(offsets[..])
      invariant AllFilled(pass1, pass2, j, cursors[..], data[..]) && Written(pass1, pass2, j, writes)
    {
      var b, v := pass2[j].0, pass2[j].1;
      if b >= cursors.Length {
        StrayBucket(pass1, pass2, j, cursors.Length);
        return false, writes;
      }
      FillRoom(pass1, pass2, j, cursors[..], data[..]);
      assert offsets[b + 1] == offsets[..][b + 1] == Start(pass1, b + 1);
      if cursors[b] >= offsets[b + 1] {
        return false, writes;
      }
      SlotIsCursor(pass1, pass2, j, cursors[..], data[..]);
      writes := writes + [cursors[b]];
      ghost var rows, marks := data[..], cursors[..];
      data[cursors[b]] := v;
      assert data[..] == rows[marks[b] := v];
      cursors[b] := cursors[b] + 1;
      assert cursors[..] == marks[b := marks[b] + 1];
      j := j + 1;
    }
    assert pass2[..j] == pass2;
    return true, writes;
  }

  // ── Every slot written once ──

  /** Of `n` slots each was written, and none twice. */
  ghost predicate EachOnce(writes: seq<nat>, n: nat) {
    && (forall i | 0 <= i < |writes| :: writes[i] < n)
    && (forall d: nat | d < n :: d in writes)
    && forall i, j | 0 <= i < j < |writes| :: writes[i] != writes[j]
  }

  /** A value's slot lies in its own bucket's range. */
  lemma SlotInside<T(!new)>(pass1: seq<(nat, T)>, pass2: seq<(nat, T)>, n: nat, j: nat)
    requires SameShape(pass1, pass2, n) && j < |pass2|
    ensures Start(pass1, pass2[j].0) <= SlotFor(pass1, pass2, j) < Start(pass1, pass2[j].0 + 1) <= Start(pass1, n)
  {
    hide ValuesOf, Start;
    var b := pass2[j].0;
    ValuesOfStep(pass2, j, b);
    ValuesOfPrefix(pass2, j + 1, b);
    StartStep(pass1, b);
    assert |ValuesOf(pass1, b)| == |ValuesOf(pass2, b)|;
    if b >= n {
      ValuesNone(pass1, b);
    }
    StartMonotone(pass1, b + 1, n);
  }

  lemma SlotsDiffer<T(!new)>(pass1: seq<(nat, T)>, pass2: seq<(nat, T)>, n: nat, i: nat, j: nat)
    requires SameShape(pass1, pass2, n) && i < j < |pass2|
    ensures SlotFor(pass1, pass2, i) != SlotFor(pass1, pass2, j)
  {
    hide ValuesOf, Start;
    var b, c := pass2[i].0, pass2[j].0;
    SlotInside(pass1, pass2, n, i);
    SlotInside(pass1, pass2, n, j);
    if b < c {
      StartMonotone(pass1, b + 1, c);
    } else if c < b {
      StartMonotone(pass1, c + 1, b);
    } else {
      ValuesOfStep(pass2, i, b);
      assert pass2[..j][..i + 1] == pass2[..i + 1];
      ValuesOfPrefix(pass2[..j], i + 1, b);
    }
  }

  /** The bucket a slot belongs to. */
  lemma {:induction false} BucketHolding<T>(s: seq<(nat, T)>, n: nat, d: nat) returns (b: nat)
    requires d < Start(s, n)
    ensures b < n && Start(s, b) <= d < Start(s, b + 1)
    decreases n
  {
    hide ValuesOf;
    if d >= Start(s, n - 1) {
      b := n - 1;
    } else {
      b := BucketHolding(s, n - 1, d);
    }
  }

  /** The emission that is number `k` of its bucket. */
  lemma {:induction false} EmissionOf<T>(s: seq<(nat, T)>, b: nat, k: nat) returns (j: nat)
    requires k < |ValuesOf(s, b)|
    ensures j < |s| && s[j].0 == b && |ValuesOf(s[..j], b)| == k
    decreases |s|
  {
    var n := |s| - 1;
    ValuesOfStep(s, n, b);
    assert s[..n + 1] == s;
    if k < |ValuesOf(s[..n], b)| {
      j := EmissionOf(s[..n], b, k);
      assert s[..n][..j] == s[..j];
    } else {
      j := n;
    }
  }

  lemma SlotsCover<T(!new)>(pass1: seq<(nat, T)>, pass2: seq<(nat, T)>, n: nat, d: nat) returns (j: nat)
    requires SameShape(pass1, pass2, n) && d < Start(pass1, n)
    ensures j < |pass2| && SlotFor(pass1, pass2, j) == d
  {
    var b := BucketHolding(pass1, n, d);
    StartStep(pass1, b);
    hide ValuesOf, Start;
    j := EmissionOf(pass2, b, d - Start(pass1, b));
  }

  /** A fill whose passes agree writes every data slot, each exactly once. */
  lemma WritesEachOnce<T(!new)>(pass1: seq<(nat, T)>, pass2: seq<(nat, T)>, n: nat, writes: seq<nat>)
    requires SameShape(pass1, pass2, n) && Written(pass1, pass2, |pass2|, writes)
    ensures EachOnce(writes, Start(pass1, n))
  {
    hide SlotFor, SameShape, Start;
    forall i | 0 <= i < |writes| ensures writes[i] < Start(pass1, n) {
      SlotInside(pass1, pass2, n, i);
    }
    forall d: nat | d < Start(pass1, n) ensures d in writes {
      var j := SlotsCover(pass1, pass2, n, d);
      assert writes[j] == d;
    }
    forall i, j | 0 <= i < j < |writes| ensures writes[i] != writes[j] {
      SlotsDiffer(pass1, pass2, n, i, j);
    }
  }

  // ── The finished collection ──

  lemma SameShapeBelow<T(!new)>(pass1: seq<(nat, T)>, pass2: seq<(nat, T)>, n: nat)
    requires TagsBelow(pass1, n) && TagsBelow(pass2, n)
    requires forall b | 0 <= b < n :: |ValuesOf(pass1, b)| == |ValuesOf(pass2, b)|
    ensures SameShape(pass1, pass2, n)
  {
    forall b: nat ensures |ValuesOf(pass1, b)| == |ValuesOf(pass2, b)| {
      if b >= n {
        ValuesNone(pass1, b);
        ValuesNone(pass2, b);
      }
    }
  }

  lemma Agreed<T(!new)>(pass1: seq<(nat, T)>, pass2: seq<(nat, T)>, cursors: seq<nat>, data: seq<T>, b: nat)
    requires b < |cursors| && AllFilled(pass1, pass2, |pass2|, cursors, data)
    ensures cursors[b] == Start(pass1, b + 1) <==> |ValuesOf(pass1, b)| == |ValuesOf(pass2, b)|
  {
    assert Filled(pass1, pass2, |pass2|, b, cursors[b], data);
    assert pass2[..|pass2|] == pass2;
    StartStep(pass1, b);
    hide Start, ValuesOf;
  }

  lemma Assembled<T(!new)>(pass1: seq<(nat, T)>, pass2: seq<(nat, T)>, offsets: seq<nat>, cursors: seq<nat>,
      data: seq<T>)
    requires |offsets| == |cursors| + 1 && Starts(pass1, offsets)
    requires AllFilled(pass1, pass2, |pass2|, cursors, data)
    requires forall b | 0 <= b < |cursors| :: |ValuesOf(pass1, b)| == |ValuesOf(pass2, b)|
    ensures FNest(offsets, data).Valid()
    ensures forall b | 0 <= b < |cursors| :: FNest(offsets, data).Bucket(b) == ValuesOf(pass2, b)
  {
    assert pass2[..|pass2|] == pass2;
    forall a, b | 0 <= a <= b < |offsets| ensures offsets[a] <= offsets[b] {
      StartMonotone(pass1, a, b);
    }
    forall b | 0 <= b < |cursors| ensures FNest(offsets, data).Bucket(b) == ValuesOf(pass2, b) {
      Agreed(pass1, pass2, cursors, data, b);
      assert Filled(pass1, pass2, |pass2|, b, cursors[b], data);
    }
  }

  /** Two-pass build. Nothing (a panic) exactly when the passes disagree about a bucket's size or
      a bucket is out of range; otherwise each bucket is pass 2's values for it, in order, and every
      data slot was written exactly once. */
  method Build<T(0,!new)>(n: nat, pass1: seq<(nat, T)>, pass2: seq<(nat, T)>)
    returns (r: Option<FNest<T>>, ghost writes: seq<nat>)
    ensures r.Some? <==> SameShape(pass1, pass2, n)
    ensures r.Some? ==> r.value.Valid() && |r.value.offsets| == n + 1
    ensures r.Some? ==> forall b | 0 <= b < n :: r.value.Bucket(b) == ValuesOf(pass2, b)
    ensures r.Some? ==> EachOnce(writes, |r.value.data|)
  {
    hide ValuesOf, Start, AllFilled, Tallied, Written, EachOnce;
    writes := [];
    var offsets := new nat[n + 1](_ => 0);
    var ok := Tally(pass1, n, offsets);
    if !ok {
      return None, writes;
    }
    PrefixSum(pass1, offsets);
    assert forall b | 0 <= b <= n :: offsets[b] == offsets[..][b];
    var data := new T[offsets[n]];
    var cursors := new nat[n](i requires 0 <= i < n reads offsets => offsets[i]);
    FillStart(pass1, pass2, cursors[..], data[..]);
    ok, writes := Fill(pass1, pass2, offsets, cursors, data);
    if !ok {
      return None, writes;
    }
    var agree := CheckCursors(pass1, pass2, offsets, cursors, data[..]);
    if !agree {
      return None, writes;
    }
    Assembled(pass1, pass2, offsets[..], cursors[..], data[..]);
    SameShapeBelow(pass1, pass2, n);
    WritesEachOnce(pass1, pass2, n, writes);
    return Some(FNest(offsets[..], data[..])), writes;
  }

  /** The final check that every bucket is full. */
  method CheckCursors<T(!new)>(ghost pass1: seq<(nat, T)>, ghost pass2: seq<(nat, T)>,
                               offsets: array<nat>, cursors: array<nat>, ghost data: seq<T>) returns (agree: bool)
    requires offsets.Length == cursors.Length + 1 && Starts(pass1, offsets[..])
    requires AllFilled(pass1, pass2, |pass2|, cursors[..], data)
    ensures agree <==> forall b | 0 <= b < cursors.Length :: |ValuesOf(pass1, b)| == |ValuesOf(pass2, b)|
  {
    hide ValuesOf, Start, AllFilled;
    var i := 0;
    while i < cursors.Length
      invariant 0 <= i <= cursors.Length
      invariant forall b | 0 <= b < i :: |ValuesOf(pass1, b)| == |ValuesOf(pass2, b)|
    {
      Agreed(pass1, pass2, cursors[..], data, i);
      assert offsets[i + 1] == offsets[..][i + 1];
      if cursors[i] != offsets[i + 1] {
        return false;
      }
      i := i + 1;
    }
    return true;
  }
}
