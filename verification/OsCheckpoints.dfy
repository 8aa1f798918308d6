/**
 The checkpoint table: the offset of every `stride`-th object in a buffer of fixed size,
 thinned in place (stride doubled) whenever it fills.
 */
module OsCheckpoints {
  import opened Words

  ghost predicate PowerOfTwo(s: nat) {
    s == 1 || (s > 0 && s % 2 == 0 && PowerOfTwo(s / 2))
  }

  // ── Multiples, kept linear for the solver ──

  /** n * s by repeated addition. */
  ghost function Times(n: nat, s: nat): nat {
    if n == 0 then 0 else Times(n - 1, s) + s
  }

  lemma TimesIsProduct(n: nat, s: nat)
    ensures Times(n, s) == n * s
  {
    if n > 0 {
      TimesIsProduct(n - 1, s);
      assert n * s == (n - 1) * s + s;
    }
  }

  lemma TimesGrows(a: nat, b: nat, s: nat)
    requires a < b
    ensures Times(a, s) + s <= Times(b, s)
    decreases b
  {
    if a < b - 1 {
      TimesGrows(a, b - 1, s);
    }
  }

  lemma TimesDouble(n: nat, s: nat)
    ensures Times(2 * n, s) == Times(n, 2 * s)
  {
    if n > 0 {
      TimesDouble(n - 1, s);
      assert Times(2 * n, s) == Times(2 * n - 1, s) + s;
    }
  }

  /** Division by the stride is the last multiple not above. */
  lemma NearestMultiple(x: nat, s: nat)
    requires s > 0
    ensures Times(x / s, s) <= x < Times(x / s, s) + s
    ensures x % s == 0 <==> x == Times(x / s, s)
  {
    TimesIsProduct(x / s, s);
    assert x == x / s * s + x % s;
  }

  // ── What the table stands for ──

  /** n == ceil(count / stride), without division. */
  ghost predicate IsCeiling(n: nat, count: nat, stride: nat) {
    && count <= Times(n, stride)
    && (n > 0 ==> Times(n - 1, stride) < count)
  }

  ghost predicate SampleAt(entries: seq<nat>, stride: nat, table: seq<nat>, i: nat)
    requires i < |entries|
  {
    Times(i, stride) < |table| && entries[i] == table[Times(i, stride)]
  }

  /** `entries` holds exactly the table positions that are multiples of `stride`. */
  ghost predicate Samples(entries: seq<nat>, stride: nat, table: seq<nat>) {
    && stride > 0
    && PowerOfTwo(stride)
    && (stride == 1 || stride <= 2 * |table|)
    && IsCeiling(|entries|, |table|, stride)
    && forall i | 0 <= i < |entries| :: SampleAt(entries, stride, table, i)
  }

  lemma CeilingOfMultiple(n: nat, count: nat, stride: nat)
    requires stride > 0 && IsCeiling(n, count, stride) && count % stride == 0
    ensures count == Times(n, stride)
  {
    var q := count / stride;
    NearestMultiple(count, stride);
    if n < q {
      TimesGrows(n, q, stride);
    } else if q < n - 1 {
      TimesGrows(q, n - 1, stride);
    }
  }

  lemma CeilingOfOther(n: nat, count: nat, stride: nat)
    requires stride > 0 && IsCeiling(n, count, stride) && count % stride != 0
    ensures IsCeiling(n, count + 1, stride)
  {
    var q := count / stride;
    NearestMultiple(count, stride);
    if q < n - 1 {
      TimesGrows(q, n - 1, stride);
    } else if n <= q {
      if n < q {
        TimesGrows(n, q, stride);
      }
    }
  }

  /** An object between two samples leaves the entries alone. */
  lemma SamplesSkip(entries: seq<nat>, stride: nat, table: seq<nat>, offset: nat)
    requires Samples(entries, stride, table) && |table| % stride != 0
    ensures Samples(entries, stride, table + [offset])
  {
    CeilingOfOther(|entries|, |table|, stride);
    forall i | 0 <= i < |entries| ensures SampleAt(entries, stride, table + [offset], i) {
      assert SampleAt(entries, stride, table, i);
    }
  }

  /** An object at a multiple of the stride is the next entry. */
  lemma SamplesTake(entries: seq<nat>, stride: nat, table: seq<nat>, offset: nat)
    requires Samples(entries, stride, table) && |table| % stride == 0
    ensures Samples(entries + [offset], stride, table + [offset])
  {
    CeilingOfMultiple(|entries|, |table|, stride);
    var more, longer := entries + [offset], table + [offset];
    forall i | 0 <= i < |more| ensures SampleAt(more, stride, longer, i) {
      if i < |entries| {
        assert SampleAt(entries, stride, table, i);
      }
    }
  }

  /** Every other entry of a full table samples at twice the stride. */
  lemma SamplesHalve(entries: seq<nat>, half: seq<nat>, stride: nat, table: seq<nat>)
    requires Samples(entries, stride, table) && entries != [] && |table| % stride == 0
    requires |half| == (|entries| + 1) / 2
    requires forall i | 0 <= i < |half| :: half[i] == entries[2 * i]
    ensures Samples(half, 2 * stride, table)
  {
    var n, w := |entries|, |half|;
    CeilingOfMultiple(n, |table|, stride);
    TimesDouble(w, stride);
    TimesDouble(w - 1, stride);
    if n < 2 * w {
      TimesGrows(n, 2 * w, stride);
    }
    TimesGrows(2 * (w - 1), n, stride);
    forall i | 0 <= i < w ensures SampleAt(half, 2 * stride, table, i) {
      assert SampleAt(entries, stride, table, 2 * i);
      TimesDouble(i, stride);
    }
  }

  /** The nearest sample at or below table position `idx`, where `q` is the floor quotient. */
  lemma NearestSample(entries: seq<nat>, stride: nat, table: seq<nat>, idx: nat, q: nat)
    requires Samples(entries, stride, table) && idx < |table|
    requires Times(q, stride) <= idx
    ensures q < |entries|
    ensures SampleAt(entries, stride, table, q)
  {
    if |entries| < q {
      TimesGrows(|entries|, q, stride);
    }
    assert SampleAt(entries, stride, table, q);
  }

  // ── The table itself ──

  class Ckpts {
    var buf: array<u32>
    var n: nat
    var stride: u64

    constructor (buf: array<u32>)
      requires buf.Length > 0
      ensures this.buf == buf && Indexes([])
    {
      this.buf := buf;
      n := 0;
      stride := 1;
    }

    ghost function Entries(): seq<nat>
      reads this, buf
      requires n <= buf.Length
    {
      buf[..n]
    }

    /** The object list this table stands for. */
    ghost predicate Indexes(table: seq<nat>)
      reads this, buf
    {
      0 < buf.Length && n <= buf.Length && Samples(Entries(), stride, table)
    }

    /** Keep the entries at even indices: exactly the multiples of the doubled stride. */
    method Halve(ghost table: seq<nat>)
      requires Indexes(table) && n == buf.Length && |table| % stride == 0 && |table| <= U32_MAX
      modifies this, buf
      ensures buf == old(buf) && Indexes(table)
      ensures n < buf.Length || buf.Length == 1
      ensures stride == 2 * old(stride)
    {
      ghost var full := Entries();
      var w, r := 0, 0;
      while r < n
        invariant r == 2 * w <= n + 1
        invariant n == |full| == buf.Length
        invariant buf == old(buf) && stride == old(stride)
        invariant forall i | 0 <= i < w :: buf[i] == full[2 * i]
        invariant forall i | w <= i < n :: buf[i] == full[i]
      {
        buf[w] := buf[r];
        w := w + 1;
        r := r + 2;
      }
      n := w;
      stride := stride * 2;
      SamplesHalve(full, Entries(), old(stride), table);
    }

    /** Record object number `count`, found at `offset`. */
    method Record(count: u32, offset: u32, ghost table: seq<nat>)
      requires Indexes(table) && |table| == count
      modifies this, buf
      ensures buf == old(buf)
      ensures Indexes(table + [offset])
    {
      if count % stride != 0 {
        SamplesSkip(Entries(), stride, table, offset);
        return;
      }
      if n == buf.Length {
        Halve(table);
        // Doubling the stride can leave `count` between two multiples.
        if count % stride != 0 {
          SamplesSkip(Entries(), stride, table, offset);
          return;
        }
      }
      ghost var before := Entries();
      SamplesTake(before, stride, table, offset);
      buf[n] := offset;
      n := n + 1;
      assert Entries() == before + [offset as nat];
    }
  }
}
