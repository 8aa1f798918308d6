/**
 The arena's byte arithmetic: rounding offsets up to an alignment, storing bytes, moving a run of
 bytes down over itself, and the page range handed back to the kernel.
 */
module ArenaBytes {
  import opened Bits
  import opened Words
  import opened Products

  /** Bytes in the arena; a multiple of every alignment it accepts. */
  const SIZE: nat := 0x8_0000

  // ── Multiples ──

  predicate Multiple(x: nat, unit: nat)
    requires unit > 0
  {
    x % unit == 0
  }

  function RoundDown(x: nat, unit: nat): nat
    requires unit > 0
  {
    x / unit * unit
  }

  lemma Times(q: nat, unit: nat)
    requires unit > 0
    ensures Multiple(q * unit, unit)
  {
    Quotient(q * unit, q, 0, unit);
  }

  lemma Factor(x: nat, unit: nat) returns (q: nat)
    requires unit > 0 && Multiple(x, unit)
    ensures x == q * unit
  {
    q := x / unit;
  }

  lemma Scale(a: nat, b: nat, unit: nat)
    requires unit > 0
    ensures a * unit < b * unit <==> a < b
  {
  }

  lemma RoundDownParts(x: nat, unit: nat) returns (q: nat)
    requires unit > 0
    ensures RoundDown(x, unit) == q * unit <= x < q * unit + unit
  {
    q := x / unit;
    Floor(x, unit);
  }

  /** The greatest multiple at or below `x`. */
  lemma RoundDownGreatest(x: nat, y: nat, unit: nat)
    requires unit > 0
    ensures Multiple(RoundDown(x, unit), unit) && RoundDown(x, unit) <= x < RoundDown(x, unit) + unit
    ensures y <= x && Multiple(y, unit) ==> y <= RoundDown(x, unit)
  {
    hide *;
    var q := RoundDownParts(x, unit);
    Times(q, unit);
    if Multiple(y, unit) {
      var p := Factor(y, unit);
      Distribute(q, 1, unit);
      Scale(p, q + 1, unit);
      Scale(q, p, unit);
    }
  }

  lemma MultipleSum(x: nat, y: nat, unit: nat)
    requires unit > 0 && Multiple(x, unit) && Multiple(y, unit)
    ensures Multiple(x + y, unit) && (y <= x ==> Multiple(x - y, unit))
  {
    hide *;
    var p := Factor(x, unit);
    var q := Factor(y, unit);
    Distribute(p, q, unit);
    Times(p + q, unit);
    if y <= x {
      Scale(p, q, unit);
      Times(p - q, unit);
    }
  }

  lemma NotBelow(x: nat, y: nat, unit: nat)
    requires unit > 0 && Multiple(x, unit) && Multiple(y, unit) && x < y + unit
    ensures x <= y
  {
    hide Multiple;
    var p := Factor(x, unit);
    var q := Factor(y, unit);
    Distribute(q, 1, unit);
    Scale(p, q + 1, unit);
    Scale(q, p, unit);
  }

  /** Bytes taken by `count` elements. */
  function Bulk(count: nat, elem: nat): nat {
    count * elem
  }

  lemma BulkGrows(count: nat, more: nat, elem: nat)
    requires count <= more
    ensures Bulk(0, elem) == 0 && Bulk(count + 1, elem) == Bulk(count, elem) + elem
    ensures Bulk(count, elem) <= Bulk(more, elem)
  {
    Distribute(count, 1, elem);
    Distribute(more, count, elem);
  }

  // ── Alignment ──

  predicate IsAlign(a: nat) {
    a == 1 || a == 2 || a == 4 || a == 8 || a == 16
  }

  predicate Aligned(x: nat, a: nat)
    requires IsAlign(a)
  {
    Multiple(x, a)
  }

  function AlignUp(x: nat, a: nat): nat
    requires IsAlign(a)
  {
    RoundDown(x + (a - 1), a)
  }

  lemma SizeAligned(a: nat)
    requires IsAlign(a)
    ensures Multiple(SIZE, a)
  {
  }

  /** The least aligned offset at or above `x`; rounding never leaves the arena. */
  lemma AlignUpLeast(x: nat, y: nat, a: nat)
    requires IsAlign(a)
    ensures Aligned(AlignUp(x, a), a) && x <= AlignUp(x, a) < x + a
    ensures x <= y && Aligned(y, a) ==> AlignUp(x, a) <= y
    ensures x <= SIZE ==> AlignUp(x, a) <= SIZE
  {
    hide Multiple, RoundDown;
    var up := AlignUp(x, a);
    SizeAligned(a);
    RoundDownGreatest(x + (a - 1), y, a);
    if x <= y && Multiple(y, a) {
      NotBelow(up, y, a);
    }
    if x <= SIZE {
      NotBelow(up, SIZE, a);
    }
  }

  /** Rounding up: monotone, and the identity on what is aligned. */
  lemma AlignUpMonotone(x: nat, y: nat, a: nat)
    requires IsAlign(a) && x <= y
    ensures AlignUp(x, a) <= AlignUp(y, a)
    ensures Aligned(x, a) ==> AlignUp(x, a) == x
  {
    hide AlignUp, Aligned;
    AlignUpLeast(y, y, a);
    AlignUpLeast(x, AlignUp(y, a), a);
    AlignUpLeast(x, x, a);
  }

  // ── Masks ──

  /** Clearing the low `k` bits of an n-bit word rounds it down. */
  lemma {:induction false} ClearLow(x: nat, n: nat, k: nat)
    requires x <= Ones(n) && k <= n
    ensures Ones(k) <= Ones(n) && BitAnd(x, Ones(n) - Ones(k)) == RoundDown(x, Ones(k) + 1)
    decreases k
  {
    if k == 0 {
      AndOnes(x, n);
    } else {
      ClearLow(x / 2, n - 1, k - 1);
      RoundHalf(x, Ones(k - 1) + 1);
      OnesLess(n, k);
      AndEven(x, Ones(n - 1) - Ones(k - 1));
      hide *;
    }
  }

  lemma OnesLess(n: nat, k: nat)
    requires 0 < k <= n && Ones(k - 1) <= Ones(n - 1)
    ensures Ones(k) <= Ones(n) && Ones(n) - Ones(k) == 2 * (Ones(n - 1) - Ones(k - 1))
    ensures Ones(k) + 1 == 2 * (Ones(k - 1) + 1)
  {
  }

  lemma RoundHalf(x: nat, unit: nat)
    requires unit > 0
    ensures RoundDown(x, 2 * unit) == 2 * RoundDown(x / 2, unit)
  {
    hide *;
    var q := RoundDownParts(x / 2, unit);
    DoubleParts(x, q, unit);
  }

  lemma DoubleParts(x: nat, q: nat, unit: nat)
    requires unit > 0 && q * unit <= x / 2 < q * unit + unit
    ensures RoundDown(x, 2 * unit) == 2 * (q * unit)
  {
    assert q * (2 * unit) == 2 * (q * unit);
    Quotient(x, q, x - 2 * (q * unit), 2 * unit);
  }

  lemma LowBits(a: nat) returns (k: nat)
    requires IsAlign(a)
    ensures k <= 4 && Ones(k) == a - 1
  {
    assert Ones(0) == 0 && Ones(1) == 1 && Ones(2) == 3 && Ones(3) == 7 && Ones(4) == 15;
    k := if a == 1 then 0 else if a == 2 then 1 else if a == 4 then 2 else if a == 8 then 3 else 4;
  }

  /** `(x + (a - 1)) & !(a - 1)` is rounding up, on words of 32 bits as of any other width that holds the sum. */
  lemma MaskRoundsUp(x: nat, a: nat, bits: nat)
    requires IsAlign(a) && bits >= 4 && x + (a - 1) <= Ones(bits)
    ensures a - 1 <= Ones(bits) && BitAnd(x + (a - 1), Ones(bits) - (a - 1)) == AlignUp(x, a)
  {
    var k := LowBits(a);
    hide BitAnd, RoundDown, Ones;
    ClearLow(x + (a - 1), bits, k);
  }

  /** `data` stored from `at` on. */
  function Put(buf: seq<byte>, at: nat, data: seq<byte>): (r: seq<byte>)
    requires at + |data| <= |buf|
    ensures |r| == |buf|
  {
    buf[..at] + data + buf[at + |data|..]
  }

  lemma PutReads(buf: seq<byte>, at: nat, data: seq<byte>)
    requires at + |data| <= |buf|
    ensures Put(buf, at, data)[at..at + |data|] == data
  {
  }

  /** A store leaves every range that ends below it, or starts above it, as it was. */
  lemma PutKeeps(buf: seq<byte>, at: nat, data: seq<byte>, lo: nat, hi: nat)
    requires at + |data| <= |buf| && lo <= hi <= |buf|
    requires hi <= at || at + |data| <= lo
    ensures Put(buf, at, data)[lo..hi] == buf[lo..hi]
  {
  }

  /** Storing right after a range extends it. */
  lemma PutExtends(buf: seq<byte>, lo: nat, end: nat, data: seq<byte>)
    requires lo <= end && end + |data| <= |buf|
    ensures Put(buf, end, data)[..lo] == buf[..lo]
    ensures Put(buf, end, data)[lo..end + |data|] == buf[lo..end] + data
  {
  }

  /** The bytes from `src` on, seen from `dst` on: what a memory move leaves. */
  function Move(buf: seq<byte>, src: nat, dst: nat, len: nat): seq<byte>
    requires src + len <= |buf| && dst + len <= |buf|
  {
    Put(buf, dst, buf[src..src + len])
  }

  // ── The tail given back to the kernel ──

  /** First address and length of the released range, for an arena at address `base`. */
  function Tail(base: nat, offset: nat, page: nat): (nat, nat)
    requires page > 0 && offset <= SIZE
  {
    var start := RoundDown(base + offset + page - 1, page);
    var end := base + SIZE;
    (start, if end < start then 0 else RoundDown(end - start, page))
  }

  /** What is released starts and ends on page boundaries, between the bump offset and the arena's end;
      and it is all of that, every whole page in there being inside. */
  lemma TailExact(base: nat, offset: nat, page: nat, at: nat)
    requires page > 0 && offset <= SIZE
    ensures var (start, len) := Tail(base, offset, page);
      && Multiple(start, page) && Multiple(len, page) && base + offset <= start
      && (len > 0 ==> start + len <= base + SIZE)
      && (base + offset <= at && Multiple(at, page) && at + page <= base + SIZE
          ==> start <= at && at + page <= start + len)
  {
    var (start, len) := Tail(base, offset, page);
    var end := base + SIZE;
    hide Multiple, RoundDown;
    RoundDownGreatest(base + offset + page - 1, at, page);
    Times(0, page);
    Times(1, page);
    if start <= end {
      RoundDownGreatest(end - start, end - start, page);
    }
    if base + offset <= at && Multiple(at, page) && at + page <= end {
      MultipleSum(at, page, page);
      RoundDownGreatest(base + offset + page - 1, start, page);
      NotBelow(start, at, page);
      MultipleSum(at + page, start, page);
      RoundDownGreatest(end - start, at + page - start, page);
    }
  }
}
