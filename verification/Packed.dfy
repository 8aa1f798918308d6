/**
 The cross-tick word: bit 31 is last tick's visibility, the low 31 bits the shifted CPU counter.
 */
module Packed {
  import opened Bits
  import opened Words
  import opened Products
  import opened Wrappers

  const VISIBLE: nat := 0x8000_0000

  type Word = u32

  function Pack(shift: nat, visible: bool, total: u64): Word {
    CpuOf(shift, total) + if visible then VISIBLE else 0
  }

  /** (total >> shift) truncated to 31 bits. */
  function CpuOf(shift: nat, total: u64): (bits: nat)
    ensures bits < VISIBLE
  {
    total / Pow2(shift) % VISIBLE
  }

  predicate IsVisible(w: Word) {
    w >= VISIBLE
  }

  function CpuBits(w: Word): nat {
    if w >= VISIBLE then w - VISIBLE else w
  }

  function SetVisible(w: Word): Word {
    if w >= VISIBLE then w else w + VISIBLE
  }

  /** u32 subtraction that wraps, masked to 31 bits. */
  function DeltaBits(newBits: nat, oldBits: nat): nat
    requires newBits < VISIBLE && oldBits < VISIBLE
  {
    (newBits - oldBits) % 0x1_0000_0000 % VISIBLE
  }

  /** The counter difference `compute_cpu` recovers: the masked difference shifted back up. */
  function Recovered(shift: nat, prev: Word, total: u64): nat {
    DeltaBits(CpuOf(shift, total), CpuBits(prev)) * Pow2(shift)
  }

  /** CPU percent over the interval; no delta for a process younger than it, or without a sample. */
  function ComputeCpu(shift: nat, prev: Option<Word>, ageSecs: nat, total: u64, ticksPerSec: real, dt: real): real
    requires ticksPerSec > 0.0
  {
    if dt <= 0.01 || ageSecs as real < dt || prev.None? then 0.0
    else Recovered(shift, prev.value, total) as real / ticksPerSec / dt * 100.0
  }

  /** The word, bit by bit: the counter halved `shift` times, its low 31 bits, and the flag in bit 31. */
  lemma PackIs(shift: nat, visible: bool, total: u64)
    ensures Pack(shift, visible, total) == Halved(total, shift) % 0x8000_0000 + if visible then 0x8000_0000 else 0
  {
    HalvedIs(total, shift);
  }

  /** No CPU for a process without a sample, for one younger than the interval, or over next to no time. */
  lemma NoSampleNoCpu(shift: nat, prev: Option<Word>, ageSecs: nat, total: u64, ticksPerSec: real, dt: real)
    requires ticksPerSec > 0.0 && (prev == None || ageSecs as real < dt || dt <= 0.01)
    ensures ComputeCpu(shift, prev, ageSecs, total, ticksPerSec, dt) == 0.0
  {
  }

  /** Packing keeps both parts, and setting the flag never disturbs the counter. */
  lemma PackParts(shift: nat, visible: bool, total: u64)
    ensures IsVisible(Pack(shift, visible, total)) == visible
    ensures CpuBits(Pack(shift, visible, total)) == CpuOf(shift, total)
    ensures IsVisible(SetVisible(Pack(shift, visible, total)))
    ensures CpuBits(SetVisible(Pack(shift, visible, total))) == CpuOf(shift, total)
  {
  }

  /** The masked difference of two truncated counters is the difference of the counters mod 2^31. */
  lemma DeltaModulo(q1: nat, q0: nat)
    requires q0 <= q1
    ensures DeltaBits(q1 % VISIBLE, q0 % VISIBLE) == (q1 - q0) % VISIBLE
  {
    var a, b := q1 % VISIBLE, q0 % VISIBLE;
    var k, m := q1 / VISIBLE, q0 / VISIBLE;
    assert q1 == k * VISIBLE + a && q0 == m * VISIBLE + b;
    var d := q1 - q0;
    if a >= b {
      ModuloIs(d, k - m, a - b);
    } else {
      ModuloIs(d, k - m - 1, a - b + VISIBLE);
      assert (a - b) % 0x1_0000_0000 == a - b + 0x1_0000_0000;
      assert a - b + 0x1_0000_0000 == 1 * VISIBLE + (a - b + VISIBLE);
    }
  }

  lemma ModuloIs(d: nat, k: int, r: nat)
    requires d == k * VISIBLE + r && r < VISIBLE
    ensures d % VISIBLE == r
  {
  }

  lemma QuotientsOrdered(q0: int, q1: int, s: nat)
    requires q0 * s < q1 * s + s
    ensures q0 <= q1
  {
    Distribute(q1, 1, s);
    if q0 > q1 {
      Monotone(q1 + 1, q0, s);
    }
  }

  /** Dropping whole multiples of 2^31 steps changes nothing or moves the result by at least 2^31 steps. */
  lemma WholeSteps(d: nat, s: nat)
    requires s > 0
    ensures d < VISIBLE ==> d % VISIBLE * s == d * s
    ensures d >= VISIBLE ==> d % VISIBLE * s + VISIBLE * s <= d * s
  {
    if d >= VISIBLE {
      var r := d % VISIBLE;
      assert r + VISIBLE <= d;
      Distribute(d, r, s);
      Scale(d - r, s);
    }
  }

  lemma Scale(d: int, s: nat)
    requires d >= VISIBLE
    ensures d * s >= VISIBLE * s
  {
    Monotone(VISIBLE, d, s);
  }

  /** The word handed to the next tick. */
  function Stored(shift: nat, visible: bool, marked: bool, total: u64): Word {
    if marked then SetVisible(Pack(shift, visible, total)) else Pack(shift, visible, total)
  }

  lemma RecoveredIs(shift: nat, visible: bool, marked: bool, t0: u64, t1: u64, s: nat, q0: nat, q1: nat)
    requires s == Pow2(shift) && q0 == t0 / s && q1 == t1 / s && q0 <= q1
    ensures Recovered(shift, Stored(shift, visible, marked, t0), t1) == (q1 - q0) % VISIBLE * s
  {
    hide DeltaBits, Pow2;
    PackParts(shift, visible, t0);
    DeltaModulo(q1, q0);
  }

  lemma Ratio(t: nat, s: nat) returns (q: nat)
    requires s > 0
    ensures q == t / s && q * s <= t < q * s + s
  {
    q := t / s;
    Floor(t, s);
  }

  /** For counters t0 <= t1 and a step of 2^shift, the recovered delta is within one step of the true
      one exactly when the shifted counters are less than 2^31 apart, whatever wraps happened between
      and whether or not the visible bit was set on the way. */
  lemma RecoveredClose(shift: nat, visible: bool, marked: bool, t0: u64, t1: u64)
    requires t0 <= t1
    ensures
      var step: int := Pow2(shift);
      (-step < Recovered(shift, Stored(shift, visible, marked, t0), t1) - (t1 - t0) < step)
        <==> t1 / step - t0 / step < VISIBLE
  {
    hide Recovered, Stored, Pow2;
    var s := Pow2(shift);
    var q0 := Ratio(t0, s);
    var q1 := Ratio(t1, s);
    QuotientsOrdered(q0, q1, s);
    RecoveredIs(shift, visible, marked, t0, t1, s, q0, q1);
    Distribute(q1, q0, s);
    WholeSteps(q1 - q0, s);
    Monotone(2, VISIBLE, s);
    WithinStep(t0, t1, s, q0 * s, q1 * s, (q1 - q0) % VISIBLE * s, VISIBLE * s, q1 - q0 < VISIBLE);
  }

  /** The linear core: floors p0 and p1, recovered r, one whole wrap v. */
  lemma WithinStep(t0: int, t1: int, s: int, p0: int, p1: int, r: int, v: int, inRange: bool)
    requires s > 0 && p0 <= t0 < p0 + s && p1 <= t1 < p1 + s && v >= 2 * s
    requires if inRange then r == p1 - p0 else r + v <= p1 - p0
    ensures (-s < r - (t1 - t0) < s) <==> inRange
  {
  }

  /** Any true delta of at most (2^31 - 1) steps is recovered to within one step. */
  lemma RecoveredInRange(shift: nat, visible: bool, marked: bool, t0: u64, t1: u64)
    requires t0 <= t1 && t1 - t0 <= (VISIBLE - 1) * Pow2(shift)
    ensures
      var step: int := Pow2(shift);
      -step < Recovered(shift, Stored(shift, visible, marked, t0), t1) - (t1 - t0) < step
  {
    var s := Pow2(shift);
    RecoveredClose(shift, visible, marked, t0, t1);
    Floor(t0, s);
    Floor(t1, s);
    hide *;
    Distribute(t1 / s, t0 / s, s);
    if t1 / s - t0 / s >= VISIBLE {
      Scale(t1 / s - t0 / s, s);
      Distribute(VISIBLE, 1, s);
    }
  }

  function Percent(delta: real, ticksPerSec: real, dt: real): real
    requires ticksPerSec > 0.0 && dt > 0.0
  {
    delta / ticksPerSec / dt * 100.0
  }

  lemma Divided(a: real, b: real, t: real)
    requires t > 0.0
    ensures (a + b) / t == a / t + b / t && (a - b) / t == a / t - b / t
    ensures a < b ==> a / t < b / t
  {
    if a < b {
      assert b / t - a / t == (b - a) / t;
    }
  }

  lemma PercentLinear(a: real, b: real, ticksPerSec: real, dt: real)
    requires ticksPerSec > 0.0 && dt > 0.0
    ensures Percent(a + b, ticksPerSec, dt) == Percent(a, ticksPerSec, dt) + Percent(b, ticksPerSec, dt)
    ensures Percent(a - b, ticksPerSec, dt) == Percent(a, ticksPerSec, dt) - Percent(b, ticksPerSec, dt)
    ensures a < b ==> Percent(a, ticksPerSec, dt) < Percent(b, ticksPerSec, dt)
  {
    Divided(a, b, ticksPerSec);
    Divided(a / ticksPerSec, b / ticksPerSec, dt);
  }

  /** The CPU percentage of a process that was there at the last sample is right to within what one
      counter step is worth. */
  lemma CpuClose(shift: nat, visible: bool, marked: bool, t0: u64, t1: u64, ageSecs: nat, ticksPerSec: real, dt: real)
    requires t0 <= t1 && t1 - t0 <= (VISIBLE - 1) * Pow2(shift)
    requires ticksPerSec > 0.0 && dt > 0.01 && ageSecs as real >= dt
    ensures var cpu := ComputeCpu(shift, Some(Stored(shift, visible, marked, t0)), ageSecs, t1, ticksPerSec, dt);
      var exact := Percent((t1 - t0) as real, ticksPerSec, dt);
      var step := Percent(Pow2(shift) as real, ticksPerSec, dt);
      exact - step < cpu < exact + step
  {
    hide Percent, Recovered, Stored, Pow2;
    RecoveredInRange(shift, visible, marked, t0, t1);
    var got := Recovered(shift, Stored(shift, visible, marked, t0), t1);
    var truth, step := (t1 - t0) as real, Pow2(shift) as real;
    assert truth - step < got as real < truth + step;
    PercentLinear(truth, step, ticksPerSec, dt);
    PercentLinear(truth - step, got as real, ticksPerSec, dt);
    PercentLinear(got as real, truth + step, ticksPerSec, dt);
    CpuIs(shift, Stored(shift, visible, marked, t0), ageSecs, t1, ticksPerSec, dt);
  }

  lemma CpuIs(shift: nat, prev: Word, ageSecs: nat, total: u64, ticksPerSec: real, dt: real)
    requires ticksPerSec > 0.0 && dt > 0.01 && ageSecs as real >= dt
    ensures ComputeCpu(shift, Some(prev), ageSecs, total, ticksPerSec, dt)
         == Percent(Recovered(shift, prev, total) as real, ticksPerSec, dt)
  {
    hide Recovered;
  }
}
