/**
 Folding helper rows into their app's row: nothing is lost but what 32-bit saturation cuts off, and where no target is
 itself folded the result does not depend on the order of the scan.
 */
module Coalesce {
  import opened Words
  import opened Sequences
  import opened Wrappers
  import opened Procs
  import opened Roots

  function SatAdd(a: u32, b: u32): u32 {
    if a + b > U32_MAX then U32_MAX else a + b
  }

  /** The receiving row's GPU cell after a folded row's usage is added. The Linux memory sum is never zero, its
      addend being a nonzero integer, so the cell is always rebuilt; on macOS both memories are zero. */
  function AddGpu(mine: Option<Gpu>, theirs: Option<Gpu>): Option<Gpu> {
    match theirs
    case None => mine
    case Some(g) =>
      var s0, m0: u32 := if mine.Some? then mine.value.smPct else 0, if mine.Some? then mine.value.memMib else 0;
      Some(Gpu(s0 + g.smPct, SatAdd(m0, g.memMib)))
  }

  /** A row shows GPU use after a fold exactly when one of the two did. */
  lemma GpuShown(mine: Option<Gpu>, theirs: Option<Gpu>)
    ensures AddGpu(mine, theirs).Some? <==> mine.Some? || theirs.Some?
  {
  }

  /** Sums stick at the greatest 32-bit number. */
  lemma SatAddExactly(a: u32, b: u32)
    ensures SatAdd(a, b) == if a + b < 0x1_0000_0000 then a + b else 0xffff_ffff
  {
  }

  function Emptied(k: ProcInfo): ProcInfo {
    k.(visible := false, cpu := 0.0, rss := 0, gpu := None)
  }

  function Received(mac: bool, p: ProcInfo, k: ProcInfo): ProcInfo {
    p.(visible := p.visible || k.visible || (mac && Ieq(p.display, "launchd_sim")),
       cpu := p.cpu + k.cpu, rss := SatAdd(p.rss, k.rss), gpu := AddGpu(p.gpu, k.gpu))
  }

  /** Row `idx` folds into row `r`: emptied first, so even a row folding into itself keeps its stats. */
  function FoldInto(mac: bool, rows: seq<ProcInfo>, idx: nat, r: nat): (out: seq<ProcInfo>)
    requires idx < |rows| && r < |rows|
    ensures |out| == |rows|
  {
    var k := rows[idx];
    var emptied := rows[idx := Emptied(k)];
    emptied[r := Received(mac, emptied[r], k)]
  }

  // ── Stats as one sum ──

  datatype Stats = Stats(cpu: real, rss: nat, sm: nat, mem: nat)

  const ZERO := Stats(0.0, 0, 0, 0)

  function Plus(a: Stats, b: Stats): Stats {
    Stats(a.cpu + b.cpu, a.rss + b.rss, a.sm + b.sm, a.mem + b.mem)
  }

  function StatsOf(p: ProcInfo): Stats {
    Stats(p.cpu, p.rss, if p.gpu.Some? then p.gpu.value.smPct else 0, if p.gpu.Some? then p.gpu.value.memMib else 0)
  }

  ghost function Total(rows: seq<ProcInfo>): Stats {
    if rows == [] then ZERO else Plus(Total(rows[..|rows| - 1]), StatsOf(rows[|rows| - 1]))
  }

  // ── Saturation ──

  /** What 32-bit cells hold of a sum, and what they cut off. */
  function Clamp(n: nat): u32 {
    if n > U32_MAX then U32_MAX else n
  }

  function Held(a: Stats): Stats {
    Stats(a.cpu, Clamp(a.rss), a.sm, Clamp(a.mem))
  }

  function CutOff(a: Stats): Stats {
    Stats(0.0, a.rss - Clamp(a.rss), 0, a.mem - Clamp(a.mem))
  }

  /** Saturating step by step is saturating once. */
  lemma HeldOnce(a: Stats, b: Stats)
    ensures Held(Plus(Held(a), b)) == Held(Plus(a, b)) && Plus(Held(a), CutOff(a)) == a
  {
  }

  lemma ReceivedStats(mac: bool, p: ProcInfo, k: ProcInfo)
    ensures StatsOf(Received(mac, p, k)) == Held(Plus(StatsOf(p), StatsOf(k)))
  {
    hide Ieq;
  }

  lemma EmptiedStats(k: ProcInfo)
    ensures StatsOf(Emptied(k)) == ZERO && Held(StatsOf(k)) == StatsOf(k)
  {
  }

  lemma {:induction false} TotalUpdate(rows: seq<ProcInfo>, i: nat, row: ProcInfo)
    requires i < |rows|
    ensures Plus(Total(rows[i := row]), StatsOf(rows[i])) == Plus(Total(rows), StatsOf(row))
    decreases |rows|
  {
    hide StatsOf;
    var n := |rows| - 1;
    if i < n {
      TotalUpdate(rows[..n], i, row);
      assert rows[i := row][..n] == rows[..n][i := row];
    } else {
      assert rows[i := row][..n] == rows[..n];
    }
  }

  lemma {:induction false} TotalAtLeast(rows: seq<ProcInfo>, i: nat)
    requires i < |rows|
    ensures StatsOf(rows[i]).rss <= Total(rows).rss && StatsOf(rows[i]).mem <= Total(rows).mem
    decreases |rows|
  {
    hide StatsOf;
    if i < |rows| - 1 {
      TotalAtLeast(rows[..|rows| - 1], i);
    }
  }

  /** What one fold cuts off the two rows' sum. */
  function FoldLoss(rows: seq<ProcInfo>, idx: nat, r: nat): Stats
    requires idx < |rows| && r < |rows|
  {
    CutOff(Plus(StatsOf(rows[idx := Emptied(rows[idx])][r]), StatsOf(rows[idx])))
  }

  /** One fold keeps the totals but for what saturation cuts off, whichever rows it joins. */
  lemma FoldConserves(mac: bool, rows: seq<ProcInfo>, idx: nat, r: nat)
    requires idx < |rows| && r < |rows|
    ensures Plus(Total(FoldInto(mac, rows, idx, r)), FoldLoss(rows, idx, r)) == Total(rows)
    ensures Total(rows).rss <= U32_MAX && Total(rows).mem <= U32_MAX ==> FoldLoss(rows, idx, r) == ZERO
  {
    hide Total, Received, Emptied, StatsOf;
    var k := rows[idx];
    var emptied := rows[idx := Emptied(k)];
    EmptiedStats(k);
    TotalUpdate(rows, idx, Emptied(k));
    TotalAtLeast(emptied, r);
    ReceivedStats(mac, emptied[r], k);
    TotalUpdate(emptied, r, Received(mac, emptied[r], k));
  }

  /** A row that folds into itself loses nothing. */
  lemma SelfFoldLosesNothing(rows: seq<ProcInfo>, idx: nat)
    requires idx < |rows|
    ensures FoldLoss(rows, idx, idx) == ZERO
  {
    EmptiedStats(rows[idx]);
    hide StatsOf, Emptied;
  }

  // ── The scan ──

  /** Every entry of a scan order is a row. */
  ghost predicate Inside(order: seq<nat>, n: nat) {
    forall k | 0 <= k < |order| :: order[k] < n
  }

  lemma InsideParts(a: seq<nat>, x: nat, b: seq<nat>, n: nat)
    requires Inside(a + [x] + b, n)
    ensures Inside(a, n) && x < n && Inside(b, n) && Inside(a + b, n)
  {
    var whole := a + [x] + b;
    assert whole[|a|] == x;
    forall k | 0 <= k < |b| ensures b[k] < n {
      assert b[k] == whole[|a| + 1 + k];
    }
    forall k | 0 <= k < |a| ensures a[k] < n {
      assert a[k] == whole[k];
    }
  }

  /** Fold the rows at `order` in turn, each into its target. */
  ghost function Scan(mac: bool, rows: seq<ProcInfo>, roots: seq<Option<nat>>, order: seq<nat>): (out: seq<ProcInfo>)
    requires |roots| == |rows| && TargetsInside(roots)
    requires Inside(order, |rows|)
    ensures |out| == |rows|
    decreases |order|
  {
    if order == [] then rows
    else
      var before := Scan(mac, rows, roots, order[..|order| - 1]);
      var idx := order[|order| - 1];
      if roots[idx].None? then before else FoldInto(mac, before, idx, roots[idx].value)
  }

  ghost predicate TargetsInside(roots: seq<Option<nat>>) {
    forall i | 0 <= i < |roots| && roots[i].Some? :: roots[i].value < |roots|
  }

  /** No target is itself folded. */
  ghost predicate TargetsStand(roots: seq<Option<nat>>) {
    TargetsInside(roots) && forall i | 0 <= i < |roots| && roots[i].Some? :: roots[roots[i].value].None?
  }

  /** What all folds of a scan cut off. */
  ghost function Lost(mac: bool, rows: seq<ProcInfo>, roots: seq<Option<nat>>, order: seq<nat>): (l: Stats)
    requires |roots| == |rows| && TargetsInside(roots)
    requires Inside(order, |rows|)
    ensures l.cpu == 0.0 && l.sm == 0
    decreases |order|
  {
    if order == [] then ZERO
    else
      var front, idx := order[..|order| - 1], order[|order| - 1];
      var lost := Lost(mac, rows, roots, front);
      if roots[idx].None? then lost
      else Plus(lost, FoldLoss(Scan(mac, rows, roots, front), idx, roots[idx].value))
  }

  /** Conservation for every input, cycles included, whatever the order: what the rows lose is exactly what 32-bit
      saturation cuts off, which is nothing when the totals fit. */
  lemma {:induction false} ScanConserves(mac: bool, rows: seq<ProcInfo>, roots: seq<Option<nat>>, order: seq<nat>)
    requires |roots| == |rows| && TargetsInside(roots)
    requires Inside(order, |rows|)
    ensures Plus(Total(Scan(mac, rows, roots, order)), Lost(mac, rows, roots, order)) == Total(rows)
    ensures Total(rows).rss <= U32_MAX && Total(rows).mem <= U32_MAX ==> Lost(mac, rows, roots, order) == ZERO
    decreases |order|
  {
    hide Total, FoldInto, FoldLoss;
    if order != [] {
      ScanConserves(mac, rows, roots, order[..|order| - 1]);
      var before := Scan(mac, rows, roots, order[..|order| - 1]);
      var idx := order[|order| - 1];
      if roots[idx].Some? {
        FoldConserves(mac, before, idx, roots[idx].value);
      }
    }
  }

  // ── What each row ends with ──

  /** Stats of the rows of `order` that fold into `j`. */
  ghost function Gathered(rows: seq<ProcInfo>, roots: seq<Option<nat>>, order: seq<nat>, j: nat): Stats
    requires |roots| == |rows| && Inside(order, |rows|)
    decreases |order|
  {
    if order == [] then ZERO
    else
      var idx := order[|order| - 1];
      Plus(Gathered(rows, roots, order[..|order| - 1], j), if roots[idx] == Some(j) then StatsOf(rows[idx]) else ZERO)
  }

  /** A row folding into `p` makes it visible: if it was, and on macOS whenever `p` is a simulator. */
  predicate MakesVisible(mac: bool, p: ProcInfo, k: ProcInfo) {
    k.visible || (mac && Ieq(p.display, "launchd_sim"))
  }

  /** A row of `order` that folds into `j` makes it visible. */
  ghost predicate Surfaces(mac: bool, rows: seq<ProcInfo>, roots: seq<Option<nat>>, order: seq<nat>, j: nat)
    requires |roots| == |rows| && j < |rows| && Inside(order, |rows|)
  {
    exists k | 0 <= k < |order| :: roots[order[k]] == Some(j) && MakesVisible(mac, rows[j], rows[order[k]])
  }

  /** Row `j` after the rows of `order` have been scanned. */
  ghost predicate Settled(mac: bool, rows: seq<ProcInfo>, roots: seq<Option<nat>>, order: seq<nat>, j: nat,
      out: ProcInfo)
    requires |roots| == |rows| && j < |rows| && Inside(order, |rows|)
  {
    && out.pid == rows[j].pid && out.ppid == rows[j].ppid && out.display == rows[j].display
    && if roots[j].Some? && j in order then out == Emptied(rows[j])
       else if roots[j].Some? then out == rows[j]
       else && StatsOf(out) == Held(Plus(StatsOf(rows[j]), Gathered(rows, roots, order, j)))
            && (out.visible <==> rows[j].visible || Surfaces(mac, rows, roots, order, j))
  }

  ghost predicate NoRepeats(order: seq<nat>) {
    forall i, j | 0 <= i < j < |order| :: order[i] != order[j]
  }

  lemma SurfacesStep(mac: bool, rows: seq<ProcInfo>, roots: seq<Option<nat>>, order: seq<nat>, j: nat)
    requires |roots| == |rows| && j < |rows| && order != [] && Inside(order, |rows|)
    ensures var idx := order[|order| - 1];
      Surfaces(mac, rows, roots, order, j) <==>
        || Surfaces(mac, rows, roots, order[..|order| - 1], j)
        || (roots[idx] == Some(j) && MakesVisible(mac, rows[j], rows[idx]))
  {
    hide Ieq;
    var front, idx := order[..|order| - 1], order[|order| - 1];
    if Surfaces(mac, rows, roots, front, j) {
      var k :| 0 <= k < |front| && roots[front[k]] == Some(j) && MakesVisible(mac, rows[j], rows[front[k]]);
      assert order[k] == front[k];
    }
    assert order[|order| - 1] == idx;
  }

  /** Rows other than the two a fold touches keep their content. */
  lemma FoldOthers(mac: bool, rows: seq<ProcInfo>, idx: nat, r: nat, j: nat)
    requires idx < |rows| && r < |rows| && j < |rows| && (j == idx ==> idx != r)
    ensures FoldInto(mac, rows, idx, r)[j]
         == if j == idx then Emptied(rows[idx]) else if j == r then Received(mac, rows[r], rows[idx]) else rows[j]
  {
  }

  lemma PlusAssoc(a: Stats, b: Stats, c: Stats)
    ensures Plus(Plus(a, b), c) == Plus(a, Plus(b, c)) && Plus(a, ZERO) == a && Plus(a, b) == Plus(b, a)
  {
  }

  /** A scanned row that neither is `j` nor folds into it leaves row `j` settled as it is. */
  lemma SettledSame(mac: bool, rows: seq<ProcInfo>, roots: seq<Option<nat>>, front: seq<nat>, idx: nat, j: nat,
      out: ProcInfo)
    requires |roots| == |rows| && j < |rows| && idx < |rows| && Inside(front + [idx], |rows|) && Inside(front, |rows|)
    requires Settled(mac, rows, roots, front, j, out) && roots[idx] != Some(j) && (j != idx || roots[j].None?)
    ensures Settled(mac, rows, roots, front + [idx], j, out)
  {
    hide StatsOf, Emptied, Held;
    var order := front + [idx];
    assert order[..|order| - 1] == front && order[|order| - 1] == idx;
    PlusAssoc(Gathered(rows, roots, front, j), ZERO, ZERO);
    SurfacesStep(mac, rows, roots, order, j);
    hide Surfaces;
  }

  /** The row that folds ends empty. */
  lemma SettledFolded(mac: bool, rows: seq<ProcInfo>, roots: seq<Option<nat>>, front: seq<nat>, idx: nat, k: ProcInfo)
    requires |roots| == |rows| && idx < |rows| && Inside(front + [idx], |rows|) && Inside(front, |rows|)
    requires idx !in front && roots[idx].Some? && Settled(mac, rows, roots, front, idx, k)
    ensures k == rows[idx] && Settled(mac, rows, roots, front + [idx], idx, Emptied(k))
  {
    assert (front + [idx])[|front|] == idx;
    hide Gathered, Surfaces, Held, StatsOf;
  }

  /** Its target gathers it. */
  lemma SettledTarget(mac: bool, rows: seq<ProcInfo>, roots: seq<Option<nat>>, front: seq<nat>, idx: nat, j: nat,
      p: ProcInfo)
    requires |roots| == |rows| && j < |rows| && idx < |rows| && Inside(front + [idx], |rows|) && Inside(front, |rows|)
    requires roots[j].None? && roots[idx] == Some(j) && Settled(mac, rows, roots, front, j, p)
    ensures Settled(mac, rows, roots, front + [idx], j, Received(mac, p, rows[idx]))
  {
    hide StatsOf, Emptied, Held, Ieq, AddGpu;
    var order, k := front + [idx], rows[idx];
    assert order[..|order| - 1] == front && order[|order| - 1] == idx;
    var own, gathered := StatsOf(rows[j]), Gathered(rows, roots, front, j);
    ReceivedStats(mac, p, k);
    HeldOnce(Plus(own, gathered), StatsOf(k));
    PlusAssoc(own, gathered, StatsOf(k));
    SurfacesStep(mac, rows, roots, order, j);
    hide Surfaces, Plus;
  }

  /** One more scanned row leaves every row settled. */
  lemma SettledStep(mac: bool, rows: seq<ProcInfo>, roots: seq<Option<nat>>, order: seq<nat>, before: seq<ProcInfo>,
      j: nat)
    requires |roots| == |rows| == |before| && TargetsStand(roots) && j < |rows| && order != [] && NoRepeats(order)
    requires Inside(order, |rows|)
    requires forall i | 0 <= i < |rows| :: Settled(mac, rows, roots, order[..|order| - 1], i, before[i])
    ensures var idx := order[|order| - 1];
      var out := if roots[idx].None? then before else FoldInto(mac, before, idx, roots[idx].value);
      Settled(mac, rows, roots, order, j, out[j])
  {
    hide Settled, FoldInto;
    var idx, front := order[|order| - 1], order[..|order| - 1];
    assert order == front + [idx] && idx !in front;
    assert Settled(mac, rows, roots, front, j, before[j]) && Settled(mac, rows, roots, front, idx, before[idx]);
    if roots[idx].Some? {
      SettledFolded(mac, rows, roots, front, idx, before[idx]);
      FoldOthers(mac, before, idx, roots[idx].value, j);
    }
    if roots[idx] == Some(j) {
      SettledTarget(mac, rows, roots, front, idx, j, before[j]);
    } else if roots[idx].None? || j != idx {
      SettledSame(mac, rows, roots, front, idx, j, before[j]);
    }
  }

  /** Where no target is folded, every row ends empty if it folds, and otherwise with its own stats
      plus its whole group's, shown if any of them was. */
  lemma {:induction false} ScanSettles(mac: bool, rows: seq<ProcInfo>, roots: seq<Option<nat>>, order: seq<nat>)
    requires |roots| == |rows| && TargetsStand(roots) && NoRepeats(order)
    requires Inside(order, |rows|)
    ensures forall j | 0 <= j < |rows| :: Settled(mac, rows, roots, order, j, Scan(mac, rows, roots, order)[j])
    decreases |order|
  {
    hide Settled, FoldInto;
    if order == [] {
      forall j | 0 <= j < |rows| ensures Settled(mac, rows, roots, order, j, rows[j]) {
        SettledNone(mac, rows, roots, j);
      }
    } else {
      var front := order[..|order| - 1];
      ScanSettles(mac, rows, roots, front);
      var before := Scan(mac, rows, roots, front);
      forall j | 0 <= j < |rows| ensures Settled(mac, rows, roots, order, j, Scan(mac, rows, roots, order)[j]) {
        SettledStep(mac, rows, roots, order, before, j);
      }
    }
  }

  lemma SettledNone(mac: bool, rows: seq<ProcInfo>, roots: seq<Option<nat>>, j: nat)
    requires |roots| == |rows| && j < |rows|
    ensures Settled(mac, rows, roots, [], j, rows[j])
  {
    hide StatsOf, Held, Plus, Emptied, Ieq;
    PlusAssoc(StatsOf(rows[j]), ZERO, ZERO);
    EmptiedStats(rows[j]);
  }

  // ── Order of the scan ──

  lemma {:induction false} GatheredMove(rows: seq<ProcInfo>, roots: seq<Option<nat>>, a: seq<nat>, x: nat,
      b: seq<nat>, j: nat)
    requires |roots| == |rows| && x < |rows| && Inside(a + [x] + b, |rows|) && Inside(a + b, |rows|)
    ensures Gathered(rows, roots, a + [x] + b, j)
         == Plus(Gathered(rows, roots, a + b, j), if roots[x] == Some(j) then StatsOf(rows[x]) else ZERO)
    decreases |b|
  {
    hide StatsOf, Gathered;
    var whole := a + [x] + b;
    GatheredLast(rows, roots, whole, j);
    if b == [] {
      assert a + b == a && whole[..|whole| - 1] == a;
    } else {
      var rest, y := b[..|b| - 1], b[|b| - 1];
      GatheredLast(rows, roots, a + b, j);
      assert whole[..|whole| - 1] == a + [x] + rest && whole[|whole| - 1] == y;
      assert (a + b)[..|a + b| - 1] == a + rest && (a + b)[|a + b| - 1] == y;
      InsideFront(whole, |rows|);
      InsideFront(a + b, |rows|);
      GatheredMove(rows, roots, a, x, rest, j);
      hide Inside;
    }
  }

  lemma InsideFront(order: seq<nat>, n: nat)
    requires Inside(order, n) && order != []
    ensures Inside(order[..|order| - 1], n)
  {
  }

  lemma {:induction false} GatheredAnyOrder(rows: seq<ProcInfo>, roots: seq<Option<nat>>, p: seq<nat>, q: seq<nat>,
      j: nat)
    requires |roots| == |rows| && multiset(p) == multiset(q)
    requires Inside(p, |rows|)
    requires Inside(q, |rows|)
    ensures Gathered(rows, roots, p, j) == Gathered(rows, roots, q, j)
    decreases |p|, 0
  {
    assert |p| == |multiset(p)| == |multiset(q)| == |q|;
    if p == [] {
      return;
    }
    var front, x := p[..|p| - 1], p[|p| - 1];
    assert p == front + [x] && x in multiset(q);
    var m :| 0 <= m < |q| && q[m] == x;
    GatheredLast(rows, roots, p, j);
    GatheredSplit(rows, roots, front, x, q, m, j);
  }

  lemma GatheredLast(rows: seq<ProcInfo>, roots: seq<Option<nat>>, p: seq<nat>, j: nat)
    requires |roots| == |rows| && p != [] && Inside(p, |rows|)
    ensures Gathered(rows, roots, p, j)
         == Plus(Gathered(rows, roots, p[..|p| - 1], j), if roots[p[|p| - 1]]
             == Some(j) then StatsOf(rows[p[|p| - 1]]) else ZERO)
  {
  }

  lemma GatheredSplit(rows: seq<ProcInfo>, roots: seq<Option<nat>>, front: seq<nat>, x: nat, q: seq<nat>, m: nat,
      j: nat)
    requires |roots| == |rows| && m < |q| && q[m] == x && Inside(q, |rows|) && Inside(front, |rows|)
    requires multiset(front + [x]) == multiset(q)
    ensures Gathered(rows, roots, q, j)
         == Plus(Gathered(rows, roots, front, j), if roots[x] == Some(j) then StatsOf(rows[x]) else ZERO)
    decreases |front|, 1
  {
    hide StatsOf, Plus, Gathered, Inside;
    var a, b := q[..m], q[m + 1..];
    assert q == a + [x] + b;
    InsideParts(a, x, b, |rows|);
    DropSame(front, x, a, b);
    GatheredAnyOrder(rows, roots, front, a + b, j);
    GatheredMove(rows, roots, a, x, b, j);
  }

  /** Any two scans of the same rows agree on every row's stats, visibility and identity. */
  lemma ScanAnyOrder(mac: bool, rows: seq<ProcInfo>, roots: seq<Option<nat>>, p: seq<nat>, q: seq<nat>, j: nat)
    requires |roots| == |rows| && TargetsStand(roots) && NoRepeats(p) && NoRepeats(q) && multiset(p) == multiset(q)
    requires Inside(p, |rows|)
    requires Inside(q, |rows|)
    requires j < |rows|
    ensures var one, other := Scan(mac, rows, roots, p)[j], Scan(mac, rows, roots, q)[j];
      && StatsOf(one) == StatsOf(other) && one.visible == other.visible
      && one.pid == other.pid && one.ppid == other.ppid && one.display == other.display
  {
    hide Settled, Scan, StatsOf;
    ScanSettles(mac, rows, roots, p);
    ScanSettles(mac, rows, roots, q);
    SettledAgree(mac, rows, roots, p, q, j, Scan(mac, rows, roots, p)[j], Scan(mac, rows, roots, q)[j]);
  }

  lemma SettledAgree(mac: bool, rows: seq<ProcInfo>, roots: seq<Option<nat>>, p: seq<nat>, q: seq<nat>, j: nat,
                     one: ProcInfo, other: ProcInfo)
    requires |roots| == |rows| && multiset(p) == multiset(q) && j < |rows|
    requires Inside(p, |rows|)
    requires Inside(q, |rows|)
    requires Settled(mac, rows, roots, p, j, one) && Settled(mac, rows, roots, q, j, other)
    ensures StatsOf(one) == StatsOf(other) && one.visible == other.visible
    ensures one.pid == other.pid && one.ppid == other.ppid && one.display == other.display
  {
    GatheredAnyOrder(rows, roots, p, q, j);
    if Surfaces(mac, rows, roots, p, j) {
      SurfacesAnyOrder(mac, rows, roots, p, q, j);
    }
    if Surfaces(mac, rows, roots, q, j) {
      SurfacesAnyOrder(mac, rows, roots, q, p, j);
    }
    assert j in p <==> j in multiset(p);
    assert j in q <==> j in multiset(q);
    hide Gathered, Surfaces, StatsOf;
  }

  lemma SurfacesAnyOrder(mac: bool, rows: seq<ProcInfo>, roots: seq<Option<nat>>, p: seq<nat>, q: seq<nat>, j: nat)
    requires |roots| == |rows| && multiset(p) == multiset(q) && j < |rows|
    requires Inside(p, |rows|)
    requires Inside(q, |rows|)
    requires Surfaces(mac, rows, roots, p, j)
    ensures Surfaces(mac, rows, roots, q, j)
  {
    hide Ieq;
    var k :| 0 <= k < |p| && roots[p[k]] == Some(j) && MakesVisible(mac, rows[j], rows[p[k]]);
    assert p[k] in multiset(q);
    var m :| 0 <= m < |q| && q[m] == p[k];
  }
}
