/** The coalescing scan as it runs: a hop-capped walk per row, folds made in place. */
module CoalescePass {
  import opened Wrappers
  import opened FixedVec
  import opened FlatMap
  import opened Forest
  import opened Procs
  import opened Roots
  import opened Coalesce

  ghost function NamesOf(rows: seq<ProcInfo>): (names: seq<string>)
    ensures |names| == |rows|
    ensures forall i | 0 <= i < |rows| :: names[i] == rows[i].display
  {
    seq(|rows|, i requires 0 <= i < |rows| => rows[i].display)
  }

  /** Pids, ppids and names are as they were; folding only moves stats and visibility. */
  ghost predicate SameLinks(rows: seq<ProcInfo>, now: seq<ProcInfo>) {
    && |now| == |rows|
    && forall i | 0 <= i < |rows| :: SameLink(rows[i], now[i])
  }

  ghost predicate SameLink(a: ProcInfo, b: ProcInfo) {
    a.pid == b.pid && a.ppid == b.ppid && a.display == b.display
  }

  lemma FoldLinks(mac: bool, rows: seq<ProcInfo>, now: seq<ProcInfo>, idx: nat, r: nat)
    requires SameLinks(rows, now) && idx < |now| && r < |now|
    ensures SameLinks(rows, FoldInto(mac, now, idx, r))
  {
    hide AddGpu, Ieq;
    forall i | 0 <= i < |rows| ensures SameLink(rows[i], FoldInto(mac, now, idx, r)[i]) {
      assert SameLink(rows[i], now[i]);
    }
  }

  lemma LinkParents(rows: seq<ProcInfo>, now: seq<ProcInfo>)
    requires SameLinks(rows, now) && DistinctPids(rows)
    ensures DistinctPids(now) && ParentsOf(now) == ParentsOf(rows)
  {
    forall i, j | 0 <= i < j < |now| ensures now[i].pid != now[j].pid {
      assert SameLink(rows[i], now[i]) && SameLink(rows[j], now[j]);
    }
    forall i | 0 <= i < |now| ensures ParentsOf(now)[i] == ParentsOf(rows)[i] {
      assert SameLink(rows[i], now[i]);
      LinkIndex(rows, now, rows[i].ppid);
    }
  }

  lemma LinkIndex(rows: seq<ProcInfo>, now: seq<ProcInfo>, pid: nat)
    requires SameLinks(rows, now) && DistinctPids(rows) && DistinctPids(now)
    ensures IndexOf(now, pid) == IndexOf(rows, pid)
  {
    var a, b := IndexOf(now, pid), IndexOf(rows, pid);
    if b.Some? {
      assert SameLink(rows[b.value], now[b.value]);
      IndexOfPid(now, b.value);
    }
    if a.Some? {
      assert SameLink(rows[a.value], now[a.value]);
    }
  }

  /** The fold targets of every row. */
  ghost function RootsOf(mac: bool, rows: seq<ProcInfo>): (roots: seq<Option<nat>>)
    ensures |roots| == |rows|
  {
    seq(|rows|, i requires 0 <= i < |rows| => RootOf(mac, NamesOf(rows), ParentsOf(rows), i))
  }

  lemma RootsInside(mac: bool, rows: seq<ProcInfo>)
    ensures TargetsInside(RootsOf(mac, rows))
  {
    var names, par := NamesOf(rows), ParentsOf(rows);
    forall i | 0 <= i < |rows| && RootsOf(mac, rows)[i].Some? ensures RootsOf(mac, rows)[i].value < |rows| {
      WalkInside(mac, names, par, i, HOPS, names[i], None);
    }
  }

  /** Acyclic ppids whose chains have at most 64 hops. */
  ghost predicate ShortChains(par: Parents) {
    forall i | 0 <= i < |par| :: Rooted(par, i) && Level(par, i) <= 64
  }

  /** On short chains no fold target is itself folded. */
  lemma RootsStand(mac: bool, rows: seq<ProcInfo>)
    requires ShortChains(ParentsOf(rows))
    ensures TargetsStand(RootsOf(mac, rows))
  {
    RootsInside(mac, rows);
    var names, par, roots := NamesOf(rows), ParentsOf(rows), RootsOf(mac, rows);
    forall i | 0 <= i < |rows| && roots[i].Some? ensures roots[roots[i].value].None? {
      RootIsOutermost(mac, names, par, i);
    }
  }

  /** One hop of the walk. */
  lemma WalkHop(mac: bool, names: seq<string>, par: Parents, at: nat, hops: nat, name: string, root: Option<nat>)
    requires InRange(par) && |names| == |par| && at < |par| && hops > 0
    ensures Walk(mac, names, par, at, hops, name, root)
         == if par[at].None? then root
            else if IsShardName(name) || FoldsByName(mac, name, names[par[at].value])
            then Walk(mac, names, par, par[at].value, hops - 1, names[par[at].value], Some(par[at].value))
            else Walk(mac, names, par, par[at].value, hops - 1, name, root)
  {
    hide FoldsByName, IsShardName;
  }

  lemma ParentIndex(m: seq<(nat, nat)>, rows: seq<ProcInfo>, at: nat)
    requires Indexes(m, rows) && at < |rows|
    ensures StrictKeys(m) && Lookup(m, rows[at].ppid) == ParentsOf(rows)[at]
  {
  }

  /** Outermost ancestor row `idx` folds into, by a walk of at most 64 hops. */
  method CoalesceRoot(mac: bool, procs: FVec<ProcInfo>, m: seq<(nat, nat)>, idx: nat, ghost rows: seq<ProcInfo>)
    returns (root: Option<nat>)
    requires procs.Valid() && SameLinks(rows, procs.Items()) && Indexes(m, rows) && idx < procs.len
    ensures root == RootOf(mac, NamesOf(rows), ParentsOf(rows), idx)
  {
    ghost var names, par := NamesOf(rows), ParentsOf(rows);
    LinkSlots(rows, procs);
    hide *;
    root := None;
    var name := procs.slots[idx].display;
    var shard := IsShardName(name);
    var a := procs.slots[idx].ppid;
    ghost var at := idx;
    var h := 0;
    while h < HOPS
      invariant 0 <= h <= HOPS && at < |rows| && a == rows[at].ppid && shard == IsShardName(name)
      invariant Walk(mac, names, par, at, HOPS - h, name, root) == Walk(mac, names, par, idx, HOPS, names[idx], None)
    {
      WalkHop(mac, names, par, at, HOPS - h, name, root);
      ParentIndex(m, rows, at);
      var up := Get(m, a);
      if up.None? {
        return;
      }
      var pa := up.value;
      var pname := procs.slots[pa].display;
      if shard || FoldsByName(mac, name, pname) {
        root := Some(pa);
        name := pname;
        shard := IsShardName(name);
      }
      at := pa;
      a := procs.slots[pa].ppid;
      h := h + 1;
    }
    WalkStop(mac, names, par, at, name, root);
  }

  lemma WalkStop(mac: bool, names: seq<string>, par: Parents, at: nat, name: string, root: Option<nat>)
    requires InRange(par) && |names| == |par| && at < |par|
    ensures Walk(mac, names, par, at, 0, name, root) == root
  {
  }

  lemma LinkSlots(rows: seq<ProcInfo>, procs: FVec<ProcInfo>)
    requires procs.Valid() && SameLinks(rows, procs.Items())
    ensures procs.len == |rows| <= procs.slots.Length
    ensures forall i | 0 <= i < |rows| ::
      procs.slots[i].display == rows[i].display && procs.slots[i].ppid == rows[i].ppid
  {
    forall i | 0 <= i < |rows|
      ensures procs.slots[i].display == rows[i].display && procs.slots[i].ppid == rows[i].ppid
    {
      assert SameLink(rows[i], procs.Items()[i]);
    }
  }

  /** Row `idx` folds into row `r`, in place. */
  method FoldRow(mac: bool, procs: FVec<ProcInfo>, idx: nat, r: nat)
    requires procs.Valid() && idx < procs.len && r < procs.len
    modifies procs.slots
    ensures procs.Valid() && procs.Items() == FoldInto(mac, old(procs.Items()), idx, r)
  {
    hide AddGpu, Ieq;
    ghost var rows := procs.Items();
    var k := procs.slots[idx];
    var vis, cpu, rss, gpu := k.visible, k.cpu, k.rss, k.gpu;
    procs.slots[idx] := k.(visible := false, cpu := 0.0, rss := 0, gpu := None);
    assert procs.Items() == rows[idx := Emptied(k)];
    var p := procs.slots[r];
    if vis || (mac && Ieq(p.display, "launchd_sim")) {
      p := p.(visible := true);
    }
    p := p.(cpu := p.cpu + cpu, rss := SatAdd(p.rss, rss), gpu := AddGpu(p.gpu, gpu));
    procs.slots[r] := p;
  }

  /** The first `n` rows, in process order. */
  ghost function InOrder(n: nat): (order: seq<nat>)
    ensures |order| == n && NoRepeats(order)
    ensures forall k | 0 <= k < n :: order[k] == k
  {
    seq(n, i => i)
  }

  ghost function ScanTo(mac: bool, rows: seq<ProcInfo>, n: nat): (out: seq<ProcInfo>)
    requires n <= |rows|
    ensures |out| == |rows|
  {
    RootsInside(mac, rows);
    Scan(mac, rows, RootsOf(mac, rows), InOrder(n))
  }

  lemma ScanToStep(mac: bool, rows: seq<ProcInfo>, n: nat)
    requires n < |rows|
    ensures ScanTo(mac, rows, 0) == rows
    ensures RootsOf(mac, rows)[n].Some? ==> RootsOf(mac, rows)[n].value < |rows|
    ensures ScanTo(mac, rows, n + 1)
         == if RootsOf(mac, rows)[n].None? then ScanTo(mac, rows, n)
            else FoldInto(mac, ScanTo(mac, rows, n), n, RootsOf(mac, rows)[n].value)
  {
    hide FoldInto, RootOf;
    RootsInside(mac, rows);
    assert InOrder(n + 1)[..n] == InOrder(n);
    assert InOrder(0) == [];
  }

  /** The coalesced rows of a tick. */
  ghost function Coalesced(mac: bool, rows: seq<ProcInfo>): (out: seq<ProcInfo>)
    ensures |out| == |rows|
  {
    ScanTo(mac, rows, |rows|)
  }

  method CoalesceHelpers(mac: bool, procs: FVec<ProcInfo>, m: seq<(nat, nat)>)
    requires procs.Valid() && Indexes(m, procs.Items())
    modifies procs.slots
    ensures procs.Valid() && procs.Items() == Coalesced(mac, old(procs.Items()))
    ensures SameLinks(old(procs.Items()), procs.Items())
  {
    hide *;
    ghost var rows := procs.Items();
    ScanNone(mac, rows);
    LinkSlots(rows, procs);
    var idx := 0;
    while idx < procs.len
      invariant 0 <= idx <= procs.len == |rows|
      invariant procs.Valid() && procs.Items() == ScanTo(mac, rows, idx) && SameLinks(rows, procs.Items())
    {
      CoalesceRow(mac, procs, m, idx, rows);
      idx := idx + 1;
    }
    CoalescedIs(mac, rows);
  }

  /** One row of the scan. */
  method CoalesceRow(mac: bool, procs: FVec<ProcInfo>, m: seq<(nat, nat)>, idx: nat, ghost rows: seq<ProcInfo>)
    requires procs.Valid() && Indexes(m, rows) && idx < procs.len == |rows|
    requires procs.Items() == ScanTo(mac, rows, idx) && SameLinks(rows, procs.Items())
    modifies procs.slots
    ensures procs.Valid() && procs.len == |rows|
    ensures procs.Items() == ScanTo(mac, rows, idx + 1) && SameLinks(rows, procs.Items())
  {
    hide *;
    ScanToStep(mac, rows, idx);
    RootsAre(mac, rows, idx);
    var r := CoalesceRoot(mac, procs, m, idx, rows);
    if r.Some? {
      FoldLinks(mac, rows, procs.Items(), idx, r.value);
      LinkSlots(rows, procs);
      FoldRow(mac, procs, idx, r.value);
    }
  }

  lemma RootsAre(mac: bool, rows: seq<ProcInfo>, i: nat)
    requires i < |rows|
    ensures RootsOf(mac, rows)[i] == RootOf(mac, NamesOf(rows), ParentsOf(rows), i)
  {
    hide RootOf;
  }

  lemma CoalescedIs(mac: bool, rows: seq<ProcInfo>)
    ensures Coalesced(mac, rows) == ScanTo(mac, rows, |rows|)
  {
  }

  lemma ScanNone(mac: bool, rows: seq<ProcInfo>)
    ensures ScanTo(mac, rows, 0) == rows && SameLinks(rows, rows)
  {
    assert InOrder(0) == [];
  }

  // ── What coalescing promises ──

  /** Nothing is lost but what 32-bit saturation cuts off, whatever the ppid graph: no cpu and no GPU use ever, and
      no memory when the totals fit. */
  lemma CoalescedConserves(mac: bool, rows: seq<ProcInfo>)
    ensures var before, after := Total(rows), Total(Coalesced(mac, rows));
      && after.cpu == before.cpu && after.sm == before.sm && after.rss <= before.rss && after.mem <= before.mem
      && (before.rss <= 0xffff_ffff && before.mem <= 0xffff_ffff ==> after == before)
  {
    RootsInside(mac, rows);
    ScanConserves(mac, rows, RootsOf(mac, rows), InOrder(|rows|));
  }

  /** On short acyclic chains every row ends empty, or with its own stats plus its group's. */
  lemma CoalescedSettles(mac: bool, rows: seq<ProcInfo>, j: nat)
    requires ShortChains(ParentsOf(rows)) && j < |rows|
    ensures Settled(mac, rows, RootsOf(mac, rows), InOrder(|rows|), j, Coalesced(mac, rows)[j])
  {
    RootsStand(mac, rows);
    ScanSettles(mac, rows, RootsOf(mac, rows), InOrder(|rows|));
  }

  /** A folded row that nothing folds into from then on is empty by the end of the scan, however much its target's
      group receives after it. */
  lemma {:induction false} FoldedEmpty(mac: bool, rows: seq<ProcInfo>, roots: seq<Option<nat>>,
                                       front: seq<nat>, j: nat, back: seq<nat>)
    requires |roots| == |rows| && TargetsInside(roots) && j < |rows| && roots[j].Some?
    requires Inside(front, |rows|) && Inside(back, |rows|)
    requires forall k | k in [j] + back :: roots[k] != Some(j)
    ensures var out := Scan(mac, rows, roots, front + [j] + back);
      !out[j].visible && out[j].cpu == 0.0 && out[j].rss == 0 && out[j].gpu == None
    decreases |back|
  {
    hide FoldInto, Received;
    var order := front + [j] + back;
    var n := |order| - 1;
    var idx, before := order[n], Scan(mac, rows, roots, order[..n]);
    assert idx in [j] + back;
    if roots[idx].Some? {
      FoldOthers(mac, before, idx, roots[idx].value, j);
    }
    if back != [] {
      assert order[..n] == front + [j] + back[..|back| - 1];
      FoldedEmpty(mac, rows, roots, front, j, back[..|back| - 1]);
    }
  }

  /** The same of a whole coalescing pass. */
  lemma CoalescedEmpty(mac: bool, rows: seq<ProcInfo>, i: nat)
    requires i < |rows| && RootsOf(mac, rows)[i].Some?
    requires forall k | i <= k < |rows| :: RootsOf(mac, rows)[k] != Some(i)
    ensures var out := Coalesced(mac, rows);
      |out| == |rows| && !out[i].visible && out[i].cpu == 0.0 && out[i].rss == 0 && out[i].gpu == None
  {
    RootsInside(mac, rows);
    var order, roots := InOrder(|rows|), RootsOf(mac, rows);
    hide RootsOf, Scan;
    assert order == order[..i] + [i] + order[i + 1..];
    FoldedEmpty(mac, rows, roots, order[..i], i, order[i + 1..]);
  }
}
