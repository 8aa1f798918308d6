/**
 A tick from rows to display: coalesce, propagate, compact, sort by pid, lay out. Each visible
 process is shown once, under its nearest visible ancestor.
 */
module Pipeline {
  import opened Wrappers
  import opened FixedVec
  import opened Sort
  import opened FlatMap
  import opened Forest
  import opened Layout
  import opened LayoutOrder
  import opened Packed
  import opened Procs
  import opened Sequences
  import opened Visibility
  import opened Filter
  import opened FilterPass
  import opened Coalesce
  import opened CoalescePass
  import opened TreeLayout

  /** The tick a scan's rows and last tick's frozen map make. */
  ghost function TickOf(mac: bool, rows: seq<ProcInfo>, prev: seq<(nat, Word)>): Tick {
    Tick(Coalesced(mac, rows), ParentsOf(rows), prev)
  }

  ghost function Finals(g: Tick): (fin: seq<ProcInfo>)
    requires WellFormed(g)
    ensures |fin| == |g.rows|
    ensures forall i | 0 <= i < |fin| :: fin[i] == FinalRow(g, i)
  {
    seq(|g.rows|, i requires 0 <= i < |g.rows| => FinalRow(g, i))
  }

  lemma TickSourced(mac: bool, rows: seq<ProcInfo>, prev: seq<(nat, Word)>)
    requires DistinctPids(rows) && SameLinks(rows, Coalesced(mac, rows))
    ensures var g := TickOf(mac, rows, prev);
      WellFormed(g) && Sourced(g) && DistinctPids(g.rows)
  {
    hide Coalesced;
    LinkParents(rows, Coalesced(mac, rows));
  }

  /** Keep the seeds and their active descendants, hang each under its nearest kept ancestor, and
      record in `next` which rows were kept. */
  method FilterWithChildren(mac: bool, procs: FVec<ProcInfo>, prev: seq<(nat, Word)>, next: FVec<(nat, Word)>)
    requires procs.Valid() && next.Valid() && procs.len == next.len
    requires DistinctPids(procs.Items()) && StrictKeys(prev)
    modifies procs, procs.slots, next.slots
    ensures procs.Valid() && next.Valid()
    ensures var g := TickOf(mac, old(procs.Items()), prev);
      && WellFormed(g) && Sourced(g) && DistinctPids(g.rows) && |g.rows| == |old(procs.Items())|
      && SameLinks(old(procs.Items()), g.rows)
      && procs.Items() == KeepVisible(Finals(g))
      && next.Items() == Marked(Finals(g), old(next.Items()))
  {
    ghost var rows := procs.Items();
    ghost var g := TickOf(mac, rows, prev);
    hide Coalesced, FinalRow, Indexes, HoldsKids, DistinctPids, Sourced;
    var m := BuildPidToIdx(procs.slots[..procs.len]);
    var children := BuildChildren(procs.slots[..procs.len], m);
    CoalesceHelpers(mac, procs, m);
    TickSourced(mac, rows, prev);
    Propagate(g, children, prev, procs);
    assert procs.Items() == Finals(g);
    RetainVisible(procs, next);
  }

  /** Propagation cannot resurface a folded row, whatever the thresholds, as long as it keeps nothing: emptied, with
      no row at or after it folding into it, it is no seed and below every threshold. */
  lemma FoldedStaysHidden(mac: bool, rows: seq<ProcInfo>, prev: seq<(nat, Word)>, i: nat)
    requires DistinctPids(rows) && i < |rows| && RootsOf(mac, rows)[i].Some?
    requires forall k | i <= k < |rows| :: RootsOf(mac, rows)[k] != Some(i)
    ensures var g := TickOf(mac, rows, prev);
      WellFormed(g) && !Shown(g, i)
  {
    CoalescedEmpty(mac, rows, i);
    hide RootsOf, Coalesced, FromSeed, WasVisible;
  }

  /** Where no target is folded itself, no folded row is shown. */
  lemma FoldedAllHidden(mac: bool, rows: seq<ProcInfo>, prev: seq<(nat, Word)>)
    requires DistinctPids(rows) && TargetsStand(RootsOf(mac, rows))
    ensures var g := TickOf(mac, rows, prev);
      WellFormed(g) && forall i | 0 <= i < |rows| && RootsOf(mac, rows)[i].Some? :: !Shown(g, i)
  {
    forall i | 0 <= i < |rows| && RootsOf(mac, rows)[i].Some? ensures !Shown(TickOf(mac, rows, prev), i) {
      FoldedStaysHidden(mac, rows, prev, i);
    }
  }

  // ── The rows that reach the display ──

  lemma {:induction false} KeptRows(g: Tick, fin: seq<ProcInfo>, n: nat, row: ProcInfo)
    requires WellFormed(g) && n <= |g.rows| && fin == Finals(g)
    ensures row in KeepVisible(fin[..n]) <==> exists i :: 0 <= i < n && Shown(g, i) && row == FinalRow(g, i)
    decreases n
  {
    if n > 0 {
      KeptRows(g, fin, n - 1, row);
      KeepStep(fin, n - 1);
      FinalVisible(g, n - 1);
      hide FinalRow, Shown, KeepVisible;
      assert fin[n - 1] == FinalRow(g, n - 1);
      if exists i :: 0 <= i < n - 1 && Shown(g, i) && row == FinalRow(g, i) {
        var i :| 0 <= i < n - 1 && Shown(g, i) && row == FinalRow(g, i);
        assert 0 <= i < n;
      }
    }
  }

  lemma FinalPid(g: Tick, i: nat)
    requires WellFormed(g) && i < |g.rows|
    ensures FinalRow(g, i).pid == g.rows[i].pid
  {
  }

  lemma {:induction false} KeptDistinct(g: Tick, fin: seq<ProcInfo>, n: nat)
    requires WellFormed(g) && DistinctPids(g.rows) && n <= |g.rows| && fin == Finals(g)
    ensures DistinctPids(KeepVisible(fin[..n]))
    decreases n
  {
    if n > 0 {
      KeptDistinct(g, fin, n - 1);
      KeepStep(fin, n - 1);
      hide KeepVisible, FinalRow;
      var front := KeepVisible(fin[..n - 1]);
      forall k | 0 <= k < |front| ensures front[k].pid != fin[n - 1].pid {
        KeptRows(g, fin, n - 1, front[k]);
        var i :| 0 <= i < n - 1 && Shown(g, i) && front[k] == FinalRow(g, i);
        FinalPid(g, i);
        FinalPid(g, n - 1);
      }
    }
  }

  function Pid(p: ProcInfo): int {
    p.pid
  }

  /** `shown` is what the display is laid out from: the kept rows in any order. */
  ghost predicate Kept(g: Tick, shown: seq<ProcInfo>)
    requires WellFormed(g)
  {
    multiset(shown) == multiset(KeepVisible(Finals(g)))
  }

  lemma KeptMembers(g: Tick, shown: seq<ProcInfo>, row: ProcInfo)
    requires WellFormed(g) && Kept(g, shown)
    ensures row in shown <==> exists i :: 0 <= i < |g.rows| && Shown(g, i) && row == FinalRow(g, i)
  {
    var fin := Finals(g);
    assert fin[..|fin|] == fin;
    KeptRows(g, fin, |fin|, row);
    assert row in shown <==> row in multiset(shown);
    assert row in KeepVisible(fin) <==> row in multiset(KeepVisible(fin));
  }

  lemma ShownDistinct(g: Tick, shown: seq<ProcInfo>)
    requires WellFormed(g) && DistinctPids(g.rows) && Kept(g, shown)
    ensures DistinctPids(shown)
  {
    var fin := Finals(g);
    assert fin[..|fin|] == fin;
    KeptDistinct(g, fin, |fin|);
    hide KeepVisible;
    var kept := KeepVisible(fin);
    assert DistinctBy(kept, Pid);
    DistinctAnyOrder(kept, shown, Pid);
    assert forall i, j | 0 <= i < j < |shown| :: Pid(shown[i]) != Pid(shown[j]);
  }

  /** Row `s` of the display input is process `i` of the tick. */
  ghost predicate Shows(g: Tick, shown: seq<ProcInfo>, s: nat, i: nat)
    requires WellFormed(g)
  {
    s < |shown| && i < |g.rows| && Shown(g, i) && shown[s] == FinalRow(g, i)
  }

  lemma ShowsSome(g: Tick, shown: seq<ProcInfo>, i: nat) returns (s: nat)
    requires WellFormed(g) && Kept(g, shown) && i < |g.rows| && Shown(g, i)
    ensures Shows(g, shown, s, i)
  {
    KeptMembers(g, shown, FinalRow(g, i));
    s :| 0 <= s < |shown| && shown[s] == FinalRow(g, i);
  }

  lemma ShowsWhich(g: Tick, shown: seq<ProcInfo>, s: nat) returns (i: nat)
    requires WellFormed(g) && Kept(g, shown) && s < |shown|
    ensures Shows(g, shown, s, i)
  {
    KeptMembers(g, shown, shown[s]);
    i :| 0 <= i < |g.rows| && Shown(g, i) && shown[s] == FinalRow(g, i);
  }

  /** A pid is on display exactly when its process is shown. */
  lemma DisplayedPid(g: Tick, shown: seq<ProcInfo>, p: nat)
    requires WellFormed(g) && DistinctPids(g.rows) && Kept(g, shown) && p < |g.rows|
    ensures var at := IndexOf(shown, g.rows[p].pid);
      if Shown(g, p) then at.Some? && Shows(g, shown, at.value, p) else at.None?
  {
    hide Shown, FinalRow, Kept;
    var at := IndexOf(shown, g.rows[p].pid);
    if at.Some? {
      var i := ShowsWhich(g, shown, at.value);
      FinalPid(g, i);
    } else if Shown(g, p) {
      var s := ShowsSome(g, shown, p);
      FinalPid(g, p);
    }
  }

  lemma UntrackedPid(g: Tick, shown: seq<ProcInfo>, pid: nat)
    requires WellFormed(g) && Kept(g, shown) && IndexOf(g.rows, pid).None?
    ensures IndexOf(shown, pid).None?
  {
    hide Shown, FinalRow, Kept;
    var at := IndexOf(shown, pid);
    if at.Some? {
      var i := ShowsWhich(g, shown, at.value);
      FinalPid(g, i);
    }
  }

  /** On display a process hangs under its nearest shown ancestor in the original chain, and is a
      root when it has none. */
  lemma DisplayParent(g: Tick, shown: seq<ProcInfo>, s: nat, i: nat)
    requires WellFormed(g) && Sourced(g) && DistinctPids(g.rows) && Kept(g, shown) && Shows(g, shown, s, i)
    ensures var up := ParentsOf(shown)[s];
      if Above(g, i).Some? then up.Some? && Shows(g, shown, up.value, Above(g, i).value) else up.None?
  {
    var above := Above(g, i);
    if above.Some? {
      DisplayedPid(g, shown, above.value);
    } else if g.par[i].None? {
      UntrackedPid(g, shown, g.rows[i].ppid);
    } else {
      var p := g.par[i].value;
      assert ShownAbove(g, i, p) <==> Nearest(g, p, p);
      if Shown(g, p) {
        NearestSelf(g, p);
      }
      DisplayedPid(g, shown, p);
    }
  }

  lemma {:induction false} NearestLower(g: Tick, i: nat, k: nat, a: nat)
    requires WellFormed(g) && NearestUp(g, i, k, a) && Rooted(g.par, i)
    ensures Rooted(g.par, a) && Level(g.par, a) <= Level(g.par, i)
    decreases k
  {
    hide Shown;
    if k > 0 {
      LevelStep(g.par, i);
      NearestLower(g, g.par[i].value, k - 1, a);
    }
  }

  lemma AboveLower(g: Tick, i: nat)
    requires WellFormed(g) && i < |g.rows| && Rooted(g.par, i) && Above(g, i).Some?
    ensures Rooted(g.par, Above(g, i).value) && Level(g.par, Above(g, i).value) < Level(g.par, i)
  {
    var a := Above(g, i).value;
    LevelStep(g.par, i);
    var k: nat :| NearestUp(g, g.par[i].value, k, a);
    NearestLower(g, g.par[i].value, k, a);
  }

  /** A shown process whose original chain leaves the tracked set has a display chain that does too. */
  lemma {:induction false} DisplayRooted(g: Tick, shown: seq<ProcInfo>, s: nat, i: nat)
    requires WellFormed(g) && Sourced(g) && DistinctPids(g.rows) && Kept(g, shown) && Shows(g, shown, s, i)
    requires Rooted(g.par, i)
    ensures Rooted(ParentsOf(shown), s)
    decreases Level(g.par, i)
  {
    hide Shows, Kept, Sourced;
    assert s < |shown| && i < |g.rows| by {
      ShowsInside(g, shown, s, i);
    }
    DisplayParent(g, shown, s, i);
    LevelStep(ParentsOf(shown), s);
    if Above(g, i).Some? {
      AboveLower(g, i);
      DisplayRooted(g, shown, ParentsOf(shown)[s].value, Above(g, i).value);
    }
  }

  lemma ShowsInside(g: Tick, shown: seq<ProcInfo>, s: nat, i: nat)
    requires WellFormed(g) && Shows(g, shown, s, i)
    ensures s < |shown| && i < |g.rows| && Shown(g, i)
  {
  }

  /** End to end: with distinct pids and acyclic ppids every shown process has exactly one row, no
      other process has one, and a row's parent row is that of its nearest shown ancestor. */
  lemma DisplayComplete(g: Tick, shown: seq<ProcInfo>)
    requires WellFormed(g) && Sourced(g) && DistinctPids(g.rows) && Kept(g, shown)
    requires forall i | 0 <= i < |g.rows| :: Rooted(g.par, i)
    ensures Distinct(Display(ParentsOf(shown))) && |Display(ParentsOf(shown))| == |shown|
    ensures forall s | 0 <= s < |shown| :: HasRow(Display(ParentsOf(shown)), s)
    ensures forall i | 0 <= i < |g.rows| && Shown(g, i) :: OnDisplay(g, shown, i)
    ensures forall s | 0 <= s < |shown| :: PlacedRight(g, shown, s)
  {
    var par := ParentsOf(shown);
    forall s | 0 <= s < |shown| ensures HasRow(Display(par), s) && PlacedRight(g, shown, s) {
      var i := ShowsWhich(g, shown, s);
      DisplayRooted(g, shown, s, i);
      DisplayMembers(par, s);
      DisplayParent(g, shown, s, i);
    }
    forall i | 0 <= i < |g.rows| && Shown(g, i) ensures OnDisplay(g, shown, i) {
      var s := ShowsSome(g, shown, i);
    }
    DisplayMembers(par, 0);
    DisplayFits(par);
    hide Display, Shown, Kept, Sourced;
    RowsForAll(Display(par), |shown|);
  }

  ghost predicate OnDisplay(g: Tick, shown: seq<ProcInfo>, i: nat)
    requires WellFormed(g)
  {
    exists s: nat :: Shows(g, shown, s, i)
  }

  /** Row `s` is a process whose display parent is its nearest shown ancestor. */
  ghost predicate PlacedRight(g: Tick, shown: seq<ProcInfo>, s: nat)
    requires WellFormed(g) && s < |shown|
  {
    exists i: nat :: Shows(g, shown, s, i)
      && var up := ParentsOf(shown)[s];
         if Above(g, i).Some? then up.Some? && Shows(g, shown, up.value, Above(g, i).value) else up.None?
  }

  lemma RowsForAll(rows: Rows, n: nat)
    requires Distinct(rows) && |rows| <= n && forall s | 0 <= s < n :: HasRow(rows, s)
    ensures |rows| == n
  {
    var s := RowSet(rows);
    var all := Range(n);
    forall i | i in all ensures i in s {
      InRowSet(rows, i);
    }
    assert all <= s;
    SetLessEq(all, s);
  }

  ghost function Range(n: nat): (s: set<nat>)
    ensures |s| == n
    ensures forall i | i in s :: i < n
  {
    if n == 0 then {} else Range(n - 1) + {n - 1}
  }

  lemma {:induction false} InRowSet(rows: Rows, i: nat)
    requires Distinct(rows) && HasRow(rows, i)
    ensures i in RowSet(rows)
    decreases |rows|
  {
    var front := rows[..|rows| - 1];
    if rows[|rows| - 1].1 != i {
      var k :| 0 <= k < |rows| && rows[k].1 == i;
      assert front[k].1 == i;
      InRowSet(front, i);
    }
  }

  lemma {:induction false} SetLessEq(a: set<nat>, b: set<nat>)
    requires a <= b
    ensures |a| <= |b|
    decreases |a|
  {
    if a != {} {
      var x :| x in a;
      SetLessEq(a - {x}, b - {x});
    }
  }

  /** Sorted by pid, siblings stand on display in pid order. */
  lemma SiblingsByPid(shown: seq<ProcInfo>, k: nat, l: nat)
    requires Sorted(shown, Pid)
    requires var rows := Display(ParentsOf(shown));
      && k < |rows| && l < |rows| && rows[k].1 < |shown| && rows[l].1 < |shown|
      && ParentsOf(shown)[rows[k].1] == ParentsOf(shown)[rows[l].1]
      && shown[rows[k].1].pid < shown[rows[l].1].pid
    ensures k < l
  {
    hide Display;
    var i, j := Display(ParentsOf(shown))[k].1, Display(ParentsOf(shown))[l].1;
    assert j < i ==> Pid(shown[j]) <= Pid(shown[i]);
    SiblingsInOrder(ParentsOf(shown), k, l);
  }

  /** A tick's display rows, laid out from the kept rows sorted by pid. */
  method DisplayTick(mac: bool, procs: FVec<ProcInfo>, prev: seq<(nat, Word)>, next: FVec<(nat, Word)>)
    returns (tree: seq<(Indent, nat)>)
    requires procs.Valid() && next.Valid() && procs.len == next.len
    requires DistinctPids(procs.Items()) && StrictKeys(prev)
    modifies procs, procs.slots, next.slots
    ensures procs.Valid() && next.Valid()
    ensures var g := TickOf(mac, old(procs.Items()), prev);
      && WellFormed(g) && Sourced(g) && DistinctPids(g.rows) && |g.rows| == |old(procs.Items())|
      && SameLinks(old(procs.Items()), g.rows)
      && Kept(g, procs.Items()) && Sorted(procs.Items(), Pid)
      && next.Items() == Marked(Finals(g), old(next.Items()))
    ensures tree == Display(ParentsOf(procs.Items()))
  {
    ghost var g := TickOf(mac, procs.Items(), prev);
    FilterWithChildren(mac, procs, prev, next);
    ghost var kept := procs.Items();
    hide *;
    SortByKey(procs.slots, procs.len, Pid);
    SortedKept(g, kept, procs.slots[..procs.len]);
    tree := LayoutTree(procs.slots[..procs.len]);
  }

  lemma SortedKept(g: Tick, kept: seq<ProcInfo>, sorted: seq<ProcInfo>)
    requires WellFormed(g) && DistinctPids(g.rows) && kept == KeepVisible(Finals(g))
    requires multiset(sorted) == multiset(kept)
    ensures Kept(g, sorted) && DistinctPids(sorted)
  {
    ShownDistinct(g, sorted);
  }
}
