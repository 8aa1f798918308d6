/**
 From tick to tick: the survivors' visible bits, sorted and frozen, are the next tick's memory, and
 a process near the threshold stays on screen once it has been shown.
 */
module Hysteresis {
  import opened FixedVec
  import opened Pairs
  import opened Sort
  import opened FlatMap
  import opened Packed
  import opened Procs
  import opened Visibility
  import opened Filter
  import opened FilterPass
  import opened Pipeline

  /** This tick's fresh entries: one per row, in lockstep, none marked yet. */
  ghost predicate Fresh(g: Tick, next: seq<(nat, Word)>) {
    && |next| == |g.rows|
    && forall i | 0 <= i < |next| :: next[i].0 == g.rows[i].pid && !IsVisible(next[i].1)
  }

  /** `prev` is what the tick leaves behind: its marked entries, sorted by pid. */
  ghost predicate Leaves(g: Tick, prev: seq<(nat, Word)>)
    requires WellFormed(g)
  {
    exists next :: Fresh(g, next) && Sorted(prev, Key) && multiset(prev) == multiset(Marked(Finals(g), next))
  }

  /** Sort the entries in place; with distinct pids that alone makes the next tick's map. */
  method FreezeNext(ghost g: Tick, next: FVec<(nat, Word)>, ghost before: seq<(nat, Word)>)
    returns (prev: seq<(nat, Word)>)
    requires WellFormed(g) && DistinctPids(g.rows) && Fresh(g, before)
    requires next.Valid() && next.Items() == Marked(Finals(g), before)
    modifies next.slots
    ensures Leaves(g, prev) && StrictKeys(prev)
  {
    hide Marked, FinalRow;
    SortByKey(next.slots, next.len, Key);
    prev := next.slots[..next.len];
    MarkedDistinct(g, before);
    SortedStrict(Marked(Finals(g), before), prev);
  }

  lemma MarkedDistinct(g: Tick, next: seq<(nat, Word)>)
    requires WellFormed(g) && DistinctPids(g.rows) && Fresh(g, next)
    ensures DistinctKeys(Marked(Finals(g), next))
  {
    hide FinalRow;
  }

  lemma SortedStrict<V(!new)>(s: seq<(nat, V)>, t: seq<(nat, V)>)
    requires DistinctKeys(s) && multiset(s) == multiset(t) && Sorted(t, Key)
    ensures StrictKeys(t)
  {
    DistinctKeysAnyOrder(s, t);
    forall i, j | 0 <= i < j < |t| ensures t[i].0 < t[j].0 {
      assert Key(t[i]) <= Key(t[j]);
    }
  }

  /** The memory answers exactly for the processes shown in the tick that left it. */
  lemma LeavesVisible(g: Tick, prev: seq<(nat, Word)>, pid: nat)
    requires WellFormed(g) && DistinctPids(g.rows) && Leaves(g, prev)
    ensures StrictKeys(prev)
    ensures WasVisible(prev, pid) <==> ShownPid(g, pid)
  {
    hide FinalRow, Shown, Lookup;
    var next :| Fresh(g, next) && Sorted(prev, Key) && multiset(prev) == multiset(Marked(Finals(g), next));
    var marked := Marked(Finals(g), next);
    MarkedDistinct(g, next);
    SortedStrict(marked, prev);
    var at := IndexOf(g.rows, pid);
    if at.Some? {
      var i := at.value;
      FinalVisible(g, i);
      assert marked[i] in multiset(prev);
      var k :| 0 <= k < |prev| && prev[k] == marked[i];
      LookupAt(prev, k);
      assert IsVisible(marked[i].1) <==> Shown(g, i);
      if ShownPid(g, pid) {
        var j :| 0 <= j < |g.rows| && g.rows[j].pid == pid && Shown(g, j);
        IndexOfPid(g.rows, j);
      }
    } else {
      forall k | 0 <= k < |prev| ensures prev[k].0 != pid {
        assert prev[k] in multiset(marked);
        var i :| 0 <= i < |marked| && marked[i] == prev[k];
      }
      LookupMissing(prev, pid);
    }
  }

  ghost predicate ShownPid(g: Tick, pid: nat)
    requires WellFormed(g)
  {
    exists i :: 0 <= i < |g.rows| && g.rows[i].pid == pid && Shown(g, i)
  }

  // ── Whole runs ──

  /** Ticks one after another: the first remembers nothing, each other what its predecessor left. */
  ghost predicate Run(ticks: seq<Tick>) {
    && (forall t | 0 <= t < |ticks| :: WellFormed(ticks[t]) && DistinctPids(ticks[t].rows))
    && (ticks != [] ==> ticks[0].prev == [])
    && forall t | 0 < t < |ticks| :: Leaves(ticks[t - 1], ticks[t].prev)
  }

  /** At tick `g` process `pid` is a proper descendant of a seed with at least `cpu` percent. */
  ghost predicate BusyBelowSeed(g: Tick, pid: nat, cpu: real)
    requires WellFormed(g)
  {
    exists i :: 0 <= i < |g.rows| && g.rows[i].pid == pid && g.rows[i].cpu >= cpu
      && g.par[i].Some? && FromSeed(g, g.par[i].value)
  }

  ghost predicate Seeded(g: Tick, pid: nat) {
    exists i :: 0 <= i < |g.rows| && g.rows[i].pid == pid && g.rows[i].visible
  }

  lemma ShownByThreshold(g: Tick, pid: nat)
    requires WellFormed(g) && DistinctPids(g.rows) && !Seeded(g, pid)
    ensures ShownPid(g, pid) <==>
      BusyBelowSeed(g, pid, if WasVisible(g.prev, pid) then 0.3 else 1.0)
  {
    hide FromSeed, WasVisible;
  }

  lemma Empty(pid: nat)
    ensures !WasVisible([], pid)
  {
  }

  /** Shown at tick `t`: busy enough to appear at some tick, and busy enough to stay at every one since. */
  ghost predicate Latched(ticks: seq<Tick>, t: nat, pid: nat)
    requires Run(ticks) && t < |ticks|
  {
    exists s :: 0 <= s <= t && Since(ticks, s, t, pid)
  }

  ghost predicate Since(ticks: seq<Tick>, s: nat, t: nat, pid: nat)
    requires Run(ticks) && s <= t < |ticks|
  {
    && BusyBelowSeed(ticks[s], pid, 1.0)
    && forall u | s < u <= t :: BusyBelowSeed(ticks[u], pid, 0.3)
  }

  lemma LatchStep(ticks: seq<Tick>, t: nat, pid: nat)
    requires Run(ticks) && 0 < t < |ticks|
    ensures Latched(ticks, t, pid) <==>
      BusyBelowSeed(ticks[t], pid, 1.0)
      || (BusyBelowSeed(ticks[t], pid, 0.3) && Latched(ticks, t - 1, pid))
  {
    hide BusyBelowSeed, Leaves;
    if BusyBelowSeed(ticks[t], pid, 1.0) {
      assert Since(ticks, t, t, pid);
    }
    if Latched(ticks, t, pid) {
      var s :| 0 <= s <= t && Since(ticks, s, t, pid);
      if s < t {
        assert Since(ticks, s, t - 1, pid);
      }
    }
    if BusyBelowSeed(ticks[t], pid, 0.3) && Latched(ticks, t - 1, pid) {
      var s :| 0 <= s <= t - 1 && Since(ticks, s, t - 1, pid);
      assert Since(ticks, s, t, pid);
    }
  }

  lemma Weaker(g: Tick, pid: nat)
    requires WellFormed(g) && BusyBelowSeed(g, pid, 1.0)
    ensures BusyBelowSeed(g, pid, 0.3)
  {
    hide FromSeed;
  }

  /** Over any run, a process that never qualifies by itself is on screen at a tick exactly when it
      reached 1.0% below a seed at some tick and has held 0.3% below a seed at every tick since. */
  lemma {:induction false} ShownOverRun(ticks: seq<Tick>, t: nat, pid: nat)
    requires Run(ticks) && t < |ticks|
    requires forall u | 0 <= u <= t :: !Seeded(ticks[u], pid)
    ensures ShownPid(ticks[t], pid) <==> Latched(ticks, t, pid)
    decreases t
  {
    hide ShownPid, BusyBelowSeed, WasVisible, Seeded, Leaves;
    ShownByThreshold(ticks[t], pid);
    if t == 0 {
      Empty(pid);
      assert Latched(ticks, 0, pid) <==> Since(ticks, 0, 0, pid);
    } else {
      LeavesVisible(ticks[t - 1], ticks[t].prev, pid);
      ShownOverRun(ticks, t - 1, pid);
      LatchStep(ticks, t, pid);
      if BusyBelowSeed(ticks[t], pid, 1.0) {
        Weaker(ticks[t], pid);
      }
    }
  }
}
