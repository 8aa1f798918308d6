/** The propagation loop itself, over buffers of one slot per process, and the in-place compaction. */
module FilterPass {
  import opened Wrappers
  import opened FixedVec
  import Retain
  import opened FlatMap
  import opened Nest
  import opened Forest
  import opened Packed
  import opened Procs
  import opened Visibility
  import opened Filter

  /** Enqueue the seeds and their enqueued-once flags. */
  method SeedQueue(rows: seq<ProcInfo>, queue: FVec<(nat, nat)>, enqueued: FVec<bool>)
    requires queue.Valid() && enqueued.Valid()
    requires queue.Items() == [] && enqueued.Items() == []
    requires queue.slots.Length == enqueued.slots.Length == |rows|
    modifies queue, queue.slots, enqueued, enqueued.slots
    ensures queue.Valid() && enqueued.Valid()
    ensures queue.Items() == Seeds(rows, |rows|)
    ensures enqueued.Items() == Flags(rows, |rows|)
  {
    hide *;
    SeedsNone(rows);
    var i := 0;
    while i < |rows|
      invariant 0 <= i <= |rows| && queue.Valid() && enqueued.Valid()
      invariant queue.Items() == Seeds(rows, i)
      invariant enqueued.Items() == Flags(rows, i)
    {
      SeedsStep(rows, i);
      assert |queue.Items()| <= i && |enqueued.Items()| == i;
      SeedRow(i, rows[i].visible, queue, enqueued);
      i := i + 1;
    }
  }

  method SeedRow(i: nat, vis: bool, queue: FVec<(nat, nat)>, enqueued: FVec<bool>)
    requires queue.Valid() && enqueued.Valid()
    requires |queue.Items()| < queue.slots.Length && |enqueued.Items()| < enqueued.slots.Length
    modifies queue, queue.slots, enqueued, enqueued.slots
    ensures queue.Valid() && enqueued.Valid()
    ensures queue.Items() == if vis then old(queue.Items()) + [(i, i)] else old(queue.Items())
    ensures enqueued.Items() == old(enqueued.Items()) + [vis]
  {
    var _ := enqueued.Push(vis);
    if vis {
      var _ := queue.Push((i, i));
    }
  }

  method WasVisibleIn(prev: seq<(nat, Word)>, pid: nat) returns (was: bool)
    requires StrictKeys(prev)
    ensures was == WasVisible(prev, pid)
  {
    var entry := Get(prev, pid);
    was := entry.Some? && IsVisible(entry.value);
  }

  /** The traversal's state as its buffers hold it. */
  ghost predicate Running(g: Tick, procs: FVec<ProcInfo>, queue: FVec<(nat, nat)>, enqueued: FVec<bool>,
                          handled: set<nat>, done: set<nat>, busy: set<nat>)
    requires WellFormed(g)
    reads procs, procs.slots, queue, queue.slots, enqueued, enqueued.slots
  {
    && procs.Valid() && queue.Valid() && enqueued.Valid()
    && Sized(g, procs.len, enqueued.len, queue.slots.Length)
    && Traversal(g, procs.Items(), queue.Items(), enqueued.Items(), handled, done, busy)
  }

  ghost predicate Sized(g: Tick, rows: nat, flags: nat, capacity: nat) {
    rows == flags == capacity == |g.rows|
  }

  /** One child of an expanded process: threshold, reparenting, and at most one enqueue. */
  method VisitKid(kid: nat, upVisible: bool, lastPid: nat, last: nat, prev: seq<(nat, Word)>,
                  procs: FVec<ProcInfo>, queue: FVec<(nat, nat)>, enqueued: FVec<bool>)
    requires procs.Valid() && queue.Valid() && enqueued.Valid() && StrictKeys(prev)
    requires kid < procs.len == enqueued.len
    requires !enqueued.Items()[kid] ==> |queue.Items()| < queue.slots.Length
    modifies procs.slots, queue, queue.slots, enqueued.slots
    ensures procs.Valid() && queue.Valid() && enqueued.Valid()
    ensures var was := old(procs.Items());
            var row := NewRow(was[kid], WasVisible(prev, was[kid].pid), upVisible, lastPid);
            && procs.Items() == was[kid := row]
            && enqueued.Items() == old(enqueued.Items())[kid := true]
            && queue.Items() == old(queue.Items())
                              + if old(enqueued.Items())[kid] then [] else [(kid, if row.visible then kid else last)]
  {
    ghost var rows, flags := procs.Items(), enqueued.Items();
    var k := procs.slots[kid];
    assert k == rows[kid] && enqueued.slots[kid] == flags[kid];
    var wasVisible := WasVisibleIn(prev, k.pid);
    var thresh := if wasVisible then CHILD_CPU_KEEP_THRESH else CHILD_CPU_THRESH;
    if k.cpu >= thresh {
      k := k.(visible := true);
    }
    if k.visible && !upVisible {
      k := k.(ppid := lastPid);
    }
    procs.slots[kid] := k;
    var newLast := if k.visible then kid else last;
    if !enqueued.slots[kid] {
      enqueued.slots[kid] := true;
      var _ := queue.Push((kid, newLast));
    }
  }

  /** Every child of `up` in turn. */
  method ExpandKids(ghost g: Tick, up: nat, last: nat, kids: seq<nat>, prev: seq<(nat, Word)>,
                    procs: FVec<ProcInfo>, queue: FVec<(nat, nat)>, enqueued: FVec<bool>,
                    ghost handled0: set<nat>, ghost done: set<nat>) returns (ghost handled: set<nat>)
    requires WellFormed(g) && Sourced(g) && g.prev == prev && StrictKeys(prev)
    requires Running(g, procs, queue, enqueued, handled0, done, {up})
    requires up < |g.rows| && last < |g.rows| && Nearest(g, up, last) && FromSeed(g, up)
    requires procs.Items()[up].visible == Shown(g, up)
    requires forall k | k in kids :: k < |g.rows| && g.par[k] == Some(up)
    modifies procs.slots, queue, queue.slots, enqueued.slots
    ensures Running(g, procs, queue, enqueued, handled, done, {up})
    ensures forall k | k in kids :: k in handled
  {
    hide *;
    handled := handled0;
    RunningParts(g, procs, queue, enqueued, handled, done, {up});
    var upVisible := procs.slots[up].visible;
    var lastPid := procs.slots[last].pid;
    assert upVisible == Shown(g, up) && lastPid == g.rows[last].pid;
    var i := 0;
    while i < |kids|
      invariant 0 <= i <= |kids|
      invariant Running(g, procs, queue, enqueued, handled, done, {up})
      invariant forall j | 0 <= j < i :: kids[j] in handled
    {
      var kid := kids[i];
      assert kid in kids;
      RunningParts(g, procs, queue, enqueued, handled, done, {up});
      RunningPid(g, procs, queue, enqueued, handled, done, {up}, last);
      ghost var rows, q, flags := procs.Items(), queue.Items(), enqueued.Items();
      KidRoom(g, rows, q, flags, handled, done, up, kid);
      HandleKid(g, rows, q, flags, handled, done, up, last, kid);
      VisitKid(kid, upVisible, lastPid, last, prev, procs, queue, enqueued);
      handled := handled + {kid};
      i := i + 1;
      assert q + [] == q;
      RunningAgain(g, procs, queue, enqueued, handled, done, {up});
    }
  }

  lemma RunningParts(g: Tick, procs: FVec<ProcInfo>, queue: FVec<(nat, nat)>, enqueued: FVec<bool>,
                     handled: set<nat>, done: set<nat>, busy: set<nat>)
    requires WellFormed(g) && Running(g, procs, queue, enqueued, handled, done, busy)
    ensures procs.Valid() && queue.Valid() && enqueued.Valid()
    ensures procs.len == enqueued.len == queue.slots.Length == |procs.Items()| == |enqueued.Items()| == |g.rows|
    ensures procs.slots.Length >= procs.len
    ensures Traversal(g, procs.Items(), queue.Items(), enqueued.Items(), handled, done, busy)
    ensures forall i | 0 <= i < procs.len :: procs.slots[i] == procs.Items()[i] && procs.slots[i].pid == g.rows[i].pid
  {
    hide FinalRow;
    forall i | 0 <= i < procs.len ensures procs.slots[i] == procs.Items()[i] && procs.slots[i].pid == g.rows[i].pid {
      PartialPid(g, handled, i);
    }
  }

  lemma RunningPid(g: Tick, procs: FVec<ProcInfo>, queue: FVec<(nat, nat)>, enqueued: FVec<bool>,
                   handled: set<nat>, done: set<nat>, busy: set<nat>, i: nat)
    requires WellFormed(g) && Running(g, procs, queue, enqueued, handled, done, busy) && i < |g.rows|
    ensures procs.Items()[i].pid == g.rows[i].pid
  {
    hide FinalRow;
    PartialPid(g, handled, i);
  }

  lemma RunningAgain(g: Tick, procs: FVec<ProcInfo>, queue: FVec<(nat, nat)>, enqueued: FVec<bool>,
                     handled: set<nat>, done: set<nat>, busy: set<nat>)
    requires WellFormed(g) && procs.Valid() && queue.Valid() && enqueued.Valid()
    requires procs.len == enqueued.len == queue.slots.Length == |g.rows|
    requires Traversal(g, procs.Items(), queue.Items(), enqueued.Items(), handled, done, busy)
    ensures Running(g, procs, queue, enqueued, handled, done, busy)
  {
    hide Traversal;
  }

  lemma KidRoom(g: Tick, rows: seq<ProcInfo>, queue: Queue, seen: seq<bool>, handled: set<nat>, done: set<nat>,
                up: nat, kid: nat)
    requires WellFormed(g) && Traversal(g, rows, queue, seen, handled, done, {up}) && kid < |g.rows| == |seen|
    ensures !seen[kid] ==> |queue| < |seen|
  {
    hide Rows, Handled, Seen, Entries, Accounted, Closed;
    if !seen[kid] {
      QueueRoom(g, queue, seen, done, {up}, kid);
    }
  }

  /** Traverse from the seeds until nothing is waiting. Terminates on every ppid graph: each pop
      expands a process that was never expanded before. */
  method Propagate(ghost g: Tick, nest: FNest<nat>, prev: seq<(nat, Word)>, procs: FVec<ProcInfo>)
    requires WellFormed(g) && Sourced(g) && g.prev == prev && StrictKeys(prev)
    requires HoldsKids(nest, g.par)
    requires procs.Valid() && procs.Items() == g.rows
    modifies procs.slots
    ensures procs.Valid() && |procs.Items()| == |g.rows|
    ensures forall i | 0 <= i < |g.rows| :: procs.Items()[i] == FinalRow(g, i)
  {
    var queue := new FVec<(nat, nat)>(procs.len);
    var enqueued := new FVec<bool>(procs.len);
    hide *;
    SeedQueue(procs.slots[..procs.len], queue, enqueued);
    StartRunning(g, procs, queue, enqueued);
    Drain(g, nest, prev, procs, queue, enqueued);
  }

  /** The traversal loop. */
  method Drain(ghost g: Tick, nest: FNest<nat>, prev: seq<(nat, Word)>, procs: FVec<ProcInfo>,
               queue: FVec<(nat, nat)>, enqueued: FVec<bool>)
    requires WellFormed(g) && Sourced(g) && g.prev == prev && StrictKeys(prev)
    requires HoldsKids(nest, g.par)
    requires Running(g, procs, queue, enqueued, {}, {}, {})
    modifies procs.slots, queue, queue.slots, enqueued.slots
    ensures procs.Valid() && |procs.Items()| == |g.rows|
    ensures forall i | 0 <= i < |g.rows| :: procs.Items()[i] == FinalRow(g, i)
  {
    hide *;
    ghost var handled, done: set<nat> := {}, {};
    while true
      invariant Running(g, procs, queue, enqueued, handled, done, {})
      decreases |g.rows| - |done|
    {
      RunningParts(g, procs, queue, enqueued, handled, done, {});
      DoneWithin(g, procs, queue, enqueued, handled, done);
      ghost var rows, flags := procs.Items(), enqueued.Items();
      var next := queue.Pop();
      if next.None? {
        TraversalEnd(g, rows, flags, handled, done);
        return;
      }
      var i, lastVis := next.value.0, next.value.1;
      TraversalPop(g, rows, queue.Items(), next.value, flags, handled, done);
      RunningAgain(g, procs, queue, enqueued, handled, done, {i});
      KidsOf(nest, g, i);
      handled := ExpandKids(g, i, lastVis, nest.Bucket(i), prev, procs, queue, enqueued, handled, done);
      RunningDone(g, procs, queue, enqueued, handled, done, i);
      done := done + {i};
    }
  }

  lemma RunningDone(g: Tick, procs: FVec<ProcInfo>, queue: FVec<(nat, nat)>, enqueued: FVec<bool>,
                    handled: set<nat>, done: set<nat>, up: nat)
    requires WellFormed(g) && Running(g, procs, queue, enqueued, handled, done, {up})
    requires forall i | 0 <= i < |g.par| && g.par[i] == Some(up) :: i in handled
    ensures Running(g, procs, queue, enqueued, handled, done + {up}, {})
  {
    hide Traversal;
    TraversalDone(g, procs.Items(), queue.Items(), enqueued.Items(), handled, done, up);
  }

  lemma StartRunning(g: Tick, procs: FVec<ProcInfo>, queue: FVec<(nat, nat)>, enqueued: FVec<bool>)
    requires WellFormed(g) && procs.Valid() && queue.Valid() && enqueued.Valid()
    requires procs.Items() == g.rows && queue.slots.Length == procs.len
    requires queue.Items() == Seeds(g.rows, |g.rows|) && enqueued.Items() == Flags(g.rows, |g.rows|)
    ensures Running(g, procs, queue, enqueued, {}, {}, {})
  {
    TraversalStart(g);
    hide Traversal, Seeds, Flags;
    assert |enqueued.Items()| == |g.rows|;
    RunningAgain(g, procs, queue, enqueued, {}, {}, {});
  }

  lemma DoneWithin(g: Tick, procs: FVec<ProcInfo>, queue: FVec<(nat, nat)>, enqueued: FVec<bool>,
                   handled: set<nat>, done: set<nat>)
    requires WellFormed(g) && Running(g, procs, queue, enqueued, handled, done, {})
    ensures |done| <= |g.rows|
  {
    hide Rows, Handled, Seen, Entries, Accounted, Closed;
    DoneBound(queue.Items(), enqueued.Items(), done, {});
  }

  lemma KidsOf(nest: FNest<nat>, g: Tick, i: nat)
    requires WellFormed(g) && HoldsKids(nest, g.par) && i < |g.rows|
    ensures nest.Valid() && i < |nest.offsets| - 1
    ensures forall k | k in nest.Bucket(i) :: k < |g.rows| && g.par[k] == Some(i)
    ensures forall k | 0 <= k < |g.par| && g.par[k] == Some(i) :: k in nest.Bucket(i)
  {
    KidsExact(g.par, i);
  }

  // ── Compaction ──

  ghost function KeepVisible(rows: seq<ProcInfo>): seq<ProcInfo> {
    if rows == [] then []
    else
      var last := rows[|rows| - 1];
      KeepVisible(rows[..|rows| - 1]) + if last.visible then [last] else []
  }

  /** The survivors' entries carry the visible bit into the next tick; nothing else changes. */
  ghost function Marked(rows: seq<ProcInfo>, next: seq<(nat, Word)>): (m: seq<(nat, Word)>)
    requires |rows| == |next|
    ensures |m| == |next|
    ensures forall i | 0 <= i < |m| :: m[i] == (next[i].0, if rows[i].visible then SetVisible(next[i].1) else next[i].1)
  {
    seq(|next|, i requires 0 <= i < |next| =>
      (next[i].0, if rows[i].visible then SetVisible(next[i].1) else next[i].1))
  }

  lemma KeepStep(rows: seq<ProcInfo>, r: nat)
    requires r < |rows|
    ensures KeepVisible(rows[..r + 1]) == KeepVisible(rows[..r]) + if rows[r].visible then [rows[r]] else []
  {
    assert rows[..r + 1][..r] == rows[..r];
  }

  /** The closure of the pass: it counts the rows it meets and marks the entries of those it keeps. */
  function MarkRow(s: (int, seq<(nat, Word)>), p: ProcInfo): ((int, seq<(nat, Word)>), ProcInfo, bool) {
    var (i, next) := s;
    ((i + 1, if p.visible && 0 <= i < |next| then next[i := (next[i].0, SetVisible(next[i].1))] else next),
     p, p.visible)
  }

  /** The general pass with that closure keeps the visible rows and marks exactly their entries. */
  lemma {:induction false} MarkRowMarks(rows: seq<ProcInfo>, entries: seq<(nat, Word)>)
    requires |rows| <= |entries|
    ensures var o := Retain.Retained(MarkRow, (0, entries), rows);
      && o.kept == KeepVisible(rows) && o.state.0 == |rows|
      && o.state.1 == Marked(rows, entries[..|rows|]) + entries[|rows|..]
  {
    if rows != [] {
      var n := |rows| - 1;
      MarkRowMarks(rows[..n], entries);
      MarkedOne(rows, entries, n);
      hide SetVisible, Marked;
    }
  }

  lemma MarkedOne(rows: seq<ProcInfo>, entries: seq<(nat, Word)>, n: nat)
    requires n == |rows| - 1 && |rows| <= |entries|
    ensures var next := Marked(rows[..n], entries[..n]) + entries[n..];
      (if rows[n].visible then next[n := (next[n].0, SetVisible(next[n].1))] else next)
        == Marked(rows, entries[..n + 1]) + entries[n + 1..]
  {
    hide SetVisible;
  }

  /** `retain_in_place` with the tick's closure, whose state is the row number and the parallel buffer: keep the
      visible rows in order, and mark exactly the survivors' entries. */
  method RetainVisible(procs: FVec<ProcInfo>, next: FVec<(nat, Word)>)
    requires procs.Valid() && next.Valid() && procs.len == next.len
    modifies procs, procs.slots, next.slots
    ensures procs.Valid() && next.Valid()
    ensures procs.Items() == KeepVisible(old(procs.Items()))
    ensures next.Items() == Marked(old(procs.Items()), old(next.Items()))
  {
    ghost var rows, entries := procs.Items(), next.Items();
    MarkRowMarks(rows, entries);
    hide *;
    var state, gone;
    ghost var live;
    state, gone, live := procs.RetainInPlace(MarkRow, (0, next.slots[..next.len]));
    WriteBack(next, state.1);
  }

  /** The closure's buffer, as it left it. */
  method WriteBack(next: FVec<(nat, Word)>, entries: seq<(nat, Word)>)
    requires next.Valid() && |entries| == next.len
    modifies next.slots
    ensures next.Valid() && next.Items() == entries
  {
    forall i | 0 <= i < next.len {
      next.slots[i] := entries[i];
    }
  }
}
