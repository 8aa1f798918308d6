/**
 What a traversal from the seeds over a bounded queue keeps, step by step: which rows are final, who waits, and
 that there is room.
 */
module Filter {
  import opened Wrappers
  import opened Forest
  import opened Pairs
  import opened Procs
  import opened Sequences
  import opened Visibility

  type Queue = seq<(nat, nat)>

  /** The tick's parents are those of its rows. */
  ghost predicate Sourced(g: Tick) {
    g.par == ParentsOf(g.rows)
  }

  /** Rows whose parent has been expanded are final, the others untouched. */
  ghost function Partial(g: Tick, handled: set<nat>, i: nat): ProcInfo
    requires WellFormed(g) && i < |g.rows|
  {
    if i in handled then FinalRow(g, i) else g.rows[i]
  }

  ghost predicate Rows(g: Tick, rows: seq<ProcInfo>, handled: set<nat>)
    requires WellFormed(g)
  {
    && |rows| == |g.rows|
    && forall i | 0 <= i < |rows| :: rows[i] == Partial(g, handled, i)
  }

  ghost predicate Handled(g: Tick, handled: set<nat>)
    requires WellFormed(g)
  {
    forall i | i in handled :: i < |g.rows| && g.par[i].Some? && FromSeed(g, g.par[i].value)
  }

  /** A process has been enqueued exactly when it is a seed or its parent has reached it. */
  ghost predicate Seen(g: Tick, seen: seq<bool>, handled: set<nat>) {
    && |seen| == |g.rows|
    && forall i | 0 <= i < |seen| :: seen[i] <==> (g.rows[i].visible || i in handled)
  }

  /** A queue entry carries the nearest shown process at or above it. */
  ghost predicate Entry(g: Tick, seen: seq<bool>, q: (nat, nat))
    requires WellFormed(g)
  {
    q.0 < |seen| && seen[q.0] && Nearest(g, q.0, q.1) && q.1 < |g.rows|
  }

  ghost predicate Entries(g: Tick, queue: Queue, seen: seq<bool>)
    requires WellFormed(g)
  {
    && (forall k | 0 <= k < |queue| :: Entry(g, seen, queue[k]))
    && forall k, l | 0 <= k < l < |queue| :: queue[k].0 != queue[l].0
  }

  ghost predicate Waiting(queue: Queue, i: nat) {
    exists k | 0 <= k < |queue| :: queue[k].0 == i
  }

  /** Enqueued processes are expanded, being expanded, or waiting, and only one of these. */
  ghost predicate Accounted(queue: Queue, seen: seq<bool>, done: set<nat>, busy: set<nat>) {
    && (forall i | 0 <= i < |seen| && seen[i] :: i in done || i in busy || Waiting(queue, i))
    && (forall i | i in done + busy :: i < |seen| && seen[i] && !Waiting(queue, i))
  }

  /** Expanding a process reaches all its children. */
  ghost predicate Closed(g: Tick, handled: set<nat>, done: set<nat>)
    requires |g.par| == |g.rows|
  {
    forall i | 0 <= i < |g.par| && g.par[i].Some? && g.par[i].value in done :: i in handled
  }

  ghost predicate Traversal(g: Tick, rows: seq<ProcInfo>, queue: Queue, seen: seq<bool>,
                            handled: set<nat>, done: set<nat>, busy: set<nat>)
    requires WellFormed(g)
  {
    && Rows(g, rows, handled) && Handled(g, handled) && Seen(g, seen, handled)
    && Entries(g, queue, seen) && Accounted(queue, seen, done, busy) && Closed(g, handled, done)
  }

  // ── Capacity ──

  ghost function WaitingSet(queue: Queue): (s: set<nat>)
    requires forall k, l | 0 <= k < l < |queue| :: queue[k].0 != queue[l].0
    ensures |s| == |queue|
    ensures forall i | i in s :: Waiting(queue, i)
    decreases |queue|
  {
    if queue == [] then {}
    else
      var front := queue[..|queue| - 1];
      var last := queue[|queue| - 1].0;
      var s := WaitingSet(front);
      assert last !in s by {
        assert !Waiting(front, last);
      }
      assert forall i | i in s :: Waiting(queue, i) by {
        forall i | i in s ensures Waiting(queue, i) {
          var k :| 0 <= k < |front| && front[k].0 == i;
          assert queue[k].0 == i;
        }
      }
      assert Waiting(queue, last);
      s + {last}
  }

  /** A waiting process was seen and is not expanded. */
  lemma WaitingSeen(g: Tick, queue: Queue, seen: seq<bool>, done: set<nat>, busy: set<nat>, i: nat)
    requires WellFormed(g) && Entries(g, queue, seen) && Accounted(queue, seen, done, busy) && Waiting(queue, i)
    ensures i < |seen| && seen[i] && i !in done
  {
    hide Nearest;
    var k :| 0 <= k < |queue| && queue[k].0 == i;
    assert Entry(g, seen, queue[k]);
    assert i in done ==> i in done + busy;
  }

  lemma DoneSeen(queue: Queue, seen: seq<bool>, done: set<nat>, busy: set<nat>, i: nat)
    requires Accounted(queue, seen, done, busy) && i in done
    ensures i < |seen| && seen[i]
  {
    assert i in done + busy;
  }

  /** While a process is unseen there is a free slot, so the n-slot queue never drops a push. */
  lemma QueueRoom(g: Tick, queue: Queue, seen: seq<bool>, done: set<nat>, busy: set<nat>, kid: nat)
    requires WellFormed(g) && |seen| == |g.rows|
    requires Entries(g, queue, seen) && Accounted(queue, seen, done, busy)
    requires kid < |seen| && !seen[kid]
    ensures |queue| + |done| < |seen|
  {
    QueueDistinct(g, queue, seen);
    hide *;
    var waiting := WaitingSet(queue);
    forall i | i in waiting ensures i < |seen| && i != kid && i !in done {
      WaitingSeen(g, queue, seen, done, busy, i);
    }
    forall i | i in done ensures i < |seen| && i != kid {
      DoneSeen(queue, seen, done, busy, i);
    }
    RoomLeft(waiting, done, kid, |seen|);
  }

  lemma QueueDistinct(g: Tick, queue: Queue, seen: seq<bool>)
    requires WellFormed(g) && Entries(g, queue, seen)
    ensures forall k, l | 0 <= k < l < |queue| :: queue[k].0 != queue[l].0
  {
    hide Entry;
  }

  lemma RoomLeft(a: set<nat>, b: set<nat>, x: nat, n: nat)
    requires a !! b && x < n && forall i | i in a + b :: i < n && i != x
    ensures |a| + |b| < n
  {
    assert |a + b| == |a| + |b|;
    SubsetSize(a + b + {x}, n);
  }

  lemma DoneBound(queue: Queue, seen: seq<bool>, done: set<nat>, busy: set<nat>)
    requires Accounted(queue, seen, done, busy) && done !! busy
    ensures |done| + |busy| <= |seen|
  {
    assert |done + busy| == |done| + |busy|;
    SubsetSize(done + busy, |seen|);
  }

  // ── One child ──

  /** What the inner loop does to a child's row. */
  function NewRow(row: ProcInfo, wasVisible: bool, upVisible: bool, lastPid: nat): ProcInfo {
    var thresh := if wasVisible then CHILD_CPU_KEEP_THRESH else CHILD_CPU_THRESH;
    var k := if row.cpu >= thresh then row.(visible := true) else row;
    if k.visible && !upVisible then k.(ppid := lastPid) else k
  }

  lemma NewRowIsFinal(g: Tick, handled: set<nat>, up: nat, last: nat, kid: nat)
    requires WellFormed(g) && Sourced(g) && kid < |g.rows| && g.par[kid] == Some(up)
    requires up < |g.rows| && last < |g.rows| && Nearest(g, up, last) && FromSeed(g, up)
    ensures NewRow(Partial(g, handled, kid), WasVisible(g.prev, g.rows[kid].pid), Shown(g, up), g.rows[last].pid)
         == FinalRow(g, kid)
    ensures Nearest(g, kid, if Shown(g, kid) then kid else last)
  {
    assert ShownAbove(g, kid, last);
    NearestUnique(g, up, last, Above(g, kid).value);
    if Shown(g, kid) {
      NearestSelf(g, kid);
    } else {
      NearestStep(g, kid, last);
    }
    if Shown(g, up) {
      NearestSelf(g, up);
      NearestUnique(g, up, up, last);
    }
  }

  lemma PartialPid(g: Tick, handled: set<nat>, i: nat)
    requires WellFormed(g) && i < |g.rows|
    ensures Partial(g, handled, i).pid == g.rows[i].pid
  {
  }

  lemma FinalVisible(g: Tick, i: nat)
    requires WellFormed(g) && i < |g.rows|
    ensures FinalRow(g, i).visible == Shown(g, i)
  {
  }

  lemma Enqueue(g: Tick, queue: Queue, seen: seq<bool>, done: set<nat>, busy: set<nat>, kid: nat, to: nat)
    requires WellFormed(g) && |seen| == |g.rows|
    requires Entries(g, queue, seen) && Accounted(queue, seen, done, busy)
    requires kid < |seen| && !seen[kid] && to < |g.rows| && Nearest(g, kid, to)
    ensures Entries(g, queue + [(kid, to)], seen[kid := true])
    ensures Accounted(queue + [(kid, to)], seen[kid := true], done, busy)
  {
    hide Nearest;
    var q, s := queue + [(kid, to)], seen[kid := true];
    forall k | 0 <= k < |q| ensures Entry(g, s, q[k]) && (k < |queue| ==> q[k].0 != kid) {
      if k < |queue| {
        assert Entry(g, seen, queue[k]);
      }
    }
    forall i | Waiting(queue, i) ensures Waiting(q, i) {
      var k :| 0 <= k < |queue| && queue[k].0 == i;
      assert q[k].0 == i;
    }
    assert q[|queue|].0 == kid;
    forall i | i in done + busy ensures !Waiting(q, i) {
      assert i != kid;
      assert forall k | 0 <= k < |queue| :: q[k] == queue[k];
    }
  }

  lemma NewRowHere(g: Tick, rows: seq<ProcInfo>, handled: set<nat>, up: nat, last: nat, kid: nat)
    requires WellFormed(g) && Sourced(g) && Rows(g, rows, handled) && kid < |g.rows| && g.par[kid] == Some(up)
    requires up < |g.rows| && last < |g.rows| && Nearest(g, up, last) && FromSeed(g, up)
    ensures NewRow(rows[kid], WasVisible(g.prev, rows[kid].pid), Shown(g, up), rows[last].pid) == FinalRow(g, kid)
    ensures Nearest(g, kid, if FinalRow(g, kid).visible then kid else last)
  {
    hide Shown, FinalRow, Nearest, FromSeed, NewRow, Partial, WasVisible;
    PartialPid(g, handled, kid);
    PartialPid(g, handled, last);
    NewRowIsFinal(g, handled, up, last, kid);
    FinalVisible(g, kid);
  }

  lemma RowsStep(g: Tick, rows: seq<ProcInfo>, handled: set<nat>, kid: nat)
    requires WellFormed(g) && Rows(g, rows, handled) && kid < |g.rows|
    ensures Rows(g, rows[kid := FinalRow(g, kid)], handled + {kid})
  {
    hide FinalRow;
  }

  lemma MarksStep(g: Tick, seen: seq<bool>, handled: set<nat>, done: set<nat>, up: nat, kid: nat)
    requires WellFormed(g) && Handled(g, handled) && Seen(g, seen, handled) && Closed(g, handled, done)
    requires kid < |g.rows| && g.par[kid] == Some(up) && FromSeed(g, up)
    ensures Handled(g, handled + {kid}) && Seen(g, seen[kid := true], handled + {kid})
        && Closed(g, handled + {kid}, done)
  {
    hide FromSeed;
  }

  /** One child keeps the traversal's invariant, whether or not it was enqueued before. */
  lemma HandleKid(g: Tick, rows: seq<ProcInfo>, queue: Queue, seen: seq<bool>, handled: set<nat>,
                  done: set<nat>, up: nat, last: nat, kid: nat)
    requires WellFormed(g) && Sourced(g) && Traversal(g, rows, queue, seen, handled, done, {up})
    requires kid < |g.rows| && g.par[kid] == Some(up) && up < |g.rows|
    requires last < |g.rows| && Nearest(g, up, last) && FromSeed(g, up)
    ensures |rows| == |seen| == |g.rows|
    ensures
      var row := NewRow(rows[kid], WasVisible(g.prev, rows[kid].pid), Shown(g, up), rows[last].pid);
      var q := if seen[kid] then queue else queue + [(kid, if row.visible then kid else last)];
      Traversal(g, rows[kid := row], q, seen[kid := true], handled + {kid}, done, {up})
  {
    hide Shown, FinalRow, Nearest, FromSeed, NewRow, Partial, WasVisible, Entries, Accounted, Closed, Handled;
    NewRowHere(g, rows, handled, up, last, kid);
    RowsStep(g, rows, handled, kid);
    MarksStep(g, seen, handled, done, up, kid);
    hide Rows, Seen;
    if seen[kid] {
      assert seen[kid := true] == seen;
    } else {
      Enqueue(g, queue, seen, done, {up}, kid, if FinalRow(g, kid).visible then kid else last);
    }
  }

  // ── Start, pop and finish ──

  /** Visible rows below `n`, each with itself as its nearest visible ancestor, in order. */
  ghost predicate SeedsOnly(rows: seq<ProcInfo>, n: nat, q: Queue)
    requires n <= |rows|
  {
    && (forall k | 0 <= k < |q| :: q[k].0 == q[k].1 < n && rows[q[k].0].visible)
    && (forall k, l | 0 <= k < l < |q| :: q[k].0 < q[l].0)
  }

  /** The seeds among the first `n` rows, in order. */
  ghost function Seeds(rows: seq<ProcInfo>, n: nat): (q: Queue)
    requires n <= |rows|
    ensures |q| <= n && SeedsOnly(rows, n, q)
  {
    if n == 0 then []
    else Seeds(rows, n - 1) + if rows[n - 1].visible then [(n - 1, n - 1)] else []
  }

  ghost function Flags(rows: seq<ProcInfo>, n: nat): (f: seq<bool>)
    requires n <= |rows|
    ensures |f| == n && forall i | 0 <= i < n :: f[i] == rows[i].visible
  {
    if n == 0 then [] else Flags(rows, n - 1) + [rows[n - 1].visible]
  }

  lemma SeedsNone(rows: seq<ProcInfo>)
    ensures Seeds(rows, 0) == [] && Flags(rows, 0) == []
  {
  }

  lemma SeedsStep(rows: seq<ProcInfo>, n: nat)
    requires n < |rows|
    ensures Seeds(rows, n + 1) == if rows[n].visible then Seeds(rows, n) + [(n, n)] else Seeds(rows, n)
    ensures Flags(rows, n + 1) == Flags(rows, n) + [rows[n].visible]
  {
  }

  lemma {:induction false} SeedWaiting(rows: seq<ProcInfo>, n: nat, i: nat)
    requires n <= |rows| && i < n && rows[i].visible
    ensures Waiting(Seeds(rows, n), i)
  {
    hide SeedsOnly;
    var q := Seeds(rows, n);
    if i == n - 1 {
      assert q[|q| - 1].0 == i;
    } else {
      SeedWaiting(rows, n - 1, i);
      var front := Seeds(rows, n - 1);
      var k :| 0 <= k < |front| && front[k].0 == i;
      assert q[k].0 == i;
    }
  }

  lemma TraversalStart(g: Tick)
    requires WellFormed(g)
    ensures Traversal(g, g.rows, Seeds(g.rows, |g.rows|), Flags(g.rows, |g.rows|), {}, {}, {})
  {
    var queue, seen := Seeds(g.rows, |g.rows|), Flags(g.rows, |g.rows|);
    forall i | 0 <= i < |seen| && seen[i] ensures Waiting(queue, i) {
      SeedWaiting(g.rows, |g.rows|, i);
    }
    forall k | 0 <= k < |queue| ensures Entry(g, seen, queue[k]) {
      NearestSelf(g, queue[k].0);
    }
  }

  /** An enqueued process is below or at a seed, and its row already says whether it is shown. */
  lemma SeenSettled(g: Tick, rows: seq<ProcInfo>, seen: seq<bool>, handled: set<nat>, i: nat)
    requires WellFormed(g) && Rows(g, rows, handled) && Handled(g, handled) && Seen(g, seen, handled)
    requires i < |seen| && seen[i]
    ensures FromSeed(g, i) && rows[i].visible == Shown(g, i)
  {
    FromSeedStep(g, i);
    hide FromSeed;
  }

  lemma TraversalPop(g: Tick, rows: seq<ProcInfo>, rest: Queue, q: (nat, nat), seen: seq<bool>,
                     handled: set<nat>, done: set<nat>)
    requires WellFormed(g) && Traversal(g, rows, rest + [q], seen, handled, done, {})
    ensures Traversal(g, rows, rest, seen, handled, done, {q.0})
    ensures q.0 < |rows| == |g.rows| && q.1 < |rows| && Nearest(g, q.0, q.1) && FromSeed(g, q.0)
    ensures rows[q.0].visible == Shown(g, q.0)
    ensures q.0 !in done
  {
    hide Nearest, FromSeed, Shown, Partial;
    var queue := rest + [q];
    assert queue[|rest|] == q;
    assert forall k | 0 <= k < |rest| :: queue[k] == rest[k];
    assert Entry(g, seen, q) && Waiting(queue, q.0);
    forall i | Waiting(queue, i) ensures i == q.0 || Waiting(rest, i) {
      var k :| 0 <= k < |queue| && queue[k].0 == i;
      if k < |rest| {
        assert rest[k].0 == i;
      }
    }
    forall i | Waiting(rest, i) ensures Waiting(queue, i) && i != q.0 {
      var k :| 0 <= k < |rest| && rest[k].0 == i;
      assert queue[k].0 == i;
    }
    forall k | 0 <= k < |rest| ensures Entry(g, seen, rest[k]) {
      assert Entry(g, seen, queue[k]);
    }
    SeenSettled(g, rows, seen, handled, q.0);
  }

  /** The invariant does not depend on the queue's order, so the next entry to expand may be any of them. */
  lemma TraversalAnyOrder(g: Tick, rows: seq<ProcInfo>, queue: Queue, other: Queue, seen: seq<bool>,
                          handled: set<nat>, done: set<nat>, busy: set<nat>)
    requires WellFormed(g) && Traversal(g, rows, queue, seen, handled, done, busy)
    requires multiset(queue) == multiset(other)
    ensures Traversal(g, rows, other, seen, handled, done, busy)
  {
    hide Rows, Handled, Seen, Closed, Entry, Waiting;
    QueueDistinct(g, queue, seen);
    DistinctKeysAnyOrder(queue, other);
    forall k | 0 <= k < |other| ensures Entry(g, seen, other[k]) {
      SameMembers(queue, other, other[k]);
    }
    forall i: nat ensures Waiting(other, i) == Waiting(queue, i) {
      if Waiting(queue, i) {
        WaitingAnyOrder(queue, other, i);
      } else if Waiting(other, i) {
        WaitingAnyOrder(other, queue, i);
      }
    }
  }

  lemma WaitingAnyOrder(queue: Queue, other: Queue, i: nat)
    requires multiset(queue) == multiset(other) && Waiting(queue, i)
    ensures Waiting(other, i)
  {
    var k :| 0 <= k < |queue| && queue[k].0 == i;
    SameMembers(queue, other, queue[k]);
    var l :| 0 <= l < |other| && other[l] == queue[k];
  }

  lemma TraversalDone(g: Tick, rows: seq<ProcInfo>, queue: Queue, seen: seq<bool>,
                      handled: set<nat>, done: set<nat>, up: nat)
    requires WellFormed(g) && Traversal(g, rows, queue, seen, handled, done, {up})
    requires forall i | 0 <= i < |g.par| && g.par[i] == Some(up) :: i in handled
    ensures Traversal(g, rows, queue, seen, handled, done + {up}, {})
  {
    hide Rows, Handled, Seen, Entries;
  }

  lemma {:induction false} SeedReaches(g: Tick, seen: seq<bool>, handled: set<nat>, done: set<nat>, i: nat, k: nat)
    requires WellFormed(g) && Seen(g, seen, handled) && Closed(g, handled, done) && Accounted([], seen, done, {})
    requires SeedUp(g, i, k)
    ensures i < |seen| && seen[i]
    decreases k
  {
    if k > 0 {
      SeedReaches(g, seen, handled, done, g.par[i].value, k - 1);
    }
  }

  /** An empty queue leaves every row final, in whatever order the traversal went. */
  lemma TraversalEnd(g: Tick, rows: seq<ProcInfo>, seen: seq<bool>, handled: set<nat>, done: set<nat>)
    requires WellFormed(g) && Traversal(g, rows, [], seen, handled, done, {})
    ensures |rows| == |g.rows| && forall i | 0 <= i < |rows| :: rows[i] == FinalRow(g, i)
  {
    forall i | 0 <= i < |rows| ensures rows[i] == FinalRow(g, i) {
      if i !in handled && g.par[i].Some? {
        var up := g.par[i].value;
        assert !FromSeed(g, up) by {
          if FromSeed(g, up) {
            var k: nat :| SeedUp(g, up, k);
            SeedReaches(g, seen, handled, done, up, k);
          }
        }
        if Above(g, i).Some? {
          NearestOnlyFromSeed(g, up, Above(g, i).value);
        }
      }
    }
  }
}
