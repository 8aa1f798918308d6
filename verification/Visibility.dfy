/**
 Which processes a tick shows and under whom: the answer the traversal must reach, stated on the
 parent graph with no order of visiting, cycles included.
 */
module Visibility {
  import opened Wrappers
  import opened Forest
  import opened FlatMap
  import opened Packed
  import opened Procs

  const CHILD_CPU_THRESH: real := 1.0
  const CHILD_CPU_KEEP_THRESH: real := 0.3

  /** The rows after coalescing, their parents, and last tick's frozen map. */
  datatype Tick = Tick(rows: seq<ProcInfo>, par: Parents, prev: seq<(nat, Word)>)

  ghost predicate WellFormed(g: Tick) {
    |g.par| == |g.rows| && InRange(g.par)
  }

  /** Shown last tick. */
  ghost predicate WasVisible(prev: seq<(nat, Word)>, pid: nat) {
    Lookup(prev, pid).Some? && IsVisible(Lookup(prev, pid).value)
  }

  /** CPU at or above the process's own threshold: lower once it has been shown. */
  ghost predicate Active(g: Tick, i: nat)
    requires i < |g.rows|
  {
    g.rows[i].cpu >= if WasVisible(g.prev, g.rows[i].pid) then CHILD_CPU_KEEP_THRESH else CHILD_CPU_THRESH
  }

  /** The ancestor `k` hops up is a seed. */
  ghost predicate SeedUp(g: Tick, i: nat, k: nat)
    requires WellFormed(g)
    decreases k
  {
    && i < |g.rows|
    && if k == 0 then g.rows[i].visible else g.par[i].Some? && SeedUp(g, g.par[i].value, k - 1)
  }

  /** A seed, or a descendant of one. */
  ghost predicate FromSeed(g: Tick, i: nat)
    requires WellFormed(g)
  {
    exists k: nat :: SeedUp(g, i, k)
  }

  /** Shown: a seed, or an active proper descendant of one. */
  ghost predicate Shown(g: Tick, i: nat)
    requires WellFormed(g) && i < |g.rows|
  {
    g.rows[i].visible || (g.par[i].Some? && FromSeed(g, g.par[i].value) && Active(g, i))
  }

  /** `a` is the first shown process on the chain from `i`, `k` hops up. */
  ghost predicate NearestUp(g: Tick, i: nat, k: nat, a: nat)
    requires WellFormed(g)
    decreases k
  {
    && i < |g.rows|
    && if k == 0 then i == a && Shown(g, i)
       else !Shown(g, i) && g.par[i].Some? && NearestUp(g, g.par[i].value, k - 1, a)
  }

  /** `a` is `i` itself if shown, else its nearest shown ancestor. */
  ghost predicate Nearest(g: Tick, i: nat, a: nat)
    requires WellFormed(g)
  {
    exists k: nat :: NearestUp(g, i, k, a)
  }

  /** `a` is the nearest shown proper ancestor of `i`. */
  ghost predicate ShownAbove(g: Tick, i: nat, a: nat)
    requires WellFormed(g) && i < |g.rows|
  {
    g.par[i].Some? && Nearest(g, g.par[i].value, a)
  }

  lemma {:induction false} NearestInside(g: Tick, i: nat, k: nat, a: nat)
    requires WellFormed(g) && NearestUp(g, i, k, a)
    ensures a < |g.rows| && Shown(g, a)
    decreases k
  {
    if k > 0 {
      NearestInside(g, g.par[i].value, k - 1, a);
    }
  }

  lemma {:induction false} NearestUpUnique(g: Tick, i: nat, k: nat, a: nat, l: nat, b: nat)
    requires WellFormed(g) && NearestUp(g, i, k, a) && NearestUp(g, i, l, b)
    ensures a == b
    decreases k
  {
    if k > 0 {
      NearestUpUnique(g, g.par[i].value, k - 1, a, l - 1, b);
    }
  }

  /** There is at most one nearest shown ancestor, even on a cycle. */
  lemma NearestUnique(g: Tick, i: nat, a: nat, b: nat)
    requires WellFormed(g) && Nearest(g, i, a) && Nearest(g, i, b)
    ensures a == b && a < |g.rows| && Shown(g, a)
  {
    var k: nat :| NearestUp(g, i, k, a);
    var l: nat :| NearestUp(g, i, l, b);
    NearestUpUnique(g, i, k, a, l, b);
    NearestInside(g, i, k, a);
  }

  lemma NearestSelf(g: Tick, i: nat)
    requires WellFormed(g) && i < |g.rows| && Shown(g, i)
    ensures Nearest(g, i, i)
  {
    assert NearestUp(g, i, 0, i);
  }

  lemma NearestStep(g: Tick, i: nat, a: nat)
    requires WellFormed(g) && i < |g.rows| && !Shown(g, i) && ShownAbove(g, i, a)
    ensures Nearest(g, i, a)
  {
    var k: nat :| NearestUp(g, g.par[i].value, k, a);
    assert NearestUp(g, i, k + 1, a);
  }

  lemma FromSeedStep(g: Tick, i: nat)
    requires WellFormed(g) && i < |g.rows|
    ensures FromSeed(g, i) <==> g.rows[i].visible || (g.par[i].Some? && FromSeed(g, g.par[i].value))
  {
    if FromSeed(g, i) {
      var k: nat :| SeedUp(g, i, k);
      if k > 0 {
        assert SeedUp(g, g.par[i].value, k - 1);
      }
    }
    if g.rows[i].visible {
      assert SeedUp(g, i, 0);
    } else if g.par[i].Some? && FromSeed(g, g.par[i].value) {
      var k: nat :| SeedUp(g, g.par[i].value, k);
      assert SeedUp(g, i, k + 1);
    }
  }

  lemma {:induction false} NearestFromSeed(g: Tick, i: nat, k: nat, a: nat)
    requires WellFormed(g) && NearestUp(g, i, k, a)
    ensures FromSeed(g, i)
    decreases k
  {
    FromSeedStep(g, i);
    if k > 0 {
      NearestFromSeed(g, g.par[i].value, k - 1, a);
    }
  }

  /** A shown ancestor puts a process below a seed: there is nothing to hang under otherwise. */
  lemma NearestOnlyFromSeed(g: Tick, i: nat, a: nat)
    requires WellFormed(g) && Nearest(g, i, a)
    ensures FromSeed(g, i)
  {
    var k: nat :| NearestUp(g, i, k, a);
    NearestFromSeed(g, i, k, a);
  }

  lemma {:induction false} SeedNearest(g: Tick, i: nat, k: nat)
    requires WellFormed(g) && SeedUp(g, i, k)
    ensures exists a: nat :: Nearest(g, i, a)
    decreases k
  {
    if Shown(g, i) {
      NearestSelf(g, i);
    } else {
      SeedNearest(g, g.par[i].value, k - 1);
      var a: nat :| Nearest(g, g.par[i].value, a);
      NearestStep(g, i, a);
    }
  }

  /** Every process at or below a seed has a nearest shown process at or above it. */
  lemma FromSeedNearest(g: Tick, i: nat)
    requires WellFormed(g) && FromSeed(g, i)
    ensures exists a: nat :: Nearest(g, i, a)
  {
    var k: nat :| SeedUp(g, i, k);
    SeedNearest(g, i, k);
  }

  // ── The row each process ends with ──

  /** The nearest shown proper ancestor, if any. */
  ghost function Above(g: Tick, i: nat): (r: Option<nat>)
    requires WellFormed(g) && i < |g.rows|
    ensures r.Some? ==> ShownAbove(g, i, r.value) && r.value < |g.rows| && Shown(g, r.value)
    ensures r.None? ==> forall a: nat :: !ShownAbove(g, i, a)
  {
    if exists a: nat :: ShownAbove(g, i, a) then
      var a: nat :| ShownAbove(g, i, a);
      NearestUnique(g, g.par[i].value, a, a);
      Some(a)
    else None
  }

  /** A shown process hangs under its nearest shown ancestor; without one its ppid is as it was. */
  ghost function FinalRow(g: Tick, i: nat): ProcInfo
    requires WellFormed(g) && i < |g.rows|
  {
    var row := g.rows[i];
    if Shown(g, i) then
      row.(visible := true, ppid := if Above(g, i).Some? then g.rows[Above(g, i).value].pid else row.ppid)
    else row
  }
}
