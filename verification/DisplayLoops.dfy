/**
 The display on any ppid graph, cycles included: a shown process gets its row exactly when no seed at or above it
 lies on a loop.
 */
module DisplayLoops {
  import opened Wrappers
  import opened Forest
  import opened Layout
  import opened Procs
  import opened Visibility
  import opened Filter
  import opened Loops
  import opened Pipeline

  /** A shown process at or above `i` lies on a loop of the tick's chains. */
  ghost predicate ShownLoop(g: Tick, i: nat)
    requires WellFormed(g)
  {
    exists k: nat, c: nat :: ShownLoopAt(g, i, k, c)
  }

  ghost predicate ShownLoopAt(g: Tick, i: nat, k: nat, c: nat)
    requires WellFormed(g)
  {
    Reaches(g.par, i, k, c) && c < |g.rows| && Shown(g, c) && OnLoop(g.par, c)
  }

  /** A seed at or above `i` lies on a loop of the tick's chains. */
  ghost predicate SeedLoop(g: Tick, i: nat)
    requires WellFormed(g)
  {
    exists k: nat, c: nat :: SeedLoopAt(g, i, k, c)
  }

  ghost predicate SeedLoopAt(g: Tick, i: nat, k: nat, c: nat)
    requires WellFormed(g)
  {
    Reaches(g.par, i, k, c) && c < |g.rows| && g.rows[c].visible && OnLoop(g.par, c)
  }

  lemma {:induction false} SeedUpReaches(g: Tick, i: nat, k: nat) returns (c: nat)
    requires WellFormed(g) && SeedUp(g, i, k)
    ensures Reaches(g.par, i, k, c) && c < |g.rows| && g.rows[c].visible
    decreases k
  {
    if k == 0 {
      c := i;
    } else {
      c := SeedUpReaches(g, g.par[i].value, k - 1);
    }
  }

  /** A shown process is on a loop, at or above `i`, exactly when a seed is: loops are closed under hops. */
  lemma ShownLoopHasSeed(g: Tick, i: nat)
    requires WellFormed(g)
    ensures ShownLoop(g, i) <==> SeedLoop(g, i)
  {
    if ShownLoop(g, i) {
      var k: nat, c: nat :| ShownLoopAt(g, i, k, c);
      FromSeedStep(g, c);
      var h: nat :| SeedUp(g, c, h);
      var d := SeedUpReaches(g, c, h);
      LoopOn(g.par, c, h, d);
      ReachesOn(g.par, i, k, c, h, d);
      assert SeedLoopAt(g, i, k + h, d);
    }
    if SeedLoop(g, i) {
      var k: nat, c: nat :| SeedLoopAt(g, i, k, c);
      assert ShownLoopAt(g, i, k, c);
    }
  }

  // ── Display chains inside tick chains ──

  lemma {:induction false} NearestReaches(g: Tick, i: nat, k: nat, a: nat)
    requires WellFormed(g) && NearestUp(g, i, k, a)
    ensures Reaches(g.par, i, k, a)
    decreases k
  {
    if k > 0 {
      NearestReaches(g, g.par[i].value, k - 1, a);
    }
  }

  /** The nearest shown ancestor is some hops up the chain. */
  lemma AboveReaches(g: Tick, i: nat) returns (k: nat)
    requires WellFormed(g) && i < |g.rows| && Above(g, i).Some?
    ensures k > 0 && Reaches(g.par, i, k, Above(g, i).value)
  {
    var a := Above(g, i).value;
    var h: nat :| NearestUp(g, g.par[i].value, h, a);
    NearestReaches(g, g.par[i].value, h, a);
    k := h + 1;
  }

  /** A display row shows one process only. */
  lemma ShowsOne(g: Tick, shown: seq<ProcInfo>, s: nat, i: nat, j: nat)
    requires WellFormed(g) && DistinctPids(g.rows) && Shows(g, shown, s, i) && Shows(g, shown, s, j)
    ensures i == j
  {
    FinalPid(g, i);
    FinalPid(g, j);
  }

  lemma ShowsOnce(g: Tick, shown: seq<ProcInfo>, s: nat, t: nat, i: nat)
    requires WellFormed(g) && DistinctPids(g.rows) && Kept(g, shown)
    requires Shows(g, shown, s, i) && Shows(g, shown, t, i)
    ensures s == t
  {
    ShownDistinct(g, shown);
  }

  /** Hops in the display are hops up the tick's chains, and at least as many. */
  lemma {:induction false} HopsLift(g: Tick, shown: seq<ProcInfo>, s: nat, i: nat, k: nat, t: nat) returns (j: nat,
      h: nat)
    requires WellFormed(g) && Sourced(g) && DistinctPids(g.rows) && Kept(g, shown) && Shows(g, shown, s, i)
    requires Reaches(ParentsOf(shown), s, k, t)
    ensures Shows(g, shown, t, j) && h >= k && Reaches(g.par, i, h, j)
    decreases k
  {
    hide Shown, FinalRow, Kept, Shows;
    if k == 0 {
      j, h := i, 0;
      ShowsInside(g, shown, s, i);
    } else {
      ShowsInside(g, shown, s, i);
      DisplayParent(g, shown, s, i);
      var a := Above(g, i).value;
      var up := AboveReaches(g, i);
      j, h := HopsLift(g, shown, ParentsOf(shown)[s].value, a, k - 1, t);
      ReachesOn(g.par, i, up, a, h, j);
      h := up + h;
    }
  }

  // ── Tick chains inside display chains ──

  /** Below a shown process, the nearest shown one comes no later on the chain. */
  lemma {:induction false} FirstShown(g: Tick, i: nat, k: nat, c: nat) returns (h: nat, a: nat)
    requires WellFormed(g) && Reaches(g.par, i, k, c) && c < |g.rows| && Shown(g, c)
    ensures h <= k && NearestUp(g, i, h, a) && Reaches(g.par, a, k - h, c)
    decreases k
  {
    hide Shown;
    if Shown(g, i) {
      h, a := 0, i;
    } else {
      h, a := FirstShown(g, g.par[i].value, k - 1, c);
      h := h + 1;
    }
  }

  /** A shown process above `i` is above it on display too, and strictly higher when it takes a hop. */
  lemma {:induction false} ClimbTo(g: Tick, shown: seq<ProcInfo>, s: nat, i: nat, k: nat, c: nat) returns (t: nat)
    requires WellFormed(g) && Sourced(g) && DistinctPids(g.rows) && Kept(g, shown) && Shows(g, shown, s, i)
    requires Reaches(g.par, i, k, c) && c < |g.rows| && Shown(g, c) && Rooted(ParentsOf(shown), s)
    ensures Shows(g, shown, t, c) && Rooted(ParentsOf(shown), t)
    ensures Level(ParentsOf(shown), t) + (if k > 0 then 1 else 0) <= Level(ParentsOf(shown), s)
    decreases k
  {
    hide Shown, FinalRow, Kept, Shows;
    if k == 0 {
      t := s;
    } else {
      var dp := ParentsOf(shown);
      var h, a := FirstShown(g, g.par[i].value, k - 1, c);
      ShowsInside(g, shown, s, i);
      assert Nearest(g, g.par[i].value, a);
      assert ShownAbove(g, i, a);
      NearestUnique(g, g.par[i].value, a, Above(g, i).value);
      DisplayParent(g, shown, s, i);
      LevelStep(dp, s);
      t := ClimbTo(g, shown, dp[s].value, a, k - 1 - h, c);
    }
  }

  /** On every ppid graph, a shown process is displayed exactly when no seed at or above it lies on a loop. */
  lemma DisplayedExactly(g: Tick, shown: seq<ProcInfo>, s: nat, i: nat)
    requires WellFormed(g) && Sourced(g) && DistinctPids(g.rows) && Kept(g, shown) && Shows(g, shown, s, i)
    ensures HasRow(Display(ParentsOf(shown)), s) <==> !SeedLoop(g, i)
  {
    hide Shown, FinalRow, Kept, Shows, Display, SeedLoop;
    ShownLoopHasSeed(g, i);
    var dp := ParentsOf(shown);
    DisplayMembers(dp, s);
    ShowsInside(g, shown, s, i);
    if !Rooted(dp, s) {
      var k, t := UnrootedLoops(dp, s);
      var c, h := HopsLift(g, shown, s, i, k, t);
      var m: nat :| m > 0 && Reaches(dp, t, m, t);
      var d, l := HopsLift(g, shown, t, c, m, t);
      ShowsOne(g, shown, t, c, d);
      ShowsInside(g, shown, t, c);
      assert ShownLoopAt(g, i, h, c);
    } else if ShownLoop(g, i) {
      var k: nat, c: nat :| ShownLoopAt(g, i, k, c);
      var m: nat :| m > 0 && Reaches(g.par, c, m, c);
      var t := ClimbTo(g, shown, s, i, k, c);
      var u := ClimbTo(g, shown, t, c, m, c);
      ShowsOnce(g, shown, t, u, c);
      assert false;
    }
  }

  /** The smallest loss: a seed whose ppid is its own pid is shown and never displayed. */
  lemma OwnParentLost(g: Tick, shown: seq<ProcInfo>, s: nat, i: nat)
    requires WellFormed(g) && Sourced(g) && DistinctPids(g.rows) && Kept(g, shown) && Shows(g, shown, s, i)
    requires g.rows[i].ppid == g.rows[i].pid
    ensures !HasRow(Display(ParentsOf(shown)), s)
  {
    IndexOfPid(g.rows, i);
    assert g.par[i] == Some(i);
    assert Reaches(g.par, i, 1, i) by { assert Reaches(g.par, i, 0, i); }
    assert ShownLoopAt(g, i, 0, i);
    ShownLoopHasSeed(g, i);
    DisplayedExactly(g, shown, s, i);
  }
}
