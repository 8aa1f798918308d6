/**
 Hops up a ppid chain, and where a chain that never leaves the tracked set must lead: into a loop.
 */
module Loops {
  import opened Forest

  /** `a` is `k` hops up the chain from `i`. */
  ghost predicate Reaches(par: Parents, i: nat, k: nat, a: nat)
    decreases k
  {
    && i < |par|
    && if k == 0 then i == a else par[i].Some? && Reaches(par, par[i].value, k - 1, a)
  }

  ghost predicate OnLoop(par: Parents, c: nat) {
    exists m: nat :: m > 0 && Reaches(par, c, m, c)
  }

  lemma {:induction false} ReachesOn(par: Parents, i: nat, k: nat, a: nat, m: nat, b: nat)
    requires Reaches(par, i, k, a) && Reaches(par, a, m, b)
    ensures Reaches(par, i, k + m, b)
    decreases k
  {
    if k > 0 {
      ReachesOn(par, par[i].value, k - 1, a, m, b);
    }
  }

  lemma {:induction false} ReachesRest(par: Parents, i: nat, k: nat, a: nat, m: nat, b: nat)
    requires Reaches(par, i, k, a) && Reaches(par, i, k + m, b)
    ensures Reaches(par, a, m, b)
    decreases k
  {
    if k > 0 {
      ReachesRest(par, par[i].value, k - 1, a, m, b);
    }
  }

  /** Round a loop until at least `n` hops are made. */
  lemma {:induction false} Around(par: Parents, c: nat, m: nat, n: nat) returns (t: nat)
    requires m > 0 && Reaches(par, c, m, c)
    ensures t > 0 && t >= n && Reaches(par, c, t, c)
    decreases n
  {
    if n <= m {
      t := m;
    } else {
      t := Around(par, c, m, n - m);
      ReachesOn(par, c, m, c, t, c);
      t := m + t;
    }
  }

  /** What is reached from a loop is on it. */
  lemma LoopOn(par: Parents, c: nat, k: nat, d: nat)
    requires OnLoop(par, c) && Reaches(par, c, k, d)
    ensures OnLoop(par, d)
  {
    var m: nat :| m > 0 && Reaches(par, c, m, c);
    var t := Around(par, c, m, k);
    ReachesRest(par, c, k, d, t - k, c);
    ReachesOn(par, d, t - k, c, k, d);
    assert Reaches(par, d, t, d);
  }

  /** Hops up a chain that leaves the tracked set come off its length. */
  lemma {:induction false} ReachesLevel(par: Parents, i: nat, k: nat, a: nat)
    requires Rooted(par, i) && Reaches(par, i, k, a)
    ensures Rooted(par, a) && Level(par, a) + k == Level(par, i)
    decreases k
  {
    if k > 0 {
      LevelStep(par, i);
      ReachesLevel(par, par[i].value, k - 1, a);
    }
  }

  /** The first `n` hops of a chain that never ends. */
  ghost function Hops(par: Parents, i: nat, n: nat): (r: seq<nat>)
    requires InRange(par) && i < |par| && !Rooted(par, i)
    ensures |r| == n + 1 && forall k | 0 <= k <= n :: r[k] < |par| && Reaches(par, i, k, r[k])
    decreases n
  {
    LevelStep(par, i);
    if n == 0 then [i] else [i] + Hops(par, par[i].value, n - 1)
  }

  ghost predicate NoRepeat(s: seq<nat>) {
    forall a, b | 0 <= a < b < |s| :: s[a] != s[b]
  }

  ghost function Members(s: seq<nat>): (m: set<nat>)
    requires NoRepeat(s)
    ensures |m| == |s| && forall x | x in m :: x in s
    decreases |s|
  {
    if s == [] then {}
    else
      var front := s[..|s| - 1];
      assert s[|s| - 1] !in front;
      Members(front) + {s[|s| - 1]}
  }

  lemma RepeatFound(s: seq<nat>, n: nat) returns (a: nat, b: nat)
    requires |s| > n && forall k | 0 <= k < |s| :: s[k] < n
    ensures a < b < |s| && s[a] == s[b]
  {
    if NoRepeat(s) {
      SubsetSize(Members(s), n);
      assert false;
    } else {
      a, b :| 0 <= a < b < |s| && s[a] == s[b];
    }
  }

  /** A chain that never leaves the tracked set reaches a loop. */
  lemma UnrootedLoops(par: Parents, i: nat) returns (k: nat, c: nat)
    requires InRange(par) && i < |par| && !Rooted(par, i)
    ensures Reaches(par, i, k, c) && OnLoop(par, c)
  {
    var hops := Hops(par, i, |par|);
    var a, b := RepeatFound(hops, |par|);
    k, c := a, hops[a];
    assert Reaches(par, i, a + (b - a), hops[b]);
    ReachesRest(par, i, a, c, b - a, c);
  }
}
