/** Parent links between tracked processes, any graph at all: levels, ancestors and children lists. */
module Forest {
  import opened Wrappers
  import opened Pairs

  /** The tracked parent of each index; none for a process whose ppid is not tracked. */
  type Parents = seq<Option<nat>>

  ghost predicate InRange(par: Parents) {
    forall i | 0 <= i < |par| :: par[i].Some? ==> par[i].value < |par|
  }

  /** The ppid chain of `i` leaves the tracked set after exactly `d` hops. */
  ghost predicate AtDepth(par: Parents, i: nat, d: nat)
    decreases d
  {
    && i < |par|
    && if par[i].None? then d == 0 else d > 0 && AtDepth(par, par[i].value, d - 1)
  }

  /** The chain leaves the tracked set at all, so `i` is not on or below a cycle. */
  ghost predicate Rooted(par: Parents, i: nat) {
    exists d: nat :: AtDepth(par, i, d)
  }

  ghost function Level(par: Parents, i: nat): (d: nat)
    requires Rooted(par, i)
    ensures AtDepth(par, i, d)
  {
    var d: nat :| AtDepth(par, i, d);
    d
  }

  lemma {:induction false} DepthUnique(par: Parents, i: nat, d: nat, e: nat)
    requires AtDepth(par, i, d) && AtDepth(par, i, e)
    ensures d == e
    decreases d
  {
    if par[i].Some? {
      DepthUnique(par, par[i].value, d - 1, e - 1);
    }
  }

  lemma LevelIs(par: Parents, i: nat, d: nat)
    requires AtDepth(par, i, d)
    ensures Rooted(par, i) && Level(par, i) == d
  {
    DepthUnique(par, i, d, Level(par, i));
  }

  lemma LevelStep(par: Parents, i: nat)
    requires i < |par|
    ensures par[i].None? ==> Rooted(par, i) && Level(par, i) == 0
    ensures par[i].Some? && Rooted(par, i) ==>
      Rooted(par, par[i].value) && Level(par, i) == Level(par, par[i].value) + 1
    ensures par[i].Some? && Rooted(par, par[i].value) ==> Rooted(par, i)
  {
    if par[i].None? {
      LevelIs(par, i, 0);
    } else {
      if Rooted(par, i) {
        LevelIs(par, par[i].value, Level(par, i) - 1);
      }
      if Rooted(par, par[i].value) {
        LevelIs(par, i, Level(par, par[i].value) + 1);
      }
    }
  }

  ghost predicate AtMost(par: Parents, i: nat, d: nat) {
    i < |par| && exists e: nat :: e <= d && AtDepth(par, i, e)
  }

  /** The indices on the chain from `i`. */
  ghost function ChainSet(par: Parents, i: nat, d: nat): (s: set<nat>)
    requires AtDepth(par, i, d)
    ensures forall j | j in s :: AtMost(par, j, d)
    ensures |s| == d + 1
    decreases d
  {
    if d == 0 then
      assert AtMost(par, i, 0);
      {i}
    else
      var rest := ChainSet(par, par[i].value, d - 1);
      assert i !in rest by {
        if i in rest {
          assert AtMost(par, i, d - 1);
          var e: nat :| e <= d - 1 && AtDepth(par, i, e);
          DepthUnique(par, i, d, e);
        }
      }
      assert AtMost(par, i, d);
      rest + {i}
  }

  lemma SubsetSize(s: set<nat>, n: nat)
    requires forall j | j in s :: j < n
    ensures |s| <= n
    decreases n
  {
    if n > 0 {
      SubsetSize(s - {n - 1}, n - 1);
    } else {
      assert s == {};
    }
  }

  /** A chain that leaves the tracked set is no longer than the set. */
  lemma DepthBelow(par: Parents, i: nat)
    requires Rooted(par, i)
    ensures Level(par, i) < |par|
  {
    SubsetSize(ChainSet(par, i, Level(par, i)), |par|);
  }

  // ── Children, as the two-pass builder emits them ──

  /** One edge per tracked parent among the first `n` processes, in process order. */
  ghost function Edges(par: Parents, n: nat): seq<(nat, nat)>
    requires n <= |par|
  {
    if n == 0 then []
    else Edges(par, n - 1) + if par[n - 1].Some? then [(par[n - 1].value, n - 1)] else []
  }

  ghost function Kids(par: Parents, p: nat): seq<nat> {
    ValuesOf<nat>(Edges(par, |par|), p)
  }

  ghost predicate Increasing(s: seq<nat>) {
    forall i, j | 0 <= i < j < |s| :: s[i] < s[j]
  }

  lemma KidsStep(par: Parents, n: nat, p: nat)
    requires 0 < n <= |par|
    ensures var kids := ValuesOf<nat>(Edges(par, n - 1), p);
      ValuesOf<nat>(Edges(par, n), p) == if par[n - 1] == Some(p) then kids + [n - 1] else kids
  {
    var before, edges := Edges(par, n - 1), Edges(par, n);
    if par[n - 1].Some? {
      assert edges[..|edges| - 1] == before;
    } else {
      assert edges == before;
    }
  }

  /** `kids` lists, in increasing order, the indices below `n` whose tracked parent is `p`. */
  ghost predicate ListsKids(par: Parents, n: nat, p: nat, kids: seq<nat>)
    requires n <= |par|
  {
    && Increasing(kids)
    && (forall x | x in kids :: x < n && par[x] == Some(p))
    && (forall i | 0 <= i < n && par[i] == Some(p) :: i in kids)
  }

  lemma KidsAppend(par: Parents, n: nat, p: nat, kids: seq<nat>, next: seq<nat>)
    requires 0 < n <= |par| && ListsKids(par, n - 1, p, kids)
    requires next == if par[n - 1] == Some(p) then kids + [n - 1] else kids
    ensures ListsKids(par, n, p, next)
  {
    var more := kids + [n - 1];
    assert more[|kids|] == n - 1;
    forall i, j | 0 <= i < j < |more| ensures more[i] < more[j] {
      assert more[i] == kids[i] && kids[i] in kids;
    }
    forall x | x in kids ensures x in more {
      var i :| 0 <= i < |kids| && kids[i] == x;
      assert more[i] == x;
    }
  }

  lemma {:induction false} KidsUpTo(par: Parents, n: nat, p: nat)
    requires n <= |par|
    ensures ListsKids(par, n, p, ValuesOf<nat>(Edges(par, n), p))
    decreases n
  {
    if n > 0 {
      KidsUpTo(par, n - 1, p);
      KidsStep(par, n, p);
      hide Edges, ValuesOf;
      KidsAppend(par, n, p, ValuesOf<nat>(Edges(par, n - 1), p), ValuesOf<nat>(Edges(par, n), p));
    }
  }

  /** The children of `p` are exactly the indices whose tracked parent is `p`, in increasing order. */
  lemma KidsExact(par: Parents, p: nat)
    ensures Increasing(Kids(par, p))
    ensures forall i | i in Kids(par, p) :: i < |par| && par[i] == Some(p)
    ensures forall i | 0 <= i < |par| && par[i] == Some(p) :: i in Kids(par, p)
  {
    KidsUpTo(par, |par|, p);
  }

  // ── Ancestors by level ──

  /** The ancestor-or-self of `i` at level `d`. */
  ghost function AncestorAt(par: Parents, i: nat, d: nat): (a: nat)
    requires Rooted(par, i) && d <= Level(par, i)
    ensures Rooted(par, a) && Level(par, a) == d
    decreases Level(par, i)
  {
    LevelStep(par, i);
    if Level(par, i) == d then i else AncestorAt(par, par[i].value, d)
  }

  /** `i` lies in the subtree under `a`. */
  ghost predicate Under(par: Parents, i: nat, a: nat)
    requires Rooted(par, a)
  {
    Rooted(par, i) && Level(par, a) <= Level(par, i) && AncestorAt(par, i, Level(par, a)) == a
  }

  /** Below a node is at the node itself or below exactly one of its children. */
  lemma UnderChild(par: Parents, i: nat, a: nat)
    requires Rooted(par, a) && Under(par, i, a) && i != a
    ensures Level(par, a) < Level(par, i)
    ensures par[AncestorAt(par, i, Level(par, a) + 1)] == Some(a)
    decreases Level(par, i)
  {
    LevelStep(par, i);
    if Level(par, i) == Level(par, a) + 1 {
      assert AncestorAt(par, par[i].value, Level(par, a)) == par[i].value;
    } else {
      UnderChild(par, par[i].value, a);
    }
  }
}
