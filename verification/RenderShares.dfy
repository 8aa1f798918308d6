/**
 What each group gets of the screen, read off the rendered lines alone: its floor share of the child lines, its first
 children in order, and a marker when they are not all there.
 */
module RenderShares {
  import opened Products
  import opened Render

  // ── Where a group's lines are ──

  /** Row numbers only grow down the screen, and a marker is none. */
  ghost predicate Growing(lines: seq<Line>, end: nat) {
    && (forall p | 0 <= p < |lines| && lines[p].Shown? :: lines[p].ti < end)
    && forall p, q | 0 <= p < q < |lines| && lines[p].Shown? && lines[q].Shown? :: lines[p].ti < lines[q].ti
  }

  lemma BlockGrows(root: nat, kids: nat, slot: nat)
    ensures var block := Block(root, kids, slot);
      Growing(block, root + 1 + kids) && forall p | 0 <= p < |block| && block[p].Shown? :: root <= block[p].ti
  {
  }

  lemma {:induction false} BlocksGrow(g: Groups, budget: nat, k: nat)
    requires g.Valid() && k <= |g.roots|
    ensures Growing(Blocks(g, budget, k), if k < |g.roots| then g.roots[k] else g.treeLen)
    decreases k
  {
    if k > 0 {
      BlocksGrow(g, budget, k - 1);
      BlockGrows(g.roots[k - 1], g.KidsIn(k - 1), Slot(g, budget, k - 1));
      hide Block, Slot;
    }
  }

  lemma {:induction false} BlocksPrefix(g: Groups, budget: nat, k: nat, n: nat)
    requires g.Valid() && k <= n <= |g.roots|
    ensures Blocks(g, budget, k) <= Blocks(g, budget, n)
    decreases n
  {
    hide Block, Slot;
    if k < n {
      BlocksPrefix(g, budget, k, n - 1);
    }
  }

  /** Block by block: the `k`-th root stands where the blocks before it end. */
  lemma RootPlace(g: Groups, budget: nat, k: nat, n: nat, i: nat)
    requires g.Valid() && k < n <= |g.roots|
    requires i < |Blocks(g, budget, n)| && Blocks(g, budget, n)[i] == Shown(g.roots[k])
    ensures i == |Blocks(g, budget, k)|
  {
    BlocksGrow(g, budget, n);
    BlocksPrefix(g, budget, k + 1, n);
    var all, before := Blocks(g, budget, n), Blocks(g, budget, k);
    var block := Block(g.roots[k], g.KidsIn(k), Slot(g, budget, k));
    assert Blocks(g, budget, k + 1) == before + block && block[0] == Shown(g.roots[k]);
    hide Block, Slot, Blocks;
    assert all[|before|] == (before + block)[|before|] == Shown(g.roots[k]);
  }

  /** The `u` lines behind line `i`: all `kids` children, or the first ones and a marker for the rest, or nothing. */
  predicate GroupLines(lines: seq<Line>, i: nat, u: nat, root: nat, kids: nat) {
    && i + u < |lines| && u <= kids
    && (forall p | i < p <= i + (if u == kids then u else u - 1) :: lines[p] == Shown(root + (p - i)))
    && (0 < u < kids ==> lines[i + u] == More(kids - u + 1))
  }

  lemma BlockLines(lines: seq<Line>, before: seq<Line>, root: nat, kids: nat, slot: nat)
    requires before + Block(root, kids, slot) <= lines
    ensures GroupLines(lines, |before|, Used(slot, kids), root, kids)
  {
    var block := Block(root, kids, slot);
    assert forall p | |before| <= p < |before| + |block| :: lines[p] == block[p - |before|];
  }

  // ── The share ──

  /** `u` of `kids` lines are the floor of kids' share of the budget, or all if that is less. */
  predicate FairShare(u: nat, kids: nat, total: nat, budget: nat) {
    u <= kids && u * total <= budget * kids && (u < kids ==> budget * kids < (u + 1) * total)
  }

  function Least(a: int, b: int): int {
    if a < b then a else b
  }

  lemma UsedShare(budget: nat, kids: nat, total: nat)
    requires kids <= total
    ensures FairShare(Used(Share(budget, kids, total), kids), kids, total, budget)
  {
    if total > 0 {
      var p := budget * kids;
      Floor(p, total);
      Distribute(p / total, 1, total);
      if kids < p / total {
        Monotone(kids, p / total, total);
      }
    }
  }

  /** The lines of group `k` among its blocks, and its slot. */
  lemma SlotShare(g: Groups, budget: nat, k: nat)
    requires g.Valid() && k < |g.roots|
    ensures |g.roots| <= g.treeLen
    ensures Allocated(g, budget, k + 1) == Allocated(g, budget, k) + Used(Slot(g, budget, k), g.KidsIn(k))
    ensures var u, kids, before := Used(Slot(g, budget, k), g.KidsIn(k)), g.KidsIn(k), Allocated(g, budget, k);
      && (k + 1 < |g.roots| ==> FairShare(u, kids, g.treeLen - |g.roots|, budget))
      && (k + 1 == |g.roots| ==> before <= budget && u == Least(kids, budget - before))
  {
    AllocatedWithin(g, budget, k);
    g.Tile(|g.roots|);
    KidsMonotone(g, k + 1, |g.roots|);
    assert Allocated(g, budget, k + 1) == Allocated(g, budget, k) + Used(Slot(g, budget, k), g.KidsIn(k));
    hide FairShare, Share, Allocated;
    if k + 1 < |g.roots| {
      UsedShare(budget, g.KidsIn(k), g.KidsBefore(|g.roots|));
    }
  }

  /** Line `j` is where the group of line `i` ends: the next root, or the end of the screen. */
  ghost predicate GroupAt(g: Groups, maxRows: nat, k: nat, i: nat, j: nat)
    requires g.Valid() && k < |g.roots|
  {
    var lines := Rendered(g, maxRows);
    && i < |lines| && lines[i] == Shown(g.roots[k])
    && if k + 1 < |g.roots| && k + 1 < maxRows then j < |lines| && lines[j] == Shown(g.roots[k + 1]) else j == |lines|
  }

  lemma OnScreen(g: Groups, maxRows: nat, k: nat, i: nat)
    requires g.Valid() && k < |g.roots| && i < |Rendered(g, maxRows)| && Rendered(g, maxRows)[i] == Shown(g.roots[k])
    ensures k < maxRows
  {
    RootShownExactly(g, maxRows, k);
    hide Rendered;
  }

  lemma GroupPlace(g: Groups, maxRows: nat, k: nat, i: nat, j: nat)
    requires g.Valid() && k < |g.roots| && GroupAt(g, maxRows, k, i, j)
    ensures var budget := Monus(maxRows, |g.roots|);
      && i == |Blocks(g, budget, k)| && j == |Blocks(g, budget, k + 1)|
      && Blocks(g, budget, k) + Block(g.roots[k], g.KidsIn(k), Slot(g, budget, k)) <= Rendered(g, maxRows)
  {
    var n := if |g.roots| <= maxRows then |g.roots| else maxRows;
    var budget := Monus(maxRows, |g.roots|);
    OnScreen(g, maxRows, k, i);
    assert Blocks(g, budget, k + 1) == Blocks(g, budget, k) + Block(g.roots[k], g.KidsIn(k), Slot(g, budget, k));
    assert Rendered(g, maxRows) == Blocks(g, budget, n);
    hide *;
    RootPlace(g, budget, k, n, i);
    if k + 1 < n {
      RootPlace(g, budget, k + 1, n, j);
    }
    BlocksPrefix(g, budget, k + 1, n);
  }

  lemma GroupOrder(g: Groups, maxRows: nat, k: nat, i: nat, j: nat)
    requires g.Valid() && k < |g.roots| && GroupAt(g, maxRows, k, i, j)
    ensures k <= i < j
  {
    var budget := Monus(maxRows, |g.roots|);
    GroupPlace(g, maxRows, k, i, j);
    BlocksLength(g, budget, k);
    BlocksLength(g, budget, k + 1);
    SlotShare(g, budget, k);
    hide *;
  }

  function ChildBudget(g: Groups, maxRows: nat): nat {
    if maxRows > |g.roots| then maxRows - |g.roots| else 0
  }

  /** The group of a root on screen, `u` lines of it behind the root: what they show; for a group that is not the
      last, its floor share of the child lines; for the last one, as much as the others have left. */
  lemma GroupShare(g: Groups, maxRows: nat, k: nat, i: nat, u: nat)
    requires g.Valid() && k < |g.roots| && GroupAt(g, maxRows, k, i, i + 1 + u)
    ensures GroupLines(Rendered(g, maxRows), i, u, g.roots[k], g.KidsIn(k))
    ensures |g.roots| <= g.treeLen
    ensures k + 1 < |g.roots| ==> FairShare(u, g.KidsIn(k), g.treeLen - |g.roots|, ChildBudget(g, maxRows))
    ensures k + 1 == |g.roots| ==>
      k <= i && i - k <= ChildBudget(g, maxRows) && u == Least(g.KidsIn(k), ChildBudget(g, maxRows) - (i - k))
  {
    var budget := Monus(maxRows, |g.roots|);
    GroupPlace(g, maxRows, k, i, i + 1 + u);
    BlockLines(Rendered(g, maxRows), Blocks(g, budget, k), g.roots[k], g.KidsIn(k), Slot(g, budget, k));
    BlocksLength(g, budget, k);
    BlocksLength(g, budget, k + 1);
    SlotShare(g, budget, k);
    assert budget == ChildBudget(g, maxRows);
    hide *;
  }
}
