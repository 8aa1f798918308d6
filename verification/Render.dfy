/**
 Row budget of the rendered tree: roots first, then each group's children in proportion, with one
 line of a short slot spent on a marker that counts what it hides.
 */
module Render {
  import opened Products

  /** A rendered line: a tree row, or the marker for hidden children. */
  datatype Line = Shown(ti: nat) | More(hidden: nat)

  /** Tree rows and where its roots are: the first row is a root, and roots come in row order. */
  datatype Groups = Groups(roots: seq<nat>, treeLen: nat) {

    ghost predicate Valid() {
      && (roots == [] <==> treeLen == 0)
      && (roots != [] ==> roots[0] == 0)
      && (forall i, j | 0 <= i < j < |roots| :: roots[i] < roots[j])
      && (forall i | 0 <= i < |roots| :: roots[i] < treeLen)
    }

    function End(k: nat): nat
      requires k < |roots|
    {
      if k + 1 < |roots| then roots[k + 1] else treeLen
    }

    function KidsIn(k: nat): (n: nat)
      requires Valid() && k < |roots|
      ensures roots[k] + 1 + n == End(k)
    {
      End(k) - roots[k] - 1
    }

    ghost function KidsBefore(k: nat): nat
      requires Valid() && k <= |roots|
    {
      if k == 0 then 0 else KidsBefore(k - 1) + KidsIn(k - 1)
    }

    /** Groups tile the tree. */
    lemma {:induction false} Tile(k: nat)
      requires Valid() && k <= |roots|
      ensures KidsBefore(k) + k == if k < |roots| then roots[k] else treeLen
    {
      if k > 0 {
        Tile(k - 1);
      }
    }
  }

  // ── The budget ──

  /** Lines a group of `kids` children uses of its slot; one of them is the marker when it is short. */
  function Used(slot: nat, kids: nat): nat {
    if slot >= kids then kids else slot
  }

  function Limit(slot: nat, kids: nat): nat {
    if slot >= kids then kids else if slot > 0 then slot - 1 else 0
  }

  function Monus(a: nat, b: nat): nat {
    if a >= b then a - b else 0
  }

  /** Floor share of the child budget. */
  function Share(budget: nat, kids: nat, total: nat): nat {
    if total > 0 then budget * kids / total else 0
  }

  ghost function Slot(g: Groups, budget: nat, k: nat): nat
    requires g.Valid() && k < |g.roots|
    decreases k, 1
  {
    if k + 1 == |g.roots| then Monus(budget, Allocated(g, budget, k))
    else Share(budget, g.KidsIn(k), g.KidsBefore(|g.roots|))
  }

  /** Child lines used by the first `k` groups. */
  ghost function Allocated(g: Groups, budget: nat, k: nat): nat
    requires g.Valid() && k <= |g.roots|
    decreases k, 0
  {
    if k == 0 then 0
    else Allocated(g, budget, k - 1) + Used(Slot(g, budget, k - 1), g.KidsIn(k - 1))
  }

  // ── The lines ──

  function RowsFrom(ti: nat, n: nat): (lines: seq<Line>)
    ensures |lines| == n && forall i | 0 <= i < n :: lines[i] == Shown(ti + i)
  {
    seq(n, i requires 0 <= i < n => Shown(ti + i))
  }

  /** A group's lines: its root, the children within its limit, and a marker for exactly the rest
      when the slot paid for one. */
  ghost function Block(root: nat, kids: nat, slot: nat): (lines: seq<Line>)
    ensures |lines| == 1 + Used(slot, kids)
  {
    RowsFrom(root, 1 + Limit(slot, kids))
      + if Used(slot, kids) > Limit(slot, kids) then [More(kids - Limit(slot, kids))] else []
  }

  /** A marker counts exactly the children its group does not show, and only a group that was given
      no line at all hides children without one. */
  lemma MarkerCounts(root: nat, kids: nat, slot: nat, line: Line)
    ensures var block := Block(root, kids, slot);
      && block[0] == Shown(root)
      && (line in block && line.More? ==> line.hidden > 0 && (|block| - 2) + line.hidden == kids)
      && ((forall l | l in block :: l.Shown?) ==> |block| - 1 == kids || slot == 0)
  {
    var block := Block(root, kids, slot);
    if Used(slot, kids) > Limit(slot, kids) {
      assert block[|block| - 1].More? && block[|block| - 1] in block;
    }
  }

  ghost function Blocks(g: Groups, budget: nat, k: nat): seq<Line>
    requires g.Valid() && k <= |g.roots|
  {
    if k == 0 then []
    else Blocks(g, budget, k - 1) + Block(g.roots[k - 1], g.KidsIn(k - 1), Slot(g, budget, k - 1))
  }

  /** The rendered tree. */
  ghost function Rendered(g: Groups, maxRows: nat): seq<Line>
    requires g.Valid()
  {
    Blocks(g, Monus(maxRows, |g.roots|), if |g.roots| <= maxRows then |g.roots| else maxRows)
  }

  // ── The promises ──

  lemma {:induction false} BlocksLength(g: Groups, budget: nat, k: nat)
    requires g.Valid() && k <= |g.roots|
    ensures |Blocks(g, budget, k)| == k + Allocated(g, budget, k)
  {
    hide Block;
    if k > 0 {
      BlocksLength(g, budget, k - 1);
    }
  }

  lemma ShareFloor(budget: nat, kids: nat, total: nat)
    requires total > 0
    ensures Share(budget, kids, total) * total <= budget * kids
  {
    Floor(budget * kids, total);
  }

  lemma LeFromMul(a: nat, b: nat, c: nat)
    requires c > 0 && a * c <= b * c
    ensures a <= b
  {
    Distribute(b, 1, c);
    if a > b {
      Monotone(b + 1, a, c);
    }
  }

  /** Floor shares never exceed the budget's proportion, group after group. */
  lemma {:induction false} AllocatedShare(g: Groups, budget: nat, k: nat)
    requires g.Valid() && k < |g.roots| && g.KidsBefore(|g.roots|) > 0
    ensures Allocated(g, budget, k) * g.KidsBefore(|g.roots|) <= budget * g.KidsBefore(k)
    decreases k
  {
    if k > 0 {
      var total := g.KidsBefore(|g.roots|);
      var kids, slot := g.KidsIn(k - 1), Slot(g, budget, k - 1);
      AllocatedShare(g, budget, k - 1);
      ShareFloor(budget, kids, total);
      assert slot == Share(budget, kids, total);
      var used, before := Used(slot, kids), Allocated(g, budget, k - 1);
      assert Allocated(g, budget, k) == before + used && g.KidsBefore(k) == g.KidsBefore(k - 1) + kids;
      Monotone(used, slot, total);
      Distribute(before, used, total);
      Distribute(g.KidsBefore(k - 1), kids, budget);
      hide *;
    }
  }

  lemma {:induction false} KidsMonotone(g: Groups, a: nat, b: nat)
    requires g.Valid() && a <= b <= |g.roots|
    ensures g.KidsBefore(a) <= g.KidsBefore(b)
    decreases b
  {
    if a < b {
      KidsMonotone(g, a, b - 1);
    }
  }

  lemma {:induction false} NoKidsNoLines(g: Groups, budget: nat, k: nat)
    requires g.Valid() && k <= |g.roots| && g.KidsBefore(k) == 0
    ensures Allocated(g, budget, k) == 0
    decreases k
  {
    if k > 0 {
      NoKidsNoLines(g, budget, k - 1);
    }
  }

  /** Before the last group the floor shares stay within the budget. */
  lemma AllocatedBelow(g: Groups, budget: nat, k: nat)
    requires g.Valid() && k < |g.roots|
    ensures Allocated(g, budget, k) <= budget
  {
    var total := g.KidsBefore(|g.roots|);
    KidsMonotone(g, k, |g.roots|);
    if total == 0 {
      NoKidsNoLines(g, budget, k);
    } else {
      AllocatedShare(g, budget, k);
      Monotone(g.KidsBefore(k), total, budget);
      assert budget * g.KidsBefore(k) == g.KidsBefore(k) * budget && budget * total == total * budget;
      LeFromMul(Allocated(g, budget, k), budget, total);
    }
  }

  /** All the groups' child lines fit the budget: the last slot is what the others left. */
  lemma AllocatedWithin(g: Groups, budget: nat, k: nat)
    requires g.Valid() && k <= |g.roots|
    ensures Allocated(g, budget, k) <= budget
  {
    if 0 < k == |g.roots| {
      AllocatedBelow(g, budget, k - 1);
    } else if k > 0 {
      AllocatedBelow(g, budget, k);
    }
  }

  /** The frame never outgrows the terminal. */
  lemma RenderedFits(g: Groups, maxRows: nat)
    requires g.Valid()
    ensures |Rendered(g, maxRows)| <= maxRows
  {
    var budget := Monus(maxRows, |g.roots|);
    var n := if |g.roots| <= maxRows then |g.roots| else maxRows;
    BlocksLength(g, budget, n);
    AllocatedWithin(g, budget, n);
  }

  lemma {:induction false} RootInBlocks(g: Groups, budget: nat, k: nat, i: nat)
    requires g.Valid() && i < k <= |g.roots|
    ensures Shown(g.roots[i]) in Blocks(g, budget, k)
    decreases k
  {
    if i == k - 1 {
      var block := Block(g.roots[i], g.KidsIn(i), Slot(g, budget, i));
      assert block[0] == Shown(g.roots[i]);
    } else {
      hide Block;
      RootInBlocks(g, budget, k - 1, i);
    }
  }

  /** With no child lines to give, each block is its root alone. */
  lemma {:induction false} RootsAlone(g: Groups, k: nat)
    requires g.Valid() && k <= |g.roots|
    ensures |Blocks(g, 0, k)| == k && forall j | 0 <= j < k :: Blocks(g, 0, k)[j] == Shown(g.roots[j])
  {
    BlocksLength(g, 0, k);
    AllocatedWithin(g, 0, k);
    if k > 0 {
      RootsAlone(g, k - 1);
      assert Block(g.roots[k - 1], g.KidsIn(k - 1), Slot(g, 0, k - 1))[0] == Shown(g.roots[k - 1]);
      hide Block, Slot, Allocated;
    }
  }

  /** Which roots are shown: exactly the first `maxRows`. */
  lemma RootShownExactly(g: Groups, maxRows: nat, i: nat)
    requires g.Valid() && i < |g.roots|
    ensures Shown(g.roots[i]) in Rendered(g, maxRows) <==> i < maxRows
  {
    var n := if |g.roots| <= maxRows then |g.roots| else maxRows;
    if i < n {
      RootInBlocks(g, Monus(maxRows, |g.roots|), n, i);
    } else {
      RootsAlone(g, n);
    }
  }

  /** So every root is shown exactly when they all fit. */
  lemma RootsShown(g: Groups, maxRows: nat)
    requires g.Valid()
    ensures (forall i | 0 <= i < |g.roots| :: Shown(g.roots[i]) in Rendered(g, maxRows)) <==> |g.roots| <= maxRows
  {
    forall i | 0 <= i < |g.roots| ensures Shown(g.roots[i]) in Rendered(g, maxRows) <==> i < maxRows {
      RootShownExactly(g, maxRows, i);
    }
    hide Rendered;
  }

  lemma ShareEnough(budget: nat, kids: nat, total: nat)
    requires 0 < total <= budget
    ensures Share(budget, kids, total) >= kids
  {
    Monotone(total, budget, kids);
    var p := budget * kids;
    Floor(p, total);
    assert total * kids == kids * total;
    Distribute(p / total, 1, total);
    if p / total < kids {
      Monotone(p / total + 1, kids, total);
    }
  }

  lemma {:induction false} EnoughForAll(g: Groups, budget: nat, k: nat)
    requires g.Valid() && k <= |g.roots| && g.KidsBefore(|g.roots|) <= budget
    ensures Allocated(g, budget, k) == g.KidsBefore(k)
    ensures forall i | 0 <= i < k :: Slot(g, budget, i) >= g.KidsIn(i)
    decreases k
  {
    if k > 0 {
      EnoughForAll(g, budget, k - 1);
      KidsMonotone(g, k, |g.roots|);
      var total := g.KidsBefore(|g.roots|);
      if k < |g.roots| && total > 0 {
        ShareEnough(budget, g.KidsIn(k - 1), total);
      }
    }
  }

  lemma {:induction false} WholeBlocks(g: Groups, budget: nat, k: nat)
    requires g.Valid() && k <= |g.roots| && g.KidsBefore(|g.roots|) <= budget
    ensures Blocks(g, budget, k) == RowsFrom(0, k + g.KidsBefore(k))
    decreases k
  {
    if k > 0 {
      hide Block, Slot, RowsFrom;
      WholeBlocks(g, budget, k - 1);
      WholeLast(g, budget, k);
      RowsJoin(g.roots[k - 1], 1 + g.KidsIn(k - 1));
    }
  }

  lemma WholeLast(g: Groups, budget: nat, k: nat)
    requires g.Valid() && 0 < k <= |g.roots| && g.KidsBefore(|g.roots|) <= budget
    ensures var (root, kids) := (g.roots[k - 1], g.KidsIn(k - 1));
      && Block(root, kids, Slot(g, budget, k - 1)) == RowsFrom(root, 1 + kids)
      && k - 1 + g.KidsBefore(k - 1) == root && k + g.KidsBefore(k) == root + 1 + kids
  {
    EnoughForAll(g, budget, k);
    g.Tile(k - 1);
    hide Block, Slot, RowsFrom;
    WholeBlock(g.roots[k - 1], g.KidsIn(k - 1), Slot(g, budget, k - 1));
  }

  lemma WholeBlock(root: nat, kids: nat, slot: nat)
    requires slot >= kids
    ensures Block(root, kids, slot) == RowsFrom(root, 1 + kids)
  {
  }

  lemma RowsJoin(a: nat, b: nat)
    ensures RowsFrom(0, a) + RowsFrom(a, b) == RowsFrom(0, a + b)
  {
  }

  /** Nothing is elided when the whole tree fits: every row is shown, in order. */
  lemma WholeTreeShown(g: Groups, maxRows: nat)
    requires g.Valid() && g.treeLen <= maxRows
    ensures Rendered(g, maxRows) == RowsFrom(0, g.treeLen)
  {
    g.Tile(|g.roots|);
    WholeBlocks(g, maxRows - |g.roots|, |g.roots|);
  }

  // ── The loop ──

  method TotalChildren(g: Groups) returns (total: nat)
    requires g.Valid()
    ensures total == g.KidsBefore(|g.roots|)
  {
    total := 0;
    var k := 0;
    while k < |g.roots|
      invariant 0 <= k <= |g.roots| && total == g.KidsBefore(k)
    {
      total := total + g.KidsIn(k);
      k := k + 1;
    }
  }

  method RenderTree(g: Groups, maxRows: nat) returns (out: seq<Line>)
    requires g.Valid()
    ensures out == Rendered(g, maxRows)
  {
    hide Share, Block, Used, Limit;
    var nRoots := if |g.roots| <= maxRows then |g.roots| else maxRows;
    var budget := Monus(maxRows, |g.roots|);
    var total := TotalChildren(g);
    out := [];
    var spent := 0;
    var k := 0;
    while k < nRoots
      invariant 0 <= k <= nRoots <= |g.roots|
      invariant spent == Allocated(g, budget, k)
      invariant out == Blocks(g, budget, k)
    {
      var kids := g.KidsIn(k);
      var slot := if k + 1 == |g.roots| then Monus(budget, spent) else Share(budget, kids, total);
      var used, lines := EmitGroup(g.roots[k], kids, slot);
      spent := spent + used;
      out := out + lines;
      k := k + 1;
    }
  }

  /** A group's lines, one by one. */
  method EmitGroup(root: nat, kids: nat, slot: nat) returns (used: nat, lines: seq<Line>)
    ensures used == Used(slot, kids) && lines == Block(root, kids, slot)
  {
    var limit;
    if slot >= kids {
      limit, used := kids, kids;
    } else if slot > 0 {
      limit, used := slot - 1, slot;
    } else {
      limit, used := 0, 0;
    }
    lines := [Shown(root)];
    var ti := root + 1;
    while ti < root + 1 + limit
      invariant root + 1 <= ti <= root + 1 + limit
      invariant lines == RowsFrom(root, ti - root)
    {
      lines := lines + [Shown(ti)];
      ti := ti + 1;
    }
    if used > limit {
      lines := lines + [More(kids - limit)];
    }
  }
}
