/** From the laid-out tree to the row budget: the roots handed to the renderer. */
module Screen {
  import opened Forest
  import opened Layout
  import opened LayoutRows
  import opened Render

  /** Positions of the depth-0 rows among the first `n`, in order. */
  ghost function RootsAt(rows: Rows, n: nat): (r: seq<nat>)
    requires n <= |rows|
    ensures forall i, j | 0 <= i < j < |r| :: r[i] < r[j]
    ensures forall i | 0 <= i < |r| :: r[i] < n && rows[r[i]].0.depth == 0
    ensures forall k | 0 <= k < n && rows[k].0.depth == 0 :: k in r
    ensures n > 0 && rows[0].0.depth == 0 ==> r != [] && r[0] == 0
  {
    if n == 0 then [] else
      var r := RootsAt(rows, n - 1);
      if rows[n - 1].0.depth == 0 then r + [n - 1] else r
  }

  /** Collect the roots of the tree. */
  method CollectRoots(tree: seq<(Indent, nat)>) returns (roots: seq<nat>)
    ensures roots == RootsAt(tree, |tree|)
    ensures forall k: nat :: k in roots <==> k < |tree| && tree[k].0.depth == 0
  {
    roots := [];
    var i := 0;
    while i < |tree|
      invariant 0 <= i <= |tree| && roots == RootsAt(tree, i)
    {
      if tree[i].0.depth == 0 {
        roots := roots + [i];
      }
      i := i + 1;
    }
  }

  /** A display always meets the renderer's terms: its first row is a root. */
  lemma DisplayGroups(par: Parents)
    ensures var rows := Display(par);
      Groups(RootsAt(rows, |rows|), |rows|).Valid()
  {
    var rows, ws := Display(par), RootWork(par, |par|);
    if ws != [] {
      assert rows[0] == Row(ws[0]);
      assert rows[0].0.depth == 0;
    }
  }

  /** A row is a root of the display exactly when its process has no tracked parent. */
  lemma RootRowsAreRoots(par: Parents, k: nat)
    requires k < |Display(par)|
    ensures Display(par)[k].1 < |par|
    ensures Display(par)[k].0.depth == 0 <==> par[Display(par)[k].1].None?
  {
    var i := Display(par)[k].1;
    DisplayTrue(par, k);
    LevelStep(par, i);
  }
}
