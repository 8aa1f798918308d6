/**
 The order of the display's rows, said without the visit: every process stands above its subtree, and of two others the
 one whose line of ancestors first turns to the smaller index.
 */
module LayoutOrder {
  import opened Forest
  import opened Layout

  /** At level `d` the two part: below the same parent, or as roots, at a smaller and a greater index. */
  ghost predicate PartAt(par: Parents, i: nat, j: nat, d: nat)
    requires Rooted(par, i) && Rooted(par, j)
  {
    && d <= Level(par, i) && d <= Level(par, j)
    && AncestorAt(par, i, d) < AncestorAt(par, j, d) < |par|
    && par[AncestorAt(par, i, d)] == par[AncestorAt(par, j, d)]
  }

  ghost predicate Precedes(par: Parents, i: nat, j: nat) {
    && Rooted(par, i) && Rooted(par, j)
    && (Under(par, j, i) || exists d: nat :: PartAt(par, i, j, d))
  }

  /** Work in increasing order below one parent. */
  ghost predicate Siblings(par: Parents, ws: seq<Work>, d: nat) {
    && AtLevel(par, ws, d)
    && (forall m, n | 0 <= m < n < |ws| :: ws[m].idx < ws[n].idx)
    && forall m, n | 0 <= m < |ws| && 0 <= n < |ws| :: par[ws[m].idx] == par[ws[n].idx]
  }

  lemma {:induction false} VisitOrder(par: Parents, w: Work, d: nat, k: nat, l: nat)
    requires AtDepth(par, w.idx, d) && k < l < |Visit(par, w, d)|
    ensures var rows := Visit(par, w, d);
      Precedes(par, rows[k].1, rows[l].1)
    decreases |par| - d, 0
  {
    LevelIs(par, w.idx, d);
    KidsAtLevel(par, w, d);
    if k == 0 {
      VisitUnder(par, w, d, l);
    } else {
      var ws := KidWork(Kids(par, w.idx), w);
      KidsSiblings(par, w, d);
      VisitAllOrder(par, ws, d + 1, k - 1, l - 1);
    }
  }

  lemma KidsSiblings(par: Parents, w: Work, d: nat)
    requires AtDepth(par, w.idx, d)
    ensures Siblings(par, KidWork(Kids(par, w.idx), w), d + 1)
  {
    KidsAtLevel(par, w, d);
    KidsExact(par, w.idx);
    var kids := Kids(par, w.idx);
    assert forall m | 0 <= m < |kids| :: kids[m] in kids;
  }

  lemma {:induction false} VisitAllOrder(par: Parents, ws: seq<Work>, d: nat, k: nat, l: nat)
    requires Siblings(par, ws, d) && k < l < |VisitAll(par, ws, d)|
    ensures var rows := VisitAll(par, ws, d);
      Precedes(par, rows[k].1, rows[l].1)
    decreases |par| - d, |ws|
  {
    var n := |Visit(par, ws[0], d)|;
    if l < n {
      VisitOrder(par, ws[0], d, k, l);
    } else if n <= k {
      VisitAllOrder(par, ws[1..], d, k - n, l - n);
    } else {
      VisitUnder(par, ws[0], d, k);
      var m := VisitAllUnder(par, ws[1..], d, l - n);
      LevelIs(par, ws[0].idx, d);
      LevelIs(par, ws[1 + m].idx, d);
      assert PartAt(par, VisitAll(par, ws, d)[k].1, VisitAll(par, ws, d)[l].1, d);
    }
  }

  /** The rows come in that order. */
  lemma DisplayOrder(par: Parents, k: nat, l: nat)
    requires k < l < |Display(par)|
    ensures Precedes(par, Display(par)[k].1, Display(par)[l].1)
  {
    var ws := RootWork(par, |par|);
    assert forall m | 0 <= m < |ws| :: par[ws[m].idx].None?;
    VisitAllOrder(par, ws, 0, k, l);
  }

  /** The order is strict, so it tells the rows' places. */
  lemma PrecedesOneWay(par: Parents, i: nat, j: nat)
    requires i != j && Precedes(par, i, j)
    ensures !Precedes(par, j, i)
  {
    if Precedes(par, j, i) {
      if Under(par, j, i) {
        if !Under(par, i, j) {
          var e: nat :| PartAt(par, j, i, e);
          AncestorTwice(par, j, Level(par, i), e);
        }
      } else {
        var d: nat :| PartAt(par, i, j, d);
        if Under(par, i, j) {
          AncestorTwice(par, i, Level(par, j), d);
        } else {
          var e: nat :| PartAt(par, j, i, e);
          if d < e {
            AgreeBelow(par, i, j, e, d);
          } else if e < d {
            AgreeBelow(par, i, j, d, e);
          }
        }
      }
    }
  }

  lemma {:induction false} AncestorTwice(par: Parents, i: nat, e: nat, d: nat)
    requires Rooted(par, i) && d <= e <= Level(par, i)
    ensures AncestorAt(par, AncestorAt(par, i, e), d) == AncestorAt(par, i, d)
    decreases Level(par, i)
  {
    LevelStep(par, i);
    if e < Level(par, i) {
      AncestorTwice(par, par[i].value, e, d);
    }
  }

  /** Below the same parent, and above it, the lines of ancestors are the same. */
  lemma AgreeBelow(par: Parents, i: nat, j: nat, e: nat, d: nat)
    requires Rooted(par, i) && Rooted(par, j) && d < e <= Level(par, i) && e <= Level(par, j)
    requires AncestorAt(par, i, e) < |par| && AncestorAt(par, j, e) < |par|
    requires par[AncestorAt(par, i, e)] == par[AncestorAt(par, j, e)]
    ensures AncestorAt(par, i, d) == AncestorAt(par, j, d)
  {
    AncestorTwice(par, i, e, d);
    AncestorTwice(par, j, e, d);
    LevelStep(par, AncestorAt(par, i, e));
    LevelStep(par, AncestorAt(par, j, e));
  }

  /** Which of two processes on display comes first. */
  lemma DisplayOrderExactly(par: Parents, k: nat, l: nat)
    requires k < |Display(par)| && l < |Display(par)| && k != l
    ensures k < l <==> Precedes(par, Display(par)[k].1, Display(par)[l].1)
  {
    DisplayMembers(par, 0);
    if k < l {
      DisplayOrder(par, k, l);
    } else {
      DisplayOrder(par, l, k);
      PrecedesOneWay(par, Display(par)[l].1, Display(par)[k].1);
    }
  }

  /** So siblings stand in index order. */
  lemma SiblingsInOrder(par: Parents, k: nat, l: nat)
    requires k < |Display(par)| && l < |Display(par)| && Display(par)[k].1 < Display(par)[l].1 < |par|
    requires par[Display(par)[k].1] == par[Display(par)[l].1]
    ensures k < l
  {
    var i, j := Display(par)[k].1, Display(par)[l].1;
    DisplayMembers(par, i);
    DisplayMembers(par, j);
    LevelStep(par, i);
    LevelStep(par, j);
    assert PartAt(par, i, j, Level(par, i));
    DisplayOrderExactly(par, k, l);
  }
}
