/**
 The recursive pre-order visit of the process tree, and what it emits: each process whose chain
 leaves the tracked set once, with its depth and last-child mask.
 */
module Layout {
  import opened Wrappers
  import opened Forest
  import opened Sequences

  /** `mask` is the set of one-bits of the source's u32. */
  datatype Indent = Indent(depth: nat, mask: set<nat>)

  /** One pending visit: the index, its depth, its parent's mask, and whether it is a last child. */
  datatype Work = Work(idx: nat, depth: nat, mask: set<nat>, isLast: bool)

  type Rows = seq<(Indent, nat)>

  /** u8 saturating increment. */
  function SatInc(depth: nat): nat {
    if depth >= 255 then 255 else depth + 1
  }

  function OwnMask(w: Work): set<nat> {
    if 0 < w.depth <= 32 && w.isLast then w.mask + {w.depth - 1} else w.mask
  }

  function Row(w: Work): (Indent, nat) {
    (Indent(w.depth, OwnMask(w)), w.idx)
  }

  function KidWork(kids: seq<nat>, w: Work): (r: seq<Work>)
    ensures |r| == |kids|
  {
    seq(|kids|, i requires 0 <= i < |kids| => Work(kids[i], SatInc(w.depth), OwnMask(w), i == |kids| - 1))
  }

  /** All of `ws` lie at level `d`. */
  ghost predicate AtLevel(par: Parents, ws: seq<Work>, d: nat) {
    forall k | 0 <= k < |ws| :: AtDepth(par, ws[k].idx, d)
  }

  lemma KidsAtLevel(par: Parents, w: Work, d: nat)
    requires AtDepth(par, w.idx, d)
    ensures AtLevel(par, KidWork(Kids(par, w.idx), w), d + 1)
    ensures d < |par|
  {
    KidsExact(par, w.idx);
    LevelIs(par, w.idx, d);
    DepthBelow(par, w.idx);
    var kids := Kids(par, w.idx);
    forall k | 0 <= k < |kids| ensures AtDepth(par, kids[k], d + 1) {
      assert kids[k] in kids;
    }
  }

  /** The recursive visit: the node, then each child's subtree in order. */
  ghost function Visit(par: Parents, w: Work, d: nat): (rows: Rows)
    requires AtDepth(par, w.idx, d)
    ensures rows != [] && rows[0] == Row(w)
    decreases |par| - d, 0
  {
    KidsAtLevel(par, w, d);
    [Row(w)] + VisitAll(par, KidWork(Kids(par, w.idx), w), d + 1)
  }

  ghost function VisitAll(par: Parents, ws: seq<Work>, d: nat): (rows: Rows)
    requires AtLevel(par, ws, d)
    ensures |rows| >= |ws|
    decreases |par| - d, |ws|
  {
    if ws == [] then [] else Visit(par, ws[0], d) + VisitAll(par, ws[1..], d)
  }

  /** Roots among the first `n` processes: those whose ppid is not tracked, in order. */
  ghost function RootWork(par: Parents, n: nat): (ws: seq<Work>)
    requires n <= |par|
    ensures AtLevel(par, ws, 0)
    ensures forall k | 0 <= k < |ws| :: ws[k] == Work(ws[k].idx, 0, {}, true) && ws[k].idx < n
    ensures forall i, j | 0 <= i < j < |ws| :: ws[i].idx < ws[j].idx
  {
    if n == 0 then []
    else RootWork(par, n - 1) + if par[n - 1].None? then [Work(n - 1, 0, {}, true)] else []
  }

  /** The whole display: every root's visit, in process order. */
  ghost function Display(par: Parents): Rows {
    VisitAll(par, RootWork(par, |par|), 0)
  }

  lemma {:induction false} VisitAllAppend(par: Parents, a: seq<Work>, b: seq<Work>, d: nat)
    requires AtLevel(par, a, d) && AtLevel(par, b, d)
    ensures AtLevel(par, a + b, d)
    ensures VisitAll(par, a + b, d) == VisitAll(par, a, d) + VisitAll(par, b, d)
  {
    if a == [] {
      assert a + b == b;
    } else {
      VisitAllAppend(par, a[1..], b, d);
      assert (a + b)[1..] == a[1..] + b && (a + b)[0] == a[0];
      Regroup(Visit(par, a[0], d), VisitAll(par, a[1..], d), VisitAll(par, b, d));
      hide Visit, AtDepth;
    }
  }

  // ── Membership: the rows under a node are its subtree, each once ──

  ghost predicate HasRow(rows: Rows, j: nat) {
    exists k | 0 <= k < |rows| :: rows[k].1 == j
  }

  /** Every row of a visit belongs to the subtree of the visited node. */
  lemma {:induction false} VisitUnder(par: Parents, w: Work, d: nat, k: nat)
    requires AtDepth(par, w.idx, d) && k < |Visit(par, w, d)|
    ensures Rooted(par, w.idx) && Under(par, Visit(par, w, d)[k].1, w.idx)
    decreases |par| - d, 0
  {
    LevelIs(par, w.idx, d);
    KidsAtLevel(par, w, d);
    if k > 0 {
      var ws := KidWork(Kids(par, w.idx), w);
      var m := VisitAllUnder(par, ws, d + 1, k - 1);
      KidsExact(par, w.idx);
      assert ws[m].idx in Kids(par, w.idx);
      UnderStep(par, Visit(par, w, d)[k].1, ws[m].idx, w.idx);
    }
  }

  lemma {:induction false} VisitAllUnder(par: Parents, ws: seq<Work>, d: nat, k: nat) returns (m: nat)
    requires AtLevel(par, ws, d) && k < |VisitAll(par, ws, d)|
    ensures m < |ws| && Rooted(par, ws[m].idx) && Under(par, VisitAll(par, ws, d)[k].1, ws[m].idx)
    decreases |par| - d, |ws|
  {
    var first := Visit(par, ws[0], d);
    if k < |first| {
      VisitUnder(par, ws[0], d, k);
      m := 0;
    } else {
      m := VisitAllUnder(par, ws[1..], d, k - |first|);
      m := m + 1;
    }
  }

  /** A subtree of a child is within the subtree of the parent. */
  lemma UnderStep(par: Parents, i: nat, kid: nat, a: nat)
    requires Rooted(par, kid) && Rooted(par, a) && kid < |par| && par[kid] == Some(a) && Under(par, i, kid)
    ensures Under(par, i, a)
    decreases if Rooted(par, i) then Level(par, i) else 0
  {
    LevelStep(par, kid);
    LevelStep(par, i);
    if i != kid {
      UnderStep(par, par[i].value, kid, a);
    } else {
      assert AncestorAt(par, a, Level(par, a)) == a;
    }
  }

  /** Every process of a node's subtree has a row in its visit. */
  lemma {:induction false} UnderVisited(par: Parents, w: Work, d: nat, j: nat)
    requires AtDepth(par, w.idx, d) && Rooted(par, w.idx) && Under(par, j, w.idx)
    ensures HasRow(Visit(par, w, d), j)
    decreases |par| - d, 0
  {
    LevelIs(par, w.idx, d);
    KidsAtLevel(par, w, d);
    var rows := Visit(par, w, d);
    if j == w.idx {
      assert rows[0].1 == j;
    } else {
      UnderChild(par, j, w.idx);
      KidsExact(par, w.idx);
      var c := AncestorAt(par, j, d + 1);
      var ws := KidWork(Kids(par, w.idx), w);
      var m :| 0 <= m < |Kids(par, w.idx)| && Kids(par, w.idx)[m] == c;
      assert ws[m].idx == c;
      UnderVisitedAll(par, ws, d + 1, m, j);
      var k :| 0 <= k < |VisitAll(par, ws, d + 1)| && VisitAll(par, ws, d + 1)[k].1 == j;
      assert rows[k + 1].1 == j;
    }
  }

  lemma {:induction false} UnderVisitedAll(par: Parents, ws: seq<Work>, d: nat, m: nat, j: nat)
    requires AtLevel(par, ws, d) && m < |ws| && Rooted(par, ws[m].idx) && Under(par, j, ws[m].idx)
    ensures HasRow(VisitAll(par, ws, d), j)
    decreases |par| - d, |ws|
  {
    var first, rest := Visit(par, ws[0], d), VisitAll(par, ws[1..], d);
    if m == 0 {
      UnderVisited(par, ws[0], d, j);
      var k :| 0 <= k < |first| && first[k].1 == j;
      assert (first + rest)[k].1 == j;
    } else {
      UnderVisitedAll(par, ws[1..], d, m - 1, j);
      var k :| 0 <= k < |rest| && rest[k].1 == j;
      assert (first + rest)[|first| + k].1 == j;
    }
  }

  ghost predicate Distinct(rows: Rows) {
    forall a, b | 0 <= a < b < |rows| :: rows[a].1 != rows[b].1
  }

  ghost predicate DistinctWork(ws: seq<Work>) {
    forall a, b | 0 <= a < b < |ws| :: ws[a].idx != ws[b].idx
  }

  lemma {:induction false} VisitDistinct(par: Parents, w: Work, d: nat)
    requires AtDepth(par, w.idx, d)
    ensures Distinct(Visit(par, w, d))
    decreases |par| - d, 0
  {
    KidsAtLevel(par, w, d);
    KidsExact(par, w.idx);
    LevelIs(par, w.idx, d);
    var ws := KidWork(Kids(par, w.idx), w);
    VisitAllDistinct(par, ws, d + 1);
    var rest := VisitAll(par, ws, d + 1);
    forall k | 0 <= k < |rest| ensures rest[k].1 != w.idx {
      var m := VisitAllUnder(par, ws, d + 1, k);
      LevelIs(par, ws[m].idx, d + 1);
    }
  }

  lemma {:induction false} VisitAllDistinct(par: Parents, ws: seq<Work>, d: nat)
    requires AtLevel(par, ws, d) && DistinctWork(ws)
    ensures Distinct(VisitAll(par, ws, d))
    decreases |par| - d, |ws|
  {
    if ws != [] {
      VisitDistinct(par, ws[0], d);
      VisitAllDistinct(par, ws[1..], d);
      var first, rest := Visit(par, ws[0], d), VisitAll(par, ws[1..], d);
      forall a, b | 0 <= a < |first| && 0 <= b < |rest| ensures first[a].1 != rest[b].1 {
        VisitUnder(par, ws[0], d, a);
        var m := VisitAllUnder(par, ws[1..], d, b);
        LevelIs(par, ws[0].idx, d);
        LevelIs(par, ws[1 + m].idx, d);
      }
    }
  }

  lemma {:induction false} RootsListed(par: Parents, n: nat, i: nat)
    requires n <= |par| && i < n && par[i].None?
    ensures Work(i, 0, {}, true) in RootWork(par, n)
    decreases n
  {
    if i < n - 1 {
      RootsListed(par, n - 1, i);
    }
  }

  /** The display shows exactly the processes whose chain leaves the tracked set, each once. */
  lemma DisplayMembers(par: Parents, j: nat)
    ensures HasRow(Display(par), j) <==> Rooted(par, j)
    ensures Distinct(Display(par))
  {
    var ws := RootWork(par, |par|);
    VisitAllDistinct(par, ws, 0);
    if HasRow(Display(par), j) {
      var k :| 0 <= k < |Display(par)| && Display(par)[k].1 == j;
      var m := VisitAllUnder(par, ws, 0, k);
    }
    if Rooted(par, j) {
      var root := AncestorAt(par, j, 0);
      RootsListed(par, |par|, root);
      var m :| 0 <= m < |ws| && ws[m] == Work(root, 0, {}, true);
      UnderVisitedAll(par, ws, 0, m, j);
    }
  }

  ghost function RowSet(rows: Rows): (s: set<nat>)
    requires Distinct(rows)
    ensures |s| == |rows|
    ensures forall j | j in s :: HasRow(rows, j)
    decreases |rows|
  {
    if rows == [] then {}
    else
      var front := rows[..|rows| - 1];
      var j := rows[|rows| - 1].1;
      var s := RowSet(front);
      assert !HasRow(front, j);
      assert forall i | i in s :: HasRow(rows, i) by {
        forall i | i in s ensures HasRow(rows, i) {
          var k :| 0 <= k < |front| && front[k].1 == i;
          assert rows[k].1 == i;
        }
      }
      assert HasRow(rows, j);
      s + {j}
  }

  /** So the display never needs more rows than there are processes. */
  lemma DisplayFits(par: Parents)
    ensures |Display(par)| <= |par|
  {
    DisplayMembers(par, 0);
    var s := RowSet(Display(par));
    forall j | j in s ensures j < |par| {
      DisplayMembers(par, j);
    }
    SubsetSize(s, |par|);
  }
}
