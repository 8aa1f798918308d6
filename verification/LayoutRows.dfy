/** What each display row says: its depth, its mask of last-child ancestors, and the row above it
    that is its parent. */
module LayoutRows {
  import opened Wrappers
  import opened Forest
  import opened Layout

  /** `x` is the last child of its tracked parent. */
  ghost predicate IsLastChild(par: Parents, x: nat) {
    && x < |par| && par[x].Some?
    && var kids := Kids(par, par[x].value);
    kids != [] && kids[|kids| - 1] == x
  }

  /** Bit b is set exactly when the ancestor-or-self at level b + 1 is a last child. */
  ghost function TrueMask(par: Parents, i: nat): set<nat>
    requires Rooted(par, i)
  {
    set b: nat | b < 32 && LastAt(par, i, b)
  }

  /** The ancestor-or-self of `i` at level b + 1 exists and is a last child. */
  ghost predicate LastAt(par: Parents, i: nat, b: nat)
    requires Rooted(par, i)
  {
    b < Level(par, i) && IsLastChild(par, AncestorAt(par, i, b + 1))
  }

  function Saturated(d: nat): nat {
    if d < 255 then d else 255
  }

  /** A pending visit carries its true depth, its parent's true mask and its true last-child flag. */
  ghost predicate Sound(par: Parents, w: Work) {
    && Rooted(par, w.idx)
    && w.depth == Saturated(Level(par, w.idx))
    && if par[w.idx].None? then w.mask == {}
       else && w.isLast == IsLastChild(par, w.idx)
            && Rooted(par, par[w.idx].value)
            && w.mask == TrueMask(par, par[w.idx].value)
  }

  lemma SoundMask(par: Parents, w: Work)
    requires Sound(par, w)
    ensures OwnMask(w) == TrueMask(par, w.idx)
  {
    LevelStep(par, w.idx);
    if par[w.idx].Some? {
      var up, d := par[w.idx].value, Level(par, w.idx);
      forall b: nat ensures LastAt(par, w.idx, b) <==> LastAt(par, up, b) || (b == d - 1 && IsLastChild(par, w.idx)) {
        if b < d - 1 {
          assert AncestorAt(par, w.idx, b + 1) == AncestorAt(par, up, b + 1);
        } else if b == d - 1 {
          assert AncestorAt(par, w.idx, b + 1) == w.idx;
        }
      }
      hide LastAt, IsLastChild;
    }
  }

  lemma KidSound(par: Parents, w: Work, k: nat)
    requires Sound(par, w) && k < |Kids(par, w.idx)|
    ensures Sound(par, KidWork(Kids(par, w.idx), w)[k])
  {
    SoundMask(par, w);
    KidsExact(par, w.idx);
    var kids := Kids(par, w.idx);
    assert kids[k] in kids;
    LevelStep(par, kids[k]);
    var kid := KidWork(kids, w)[k];
    assert kid.idx == kids[k] && kid.depth == SatInc(w.depth);
    assert Level(par, kid.idx) == Level(par, w.idx) + 1;
    if k < |kids| - 1 {
      assert kids[k] < kids[|kids| - 1];
    }
  }

  /** A row with its true depth and mask. */
  ghost predicate TrueRow(par: Parents, row: (Indent, nat)) {
    Rooted(par, row.1) && row.0 == Indent(Saturated(Level(par, row.1)), TrueMask(par, row.1))
  }

  lemma {:induction false} VisitTrue(par: Parents, w: Work, d: nat, k: nat)
    requires AtDepth(par, w.idx, d) && Sound(par, w) && k < |Visit(par, w, d)|
    ensures TrueRow(par, Visit(par, w, d)[k])
    decreases |par| - d, 0
  {
    SoundMask(par, w);
    if k > 0 {
      KidsAtLevel(par, w, d);
      var ws := KidWork(Kids(par, w.idx), w);
      forall m | 0 <= m < |ws| ensures Sound(par, ws[m]) {
        KidSound(par, w, m);
      }
      VisitAllTrue(par, ws, d + 1, k - 1);
    }
  }

  lemma {:induction false} VisitAllTrue(par: Parents, ws: seq<Work>, d: nat, k: nat)
    requires AtLevel(par, ws, d) && k < |VisitAll(par, ws, d)|
    requires forall m | 0 <= m < |ws| :: Sound(par, ws[m])
    ensures TrueRow(par, VisitAll(par, ws, d)[k])
    decreases |par| - d, |ws|
  {
    var first := Visit(par, ws[0], d);
    if k < |first| {
      VisitTrue(par, ws[0], d, k);
    } else {
      VisitAllTrue(par, ws[1..], d, k - |first|);
    }
  }

  lemma {:induction false} RootsSound(par: Parents, n: nat)
    requires n <= |par|
    ensures forall m | 0 <= m < |RootWork(par, n)| :: Sound(par, RootWork(par, n)[m])
    decreases n
  {
    if n > 0 {
      RootsSound(par, n - 1);
      LevelStep(par, n - 1);
    }
  }

  /** Every row of the display shows its true depth, saturated at 255, and its true mask. */
  lemma DisplayTrue(par: Parents, k: nat)
    requires k < |Display(par)|
    ensures TrueRow(par, Display(par)[k])
  {
    RootsSound(par, |par|);
    VisitAllTrue(par, RootWork(par, |par|), 0, k);
  }

  // ── Where a row's parent is drawn ──

  /** Row `q` is the parent of row `k`, and no row between them is as shallow as row `q`. */
  ghost predicate DrawnUnder(par: Parents, rows: Rows, q: nat, k: nat) {
    && q < k < |rows| && rows[k].1 < |par| && par[rows[k].1] == Some(rows[q].1)
    && Rooted(par, rows[q].1)
    && forall m | q < m <= k :: Deeper(par, rows[m].1, Level(par, rows[q].1))
  }

  ghost predicate Deeper(par: Parents, i: nat, d: nat) {
    Rooted(par, i) && Level(par, i) > d
  }

  lemma DrawnShift(par: Parents, a: Rows, b: Rows, c: Rows, q: nat, k: nat)
    requires DrawnUnder(par, b, q, k)
    ensures DrawnUnder(par, a + b + c, |a| + q, |a| + k)
  {
    var rows := a + b + c;
    forall m | |a| + q < m <= |a| + k ensures Deeper(par, rows[m].1, Level(par, b[q].1)) {
      assert rows[m] == b[m - |a|];
      assert Deeper(par, b[m - |a|].1, Level(par, b[q].1));
    }
  }

  lemma {:induction false} VisitDrawn(par: Parents, w: Work, d: nat, k: nat) returns (q: nat)
    requires AtDepth(par, w.idx, d) && 0 < k < |Visit(par, w, d)|
    ensures DrawnUnder(par, Visit(par, w, d), q, k)
    decreases |par| - d, 0
  {
    LevelIs(par, w.idx, d);
    KidsAtLevel(par, w, d);
    KidsExact(par, w.idx);
    var ws, rows := KidWork(Kids(par, w.idx), w), Visit(par, w, d);
    var below := VisitAll(par, ws, d + 1);
    assert rows == [Row(w)] + below + [];
    var top, p := VisitAllDrawn(par, ws, d + 1, k - 1);
    if top < |ws| {
      q := 0;
      assert ws[top].idx in Kids(par, w.idx);
      forall m | 0 < m <= k ensures Deeper(par, rows[m].1, d) {
        var kid := VisitAllUnder(par, ws, d + 1, m - 1);
        LevelIs(par, ws[kid].idx, d + 1);
      }
    } else {
      q := p + 1;
      DrawnShift(par, [Row(w)], below, [], p, k - 1);
    }
  }

  /** Row `k` heads the visit of `ws[top]`, or its parent `q` is among the same rows. */
  lemma {:induction false} VisitAllDrawn(par: Parents, ws: seq<Work>, d: nat, k: nat) returns (top: nat, q: nat)
    requires AtLevel(par, ws, d) && k < |VisitAll(par, ws, d)|
    ensures top < |ws| ==> VisitAll(par, ws, d)[k].1 == ws[top].idx
    ensures top >= |ws| ==> DrawnUnder(par, VisitAll(par, ws, d), q, k)
    decreases |par| - d, |ws|
  {
    var first, rest := Visit(par, ws[0], d), VisitAll(par, ws[1..], d);
    if k == 0 {
      top, q := 0, 0;
    } else if k < |first| {
      q := VisitDrawn(par, ws[0], d, k);
      top := |ws|;
      DrawnShift(par, [], first, rest, q, k);
      assert [] + first + rest == VisitAll(par, ws, d);
    } else {
      top, q := VisitAllDrawn(par, ws[1..], d, k - |first|);
      if top >= |ws| - 1 {
        DrawnShift(par, first, rest, [], q, k - |first|);
        assert first + rest + [] == VisitAll(par, ws, d);
        q := |first| + q;
      }
      top := top + 1;
    }
  }

  /** In the display, a row either is a root or is drawn under its tracked parent: the nearest row
      above it that is shallower. */
  lemma DisplayDrawn(par: Parents, k: nat) returns (q: nat)
    requires k < |Display(par)|
    ensures var i := Display(par)[k].1;
      i < |par| && (par[i].None? || DrawnUnder(par, Display(par), q, k))
  {
    DisplayMembers(par, Display(par)[k].1);
    var ws := RootWork(par, |par|);
    var top, p := VisitAllDrawn(par, ws, 0, k);
    q := p;
    assert HasRow(Display(par), Display(par)[k].1);
  }
}
