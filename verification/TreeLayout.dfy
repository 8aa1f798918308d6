/**
 The iterative layout: an explicit stack and a reserved output, each with one slot per process,
 that emit the recursive pre-order visit without ever dropping a push.
 */
module TreeLayout {
  import opened FixedVec
  import opened FlatMap
  import opened Nest
  import opened Forest
  import opened Layout
  import opened Procs
  import opened Sequences

  /** Every pending visit is of a rooted process. */
  ghost predicate Pending(par: Parents, stack: seq<Work>) {
    forall k | 0 <= k < |stack| :: Rooted(par, stack[k].idx)
  }

  /** What the stack still owes, top first. */
  ghost function Owed(par: Parents, stack: seq<Work>): (rows: Rows)
    requires Pending(par, stack)
    ensures |rows| >= |stack|
  {
    if stack == [] then []
    else
      var top := stack[|stack| - 1];
      Visit(par, top, Level(par, top.idx)) + Owed(par, stack[..|stack| - 1])
  }

  lemma OwedPush(par: Parents, stack: seq<Work>, w: Work, d: nat)
    requires Pending(par, stack) && AtDepth(par, w.idx, d)
    ensures Pending(par, stack + [w])
    ensures Owed(par, stack + [w]) == Visit(par, w, d) + Owed(par, stack)
  {
    LevelIs(par, w.idx, d);
    assert (stack + [w])[..|stack|] == stack;
  }

  /** Children `from..` pushed in reverse over `base` owe their visits in forward order. */
  lemma PushKid(par: Parents, base: seq<Work>, stack: seq<Work>, ws: seq<Work>, from: nat, d: nat)
    requires Pending(par, base) && Pending(par, stack) && AtLevel(par, ws, d) && 0 < from <= |ws|
    requires AtLevel(par, ws[from..], d)
    requires Owed(par, stack) == VisitAll(par, ws[from..], d) + Owed(par, base)
    ensures AtLevel(par, ws[from - 1..], d) && Pending(par, stack + [ws[from - 1]])
    ensures Owed(par, stack + [ws[from - 1]]) == VisitAll(par, ws[from - 1..], d) + Owed(par, base)
    ensures |VisitAll(par, ws[from - 1..], d)| <= |VisitAll(par, ws, d)|
  {
    hide Visit, VisitAll, Owed, AtDepth, Level, Rooted;
    OwedPush(par, stack, ws[from - 1], d);
    SuffixHead(par, ws, from, d);
    Regroup(Visit(par, ws[from - 1], d), VisitAll(par, ws[from..], d), Owed(par, base));
  }

  lemma SuffixHead(par: Parents, ws: seq<Work>, from: nat, d: nat)
    requires AtLevel(par, ws, d) && 0 < from <= |ws|
    ensures AtLevel(par, ws[from..], d) && AtLevel(par, ws[from - 1..], d) && AtDepth(par, ws[from - 1].idx, d)
    ensures VisitAll(par, ws[from - 1..], d) == Visit(par, ws[from - 1], d) + VisitAll(par, ws[from..], d)
    ensures |VisitAll(par, ws[from - 1..], d)| <= |VisitAll(par, ws, d)|
  {
    hide Visit, VisitAll, AtDepth;
    var more := ws[from - 1..];
    assert more[0] == ws[from - 1] && more[1..] == ws[from..];
    VisitAllHead(par, more, d);
    VisitAllAppend(par, ws[..from - 1], more, d);
    assert ws[..from - 1] + more == ws;
  }

  lemma VisitAllHead(par: Parents, ws: seq<Work>, d: nat)
    requires AtLevel(par, ws, d) && ws != []
    ensures AtLevel(par, ws[1..], d)
    ensures VisitAll(par, ws, d) == Visit(par, ws[0], d) + VisitAll(par, ws[1..], d)
  {
  }

  /** Push a node's children in reverse; the n-slot stack has room for all of them. */
  method PushKids(ghost par: Parents, kids: seq<nat>, w: Work, stack: FVec<Work>, ghost d: nat)
    requires stack.Valid() && Pending(par, stack.Items())
    requires AtLevel(par, KidWork(kids, w), d)
    requires |VisitAll(par, KidWork(kids, w), d)| + |Owed(par, stack.Items())| <= stack.slots.Length
    modifies stack, stack.slots
    ensures stack.Valid() && Pending(par, stack.Items())
    ensures Owed(par, stack.Items()) == VisitAll(par, KidWork(kids, w), d) + old(Owed(par, stack.Items()))
  {
    ghost var base, ws := stack.Items(), KidWork(kids, w);
    hide VisitAll, Owed;
    var lastI := if |kids| == 0 then 0 else |kids| - 1;
    var i := |kids|;
    assert ws[i..] == [];
    OwedNone(par, base, d);
    while i > 0
      invariant 0 <= i <= |kids|
      invariant stack.Valid() && Pending(par, stack.Items()) && AtLevel(par, ws[i..], d)
      invariant Owed(par, stack.Items()) == VisitAll(par, ws[i..], d) + Owed(par, base)
    {
      i := i - 1;
      PushKid(par, base, stack.Items(), ws, i + 1, d);
      assert ws[i] == Work(kids[i], SatInc(w.depth), OwnMask(w), i == lastI);
      assert |stack.Items()| < stack.slots.Length;
      var _ := stack.Push(Work(kids[i], SatInc(w.depth), OwnMask(w), i == lastI));
    }
    assert ws[i..] == ws;
  }

  lemma OwedNone(par: Parents, base: seq<Work>, d: nat)
    requires Pending(par, base)
    ensures Owed(par, base) == VisitAll(par, [], d) + Owed(par, base)
  {
  }

  /** Taking the top off the stack: its row, then its children's visits, then the rest. */
  lemma OwedPop(par: Parents, rest: seq<Work>, w: Work)
    requires Pending(par, rest + [w])
    ensures Pending(par, rest) && Rooted(par, w.idx)
    ensures var d := Level(par, w.idx);
      && AtLevel(par, KidWork(Kids(par, w.idx), w), d + 1)
      && Owed(par, rest + [w]) == [Row(w)] + (VisitAll(par, KidWork(Kids(par, w.idx), w), d + 1) + Owed(par, rest))
  {
    assert (rest + [w])[|rest|] == w && (rest + [w])[..|rest|] == rest;
    forall k | 0 <= k < |rest| ensures Rooted(par, rest[k].idx) {
      assert (rest + [w])[k] == rest[k];
    }
    KidsAtLevel(par, w, Level(par, w.idx));
  }

  /** Rows emitted so far, then what the stack owes, are the rows wanted. */
  ghost predicate Walking(par: Parents, out: Rows, stack: seq<Work>, goal: Rows) {
    Pending(par, stack) && out + Owed(par, stack) == goal
  }

  /** The node on top has room for its row, and its children for their visits. */
  lemma WalkRoom(par: Parents, out: Rows, rest: seq<Work>, w: Work, goal: Rows)
    requires Walking(par, out, rest + [w], goal)
    ensures Pending(par, rest) && Rooted(par, w.idx)
        && AtLevel(par, KidWork(Kids(par, w.idx), w), Level(par, w.idx) + 1)
    ensures |out| + 1 + |VisitAll(par, KidWork(Kids(par, w.idx), w), Level(par, w.idx) + 1)|
          + |Owed(par, rest)| == |goal|
  {
    hide Visit, VisitAll, Owed, AtDepth, Level;
    OwedPop(par, rest, w);
  }

  lemma WalkStep(par: Parents, out: Rows, rest: seq<Work>, w: Work, goal: Rows, stack: seq<Work>)
    requires Walking(par, out, rest + [w], goal) && Pending(par, rest)
    requires Rooted(par, w.idx) && AtLevel(par, KidWork(Kids(par, w.idx), w), Level(par, w.idx) + 1)
    requires Pending(par, stack)
    requires Owed(par, stack) == VisitAll(par, KidWork(Kids(par, w.idx), w), Level(par, w.idx) + 1) + Owed(par, rest)
    ensures Walking(par, out + [Row(w)], stack, goal)
  {
    hide Visit, VisitAll, Owed, AtDepth, Level, Pending;
    OwedPop(par, rest, w);
    assert out + ([Row(w)] + Owed(par, stack)) == (out + [Row(w)]) + Owed(par, stack);
  }

  lemma WalkStart(par: Parents, out: Rows, w: Work)
    requires AtDepth(par, w.idx, 0)
    ensures Walking(par, out, [w], out + Visit(par, w, 0))
  {
    OwedPush(par, [], w, 0);
    assert [] + [w] == [w];
    assert Owed(par, [w]) == Visit(par, w, 0) + Owed(par, []) == Visit(par, w, 0);
  }

  lemma WalkEnd(par: Parents, out: Rows, goal: Rows)
    requires Walking(par, out, [], goal)
    ensures out == goal
  {
  }

  lemma BucketIsKids(nest: FNest<nat>, par: Parents, p: nat)
    requires HoldsKids(nest, par) && Rooted(par, p)
    ensures nest.Valid() && p < |nest.offsets| - 1 && nest.Bucket(p) == Kids(par, p)
  {
  }

  /** Iterative pre-order walk from a root: emits what the recursive visit emits, in its order. */
  method TreeWalk(ghost par: Parents, nest: FNest<nat>, root: nat, out: FVec<(Indent, nat)>, stack: FVec<Work>)
    requires HoldsKids(nest, par) && AtDepth(par, root, 0)
    requires out.Valid() && stack.Valid()
    requires stack.slots.Length >= |Visit(par, Work(root, 0, {}, true), 0)|
    requires |out.Items()| + |Visit(par, Work(root, 0, {}, true), 0)| <= out.slots.Length
    modifies out, out.slots, stack, stack.slots
    ensures out.Valid() && stack.Valid()
    ensures out.Items() == old(out.Items()) + Visit(par, Work(root, 0, {}, true), 0)
  {
    hide *;
    ghost var before := out.Items();
    ghost var goal := before + Visit(par, Work(root, 0, {}, true), 0);
    WalkStart(par, before, Work(root, 0, {}, true));
    stack.Clear();
    var _ := stack.Push(Work(root, 0, {}, true));
    assert stack.Items() == [Work(root, 0, {}, true)];
    while true
      invariant out.Valid() && stack.Valid() && |before| <= |out.Items()|
      invariant Walking(par, out.Items(), stack.Items(), goal)
      decreases |goal| - |out.Items()|
    {
      var next := stack.Pop();
      if next.None? {
        WalkEnd(par, out.Items(), goal);
        return;
      }
      var w := next.value;
      ghost var done, rest := out.Items(), stack.Items();
      WalkRoom(par, done, rest, w, goal);
      BucketIsKids(nest, par, w.idx);
      var _ := out.Push(Row(w));
      PushKids(par, nest.Bucket(w.idx), w, stack, Level(par, w.idx) + 1);
      WalkStep(par, done, rest, w, goal, stack.Items());
    }
  }

  /** One more process: its visit if it is a root, nothing otherwise. */
  lemma DisplayStep(par: Parents, i: nat)
    requires i < |par|
    ensures VisitAll(par, RootWork(par, i + 1), 0)
         == VisitAll(par, RootWork(par, i), 0)
          + if par[i].None? then (assert AtDepth(par, i, 0); Visit(par, Work(i, 0, {}, true), 0)) else []
  {
    if par[i].None? {
      var w := Work(i, 0, {}, true);
      assert AtLevel(par, [w], 0);
      VisitAllAppend(par, RootWork(par, i), [w], 0);
      assert VisitAll(par, [w], 0) == Visit(par, w, 0) + [] == Visit(par, w, 0);
    } else {
      assert RootWork(par, i + 1) == RootWork(par, i);
    }
  }

  lemma {:induction false} DisplayPrefixFits(par: Parents, i: nat)
    requires i <= |par|
    ensures |VisitAll(par, RootWork(par, i), 0)| <= |par|
    decreases |par| - i
  {
    if i == |par| {
      DisplayFits(par);
    } else {
      DisplayStep(par, i);
      DisplayPrefixFits(par, i + 1);
    }
  }

  /** The rows of the roots among the first `i` processes. */
  ghost function RootRows(par: Parents, i: nat): Rows
    requires i <= |par|
  {
    VisitAll(par, RootWork(par, i), 0)
  }

  lemma RootStep(par: Parents, i: nat)
    requires i < |par|
    ensures par[i].None? ==> (
      && AtDepth(par, i, 0)
      && RootRows(par, i + 1) == RootRows(par, i) + Visit(par, Work(i, 0, {}, true), 0)
      && |RootRows(par, i)| + |Visit(par, Work(i, 0, {}, true), 0)| <= |par|)
    ensures par[i].Some? ==> RootRows(par, i + 1) == RootRows(par, i)
  {
    DisplayStep(par, i);
    DisplayPrefixFits(par, i + 1);
    hide Visit, VisitAll;
    if par[i].Some? {
      assert RootRows(par, i) + [] == RootRows(par, i);
    }
  }

  lemma RootEnds(par: Parents)
    ensures RootRows(par, 0) == [] && RootRows(par, |par|) == Display(par)
  {
  }

  lemma ParentLookup(m: seq<(nat, nat)>, procs: seq<ProcInfo>, i: nat)
    requires Indexes(m, procs) && i < |procs|
    ensures StrictKeys(m) && Lookup(m, procs[i].ppid) == ParentsOf(procs)[i]
  {
  }

  /** Walk every root in turn into buffers of one slot per process. */
  method WalkRoots(procs: seq<ProcInfo>, m: seq<(nat, nat)>, children: FNest<nat>,
                   result: FVec<(Indent, nat)>, stack: FVec<Work>)
    requires Indexes(m, procs) && HoldsKids(children, ParentsOf(procs))
    requires stack.Valid() && result.Valid() && result.Items() == []
    requires stack.slots.Length == result.slots.Length == |procs|
    modifies result, result.slots, stack, stack.slots
    ensures result.Valid() && result.Items() == Display(ParentsOf(procs))
  {
    hide *;
    ghost var par := ParentsOf(procs);
    RootEnds(par);
    var i := 0;
    while i < |procs|
      invariant 0 <= i <= |procs|
      invariant stack.Valid() && result.Valid()
      invariant result.Items() == RootRows(par, i)
    {
      RootStep(par, i);
      ParentLookup(m, procs, i);
      var up := Get(m, procs[i].ppid);
      if up.None? {
        TreeWalk(par, children, i, result, stack);
      }
      i := i + 1;
    }
  }

  /** The whole layout, n slots for the stack and n for the rows. */
  method LayoutTree(procs: seq<ProcInfo>) returns (tree: seq<(Indent, nat)>)
    requires DistinctPids(procs)
    ensures tree == Display(ParentsOf(procs))
  {
    var m := BuildPidToIdx(procs);
    var children := BuildChildren(procs, m);
    var stack := new FVec<Work>(|procs|);
    var result := new FVec<(Indent, nat)>(|procs|);
    hide *;
    WalkRoots(procs, m, children, result, stack);
    tree := result.slots[..result.len];
  }
}
