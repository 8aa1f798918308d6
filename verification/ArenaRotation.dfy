/**
 Rotating two spans tick after tick: where they and the bump offset end up.
 */
module ArenaRotation {
  import opened ArenaBytes
  import opened ArenaRuns
  import opened ArenaSafety

  /** What the frame holding the two spans does between its start and its end: rotations, with scopes,
      writes and tail releases in between. */
  predicate Rotating(run: Run) {
    run.Then? ==> (run.op.Replace2? || run.op.Scope? || run.op.Write? || run.op.Uncommit?) && Rotating(run.rest)
  }

  predicate Turns(run: Run) {
    run.Then? && (run.op.Replace2? || Turns(run.rest))
  }

  /** The second span starts right after the first, and the arena ends with it: the bump offset is a
      function of where the first span starts and of the two lengths. */
  predicate Stacked(st: State) {
    && 2 <= |st.live|
    && var (s1, s2) := (st.live[|st.live| - 2], Top(st));
    && IsAlign(s2.align) && s2.off == AlignUp(s1.End(), s2.align) && st.offset == s2.End()
  }

  /** `s` holds the handles of `st`, the top two of them resized but the first still where it was. */
  predicate SameSlots(st: State, s: State) {
    var n := |st.live|;
    && 2 <= n == |s.live| && s.live[..n - 2] == st.live[..n - 2]
    && s.live[n - 2].off == st.live[n - 2].off && s.live[n - 2].align == st.live[n - 2].align
    && Top(s).align == Top(st).align
  }

  /** However many rotations a run makes, and whatever each build allocates, nothing leaks: the first span
      stays where it started, and after the last rotation the bump offset is its start plus the first length,
      rounded up, plus the second length. */
  lemma {:induction false} NeverDrifts(run: Run, base: nat, st: State)
    requires 2 <= |st.live| && Rotating(run) && Exec(run, base, st).Some?
    ensures var s := Exec(run, base, st).value;
      SameSlots(st, s) && (Turns(run) || Stacked(st) ==> Stacked(s))
    decreases run
  {
    hide Exec1, Stacked;
    if run.Then? {
      OneTurn(run.op, base, st);
      NeverDrifts(run.rest, base, Exec1(run.op, base, st).value);
    }
  }

  lemma OneTurn(op: Op, base: nat, st: State)
    requires 2 <= |st.live| && (op.Replace2? || op.Scope? || op.Write? || op.Uncommit?) && Exec1(op, base, st).Some?
    ensures var s := Exec1(op, base, st).value;
      SameSlots(st, s) && (op.Replace2? || Stacked(st) ==> Stacked(s))
  {
    if op.Replace2? {
      RotateStacks(st, Exec(op.body, |st.live|, st).value, op.first, op.second);
      hide *;
    } else {
      hide AlignUp, Exec, Put, Tail, Slide, Stacked;
      var s := Exec1(op, base, st).value;
      assert s.live == st.live && s.offset == st.offset;
      StackedSame(st, s);
    }
  }

  lemma StackedSame(st: State, s: State)
    requires s.live == st.live && s.offset == st.offset
    ensures Stacked(st) ==> Stacked(s)
  {
  }

  lemma RotateStacks(st: State, s: State, first: nat, second: nat)
    requires CanRotate(st, 0) && DoRotate(st, s, first, second).Some?
    ensures var r := DoRotate(st, s, first, second).value;
      SameSlots(st, r) && Stacked(r)
  {
    hide AlignUp, Slide, RotateTo, Stacked, RotateFits;
    var n, r := |st.live|, DoRotate(st, s, first, second).value;
    RotateToStacks(s.buf, st.live[..n - 2], st.live[n - 2], Top(st), s.live[first], s.live[second], r);
    FitsTypes(st.live[n - 2], Top(st), s.live[first], s.live[second]);
  }

  lemma FitsTypes(old1: Block, old2: Block, new1: Block, new2: Block)
    requires RotateFits(old1, old2, new1, new2)
    ensures new1.align == old1.align && new2.align == old2.align && IsAlign(new2.align)
  {
    hide AlignUp;
  }

  /** Where a rotation puts the two new spans. */
  function FirstSlot(off1: nat, new1: Block): Block {
    Block(off1, new1.size, new1.align)
  }

  function SecondSlot(off1: nat, new1: Block, new2: Block): Block
    requires IsAlign(new2.align)
  {
    Block(AlignUp(off1 + new1.size, new2.align), new2.size, new2.align)
  }

  lemma RotateToStacks(buf: Store, rest: seq<Block>, old1: Block, old2: Block, new1: Block, new2: Block, r: State)
    requires RotateFits(old1, old2, new1, new2) && r == RotateTo(buf, rest, old1.off, new1, new2)
    ensures TwoOnTop(r, rest, old1.off, new1.align, new2.align) && Stacked(r)
  {
    hide AlignUp, Slide, RotateFits, Stacked;
    FitsTypes(old1, old2, new1, new2);
    TwoStacked(r, rest, FirstSlot(old1.off, new1), SecondSlot(old1.off, new1, new2));
  }

  lemma TwoStacked(r: State, rest: seq<Block>, b1: Block, b2: Block)
    requires r.live == rest + [b1, b2] && r.offset == b2.End()
    requires IsAlign(b2.align) && b2.off == AlignUp(b1.End(), b2.align)
    ensures TwoOnTop(r, rest, b1.off, b1.align, b2.align) && Stacked(r)
  {
    hide AlignUp;
    assert r.live[|r.live| - 2] == b1 && r.live[..|rest|] == rest;
  }

  /** `rest` and two more handles, the first of them at `off1`. */
  predicate TwoOnTop(r: State, rest: seq<Block>, off1: nat, align1: nat, align2: nat) {
    && |r.live| == |rest| + 2 && r.live[..|rest|] == rest
    && r.live[|rest|].off == off1 && r.live[|rest|].align == align1 && Top(r).align == align2
  }

  /** Two stacked spans can be rotated again: both entry assertions of `replace2` hold. */
  lemma StackedRotates(st: State, base: nat)
    requires Inv(st) && Stacked(st) && base + 2 <= |st.live|
    ensures CanRotate(st, base)
  {
    var s1, s2 := st.live[|st.live| - 2], Top(st);
    Handle(st, |st.live| - 2);
    AlignUpLeast(s1.End(), s1.End(), s2.align);
    hide AlignUp, Inv;
  }
}
