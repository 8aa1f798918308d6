/**
 Starting to rotate from two empty spans: when the assertions hold, and what a build without them does where the
 first one does not.
 */
module ArenaStart {
  import opened ArenaBytes
  import opened ArenaRuns
  import opened ArenaSafety
  import opened ArenaRotation
  import opened ForwardCopy

  // ── Starting from two empty spans ──

  function TwoEmpties(st: State, align1: nat, align2: nat): State
    requires IsAlign(align1) && IsAlign(align2)
  {
    st.(live := st.live + [Block(AlignUp(st.offset, align1), 0, align1), Block(AlignUp(st.offset, align2), 0, align2)])
  }

  /** Two fresh empty spans can be rotated exactly when the first one's rounding does not pass the
      second's. */
  lemma StartingPair(st: State, align1: nat, align2: nat)
    requires IsAlign(align1) && IsAlign(align2)
    ensures CanRotate(TwoEmpties(st, align1, align2), |st.live|)
        <==> AlignUp(st.offset, align1) <= AlignUp(st.offset, align2)
  {
    hide AlignUp;
    AlignUpLeast(st.offset, st.offset, align2);
  }

  /** It can: an 8-aligned pair type below a 4-aligned one, over an offset that is 4 past a multiple of 8. */
  lemma OddStart(st: State)
    requires st.offset == 4
    ensures !CanRotate(TwoEmpties(st, 8, 4), |st.live|)
  {
    StartingPair(st, 8, 4);
  }

  /** `s` is where a build from two fresh empty spans ended, with new spans of their types. */
  ghost predicate BuiltFrom(st: State, align1: nat, align2: nat, s: State, first: nat, second: nat) {
    && IsAlign(align1) && IsAlign(align2) && Nested(TwoEmpties(st, align1, align2), s)
    && |st.live| + 2 <= first < |s.live| && |st.live| + 2 <= second < |s.live|
    && s.live[first].align == align1 && s.live[second].align == align2
  }

  /** Both memory moves of that rotation go down. */
  predicate MovesDown(st: State, align1: nat, align2: nat, new1: Block, new2: Block)
    requires IsAlign(align1) && IsAlign(align2)
  {
    RotateFits(Block(AlignUp(st.offset, align1), 0, align1), Block(AlignUp(st.offset, align2), 0, align2), new1, new2)
  }

  function OddTurn(st: State, align1: nat, align2: nat, buf: Store, new1: Block, new2: Block): State
    requires IsAlign(align1) && IsAlign(align2) && MovesDown(st, align1, align2, new1, new2)
  {
    RotateTo(buf, st.live, AlignUp(st.offset, align1), new1, new2)
  }

  /** Builds without debug assertions go on from such a start. Both memory moves still go down exactly when the
      second new span is empty or was built at or above the slot it moves to; the first one always was. */
  lemma OddStartFits(st: State, align1: nat, align2: nat, s: State, first: nat, second: nat)
    requires BuiltFrom(st, align1, align2, s, first, second)
    ensures var new1, new2 := s.live[first], s.live[second];
      MovesDown(st, align1, align2, new1, new2) <==>
        new2.size == 0 || AlignUp(AlignUp(st.offset, align1) + new1.size, align2) <= new2.off
  {
    hide Inv, AlignUp, Framed;
    var e, new1, new2 := TwoEmpties(st, align1, align2), s.live[first], s.live[second];
    NestedFrame(e, s, first);
    NestedFrame(e, s, second);
    AlignUpLeast(st.offset, new1.off, align1);
    AlignUpLeast(AlignUp(st.offset, align1) + new1.size, new2.off, align2);
    hide Nested;
  }

  /** And then the rotation ends stacked, with both contents intact. */
  lemma OddStartGoesOn(st: State, align1: nat, align2: nat, s: State, first: nat, second: nat)
    requires BuiltFrom(st, align1, align2, s, first, second)
    requires MovesDown(st, align1, align2, s.live[first], s.live[second])
    ensures var r := OddTurn(st, align1, align2, s.buf, s.live[first], s.live[second]);
      Rotated(TwoEmpties(st, align1, align2), s, first, second, r) && Stacked(r)
  {
    hide Inv, View, AlignUp, Slide, Framed, Rotated, RotateTo, Nested, RotateFits;
    var e := TwoEmpties(st, align1, align2);
    assert e.live[..|st.live|] == st.live;
    RotateMoves(e, s, first, second);
    RotateToStacks(s.buf, st.live, e.live[|st.live|], Top(e), s.live[first], s.live[second],
      OddTurn(st, align1, align2, s.buf, s.live[first], s.live[second]));
  }

  lemma NestedFrame(e: State, s: State, i: nat)
    requires Nested(e, s) && |e.live| <= i < |s.live|
    ensures Fine(s.live[i]) && e.offset <= s.live[i].off && e.offset <= SIZE
  {
    Handle(s, i);
  }

  // ── When the second move goes up ──

  function SlideAnyway(buf: Store, b: Block, dst: nat): Store
    requires b.End() <= SIZE && dst + b.size <= SIZE
  {
    if b.off != dst && b.size > 0 then Forward(buf, b.off, dst, b.size) else buf
  }

  /** The end of a rotation in a build that asserts nothing of the two moves. */
  function Released(buf: Store, rest: seq<Block>, off1: nat, new1: Block, new2: Block): State
    requires IsAlign(new2.align) && new1.End() <= SIZE && new2.End() <= SIZE && off1 + new1.size <= SIZE
    requires SecondSlot(off1, new1, new2).End() <= SIZE
  {
    var b2 := SecondSlot(off1, new1, new2);
    State(b2.End(), SlideAnyway(SlideAnyway(buf, new1, off1), new2, b2.off),
          rest + [FirstSlot(off1, new1), b2])
  }

  lemma ReleasedDown(buf: Store, rest: seq<Block>, old1: Block, old2: Block, new1: Block, new2: Block)
    requires RotateFits(old1, old2, new1, new2)
    ensures Released(buf, rest, old1.off, new1, new2) == RotateTo(buf, rest, old1.off, new1, new2)
  {
    SlidesAlike(buf, new1, old1.off);
    SlidesAlike(Slide(buf, new1, old1.off), new2, SecondSlot(old1.off, new1, new2).off);
    hide AlignUp, Slide, SlideAnyway;
  }

  lemma SlidesAlike(buf: Store, b: Block, dst: nat)
    requires b.End() <= SIZE && dst + b.size <= SIZE && (b.size > 0 ==> dst <= b.off)
    ensures SlideAnyway(buf, b, dst) == Slide(buf, b, dst)
  {
    if b.size > 0 {
      ForwardDown(buf, b.off, dst, b.size);
    }
    hide Forward, Move;
  }

  /** The two new spans were built in the order `replace2` asks for, and the second one's slot is in the arena. */
  ghost predicate BuiltInOrder(st: State, align1: nat, align2: nat, s: State, first: nat, second: nat) {
    && BuiltFrom(st, align1, align2, s, first, second)
    && var (new1, new2) := (s.live[first], s.live[second]);
    && (new1.size == 0 || new2.size == 0 || new1.End() <= new2.off)
    && AlignUp(st.offset, align1) + new1.size <= SIZE
    && SecondSlot(AlignUp(st.offset, align1), new1, new2).End() <= SIZE
  }

  /** The second move can go up only over an empty first span. */
  lemma UpOnlyOverEmpty(st: State, align1: nat, align2: nat, s: State, first: nat, second: nat)
    requires BuiltInOrder(st, align1, align2, s, first, second)
    requires !MovesDown(st, align1, align2, s.live[first], s.live[second])
    ensures s.live[first].size == 0 < s.live[second].size
    ensures s.live[second].off < SecondSlot(AlignUp(st.offset, align1), s.live[first], s.live[second]).off
  {
    hide Inv, AlignUp, Framed;
    var e, new1, new2 := TwoEmpties(st, align1, align2), s.live[first], s.live[second];
    OddStartFits(st, align1, align2, s, first, second);
    NestedFrame(e, s, first);
    NestedFrame(e, s, second);
    AlignUpLeast(st.offset, new1.off, align1);
    AlignUpLeast(AlignUp(st.offset, align1) + new1.size, new2.off, align2);
    hide Nested, MovesDown;
  }

  /** `b2` is the second slot of such a rotation and `r` the state it ends in. */
  ghost predicate Goes(st: State, align1: nat, align2: nat, s: State, first: nat, second: nat, b2: Block, r: State) {
    && BuiltInOrder(st, align1, align2, s, first, second)
    && b2 == SecondSlot(AlignUp(st.offset, align1), s.live[first], s.live[second])
    && r == Released(s.buf, st.live, AlignUp(st.offset, align1), s.live[first], s.live[second])
  }

  /** It always ends sound and stacked, every other handle and the first span as they should be; the second span
      arrives intact exactly when its move goes down or its bytes repeat at the distance it is moved up, as they
      do when the two places do not overlap. */
  lemma OddStartContents(st: State, align1: nat, align2: nat, s: State, first: nat, second: nat, b2: Block, r: State)
    requires Goes(st, align1, align2, s, first, second, b2, r)
    ensures Inv(r) && Stacked(r)
    ensures b2.End() <= SIZE && View(r) == View(s)[..|st.live|] + [View(s)[first], Bytes(r.buf, b2)]
    ensures var new2 := s.live[second];
      Bytes(r.buf, b2) == View(s)[second] <==>
        MovesDown(st, align1, align2, s.live[first], new2)
        || (new2.off < b2.off && Repeats(s.buf, new2.off, b2.off - new2.off, new2.size))
  {
    hide Inv, View, AlignUp, SecondSlot, Released, MovesDown, Stacked, Bytes, Repeats;
    if MovesDown(st, align1, align2, s.live[first], s.live[second]) {
      DownContents(st, align1, align2, s, first, second, b2, r);
    } else {
      UpContents(st, align1, align2, s, first, second, b2, r);
    }
  }

  lemma DownContents(st: State, align1: nat, align2: nat, s: State, first: nat, second: nat, b2: Block, r: State)
    requires Goes(st, align1, align2, s, first, second, b2, r)
    requires MovesDown(st, align1, align2, s.live[first], s.live[second])
    ensures Inv(r) && Stacked(r)
    ensures View(r) == View(s)[..|st.live|] + [View(s)[first], View(s)[second]]
    ensures b2.End() <= SIZE && Bytes(r.buf, b2) == View(s)[second]
  {
    hide Inv, View, AlignUp, Stacked, Bytes, Slide, SlideAnyway, Framed, Nested, Rotated, RotateTo;
    var e := TwoEmpties(st, align1, align2);
    assert e.live[|st.live|].off == AlignUp(st.offset, align1);
    assert Top(e) == Block(AlignUp(st.offset, align2), 0, align2);
    OddStartGoesOn(st, align1, align2, s, first, second);
    ReleasedDown(s.buf, st.live, e.live[|st.live|], Top(e), s.live[first], s.live[second]);
    RotatedSound(e, s, first, second, r);
    HandleRead(e, s, first);
    ViewLength(s);
    Handle(r, |st.live| + 1);
  }

  lemma UpContents(st: State, align1: nat, align2: nat, s: State, first: nat, second: nat, b2: Block, r: State)
    requires Goes(st, align1, align2, s, first, second, b2, r)
    requires !MovesDown(st, align1, align2, s.live[first], s.live[second])
    ensures Inv(r) && Stacked(r) && b2.End() <= SIZE && s.live[second].off < b2.off
    ensures View(r) == View(s)[..|st.live|] + [View(s)[first], Bytes(r.buf, b2)]
    ensures Bytes(r.buf, b2) == View(s)[second]
        <==> Repeats(s.buf, s.live[second].off, b2.off - s.live[second].off, s.live[second].size)
  {
    hide Inv, View, AlignUp, Bytes, SlideAnyway, Framed, Nested, MovesDown, Repeats, Fine, Before;
    var e, b1 := TwoEmpties(st, align1, align2), Block(AlignUp(st.offset, align1), 0, align1);
    UpOnlyOverEmpty(st, align1, align2, s, first, second);
    HandleRead(e, s, first);
    HandleRead(e, s, second);
    NothingSlides(s.buf, s.live[first], b1.off);
    UpCopy(s.buf, s.live[second], b2);
    AlignUpLeast(st.offset, 0, align1);
    SlotsBehind(b1, b2);
    assert e.live[..|st.live|] == st.live;
    RotatePlaces(e, s, b1, b2, r.buf);
    Nothing(r.buf, b1);
    Nothing(s.buf, s.live[first]);
  }

  lemma NothingSlides(buf: Store, b: Block, dst: nat)
    requires b.size == 0 && b.End() <= SIZE && dst <= SIZE
    ensures SlideAnyway(buf, b, dst) == buf
  {
  }

  lemma Nothing(buf: Store, b: Block)
    requires b.size == 0 && b.End() <= SIZE
    ensures Bytes(buf, b) == []
  {
  }

  lemma SlotsBehind(b1: Block, b2: Block)
    requires b1.size == 0 && IsAlign(b1.align) && Aligned(b1.off, b1.align)
    requires IsAlign(b2.align) && b2.off == AlignUp(b1.off, b2.align) && b2.End() <= SIZE
    ensures Fine(b1) && Fine(b2) && b1.off <= b2.off && Before(b1, b2.off)
  {
    AlignUpLeast(b1.off, 0, b2.align);
    AlignUpLeast(b2.off, 0, b1.align);
    hide AlignUp, Aligned;
  }

  lemma UpCopy(buf: Store, b: Block, b2: Block)
    requires b.size == b2.size > 0 && b.off < b2.off && b2.End() <= SIZE
    ensures var after := SlideAnyway(buf, b, b2.off);
      && after[..b2.off] == buf[..b2.off]
      && (Bytes(after, b2) == Bytes(buf, b) <==> Repeats(buf, b.off, b2.off - b.off, b.size))
  {
    ForwardKeeps(buf, b.off, b2.off - b.off, b.size);
    ForwardUp(buf, b.off, b2.off - b.off, b.size);
    hide Forward, Repeats, Echoes;
  }
}
