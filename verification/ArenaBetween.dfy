/**
 Rotating two spans with another live block between them: the block survives exactly when it fits the padding
 between the two new spans.
 */
module ArenaBetween {
  import opened ArenaBytes
  import opened ArenaRuns
  import opened ArenaSafety
  import opened ArenaRotation

  /** `c` lies in the padding that aligns the second new span behind the first. */
  predicate InPadding(off1: nat, new1: Block, new2: Block, c: Block)
    requires IsAlign(new2.align)
  {
    FirstSlot(off1, new1).End() <= c.off && c.End() <= SecondSlot(off1, new1, new2).off
  }

  predicate Apart(b: Block, c: Block) {
    b.size == 0 || c.size == 0 || b.End() <= c.off || c.End() <= b.off
  }

  /** A block behind the first span keeps all its bytes to itself, under the new bump offset, exactly in that
      padding, which is shorter than the second span's alignment. */
  lemma SparedExactly(old1: Block, old2: Block, new1: Block, new2: Block, c: Block)
    requires RotateFits(old1, old2, new1, new2) && c.size > 0 && old1.off <= c.off
    ensures var (b1, b2) := (FirstSlot(old1.off, new1), SecondSlot(old1.off, new1, new2));
      && (Apart(b1, c) && Apart(b2, c) && c.End() <= b2.End() <==> InPadding(old1.off, new1, new2, c))
      && b2.off < b1.End() + new2.align
      && (InPadding(old1.off, new1, new2, c) ==> c.size < new2.align)
  {
    AlignUpLeast(old1.off + new1.size, 0, new2.align);
    hide AlignUp, Aligned;
  }

  lemma SparedBytes(buf: Store, rest: seq<Block>, old1: Block, old2: Block, new1: Block, new2: Block, c: Block)
    requires RotateFits(old1, old2, new1, new2) && InPadding(old1.off, new1, new2, c)
    ensures Bytes(RotateTo(buf, rest, old1.off, new1, new2).buf, c) == Bytes(buf, c)
  {
    hide AlignUp, Slide, Bytes;
    var b2 := SecondSlot(old1.off, new1, new2);
    SlideKeeps(buf, new1, old1.off, c);
    SlideBelow(Slide(buf, new1, old1.off), new2, b2.off, c);
  }

  lemma SlideBelow(buf: Store, b: Block, dst: nat, c: Block)
    requires b.End() <= SIZE && dst + b.size <= SIZE && c.End() <= dst
    ensures Bytes(Slide(buf, b, dst), c) == Bytes(buf, c)
  {
    if b.off != dst && b.size > 0 {
      PutKeeps(buf, dst, buf[b.off..b.End()], c.off, c.End());
    }
    hide Put;
  }

  // ── The whole arena ──

  /** The rotated arena, `c` still among the handles. */
  function Kept(buf: Store, rest: seq<Block>, old1: Block, old2: Block, new1: Block, new2: Block, c: Block): State
    requires RotateFits(old1, old2, new1, new2)
  {
    RotateTo(buf, rest, old1.off, new1, new2)
      .(live := rest + [FirstSlot(old1.off, new1), c, SecondSlot(old1.off, new1, new2)])
  }

  lemma KeptInPadding(buf: Store, rest: seq<Block>, old1: Block, old2: Block, new1: Block, new2: Block, c: Block)
    requires RotateFits(old1, old2, new1, new2) && c.size > 0 && old1.off <= c.off
    requires Inv(Kept(buf, rest, old1, old2, new1, new2, c))
    ensures InPadding(old1.off, new1, new2, c)
  {
    hide AlignUp, Slide, Fine;
    var n, live := |rest|, Kept(buf, rest, old1, old2, new1, new2, c).live;
    assert Before(live[n], live[n + 1].off) && Before(live[n + 1], live[n + 2].off);
  }

  lemma KeptSound(buf: Store, rest: seq<Block>, old1: Block, old2: Block, new1: Block, new2: Block, c: Block,
                  r: State)
    requires RotateFits(old1, old2, new1, new2) && c.size > 0 && old1.off <= c.off
    requires r == RotateTo(buf, rest, old1.off, new1, new2) && Inv(r) && Fine(c) && AllBefore(rest, c.off)
    requires InPadding(old1.off, new1, new2, c)
    ensures |View(r)| == |rest| + 2
    ensures var kept := Kept(buf, rest, old1, old2, new1, new2, c);
      Inv(kept) && View(kept) == View(r)[..|rest| + 1] + [Bytes(buf, c)] + View(r)[|rest| + 1..]
  {
    hide View, AlignUp, Slide, Bytes, Fine;
    var n := |rest|;
    ViewLength(r);
    SparedBytes(buf, rest, old1, old2, new1, new2, c);
    forall i | 0 <= i <= n ensures Before(r.live[i], c.off) {
      if i < n {
        assert r.live[i] == rest[i];
      } else {
        EmptyBefore(r, n, c.off);
      }
    }
    WithSound(r, n + 1, c);
    assert With(r.live, n + 1, c) == Kept(buf, rest, old1, old2, new1, new2, c).live;
  }

  lemma EmptyBefore(st: State, k: nat, x: nat)
    requires Inv(st) && k < |st.live| && st.live[k].End() <= x
    ensures Before(st.live[k], x)
  {
    assert Fine(st.live[k]);
    AlignUpLeast(x, x, st.live[k].align);
    hide AlignUp;
  }

  /** A sound arena stays so without one of its handles. */
  function Without(live: seq<Block>, k: nat): seq<Block>
    requires k < |live|
  {
    live[..k] + live[k + 1..]
  }

  lemma WithoutSound(st: State, k: nat)
    requires Inv(st) && k < |st.live|
    ensures Inv(st.(live := Without(st.live, k)))
    ensures View(st.(live := Without(st.live, k))) == View(st)[..k] + View(st)[k + 1..]
  {
    var less := Without(st.live, k);
    assert forall i | 0 <= i < |less| :: less[i] == st.live[if i < k then i else i + 1];
    hide Fine, Before, Bytes;
  }

  /** And with one more that has its place between its neighbours. */
  function With(live: seq<Block>, k: nat, c: Block): seq<Block>
    requires k <= |live|
  {
    live[..k] + [c] + live[k..]
  }

  lemma WithSound(st: State, k: nat, c: Block)
    requires Inv(st) && k <= |st.live| && Fine(c) && Before(c, st.offset)
    requires forall i | 0 <= i < k :: Before(st.live[i], c.off)
    requires forall i | k <= i < |st.live| :: Before(c, st.live[i].off)
    ensures Inv(st.(live := With(st.live, k, c)))
    ensures View(st.(live := With(st.live, k, c))) == View(st)[..k] + [Bytes(st.buf, c)] + View(st)[k..]
  {
    WithOrdered(st.live, k, c, st.offset);
    WithContents(st.buf, st.live, k, c);
    hide AllFine, AllBefore, Ordered, Before, With, Bytes;
  }

  lemma WithOrdered(live: seq<Block>, k: nat, c: Block, x: nat)
    requires AllFine(live) && Ordered(live) && AllBefore(live, x) && k <= |live| && Fine(c) && Before(c, x)
    requires forall i | 0 <= i < k :: Before(live[i], c.off)
    requires forall i | k <= i < |live| :: Before(c, live[i].off)
    ensures var more := With(live, k, c); AllFine(more) && Ordered(more) && AllBefore(more, x)
  {
    var more := With(live, k, c);
    assert forall i | 0 <= i < |more| && i != k :: more[i] == live[if i < k then i else i - 1];
    hide Fine, Before;
  }

  lemma WithContents(buf: Store, live: seq<Block>, k: nat, c: Block)
    requires AllFine(live) && k <= |live| && Fine(c) && AllFine(With(live, k, c))
    ensures Contents(buf, With(live, k, c)) == Contents(buf, live)[..k] + [Bytes(buf, c)] + Contents(buf, live)[k..]
  {
    hide Fine, Bytes;
  }

  lemma NestedWithout(st: State, s: State, k: nat)
    requires Nested(st, s) && k < |st.live|
    ensures Nested(st.(live := Without(st.live, k)), s.(live := Without(s.live, k)))
    ensures View(s.(live := Without(s.live, k))) == View(s)[..k] + View(s)[k + 1..]
  {
    WithoutSound(st, k);
    WithoutSound(s, k);
    FramedWithout(s, |st.live|, st.offset, k);
    WithoutPrefix(s.live, |st.live|, k);
    hide Inv, View, Framed, Without;
  }

  lemma WithoutPrefix(live: seq<Block>, n: nat, k: nat)
    requires k < n <= |live|
    ensures |Without(live, k)| == |live| - 1 && Without(live, k)[..n - 1] == Without(live[..n], k)
  {
  }

  lemma FramedWithout(s: State, base: nat, floor: nat, k: nat)
    requires Framed(s, base, floor) && k < base
    ensures Framed(s.(live := Without(s.live, k)), base - 1, floor)
  {
    var less := Without(s.live, k);
    assert forall i | base - 1 <= i < |less| :: less[i] == s.live[i + 1];
  }

  /** The end of a rotation whose two old spans have the live block `c` between them. */
  ghost predicate Between(st: State, rest: seq<Block>, old1: Block, c: Block, old2: Block,
                          s: State, first: nat, second: nat) {
    && st.live == rest + [old1, c, old2] && c.size > 0 && old1.off <= c.off
    && Nested(st, s) && |st.live| <= first < |s.live| && |st.live| <= second < |s.live|
    && RotateFits(old1, old2, s.live[first], s.live[second])
  }

  /** Whatever was built in between: the arena is still sound with `c` in it exactly when `c` lies in the new
      padding, and then all three keep their contents. */
  lemma KeptExactly(st: State, rest: seq<Block>, old1: Block, c: Block, old2: Block,
                    s: State, first: nat, second: nat)
    requires Between(st, rest, old1, c, old2, s, first, second)
    ensures var (n, new1, new2) := (|rest|, s.live[first], s.live[second]);
      var kept := Kept(s.buf, rest, old1, old2, new1, new2, c);
      && (Inv(kept) <==> InPadding(old1.off, new1, new2, c))
      && (Inv(kept) ==> View(kept) == View(s)[..n] + [View(s)[first], View(s)[n + 1], View(s)[second]])
  {
    hide Inv, View, AlignUp, Slide, Kept, RotateTo, InPadding;
    var new1, new2 := s.live[first], s.live[second];
    var r := RotateTo(s.buf, rest, old1.off, new1, new2);
    hide RotateFits;
    if InPadding(old1.off, new1, new2, c) {
      RotatedWithout(st, rest, old1, c, old2, s, first, second, r);
      LowerHandles(st, |rest| + 1);
      assert st.live[..|rest| + 1][..|rest|] == rest;
      HandleRead(st, s, |rest| + 1);
      KeptSound(s.buf, rest, old1, old2, new1, new2, c, r);
    } else if Inv(Kept(s.buf, rest, old1, old2, new1, new2, c)) {
      KeptInPadding(s.buf, rest, old1, old2, new1, new2, c);
    }
  }

  /** The rotation without `c` ends in a sound arena. */
  lemma RotatedWithout(st: State, rest: seq<Block>, old1: Block, c: Block, old2: Block,
                       s: State, first: nat, second: nat, r: State)
    requires Between(st, rest, old1, c, old2, s, first, second)
    requires r == RotateTo(s.buf, rest, old1.off, s.live[first], s.live[second])
    ensures Inv(r) && View(r) == View(s)[..|rest|] + [View(s)[first], View(s)[second]]
  {
    hide Inv, View, Without, RotateFits, RotateTo, Framed;
    var n := |rest|;
    var less, after := st.(live := Without(st.live, n + 1)), s.(live := Without(s.live, n + 1));
    NestedWithout(st, s, n + 1);
    LessParts(rest, old1, c, old2, s.live, |st.live|);
    RotateSound(less, after, first - 1, second - 1, rest, old1, old2, r);
    ViewLength(s);
    hide *;
    SkipOne(View(s), View(after), n, first);
    SkipOne(View(s), View(after), n, second);
  }

  /** Without it the two old spans are neighbours. */
  lemma RotateSound(st: State, s: State, first: nat, second: nat, rest: seq<Block>, old1: Block, old2: Block, r: State)
    requires Nested(st, s) && st.live == rest + [old1, old2]
    requires |st.live| <= first < |s.live| && |st.live| <= second < |s.live|
    requires RotateFits(old1, old2, s.live[first], s.live[second])
    requires r == RotateTo(s.buf, rest, old1.off, s.live[first], s.live[second])
    ensures Inv(r) && View(r) == View(s)[..|rest|] + [View(s)[first], View(s)[second]]
  {
    hide Inv, View, RotateFits, RotateTo, Framed, Rotated, Nested;
    assert st.live[..|rest|] == rest;
    RotateMoves(st, s, first, second);
    RotatedSound(st, s, first, second, r);
  }

  lemma LessParts(rest: seq<Block>, old1: Block, c: Block, old2: Block, live: seq<Block>, n: nat)
    requires n == |rest| + 3 <= |live|
    ensures Without(rest + [old1, c, old2], |rest| + 1) == rest + [old1, old2]
    ensures |Without(live, |rest| + 1)| == |live| - 1
    ensures forall i | n <= i < |live| :: Without(live, |rest| + 1)[i - 1] == live[i]
  {
  }

  lemma SkipOne(heap: Heap, less: Heap, n: nat, i: nat)
    requires n + 1 < i < |heap| && less == heap[..n + 1] + heap[n + 2..]
    ensures less[..n] == heap[..n] && less[i - 1] == heap[i]
  {
  }

  // ── An instance ──

  /** Three one-byte blocks: every assertion holds, and a first span of two bytes is moved over the block in
      the middle. */
  lemma BetweenIsOverwritten(st: State, s: State)
    requires st.offset == 3 && st.live == [Block(0, 1, 1), Block(1, 1, 1), Block(2, 1, 1)]
    requires s.live == st.live + [Block(3, 2, 1), Block(5, 0, 1)] && s.offset == 5
    requires s.buf[1] == 7 && s.buf[3..5] == [8, 9]
    ensures var (first, second, new1, new2) := (st.live[0], st.live[2], s.live[3], s.live[4]);
      && Inv(s) && CanRotate(st.(live := [first, second]), 0) && RotateFits(first, second, new1, new2)
      && var r := RotateTo(s.buf, [st.live[1]], first.off, new1, new2);
      && Bytes(s.buf, st.live[1]) == [7] && Bytes(r.buf, st.live[1]) == [9]
  {
    FiveBlocks(s);
    var moved := Move(s.buf, 3, 0, 2);
    PutReads(s.buf, 0, s.buf[3..5]);
    assert moved[1] == moved[0..2][1] == 9;
    AlignUpLeast(2, 2, 1);
    hide Inv, Put;
  }

  lemma FiveBlocks(s: State)
    requires s.live == [Block(0, 1, 1), Block(1, 1, 1), Block(2, 1, 1), Block(3, 2, 1), Block(5, 0, 1)] && s.offset == 5
    ensures Inv(s)
  {
    assert Multiple(0, 1) && Multiple(1, 1) && Multiple(2, 1) && Multiple(3, 1) && Multiple(5, 1);
    AlignUpLeast(5, 5, 1);
    hide AlignUp, Multiple;
  }
}
