/**
 What each operation of the arena keeps: blocks stay aligned, in bounds and disjoint, and every handle reads what it
 would read had it a heap cell of its own.
 */
module ArenaSafety {
  import opened Words
  import opened ArenaBytes
  import opened ArenaRuns

  // ── The invariant ──

  ghost predicate Fine(b: Block) {
    IsAlign(b.align) && Aligned(b.off, b.align) && b.End() <= SIZE
  }

  /** `b` leaves everything from `x` on free; an empty block may sit at the next aligned offset. */
  ghost predicate Before(b: Block, x: nat) {
    if b.size > 0 then b.End() <= x else IsAlign(b.align) && b.off <= AlignUp(x, b.align)
  }

  ghost predicate AllFine(live: seq<Block>) {
    forall i | 0 <= i < |live| :: Fine(live[i])
  }

  ghost predicate AllBefore(live: seq<Block>, x: nat) {
    forall i | 0 <= i < |live| :: Before(live[i], x)
  }

  ghost predicate Ordered(live: seq<Block>) {
    forall i, j | 0 <= i < j < |live| :: Before(live[i], live[j].off)
  }

  ghost predicate Inv(st: State) {
    st.offset <= SIZE && AllFine(st.live) && Ordered(st.live) && AllBefore(st.live, st.offset)
  }

  /** What the invariant says of two handles: no byte is shared. */
  lemma Disjoint(st: State, i: nat, j: nat, k: nat)
    requires Inv(st) && i < j < |st.live|
    ensures !(st.live[i].off <= k < st.live[i].End() && st.live[j].off <= k < st.live[j].End())
  {
    assert Before(st.live[i], st.live[j].off);
  }

  /** A frame's own handles start at `base`, none of them below its entry offset. */
  ghost predicate Framed(st: State, base: nat, floor: nat) {
    && base <= |st.live| && floor <= st.offset
    && forall i | base <= i < |st.live| :: floor <= st.live[i].off
  }

  // ── What handles read ──

  function Bytes(buf: Store, b: Block): seq<byte>
    requires b.End() <= SIZE
  {
    buf[b.off..b.End()]
  }

  ghost function Contents(buf: Store, live: seq<Block>): (heap: Heap)
    requires AllFine(live)
    ensures |heap| == |live| && forall i | 0 <= i < |live| :: heap[i] == Bytes(buf, live[i])
  {
    seq(|live|, i requires 0 <= i < |live| => Bytes(buf, live[i]))
  }

  ghost function View(st: State): Heap
    requires Inv(st)
  {
    Contents(st.buf, st.live)
  }

  lemma ContentsSplit(buf: Store, live: seq<Block>, n: nat)
    requires AllFine(live) && n <= |live|
    ensures AllFine(live[..n]) && Contents(buf, live)[..n] == Contents(buf, live[..n])
  {
    hide Fine, Bytes;
  }

  lemma ContentsAppend(buf: Store, live: seq<Block>, b: Block)
    requires AllFine(live) && Fine(b)
    ensures AllFine(live + [b]) && Contents(buf, live + [b]) == Contents(buf, live) + [Bytes(buf, b)]
  {
    hide Bytes;
  }

  /** Blocks before `x` read only bytes below it. */
  lemma ContentsBelow(buf: Store, buf2: Store, live: seq<Block>, x: nat)
    requires AllFine(live) && AllBefore(live, x) && x <= SIZE && buf[..x] == buf2[..x]
    ensures Contents(buf, live) == Contents(buf2, live)
  {
    forall i | 0 <= i < |live| ensures Bytes(buf, live[i]) == Bytes(buf2, live[i]) {
      BytesBelow(buf, buf2, live[i], x);
    }
    hide Bytes;
  }

  lemma BytesBelow(buf: Store, buf2: Store, b: Block, x: nat)
    requires Fine(b) && Before(b, x) && x <= SIZE && buf[..x] == buf2[..x]
    ensures Bytes(buf, b) == Bytes(buf2, b)
  {
    if b.size > 0 {
      assert buf[b.off..b.End()] == buf[..x][b.off..b.End()];
      assert buf2[b.off..b.End()] == buf2[..x][b.off..b.End()];
    }
  }

  lemma BeforeLater(b: Block, x: nat, y: nat)
    requires Before(b, x) && x <= y
    ensures Before(b, y)
  {
    if b.size == 0 {
      AlignUpMonotone(x, y, b.align);
    }
  }

  lemma AllBeforeLater(live: seq<Block>, x: nat, y: nat)
    requires AllBefore(live, x) && x <= y
    ensures AllBefore(live, y)
  {
    forall i | 0 <= i < |live| ensures Before(live[i], y) {
      BeforeLater(live[i], x, y);
    }
  }

  lemma ViewLength(s: State)
    requires Inv(s)
    ensures |View(s)| == |s.live|
  {
  }

  // ── Placing one block ──

  /** A block at or above `x`, where everything else lies before `x`, extends a sound arena. */
  lemma Place(buf: Store, live: seq<Block>, x: nat, b: Block, offset: nat)
    requires AllFine(live) && Ordered(live) && AllBefore(live, x)
    requires Fine(b) && x <= b.off && x <= offset <= SIZE && Before(b, offset)
    ensures Inv(State(offset, buf, live + [b]))
    ensures View(State(offset, buf, live + [b])) == Contents(buf, live) + [Bytes(buf, b)]
  {
    AllBeforeLater(live, x, b.off);
    AllBeforeLater(live, x, offset);
    ContentsAppend(buf, live, b);
    hide Fine, Before, Bytes, Contents;
  }

  lemma PutBelow(buf: Store, at: nat, data: seq<byte>)
    requires at + |data| <= SIZE
    ensures Put(buf, at, data)[..at] == buf[..at]
  {
  }

  lemma Bumped(offset: nat, size: nat, align: nat)
    ensures var r := BumpAt(offset, size, align);
      r.Some? ==> offset <= r.value && r.value + size <= SIZE && Fine(Block(r.value, size, align))
  {
    if IsAlign(align) {
      AlignUpLeast(offset, offset, align);
    }
  }

  /** `s` comes from `st` by appending one block of its own, reading `data`. */
  ghost predicate Appended(st: State, s: State, b: Block, heap: Heap, data: seq<byte>) {
    && Inv(s) && s.live == st.live + [b] && st.offset <= b.off && st.offset <= s.offset
    && View(s) == heap + [data]
  }

  // ── Allocations ──

  lemma AllocAppends(st: State, align: nat, data: seq<byte>)
    requires Inv(st) && DoAlloc(st, align, data).Some?
    ensures var s := DoAlloc(st, align, data).value;
      s.live != [] && Appended(st, s, Top(s), View(st), data)
  {
    hide Inv, View, Appended, Put, AlignUp;
    var s := DoAlloc(st, align, data).value;
    var at := BumpAt(st.offset, |data|, align).value;
    Bumped(st.offset, |data|, align);
    AlignUpLeast(at + |data|, at + |data|, align);
    PutBelow(st.buf, at, data);
    PutReads(st.buf, at, data);
    assert s.buf[..st.offset] == s.buf[..at][..st.offset] == st.buf[..at][..st.offset] == st.buf[..st.offset];
    AtTop(st, s.buf, Block(at, |data|, align), at + |data|);
  }

  /** A new block above everything, in a store that is unchanged below the bump offset. */
  lemma AtTop(st: State, buf: Store, b: Block, offset: nat)
    requires Inv(st) && Fine(b) && st.offset <= b.off && st.offset <= offset <= SIZE && Before(b, offset)
    requires buf[..st.offset] == st.buf[..st.offset]
    ensures Appended(st, State(offset, buf, st.live + [b]), b, View(st), Bytes(buf, b))
  {
    ContentsBelow(st.buf, buf, st.live, st.offset);
    Place(buf, st.live, st.offset, b, offset);
  }

  lemma EmptyAppends(st: State, align: nat)
    requires Inv(st) && IsAlign(align)
    ensures var b := Block(AlignUp(st.offset, align), 0, align);
      Appended(st, st.(live := st.live + [b]), b, View(st), [])
  {
    AlignUpLeast(st.offset, st.offset, align);
    AtTop(st, st.buf, Block(AlignUp(st.offset, align), 0, align), st.offset);
  }

  // ── Builders ──

  /** A span under construction: its bytes are the `content` pushed and end at the bump offset. */
  ghost predicate Building(st: State, cur: State, content: seq<byte>) {
    && |cur.live| == |st.live| + 1 && cur.live[..|st.live|] == st.live
    && var b := Top(cur);
    && Fine(b) && st.offset <= b.off && cur.offset == b.End() && Aligned(cur.offset, b.align)
    && cur.buf[..st.offset] == st.buf[..st.offset] && Bytes(cur.buf, b) == content
  }

  lemma BuildStep(st: State, cur: State, content: seq<byte>, elem: nat, step: Build)
    requires Building(st, cur, content) && DoBuild(cur, elem, step).Some?
    requires Aligned(elem, Top(cur).align) && (step.Extend? ==> Aligned(|step.data|, Top(cur).align))
    ensures var s := DoBuild(cur, elem, step).value;
      s.live != [] && Building(st, s, Built1(content, elem, step)) && Top(s).align == Top(cur).align
  {
    hide Multiple, AlignUp, Put;
    if step.Pop? {
      BuildPop(st, cur, content, elem);
      return;
    }
    var b := Top(cur);
    AlignUpMonotone(cur.offset, cur.offset, b.align);
    MultipleSum(cur.offset, |step.data|, b.align);
    BuildPush(st, cur, content, step.data);
  }

  lemma BuildPop(st: State, cur: State, content: seq<byte>, elem: nat)
    requires Building(st, cur, content) && DoBuild(cur, elem, Pop).Some? && Aligned(elem, Top(cur).align)
    ensures var s := DoBuild(cur, elem, Pop).value;
      s.live != [] && Building(st, s, Built1(content, elem, Pop)) && Top(s).align == Top(cur).align
  {
    hide Multiple, AlignUp;
    var b, s := Top(cur), DoBuild(cur, elem, Pop).value;
    if b.size >= elem {
      MultipleSum(cur.offset, elem, b.align);
      assert Bytes(s.buf, Top(s)) == content[..|content| - elem];
    }
  }

  lemma BuildPush(st: State, cur: State, content: seq<byte>, data: seq<byte>)
    requires Building(st, cur, content) && cur.offset + |data| <= SIZE
    ensures var buf := Put(cur.buf, cur.offset, data);
      && buf[..st.offset] == st.buf[..st.offset]
      && buf[Top(cur).off..cur.offset + |data|] == content + data
  {
    PutExtends(cur.buf, Top(cur).off, cur.offset, data);
    PutExtends(cur.buf, st.offset, cur.offset, data);
    hide Put;
  }

  lemma {:induction false} BuildSteps(st: State, cur: State, content: seq<byte>, elem: nat, steps: seq<Build>)
    requires cur.live != [] && Building(st, cur, content)
    requires DoBuilds(cur, elem, steps).Some? && WellSized(Top(cur).align, elem, steps)
    ensures Building(st, DoBuilds(cur, elem, steps).value, Built(content, elem, steps))
    decreases |steps|
  {
    hide Building, DoBuild, Aligned, Built1;
    if steps != [] {
      BuildStep(st, cur, content, elem, steps[0]);
      var s := DoBuild(cur, elem, steps[0]).value;
      BuildSteps(st, s, Built1(content, elem, steps[0]), elem, steps[1..]);
    }
  }

  lemma BuildBegins(st: State, align: nat)
    requires Inv(st) && IsAlign(align)
    ensures var start := AlignUp(st.offset, align);
      Building(st, State(start, st.buf, st.live + [Block(start, 0, align)]), [])
  {
    hide Before, Ordered, AlignUp;
    AlignUpLeast(st.offset, st.offset, align);
  }

  lemma BuildEnds(st: State, s: State, content: seq<byte>)
    requires Inv(st) && s.live != [] && Building(st, s, content)
    ensures Appended(st, s, Top(s), View(st), content)
  {
    hide AlignUp, Aligned;
    assert s.live == st.live + [Top(s)];
    AlignUpLeast(s.offset, s.offset, Top(s).align);
    AtTop(st, s.buf, Top(s), s.offset);
    hide Contents, View, Inv, Bytes;
  }

  lemma SpanAppends(st: State, align: nat, elem: nat, steps: seq<Build>)
    requires Inv(st) && DoSpan(st, align, elem, steps).Some?
    ensures var s := DoSpan(st, align, elem, steps).value;
      s.live != [] && Appended(st, s, Top(s), View(st), Built([], elem, steps))
  {
    hide Inv, Building, AlignUp, Built, Appended, DoBuilds;
    BuildBegins(st, align);
    var start := AlignUp(st.offset, align);
    BuildSteps(st, State(start, st.buf, st.live + [Block(start, 0, align)]), [], elem, steps);
    BuildEnds(st, DoSpan(st, align, elem, steps).value, Built([], elem, steps));
  }

  lemma {:induction false} BuildsStay(cur: State, elem: nat, steps: seq<Build>)
    requires cur.live != [] && DoBuilds(cur, elem, steps).Some?
    ensures var s := DoBuilds(cur, elem, steps).value;
      s.live != [] && Top(s).off == Top(cur).off && Top(s).align == Top(cur).align
    decreases |steps|
  {
    hide Put, BumpAt;
    if steps != [] {
      BuildsStay(DoBuild(cur, elem, steps[0]).value, elem, steps[1..]);
    }
  }

  /** Where a span lands, and that the arena ends with it. */
  lemma SpanPlaced(st: State, align: nat, elem: nat, steps: seq<Build>)
    requires Inv(st) && DoSpan(st, align, elem, steps).Some?
    ensures var s, start := DoSpan(st, align, elem, steps).value, AlignUp(st.offset, align);
      var b := Block(start, |Built([], elem, steps)|, align);
      Inv(s) && s.live == st.live + [b] && s.offset == b.End()
  {
    var start := AlignUp(st.offset, align);
    var begun := State(start, st.buf, st.live + [Block(start, 0, align)]);
    SpanAppends(st, align, elem, steps);
    hide Inv, AlignUp, Built, DoBuilds;
    BuildBegins(st, align);
    BuildSteps(st, begun, [], elem, steps);
    BuildsStay(begun, elem, steps);
  }

  // ── Writing through a handle ──

  /** A write reaches its own block only. */
  lemma WriteOwns(st: State, h: nat, at: nat, data: seq<byte>)
    requires Inv(st) && DoWrite(st, h, at, data).Some?
    ensures var s := DoWrite(st, h, at, data).value;
      && Inv(s) && at + |data| <= |View(st)[h]|
      && View(s) == View(st)[h := Put(View(st)[h], at, data)]
  {
    var s := DoWrite(st, h, at, data).value;
    var heap := View(st)[h := Put(View(st)[h], at, data)];
    forall i | 0 <= i < |st.live| ensures View(s)[i] == heap[i] {
      if i == h {
        PutWithin(st.buf, st.live[h], at, data);
      } else {
        PutElsewhere(st, i, h, at, data);
      }
    }
    hide Bytes, Fine, Ordered, Before, Put;
  }

  lemma PutWithin(buf: Store, b: Block, at: nat, data: seq<byte>)
    requires b.End() <= SIZE && at + |data| <= b.size
    ensures Bytes(Put(buf, b.off + at, data), b) == Put(Bytes(buf, b), at, data)
  {
    var lo, hi := b.off + at, b.off + at + |data|;
    assert Put(buf, lo, data)[b.off..b.End()] == buf[b.off..lo] + data + buf[hi..b.End()];
    assert Bytes(buf, b)[..at] == buf[b.off..lo] && Bytes(buf, b)[at + |data|..] == buf[hi..b.End()];
  }

  lemma PutElsewhere(st: State, i: nat, h: nat, at: nat, data: seq<byte>)
    requires Inv(st) && i < |st.live| && h < |st.live| && i != h && at + |data| <= st.live[h].size
    ensures st.live[h].End() <= SIZE && st.live[i].End() <= SIZE
    ensures Bytes(Put(st.buf, st.live[h].off + at, data), st.live[i]) == Bytes(st.buf, st.live[i])
  {
    var b, c := st.live[i], st.live[h];
    assert Fine(b) && Fine(c);
    if data == [] {
      assert Put(st.buf, c.off + at, data) == st.buf;
    } else if b.size > 0 {
      assert if i < h then Before(b, c.off) else Before(c, b.off);
      hide Put, Fine, Inv;
      PutKeeps(st.buf, c.off + at, data, b.off, b.End());
    }
  }

  // ── Leaving a scope ──

  /** The store a nested run leaves, under the bump offset and the handles it was entered with. */
  lemma ScopeLeaves(st: State, s: State)
    requires Inv(st) && Inv(s) && |st.live| <= |s.live| && s.live[..|st.live|] == st.live
    ensures Inv(st.(buf := s.buf)) && View(st.(buf := s.buf)) == View(s)[..|st.live|]
  {
    ContentsSplit(s.buf, s.live, |st.live|);
    hide Fine, Before, Bytes;
  }

  // ── Sliding blocks down ──

  /** A block slid down reads the same at its new place, and nothing below that place changes. */
  lemma SlideDown(buf: Store, b: Block, dst: nat)
    requires Fine(b) && dst + b.size <= SIZE && (b.size > 0 ==> dst <= b.off)
    ensures Bytes(Slide(buf, b, dst), Block(dst, b.size, b.align)) == Bytes(buf, b)
    ensures dst <= SIZE && Slide(buf, b, dst)[..dst] == buf[..dst]
  {
    if b.off != dst && b.size > 0 {
      PutReads(buf, dst, buf[b.off..b.End()]);
      PutBelow(buf, dst, buf[b.off..b.End()]);
    }
    hide Put;
  }

  /** Sliding one block down leaves a block above its new place alone. */
  lemma SlideKeeps(buf: Store, b: Block, dst: nat, c: Block)
    requires b.End() <= SIZE && dst + b.size <= SIZE && c.End() <= SIZE && (c.size > 0 ==> dst + b.size <= c.off)
    ensures Bytes(Slide(buf, b, dst), c) == Bytes(buf, c)
  {
    if b.off != dst && b.size > 0 && c.size > 0 {
      PutKeeps(buf, dst, buf[b.off..b.End()], c.off, c.End());
    }
    hide Put;
  }

  /** A nested run from `st` ended in `s`: a sound state that still holds every handle of `st`. */
  ghost predicate Nested(st: State, s: State) {
    && Inv(st) && Inv(s) && Framed(s, |st.live|, st.offset)
    && s.live[..|st.live|] == st.live
  }

  // ── Compacting ──

  /** The debug assertion of `compact` cannot fire: what the build returns lies at or above the slot. */
  lemma CompactAsserts(st: State, s: State, result: nat)
    requires Nested(st, s) && |st.live| <= result < |s.live|
    ensures var b := s.live[result];
      IsAlign(b.align) && AlignUp(st.offset, b.align) <= b.off && DoCompact(st, s, result).Some?
  {
    var b := s.live[result];
    assert Fine(b);
    AlignUpLeast(st.offset, b.off, b.align);
  }

  lemma Handle(s: State, i: nat)
    requires Inv(s) && i < |s.live|
    ensures Fine(s.live[i]) && View(s)[i] == Bytes(s.buf, s.live[i])
  {
    hide Fine, Bytes;
  }

  lemma CompactAppends(st: State, s: State, result: nat)
    requires Nested(st, s) && DoCompact(st, s, result).Some?
    ensures var r := DoCompact(st, s, result).value;
      r.live != [] && Appended(st, r, Top(r), View(s)[..|st.live|], View(s)[result])
  {
    hide Inv, View, AlignUp, Slide, Bytes, Aligned;
    ScopeLeaves(st, s);
    Handle(s, result);
    var b, mid := s.live[result], st.(buf := s.buf);
    var dst := AlignUp(st.offset, b.align);
    AlignUpLeast(st.offset, st.offset, b.align);
    AlignUpLeast(dst + b.size, dst + b.size, b.align);
    SlideDown(s.buf, b, dst);
    var buf := Slide(s.buf, b, dst);
    assert buf[..st.offset] == buf[..dst][..st.offset] == s.buf[..dst][..st.offset] == s.buf[..st.offset];
    AtTop(mid, buf, Block(dst, b.size, b.align), dst + b.size);
  }

  // ── Rotating ──

  /** With both spans of the right types and the first built below the second, no assertion of `replace2`
      can fire either: both memory moves go down. */
  lemma RotateAsserts(st: State, s: State, first: nat, second: nat)
    requires Nested(st, s) && CanRotate(st, 0)
    requires |st.live| <= first < |s.live| && |st.live| <= second < |s.live| && first != second
    requires s.live[first].align == st.live[|st.live| - 2].align && s.live[second].align == Top(st).align
    requires s.live[first].size == 0 || s.live[second].size == 0 || s.live[first].End() <= s.live[second].off
    ensures DoRotate(st, s, first, second).Some?
  {
    var n := |st.live|;
    var old1, old2, new1, new2 := st.live[n - 2], st.live[n - 1], s.live[first], s.live[second];
    Handle(s, first);
    Handle(s, second);
    assert Before(old1, st.offset) && Fine(old1);
    AlignUpLeast(st.offset, new1.off, old1.align);
    FitsAfter(st.offset, old1.off, old2, new1, new2);
    hide AlignUp, Aligned;
  }

  /** The second span's slot, given a first span at `off1` that was built below it. */
  lemma FitsAfter(offset: nat, off1: nat, old2: Block, new1: Block, new2: Block)
    requires Fine(new1) && Fine(new2) && Fine(old2) && new2.align == old2.align && offset <= SIZE
    requires off1 <= old2.off && old2.End() < offset + old2.align
    requires offset <= new1.off && offset <= new2.off && (new1.size > 0 ==> off1 <= new1.off)
    requires new1.size == 0 || new2.size == 0 || new1.End() <= new2.off
    ensures off1 + new1.size <= SIZE
    ensures var dst2 := AlignUp(off1 + new1.size, new2.align);
      && (new2.size > 0 ==> dst2 <= new2.off) && dst2 + new2.size <= SIZE
  {
    hide AlignUp;
    AlignUpLeast(off1 + new1.size, new2.off, new2.align);
    NotBelow(old2.off, new2.off, new2.align);
    hide Multiple;
  }

  /** After `replace2`: the two old spans are gone, the new ones lie where the first of them was, right
      after each other, reading exactly what the build gave them; all other handles are untouched. */
  ghost predicate Rotated(st: State, s: State, first: nat, second: nat, r: State)
    requires Nested(st, s) && 2 <= |st.live| <= first < |s.live| && |st.live| <= second < |s.live|
  {
    var n, new1, new2 := |st.live|, s.live[first], s.live[second];
    var off1 := st.live[n - 2].off;
    && Inv(r) && IsAlign(new1.align) && IsAlign(new2.align)
    && var off2 := AlignUp(off1 + new1.size, new2.align);
    && r.live == st.live[..n - 2] + [Block(off1, new1.size, new1.align), Block(off2, new2.size, new2.align)]
    && r.offset == off2 + new2.size && off1 <= off2
    && View(r) == View(s)[..n - 2] + [View(s)[first], View(s)[second]]
  }

  lemma RotatedSound(st: State, s: State, first: nat, second: nat, r: State)
    requires Nested(st, s) && 2 <= |st.live| <= first < |s.live| && |st.live| <= second < |s.live|
    requires Rotated(st, s, first, second, r)
    ensures Inv(r) && View(r) == View(s)[..|st.live| - 2] + [View(s)[first], View(s)[second]]
  {
    hide Inv, View, AlignUp;
  }

  lemma LowerHandles(st: State, k: nat)
    requires Inv(st) && k < |st.live|
    ensures AllFine(st.live[..k]) && Ordered(st.live[..k]) && AllBefore(st.live[..k], st.live[k].off)
  {
    hide Fine, Before;
  }

  /** The two moves one after the other: each block's bytes survive both. */
  lemma TwoSlides(buf: Store, new1: Block, new2: Block, off1: nat, off2: nat)
    requires Fine(new1) && Fine(new2) && off1 + new1.size <= off2 && off2 + new2.size <= SIZE
    requires (new1.size > 0 ==> off1 <= new1.off) && (new2.size > 0 ==> off2 <= new2.off)
    requires Fine(Block(off1, new1.size, new1.align)) && Before(Block(off1, new1.size, new1.align), off2)
    ensures var after := Slide(Slide(buf, new1, off1), new2, off2);
      && after[..off1] == buf[..off1]
      && Bytes(after, Block(off1, new1.size, new1.align)) == Bytes(buf, new1)
      && Bytes(after, Block(off2, new2.size, new2.align)) == Bytes(buf, new2)
  {
    hide Slide, Bytes, Before, Aligned;
    var mid := Slide(buf, new1, off1);
    var after := Slide(mid, new2, off2);
    SlideDown(buf, new1, off1);
    SlideKeeps(buf, new1, off1, new2);
    SlideDown(mid, new2, off2);
    BytesBelow(mid, after, Block(off1, new1.size, new1.align), off2);
    assert after[..off1] == after[..off2][..off1] == mid[..off2][..off1] == mid[..off1];
  }

  lemma PlaceTwo(buf: Store, rest: seq<Block>, b1: Block, b2: Block)
    requires AllFine(rest) && Ordered(rest) && AllBefore(rest, b1.off)
    requires Fine(b1) && Fine(b2) && b1.off <= b2.off && Before(b1, b2.off)
    ensures var st := State(b2.End(), buf, rest + [b1, b2]);
      Inv(st) && View(st) == Contents(buf, rest) + [Bytes(buf, b1), Bytes(buf, b2)]
  {
    Place(buf, rest, b1.off, b1, b2.off);
    AlignUpLeast(b2.End(), b2.End(), b2.align);
    Place(buf, rest + [b1], b2.off, b2, b2.End());
    assert rest + [b1] + [b2] == rest + [b1, b2];
    hide Contents, Bytes, AllFine, Ordered, AllBefore, AlignUp;
  }

  lemma RotateReplaces(st: State, s: State, first: nat, second: nat)
    requires Nested(st, s) && CanRotate(st, 0) && DoRotate(st, s, first, second).Some?
    ensures 2 <= |st.live| <= first < |s.live| && |st.live| <= second < |s.live|
    ensures Rotated(st, s, first, second, DoRotate(st, s, first, second).value)
  {
    hide Inv, View, AlignUp, Slide, Framed, RotateFits, RotateTo, Rotated;
    RotateMoves(st, s, first, second);
  }

  lemma RotateMoves(st: State, s: State, first: nat, second: nat)
    requires Nested(st, s) && 2 <= |st.live| <= first < |s.live| && |st.live| <= second < |s.live|
    requires RotateFits(st.live[|st.live| - 2], Top(st), s.live[first], s.live[second])
    ensures Rotated(st, s, first, second,
              RotateTo(s.buf, st.live[..|st.live| - 2], st.live[|st.live| - 2].off, s.live[first], s.live[second]))
  {
    hide Inv, View, AlignUp, Slide, Bytes, Framed, Aligned, Nested, Fine, Before;
    var n := |st.live|;
    var new1, new2, off1 := s.live[first], s.live[second], st.live[n - 2].off;
    var off2 := AlignUp(off1 + new1.size, new2.align);
    SlotsSound(st, s, first, second, off1, off2);
    HandleRead(st, s, first);
    HandleRead(st, s, second);
    hide RotateFits;
    TwoSlides(s.buf, new1, new2, off1, off2);
    RotatePlaces(st, s, Block(off1, new1.size, new1.align), Block(off2, new2.size, new2.align),
                 Slide(Slide(s.buf, new1, off1), new2, off2));
  }

  lemma HandleRead(st: State, s: State, i: nat)
    requires Nested(st, s) && i < |s.live|
    ensures Inv(s) && Fine(s.live[i]) && s.live[i].End() <= SIZE && View(s)[i] == Bytes(s.buf, s.live[i])
  {
    Handle(s, i);
    hide Inv, View, Bytes;
  }

  /** The two new slots are sound places, one behind the other. */
  lemma SlotsSound(st: State, s: State, first: nat, second: nat, off1: nat, off2: nat)
    requires Nested(st, s) && 2 <= |st.live| <= first < |s.live| && |st.live| <= second < |s.live|
    requires RotateFits(st.live[|st.live| - 2], Top(st), s.live[first], s.live[second])
    requires off1 == st.live[|st.live| - 2].off && off2 == AlignUp(off1 + s.live[first].size, s.live[second].align)
    ensures var new1, new2 := s.live[first], s.live[second];
      var b1, b2 := Block(off1, new1.size, new1.align), Block(off2, new2.size, new2.align);
      && Fine(b1) && Fine(b2) && Before(b1, off2) && b1.End() <= off2 && b2.End() <= SIZE
      && (new1.size > 0 ==> off1 <= new1.off) && (new2.size > 0 ==> off2 <= new2.off)
  {
    hide Inv, View, AlignUp, Aligned, Framed;
    var new1, new2 := s.live[first], s.live[second];
    Handle(st, |st.live| - 2);
    AlignUpLeast(off1 + new1.size, off1, new2.align);
    AlignUpLeast(off2, off2, new1.align);
    hide Nested;
  }

  lemma RotatePlaces(st: State, s: State, b1: Block, b2: Block, buf: Store)
    requires Nested(st, s) && 2 <= |st.live| && b1.off == st.live[|st.live| - 2].off && b2.End() <= SIZE
    requires Fine(b1) && Fine(b2) && b1.off <= b2.off && Before(b1, b2.off) && buf[..b1.off] == s.buf[..b1.off]
    ensures var n := |st.live|;
      var r := State(b2.End(), buf, st.live[..n - 2] + [b1, b2]);
      Inv(r) && View(r) == View(s)[..n - 2] + [Bytes(buf, b1), Bytes(buf, b2)]
  {
    hide Bytes, Before, Fine, Ordered;
    var n := |st.live|;
    var rest := st.live[..n - 2];
    assert rest == s.live[..n - 2];
    LowerHandles(st, n - 2);
    ContentsSplit(s.buf, s.live, n - 2);
    ContentsBelow(s.buf, buf, rest, b1.off);
    PlaceTwo(buf, rest, b1, b2);
    hide *;
  }

  // ── Giving the tail back ──

  /** Releasing the tail never fails and touches no byte below the bump offset. */
  lemma UncommitKeeps(st: State, base: nat, page: nat)
    requires Inv(st)
    ensures DoUncommit(st, base, page).Some?
    ensures var s := DoUncommit(st, base, page).value;
      && s.offset == st.offset && s.live == st.live && s.buf[..st.offset] == st.buf[..st.offset]
      && Inv(s) && View(s) == View(st)
  {
    if page == 0 {
      return;
    }
    hide Tail, Multiple;
    var (start, len) := Tail(base, st.offset, page);
    TailExact(base, st.offset, page, 0);
    assert base + st.offset <= start && (len > 0 ==> start + len <= base + SIZE);
    var s := DoUncommit(st, base, page).value;
    if len > 0 {
      PutBelow(st.buf, start - base, seq(len, _ => 0));
      assert s.buf[..st.offset] == s.buf[..start - base][..st.offset] == st.buf[..start - base][..st.offset];
    }
    ContentsBelow(st.buf, s.buf, st.live, st.offset);
    hide Contents, Fine, Before, Ordered, Put;
  }

  /** The released bytes read as zero afterwards, and no others change. */
  lemma UncommitZeroes(st: State, base: nat, page: nat, k: nat)
    requires st.offset <= SIZE && DoUncommit(st, base, page).Some? && page > 0 && k < SIZE
    ensures var (start, len) := Tail(base, st.offset, page);
      DoUncommit(st, base, page).value.buf[k] == if start <= base + k < start + len then 0 else st.buf[k]
  {
    hide Tail;
    var (start, len) := Tail(base, st.offset, page);
    if len > 0 {
      PutAt(st.buf, start - base, seq(len, _ => 0), k);
    }
  }

  lemma PutAt(buf: Store, at: nat, data: seq<byte>, k: nat)
    requires at + |data| <= SIZE && k < SIZE
    ensures Put(buf, at, data)[k] == if at <= k < at + |data| then data[k - at] else buf[k]
  {
  }

  // ── Filling a reserve ──

  /** The top handle is `len` whole elements at the foot of the reserved room. */
  ghost predicate Filling(st: State, elem: nat, capacity: nat, len: nat) {
    && Inv(st) && st.live != [] && len <= capacity
    && Top(st).size == Bulk(len, elem) && st.offset == Top(st).off + Bulk(capacity, elem)
  }

  /** A sound arena stays sound when its top block changes its length under the bump offset. */
  lemma Resize(st: State, buf: Store, size: nat)
    requires Inv(st) && st.live != [] && Top(st).off + size <= st.offset
    requires buf[..Top(st).off] == st.buf[..Top(st).off]
    ensures var s := WithTop(st.(buf := buf), Top(st).(size := size));
      && Inv(s)
      && View(s) == View(st)[|st.live| - 1 := buf[Top(st).off..Top(st).off + size]]
  {
    var n, b := |st.live| - 1, Top(st);
    var rest := st.live[..n];
    Handle(st, n);
    LowerHandles(st, n);
    ContentsSplit(st.buf, st.live, n);
    hide Contents, Ordered, AllBefore, AllFine, AlignUp, Aligned;
    AlignUpLeast(st.offset, st.offset, b.align);
    ContentsBelow(st.buf, buf, rest, b.off);
    Place(buf, rest, b.off, b.(size := size), st.offset);
  }

  lemma PushFills(st: State, elem: nat, capacity: nat, len: nat, item: seq<byte>)
    requires Filling(st, elem, capacity, len) && len < capacity && |item| == elem
    ensures Top(st).off + Bulk(len, elem) + elem <= SIZE
    ensures var buf := Put(st.buf, Top(st).off + Bulk(len, elem), item);
      var s := WithTop(st.(buf := buf), Top(st).(size := Bulk(len + 1, elem)));
      && Filling(s, elem, capacity, len + 1)
      && View(s) == View(st)[|st.live| - 1 := View(st)[|st.live| - 1] + item]
  {
    hide View, Put, Bulk, Ordered, AllBefore, AllFine;
    var b, end := Top(st), Top(st).off + Bulk(len, elem);
    BulkGrows(len, capacity, elem);
    BulkGrows(len + 1, capacity, elem);
    Handle(st, |st.live| - 1);
    ViewLength(st);
    PutExtends(st.buf, b.off, end, item);
    Resize(st, Put(st.buf, end, item), Bulk(len + 1, elem));
  }

  lemma TruncateFills(st: State, elem: nat, capacity: nat, len: nat, keep: nat)
    requires Filling(st, elem, capacity, len) && keep < len
    ensures Bulk(keep, elem) <= |View(st)[|st.live| - 1]|
    ensures var s := WithTop(st, Top(st).(size := Bulk(keep, elem)));
      && Filling(s, elem, capacity, keep)
      && View(s) == View(st)[|st.live| - 1 := View(st)[|st.live| - 1][..Bulk(keep, elem)]]
  {
    hide View, Bulk, Ordered, AllBefore, AllFine;
    ViewLength(st);
    var b := Top(st);
    BulkGrows(keep, len, elem);
    BulkGrows(len, capacity, elem);
    Handle(st, |st.live| - 1);
    assert st.buf[b.off..b.End()][..Bulk(keep, elem)] == st.buf[b.off..b.off + Bulk(keep, elem)];
    Resize(st, st.buf, Bulk(keep, elem));
  }
}
