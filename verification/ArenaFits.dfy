/**
 Whole runs that fit: a program that keeps to the rules of its calls and whose worst case fits the arena never
 panics.
 */
module ArenaFits {
  import opened Wrappers
  import opened Words
  import opened ArenaBytes
  import opened ArenaRuns
  import opened ArenaSafety
  import opened ArenaMeaning
  import opened ArenaRoom
  import opened ArenaRotation

  // ── What a program must keep to ──

  /** Every call of the run is one its caller may make; nothing is said of the room it needs. */
  ghost predicate Legal(run: Run, base: nat, st: State)
    decreases run
  {
    run.Then? ==>
      && Legal1(run.op, base, st)
      && (Exec1(run.op, base, st).Some? ==> Legal(run.rest, base, Exec1(run.op, base, st).value))
  }

  ghost predicate Legal1(op: Op, base: nat, st: State)
    decreases op
  {
    match op
    case Alloc(align, _) => align in {1, 2, 4, 8, 16}
    case Empty(align) => align in {1, 2, 4, 8, 16}
    case Span(align, elem, steps) => Typed(align, elem, steps)
    case Write(h, at, data) => h < |st.live| && at + |data| <= st.live[h].size
    case Scope(body) => Legal(body, |st.live|, st)
    case Reserve(align, elem, capacity, fill, _) =>
      && align in {1, 2, 4, 8, 16} && elem % align == 0
      && (BumpAt(st.offset, Bulk(capacity, elem), align).Some? ==>
            var at := BumpAt(st.offset, Bulk(capacity, elem), align).value;
            LegalFill(fill, elem, capacity, 0, Reserved(st, at, Bulk(capacity, elem), align)))
    case Compact(body, result) =>
      && Legal(body, |st.live|, st)
      && (Exec(body, |st.live|, st).Some? ==> |st.live| <= result < |Exec(body, |st.live|, st).value.live|)
    case Replace2(body, first, second) =>
      && CanRotate(st, base) && Legal(body, |st.live|, st)
      && (Exec(body, |st.live|, st).Some? ==> RightPair(st, Exec(body, |st.live|, st).value, first, second))
    case Uncommit(_, _) => true
  }

  /** The build gave back two different spans of the old ones' types, the first below the second. */
  ghost predicate RightPair(st: State, s: State, first: nat, second: nat) {
    && 2 <= |st.live| <= first < |s.live| && |st.live| <= second < |s.live| && first != second
    && s.live[first].align == st.live[|st.live| - 2].align && s.live[second].align == Top(st).align
    && (s.live[first].size == 0 || s.live[second].size == 0 || s.live[first].End() <= s.live[second].off)
  }

  ghost predicate LegalFill(fill: Fill, elem: nat, capacity: nat, len: nat, st: State)
    requires st.live != []
    decreases fill
  {
    match fill
    case Filled => true
    case PushItem(item, next) =>
      if len >= capacity then LegalFill(next, elem, capacity, len, st)
      else
        && |item| == elem
        && (Top(st).off + Bulk(len, elem) + elem <= SIZE ==>
              LegalFill(next, elem, capacity, len + 1, Pushed(st, elem, len, item)))
    case Truncate(keep, next) =>
      if len <= keep then LegalFill(next, elem, capacity, len, st)
      else LegalFill(next, elem, capacity, keep, WithTop(st, Top(st).(size := Bulk(keep, elem))))
    case Aside(body, next) =>
      && Legal(body, |st.live|, st)
      && (Exec(body, |st.live|, st).Some? ==>
            LegalFill(next, elem, capacity, len, st.(buf := Exec(body, |st.live|, st).value.buf)))
  }

  ghost function Pushed(st: State, elem: nat, len: nat, item: seq<byte>): (s: State)
    requires st.live != [] && Top(st).off + Bulk(len, elem) + |item| <= SIZE
    ensures s.live != []
  {
    WithTop(st.(buf := Put(st.buf, Top(st).off + Bulk(len, elem), item)), Top(st).(size := Bulk(len + 1, elem)))
  }

  // ── What a run needs ──

  function Most(a: nat, b: nat): nat {
    if a < b then b else a
  }

  /** Bytes a builder is given, whatever it pops. */
  function Given(steps: seq<Build>): nat {
    if steps == [] then 0 else (if steps[0].Pop? then 0 else |steps[0].data|) + Given(steps[1..])
  }

  /** At most this much the bump offset is higher afterwards. */
  function Grow(run: Run): nat
    decreases run
  {
    if run.Done? then 0 else Grow1(run.op) + Grow(run.rest)
  }

  function Grow1(op: Op): nat
    decreases op
  {
    match op
    case Alloc(align, data) => align + |data|
    case Span(align, _, steps) => align + Given(steps)
    case Reserve(align, elem, capacity, _, _) => align + Bulk(capacity, elem)
    case Compact(body, _) => Most(Grow(body), 15)
    case Replace2(body, _, _) => Grow(body) + 30
    case _ => 0
  }

  /** At most this much it is higher at any point in between. */
  function Peak(run: Run): nat
    decreases run
  {
    if run.Done? then 0 else Most(Peak1(run.op), Grow1(run.op) + Peak(run.rest))
  }

  function Peak1(op: Op): nat
    decreases op
  {
    match op
    case Scope(body) => Peak(body)
    case Reserve(align, elem, capacity, fill, _) => align + Bulk(capacity, elem) + PeakFill(fill)
    case Compact(body, _) => Peak(body)
    case Replace2(body, _, _) => Peak(body)
    case _ => Grow1(op)
  }

  function PeakFill(fill: Fill): nat
    decreases fill
  {
    match fill
    case Filled => 0
    case PushItem(_, next) => PeakFill(next)
    case Truncate(_, next) => PeakFill(next)
    case Aside(body, next) => Most(Peak(body), PeakFill(next))
  }

  /** A result, and the offset it may have grown to. */
  ghost predicate Ends(st: State, r: Option<State>, grow: nat) {
    r.Some? && r.value.offset <= st.offset + grow
  }

  // ── One operation ──

  lemma Roomy(offset: nat, size: nat, align: nat)
    requires IsAlign(align) && offset + align + size <= SIZE
    ensures var r := BumpAt(offset, size, align);
      r.Some? && offset <= r.value < offset + align
  {
    AlignUpLeast(offset, offset, align);
    hide AlignUp;
  }

  lemma {:induction false} BuiltBound(content: seq<byte>, elem: nat, steps: seq<Build>, k: nat)
    requires k <= |steps|
    ensures |Built(content, elem, steps[..k])| <= |content| + Given(steps)
    decreases k
  {
    if k > 0 {
      BuiltNext(content, elem, steps, k);
      BuiltBound(Built1(content, elem, steps[0]), elem, steps[1..], k - 1);
    }
  }

  lemma SpanFits(st: State, align: nat, elem: nat, steps: seq<Build>)
    requires Inv(st) && Typed(align, elem, steps)
    requires st.offset + align + Given(steps) <= SIZE
    ensures Ends(st, DoSpan(st, align, elem, steps), align + Given(steps))
  {
    hide Inv, AlignUp, DoSpan, Built, Given;
    var start := AlignUp(st.offset, align);
    AlignUpLeast(st.offset, st.offset, align);
    SpanExactly(st, align, elem, steps);
    forall k | 0 <= k <= |steps| ensures start + |Built([], elem, steps[..k])| <= SIZE {
      BuiltBound([], elem, steps, k);
    }
    SpanPlaced(st, align, elem, steps);
    BuiltBound([], elem, steps, |steps|);
    assert steps[..|steps|] == steps;
  }

  lemma LeafFits(op: Op, base: nat, st: State)
    requires op.Alloc? || op.Empty? || op.Span? || op.Write? || op.Uncommit?
    requires Inv(st) && Legal1(op, base, st) && st.offset + Peak1(op) <= SIZE
    ensures Ends(st, Exec1(op, base, st), Grow1(op))
  {
    hide DoSpan, DoUncommit, BumpAt, Put, View, AlignUp;
    match op
    case Alloc(align, data) =>
      hide Inv;
      Roomy(st.offset, |data|, align);
    case Empty(_) =>
      hide Inv;
    case Span(align, elem, steps) =>
      hide Inv;
      SpanFits(st, align, elem, steps);
    case Write(h, at, data) =>
      Handle(st, h);
      hide Inv;
    case Uncommit(address, page) =>
      UncommitKeeps(st, address, page);
      hide Inv;
  }

  lemma CompactEnds(st: State, s: State, result: nat, grow: nat)
    requires Nested(st, s) && |st.live| <= result < |s.live| && s.offset <= st.offset + grow
    ensures Ends(st, DoCompact(st, s, result), Most(grow, 15))
  {
    CompactAsserts(st, s, result);
    var b := s.live[result];
    AlignUpLeast(st.offset, b.off, b.align);
    assert Before(b, s.offset) && Fine(b);
    hide AlignUp, Slide, Aligned;
  }

  lemma RotateEnds(st: State, s: State, first: nat, second: nat, grow: nat)
    requires Nested(st, s) && CanRotate(st, 0) && RightPair(st, s, first, second) && s.offset <= st.offset + grow
    ensures Ends(st, DoRotate(st, s, first, second), grow + 30)
  {
    var new1, new2, off1 := s.live[first], s.live[second], st.live[|st.live| - 2].off;
    RotateAsserts(st, s, first, second);
    RotateOffset(st, s, first, second);
    EndsBelow(s, first);
    EndsBelow(s, second);
    hide Nested, DoRotate, RightPair, AlignUp, CanRotate;
    RotateBound(st.offset, s.offset, off1, new1, new2, AlignUp(off1 + new1.size, new2.align), grow);
  }

  lemma EndsBelow(s: State, i: nat)
    requires Inv(s) && i < |s.live|
    ensures s.live[i].size > 0 ==> s.live[i].End() <= s.offset
  {
    assert Before(s.live[i], s.offset);
  }

  lemma RotateOffset(st: State, s: State, first: nat, second: nat)
    requires CanRotate(st, 0) && DoRotate(st, s, first, second).Some?
    ensures first < |s.live| && second < |s.live| && IsAlign(s.live[second].align)
    ensures var new1, new2, off1 := s.live[first], s.live[second], st.live[|st.live| - 2].off;
      var slot2 := AlignUp(off1 + new1.size, new2.align);
      && DoRotate(st, s, first, second).value.offset == slot2 + new2.size
      && off1 <= st.offset + 15 && slot2 <= off1 + new1.size + 15
      && (new1.size > 0 ==> off1 <= new1.off) && (new2.size > 0 ==> slot2 <= new2.off)
  {
    var new1, new2, off1 := s.live[first], s.live[second], st.live[|st.live| - 2].off;
    FitsTypes(st.live[|st.live| - 2], Top(st), new1, new2);
    AlignUpLeast(off1 + new1.size, 0, new2.align);
    hide AlignUp, Slide, Aligned;
  }

  lemma RotateBound(offset: nat, end: nat, off1: nat, new1: Block, new2: Block, slot2: nat, grow: nat)
    requires off1 <= offset + 15 && end <= offset + grow && slot2 <= off1 + new1.size + 15
    requires new1.size > 0 ==> off1 <= new1.off && new1.End() <= end
    requires new2.size > 0 ==> slot2 <= new2.off && new2.End() <= end
    ensures slot2 + new2.size <= offset + (grow + 30)
  {
  }

  // ── Whole runs ──

  /** In any frame of a sound arena: a legal run whose worst case stays inside the arena does not panic. */
  lemma {:induction false} RunFits(run: Run, base: nat, floor: nat, st: State)
    requires Inv(st) && Framed(st, base, floor) && Legal(run, base, st) && st.offset + Peak(run) <= SIZE
    ensures Ends(st, Exec(run, base, st), Grow(run))
    decreases run, 0
  {
    hide Inv, View, Framed, Exec1, Ideal1, Legal1, Grow1, Peak1;
    if run.Then? {
      OpFits(run.op, base, floor, st);
      Exec1Refines(run.op, base, floor, st);
      var s := Exec1(run.op, base, st).value;
      FramedBase(st, base, floor);
      RunFits(run.rest, base, floor, s);
    }
  }

  lemma {:induction false} OpFits(op: Op, base: nat, floor: nat, st: State)
    requires Inv(st) && Framed(st, base, floor) && Legal1(op, base, st) && st.offset + Peak1(op) <= SIZE
    ensures Ends(st, Exec1(op, base, st), Grow1(op))
    decreases op, 0
  {
    hide Inv, View, Exec, Ideal, Legal, Grow, Peak, BumpAt, ExecFill, LegalFill, PeakFill, DoCompact, DoRotate, Bulk;
    match op {
      case Scope(body) =>
        BodyFits(body, st);
      case Compact(body, result) =>
        BodyFits(body, st);
        CompactEnds(st, Exec(body, |st.live|, st).value, result, Grow(body));
      case Replace2(body, first, second) =>
        BodyFits(body, st);
        RotateEnds(st, Exec(body, |st.live|, st).value, first, second, Grow(body));
      case Reserve(align, elem, capacity, fill, freeze) =>
        Roomy(st.offset, Bulk(capacity, elem), align);
        var at := BumpAt(st.offset, Bulk(capacity, elem), align).value;
        var begun := Reserved(st, at, Bulk(capacity, elem), align);
        ReserveBegins(st, align, elem, capacity, at);
        FillFits(fill, elem, capacity, 0, begun);
        ExecFillRefines(fill, elem, capacity, 0, begun);
      case _ =>
        LeafFits(op, base, st);
    }
  }

  lemma {:induction false} BodyFits(body: Run, st: State)
    requires Inv(st) && Legal(body, |st.live|, st) && st.offset + Peak(body) <= SIZE
    ensures Ends(st, Exec(body, |st.live|, st), Grow(body)) && Nested(st, Exec(body, |st.live|, st).value)
    decreases body, 1
  {
    hide Inv, View, Exec, Ideal, Legal, Grow, Peak;
    assert Framed(st, |st.live|, st.offset);
    RunFits(body, |st.live|, st.offset, st);
    ExecRefines(body, |st.live|, st.offset, st);
    NestedRun(body, st);
  }

  lemma {:induction false} FillFits(fill: Fill, elem: nat, capacity: nat, len: nat, st: State)
    requires Filling(st, elem, capacity, len) && LegalFill(fill, elem, capacity, len, st)
    requires st.offset + PeakFill(fill) <= SIZE
    ensures ExecFill(fill, elem, capacity, len, st).Some?
    decreases fill, 0
  {
    hide Inv, View, Exec, Ideal, Bulk, Legal, Peak;
    match fill {
      case Filled =>
      case PushItem(item, next) =>
        if len >= capacity {
          FillFits(next, elem, capacity, len, st);
        } else {
          PushFills(st, elem, capacity, len, item);
          FillFits(next, elem, capacity, len + 1, Pushed(st, elem, len, item));
        }
      case Truncate(keep, next) =>
        if len <= keep {
          FillFits(next, elem, capacity, len, st);
        } else {
          TruncateFills(st, elem, capacity, len, keep);
          FillFits(next, elem, capacity, keep, WithTop(st, Top(st).(size := Bulk(keep, elem))));
        }
      case Aside(body, next) =>
        BodyFits(body, st);
        var s := Exec(body, |st.live|, st).value;
        ScopeLeaves(st, s);
        FillFits(next, elem, capacity, len, st.(buf := s.buf));
    }
  }

  /** From a fresh arena: a legal run that needs no more than 512 KiB at its peak runs to its end. */
  lemma FreshRunFits(run: Run, buf: Store)
    requires Legal(run, 0, State(0, buf, [])) && Peak(run) <= 512 * 1024
    ensures Exec(run, 0, State(0, buf, [])).Some?
  {
    RunFits(run, 0, 0, State(0, buf, []));
    hide Exec, Legal, Peak, Grow;
  }

  // ── Where each operation leaves the bump offset ──

  /** What an operation leaves behind: nothing, or one block at the first place there was for it with the arena ending
      right there; a reserve that is dropped leaves the offset where its room began. Rotations are followed in
      `ArenaRotation`. */
  lemma OpPlaces(op: Op, base: nat, floor: nat, st: State)
    requires Inv(st) && Framed(st, base, floor) && Exec1(op, base, st).Some? && !op.Replace2?
    ensures var s := Exec1(op, base, st).value;
      match op
      case Alloc(align, data) => FirstPlace(st, s, |data|, align)
      case Empty(_) => s.offset == st.offset
      case Span(align, elem, steps) => FirstPlace(st, s, |Built([], elem, steps)|, align)
      case Reserve(align, elem, capacity, _, freeze) =>
        if freeze then s.live != [] && FirstPlace(st, s, Top(s).size, align)
        else s.live == st.live && FitsAt(s.offset, st.offset, capacity * elem, align) && s.offset < st.offset + align
      case Compact(body, result) =>
        Exec(body, |st.live|, st).Some? && result < |Exec(body, |st.live|, st).value.live|
        && var b := Exec(body, |st.live|, st).value.live[result];
        FirstPlace(st, s, b.size, b.align)
      case _ => s.live == st.live && s.offset == st.offset
  {
    hide Inv, View, Exec, Built, ExecFill, Put, Tail, AlignUp, Slide, FitsAt, DoSpan, DoAlloc, DoCompact, BumpAt;
    match op
    case Alloc(align, data) =>
      AllocExactly(st, align, data);
    case Span(align, elem, steps) =>
      SpanFirst(st, align, elem, steps);
    case Reserve(align, elem, capacity, fill, freeze) =>
      ReserveFirst(align, elem, capacity, fill, freeze, base, st);
    case Compact(body, result) =>
      ExecRefines(body, |st.live|, st.offset, st);
      CompactFirst(st, Exec(body, |st.live|, st).value, result);
    case _ =>
  }

  /** The first aligned offset is the first place. */
  lemma UpFits(offset: nat, size: nat, align: nat)
    requires IsAlign(align) && AlignUp(offset, align) + size <= SIZE
    ensures FitsAt(AlignUp(offset, align), offset, size, align) && AlignUp(offset, align) < offset + align
  {
    AlignUpLeast(offset, offset, align);
    hide AlignUp;
  }

  lemma SpanFirst(st: State, align: nat, elem: nat, steps: seq<Build>)
    requires Inv(st) && DoSpan(st, align, elem, steps).Some?
    ensures FirstPlace(st, DoSpan(st, align, elem, steps).value, |Built([], elem, steps)|, align)
  {
    SpanPlaced(st, align, elem, steps);
    SpanAlign(st, align, elem, steps);
    hide DoSpan, AlignUp, Built;
    UpFits(st.offset, |Built([], elem, steps)|, align);
  }

  lemma CompactFirst(st: State, s: State, result: nat)
    requires DoCompact(st, s, result).Some?
    ensures result < |s.live| && IsAlign(s.live[result].align)
    ensures FirstPlace(st, DoCompact(st, s, result).value, s.live[result].size, s.live[result].align)
  {
    var b := s.live[result];
    UpFits(st.offset, b.size, b.align);
    hide AlignUp, Slide, FitsAt;
  }

  lemma ReserveFirst(align: nat, elem: nat, capacity: nat, fill: Fill, freeze: bool, base: nat, st: State)
    requires Inv(st) && Exec1(Reserve(align, elem, capacity, fill, freeze), base, st).Some?
    ensures var s := Exec1(Reserve(align, elem, capacity, fill, freeze), base, st).value;
      if freeze then s.live != [] && FirstPlace(st, s, Top(s).size, align)
      else s.live == st.live && FitsAt(s.offset, st.offset, capacity * elem, align) && s.offset < st.offset + align
  {
    var at := BumpAt(st.offset, Bulk(capacity, elem), align).value;
    var begun := Reserved(st, at, Bulk(capacity, elem), align);
    var s := ExecFill(fill, elem, capacity, 0, begun).value;
    ReserveFilled(align, elem, capacity, fill, st, at, begun, s);
    assert Exec1(Reserve(align, elem, capacity, fill, freeze), base, st).value
        == if freeze then State(Top(s).End(), s.buf, st.live + [Top(s)]) else State(at, s.buf, st.live);
    hide *;
    FitsLess(at, st.offset, capacity * elem, Top(s).size, align);
    ReserveLeaves(st, State(Top(s).End(), s.buf, st.live + [Top(s)]), Top(s), align);
  }

  lemma ReserveLeaves(st: State, r: State, b: Block, align: nat)
    requires r.live == st.live + [b] && r.offset == b.End() && b.align == align
    requires FitsAt(b.off, st.offset, b.size, align) && b.off < st.offset + align
    ensures r.live != [] && Top(r) == b && FirstPlace(st, r, Top(r).size, align)
  {
    hide FitsAt;
  }

  /** The filled part of a reserve: at the first place there was for all of it. */
  lemma ReserveFilled(align: nat, elem: nat, capacity: nat, fill: Fill, st: State, at: nat, begun: State, s: State)
    requires Inv(st) && BumpAt(st.offset, Bulk(capacity, elem), align) == Some(at)
    requires begun == Reserved(st, at, Bulk(capacity, elem), align)
    requires ExecFill(fill, elem, capacity, 0, begun) == Some(s)
    ensures s.live != [] && Top(s).off == at && Top(s).size <= capacity * elem && Top(s).align == align
    ensures FitsAt(at, st.offset, capacity * elem, align) && at < st.offset + align
  {
    BumpExactly(st.offset, Bulk(capacity, elem), align);
    ReserveBegins(st, align, elem, capacity, at);
    ExecFillRefines(fill, elem, capacity, 0, begun);
    FillAlign(fill, elem, capacity, 0, begun);
    assert Bulk(capacity, elem) == capacity * elem;
    hide Inv, View, ExecFill, BumpAt, Ideal, IdealFill, Bulk, FitsAt;
  }

  lemma FitsLess(at: nat, offset: nat, size: nat, less: nat, align: nat)
    requires FitsAt(at, offset, size, align) && less <= size
    ensures FitsAt(at, offset, less, align)
  {
  }

  lemma {:induction false} FillAlign(fill: Fill, elem: nat, capacity: nat, len: nat, st: State)
    requires st.live != [] && ExecFill(fill, elem, capacity, len, st).Some?
    ensures var s := ExecFill(fill, elem, capacity, len, st).value;
      s.live != [] && Top(s).align == Top(st).align
    decreases fill
  {
    hide Exec, Bulk, Put;
    match fill {
      case Filled =>
      case PushItem(item, next) =>
        if len >= capacity {
          FillAlign(next, elem, capacity, len, st);
        } else {
          FillAlign(next, elem, capacity, len + 1, Pushed(st, elem, len, item));
        }
      case Truncate(keep, next) =>
        if len <= keep {
          FillAlign(next, elem, capacity, len, st);
        } else {
          FillAlign(next, elem, capacity, keep, WithTop(st, Top(st).(size := Bulk(keep, elem))));
        }
      case Aside(body, next) =>
        FillAlign(next, elem, capacity, len, st.(buf := Exec(body, |st.live|, st).value.buf));
    }
  }
}
