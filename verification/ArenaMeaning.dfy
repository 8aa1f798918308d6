/**
 Whole runs of the arena: the machine over one byte buffer refines the heap of independent cells, and only a
 block's owner changes it.
 */
module ArenaMeaning {
  import opened Wrappers
  import opened Words
  import opened ArenaBytes
  import opened ArenaRuns
  import opened ArenaSafety

  /** What any stretch of a frame keeps. */
  ghost predicate Keeps(st: State, s: State, base: nat, floor: nat)
    requires base <= |st.live|
  {
    Inv(s) && Framed(s, base, floor) && s.live[..base] == st.live[..base]
  }

  lemma AppendedKeeps(st: State, s: State, b: Block, heap: Heap, data: seq<byte>, base: nat, floor: nat)
    requires Framed(st, base, floor) && Appended(st, s, b, heap, data)
    ensures Keeps(st, s, base, floor)
  {
    hide Inv, View;
  }

  // ── Refinement, construct by construct ──

  /** The claim for one operation, or for a stretch of them. */
  ghost predicate Refines(st: State, r: Option<State>, base: nat, floor: nat, ideal: Option<Heap>)
    requires base <= |st.live|
  {
    r.Some? ==> Keeps(st, r.value, base, floor) && ideal == Some(View(r.value))
  }

  lemma NestedRun(body: Run, st: State)
    requires Inv(st)
    requires Refines(st, Exec(body, |st.live|, st), |st.live|, st.offset, Ideal(body, |st.live|, View(st)))
    ensures Exec(body, |st.live|, st).Some? ==>
              var s := Exec(body, |st.live|, st).value;
              && Nested(st, s) && Ideal(body, |st.live|, View(st)) == Some(View(s))
              && |View(s)| == |s.live| && |View(st)| == |st.live|
  {
    assert st.live[..|st.live|] == st.live;
    hide Inv, Framed, Contents, Exec, Ideal;
  }

  lemma ScopeRefines(body: Run, base: nat, floor: nat, st: State)
    requires Inv(st) && Framed(st, base, floor)
    requires Refines(st, Exec(body, |st.live|, st), |st.live|, st.offset, Ideal(body, |st.live|, View(st)))
    ensures Refines(st, Exec1(Scope(body), base, st), base, floor, Ideal1(Scope(body), base, View(st)))
  {
    hide Inv, View, Exec, Ideal;
    NestedRun(body, st);
    if Exec(body, |st.live|, st).Some? {
      ScopeLeaves(st, Exec(body, |st.live|, st).value);
    }
  }

  lemma CompactRefines(body: Run, result: nat, base: nat, floor: nat, st: State)
    requires Inv(st) && Framed(st, base, floor)
    requires Refines(st, Exec(body, |st.live|, st), |st.live|, st.offset, Ideal(body, |st.live|, View(st)))
    ensures Refines(st, Exec1(Compact(body, result), base, st), base, floor,
                    Ideal1(Compact(body, result), base, View(st)))
  {
    hide Inv, View, Exec, Ideal, Framed;
    NestedRun(body, st);
    if Exec1(Compact(body, result), base, st).Some? {
      var s := Exec(body, |st.live|, st).value;
      CompactAppends(st, s, result);
      var r := DoCompact(st, s, result).value;
      AppendedKeeps(st, r, Top(r), View(s)[..|st.live|], View(s)[result], base, floor);
    }
  }

  lemma RotateRefines(body: Run, first: nat, second: nat, base: nat, floor: nat, st: State)
    requires Inv(st) && Framed(st, base, floor)
    requires Refines(st, Exec(body, |st.live|, st), |st.live|, st.offset, Ideal(body, |st.live|, View(st)))
    ensures Refines(st, Exec1(Replace2(body, first, second), base, st), base, floor,
                    Ideal1(Replace2(body, first, second), base, View(st)))
  {
    hide Inv, View, Exec, Ideal, DoRotate;
    NestedRun(body, st);
    if Exec1(Replace2(body, first, second), base, st).Some? {
      RotateReplaces(st, Exec(body, |st.live|, st).value, first, second);
    }
  }

  /** Operations without a nested run. */
  lemma LeafRefines(op: Op, base: nat, floor: nat, st: State)
    requires op.Alloc? || op.Empty? || op.Span? || op.Write? || op.Uncommit?
    requires Inv(st) && Framed(st, base, floor)
    ensures Refines(st, Exec1(op, base, st), base, floor, Ideal1(op, base, View(st)))
  {
    hide Inv, View, DoAlloc, DoSpan, DoWrite, DoUncommit, Built, Put, AlignUp;
    if Exec1(op, base, st).Some? {
      var s := Exec1(op, base, st).value;
      match op
      case Alloc(align, data) =>
        AllocAppends(st, align, data);
        AppendedKeeps(st, s, Top(s), View(st), data, base, floor);
      case Empty(align) =>
        EmptyAppends(st, align);
        AppendedKeeps(st, s, Top(s), View(st), [], base, floor);
      case Span(align, elem, steps) =>
        SpanAppends(st, align, elem, steps);
        AppendedKeeps(st, s, Top(s), View(st), Built([], elem, steps), base, floor);
      case Write(h, at, data) =>
        WriteRefines(h, at, data, base, floor, st);
      case Uncommit(address, page) =>
        UncommitRefines(address, page, base, floor, st);
    }
  }

  lemma WriteRefines(h: nat, at: nat, data: seq<byte>, base: nat, floor: nat, st: State)
    requires Inv(st) && Framed(st, base, floor)
    ensures Refines(st, DoWrite(st, h, at, data), base, floor, Ideal1(Write(h, at, data), base, View(st)))
  {
    hide Inv, Put, Contents;
    if DoWrite(st, h, at, data).Some? {
      WriteOwns(st, h, at, data);
    }
  }

  lemma UncommitRefines(address: nat, page: nat, base: nat, floor: nat, st: State)
    requires Inv(st) && Framed(st, base, floor)
    ensures Refines(st, DoUncommit(st, address, page), base, floor, Some(View(st)))
  {
    hide Inv, View;
    UncommitKeeps(st, address, page);
    hide Tail, Put;
  }

  // ── Reserves ──

  /** What filling keeps: all but the top handle, and the room reserved. */
  ghost predicate FillRefines(st: State, r: Option<State>, ideal: Option<Heap>)
    requires st.live != []
  {
    r.Some? ==>
      var s := r.value;
      && Inv(s) && |s.live| == |st.live| && s.live[..|st.live| - 1] == st.live[..|st.live| - 1]
      && s.offset == st.offset && Top(s).off == Top(st).off && Top(s).End() <= s.offset
      && ideal == Some(View(s))
  }

  /** The reserved state an operation `Reserve` starts filling from. */
  lemma ReserveBegins(st: State, align: nat, elem: nat, capacity: nat, at: nat)
    requires Inv(st) && BumpAt(st.offset, Bulk(capacity, elem), align) == Some(at)
    ensures var begun := Reserved(st, at, Bulk(capacity, elem), align);
      st.offset <= at && Filling(begun, elem, capacity, 0) && View(begun) == View(st) + [[]]
  {
    Bumped(st.offset, Bulk(capacity, elem), align);
    hide Inv, View, AlignUp, Bulk, BumpAt, Aligned;
    BulkGrows(0, capacity, elem);
    AlignUpLeast(at + Bulk(capacity, elem), at, align);
    AtTop(st, st.buf, Block(at, 0, align), at + Bulk(capacity, elem));
    hide Fine, Before;
  }

  lemma ReserveEnds(st: State, at: nat, s: State)
    requires Inv(st) && Inv(s) && st.offset <= at && |s.live| == |st.live| + 1 && s.live[..|st.live|] == st.live
    requires Top(s).off == at && Top(s).End() <= s.offset
    ensures Appended(st, State(Top(s).End(), s.buf, st.live + [Top(s)]), Top(s),
                     View(s)[..|st.live|], View(s)[|st.live|])
    ensures Inv(State(at, s.buf, st.live)) && View(State(at, s.buf, st.live)) == View(s)[..|st.live|]
  {
    var n := |st.live|;
    Handle(s, n);
    ContentsSplit(s.buf, s.live, n);
    hide Contents, Ordered, AllFine, AllBefore, Bytes, AlignUp, Aligned;
    AlignUpLeast(Top(s).End(), Top(s).End(), Top(s).align);
    Place(s.buf, st.live, st.offset, Top(s), Top(s).End());
    AllBeforeLater(st.live, st.offset, at);
  }

  lemma ReserveRefines(align: nat, elem: nat, capacity: nat, fill: Fill, freeze: bool, base: nat, floor: nat, st: State)
    requires Inv(st) && Framed(st, base, floor) && BumpAt(st.offset, Bulk(capacity, elem), align).Some?
    requires var at := BumpAt(st.offset, Bulk(capacity, elem), align).value;
      var begun := Reserved(st, at, Bulk(capacity, elem), align);
      FillRefines(begun, ExecFill(fill, elem, capacity, 0, begun), IdealFill(fill, elem, capacity, 0, View(st) + [[]]))
    ensures var op := Reserve(align, elem, capacity, fill, freeze);
      Refines(st, Exec1(op, base, st), base, floor, Ideal1(op, base, View(st)))
  {
    hide Inv, View, ExecFill, IdealFill, AlignUp, BumpAt, Aligned, Bulk;
    var at := BumpAt(st.offset, Bulk(capacity, elem), align).value;
    var begun := Reserved(st, at, Bulk(capacity, elem), align);
    ReserveBegins(st, align, elem, capacity, at);
    var filled := ExecFill(fill, elem, capacity, 0, begun);
    if filled.Some? {
      var s, n := filled.value, |st.live|;
      assert begun.live[..n] == st.live;
      ReserveEnds(st, at, s);
      ViewLength(s);
      assert View(s)[..n] + [View(s)[n]] == View(s);
      var r := if freeze then State(Top(s).End(), s.buf, st.live + [Top(s)]) else State(at, s.buf, st.live);
      assert Keeps(st, r, base, floor);
    }
  }

  // ── Refinement of every run ──

  /** Over every run, in any frame of a sound arena: the arena stays sound, the frame stays above its entry
      offset and the outer handles stay as they were, and what the handles read is what the heap of
      independent cells says they read. */
  lemma {:induction false} ExecRefines(run: Run, base: nat, floor: nat, st: State)
    requires Inv(st) && Framed(st, base, floor)
    ensures Refines(st, Exec(run, base, st), base, floor, Ideal(run, base, View(st)))
    decreases run
  {
    hide Inv, View, Framed, Exec1, Ideal1;
    if run.Then? {
      Exec1Refines(run.op, base, floor, st);
      if Exec1(run.op, base, st).Some? {
        var s := Exec1(run.op, base, st).value;
        FramedBase(s, base, floor);
        ExecRefines(run.rest, base, floor, s);
      }
    }
  }

  lemma FramedBase(s: State, base: nat, floor: nat)
    requires Framed(s, base, floor)
    ensures base <= |s.live|
  {
  }

  lemma {:induction false} Exec1Refines(op: Op, base: nat, floor: nat, st: State)
    requires Inv(st) && Framed(st, base, floor)
    ensures Refines(st, Exec1(op, base, st), base, floor, Ideal1(op, base, View(st)))
    decreases op
  {
    hide Inv, View, Refines, Exec, Ideal, FillRefines, BumpAt, ExecFill, IdealFill, Bulk;
    match op {
      case Scope(body) =>
        ExecRefines(body, |st.live|, st.offset, st);
        ScopeRefines(body, base, floor, st);
      case Compact(body, result) =>
        ExecRefines(body, |st.live|, st.offset, st);
        CompactRefines(body, result, base, floor, st);
      case Replace2(body, first, second) =>
        ExecRefines(body, |st.live|, st.offset, st);
        RotateRefines(body, first, second, base, floor, st);
      case Reserve(align, elem, capacity, fill, freeze) =>
        if IsAlign(align) && Aligned(elem, align) && BumpAt(st.offset, Bulk(capacity, elem), align).Some? {
          var at := BumpAt(st.offset, Bulk(capacity, elem), align).value;
          ReserveBegins(st, align, elem, capacity, at);
          ExecFillRefines(fill, elem, capacity, 0, Reserved(st, at, Bulk(capacity, elem), align));
          ReserveRefines(align, elem, capacity, fill, freeze, base, floor, st);
        } else {
          Panics(op, base, floor, st);
        }
      case _ => LeafRefines(op, base, floor, st);
    }
  }

  lemma Panics(op: Op, base: nat, floor: nat, st: State)
    requires base <= |st.live| && Inv(st) && Exec1(op, base, st) == None
    ensures Refines(st, Exec1(op, base, st), base, floor, Ideal1(op, base, View(st)))
  {
  }

  lemma {:induction false} ExecFillRefines(fill: Fill, elem: nat, capacity: nat, len: nat, st: State)
    requires Filling(st, elem, capacity, len)
    ensures View(st) != []
        && FillRefines(st, ExecFill(fill, elem, capacity, len, st), IdealFill(fill, elem, capacity, len, View(st)))
    decreases fill
  {
    hide Inv, View, Exec, Ideal, Bulk;
    ViewLength(st);
    if ExecFill(fill, elem, capacity, len, st) == None {
      return;
    }
    match fill {
      case Filled =>
        BulkGrows(len, capacity, elem);
      case PushItem(item, next) =>
        if len >= capacity {
          ExecFillRefines(next, elem, capacity, len, st);
        } else {
          PushFills(st, elem, capacity, len, item);
          var buf := Put(st.buf, Top(st).off + Bulk(len, elem), item);
          var filled := WithTop(st.(buf := buf), Top(st).(size := Bulk(len + 1, elem)));
          ExecFillRefines(next, elem, capacity, len + 1, filled);
        }
      case Truncate(keep, next) =>
        if len <= keep {
          ExecFillRefines(next, elem, capacity, len, st);
        } else {
          TruncateFills(st, elem, capacity, len, keep);
          ExecFillRefines(next, elem, capacity, keep, WithTop(st, Top(st).(size := Bulk(keep, elem))));
        }
      case Aside(body, next) =>
        ExecRefines(body, |st.live|, st.offset, st);
        NestedRun(body, st);
        var s := Exec(body, |st.live|, st).value;
        ScopeLeaves(st, s);
        ExecFillRefines(next, elem, capacity, len, st.(buf := s.buf));
    }
  }

  /** A whole run on a fresh arena: whatever it does, if it does not panic the arena ends sound and every
      handle reads what its own cell of the ideal heap holds. */
  lemma WholeRun(run: Run, buf: Store)
    ensures var r := Exec(run, 0, State(0, buf, []));
      r.Some? ==> Inv(r.value) && Ideal(run, 0, []) == Some(View(r.value))
  {
    var st := State(0, buf, []);
    ExecRefines(run, 0, 0, st);
    assert View(st) == [];
    hide Exec, Ideal, Contents;
  }

  // ── A nested collection's footprint ──

  /** What `nest` runs: its offsets, its data, then a scope with the cursors and all writes. However much scratch
      that scope takes, exactly the two arrays are kept, tight and one right after the other. */
  lemma NestKeeps(offsets: seq<Build>, align: nat, elem: nat, data: seq<Build>, fill: Run, base: nat, st: State)
    requires Inv(st)
    requires Exec(NestRun(offsets, align, elem, data, fill), base, st).Some?
    ensures var s := Exec(NestRun(offsets, align, elem, data, fill), base, st).value;
      var first := Block(AlignUp(st.offset, 4), |Built([], 4, offsets)|, 4);
      && IsAlign(align)
      && var second := Block(AlignUp(first.End(), align), |Built([], elem, data)|, align);
      s.live == st.live + [first, second] && s.offset == second.End()
  {
    hide Inv, DoSpan, Built, AlignUp, Exec;
    var last := Then(Scope(fill), Done);
    ExecThen(Span(4, 4, offsets), Then(Span(align, elem, data), last), base, st);
    var one := DoSpan(st, 4, 4, offsets).value;
    SpanPlaced(st, 4, 4, offsets);
    ExecThen(Span(align, elem, data), last, base, one);
    var two := DoSpan(one, align, elem, data).value;
    SpanAlign(one, align, elem, data);
    SpanPlaced(one, align, elem, data);
    ExecThen(Scope(fill), Done, base, two);
    ExecDone(base, Exec1(Scope(fill), base, two).value);
  }

  lemma ExecThen(op: Op, rest: Run, base: nat, st: State)
    requires Exec(Then(op, rest), base, st).Some?
    ensures Exec1(op, base, st).Some? && Exec(Then(op, rest), base, st) == Exec(rest, base, Exec1(op, base, st).value)
  {
    hide Exec1;
  }

  lemma ExecDone(base: nat, st: State)
    ensures Exec(Done, base, st) == Some(st)
  {
  }

  function NestRun(offsets: seq<Build>, align: nat, elem: nat, data: seq<Build>, fill: Run): Run {
    Then(Span(4, 4, offsets), Then(Span(align, elem, data), Then(Scope(fill), Done)))
  }

  lemma SpanAlign(st: State, align: nat, elem: nat, steps: seq<Build>)
    requires DoSpan(st, align, elem, steps).Some?
    ensures IsAlign(align)
  {
  }

  // ── Only the owner writes ──

  /** The run writes through handle `h`. */
  predicate Writes(run: Run, h: nat)
    decreases run
  {
    run.Then? && (Writes1(run.op, h) || Writes(run.rest, h))
  }

  predicate Writes1(op: Op, h: nat)
    decreases op
  {
    match op
    case Write(handle, _, _) => handle == h
    case Scope(body) => Writes(body, h)
    case Compact(body, _) => Writes(body, h)
    case Replace2(body, _, _) => Writes(body, h)
    case Reserve(_, _, _, fill, _) => FillWrites(fill, h)
    case _ => false
  }

  predicate FillWrites(fill: Fill, h: nat)
    decreases fill
  {
    match fill
    case Filled => false
    case PushItem(_, next) => FillWrites(next, h)
    case Truncate(_, next) => FillWrites(next, h)
    case Aside(body, next) => Writes(body, h) || FillWrites(next, h)
  }

  lemma {:induction false} CellKept(run: Run, base: nat, heap: Heap, h: nat)
    requires h < base <= |heap| && !Writes(run, h) && Ideal(run, base, heap).Some?
    ensures var after := Ideal(run, base, heap).value;
      base <= |after| && after[h] == heap[h]
    decreases run
  {
    if run.Then? {
      CellKept1(run.op, base, heap, h);
      CellKept(run.rest, base, Ideal1(run.op, base, heap).value, h);
    }
  }

  lemma {:induction false} CellKept1(op: Op, base: nat, heap: Heap, h: nat)
    requires h < base <= |heap| && !Writes1(op, h) && Ideal1(op, base, heap).Some?
    ensures var after := Ideal1(op, base, heap).value;
      base <= |after| && after[h] == heap[h]
    decreases op
  {
    hide Ideal, Built;
    match op {
      case Scope(body) => CellKept(body, |heap|, heap, h);
      case Compact(body, _) => CellKept(body, |heap|, heap, h);
      case Replace2(body, _, _) => CellKept(body, |heap|, heap, h);
      case Reserve(_, elem, capacity, fill, _) => CellKeptFill(fill, elem, capacity, 0, heap + [[]], h);
      case _ =>
    }
  }

  lemma {:induction false} CellKeptFill(fill: Fill, elem: nat, capacity: nat, len: nat, heap: Heap, h: nat)
    requires h < |heap| - 1 && !FillWrites(fill, h) && IdealFill(fill, elem, capacity, len, heap).Some?
    ensures IdealFill(fill, elem, capacity, len, heap).value[h] == heap[h]
    decreases fill
  {
    hide Ideal;
    var top := |heap| - 1;
    match fill {
      case Filled =>
      case PushItem(item, next) =>
        if len >= capacity {
          CellKeptFill(next, elem, capacity, len, heap, h);
        } else {
          CellKeptFill(next, elem, capacity, len + 1, heap[top := heap[top] + item], h);
        }
      case Truncate(keep, next) =>
        if len <= keep {
          CellKeptFill(next, elem, capacity, len, heap, h);
        } else {
          CellKeptFill(next, elem, capacity, keep, heap[top := heap[top][..Bulk(keep, elem)]], h);
        }
      case Aside(body, next) =>
        CellKept(body, |heap|, heap, h);
        CellKeptFill(next, elem, capacity, len, Ideal(body, |heap|, heap).value[..|heap|], h);
    }
  }

  /** A cell of an outer frame that the run never writes through keeps its contents, over any
      allocations, scopes, reserves, compactions and rotations in between; in particular the two old spans
      are intact at every point of the build of a `replace2`. */
  lemma {:induction false} OwnerOnly(run: Run, base: nat, floor: nat, st: State, h: nat)
    requires Inv(st) && Framed(st, base, floor) && h < base && !Writes(run, h) && Exec(run, base, st).Some?
    ensures var s := Exec(run, base, st).value;
      Inv(s) && h < |s.live| && s.live[h] == st.live[h] && Bytes(s.buf, s.live[h]) == Bytes(st.buf, st.live[h])
  {
    var s := Exec(run, base, st).value;
    ExecRefines(run, base, floor, st);
    assert s.live[h] == s.live[..base][h] == st.live[..base][h];
    Handle(st, h);
    Handle(s, h);
    ViewLength(st);
    CellKept(run, base, View(st), h);
    hide Exec, Ideal, View, Inv;
  }
}
