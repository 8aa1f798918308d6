/**
 The bump arena as a machine over runs of operations. A run is one well-nested sequence of the calls a
 program makes (closures become nested runs, the branches they take being already resolved), and the
 handles it holds are numbered in the order they were given out.
 */
module ArenaRuns {
  import opened Wrappers
  import opened Words
  import opened ArenaBytes

  type Store = b: seq<byte> | |b| == SIZE witness seq(SIZE, _ => 0)

  /** A handle: a box, a frozen span, a fixed vector's storage or the filled part of a reserve. */
  datatype Block = Block(off: nat, size: nat, align: nat) {
    function End(): nat { off + size }
  }

  datatype State = State(offset: nat, buf: Store, live: seq<Block>)

  /** What a span builder is told. */
  datatype Build = Push(data: seq<byte>) | Extend(data: seq<byte>) | Pop

  /** What happens between reserving room and freezing or dropping it. */
  datatype Fill =
    | Filled
    | PushItem(item: seq<byte>, next: Fill)
    | Truncate(keep: nat, next: Fill)
    | Aside(body: Run, next: Fill)

  datatype Op =
    | Alloc(align: nat, data: seq<byte>)
    | Empty(align: nat)
    | Span(align: nat, elem: nat, steps: seq<Build>)
    | Write(handle: nat, at: nat, data: seq<byte>)
    | Scope(body: Run)
    | Reserve(align: nat, elem: nat, capacity: nat, fill: Fill, freeze: bool)
    | Compact(body: Run, result: nat)
    | Replace2(body: Run, first: nat, second: nat)
    | Uncommit(base: nat, page: nat)

  datatype Run = Done | Then(op: Op, rest: Run)

  // ── The machine; None stands for a panic, or for a run no program can make ──

  function BumpAt(offset: nat, size: nat, align: nat): Option<nat> {
    if !IsAlign(align) || size > SIZE then None
    else
      var at := AlignUp(offset, align);
      if at + size > SIZE then None else Some(at)
  }

  function DoAlloc(st: State, align: nat, data: seq<byte>): Option<State> {
    match BumpAt(st.offset, |data|, align)
    case None => None
    case Some(at) => Some(State(at + |data|, Put(st.buf, at, data), st.live + [Block(at, |data|, align)]))
  }

  function Top(st: State): Block
    requires st.live != []
  {
    st.live[|st.live| - 1]
  }

  function WithTop(st: State, top: Block): (s: State)
    requires st.live != []
    ensures |s.live| == |st.live|
  {
    st.(live := st.live[..|st.live| - 1] + [top])
  }

  /** A builder push bumps the arena; the span only counts it. */
  function DoBuild(st: State, elem: nat, step: Build): (r: Option<State>)
    requires st.live != []
    ensures r.Some? ==> |r.value.live| == |st.live|
  {
    var top := Top(st);
    if step.Pop? then
      if top.size < elem then Some(st)
      else if st.offset < elem then None
      else Some(WithTop(st, top.(size := top.size - elem)).(offset := st.offset - elem))
    else if step.Push? && |step.data| != elem then None
    else
      match BumpAt(st.offset, |step.data|, top.align)
      case None => None
      case Some(at) =>
        Some(WithTop(State(at + |step.data|, Put(st.buf, at, step.data), st.live),
                     top.(size := top.size + |step.data|)))
  }

  function DoBuilds(st: State, elem: nat, steps: seq<Build>): (r: Option<State>)
    requires st.live != []
    ensures r.Some? ==> |r.value.live| == |st.live|
    decreases |steps|
  {
    if steps == [] then Some(st)
    else
      match DoBuild(st, elem, steps[0])
      case None => None
      case Some(s) => DoBuilds(s, elem, steps[1..])
  }

  /** Elements come in whole numbers, and their size is a multiple of their alignment. */
  predicate WellSized(align: nat, elem: nat, steps: seq<Build>) {
    && IsAlign(align) && Aligned(elem, align)
    && forall k | 0 <= k < |steps| :: steps[k].Extend? ==> Aligned(|steps[k].data|, align)
  }

  function DoSpan(st: State, align: nat, elem: nat, steps: seq<Build>): Option<State> {
    if !WellSized(align, elem, steps) then None
    else
      var start := AlignUp(st.offset, align);
      DoBuilds(State(start, st.buf, st.live + [Block(start, 0, align)]), elem, steps)
  }

  function DoWrite(st: State, h: nat, at: nat, data: seq<byte>): Option<State> {
    if h < |st.live| && at + |data| <= st.live[h].size && st.live[h].End() <= SIZE
    then Some(st.(buf := Put(st.buf, st.live[h].off + at, data)))
    else None
  }

  /** Move a block's bytes down unless they are already there. */
  function Slide(buf: Store, b: Block, dst: nat): Store
    requires b.End() <= SIZE && dst + b.size <= SIZE
  {
    if b.off != dst && b.size > 0 then Move(buf, b.off, dst, b.size) else buf
  }

  /** The end of `compact`: `s` is where the build left the arena. */
  function DoCompact(st: State, s: State, result: nat): Option<State> {
    if result < |st.live| || result >= |s.live| then None
    else if !IsAlign(s.live[result].align) || s.live[result].End() > SIZE then None
    else
      var b := s.live[result];
      var dst := AlignUp(st.offset, b.align);
      if b.off < dst then None
      else Some(State(dst + b.size, Slide(s.buf, b, dst), st.live + [Block(dst, b.size, b.align)]))
  }

  /** What `replace2` asserts of the two old spans, the top two handles of their frame. */
  predicate CanRotate(st: State, base: nat) {
    && base + 2 <= |st.live|
    && var (old1, old2) := (st.live[|st.live| - 2], Top(st));
    && IsAlign(old1.align) && IsAlign(old2.align)
    && old1.End() <= old2.off && st.offset <= old2.End() < st.offset + old2.align
  }

  /** What `replace2` asserts of the two new spans: they have the old ones' types and lie at or above the
      slots they are moved to. */
  predicate RotateFits(old1: Block, old2: Block, new1: Block, new2: Block) {
    && IsAlign(old1.align) && new1.align == old1.align && IsAlign(old2.align) && new2.align == old2.align
    && new1.End() <= SIZE && new2.End() <= SIZE && old1.off + new1.size <= SIZE
    && (new1.size > 0 ==> old1.off <= new1.off)
    && var slot2 := AlignUp(old1.off + new1.size, new2.align);
    && slot2 + new2.size <= SIZE && (new2.size > 0 ==> slot2 <= new2.off)
  }

  /** The two memory moves, and the two spans where they put them. */
  function RotateTo(buf: Store, rest: seq<Block>, off1: nat, new1: Block, new2: Block): State
    requires IsAlign(new2.align) && new1.End() <= SIZE && new2.End() <= SIZE && off1 + new1.size <= SIZE
    requires AlignUp(off1 + new1.size, new2.align) + new2.size <= SIZE
  {
    var slot2 := AlignUp(off1 + new1.size, new2.align);
    State(slot2 + new2.size, Slide(Slide(buf, new1, off1), new2, slot2),
          rest + [Block(off1, new1.size, new1.align), Block(slot2, new2.size, new2.align)])
  }

  function DoRotate(st: State, s: State, first: nat, second: nat): Option<State>
    requires CanRotate(st, 0)
  {
    var n := |st.live|;
    if !(n <= first < |s.live| && n <= second < |s.live| && first != second) then None
    else if !RotateFits(st.live[n - 2], st.live[n - 1], s.live[first], s.live[second]) then None
    else Some(RotateTo(s.buf, st.live[..n - 2], st.live[n - 2].off, s.live[first], s.live[second]))
  }

  /** The kernel drops the released pages: they read as zero from then on. */
  function DoUncommit(st: State, base: nat, page: nat): Option<State> {
    if page == 0 then Some(st)
    else if st.offset > SIZE then None
    else
      var (start, len) := Tail(base, st.offset, page);
      if len == 0 then Some(st)
      else if start < base || start - base + len > SIZE then None
      else Some(st.(buf := Put(st.buf, start - base, seq(len, _ => 0))))
  }

  /** `room` bytes set aside from `at` on, none of them filled. */
  function Reserved(st: State, at: nat, room: nat, align: nat): (s: State)
    ensures s.live != []
  {
    State(at + room, st.buf, st.live + [Block(at, 0, align)])
  }

  /** Run `op` in a frame whose own handles start at `base`. */
  function Exec1(op: Op, base: nat, st: State): Option<State>
    decreases op
  {
    match op
    case Alloc(align, data) => DoAlloc(st, align, data)
    case Empty(align) =>
      if !IsAlign(align) then None
      else Some(st.(live := st.live + [Block(AlignUp(st.offset, align), 0, align)]))
    case Span(align, elem, steps) => DoSpan(st, align, elem, steps)
    case Write(h, at, data) => DoWrite(st, h, at, data)
    case Scope(body) =>
      (match Exec(body, |st.live|, st)
       case None => None
       case Some(s) => Some(st.(buf := s.buf)))
    case Reserve(align, elem, capacity, fill, freeze) =>
      if !IsAlign(align) || !Aligned(elem, align) then None
      else
        (match BumpAt(st.offset, Bulk(capacity, elem), align)
         case None => None
         case Some(at) =>
           (match ExecFill(fill, elem, capacity, 0, Reserved(st, at, Bulk(capacity, elem), align))
            case None => None
            case Some(s) =>
              if freeze then Some(State(Top(s).End(), s.buf, st.live + [Top(s)]))
              else Some(State(at, s.buf, st.live))))
    case Compact(body, result) =>
      (match Exec(body, |st.live|, st)
       case None => None
       case Some(s) => DoCompact(st, s, result))
    case Replace2(body, first, second) =>
      if !CanRotate(st, base) then None
      else
        (match Exec(body, |st.live|, st)
         case None => None
         case Some(s) => DoRotate(st, s, first, second))
    case Uncommit(address, page) => DoUncommit(st, address, page)
  }

  function Exec(run: Run, base: nat, st: State): Option<State>
    decreases run
  {
    match run
    case Done => Some(st)
    case Then(op, rest) =>
      match Exec1(op, base, st)
      case None => None
      case Some(s) => Exec(rest, base, s)
  }

  /** The top handle is the filled part of the reserve: `len` of its `capacity` elements. */
  function ExecFill(fill: Fill, elem: nat, capacity: nat, len: nat, st: State): (r: Option<State>)
    requires st.live != []
    ensures r.Some? ==> |r.value.live| == |st.live|
    decreases fill
  {
    match fill
    case Filled => Some(st)
    case PushItem(item, next) =>
      if len >= capacity then ExecFill(next, elem, capacity, len, st)
      else if |item| != elem || Top(st).off + Bulk(len, elem) + elem > SIZE then None
      else
        var buf := Put(st.buf, Top(st).off + Bulk(len, elem), item);
        ExecFill(next, elem, capacity, len + 1, WithTop(st.(buf := buf), Top(st).(size := Bulk(len + 1, elem))))
    case Truncate(keep, next) =>
      if len <= keep then ExecFill(next, elem, capacity, len, st)
      else ExecFill(next, elem, capacity, keep, WithTop(st, Top(st).(size := Bulk(keep, elem))))
    case Aside(body, next) =>
      match Exec(body, |st.live|, st)
      case None => None
      case Some(s) => ExecFill(next, elem, capacity, len, st.(buf := s.buf))
  }

  // ── The heap it stands for: handles with contents of their own, and no addresses ──

  type Heap = seq<seq<byte>>

  function Built1(content: seq<byte>, elem: nat, step: Build): seq<byte> {
    if !step.Pop? then content + step.data
    else if |content| < elem then content
    else content[..|content| - elem]
  }

  function Built(content: seq<byte>, elem: nat, steps: seq<Build>): seq<byte>
    decreases |steps|
  {
    if steps == [] then content else Built(Built1(content, elem, steps[0]), elem, steps[1..])
  }

  function Ideal1(op: Op, base: nat, heap: Heap): Option<Heap>
    decreases op
  {
    match op
    case Alloc(_, data) => Some(heap + [data])
    case Empty(_) => Some(heap + [[]])
    case Span(_, elem, steps) => Some(heap + [Built([], elem, steps)])
    case Write(h, at, data) =>
      if h < |heap| && at + |data| <= |heap[h]| then Some(heap[h := Put(heap[h], at, data)]) else None
    case Scope(body) =>
      (match Ideal(body, |heap|, heap)
       case None => None
       case Some(after) => if |after| < |heap| then None else Some(after[..|heap|]))
    case Reserve(_, elem, capacity, fill, freeze) =>
      (match IdealFill(fill, elem, capacity, 0, heap + [[]])
       case None => None
       case Some(after) => Some(if freeze then after else after[..|heap|]))
    case Compact(body, result) =>
      (match Ideal(body, |heap|, heap)
       case None => None
       case Some(after) =>
         if |heap| <= result < |after| then Some(after[..|heap|] + [after[result]]) else None)
    case Replace2(body, first, second) =>
      (match Ideal(body, |heap|, heap)
       case None => None
       case Some(after) =>
         if base + 2 <= |heap| <= first < |after| && |heap| <= second < |after|
         then Some(after[..|heap| - 2] + [after[first], after[second]]) else None)
    case Uncommit(_, _) => Some(heap)
  }

  function Ideal(run: Run, base: nat, heap: Heap): Option<Heap>
    decreases run
  {
    match run
    case Done => Some(heap)
    case Then(op, rest) =>
      match Ideal1(op, base, heap)
      case None => None
      case Some(after) => Ideal(rest, base, after)
  }

  function IdealFill(fill: Fill, elem: nat, capacity: nat, len: nat, heap: Heap): (r: Option<Heap>)
    requires heap != []
    ensures r.Some? ==> |r.value| == |heap|
    decreases fill
  {
    var top := |heap| - 1;
    match fill
    case Filled => Some(heap)
    case PushItem(item, next) =>
      if len >= capacity then IdealFill(next, elem, capacity, len, heap)
      else IdealFill(next, elem, capacity, len + 1, heap[top := heap[top] + item])
    case Truncate(keep, next) =>
      if len <= keep then IdealFill(next, elem, capacity, len, heap)
      else if Bulk(keep, elem) > |heap[top]| then None
      else IdealFill(next, elem, capacity, keep, heap[top := heap[top][..Bulk(keep, elem)]])
    case Aside(body, next) =>
      match Ideal(body, |heap|, heap)
      case None => None
      case Some(after) =>
        if |after| < |heap| then None else IdealFill(next, elem, capacity, len, after[..|heap|])
  }
}
