/**
 The arena itself: one byte buffer and one bump offset, changed in place by every operation. Its interpreter
 of runs does exactly what the machine over values does.
 */
module ArenaStore {
  import opened Wrappers
  import opened Words
  import opened ArenaBytes
  import opened ForwardCopy
  import opened ArenaRoom
  import opened ArenaRuns

  class Arena {
    const buf: array<byte>
    var offset: nat

    ghost predicate Valid() {
      buf.Length == SIZE
    }

    /** The arena with the handles the program holds. */
    ghost function At(live: seq<Block>): State
      requires Valid()
      reads this, buf
    {
      State(offset, buf[..], live)
    }

    /** An operation came out as the machine says: the same panic, or the same state. */
    ghost predicate Became(out: Option<seq<Block>>, expected: Option<State>)
      requires Valid()
      reads this, buf
    {
      out.Some? == expected.Some? && (out.Some? ==> At(out.value) == expected.value)
    }

    constructor ()
      ensures Valid() && fresh(buf) && offset == 0
    {
      buf := new byte[SIZE](_ => 0);
      offset := 0;
    }

    method Bump(size: nat, align: nat) returns (at: Option<nat>)
      modifies this`offset
      ensures at == BumpAt(old(offset), size, align)
      ensures at.Some? <==> HasRoom(old(offset), size, align)
      ensures at.Some? ==> FitsAt(at.value, old(offset), size, align) && at.value < old(offset) + align
      ensures offset == if at.Some? then at.value + size else old(offset)
    {
      hide AlignUp, HasRoom, FitsAt;
      BumpExactly(offset, size, align);
      if !IsAlign(align) || size > SIZE {
        return None;
      }
      var aligned := AlignUp(offset, align);
      var end := aligned + size;
      if end > SIZE {
        return None;
      }
      offset := end;
      return Some(aligned);
    }

    method Write(at: nat, data: seq<byte>)
      requires Valid() && at + |data| <= SIZE
      modifies buf
      ensures buf[..] == Put(old(buf[..]), at, data)
    {
      forall k | 0 <= k < |data| {
        buf[at + k] := data[k];
      }
    }

    /** The forward byte loop, which is a move whenever it copies down, overlap or not. */
    method CopyDown(src: nat, dst: nat, len: nat)
      requires Valid() && src + len <= SIZE && dst + len <= SIZE
      modifies buf
      ensures buf[..] == Forward(old(buf[..]), src, dst, len)
      ensures dst <= src ==> buf[..] == Move(old(buf[..]), src, dst, len)
    {
      hide Move;
      ghost var was := buf[..];
      var i := 0;
      while i < len
        invariant i <= len && buf[..] == Forward(was, src, dst, i)
      {
        var b := buf[src + i];
        buf[dst + i] := b;
        i := i + 1;
      }
      if dst <= src {
        ForwardDown(was, src, dst, len);
      }
    }

    method SlideDown(b: Block, dst: nat)
      requires Valid() && b.End() <= SIZE && dst + b.size <= SIZE && (b.size > 0 ==> dst <= b.off)
      modifies buf
      ensures buf[..] == Slide(old(buf[..]), b, dst)
    {
      hide Move, Forward;
      if b.off != dst && b.size > 0 {
        CopyDown(b.off, dst, b.size);
      }
    }

    // ── Single operations; each gives back the handles the program now holds ──

    method Alloc(align: nat, data: seq<byte>, live: seq<Block>) returns (out: Option<seq<Block>>)
      requires Valid()
      modifies this`offset, buf
      ensures Became(out, DoAlloc(old(At(live)), align, data))
    {
      hide Put, AlignUp;
      var at := Bump(|data|, align);
      if at.None? {
        return None;
      }
      BumpedFits(old(offset), |data|, align);
      Write(at.value, data);
      return Some(live + [Block(at.value, |data|, align)]);
    }

    /** A builder grows the top handle; each push bumps the arena. */
    method Build(elem: nat, steps: seq<Build>, live: seq<Block>) returns (out: Option<seq<Block>>)
      requires Valid() && live != []
      modifies this`offset, buf
      ensures Became(out, DoBuilds(old(At(live)), elem, steps))
    {
      hide DoBuild;
      var held, k := live, 0;
      while k < |steps|
        invariant k <= |steps| && held != []
        invariant DoBuilds(At(held), elem, steps[k..]) == DoBuilds(old(At(live)), elem, steps)
      {
        assert steps[k..][0] == steps[k] && steps[k..][1..] == steps[k + 1..];
        var next := Build1(elem, steps[k], held);
        if next.None? {
          return None;
        }
        held, k := next.value, k + 1;
      }
      return Some(held);
    }

    method Build1(elem: nat, step: Build, live: seq<Block>) returns (out: Option<seq<Block>>)
      requires Valid() && live != []
      modifies this`offset, buf
      ensures Became(out, DoBuild(old(At(live)), elem, step))
      ensures out.Some? ==> |out.value| == |live|
    {
      hide Put, AlignUp;
      var rest, top := live[..|live| - 1], live[|live| - 1];
      if step.Pop? {
        if top.size < elem {
          return Some(live);
        }
        if offset < elem {
          return None;
        }
        offset := offset - elem;
        return Some(rest + [top.(size := top.size - elem)]);
      }
      if step.Push? && |step.data| != elem {
        return None;
      }
      var at := Bump(|step.data|, top.align);
      if at.None? {
        return None;
      }
      BumpedFits(old(offset), |step.data|, top.align);
      Write(at.value, step.data);
      return Some(rest + [top.(size := top.size + |step.data|)]);
    }

    /** The end of `compact`: slide the result to where the arena was, and reclaim all above it. */
    method FinishCompact(start: nat, live: seq<Block>, held: seq<Block>, result: nat, ghost entry: State)
      returns (out: Option<seq<Block>>)
      requires Valid() && entry.offset == start && entry.live == live
      modifies this`offset, buf
      ensures Became(out, DoCompact(entry, old(At(held)), result))
    {
      hide Slide, AlignUp;
      if result < |live| || result >= |held| || !IsAlign(held[result].align) || held[result].End() > SIZE {
        return None;
      }
      var b := held[result];
      var dst := AlignUp(start, b.align);
      if b.off < dst {
        return None;
      }
      SlideDown(b, dst);
      offset := dst + b.size;
      return Some(live + [Block(dst, b.size, b.align)]);
    }

    /** The end of `replace2`: the two memory moves and the new bump offset. */
    method FinishRotate(live: seq<Block>, held: seq<Block>, first: nat, second: nat, ghost entry: State)
      returns (out: Option<seq<Block>>)
      requires Valid() && entry.live == live && CanRotate(entry, 0)
      modifies this`offset, buf
      ensures Became(out, DoRotate(entry, old(At(held)), first, second))
    {
      hide Slide, AlignUp;
      var n := |live|;
      if !(n <= first < |held| && n <= second < |held| && first != second) {
        return None;
      }
      var off1, new1, new2 := live[n - 2].off, held[first], held[second];
      if !RotateFits(live[n - 2], live[n - 1], new1, new2) {
        return None;
      }
      SlideDown(new1, off1);
      var slot2 := AlignUp(off1 + new1.size, new2.align);
      SlideDown(new2, slot2);
      offset := slot2 + new2.size;
      return Some(live[..n - 2] + [Block(off1, new1.size, new1.align), Block(slot2, new2.size, new2.align)]);
    }

    /** Whole pages above the bump offset go back to the kernel, and read as zero. */
    method UncommitTail(base: nat, page: nat, live: seq<Block>) returns (out: Option<seq<Block>>)
      requires Valid()
      modifies buf
      ensures Became(out, DoUncommit(old(At(live)), base, page))
    {
      hide Put, RoundDown;
      if page == 0 {
        return Some(live);
      }
      if offset > SIZE {
        return None;
      }
      var (start, len) := Tail(base, offset, page);
      if len > 0 {
        if start < base || start - base + len > SIZE {
          return None;
        }
        Write(start - base, seq(len, _ => 0));
      }
      return Some(live);
    }

    method WriteThrough(h: nat, at: nat, data: seq<byte>, live: seq<Block>) returns (out: Option<seq<Block>>)
      requires Valid()
      modifies buf
      ensures Became(out, DoWrite(old(At(live)), h, at, data))
    {
      hide Put;
      if h < |live| && at + |data| <= live[h].size && live[h].End() <= SIZE {
        Write(live[h].off + at, data);
        return Some(live);
      }
      return None;
    }

    method Span(align: nat, elem: nat, steps: seq<Build>, live: seq<Block>) returns (out: Option<seq<Block>>)
      requires Valid()
      modifies this`offset, buf
      ensures Became(out, DoSpan(old(At(live)), align, elem, steps))
    {
      hide DoBuilds, AlignUp;
      if !WellSized(align, elem, steps) {
        return None;
      }
      offset := AlignUp(offset, align);
      out := Build(elem, steps, live + [Block(offset, 0, align)]);
    }

    // ── Runs ──

    method Perform(run: Run, base: nat, live: seq<Block>) returns (out: Option<seq<Block>>)
      requires Valid()
      modifies this`offset, buf
      ensures Became(out, Exec(run, base, old(At(live))))
      decreases run
    {
      hide Exec1;
      if run.Done? {
        return Some(live);
      }
      out := Perform1(run.op, base, live);
      if out.Some? {
        out := Perform(run.rest, base, out.value);
      }
    }

    /** One operation in a frame whose own handles start at `base`. A nested run recurses, and what it leaves
        behind is reclaimed by putting the bump offset back. */
    method Perform1(op: Op, base: nat, live: seq<Block>) returns (out: Option<seq<Block>>)
      requires Valid()
      modifies this`offset, buf
      ensures Became(out, Exec1(op, base, old(At(live))))
      decreases op
    {
      hide DoAlloc, DoSpan, DoWrite, DoCompact, DoRotate, DoUncommit, AlignUp, Exec, ExecFill, CanRotate, BumpAt;
      match op {
        case Alloc(align, data) =>
          out := Alloc(align, data, live);
        case Empty(align) =>
          out := if IsAlign(align) then Some(live + [Block(AlignUp(offset, align), 0, align)]) else None;
        case Span(align, elem, steps) =>
          out := Span(align, elem, steps, live);
        case Write(h, at, data) =>
          out := WriteThrough(h, at, data, live);
        case Uncommit(address, page) =>
          out := UncommitTail(address, page, live);
        case Reserve(align, elem, capacity, fill, freeze) =>
          out := PerformReserve(align, elem, capacity, fill, freeze, base, live);
        case _ =>
          out := PerformNested(op, base, live);
      }
    }

    method PerformNested(op: Op, base: nat, live: seq<Block>) returns (out: Option<seq<Block>>)
      requires Valid() && (op.Scope? || op.Compact? || op.Replace2?)
      modifies this`offset, buf
      ensures Became(out, Exec1(op, base, old(At(live))))
      decreases op, 0
    {
      hide DoCompact, DoRotate, Exec;
      var start := offset;
      ghost var entry := At(live);
      if op.Replace2? && !CanRotate(State(offset, buf[..], live), base) {
        return None;
      }
      var held := Perform(op.body, |live|, live);
      if held.None? {
        return None;
      }
      if op.Scope? {
        offset := start;
        out := Some(live);
      } else if op.Compact? {
        out := FinishCompact(start, live, held.value, op.result, entry);
      } else {
        out := FinishRotate(live, held.value, op.first, op.second, entry);
      }
    }

    method PerformReserve(align: nat, elem: nat, capacity: nat, fill: Fill, freeze: bool, ghost base: nat,
        live: seq<Block>)
      returns (out: Option<seq<Block>>)
      requires Valid()
      modifies this`offset, buf
      ensures Became(out, Exec1(Op.Reserve(align, elem, capacity, fill, freeze), base, old(At(live))))
      decreases fill, 1
    {
      hide ExecFill, AlignUp, Aligned, Bulk;
      if !IsAlign(align) || !Aligned(elem, align) {
        return None;
      }
      var at := Bump(Bulk(capacity, elem), align);
      if at.None? {
        return None;
      }
      var held := PerformFill(fill, elem, capacity, 0, live + [Block(at.value, 0, align)]);
      if held.None? {
        return None;
      }
      var top := held.value[|held.value| - 1];
      if freeze {
        offset := top.End();
        out := Some(live + [top]);
      } else {
        offset := at.value;
        out := Some(live);
      }
    }

    /** Pushes into the reserved room; a push past its capacity is handed back and changes nothing. */
    method PerformFill(fill: Fill, elem: nat, capacity: nat, len: nat, live: seq<Block>)
      returns (out: Option<seq<Block>>)
      requires Valid() && live != []
      modifies this`offset, buf
      ensures Became(out, ExecFill(fill, elem, capacity, len, old(At(live))))
      ensures out.Some? ==> |out.value| == |live|
      decreases fill, 0
    {
      hide Put, Bulk, Exec;
      var rest, top := live[..|live| - 1], live[|live| - 1];
      match fill {
        case Filled =>
          out := Some(live);
        case PushItem(item, next) =>
          if len >= capacity {
            out := PerformFill(next, elem, capacity, len, live);
          } else {
            if |item| != elem || top.off + Bulk(len, elem) + elem > SIZE {
              return None;
            }
            Write(top.off + Bulk(len, elem), item);
            out := PerformFill(next, elem, capacity, len + 1, rest + [top.(size := Bulk(len + 1, elem))]);
          }
        case Truncate(keep, next) =>
          if len <= keep {
            out := PerformFill(next, elem, capacity, len, live);
          } else {
            out := PerformFill(next, elem, capacity, keep, rest + [top.(size := Bulk(keep, elem))]);
          }
        case Aside(body, next) =>
          var start := offset;
          var held := Perform(body, |live|, live);
          if held.None? {
            return None;
          }
          offset := start;
          out := PerformFill(next, elem, capacity, len, live);
      }
    }
  }

  lemma BumpedFits(offset: nat, size: nat, align: nat)
    ensures var r := BumpAt(offset, size, align); r.Some? ==> r.value + size <= SIZE
  {
  }
}
