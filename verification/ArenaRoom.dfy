/**
 When single operations of the arena do not panic, and where they leave it: a bump that has room succeeds, at the
 first aligned offset.
 */
module ArenaRoom {
  import opened Wrappers
  import opened Words
  import opened ArenaBytes
  import opened ArenaRuns
  import opened ArenaSafety

  // ── One bump ──

  /** `size` bytes fit at `at`: aligned, behind `offset`, inside the 512 KiB. */
  predicate FitsAt(at: nat, offset: nat, size: nat, align: nat) {
    align > 0 && offset <= at && at % align == 0 && at + size <= 512 * 1024
  }

  ghost predicate HasRoom(offset: nat, size: nat, align: nat) {
    align in {1, 2, 4, 8, 16} && exists at: nat :: FitsAt(at, offset, size, align)
  }

  /** A bump succeeds exactly when there is room for it, and takes the first place there is. */
  lemma BumpExactly(offset: nat, size: nat, align: nat)
    ensures var r := BumpAt(offset, size, align);
      && (r.Some? <==> HasRoom(offset, size, align))
      && (r.Some? ==> FitsAt(r.value, offset, size, align) && r.value < offset + align)
      && (r.Some? ==> forall at: nat | FitsAt(at, offset, size, align) :: r.value <= at)
  {
    if IsAlign(align) {
      var up := AlignUp(offset, align);
      AlignUpLeast(offset, offset, align);
      forall at: nat | FitsAt(at, offset, size, align) ensures up <= at {
        AlignUpLeast(offset, at, align);
      }
      hide AlignUp;
      if up + size <= SIZE {
        assert FitsAt(up, offset, size, align);
      }
    }
  }

  // ── Allocations and spans ──

  /** An allocation succeeds exactly when it has room, lies at the first place there is, and the arena ends with it. */
  lemma AllocExactly(st: State, align: nat, data: seq<byte>)
    ensures var r := DoAlloc(st, align, data);
      && (r.Some? <==> HasRoom(st.offset, |data|, align))
      && (r.Some? ==> FirstPlace(st, r.value, |data|, align))
  {
    BumpExactly(st.offset, |data|, align);
    hide BumpAt, HasRoom, FitsAt, Put;
  }

  /** `s` has one handle more than `st`, of `size` bytes, at the first place there is, and ends with it. */
  ghost predicate FirstPlace(st: State, s: State, size: nat, align: nat) {
    && s.live != [] && s.live == st.live + [Top(s)] && Top(s).size == size && Top(s).align == align
    && FitsAt(Top(s).off, st.offset, size, align) && Top(s).off < st.offset + align && s.offset == Top(s).End()
  }

  predicate PushesFit(elem: nat, steps: seq<Build>) {
    forall k | 0 <= k < |steps| && steps[k].Push? :: |steps[k].data| == elem
  }

  /** Elements of one type: their size is a multiple of their alignment, a push is one of them, and what extends the
      span keeps it aligned. */
  predicate Typed(align: nat, elem: nat, steps: seq<Build>) {
    && align in {1, 2, 4, 8, 16} && elem % align == 0
    && (forall k | 0 <= k < |steps| && steps[k].Push? :: |steps[k].data| == elem)
    && forall k | 0 <= k < |steps| && steps[k].Extend? :: |steps[k].data| % align == 0
  }

  lemma TypedSteps(align: nat, elem: nat, steps: seq<Build>)
    requires Typed(align, elem, steps)
    ensures WellSized(align, elem, steps) && PushesFit(elem, steps)
  {
  }

  /** At no point do the bytes pushed so far, less those popped, pass the end of the arena. */
  ghost predicate StaysInside(start: nat, content: seq<byte>, elem: nat, steps: seq<Build>) {
    forall k | 0 <= k <= |steps| :: start + |Built(content, elem, steps[..k])| <= SIZE
  }

  lemma BuildOne(st: State, cur: State, content: seq<byte>, elem: nat, step: Build)
    requires Building(st, cur, content) && Aligned(elem, Top(cur).align)
    requires (step.Extend? ==> Aligned(|step.data|, Top(cur).align)) && (step.Push? ==> |step.data| == elem)
    ensures DoBuild(cur, elem, step).Some? <==> Top(cur).off + |Built1(content, elem, step)| <= SIZE
  {
    hide Multiple, AlignUp, Put;
    AlignUpMonotone(cur.offset, cur.offset, Top(cur).align);
  }

  lemma BuiltNext(content: seq<byte>, elem: nat, steps: seq<Build>, k: nat)
    requires 0 < k <= |steps|
    ensures Built(content, elem, steps[..k]) == Built(Built1(content, elem, steps[0]), elem, steps[1..][..k - 1])
  {
    assert steps[..k][0] == steps[0] && steps[..k][1..] == steps[1..][..k - 1];
    hide Built1;
  }

  lemma InsideNext(start: nat, content: seq<byte>, elem: nat, steps: seq<Build>)
    requires steps != []
    ensures StaysInside(start, content, elem, steps) <==>
      start + |content| <= SIZE && StaysInside(start, Built1(content, elem, steps[0]), elem, steps[1..])
  {
    hide Built1;
    var next := Built1(content, elem, steps[0]);
    forall k | 0 < k <= |steps| ensures Built(content, elem, steps[..k]) == Built(next, elem, steps[1..][..k - 1]) {
      BuiltNext(content, elem, steps, k);
    }
    assert Built(content, elem, steps[..0]) == content;
    hide Built;
    if start + |content| <= SIZE && StaysInside(start, next, elem, steps[1..]) {
      forall k | 0 <= k <= |steps| ensures start + |Built(content, elem, steps[..k])| <= SIZE {
        if k > 0 {
          assert start + |Built(next, elem, steps[1..][..k - 1])| <= SIZE;
        }
      }
    }
    if StaysInside(start, content, elem, steps) {
      forall k | 0 <= k <= |steps[1..]| ensures start + |Built(next, elem, steps[1..][..k])| <= SIZE {
        assert start + |Built(content, elem, steps[..k + 1])| <= SIZE;
        BuiltNext(content, elem, steps, k + 1);
      }
    }
  }

  lemma {:induction false} BuildsExactly(st: State, cur: State, content: seq<byte>, elem: nat, steps: seq<Build>)
    requires cur.live != [] && Building(st, cur, content)
    requires WellSized(Top(cur).align, elem, steps) && PushesFit(elem, steps)
    ensures DoBuilds(cur, elem, steps).Some? <==> StaysInside(Top(cur).off, content, elem, steps)
    decreases |steps|
  {
    hide DoBuild, Aligned, Built1, Built;
    if steps == [] {
      NothingBuilt(st, cur, content, elem);
    } else {
      hide StaysInside;
      InsideNext(Top(cur).off, content, elem, steps);
      BuildInside(st, cur, content);
      BuildOne(st, cur, content, elem, steps[0]);
      if DoBuild(cur, elem, steps[0]).Some? {
        hide Building;
        BuildStep(st, cur, content, elem, steps[0]);
        var s := DoBuild(cur, elem, steps[0]).value;
        StepStays(cur, elem, steps[0]);
        BuildsExactly(st, s, Built1(content, elem, steps[0]), elem, steps[1..]);
      } else {
        OutsideNow(Top(cur).off, Built1(content, elem, steps[0]), elem, steps[1..]);
      }
    }
  }

  lemma BuildInside(st: State, cur: State, content: seq<byte>)
    requires cur.live != [] && Building(st, cur, content)
    ensures Top(cur).off + |content| <= SIZE
  {
  }

  lemma NothingBuilt(st: State, cur: State, content: seq<byte>, elem: nat)
    requires cur.live != [] && Building(st, cur, content)
    ensures StaysInside(Top(cur).off, content, elem, [])
  {
    var none: seq<Build> := [];
    assert none[..0] == none;
  }

  lemma OutsideNow(start: nat, content: seq<byte>, elem: nat, steps: seq<Build>)
    requires start + |content| > SIZE
    ensures !StaysInside(start, content, elem, steps)
  {
    assert Built(content, elem, steps[..0]) == content;
  }

  lemma StepStays(cur: State, elem: nat, step: Build)
    requires cur.live != [] && DoBuild(cur, elem, step).Some?
    ensures var s := DoBuild(cur, elem, step).value;
      s.live != [] && Top(s).off == Top(cur).off && Top(s).align == Top(cur).align
  {
    hide Put, BumpAt;
  }

  /** A span of elements of one type succeeds exactly when it never passes the end of the arena on the way. */
  lemma SpanExactly(st: State, align: nat, elem: nat, steps: seq<Build>)
    requires Inv(st) && Typed(align, elem, steps)
    ensures DoSpan(st, align, elem, steps).Some? <==> StaysInside(AlignUp(st.offset, align), [], elem, steps)
  {
    TypedSteps(align, elem, steps);
    hide Inv, AlignUp, DoBuilds, StaysInside, Aligned;
    var start := AlignUp(st.offset, align);
    BuildBegins(st, align);
    BuildsExactly(st, State(start, st.buf, st.live + [Block(start, 0, align)]), [], elem, steps);
    hide Building;
  }
}
