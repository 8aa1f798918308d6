/** Fixed-capacity, mutable-length buffers: pushing to a full one drops the value. */
module FixedVec {
  import opened Wrappers
  import opened Retain

  class FVec<T(0)> {
    const slots: array<T>
    var len: nat

    ghost predicate Valid()
      reads this
    {
      len <= slots.Length
    }

    ghost function Items(): seq<T>
      reads this, slots
      requires Valid()
    {
      slots[..len]
    }

    constructor (capacity: nat)
      ensures Valid() && fresh(slots) && slots.Length == capacity
      ensures Items() == []
    {
      slots := new T[capacity];
      len := 0;
    }

    /** False, and nothing stored, when the buffer is full. */
    method Push(x: T) returns (ok: bool)
      requires Valid()
      modifies this, slots
      ensures Valid()
      ensures ok == (|old(Items())| < slots.Length)
      ensures Items() == if ok then old(Items()) + [x] else old(Items())
    {
      if len >= slots.Length {
        return false;
      }
      slots[len] := x;
      len := len + 1;
      return true;
    }

    method Pop() returns (r: Option<T>)
      requires Valid()
      modifies this
      ensures Valid()
      ensures old(Items()) == [] ==> r == None && Items() == []
      ensures old(Items()) != [] ==> r.Some? && old(Items()) == Items() + [r.value]
    {
      if len == 0 {
        return None;
      }
      len := len - 1;
      return Some(slots[len]);
    }

    /** Compact in place around a closure with a state of its own, which may change each element. Only live slots are
        read, moved and disposed of, only vacant ones overwritten, and at the end exactly the elements kept live; so
        each element is kept or disposed of, and once. */
    method RetainInPlace<S>(keep: (S, T) -> (S, T, bool), start: S)
      returns (state: S, gone: seq<T>, ghost live: seq<bool>)
      requires Valid()
      modifies this, slots
      ensures Valid() && Retained(keep, start, old(Items())) == Outcome(state, Items(), gone)
      ensures live == LiveSlots(len, old(len), old(len)) && slots[old(len)..] == old(slots[len..])
    {
      hide Retained, Midway, LiveSlots;
      ghost var xs, was, kept: seq<T> := Items(), slots[..], [];
      var w, r, end := 0, 0, len;
      state, gone, live := start, [], LiveSlots(0, 0, end);
      RetainedNone(keep, start, xs);
      MidwayStart(end, was);
      len := 0;
      while r < end
        invariant w == |kept| && r <= end == |xs| && end <= slots.Length && len == 0 && xs == was[..end]
        invariant Retained(keep, start, xs[..r]) == Outcome(state, kept, gone)
        invariant Midway(kept, live, r, end, slots[..], was)
      {
        RetainedStep(keep, start, xs, r);
        MidwayNext(kept, live, r, end, slots[..], was);
        ghost var now := slots[..];
        assert live[r];
        var (next, x, keeps) := keep(state, slots[r]);
        MidwayKept(kept, live, r, end, now, was, x);
        MidwayGone(kept, live, r, end, now, was, x);
        state := next;
        slots[r] := x;
        if keeps {
          if w != r {
            assert !live[w];
            slots[w] := slots[r];
            live := live[w := true][r := false];
          }
          assert slots[..] == now[r := x][w := x];
          w, kept := w + 1, kept + [x];
        } else {
          gone, live := gone + [slots[r]], live[r := false];
          assert slots[..] == now[r := x];
        }
        r := r + 1;
      }
      MidwayEnd(kept, live, end, slots[..], was);
      assert xs[..end] == xs;
      len := w;
    }

    method Clear()
      modifies this
      ensures Valid() && Items() == []
    {
      len := 0;
    }
  }
}
