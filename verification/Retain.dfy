/**
 What compacting a buffer in place around a stateful closure leaves, for any element type, and the state of
 every slot halfway through.
 */
module Retain {

  /** What the pass leaves: the closure's state, the elements kept and those disposed of, in order. */
  datatype Outcome<S, T> = Outcome(state: S, kept: seq<T>, gone: seq<T>)

  /** The pass over values: the closure may change each element along with its own state. */
  function Retained<S, T>(keep: (S, T) -> (S, T, bool), start: S, xs: seq<T>): (o: Outcome<S, T>)
    ensures |o.kept| + |o.gone| == |xs|
  {
    if xs == [] then Outcome(start, [], [])
    else
      var before := Retained(keep, start, xs[..|xs| - 1]);
      var (state, x, keeps) := keep(before.state, xs[|xs| - 1]);
      if keeps then Outcome(state, before.kept + [x], before.gone) else Outcome(state, before.kept, before.gone + [x])
  }

  lemma RetainedNone<S, T>(keep: (S, T) -> (S, T, bool), start: S, xs: seq<T>)
    ensures Retained(keep, start, xs[..0]) == Outcome(start, [], [])
  {
  }

  lemma RetainedStep<S, T>(keep: (S, T) -> (S, T, bool), start: S, xs: seq<T>, r: nat)
    requires r < |xs|
    ensures var o := Retained(keep, start, xs[..r]);
      var (state, x, keeps) := keep(o.state, xs[r]);
      Retained(keep, start, xs[..r + 1])
        == if keeps then Outcome(state, o.kept + [x], o.gone) else Outcome(state, o.kept, o.gone + [x])
  {
    assert xs[..r + 1][..r] == xs[..r];
  }

  // ── The slots ──

  /** Of the first `end` slots those below `w` and from `r` on hold a value; the others were moved from or disposed
      of. */
  ghost function LiveSlots(w: nat, r: nat, end: nat): (live: seq<bool>)
    ensures |live| == end && forall k | 0 <= k < end :: live[k] == (k < w || r <= k)
  {
    seq(end, k => k < w || r <= k)
  }

  /** The buffer with `r` of its `end` elements handled: those kept at the front, the rest where they were. */
  ghost predicate Midway<T>(kept: seq<T>, live: seq<bool>, r: nat, end: nat, slots: seq<T>, was: seq<T>) {
    && |kept| <= r <= end <= |was| == |slots|
    && slots[..|kept|] == kept && slots[r..] == was[r..] && live == LiveSlots(|kept|, r, end)
  }

  lemma MidwayStart<T>(end: nat, was: seq<T>)
    requires end <= |was|
    ensures Midway([], LiveSlots(0, 0, end), 0, end, was, was)
  {
  }

  /** The next slot holds its element still; the slot to move it to is the same one, or vacant. */
  lemma MidwayNext<T>(kept: seq<T>, live: seq<bool>, r: nat, end: nat, slots: seq<T>, was: seq<T>)
    requires Midway(kept, live, r, end, slots, was) && r < end
    ensures |live| == end <= |slots| && live[r] && slots[r] == was[r]
    ensures |kept| <= r && (|kept| != r ==> !live[|kept|])
  {
    assert slots[r..][0] == was[r..][0];
  }

  lemma MidwayKept<T>(kept: seq<T>, live: seq<bool>, r: nat, end: nat, slots: seq<T>, was: seq<T>, x: T)
    requires Midway(kept, live, r, end, slots, was) && r < end
    ensures var w := |kept|;
      Midway(kept + [x], if w == r then live else live[w := true][r := false], r + 1, end,
             slots[r := x][w := x], was)
  {
    var after := slots[r := x][|kept| := x];
    assert after[r + 1..] == slots[r..][1..] == was[r..][1..] == was[r + 1..];
    assert after[..|kept| + 1] == slots[..|kept|] + [x];
  }

  lemma MidwayGone<T>(kept: seq<T>, live: seq<bool>, r: nat, end: nat, slots: seq<T>, was: seq<T>, x: T)
    requires Midway(kept, live, r, end, slots, was) && r < end
    ensures Midway(kept, live[r := false], r + 1, end, slots[r := x], was)
  {
    var after := slots[r := x];
    assert after[r + 1..] == slots[r..][1..] == was[r..][1..] == was[r + 1..];
  }

  lemma MidwayEnd<T>(kept: seq<T>, live: seq<bool>, end: nat, slots: seq<T>, was: seq<T>)
    requires Midway(kept, live, end, end, slots, was)
    ensures slots[..|kept|] == kept && slots[end..] == was[end..] && live == LiveSlots(|kept|, end, end)
  {
  }

  // ── Conservation ──

  /** The elements as the closure left them. */
  function Updated<S, T>(keep: (S, T) -> (S, T, bool), start: S, xs: seq<T>): seq<T> {
    if xs == [] then []
    else
      var front := xs[..|xs| - 1];
      Updated(keep, start, front) + [keep(Retained(keep, start, front).state, xs[|xs| - 1]).1]
  }

  /** Nothing is lost or doubled: kept and disposed of together are all elements. */
  lemma {:induction false} RetainedConserves<S, T>(keep: (S, T) -> (S, T, bool), start: S, xs: seq<T>)
    ensures var o := Retained(keep, start, xs);
      multiset(o.kept) + multiset(o.gone) == multiset(Updated(keep, start, xs))
  {
    if xs != [] {
      RetainedConserves(keep, start, xs[..|xs| - 1]);
    }
  }
}
