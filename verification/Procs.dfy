/** Process rows, the pid index and the children lists built from them each tick. */
module Procs {
  import opened Wrappers
  import opened Words
  import opened FixedVec
  import opened Sort
  import opened FlatMap
  import opened Nest
  import opened Forest

  /** GPU memory is that of Linux; a macOS cell has none. */
  datatype Gpu = Gpu(smPct: nat, memMib: u32)

  datatype ProcInfo = ProcInfo(pid: nat, ppid: nat, cpu: real, rss: u32, visible: bool, gpu: Option<Gpu>,
                               display: string)

  ghost predicate DistinctPids(procs: seq<ProcInfo>) {
    forall i, j | 0 <= i < j < |procs| :: procs[i].pid != procs[j].pid
  }

  /** Where a pid is tracked. */
  ghost function IndexOf(procs: seq<ProcInfo>, pid: nat): (r: Option<nat>)
    ensures r.Some? ==> r.value < |procs| && procs[r.value].pid == pid
    ensures r.None? ==> forall i | 0 <= i < |procs| :: procs[i].pid != pid
  {
    if exists i :: 0 <= i < |procs| && procs[i].pid == pid then
      var i :| 0 <= i < |procs| && procs[i].pid == pid;
      Some(i)
    else None
  }

  lemma IndexOfPid(procs: seq<ProcInfo>, i: nat)
    requires DistinctPids(procs) && i < |procs|
    ensures IndexOf(procs, procs[i].pid) == Some(i)
  {
  }

  ghost function ParentsOf(procs: seq<ProcInfo>): (par: Parents)
    ensures |par| == |procs| && InRange(par)
  {
    seq(|procs|, i requires 0 <= i < |procs| => IndexOf(procs, procs[i].ppid))
  }

  /** What `build_pid_to_idx` pushes. */
  ghost function PidPairs(procs: seq<ProcInfo>, n: nat): (r: seq<(nat, nat)>)
    requires n <= |procs|
    ensures |r| == n
    ensures forall i | 0 <= i < n :: r[i] == (procs[i].pid, i)
  {
    if n == 0 then [] else PidPairs(procs, n - 1) + [(procs[n - 1].pid, n - 1)]
  }

  function KeepLeft(a: nat, b: nat): nat {
    a
  }

  lemma PidLookup(procs: seq<ProcInfo>, order: seq<(nat, nat)>, pid: nat)
    requires DistinctPids(procs)
    requires Sorted(order, Key) && multiset(order) == multiset(PidPairs(procs, |procs|))
    ensures Lookup(Dedup(order, KeepLeft), pid) == IndexOf(procs, pid)
  {
    var pairs := PidPairs(procs, |procs|);
    var r := IndexOf(procs, pid);
    if r.Some? {
      FrozenDistinct(pairs, order, KeepLeft, r.value);
    } else {
      FrozenAbsent(pairs, order, KeepLeft, pid);
    }
  }

  /** A pid index: a frozen map that answers every pid. */
  ghost predicate Indexes(m: seq<(nat, nat)>, procs: seq<ProcInfo>) {
    StrictKeys(m) && forall pid: nat :: Lookup(m, pid) == IndexOf(procs, pid)
  }

  method PushPids(procs: seq<ProcInfo>) returns (buf: FVec<(nat, nat)>)
    ensures fresh(buf) && fresh(buf.slots) && buf.Valid()
    ensures buf.Items() == PidPairs(procs, |procs|)
  {
    buf := new FVec<(nat, nat)>(|procs|);
    var i := 0;
    while i < |procs|
      invariant 0 <= i <= |procs|
      invariant fresh(buf) && fresh(buf.slots) && buf.Valid() && buf.slots.Length == |procs|
      invariant buf.Items() == PidPairs(procs, i)
    {
      var _ := buf.Push((procs[i].pid, i));
      i := i + 1;
    }
  }

  method BuildPidToIdx(procs: seq<ProcInfo>) returns (m: seq<(nat, nat)>)
    requires DistinctPids(procs)
    ensures Indexes(m, procs)
  {
    var buf := PushPids(procs);
    hide Dedup, PidPairs, Lookup, Sorted;
    FreezeMap(buf, KeepLeft);
    m := buf.slots[..buf.len];
    ghost var order :| multiset(order) == multiset(PidPairs(procs, |procs|)) && Sorted(order, Key)
                       && m == Dedup(order, KeepLeft);
    forall pid: nat ensures Lookup(m, pid) == IndexOf(procs, pid) {
      PidLookup(procs, order, pid);
    }
  }

  /** The edges both builder passes emit. */
  method EmitEdges(procs: seq<ProcInfo>, m: seq<(nat, nat)>) returns (edges: seq<(nat, nat)>)
    requires Indexes(m, procs)
    ensures edges == Edges(ParentsOf(procs), |procs|)
  {
    edges := [];
    var i := 0;
    while i < |procs|
      invariant 0 <= i <= |procs|
      invariant edges == Edges(ParentsOf(procs), i)
    {
      var up := Get(m, procs[i].ppid);
      if up.Some? {
        edges := edges + [(up.value, i)];
      }
      i := i + 1;
    }
  }

  lemma {:induction false} EdgesBelow(par: Parents, n: nat)
    requires InRange(par) && n <= |par|
    ensures TagsBelow<nat>(Edges(par, n), |par|)
  {
    if n > 0 {
      EdgesBelow(par, n - 1);
    }
  }

  /** The children lists of every tracked process. */
  ghost predicate HoldsKids(nest: FNest<nat>, par: Parents) {
    && nest.Valid() && |nest.offsets| == |par| + 1
    && forall p | 0 <= p < |par| :: nest.Bucket(p) == Kids(par, p)
  }

  /** The two passes agree, so the builder never panics here. */
  method BuildChildren(procs: seq<ProcInfo>, m: seq<(nat, nat)>) returns (nest: FNest<nat>)
    requires Indexes(m, procs)
    ensures HoldsKids(nest, ParentsOf(procs))
  {
    var edges := EmitEdges(procs, m);
    EdgesBelow(ParentsOf(procs), |procs|);
    var built;
    ghost var writes;
    built, writes := Build<nat>(|procs|, edges, edges);
    nest := built.value;
  }
}
