/** Which ancestor a helper process folds into: a walk up the ppid chain of at most 64 hops. */
module Roots {
  import opened Wrappers
  import opened Forest
  import opened Loops

  function Lower(c: char): char {
    if 'A' <= c <= 'Z' then ((c as int) + 32) as char else c
  }

  /** ASCII case-insensitive equality. */
  predicate Ieq(a: string, b: string) {
    |a| == |b| && forall i | 0 <= i < |a| :: Lower(a[i]) == Lower(b[i])
  }

  predicate IsHelperOf(kid: string, root: string) {
    var n := |root|;
    |kid| >= n + 7 && kid[..n] == root && kid[n..n + 7] == " Helper"
  }

  predicate EndsWith(s: string, suffix: string) {
    |s| >= |suffix| && s[|s| - |suffix|..] == suffix
  }

  predicate IsShardName(name: string) {
    EndsWith(name, " (Renderer)") || EndsWith(name, " (Service)")
  }

  /** A process named `name` folds into an ancestor named `pname`: any shard does, and others by name. */
  predicate Folds(mac: bool, name: string, pname: string) {
    IsShardName(name) || FoldsByName(mac, name, pname)
  }

  predicate FoldsByName(mac: bool, name: string, pname: string) {
    || IsHelperOf(name, pname)
    || (mac && Ieq(pname, "launchd_sim"))
    || (Ieq(pname, "lake serve") && Ieq(name, "lean --server"))
    || (Ieq(pname, "lean-mcp") && Ieq(name, "lake serve"))
  }

  const HOPS: nat := 64

  // ── Which names match ──

  /** Shards are the names with one of the two suffixes. */
  lemma ShardNames(product: string)
    ensures IsShardName(product + " (Renderer)") && IsShardName(product + " (Service)")
  {
    var a, b := product + " (Renderer)", product + " (Service)";
    assert a[|product|..] == " (Renderer)" && b[|product|..] == " (Service)";
  }

  lemma OnlyShardNames(name: string) returns (product: string)
    requires IsShardName(name)
    ensures name == product + " (Renderer)" || name == product + " (Service)"
  {
    product := if EndsWith(name, " (Renderer)") then name[..|name| - 11] else name[..|name| - 10];
  }

  /** A helper of an app is named after it, letter by letter, whatever comes behind. */
  lemma HelperNames(app: string, rest: string)
    ensures IsHelperOf(app + " Helper" + rest, app) && !IsHelperOf(app, app)
  {
    var kid := app + " Helper" + rest;
    assert kid[..|app|] == app && kid[|app|..|app| + 7] == " Helper";
  }

  lemma OnlyHelperNames(kid: string, app: string) returns (rest: string)
    requires IsHelperOf(kid, app)
    ensures kid == app + " Helper" + rest
  {
    rest := kid[|app| + 7..];
  }

  /** The same letter, in either case. */
  predicate SameLetter(c: char, d: char) {
    c == d || ('A' <= c <= 'Z' && d as int == c as int + 32) || ('A' <= d <= 'Z' && c as int == d as int + 32)
  }

  lemma IeqExactly(a: string, b: string)
    ensures Ieq(a, b) <==> |a| == |b| && forall i | 0 <= i < |a| :: SameLetter(a[i], b[i])
  {
  }

  /** The pairs that match whatever their other names: under a simulator on macOS, and up the Lean server's chain. */
  lemma NamedPairs(name: string)
    ensures Folds(true, name, "launchd_sim") && Folds(true, name, "LAUNCHD_SIM")
    ensures Folds(false, "lean --server", "lake serve") && Folds(false, "lake serve", "lean-mcp")
    ensures Folds(false, name, "launchd_sim") <==> IsShardName(name) || IsHelperOf(name, "launchd_sim")
    ensures Folds(false, name, "lake serve")
        <==> IsShardName(name) || IsHelperOf(name, "lake serve") || Ieq(name, "lean --server")
    ensures Folds(false, name, "lean-mcp")
        <==> IsShardName(name) || IsHelperOf(name, "lean-mcp") || Ieq(name, "lake serve")
  {
    hide IsShardName, IsHelperOf;
  }

  /** All others match by shard name or as helpers only. */
  lemma OtherParents(mac: bool, name: string, pname: string)
    requires !Ieq(pname, "launchd_sim") && !Ieq(pname, "lake serve") && !Ieq(pname, "lean-mcp")
    ensures Folds(mac, name, pname) <==> IsShardName(name) || IsHelperOf(name, pname)
  {
    hide IsShardName, IsHelperOf, Ieq;
  }

  // ── The walk ──

  /** Walk up from `at` with `hops` to go; each match moves the target up and takes its name. */
  ghost function Walk(mac: bool, names: seq<string>, par: Parents, at: nat, hops: nat, name: string,
      root: Option<nat>): Option<nat>
    requires InRange(par) && |names| == |par| && at < |par|
    decreases hops
  {
    if hops == 0 || par[at].None? then root
    else
      var up := par[at].value;
      if Folds(mac, name, names[up]) then Walk(mac, names, par, up, hops - 1, names[up], Some(up))
      else Walk(mac, names, par, up, hops - 1, name, root)
  }

  ghost function RootOf(mac: bool, names: seq<string>, par: Parents, i: nat): Option<nat>
    requires InRange(par) && |names| == |par| && i < |par|
  {
    Walk(mac, names, par, i, HOPS, names[i], None)
  }

  lemma {:induction false} WalkInside(mac: bool, names: seq<string>, par: Parents, at: nat, hops: nat, name: string,
      root: Option<nat>)
    requires InRange(par) && |names| == |par| && at < |par|
    requires root.Some? ==> root.value < |par|
    ensures var r := Walk(mac, names, par, at, hops, name, root); r.Some? ==> r.value < |par|
    decreases hops
  {
    hide Folds;
    if hops > 0 && par[at].Some? {
      var up := par[at].value;
      if Folds(mac, name, names[up]) {
        WalkInside(mac, names, par, up, hops - 1, names[up], Some(up));
      } else {
        WalkInside(mac, names, par, up, hops - 1, name, root);
      }
    }
  }

  /** A target found so far only matters when nothing further up matches. */
  lemma {:induction false} WalkCarry(mac: bool, names: seq<string>, par: Parents, at: nat, hops: nat, name: string,
      root: Option<nat>)
    requires InRange(par) && |names| == |par| && at < |par|
    ensures var bare := Walk(mac, names, par, at, hops, name, None);
      Walk(mac, names, par, at, hops, name, root) == if bare.None? then root else bare
    decreases hops
  {
    hide Folds;
    if hops > 0 && par[at].Some? {
      var up := par[at].value;
      if Folds(mac, name, names[up]) {
        WalkCarry(mac, names, par, up, hops - 1, names[up], Some(up));
      } else {
        WalkCarry(mac, names, par, up, hops - 1, name, root);
      }
    }
  }

  /** No row more than `lo` and at most `hi` hops up from `at` matches `name`. */
  ghost predicate NoMatch(mac: bool, names: seq<string>, par: Parents, at: nat, lo: nat, hi: nat, name: string)
    requires |names| == |par|
  {
    forall k: nat, a: nat | lo < k <= hi && Reaches(par, at, k, a) :: a < |par| && !Folds(mac, name, names[a])
  }

  lemma {:induction false} WalkNone(mac: bool, names: seq<string>, par: Parents, at: nat, h: nat, name: string)
    requires InRange(par) && |names| == |par| && at < |par|
    ensures Walk(mac, names, par, at, h, name, None) == None <==> NoMatch(mac, names, par, at, 0, h, name)
    decreases h
  {
    hide Folds;
    if h == 0 || par[at].None? {
      return;
    }
    var up := par[at].value;
    assert Reaches(par, up, 0, up) && Reaches(par, at, 1, up);
    if Folds(mac, name, names[up]) {
      WalkCarry(mac, names, par, up, h - 1, names[up], Some(up));
    } else {
      WalkNone(mac, names, par, up, h - 1, name);
      NoMatchUp(mac, names, par, at, h, name);
    }
  }

  lemma NoMatchUp(mac: bool, names: seq<string>, par: Parents, at: nat, h: nat, name: string)
    requires InRange(par) && |names| == |par| && at < |par| && h > 0 && par[at].Some?
    requires !Folds(mac, name, names[par[at].value])
    ensures NoMatch(mac, names, par, at, 0, h, name) <==> NoMatch(mac, names, par, par[at].value, 0, h - 1, name)
  {
    hide Folds;
    var up := par[at].value;
    if NoMatch(mac, names, par, at, 0, h, name) {
      forall k: nat, a: nat | 0 < k <= h - 1 && Reaches(par, up, k, a)
        ensures a < |par| && !Folds(mac, name, names[a])
      {
        assert Reaches(par, at, k + 1, a);
      }
    }
    if NoMatch(mac, names, par, up, 0, h - 1, name) {
      forall k: nat, a: nat | 0 < k <= h && Reaches(par, at, k, a) ensures a < |par| && !Folds(mac, name, names[a]) {
        assert Reaches(par, up, k - 1, a);
      }
    }
  }

  /** A target lies on the chain, and the hops the walk still had above it matched nothing more. */
  lemma {:induction false} WalkLast(mac: bool, names: seq<string>, par: Parents, at: nat, h: nat, name: string)
    returns (k: nat)
    requires InRange(par) && |names| == |par| && at < |par|
    requires Walk(mac, names, par, at, h, name, None).Some?
    ensures var r := Walk(mac, names, par, at, h, name, None).value;
      && 0 < k <= h && r < |par| && Reaches(par, at, k, r)
      && Walk(mac, names, par, r, h - k, names[r], None) == None
    decreases h
  {
    hide Folds;
    var up := par[at].value;
    if Folds(mac, name, names[up]) {
      WalkCarry(mac, names, par, up, h - 1, names[up], Some(up));
      if Walk(mac, names, par, up, h - 1, names[up], None).None? {
        assert Reaches(par, up, 0, up);
        k := 1;
        return;
      }
      k := WalkLast(mac, names, par, up, h - 1, names[up]);
    } else {
      k := WalkLast(mac, names, par, up, h - 1, name);
    }
    k := k + 1;
  }

  /** On every ppid graph: the target lies `h` hops up, at most 64, and it is itself unfolded exactly when none of
      the `h` rows past the cap, 65 to 64 + h hops up, matches the target's name. */
  lemma TargetStandsExactly(mac: bool, names: seq<string>, par: Parents, i: nat) returns (h: nat)
    requires InRange(par) && |names| == |par| && i < |par| && RootOf(mac, names, par, i).Some?
    ensures var r := RootOf(mac, names, par, i).value;
      && 0 < h <= 64 && r < |par| && Reaches(par, i, h, r)
      && (RootOf(mac, names, par, r) == None <==> NoMatch(mac, names, par, i, 64, 64 + h, names[r]))
  {
    hide Folds, NoMatch, Walk, Reaches;
    h := WalkLast(mac, names, par, i, HOPS, names[i]);
    var r := RootOf(mac, names, par, i).value;
    WalkNone(mac, names, par, r, HOPS - h, names[r]);
    WalkNone(mac, names, par, r, HOPS, names[r]);
    PastCap(mac, names, par, i, r, h);
  }

  /** Rows up the chain from the target are rows up the chain from where the walk began, `h` hops further. */
  lemma PastCap(mac: bool, names: seq<string>, par: Parents, i: nat, r: nat, h: nat)
    requires |names| == |par| && h <= HOPS && r < |par| && Reaches(par, i, h, r)
    requires NoMatch(mac, names, par, r, 0, HOPS - h, names[r])
    ensures NoMatch(mac, names, par, r, 0, HOPS, names[r]) <==> NoMatch(mac, names, par, i, HOPS, HOPS + h, names[r])
  {
    hide Folds, Reaches;
    if NoMatch(mac, names, par, i, HOPS, HOPS + h, names[r]) {
      forall k: nat, a: nat | 0 < k <= HOPS && Reaches(par, r, k, a)
        ensures a < |par| && !Folds(mac, names[r], names[a])
      {
        ReachesOn(par, i, h, r, k, a);
      }
    }
    if NoMatch(mac, names, par, r, 0, HOPS, names[r]) {
      forall k: nat, a: nat | HOPS < k <= HOPS + h && Reaches(par, i, k, a)
        ensures a < |par| && !Folds(mac, names[r], names[a])
      {
        ReachesRest(par, i, h, r, k - h, a);
      }
    }
  }

  /** A process stays where it is exactly when none of the first 64 rows up its chain matches its name. */
  lemma StaysExactly(mac: bool, names: seq<string>, par: Parents, i: nat)
    requires InRange(par) && |names| == |par| && i < |par|
    ensures RootOf(mac, names, par, i) == None <==> NoMatch(mac, names, par, i, 0, 64, names[i])
  {
    WalkNone(mac, names, par, i, 64, names[i]);
    hide Walk, NoMatch;
  }

  /** On chains of at most 64 hops there is nothing past the cap: the target is a proper ancestor that is itself
      never folded. */
  lemma RootIsOutermost(mac: bool, names: seq<string>, par: Parents, i: nat)
    requires InRange(par) && |names| == |par| && Rooted(par, i) && Level(par, i) <= 64
    requires RootOf(mac, names, par, i).Some?
    ensures var r := RootOf(mac, names, par, i).value;
      && r < |par| && Rooted(par, r) && Level(par, r) < Level(par, i)
      && RootOf(mac, names, par, r) == None
  {
    hide Folds;
    var h := TargetStandsExactly(mac, names, par, i);
    ReachesLevel(par, i, h, RootOf(mac, names, par, i).value);
    forall k: nat, a: nat | Reaches(par, i, k, a) ensures k <= HOPS {
      ReachesLevel(par, i, k, a);
    }
  }

  // ── A row that is its own parent ──

  /** It folds, and into itself, exactly when it is named as a shard or, on macOS, as a simulator. */
  lemma OwnParentFolds(mac: bool, names: seq<string>, par: Parents, i: nat)
    requires InRange(par) && |names| == |par| && i < |par| && par[i] == Some(i)
    ensures RootOf(mac, names, par, i)
         == if IsShardName(names[i]) || (mac && Ieq(names[i], "launchd_sim")) then Some(i) else None
  {
    FoldsIntoItself(mac, names[i]);
    OwnParentWalk(mac, names, par, i, HOPS, None);
    hide Folds, IsShardName, Ieq;
  }

  lemma FoldsIntoItself(mac: bool, name: string)
    ensures Folds(mac, name, name) <==> IsShardName(name) || (mac && Ieq(name, "launchd_sim"))
  {
    hide IsShardName;
  }

  lemma {:induction false} OwnParentWalk(mac: bool, names: seq<string>, par: Parents, i: nat, h: nat, root: Option<nat>)
    requires InRange(par) && |names| == |par| && i < |par| && par[i] == Some(i)
    ensures Walk(mac, names, par, i, h, names[i], root)
         == if h > 0 && Folds(mac, names[i], names[i]) then Some(i) else root
    decreases h
  {
    hide Folds;
    if h > 0 {
      OwnParentWalk(mac, names, par, i, h - 1, if Folds(mac, names[i], names[i]) then Some(i) else root);
    }
  }

  // ── Past the hop cap ──

  /** A single chain 0 <- 1 <- ... <- n of shards. */
  ghost predicate ShardChain(names: seq<string>, par: Parents) {
    && |names| == |par| && InRange(par)
    && (forall i | 0 <= i < |par| :: par[i] == if i == 0 then None else Some(i - 1))
    && forall i | 0 <= i < |par| :: IsShardName(names[i])
  }

  lemma {:induction false} ShardWalk(mac: bool, names: seq<string>, par: Parents, at: nat, hops: nat, root: Option<nat>)
    requires ShardChain(names, par) && at < |par|
    ensures Walk(mac, names, par, at, hops, names[at], root)
         == if hops == 0 || at == 0 then root else if hops <= at then Some(at - hops) else Some(0)
    decreases hops
  {
    hide FoldsByName, IsShardName;
    if hops > 0 && at > 0 {
      ShardWalk(mac, names, par, at - 1, hops - 1, Some(at - 1));
    }
  }

  /** The cap is what decides: on a chain of shards, a process's target stays unfolded exactly when
      the chain is at most 64 hops long. */
  lemma ShardChainExact(mac: bool, names: seq<string>, par: Parents, i: nat)
    requires ShardChain(names, par) && 0 < i < |par|
    ensures RootOf(mac, names, par, i).Some? && RootOf(mac, names, par, i).value < |par|
    ensures RootOf(mac, names, par, RootOf(mac, names, par, i).value) == None <==> i <= 64
  {
    ShardWalk(mac, names, par, i, HOPS, None);
    var r := RootOf(mac, names, par, i).value;
    ShardWalk(mac, names, par, r, HOPS, None);
  }
}
