/**
 Terminal-safe bytes: pass byte-shape-well-formed sequences, replace every other byte by '?', and
 truncate without cutting a sequence. Laxer than the grammar of section 4 of RFC 3629: overlong
 forms and surrogates pass.
 */
module Sanitise {
  import opened Words
  import opened Sequences

  const QUESTION: byte := 0x3f

  /** Length a leading byte announces, 0 for a byte that cannot lead. */
  function LeaderLen(b: byte): (n: nat)
    ensures n <= 4
  {
    if b < 0x80 then 1
    else if b < 0xC2 then 0
    else if b < 0xE0 then 2
    else if b < 0xF0 then 3
    else if b < 0xF5 then 4
    else 0
  }

  /** b & 0xC0 == 0x80. */
  predicate IsContinuation(b: byte) {
    0x80 <= b < 0xC0
  }

  /** A complete sequence starts at `i`: a leader and as many continuations as it announces. */
  predicate SequenceAt(s: seq<byte>, i: nat)
    requires i < |s|
  {
    var n := LeaderLen(s[i]);
    n > 0 && i + n <= |s| && forall j | i < j < i + n :: IsContinuation(s[j])
  }

  /** Well formed by byte shape: sequences end to end. */
  predicate WellFormed(s: seq<byte>)
    decreases |s|
  {
    s == [] || (SequenceAt(s, 0) && WellFormed(s[LeaderLen(s[0])..]))
  }

  /** What the terminal gets for `s`. */
  function Sanitised(s: seq<byte>): (r: seq<byte>)
    ensures |r| == |s|
    decreases |s|
  {
    if s == [] then []
    else if SequenceAt(s, 0) then
      var n := LeaderLen(s[0]);
      s[..n] + Sanitised(s[n..])
    else [QUESTION] + Sanitised(s[1..])
  }

  /** The output is always well formed, whatever came in. */
  lemma {:induction false} SanitisedWellFormed(s: seq<byte>)
    ensures WellFormed(Sanitised(s))
    decreases |s|
  {
    if s != [] {
      var r := Sanitised(s);
      if SequenceAt(s, 0) {
        var n := LeaderLen(s[0]);
        SanitisedWellFormed(s[n..]);
        assert r[n..] == Sanitised(s[n..]);
        assert forall j | 0 <= j < n :: r[j] == s[j];
      } else {
        SanitisedWellFormed(s[1..]);
        assert r[1..] == Sanitised(s[1..]);
      }
    }
  }

  /** Sanitising changes nothing exactly when the input is well formed. */
  lemma {:induction false} SanitisedIdentity(s: seq<byte>)
    ensures Sanitised(s) == s <==> WellFormed(s)
    decreases |s|
  {
    if s != [] {
      if SequenceAt(s, 0) {
        var n := LeaderLen(s[0]);
        SanitisedIdentity(s[n..]);
        assert s == s[..n] + s[n..];
        assert Sanitised(s)[n..] == Sanitised(s[n..]);
      } else {
        assert Sanitised(s)[0] == QUESTION;
        assert s[0] != QUESTION;
      }
    }
  }

  lemma SanitisedIdempotent(s: seq<byte>)
    ensures Sanitised(Sanitised(s)) == Sanitised(s)
  {
    SanitisedWellFormed(s);
    SanitisedIdentity(Sanitised(s));
  }

  /** One sequence or one replaced byte. */
  lemma SanitisedStep(s: seq<byte>, i: nat)
    requires i < |s|
    ensures SequenceAt(s, i) <==> SequenceAt(s[i..], 0)
    ensures SequenceAt(s, i) ==>
      Sanitised(s[i..]) == s[i..i + LeaderLen(s[i])] + Sanitised(s[i + LeaderLen(s[i])..])
    ensures !SequenceAt(s, i) ==> Sanitised(s[i..]) == [QUESTION] + Sanitised(s[i + 1..])
  {
    var t := s[i..];
    var n := LeaderLen(s[i]);
    assert t[0] == s[i];
    if SequenceAt(t, 0) {
      forall j | i < j < i + n ensures IsContinuation(s[j]) {
        assert t[j - i] == s[j];
      }
    }
    if SequenceAt(s, i) {
      forall j | 0 < j < n ensures IsContinuation(t[j]) {
        assert t[j] == s[i + j];
      }
      assert t[..n] == s[i..i + n] && t[n..] == s[i + n..];
    } else {
      assert t[1..] == s[i + 1..];
    }
  }

  /** All continuations between a leader and the end it announces. */
  method Continues(s: seq<byte>, i: nat, n: nat) returns (ok: bool)
    requires 0 < n && i + n <= |s|
    ensures ok <==> forall j | i < j < i + n :: IsContinuation(s[j])
  {
    var j := i + 1;
    while j < i + n
      invariant i + 1 <= j <= i + n
      invariant forall k | i < k < j :: IsContinuation(s[k])
    {
      if !IsContinuation(s[j]) {
        return false;
      }
      j := j + 1;
    }
    return true;
  }

  /** One step of the loop, in terms of what is written and what is still owed. */
  lemma PutStep(s: seq<byte>, i: nat, out: seq<byte>, goal: seq<byte>)
    requires i < |s| && out + Sanitised(s[i..]) == goal
    ensures SequenceAt(s, i) ==>
      (out + s[i..i + LeaderLen(s[i])]) + Sanitised(s[i + LeaderLen(s[i])..]) == goal
    ensures !SequenceAt(s, i) ==> (out + [QUESTION]) + Sanitised(s[i + 1..]) == goal
  {
    SanitisedStep(s, i);
    hide Sanitised, LeaderLen, IsContinuation;
    if SequenceAt(s, i) {
      var n := LeaderLen(s[i]);
      Regroup(out, s[i..i + n], Sanitised(s[i + n..]));
    } else {
      Regroup(out, [QUESTION], Sanitised(s[i + 1..]));
    }
  }

  /** Write `s` behind `w`. */
  method Put(s: seq<byte>, w: seq<byte>) returns (out: seq<byte>)
    ensures out == w + Sanitised(s)
  {
    out := w;
    var i := 0;
    assert s[0..] == s;
    while i < |s|
      invariant 0 <= i <= |s|
      invariant out + Sanitised(s[i..]) == w + Sanitised(s)
    {
      hide Sanitised, IsContinuation, LeaderLen;
      PutStep(s, i, out, w + Sanitised(s));
      var n := LeaderLen(s[i]);
      var ok := n > 0 && i + n <= |s|;
      if ok {
        ok := Continues(s, i, n);
      }
      assert ok == SequenceAt(s, i);
      hide SequenceAt;
      if ok {
        out := out + s[i..i + n];
        i := i + n;
      } else {
        out := out + [QUESTION];
        i := i + 1;
      }
    }
    assert s[i..] == [];
    assert out + [] == out;
  }

  // ── Truncation ──

  const DOTS: seq<byte> := [0x2e, 0x2e, 0x2e]

  /** The cut at or below `n` that is not before a continuation byte. */
  function CutAt(s: seq<byte>, n: nat): (c: nat)
    requires n < |s|
    ensures c <= n
    ensures c > 0 ==> !IsContinuation(s[c])
    ensures forall j | c < j <= n :: IsContinuation(s[j])
  {
    if n > 0 && IsContinuation(s[n]) then CutAt(s, n - 1) else n
  }

  function Target(max: nat): nat {
    if max > 3 then max - 3 else max
  }

  function Truncated(s: seq<byte>, max: nat): seq<byte> {
    if |s| <= max then Sanitised(s)
    else Sanitised(s[..CutAt(s, Target(max))]) + if max > 3 then DOTS else []
  }

  /** Never more than `max` bytes. */
  lemma TruncatedFits(s: seq<byte>, max: nat)
    ensures |Truncated(s, max)| <= max
  {
  }

  /** Where sequences of a well-formed string start. */
  lemma {:induction false} BoundaryFound(s: seq<byte>, n: nat) returns (start: nat)
    requires WellFormed(s) && n < |s|
    ensures start <= n < start + LeaderLen(s[start]) <= |s| && SequenceAt(s, start)
    ensures WellFormed(s[..start]) && WellFormed(s[start..])
    decreases |s|
  {
    var k := LeaderLen(s[0]);
    if n < k {
      start := 0;
      assert s[..0] == [] && s[0..] == s;
      return;
    }
    WellFormedRest(s);
    hide WellFormed, SequenceAt, LeaderLen;
    var rest := s[k..];
    var inner := BoundaryFound(rest, n - k);
    start := k + inner;
    assert rest[inner..] == s[start..];
    SanitisedStep(rest, inner);
    SanitisedStep(s, start);
    PrefixGrows(s, k, inner);
  }

  lemma WellFormedRest(s: seq<byte>)
    requires s != [] && WellFormed(s)
    ensures 0 < LeaderLen(s[0]) <= |s| && SequenceAt(s, 0) && WellFormed(s[LeaderLen(s[0])..])
  {
  }

  lemma PrefixGrows(s: seq<byte>, k: nat, inner: nat)
    requires s != [] && SequenceAt(s, 0) && k == LeaderLen(s[0]) && k + inner <= |s|
    requires WellFormed(s[k..][..inner])
    ensures WellFormed(s[..k + inner])
  {
    var prefix := s[..k + inner];
    assert prefix[k..] == s[k..][..inner];
    assert forall j | 0 <= j < k :: prefix[j] == s[j];
  }

  /** What the first sequence, or the first byte that starts none, becomes. */
  function Head(s: seq<byte>): (h: seq<byte>)
    requires s != []
    ensures 0 < |h| <= |s|
  {
    if SequenceAt(s, 0) then s[..LeaderLen(s[0])] else [QUESTION]
  }

  lemma SanitisedHead(s: seq<byte>)
    requires s != []
    ensures Sanitised(s) == Head(s) + Sanitised(s[|Head(s)|..])
  {
  }

  /** A cut that is not before a continuation keeps the head whole, and makes no sequence where there was none. */
  lemma HeadKept(s: seq<byte>, cut: nat)
    requires 0 < cut <= |s| && (cut < |s| ==> !IsContinuation(s[cut]))
    ensures |Head(s)| <= cut && Head(s[..cut]) == Head(s)
  {
    var t := s[..cut];
    assert t[0] == s[0];
    if SequenceAt(t, 0) {
      forall j | 0 < j < LeaderLen(s[0]) ensures IsContinuation(s[j]) {
        assert t[j] == s[j];
      }
    }
  }

  /** Cutting anywhere but before a continuation byte and sanitising are independent. */
  lemma {:induction false} SanitisedPrefix(s: seq<byte>, cut: nat)
    requires cut <= |s| && (0 < cut < |s| ==> !IsContinuation(s[cut]))
    ensures Sanitised(s[..cut]) == Sanitised(s)[..cut]
    decreases |s|
  {
    if cut == 0 {
      return;
    }
    hide Sanitised, Head, IsContinuation;
    HeadKept(s, cut);
    SanitisedHead(s);
    SanitisedHead(s[..cut]);
    var n := |Head(s)|;
    assert s[..cut][n..] == s[n..][..cut - n];
    SanitisedPrefix(s[n..], cut - n);
    assert (Head(s) + Sanitised(s[n..]))[..cut] == Head(s) + Sanitised(s[n..])[..cut - n];
  }

  lemma WellFormedCut(s: seq<byte>, t: nat)
    requires WellFormed(s) && t < |s|
    ensures var cut := CutAt(s, t);
      t - 3 <= cut && WellFormed(s[..cut]) && WellFormed(s[cut..])
  {
    var start := BoundaryFound(s, t);
    assert !IsContinuation(s[start]);
    assert forall j | start < j <= t :: IsContinuation(s[j]);
    assert CutAt(s, t) == start;
  }

  /** What truncating any string leaves: a prefix of the sanitised string, and the dots. No complete sequence is
      cut, and one that reaches past the target is given up whole, at most 3 bytes. More than 3 bytes are given up
      exactly when the 4 bytes up to the target are all continuations, which no sequence has; and where the string
      is well formed, both sides of the cut are. */
  lemma TruncatedKeepsSequences(s: seq<byte>, max: nat)
    requires |s| > max
    ensures var t, cut := Target(max), CutAt(s, Target(max));
      && Truncated(s, max) == Sanitised(s)[..cut] + (if max > 3 then DOTS else [])
      && (forall i | 0 <= i < cut && SequenceAt(s, i) :: i + LeaderLen(s[i]) <= cut)
      && (forall i | 0 <= i <= t && SequenceAt(s, i) && t < i + LeaderLen(s[i]) :: cut == i && t - 3 <= i)
      && (cut < t - 3 <==> t > 3 && forall j | t - 3 <= j <= t :: IsContinuation(s[j]))
      && (WellFormed(s) ==> t - 3 <= cut && WellFormed(s[..cut]) && WellFormed(s[cut..]))
  {
    var t, cut := Target(max), CutAt(s, Target(max));
    SanitisedPrefix(s, cut);
    if WellFormed(s) {
      WellFormedCut(s, t);
    }
    hide Sanitised, WellFormed, SequenceAt;
  }

  /** A string of continuation bytes alone is given up whole. */
  lemma OnlyDotsLeft(s: seq<byte>, max: nat)
    requires |s| > max > 3 && forall j | 0 <= j < |s| :: IsContinuation(s[j])
    ensures Truncated(s, max) == DOTS
  {
    assert CutAt(s, Target(max)) == 0;
  }

  method PutTruncated(s: seq<byte>, max: nat, w: seq<byte>) returns (out: seq<byte>)
    ensures out == w + Truncated(s, max)
  {
    if |s| <= max {
      out := Put(s, w);
      return;
    }
    var target := if max > 3 then max - 3 else max;
    var n := target;
    while n > 0 && IsContinuation(s[n])
      invariant 0 <= n <= target < |s|
      invariant CutAt(s, n) == CutAt(s, target)
    {
      n := n - 1;
    }
    out := Put(s[..n], w);
    hide Sanitised;
    if max > 3 {
      out := out + DOTS;
      Regroup(w, Sanitised(s[..n]), DOTS);
    } else {
      assert Sanitised(s[..n]) + [] == Sanitised(s[..n]);
    }
  }
}
