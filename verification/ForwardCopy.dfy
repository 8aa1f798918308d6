/**
 The arena's byte copy, which goes forward whatever the overlap: copying down it is a move, copying up it repeats
 its first bytes.
 */
module ForwardCopy {
  import opened Words
  import opened ArenaBytes

  /** The buffer after the first `len` bytes have been copied, each read when it is its turn. */
  function Forward(buf: seq<byte>, src: nat, dst: nat, len: nat): (r: seq<byte>)
    requires src + len <= |buf| && dst + len <= |buf|
    ensures |r| == |buf|
  {
    if len == 0 then buf
    else
      var b := Forward(buf, src, dst, len - 1);
      b[dst + len - 1 := b[src + len - 1]]
  }

  // ── Down ──

  lemma MoveNone(buf: seq<byte>, src: nat, dst: nat)
    requires src <= |buf| && dst <= |buf|
    ensures Move(buf, src, dst, 0) == buf
  {
  }

  /** One more byte of a downward move; the byte it reads is still the original one. */
  lemma MoveOne(buf: seq<byte>, src: nat, dst: nat, i: nat)
    requires dst <= src && src + i < |buf|
    ensures Move(buf, src, dst, i)[src + i] == buf[src + i]
    ensures Move(buf, src, dst, i)[dst + i := buf[src + i]] == Move(buf, src, dst, i + 1)
  {
  }

  /** Copying down is a move, for every overlap. */
  lemma {:induction false} ForwardDown(buf: seq<byte>, src: nat, dst: nat, len: nat)
    requires dst <= src && src + len <= |buf|
    ensures Forward(buf, src, dst, len) == Move(buf, src, dst, len)
    decreases len
  {
    hide Move;
    if len == 0 {
      MoveNone(buf, src, dst);
    } else {
      ForwardDown(buf, src, dst, len - 1);
      MoveOne(buf, src, dst, len - 1);
    }
  }

  // ── Up ──

  /** Byte `j` is the one `d` bytes below it. */
  predicate Echoes(s: seq<byte>, d: nat, j: nat) {
    d <= j < |s| && s[j] == s[j - d]
  }

  /** What copying up by `d` leaves: every byte written echoes, as it ends up being, the one at that distance. */
  predicate CopiedUp(buf: seq<byte>, r: seq<byte>, src: nat, d: nat, len: nat) {
    && src + d + len <= |buf| == |r|
    && (forall j | 0 <= j < |buf| && (j < src + d || src + d + len <= j) :: r[j] == buf[j])
    && (forall j | src + d <= j < src + d + len :: Echoes(r, d, j))
  }

  lemma {:induction false} ForwardUp(buf: seq<byte>, src: nat, d: nat, len: nat)
    requires d > 0 && src + d + len <= |buf|
    ensures CopiedUp(buf, Forward(buf, src, src + d, len), src, d, len)
    decreases len
  {
    if len > 0 {
      ForwardUp(buf, src, d, len - 1);
      UpOne(buf, Forward(buf, src, src + d, len - 1), src, d, len - 1);
    }
  }

  lemma UpOne(buf: seq<byte>, before: seq<byte>, src: nat, d: nat, len: nat)
    requires d > 0 && src + d + len < |buf| && CopiedUp(buf, before, src, d, len)
    ensures CopiedUp(buf, before[src + d + len := before[src + len]], src, d, len + 1)
  {
    var r := before[src + d + len := before[src + len]];
    forall j | src + d <= j <= src + d + len ensures Echoes(r, d, j) {
      assert j < src + d + len ==> Echoes(before, d, j);
    }
  }

  /** The `len` bytes from `src` on repeat every `d` bytes. */
  predicate Repeats(buf: seq<byte>, src: nat, d: nat, len: nat) {
    forall j | src + d <= j < src + len :: Echoes(buf, d, j)
  }

  /** A copy up arrives intact exactly when its bytes repeat at that distance; when the two places do not
      overlap, they always do. */
  lemma ForwardKeeps(buf: seq<byte>, src: nat, d: nat, len: nat)
    requires d > 0 && src + d + len <= |buf|
    ensures Forward(buf, src, src + d, len)[src + d..src + d + len] == buf[src..src + len]
        <==> Repeats(buf, src, d, len)
    ensures len <= d ==> Repeats(buf, src, d, len)
  {
    var r, dst := Forward(buf, src, src + d, len), src + d;
    ForwardUp(buf, src, d, len);
    hide Forward, Echoes, CopiedUp;
    if Repeats(buf, src, d, len) {
      hide Repeats;
      var got, sent := r[dst..dst + len], buf[src..src + len];
      forall k | 0 <= k < len ensures got[k] == sent[k] {
        RepeatArrives(buf, r, src, d, len, k);
      }
    } else if r[dst..dst + len] == buf[src..src + len] {
      forall j | dst <= j < src + len ensures Echoes(buf, d, j) {
        ArrivedRepeats(buf, r, src, d, len, j);
      }
    }
  }

  lemma ArrivedRepeats(buf: seq<byte>, r: seq<byte>, src: nat, d: nat, len: nat, j: nat)
    requires d > 0 && CopiedUp(buf, r, src, d, len) && r[src + d..src + d + len] == buf[src..src + len]
    requires src + d <= j < src + len
    ensures Echoes(buf, d, j)
  {
    SliceAt(r, buf, src, src + d, len, j - src);
    SliceAt(r, buf, src, src + d, len, j - src - d);
    assert Echoes(r, d, j + d);
  }

  lemma SliceAt(r: seq<byte>, buf: seq<byte>, src: nat, dst: nat, len: nat, k: nat)
    requires dst + len <= |r| && src + len <= |buf| && r[dst..dst + len] == buf[src..src + len] && k < len
    ensures r[dst + k] == buf[src + k]
  {
    assert r[dst..dst + len][k] == buf[src..src + len][k];
  }

  lemma {:induction false} RepeatArrives(buf: seq<byte>, r: seq<byte>, src: nat, d: nat, len: nat, k: nat)
    requires d > 0 && src + d + len <= |buf| == |r| && Repeats(buf, src, d, len) && k < len
    requires CopiedUp(buf, r, src, d, len)
    ensures r[src + d + k] == buf[src + k]
    decreases k
  {
    assert Echoes(r, d, src + d + k);
    if k >= d {
      RepeatArrives(buf, r, src, d, len, k - d);
      assert Echoes(buf, d, src + k);
    }
  }
}
