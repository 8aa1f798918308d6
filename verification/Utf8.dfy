/**
 What the sanitiser does to UTF-8 and to its pieces, against an encoder of its own: the one- to four-byte forms of
 section 3 of RFC 3629, for every number up to 0x10FFFF (surrogates are numbers here like any other).
 */
module Utf8 {
  import opened Words
  import opened Sanitise

  type CodePoint = c: int | 0 <= c < 0x11_0000

  function Encode(c: CodePoint): (r: seq<byte>)
    ensures 1 <= |r| <= 4
  {
    if c < 0x80 then [c]
    else if c < 0x800 then [0xC0 + c / 0x40, 0x80 + c % 0x40]
    else if c < 0x1_0000 then [0xE0 + c / 0x1000, 0x80 + c / 0x40 % 0x40, 0x80 + c % 0x40]
    else [0xF0 + c / 0x4_0000, 0x80 + c / 0x1000 % 0x40, 0x80 + c / 0x40 % 0x40, 0x80 + c % 0x40]
  }

  function EncodeAll(cs: seq<CodePoint>): seq<byte> {
    if cs == [] then [] else Encode(cs[0]) + EncodeAll(cs[1..])
  }

  // ── Byte shapes ──

  predicate Trails(b: byte) {
    0x80 <= b <= 0xBF
  }

  /** A sequence starts at `i`, byte range by byte range. */
  predicate Shaped(s: seq<byte>, i: nat)
    requires i < |s|
  {
    || s[i] <= 0x7F
    || (0xC2 <= s[i] <= 0xDF && i + 1 < |s| && Trails(s[i + 1]))
    || (0xE0 <= s[i] <= 0xEF && i + 2 < |s| && Trails(s[i + 1]) && Trails(s[i + 2]))
    || (0xF0 <= s[i] <= 0xF4 && i + 3 < |s| && Trails(s[i + 1]) && Trails(s[i + 2]) && Trails(s[i + 3]))
  }

  /** A byte and what follows pass exactly in these four shapes. */
  lemma ShapeExact(s: seq<byte>, i: nat)
    requires i < |s|
    ensures SequenceAt(s, i) <==> Shaped(s, i)
    ensures SequenceAt(s, i) ==>
      LeaderLen(s[i]) == if s[i] <= 0x7F then 1 else if s[i] <= 0xDF then 2 else if s[i] <= 0xEF then 3 else 4
  {
    var n := LeaderLen(s[i]);
    if Shaped(s, i) {
      assert forall j | i < j < i + n :: IsContinuation(s[j]);
    }
  }

  // ── Whole code points ──

  lemma EncodedShape(c: CodePoint, rest: seq<byte>)
    ensures var s := Encode(c) + rest;
      SequenceAt(s, 0) && LeaderLen(s[0]) == |Encode(c)|
  {
    var s := Encode(c) + rest;
    ShapeExact(s, 0);
    hide SequenceAt, LeaderLen;
  }

  /** An encoded code point passes, and what follows is sanitised by itself. */
  lemma EncodedPasses(c: CodePoint, rest: seq<byte>)
    ensures Sanitised(Encode(c) + rest) == Encode(c) + Sanitised(rest)
  {
    var s := Encode(c) + rest;
    EncodedShape(c, rest);
    hide SequenceAt, Encode;
    assert s[..|Encode(c)|] == Encode(c) && s[|Encode(c)|..] == rest;
  }

  /** UTF-8 passes unchanged. */
  lemma {:induction false} Utf8Passes(cs: seq<CodePoint>)
    ensures Sanitised(EncodeAll(cs)) == EncodeAll(cs) && WellFormed(EncodeAll(cs))
  {
    if cs != [] {
      Utf8Passes(cs[1..]);
      EncodedPasses(cs[0], EncodeAll(cs[1..]));
    }
    SanitisedIdentity(EncodeAll(cs));
  }

  // ── What is replaced ──

  /** A continuation in front, or a byte that begins nothing, becomes '?'. */
  lemma StrayReplaced(s: seq<byte>)
    requires s != [] && (0x80 <= s[0] <= 0xC1 || 0xF5 <= s[0])
    ensures Sanitised(s) == [0x3F] + Sanitised(s[1..])
  {
    ShapeExact(s, 0);
    NoneReplaced(s);
    hide SequenceAt, LeaderLen;
  }

  function Questions(n: nat): seq<byte> {
    seq(n, _ => 0x3F)
  }

  /** An encoded code point broken off: each byte of it becomes '?', and what follows is sanitised by itself. */
  lemma BrokenReplaced(c: CodePoint, n: nat, rest: seq<byte>)
    requires 0 < n < |Encode(c)| && (rest == [] || !Trails(rest[0]))
    ensures Sanitised(Encode(c)[..n] + rest) == Questions(n) + Sanitised(rest)
  {
    hide SequenceAt, Encode, Sanitised;
    var e := Encode(c);
    BrokenShape(c, n, rest);
    NoneReplaced(e[..n] + rest);
    assert (e[..n] + rest)[1..] == e[1..n] + rest;
    TrailsReplaced(e[1..n], rest);
    OneMore(n - 1, Sanitised(rest));
  }

  lemma NoneReplaced(s: seq<byte>)
    requires s != [] && !SequenceAt(s, 0)
    ensures Sanitised(s) == [0x3F] + Sanitised(s[1..])
  {
  }

  lemma OneMore(n: nat, r: seq<byte>)
    ensures [0x3F] + (Questions(n) + r) == Questions(n + 1) + r
  {
  }

  lemma BrokenShape(c: CodePoint, n: nat, rest: seq<byte>)
    requires 0 < n < |Encode(c)| && (rest == [] || !Trails(rest[0]))
    ensures !SequenceAt(Encode(c)[..n] + rest, 0) && forall j | 0 < j < |Encode(c)| :: Trails(Encode(c)[j])
  {
    ShapeExact(Encode(c)[..n] + rest, 0);
    hide SequenceAt, LeaderLen;
  }

  lemma {:induction false} TrailsReplaced(t: seq<byte>, rest: seq<byte>)
    requires forall j | 0 <= j < |t| :: Trails(t[j])
    ensures Sanitised(t + rest) == Questions(|t|) + Sanitised(rest)
  {
    if t == [] {
      assert t + rest == rest && Questions(0) == [];
      assert [] + Sanitised(rest) == Sanitised(rest);
    } else {
      StrayReplaced(t + rest);
      assert (t + rest)[1..] == t[1..] + rest;
      TrailsReplaced(t[1..], rest);
      OneMore(|t| - 1, Sanitised(rest));
    }
  }

  // ── How much truncating keeps ──

  /** ASCII fills the room given: its own first bytes, and three dots when there is room for them. */
  lemma AsciiTruncated(s: seq<byte>, max: nat)
    requires |s| > max && forall j | 0 <= j < |s| :: s[j] <= 0x7F
    ensures Truncated(s, max) == if max > 3 then s[..max - 3] + [0x2E, 0x2E, 0x2E] else s[..max]
  {
    var t := Target(max);
    assert CutAt(s, t) == t;
    AsciiPasses(s[..t]);
    assert s[..t] + [] == s[..t];
    hide Sanitised;
  }

  lemma {:induction false} AsciiPasses(s: seq<byte>)
    requires forall j | 0 <= j < |s| :: s[j] <= 0x7F
    ensures Sanitised(s) == s
  {
    if s != [] {
      AsciiPasses(s[1..]);
      assert s == [s[0]] + s[1..];
      ShapeExact(s, 0);
    }
  }

  /** Any well-formed string comes within three bytes of the room given. */
  lemma TruncatedFills(s: seq<byte>, max: nat)
    requires |s| > max && WellFormed(s)
    ensures max <= |Truncated(s, max)| + 3 && |Truncated(s, max)| <= max
  {
    WellFormedCut(s, Target(max));
    hide WellFormed, Sanitised;
  }
}
