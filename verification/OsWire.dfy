/**
 The format byte by byte: the types and sizes of single items, what the writer's bytes are, and that every item of an
 accepted blob starts on a multiple of four.
 */
module OsWire {
  import opened Wrappers
  import opened Words
  import opened OsFormat
  import opened OsReference
  import opened OsTree
  import opened OsRoundTrip
  import opened OsEncoder

  // ── One item ──

  /** What a tag takes: collections (1, 2, 3) and booleans (11) their own word, numbers (4) two more, and symbols,
      strings and data (8, 9, 10) their payload rounded up to the next multiple of four. Any other type is refused. */
  lemma StepExactly(tag: Tag)
    ensures var step := ScalarStep(tag);
      && (step.Some? <==> tag.ty in {1, 2, 3, 4, 8, 9, 10, 11})
      && (tag.ty in {1, 2, 3, 11} ==> step == Some(4))
      && (tag.ty == 4 ==> step == Some(12))
      && (tag.ty in {8, 9, 10} ==>
            step.Some? && step.value % 4 == 0 && tag.operand + 4 <= step.value < tag.operand + 8)
  {
  }

  /** A dictionary (1) is followed by a key and a value for each pair, an array (2) or a set (3) by its elements. */
  lemma OwedExactly(tag: Tag)
    ensures Owed(tag) == if tag.ty == 1 then 2 * tag.operand else if tag.ty in {2, 3} then tag.operand else 0
    ensures IsContainer(tag.ty) <==> tag.ty in {1, 2, 3}
  {
  }

  /** What parsing takes before anything is read: eight bytes at least, offsets that fit, and the magic. */
  lemma AcceptedHead(blob: seq<byte>)
    ensures Accepted(blob) <==>
      8 <= |blob| < 0xffff_ffef && blob[..4] == [0xd3, 0, 0, 0] && Item(blob, 4, [], true).Some?
  {
    hide Item;
  }

  // ── The writer's bytes ──

  /** A tag's four bytes: the operand from its lowest byte on, then the type, with the top bit for the end of a
      collection. */
  lemma TagBytes(ty: nat, operand: nat, eoc: bool)
    requires ty < 0x80 && operand < 0x100_0000
    ensures EmitTag(ty, operand, eoc)
         == [operand % 0x100, operand / 0x100 % 0x100, operand / 0x1_0000, if eoc then ty + 0x80 else ty]
  {
    var b0, b1, b2 := operand % 0x100, operand / 0x100 % 0x100, operand / 0x1_0000;
    assert operand / 0x100 == b2 * 0x100 + b1;
    var word := ty * 0x100_0000 + operand + if eoc then 0x8000_0000 else 0;
    assert operand % 0x100_0000 == operand && EmitTag(ty, operand, eoc) == LeBytes(word);
    FourBytes(word, b0, b1, b2, if eoc then ty + 0x80 else ty);
    hide LeBytes, EmitTag;
  }

  lemma FourBytes(w: u32, b0: byte, b1: byte, b2: byte, b3: byte)
    requires w == b0 + 0x100 * b1 + 0x1_0000 * b2 + 0x100_0000 * b3
    ensures LeBytes(w) == [b0, b1, b2, b3]
  {
    assert w / 0x100 == b1 + 0x100 * b2 + 0x1_0000 * b3;
    assert w / 0x1_0000 == b2 + 0x100 * b3;
  }

  /** A payload stands behind its tag and is followed by the fewest zeros that fill up the last word. */
  lemma PayloadBytes(ty: nat, payload: seq<byte>, eoc: bool)
    requires ty < 0x80
    ensures var r := EmitBytes(ty, payload, eoc);
      && |r| % 4 == 0 && |payload| + 4 <= |r| < |payload| + 8
      && r[..4] == EmitTag(ty, |payload|, eoc) && r[4..4 + |payload|] == payload
      && forall j | 4 + |payload| <= j < |r| :: r[j] == 0
  {
    hide EmitTag;
    var tag, zeros := EmitTag(ty, |payload|, eoc), Zeros(Padded(|payload|) - |payload|);
    var r := EmitBytes(ty, payload, eoc);
    assert r == tag + payload + zeros;
    hide EmitBytes, Padded;
    assert r[..4] == tag && r[4..4 + |payload|] == payload && r[4 + |payload|..] == zeros;
    forall j | 4 + |payload| <= j < |r| ensures r[j] == 0 {
      assert r[j] == zeros[j - 4 - |payload|];
    }
  }

  lemma {:induction false} EncodedWords(v: Value, names: Names, pos: nat, eoc: nat -> bool)
    ensures |Encode(v, names, pos, eoc).bytes| % 4 == 0
    decreases v, 1
  {
    hide EmitTag, EmitBytes, EmitNumber, Padded, Remember;
    match v
    case Coll(_, kids) => EncodedAllWords(kids, names.(count := names.count + 1), pos + 4, eoc);
    case Symbol(name) => PayloadBytes(TYPE_SYMBOL, name + [0], eoc(pos));
    case String(text) => PayloadBytes(TYPE_STRING, text, eoc(pos));
    case Data(raw) => PayloadBytes(TYPE_DATA, raw, eoc(pos));
    case _ =>
  }

  lemma {:induction false} EncodedAllWords(vs: seq<Value>, names: Names, pos: nat, eoc: nat -> bool)
    ensures |EncodeAll(vs, names, pos, eoc).bytes| % 4 == 0
    decreases vs, 0
  {
    hide Encode;
    if vs != [] {
      var first := Encode(vs[0], names, pos, eoc);
      EncodedWords(vs[0], names, pos, eoc);
      EncodedAllWords(vs[1..], first.names, pos + |first.bytes|, eoc);
    }
  }

  // ── Alignment ──

  lemma {:induction false} ItemAligned(blob: seq<byte>, off: nat, table: seq<nat>, check: bool)
    requires off % 4 == 0 && Item(blob, off, table, check).Some?
    ensures Item(blob, off, table, check).value.0 % 4 == 0
    decreases |blob| - off, 0
  {
    var tag := ReadTag(blob, off).value;
    StepExactly(tag);
    if IsContainer(tag.ty) {
      ItemsAligned(blob, off + 4, Owed(tag), table + [off], check);
    }
  }

  lemma {:induction false} ItemsAligned(blob: seq<byte>, off: nat, k: nat, table: seq<nat>, check: bool)
    requires off % 4 == 0 && Items(blob, off, k, table, check).Some?
    ensures Items(blob, off, k, table, check).value.0 % 4 == 0
    decreases |blob| - off, k
  {
    if k > 0 {
      var first := Item(blob, off, table, check).value;
      ItemAligned(blob, off, table, check);
      ItemsAligned(blob, first.0, k - 1, first.1, check);
    }
  }

  lemma {:induction false} ReadsAligned(blob: seq<byte>, off: nat, k: nat, table: seq<nat>, s: nat)
    requires off % 4 == 0 && Reads(blob, off, k, table, s)
    ensures s % 4 == 0
    decreases |blob| - off, k
  {
    if s != off {
      var tag := ReadTag(blob, off).value;
      if IsContainer(tag.ty) && Reads(blob, off + 4, Owed(tag), table + [off], s) {
        ReadsAligned(blob, off + 4, Owed(tag), table + [off], s);
      } else {
        var first := Item(blob, off, table, true).value;
        ItemAligned(blob, off, table, true);
        ReadsAligned(blob, first.0, k - 1, first.1, s);
      }
    }
  }

  /** Every item, wherever it is in the tree, starts on a multiple of four. */
  lemma InTreeAligned(blob: seq<byte>, s: nat)
    requires Accepted(blob) && InTree(blob, s)
    ensures s % 4 == 0
  {
    ReadsAligned(blob, 4, 1, [], s);
  }

  // ── A blob to look at ──

  const SAMPLE: seq<byte> := [
    0xd3, 0, 0, 0,
    2, 0, 0, 0x02,
    3, 0, 0, 0x09, 0x61, 0x62, 0x63, 0,
    1, 0, 0, 0x8b]

  /** The array of the string "abc" and the boolean true. */
  lemma SampleRead()
    ensures Accepted(SAMPLE) && Table(SAMPLE) == [4, 8, 16]
  {
    assert ReadTag(SAMPLE, 4) == Some(Tag(2, 2));
    assert ReadTag(SAMPLE, 8) == Some(Tag(9, 3)) && ReadTag(SAMPLE, 16) == Some(Tag(11, 1));
    hide ReadTag;
    assert [] + [4] == [4] && [4] + [8] == [4, 8] && [4, 8] + [16] == [4, 8, 16];
    assert Item(SAMPLE, 16, [4, 8], true) == Some((20, [4, 8, 16]));
    assert Items(SAMPLE, 20, 0, [4, 8, 16], true) == Some((20, [4, 8, 16]));
    assert Items(SAMPLE, 16, 1, [4, 8], true) == Some((20, [4, 8, 16]));
    assert Item(SAMPLE, 8, [4], true) == Some((16, [4, 8]));
    hide Item;
    assert Items(SAMPLE, 8, 2, [4], true) == Some((20, [4, 8, 16]));
    SampleTop();
  }

  lemma SampleTop()
    requires ReadTag(SAMPLE, 4) == Some(Tag(2, 2)) && Items(SAMPLE, 8, 2, [4], true) == Some((20, [4, 8, 16]))
    ensures Item(SAMPLE, 4, [], true) == Some((20, [4, 8, 16]))
  {
    hide ReadTag, Items;
    assert [] + [4] == [4];
  }
}
