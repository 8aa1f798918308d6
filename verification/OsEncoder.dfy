/**
 The writer: tags, symbols, strings and numbers as the format documents them, each symbol
 written once and referred back to afterwards; and the round trip through `parse`.
 */
module OsEncoder {
  import opened Wrappers
  import opened Words
  import opened OsFormat
  import opened OsReference
  import opened OsContent
  import opened OsRoundTrip

  function Zeros(n: nat): (r: seq<byte>)
    ensures |r| == n
  {
    seq(n, _ => 0)
  }

  function EmitTag(ty: nat, operand: nat, eoc: bool): (r: seq<byte>)
    requires ty < 0x80
    ensures |r| == 4
  {
    LeBytes(ty * 0x100_0000 + operand % 0x100_0000 + if eoc then 0x8000_0000 else 0)
  }

  /** A length-prefixed payload padded with zeros to a multiple of four. */
  function EmitBytes(ty: nat, payload: seq<byte>, eoc: bool): (r: seq<byte>)
    requires ty < 0x80
    ensures |r| == 4 + Padded(|payload|)
  {
    EmitTag(ty, |payload|, eoc) + payload + Zeros(Padded(|payload|) - |payload|)
  }

  function EmitNumber(n: u64, eoc: bool): (r: seq<byte>)
    ensures |r| == 12
  {
    EmitTag(TYPE_NUMBER, 64, eoc) + LeBytes(n % 0x1_0000_0000) + LeBytes(n / 0x1_0000_0000)
  }

  /** Symbols written so far with their object numbers, and how many objects there are. */
  datatype Names = Names(seen: map<seq<byte>, nat>, count: nat)

  datatype Written = Written(bytes: seq<byte>, names: Names)

  /** A symbol's number is remembered while it fits a tag's 24-bit operand. */
  function Remember(names: Names, name: seq<byte>): Names {
    Names(if names.count < 0x100_0000 then names.seen[name := names.count] else names.seen, names.count + 1)
  }

  /** Write `v` at offset `pos`. The end-of-collection flags are arbitrary: readers ignore them. */
  function Encode(v: Value, names: Names, pos: nat, eoc: nat -> bool): (w: Written)
    ensures |w.bytes| >= 4
    decreases v, 1
  {
    var next := names.(count := names.count + 1);
    match v
    case Coll(kind, kids) =>
      var n := if kind == Dict then |kids| / 2 else |kids|;
      var rest := EncodeAll(kids, next, pos + 4, eoc);
      Written(EmitTag(KindType(kind), n, eoc(pos)) + rest.bytes, rest.names)
    case Number(n) => Written(EmitNumber(n, eoc(pos)), next)
    case Symbol(name) =>
      if name in names.seen then Written(EmitTag(TYPE_OBJECT, names.seen[name], eoc(pos)), names)
      else Written(EmitBytes(TYPE_SYMBOL, name + [0], eoc(pos)), Remember(names, name))
    case String(text) => Written(EmitBytes(TYPE_STRING, text, eoc(pos)), next)
    case Data(raw) => Written(EmitBytes(TYPE_DATA, raw, eoc(pos)), next)
    case Boolean(b) => Written(EmitTag(TYPE_BOOLEAN, if b then 1 else 0, eoc(pos)), next)
  }

  function EncodeAll(vs: seq<Value>, names: Names, pos: nat, eoc: nat -> bool): Written
    decreases vs, 0
  {
    if vs == [] then Written([], names)
    else
      var first := Encode(vs[0], names, pos, eoc);
      var rest := EncodeAll(vs[1..], first.names, pos + |first.bytes|, eoc);
      Written(first.bytes + rest.bytes, rest.names)
  }

  function Blob(v: Value, eoc: nat -> bool): seq<byte> {
    MAGIC + Encode(v, Names(map[], 0), 4, eoc).bytes
  }

  /** Every length and count fits its 24-bit field, and dictionaries pair keys with values. */
  ghost predicate Fits(v: Value)
    decreases v, 1
  {
    match v
    case Coll(kind, kids) =>
      && FitsAll(kids)
      && (if kind == Dict then |kids| % 2 == 0 && |kids| / 2 < 0x100_0000 else |kids| < 0x100_0000)
    case Symbol(name) => |name| + 1 < 0x100_0000
    case String(text) => |text| < 0x100_0000
    case Data(raw) => |raw| < 0x100_0000
    case _ => true
  }

  ghost predicate FitsAll(vs: seq<Value>)
    decreases vs, 0
  {
    vs == [] || (Fits(vs[0]) && FitsAll(vs[1..]))
  }

  // ── Reading back single emissions ──

  /** `bytes` is what the blob holds at `pos`. */
  ghost predicate At(blob: seq<byte>, pos: nat, bytes: seq<byte>) {
    pos + |bytes| <= |blob| && blob[pos..pos + |bytes|] == bytes
  }

  lemma AtSplit(blob: seq<byte>, pos: nat, a: seq<byte>, b: seq<byte>)
    requires At(blob, pos, a + b)
    ensures At(blob, pos, a) && At(blob, pos + |a|, b)
  {
    var s := blob[pos..pos + |a + b|];
    assert s[..|a|] == a && s[|a|..] == b;
    assert blob[pos..pos + |a|] == s[..|a|];
    assert blob[pos + |a|..pos + |a| + |b|] == s[|a|..];
  }

  lemma TagReads(blob: seq<byte>, pos: nat, ty: nat, operand: nat, eoc: bool)
    requires ty < 0x80 && operand < 0x100_0000 && At(blob, pos, EmitTag(ty, operand, eoc))
    ensures ReadTag(blob, pos) == Some(Tag(ty, operand))
  {
    var word := ty * 0x100_0000 + operand + if eoc then 0x8000_0000 else 0;
    assert operand % 0x100_0000 == operand && EmitTag(ty, operand, eoc) == LeBytes(word);
    hide EmitTag;
    WordReads(blob, pos, word);
    TagOfWord(blob, pos);
    hide Le32, LeBytes, ReadTag;
    assert word / 0x100_0000 == ty + if eoc then 0x80 else 0;
  }

  lemma BytesRead(blob: seq<byte>, pos: nat, ty: nat, payload: seq<byte>, eoc: bool)
    requires ty < 0x80 && |payload| < 0x100_0000 && At(blob, pos, EmitBytes(ty, payload, eoc))
    ensures ReadTag(blob, pos) == Some(Tag(ty, |payload|))
    ensures Payload(blob, pos, |payload|) == Some(payload)
  {
    var tag, pad := EmitTag(ty, |payload|, eoc), Zeros(Padded(|payload|) - |payload|);
    AtSplit(blob, pos, tag + payload, pad);
    AtSplit(blob, pos, tag, payload);
    TagReads(blob, pos, ty, |payload|, eoc);
  }

  lemma NumberReads(blob: seq<byte>, pos: nat, n: u64, eoc: bool)
    requires At(blob, pos, EmitNumber(n, eoc))
    ensures ReadTag(blob, pos) == Some(Tag(TYPE_NUMBER, 64))
    ensures Le32(blob, pos + 4) + 0x1_0000_0000 * Le32(blob, pos + 8) == n
  {
    var tag, lo, hi := EmitTag(TYPE_NUMBER, 64, eoc), LeBytes(n % 0x1_0000_0000), LeBytes(n / 0x1_0000_0000);
    AtSplit(blob, pos, tag + lo, hi);
    AtSplit(blob, pos, tag, lo);
    TagReads(blob, pos, TYPE_NUMBER, 64, eoc);
    WordReads(blob, pos + 4, n % 0x1_0000_0000);
    WordReads(blob, pos + 8, n / 0x1_0000_0000);
  }

  // ── Parsing what was written ──

  ghost predicate SymbolStands(blob: seq<byte>, off: nat, name: seq<byte>) {
    ReadTag(blob, off) == Some(Tag(TYPE_SYMBOL, |name| + 1)) && Payload(blob, off, |name|) == Some(name)
  }

  /** The writer's object numbers agree with the parser's table. */
  ghost predicate Known(blob: seq<byte>, table: seq<nat>, names: Names) {
    && |table| == names.count
    && forall name | name in names.seen ::
      names.seen[name] < 0x100_0000 && names.seen[name] < |table|
      && SymbolStands(blob, table[names.seen[name]], name)
  }

  /** The outcome of parsing `w` at `pos`: all of it is consumed and the numbering still agrees. */
  ghost predicate ParsedAs(blob: seq<byte>, pos: nat, w: Written, outcome: Outcome) {
    outcome.Some? && outcome.value.0 == pos + |w.bytes| && Known(blob, outcome.value.1, w.names)
  }

  /** The symbol bytes, without the terminating NUL, stand behind the tag. */
  lemma SymbolReads(blob: seq<byte>, pos: nat, name: seq<byte>, eoc: bool)
    requires |name| + 1 < 0x100_0000 && At(blob, pos, EmitBytes(TYPE_SYMBOL, name + [0], eoc))
    ensures SymbolStands(blob, pos, name)
  {
    BytesRead(blob, pos, TYPE_SYMBOL, name + [0], eoc);
    var padded := blob[pos + 4..pos + 4 + |name| + 1];
    assert padded == name + [0];
    assert padded[..|name|] == name;
    assert blob[pos + 4..pos + 4 + |name|] == padded[..|name|];
  }

  lemma SymbolParses(blob: seq<byte>, pos: nat, name: seq<byte>, names: Names, table: seq<nat>, eoc: nat -> bool)
    requires |name| + 1 < 0x100_0000
    requires At(blob, pos, Encode(Symbol(name), names, pos, eoc).bytes) && Known(blob, table, names)
    ensures ParsedAs(blob, pos, Encode(Symbol(name), names, pos, eoc), Item(blob, pos, table, true))
  {
    if name in names.seen {
      TagReads(blob, pos, TYPE_OBJECT, names.seen[name], eoc(pos));
    } else {
      SymbolReads(blob, pos, name, eoc(pos));
      KnownSymbol(blob, table, names, pos, name);
      hide Known, At;
    }
  }

  /** A symbol written out is the next object, and remembered as such. */
  lemma KnownSymbol(blob: seq<byte>, table: seq<nat>, names: Names, pos: nat, name: seq<byte>)
    requires Known(blob, table, names) && SymbolStands(blob, pos, name)
    ensures Known(blob, table + [pos], Remember(names, name))
  {
    hide SymbolStands;
    var longer, later := table + [pos], Remember(names, name);
    forall other | other in later.seen
      ensures later.seen[other] < 0x100_0000 && later.seen[other] < |longer|
      ensures SymbolStands(blob, longer[later.seen[other]], other)
    {
      if other != name || names.count >= 0x100_0000 {
        assert other in names.seen;
      }
    }
  }

  /** One more object that is not a symbol leaves the numbering of symbols alone. */
  lemma KnownNext(blob: seq<byte>, table: seq<nat>, names: Names, off: nat)
    requires Known(blob, table, names)
    ensures Known(blob, table + [off], names.(count := names.count + 1))
  {
  }

  lemma ScalarParses(blob: seq<byte>, pos: nat, v: Value, names: Names, table: seq<nat>, eoc: nat -> bool)
    requires Fits(v) && !v.Coll? && !v.Symbol?
    requires At(blob, pos, Encode(v, names, pos, eoc).bytes) && Known(blob, table, names)
    ensures ParsedAs(blob, pos, Encode(v, names, pos, eoc), Item(blob, pos, table, true))
    ensures ReadTag(blob, pos).Some? && ScalarAt(blob, pos, ReadTag(blob, pos).value, v)
    ensures ReadTag(blob, pos).value.ty != TYPE_OBJECT
  {
    KnownNext(blob, table, names, pos);
    match v
    case Number(n) => NumberReads(blob, pos, n, eoc(pos));
    case String(text) => BytesRead(blob, pos, TYPE_STRING, text, eoc(pos));
    case Data(raw) => BytesRead(blob, pos, TYPE_DATA, raw, eoc(pos));
    case Boolean(b) => TagReads(blob, pos, TYPE_BOOLEAN, if b then 1 else 0, eoc(pos));
  }

  function CollTag(kind: Kind, kids: seq<Value>): Tag {
    Tag(KindType(kind), if kind == Dict then |kids| / 2 else |kids|)
  }

  lemma CollOwes(kind: Kind, kids: seq<Value>)
    requires Fits(Coll(kind, kids))
    ensures var tag := CollTag(kind, kids);
      tag.ty < 0x80 && tag.operand < 0x100_0000 && Owed(tag) == |kids|
  {
    hide FitsAll;
  }

  lemma CollBytes(kind: Kind, kids: seq<Value>, names: Names, pos: nat, eoc: nat -> bool)
    ensures var tag := CollTag(kind, kids);
      tag.ty < 0x80
      && Encode(Coll(kind, kids), names, pos, eoc).bytes
        == EmitTag(tag.ty, tag.operand, eoc(pos))
           + EncodeAll(kids, names.(count := names.count + 1), pos + 4, eoc).bytes
  {
    hide EmitTag, EncodeAll;
  }

  lemma CollReads(blob: seq<byte>, pos: nat, kind: Kind, kids: seq<Value>, names: Names, eoc: nat -> bool)
    requires Fits(Coll(kind, kids)) && At(blob, pos, Encode(Coll(kind, kids), names, pos, eoc).bytes)
    ensures ReadTag(blob, pos) == Some(CollTag(kind, kids)) && Owed(CollTag(kind, kids)) == |kids|
    ensures At(blob, pos + 4, EncodeAll(kids, names.(count := names.count + 1), pos + 4, eoc).bytes)
  {
    hide *;
    var tag := CollTag(kind, kids);
    CollOwes(kind, kids);
    CollBytes(kind, kids, names, pos, eoc);
    AtSplit(blob, pos, EmitTag(tag.ty, tag.operand, eoc(pos)),
            EncodeAll(kids, names.(count := names.count + 1), pos + 4, eoc).bytes);
    TagReads(blob, pos, tag.ty, tag.operand, eoc(pos));
  }

  lemma {:induction false} EncodedParses(blob: seq<byte>, pos: nat, v: Value, names: Names, table: seq<nat>,
      eoc: nat -> bool)
    requires Fits(v)
    requires At(blob, pos, Encode(v, names, pos, eoc).bytes) && Known(blob, table, names)
    ensures ParsedAs(blob, pos, Encode(v, names, pos, eoc), Item(blob, pos, table, true))
    decreases v, 1
  {
    match v
    case Coll(kind, kids) =>
      CollReads(blob, pos, kind, kids, names, eoc);
      KnownNext(blob, table, names, pos);
      EncodedAllParse(blob, pos + 4, kids, names.(count := names.count + 1), table + [pos], eoc);
    case Symbol(name) => SymbolParses(blob, pos, name, names, table, eoc);
    case _ => ScalarParses(blob, pos, v, names, table, eoc);
  }

  lemma {:induction false} EncodedAllParse(blob: seq<byte>, pos: nat, vs: seq<Value>, names: Names, table: seq<nat>,
      eoc: nat -> bool)
    requires FitsAll(vs)
    requires At(blob, pos, EncodeAll(vs, names, pos, eoc).bytes) && Known(blob, table, names)
    ensures ParsedAs(blob, pos, EncodeAll(vs, names, pos, eoc), Items(blob, pos, |vs|, table, true))
    decreases vs, 0
  {
    if vs != [] {
      hide Encode, Item, Known, Fits;
      var first := Encode(vs[0], names, pos, eoc);
      AtSplit(blob, pos, first.bytes, EncodeAll(vs[1..], first.names, pos + |first.bytes|, eoc).bytes);
      EncodedParses(blob, pos, vs[0], names, table, eoc);
      var parsed := Item(blob, pos, table, true).value;
      EncodedAllParse(blob, parsed.0, vs[1..], first.names, parsed.1, eoc);
    }
  }

  // ── What was written is what is represented ──

  lemma {:induction false} EncodedStands(blob: seq<byte>, pos: nat, v: Value, names: Names, table: seq<nat>,
                                         final: seq<nat>, eoc: nat -> bool)
    requires Fits(v)
    requires At(blob, pos, Encode(v, names, pos, eoc).bytes) && Known(blob, table, names)
    requires Item(blob, pos, table, true).Some? && Item(blob, pos, table, true).value.1 <= final
    ensures Represents(blob, final, pos, v)
    decreases v, 1
  {
    match v
    case Coll(kind, kids) =>
      CollReads(blob, pos, kind, kids, names, eoc);
      KnownNext(blob, table, names, pos);
      EncodedAllStand(blob, pos + 4, kids, names.(count := names.count + 1), table + [pos], final, eoc);
    case Symbol(name) =>
      if name in names.seen {
        TagReads(blob, pos, TYPE_OBJECT, names.seen[name], eoc(pos));
        assert SymbolStands(blob, table[names.seen[name]], name);
      } else {
        SymbolReads(blob, pos, name, eoc(pos));
      }
    case _ => ScalarParses(blob, pos, v, names, table, eoc);
  }

  lemma {:induction false} EncodedAllStand(blob: seq<byte>, pos: nat, vs: seq<Value>, names: Names, table: seq<nat>,
                                           final: seq<nat>, eoc: nat -> bool)
    requires FitsAll(vs)
    requires At(blob, pos, EncodeAll(vs, names, pos, eoc).bytes) && Known(blob, table, names)
    requires Items(blob, pos, |vs|, table, true).Some? && Items(blob, pos, |vs|, table, true).value.1 <= final
    ensures RepresentsAll(blob, final, pos, vs)
    decreases vs, 0
  {
    hide *;
    if vs == [] {
      RepresentsNone(blob, pos, final);
    } else {
      EncodedHead(blob, pos, vs, names, table, eoc);
      EncodedStands(blob, pos, vs[0], names, table, final, eoc);
      var (next, seen) := Item(blob, pos, table, true).value;
      EncodedAllStand(blob, next, vs[1..], Encode(vs[0], names, pos, eoc).names, seen, final, eoc);
      RepresentsFirst(blob, pos, table, vs, final);
    }
  }

  /** Parsing the first of several written values leaves the rest to parse. */
  lemma EncodedHead(blob: seq<byte>, pos: nat, vs: seq<Value>, names: Names, table: seq<nat>, eoc: nat -> bool)
    requires vs != [] && FitsAll(vs) && Known(blob, table, names)
    requires At(blob, pos, EncodeAll(vs, names, pos, eoc).bytes) && Items(blob, pos, |vs|, table, true).Some?
    ensures var first := Encode(vs[0], names, pos, eoc);
      && Fits(vs[0]) && FitsAll(vs[1..]) && At(blob, pos, first.bytes)
      && Item(blob, pos, table, true).Some?
      && var (next, seen) := Item(blob, pos, table, true).value;
      && next == pos + |first.bytes| && Known(blob, seen, first.names)
      && At(blob, next, EncodeAll(vs[1..], first.names, next, eoc).bytes)
      && Items(blob, pos, |vs|, table, true) == Items(blob, next, |vs| - 1, seen, true)
      && seen <= Items(blob, pos, |vs|, table, true).value.1
  {
    hide *;
    var first := Encode(vs[0], names, pos, eoc);
    ItemsFirst(blob, pos, |vs|, table);
    EncodeFirst(vs, names, pos, eoc);
    FitsFirst(vs);
    AtSplit(blob, pos, first.bytes, EncodeAll(vs[1..], first.names, pos + |first.bytes|, eoc).bytes);
    EncodedParses(blob, pos, vs[0], names, table, eoc);
    ParsedParts(blob, pos, first, Item(blob, pos, table, true));
  }

  lemma RepresentsNone(blob: seq<byte>, pos: nat, final: seq<nat>)
    ensures RepresentsAll(blob, final, pos, [])
  {
  }

  lemma EncodeFirst(vs: seq<Value>, names: Names, pos: nat, eoc: nat -> bool)
    requires vs != []
    ensures var first := Encode(vs[0], names, pos, eoc);
      EncodeAll(vs, names, pos, eoc).bytes
        == first.bytes + EncodeAll(vs[1..], first.names, pos + |first.bytes|, eoc).bytes
  {
    hide Encode;
  }

  lemma ItemsFirst(blob: seq<byte>, pos: nat, k: nat, table: seq<nat>)
    requires k > 0 && Items(blob, pos, k, table, true).Some?
    ensures Item(blob, pos, table, true).Some?
    ensures var first := Item(blob, pos, table, true).value;
      && Items(blob, pos, k, table, true) == Items(blob, first.0, k - 1, first.1, true)
      && first.1 <= Items(blob, pos, k, table, true).value.1
  {
    hide Item;
  }

  lemma FitsFirst(vs: seq<Value>)
    requires vs != [] && FitsAll(vs)
    ensures Fits(vs[0]) && FitsAll(vs[1..])
  {
    hide Fits;
  }

  lemma ParsedParts(blob: seq<byte>, pos: nat, w: Written, outcome: Outcome)
    requires ParsedAs(blob, pos, w, outcome)
    ensures outcome.Some? && outcome.value.0 == pos + |w.bytes| && Known(blob, outcome.value.1, w.names)
  {
    hide Known;
  }

  lemma RepresentsFirst(blob: seq<byte>, pos: nat, table: seq<nat>, vs: seq<Value>, final: seq<nat>)
    requires vs != [] && Item(blob, pos, table, true).Some? && Represents(blob, final, pos, vs[0])
    requires RepresentsAll(blob, final, Item(blob, pos, table, true).value.0, vs[1..])
    ensures RepresentsAll(blob, final, pos, vs)
  {
    hide Item, Represents;
    ItemUnchecked(blob, pos, table, []);
  }

  /** Round trip: what is written is accepted, and its top-level item represents the tree. */
  lemma RoundTrip(v: Value, eoc: nat -> bool)
    requires Fits(v) && |Blob(v, eoc)| < U32_MAX - 16
    ensures Accepted(Blob(v, eoc))
    ensures Represents(Blob(v, eoc), Table(Blob(v, eoc)), 4, v)
  {
    var blob, none := Blob(v, eoc), Names(map[], 0);
    assert blob[4..] == Encode(v, none, 4, eoc).bytes;
    EncodedParses(blob, 4, v, none, [], eoc);
    EncodedStands(blob, 4, v, none, [], Table(blob), eoc);
    hide Encode, Item, Represents;
  }

  /** Writing is injective: two trees with the same bytes are the same tree. */
  lemma BlobInjective(v: Value, w: Value, eoc: nat -> bool, other: nat -> bool)
    requires Fits(v) && Fits(w) && |Blob(v, eoc)| < U32_MAX - 16
    requires Blob(v, eoc) == Blob(w, other)
    ensures v == w
  {
    RoundTrip(v, eoc);
    RoundTrip(w, other);
    RepresentsOne(Blob(v, eoc), Table(Blob(v, eoc)), 4, v, w);
  }
}
