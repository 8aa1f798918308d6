/**
 Content: which tree an item of a blob stands for, and that every reader gives that tree's content back.
 */
module OsRoundTrip {
  import opened Wrappers
  import opened Words
  import opened OsFormat
  import opened OsContent

  datatype Kind = Dict | Array | Set

  /** A property tree. A dictionary's `kids` alternate keys and values, as they do in the stream. */
  datatype Value =
    | Coll(kind: Kind, kids: seq<Value>)
    | Number(n: u64)
    | Symbol(name: seq<byte>)
    | String(text: seq<byte>)
    | Data(raw: seq<byte>)
    | Boolean(b: bool)

  function KindType(kind: Kind): nat {
    match kind
    case Dict => TYPE_DICT
    case Array => TYPE_ARRAY
    case Set => TYPE_SET
  }

  // ── What an item represents ──

  /** The tag and payload at `target` are those of the scalar `v`. */
  ghost predicate ScalarAt(blob: seq<byte>, target: nat, tag: Tag, v: Value)
    requires !v.Coll?
  {
    match v
    case Number(n) => tag.ty == TYPE_NUMBER && target + 12 <= |blob|
      && Le32(blob, target + 4) + 0x1_0000_0000 * Le32(blob, target + 8) == n
    case Symbol(name) => tag == Tag(TYPE_SYMBOL, |name| + 1) && Payload(blob, target, |name|) == Some(name)
    case String(text) => tag == Tag(TYPE_STRING, |text|) && Payload(blob, target, |text|) == Some(text)
    case Data(raw) => tag == Tag(TYPE_DATA, |raw|) && Payload(blob, target, |raw|) == Some(raw)
    case Boolean(b) => tag.ty == TYPE_BOOLEAN && (tag.operand != 0 <==> b)
  }

  /** The item at `off`, or the object it refers back to, is the tree `v`. */
  ghost predicate Represents(blob: seq<byte>, table: seq<nat>, off: nat, v: Value)
    decreases v, 1
  {
    var target := Target(blob, table, off);
    && target.Some?
    && var tag := ReadTag(blob, target.value);
    && tag.Some?
    && match v
       case Coll(kind, kids) =>
         && tag.value.ty == KindType(kind)
         && Owed(tag.value) == |kids|
         && RepresentsAll(blob, table, target.value + 4, kids)
       case _ => ScalarAt(blob, target.value, tag.value, v)
  }

  ghost predicate RepresentsAll(blob: seq<byte>, table: seq<nat>, off: nat, vs: seq<Value>)
    decreases vs, 0
  {
    vs == [] || (
      && Represents(blob, table, off, vs[0])
      && Length(blob, off).Some?
      && RepresentsAll(blob, table, off + Length(blob, off).value, vs[1..])
    )
  }

  /** Content is unique: no item represents two different trees. */
  lemma {:induction false} RepresentsOne(blob: seq<byte>, table: seq<nat>, off: nat, v: Value, w: Value)
    requires Represents(blob, table, off, v) && Represents(blob, table, off, w)
    ensures v == w
    decreases v, 1
  {
    if v.Coll? && w.Coll? {
      RepresentsOneAll(blob, table, Target(blob, table, off).value + 4, v.kids, w.kids);
    }
  }

  lemma {:induction false} RepresentsOneAll(blob: seq<byte>, table: seq<nat>, off: nat, vs: seq<Value>, ws: seq<Value>)
    requires |vs| == |ws|
    requires RepresentsAll(blob, table, off, vs) && RepresentsAll(blob, table, off, ws)
    ensures vs == ws
    decreases vs, 0
  {
    if vs != [] {
      RepresentsOne(blob, table, off, vs[0], ws[0]);
      RepresentsOneAll(blob, table, off + Length(blob, off).value, vs[1..], ws[1..]);
    }
  }

  // ── What the readers return ──

  lemma ScalarReaders(blob: seq<byte>, table: seq<nat>, off: nat, v: Value)
    requires Represents(blob, table, off, v)
    ensures NumberAt(blob, table, off) == if v.Number? then Some(v.n) else None
    ensures SymbolBytes(blob, table, off) == if v.Symbol? then Some(v.name) else None
    ensures StringBytes(blob, table, off) == if v.String? then Some(v.text) else None
    ensures BooleanAt(blob, table, off) == if v.Boolean? then Some(v.b) else None
  {
  }

  /** The first pair whose key is the symbol `key`. */
  ghost function FirstPair(kids: seq<Value>, key: seq<byte>): (r: Option<nat>)
    ensures r.Some? ==> 2 * r.value + 1 < |kids| && kids[2 * r.value] == Symbol(key)
    ensures forall j | 0 <= j < (if r.Some? then r.value else |kids| / 2) :: kids[2 * j] != Symbol(key)
    decreases |kids|
  {
    if |kids| < 2 then None
    else if kids[0] == Symbol(key) then Some(0)
    else
      var rest := FirstPair(kids[2..], key);
      assert forall j | 0 < j < |kids| / 2 :: kids[2 * j] == kids[2..][2 * (j - 1)];
      if rest.None? then None else Some(rest.value + 1)
  }

  lemma {:induction false} FindFromReads(blob: seq<byte>, table: seq<nat>, off: nat, kids: seq<Value>, key: seq<byte>)
    requires |kids| % 2 == 0 && RepresentsAll(blob, table, off, kids)
    ensures var found := FindFrom(blob, table, off, |kids| / 2, key);
      var pair := FirstPair(kids, key);
      if pair.None? then found.None?
      else found.Some? && Represents(blob, table, found.value, kids[2 * pair.value + 1])
    decreases |kids|
  {
    hide Length, SymbolBytes, Represents;
    if kids != [] {
      var rest := kids[1..];
      var value := off + Length(blob, off).value;
      assert rest[0] == kids[1] && rest[1..] == kids[2..];
      assert RepresentsAll(blob, table, value, rest);
      ScalarReaders(blob, table, off, kids[0]);
      FindFromReads(blob, table, value + Length(blob, value).value, kids[2..], key);
    }
  }

  /** `find_dict` gives the value of the first matching pair, and nothing when there is none. */
  lemma FindDictReads(blob: seq<byte>, table: seq<nat>, off: nat, v: Value, key: seq<byte>)
    requires Represents(blob, table, off, v)
    ensures var found := FindDict(blob, table, off, key);
      if v.Coll? && v.kind == Dict && FirstPair(v.kids, key).Some?
      then found.Some? && Represents(blob, table, found.value, v.kids[2 * FirstPair(v.kids, key).value + 1])
      else found.None?
  {
    hide FindFrom, FirstPair, RepresentsAll;
    if v.Coll? && v.kind == Dict {
      FindFromReads(blob, table, Target(blob, table, off).value + 4, v.kids, key);
    }
  }

  lemma {:induction false} ElementsRead(blob: seq<byte>, table: seq<nat>, off: nat, vs: seq<Value>, seen: seq<nat>)
    requires RepresentsAll(blob, table, off, vs)
    ensures var visited := Elements(blob, off, |vs|, seen);
      && |visited| == |seen| + |vs|
      && visited[..|seen|] == seen
      && forall i | 0 <= i < |vs| :: Represents(blob, table, visited[|seen| + i], vs[i])
    decreases |vs|
  {
    hide Length, Represents;
    if vs != [] {
      var next := off + Length(blob, off).value;
      var longer := seen + [off];
      ElementsRead(blob, table, next, vs[1..], longer);
      var visited := Elements(blob, off, |vs|, seen);
      assert visited == Elements(blob, next, |vs| - 1, longer);
      assert visited[..|seen|] == visited[..|longer|][..|seen|] == seen;
      assert visited[|seen|] == visited[..|longer|][|seen|] == off;
      forall i | 0 <= i < |vs| ensures Represents(blob, table, visited[|seen| + i], vs[i]) {
        if i > 0 {
          assert vs[i] == vs[1..][i - 1];
          assert visited[|longer| + (i - 1)] == visited[|seen| + i];
        }
      }
    }
  }

  lemma SequenceOf(blob: seq<byte>, table: seq<nat>, off: nat, v: Value)
    requires Represents(blob, table, off, v)
    ensures SequenceAt(blob, table, off).Some? <==> v.Coll? && v.kind != Dict
    ensures v.Coll? && v.kind != Dict ==>
      var target := SequenceAt(blob, table, off).value;
      && ReadTag(blob, target).value.operand == |v.kids|
      && RepresentsAll(blob, table, target + 4, v.kids)
  {
    hide RepresentsAll;
  }

  /** `for_each_array` hands over every element of an array or set, in order. */
  lemma ForEachReads(blob: seq<byte>, table: seq<nat>, off: nat, v: Value)
    requires Represents(blob, table, off, v) && v.Coll? && v.kind != Dict
    ensures SequenceAt(blob, table, off).Some?
    ensures
      var target := SequenceAt(blob, table, off).value;
      var visited := Elements(blob, target + 4, ReadTag(blob, target).value.operand, []);
      |visited| == |v.kids| && forall i | 0 <= i < |v.kids| :: Represents(blob, table, visited[i], v.kids[i])
  {
    SequenceOf(blob, table, off, v);
    ElementsRead(blob, table, SequenceAt(blob, table, off).value + 4, v.kids, []);
    hide Elements, RepresentsAll, Represents, ReadTag, SequenceAt;
  }
}
