/**
 What a blob holds, read with the materialised object table: the answers the flat decoder's
 queries must give, for any offset a caller may pass.
 */
module OsContent {
  import opened Wrappers
  import opened Words
  import opened OsFormat
  import opened OsReference

  /** One hop: a back-reference stands for the table entry it names. */
  function Target(blob: seq<byte>, table: seq<nat>, off: nat): Option<nat> {
    var tag := ReadTag(blob, off);
    if tag.None? then None
    else if tag.value.ty != TYPE_OBJECT then Some(off)
    else if tag.value.operand < |table| then Some(table[tag.value.operand])
    else None
  }

  /** Bytes from `off` to the end of its subtree; a reference is its own tag only. */
  function Length(blob: seq<byte>, off: nat): (r: Option<nat>)
    ensures r.Some? ==> 4 <= r.value && off + r.value <= |blob|
  {
    var item := Item(blob, off, [], false);
    if item.None? then None else Some(item.value.0 - off)
  }

  /** Offset of the tag an item stands for, if it has type `ty`. */
  function Typed(blob: seq<byte>, table: seq<nat>, off: nat, ty: nat): (r: Option<nat>)
    ensures r.Some? ==> ReadTag(blob, r.value).Some? && ReadTag(blob, r.value).value.ty == ty
  {
    var target := Target(blob, table, off);
    if target.None? then None
    else
      var tag := ReadTag(blob, target.value);
      if tag.None? || tag.value.ty != ty then None else target
  }

  /** `len` payload bytes of the item at `target`. */
  function Payload(blob: seq<byte>, target: nat, len: nat): Option<seq<byte>> {
    if target + 4 + len > |blob| then None else Some(blob[target + 4..target + 4 + len])
  }

  function SymbolBytes(blob: seq<byte>, table: seq<nat>, off: nat): Option<seq<byte>> {
    var target := Typed(blob, table, off, TYPE_SYMBOL);
    if target.None? then None
    else
      var len := ReadTag(blob, target.value).value.operand;
      Payload(blob, target.value, if len > 0 then len - 1 else 0)
  }

  function StringBytes(blob: seq<byte>, table: seq<nat>, off: nat): Option<seq<byte>> {
    var target := Typed(blob, table, off, TYPE_STRING);
    if target.None? then None
    else Payload(blob, target.value, ReadTag(blob, target.value).value.operand)
  }

  function NumberAt(blob: seq<byte>, table: seq<nat>, off: nat): Option<u64> {
    var target := Typed(blob, table, off, TYPE_NUMBER);
    if target.None? || target.value + 12 > |blob| then None
    else
      var lo: int, hi: int := Le32(blob, target.value + 4), Le32(blob, target.value + 8);
      Some(hi * 0x1_0000_0000 + lo)
  }

  function BooleanAt(blob: seq<byte>, table: seq<nat>, off: nat): Option<bool> {
    var target := Typed(blob, table, off, TYPE_BOOLEAN);
    if target.None? then None else Some(ReadTag(blob, target.value).value.operand != 0)
  }

  /** Value of the first of `pairs` pairs, laid out from `cursor`, whose key is the symbol `key`. */
  function FindFrom(blob: seq<byte>, table: seq<nat>, cursor: nat, pairs: nat, key: seq<byte>): Option<nat>
    decreases pairs
  {
    if pairs == 0 then None
    else
      var keyLen := Length(blob, cursor);
      if keyLen.None? then None
      else
        var value := cursor + keyLen.value;
        var valueLen := Length(blob, value);
        if valueLen.None? then None
        else if SymbolBytes(blob, table, cursor) == Some(key) then Some(value)
        else FindFrom(blob, table, value + valueLen.value, pairs - 1, key)
  }

  function FindDict(blob: seq<byte>, table: seq<nat>, off: nat, key: seq<byte>): Option<nat> {
    var target := Typed(blob, table, off, TYPE_DICT);
    if target.None? then None
    else FindFrom(blob, table, target.value + 4, ReadTag(blob, target.value).value.operand, key)
  }

  /** Offset of the array or set an item stands for. */
  function SequenceAt(blob: seq<byte>, table: seq<nat>, off: nat): (r: Option<nat>)
    ensures r.Some? ==> ReadTag(blob, r.value).Some?
  {
    var target := Target(blob, table, off);
    if target.None? then None
    else
      var tag := ReadTag(blob, target.value);
      if tag.None? || (tag.value.ty != TYPE_ARRAY && tag.value.ty != TYPE_SET) then None else target
  }

  /** `seen`, then the offsets of the next elements, up to `k`, that can be measured. */
  function Elements(blob: seq<byte>, cursor: nat, k: nat, seen: seq<nat>): (r: seq<nat>)
    ensures |seen| <= |r| <= |seen| + k
    decreases k
  {
    if k == 0 then seen
    else
      var len := Length(blob, cursor);
      if len.None? then seen else Elements(blob, cursor + len.value, k - 1, seen + [cursor])
  }
}
