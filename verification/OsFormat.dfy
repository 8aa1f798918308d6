/** The tagged format: tag words, item types and the size of one flat step. */
module OsFormat {
  import opened Wrappers
  import opened Words

  const TYPE_DICT := 0x01
  const TYPE_ARRAY := 0x02
  const TYPE_SET := 0x03
  const TYPE_NUMBER := 0x04
  const TYPE_SYMBOL := 0x08
  const TYPE_STRING := 0x09
  const TYPE_DATA := 0x0a
  const TYPE_BOOLEAN := 0x0b
  const TYPE_OBJECT := 0x0c

  const MAGIC: seq<byte> := [0xd3, 0x00, 0x00, 0x00]

  datatype Tag = Tag(ty: nat, operand: nat)

  /** Bit 31 is the end-of-collection flag and is dropped; bits 30-24 are the type. */
  function ReadTag(blob: seq<byte>, offset: nat): (r: Option<Tag>)
    ensures r.Some? <==> offset + 4 <= |blob|
    ensures r.Some? ==> r.value.operand < 0x100_0000
  {
    if offset + 4 > |blob| then None
    else
      var b0: int, b1: int, b2: int, high: int := blob[offset], blob[offset + 1], blob[offset + 2], blob[offset + 3];
      Some(Tag(if high >= 0x80 then high - 0x80 else high, b0 + 0x100 * b1 + 0x1_0000 * b2))
  }

  /** The same fields as shifts and masks of the little-endian word. */
  lemma TagOfWord(blob: seq<byte>, offset: nat)
    requires offset + 4 <= |blob|
    ensures ReadTag(blob, offset) == Some(Tag(Le32(blob, offset) / 0x100_0000 % 0x80, Le32(blob, offset) % 0x100_0000))
  {
  }

  predicate IsContainer(ty: nat) {
    ty == TYPE_DICT || ty == TYPE_ARRAY || ty == TYPE_SET
  }

  /** Items a container owes: a dictionary alternates keys and values. */
  function Owed(tag: Tag): nat {
    if tag.ty == TYPE_DICT then 2 * tag.operand
    else if IsContainer(tag.ty) then tag.operand
    else 0
  }

  function Padded(len: nat): nat {
    (len + 3) / 4 * 4
  }

  /** Size of the tag and its own payload; children follow as items of their own. */
  function ScalarStep(tag: Tag): (r: Option<nat>)
    ensures r.Some? ==> r.value >= 4
    ensures IsContainer(tag.ty) ==> r == Some(4)
    ensures tag.ty == TYPE_OBJECT ==> r.None?
  {
    if IsContainer(tag.ty) || tag.ty == TYPE_BOOLEAN then Some(4)
    else if tag.ty == TYPE_NUMBER then Some(12)
    else if tag.ty == TYPE_SYMBOL || tag.ty == TYPE_STRING || tag.ty == TYPE_DATA then
      Some(Padded(tag.operand) + 4)
    else None
  }
}
