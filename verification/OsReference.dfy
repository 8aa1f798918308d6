/**
 The simple decoder the flat one must refine: recursive descent that really does append
 every emitted object to a table (xnu's objsArray) and looks back-references up in it.
 */
module OsReference {
  import opened Wrappers
  import opened Words
  import opened OsFormat

  /** End offset and the object table after reading one or more items. */
  type Outcome = Option<(nat, seq<nat>)>

  /** Parse the item at `off`. With `check`, a back-reference must name an object already in `table`. */
  function Item(blob: seq<byte>, off: nat, table: seq<nat>, check: bool): (r: Outcome)
    ensures r.Some? ==> off + 4 <= r.value.0 <= |blob|
    ensures r.Some? ==> table <= r.value.1
    decreases |blob| - off, 0
  {
    var read := ReadTag(blob, off);
    if read.None? then None
    else
      var tag := read.value;
      if tag.ty == TYPE_OBJECT then
        if check && tag.operand >= |table| then None else Some((off + 4, table))
      else if IsContainer(tag.ty) then
        Items(blob, off + 4, Owed(tag), table + [off], check)
      else
        var step := ScalarStep(tag);
        if step.None? || off + step.value > |blob| then None
        else Some((off + step.value, table + [off]))
  }

  /** Parse `k` consecutive items. */
  function Items(blob: seq<byte>, off: nat, k: nat, table: seq<nat>, check: bool): (r: Outcome)
    ensures r.Some? && off <= |blob| ==> off <= r.value.0 <= |blob|
    ensures r.Some? ==> table <= r.value.1
    decreases |blob| - off, k
  {
    if k == 0 then Some((off, table))
    else
      var first := Item(blob, off, table, check);
      if first.None? then None
      else Items(blob, first.value.0, k - 1, first.value.1, check)
  }

  /** Reading a + b items is reading a and then b. */
  lemma {:induction false} ItemsAppend(blob: seq<byte>, off: nat, a: nat, b: nat, table: seq<nat>, check: bool)
    ensures Items(blob, off, a + b, table, check)
         == var first := Items(blob, off, a, table, check);
            if first.None? then None else Items(blob, first.value.0, b, first.value.1, check)
    decreases a
  {
    if a > 0 {
      var head := Item(blob, off, table, check);
      if head.Some? {
        ItemsAppend(blob, head.value.0, a - 1, b, head.value.1, check);
      }
    }
  }

  /** Reading the next owed item, when it is a container, trades it for its children. */
  lemma OwedCounter(blob: seq<byte>, off: nat, k: nat, table: seq<nat>, check: bool)
    requires k > 0
    requires ReadTag(blob, off).Some? && IsContainer(ReadTag(blob, off).value.ty)
    ensures Items(blob, off, k, table, check)
         == Items(blob, off + 4, k - 1 + Owed(ReadTag(blob, off).value), table + [off], check)
  {
    ItemsAppend(blob, off + 4, Owed(ReadTag(blob, off).value), k - 1, table + [off], check);
  }

  /** Skipping does not depend on what was emitted before: dropping the reference check keeps
      the end offset and emits the same objects. */
  lemma {:induction false} ItemUnchecked(blob: seq<byte>, off: nat, table: seq<nat>, other: seq<nat>)
    requires Item(blob, off, table, true).Some?
    ensures Item(blob, off, other, false).Some?
    ensures Item(blob, off, other, false).value.0 == Item(blob, off, table, true).value.0
    decreases |blob| - off, 0
  {
    var tag := ReadTag(blob, off).value;
    if IsContainer(tag.ty) {
      ItemsUnchecked(blob, off + 4, Owed(tag), table + [off], other + [off]);
    }
  }

  lemma {:induction false} ItemsUnchecked(blob: seq<byte>, off: nat, k: nat, table: seq<nat>, other: seq<nat>)
    requires Items(blob, off, k, table, true).Some?
    ensures Items(blob, off, k, other, false).Some?
    ensures Items(blob, off, k, other, false).value.0 == Items(blob, off, k, table, true).value.0
    decreases |blob| - off, k
  {
    if k > 0 {
      ItemUnchecked(blob, off, table, other);
      var first := Item(blob, off, table, true).value;
      ItemsUnchecked(blob, first.0, k - 1, first.1, Item(blob, off, other, false).value.1);
    }
  }

  /** First tag at or after `off` that is not a back-reference. */
  function NextObject(blob: seq<byte>, off: nat): nat
    decreases |blob| - off
  {
    var tag := ReadTag(blob, off);
    if tag.Some? && tag.value.ty == TYPE_OBJECT then NextObject(blob, off + 4) else off
  }

  /** `off` holds an object whose own bytes lie inside the blob. */
  predicate ObjectAt(blob: seq<byte>, off: nat) {
    && ReadTag(blob, off).Some?
    && ReadTag(blob, off).value.ty != TYPE_OBJECT
    && ScalarStep(ReadTag(blob, off).value).Some?
    && off + ScalarStep(ReadTag(blob, off).value).value <= |blob|
  }

  function AfterObject(blob: seq<byte>, off: nat): nat
    requires ObjectAt(blob, off)
  {
    off + ScalarStep(ReadTag(blob, off).value).value
  }

  /** Every entry is an object, and each is linked to the next. */
  ghost predicate InStreamOrder(blob: seq<byte>, table: seq<nat>) {
    && (forall i | 0 <= i < |table| :: ObjectAt(blob, table[i]))
    && forall i | 0 <= i < |table| - 1 :: Linked(blob, table, i)
  }

  /** Stepping over entry `i` and the references behind it reaches entry `i + 1`. */
  predicate Linked(blob: seq<byte>, table: seq<nat>, i: nat)
    requires i < |table| - 1 && ObjectAt(blob, table[i])
  {
    NextObject(blob, AfterObject(blob, table[i])) == table[i + 1]
  }

  /** A cursor that has just passed the last entry of the table (and perhaps some references). */
  ghost predicate CursorFollows(blob: seq<byte>, table: seq<nat>, cursor: nat) {
    && InStreamOrder(blob, table)
    && (forall i | 0 <= i < |table| :: AfterObject(blob, table[i]) <= cursor)
    && (table != [] ==> NextObject(blob, AfterObject(blob, table[|table| - 1])) == NextObject(blob, cursor))
  }

  /** Passing a reference keeps the cursor behind the same next object. */
  lemma FollowReference(blob: seq<byte>, table: seq<nat>, cursor: nat)
    requires CursorFollows(blob, table, cursor)
    requires ReadTag(blob, cursor).Some? && ReadTag(blob, cursor).value.ty == TYPE_OBJECT
    ensures CursorFollows(blob, table, cursor + 4)
  {
  }

  /** Passing an object appends it to the stream-order table. */
  lemma FollowObject(blob: seq<byte>, table: seq<nat>, cursor: nat)
    requires CursorFollows(blob, table, cursor) && ObjectAt(blob, cursor)
    ensures CursorFollows(blob, table + [cursor], AfterObject(blob, cursor))
  {
    var longer := table + [cursor];
    forall i | 0 <= i < |longer|
      ensures ObjectAt(blob, longer[i]) && AfterObject(blob, longer[i]) <= AfterObject(blob, cursor)
    {
      if i < |table| {
        assert longer[i] == table[i];
      }
    }
    forall i | 0 <= i < |longer| - 1
      ensures Linked(blob, longer, i)
    {
      if i < |table| - 1 {
        assert longer[i] == table[i] && longer[i + 1] == table[i + 1];
        assert Linked(blob, table, i);
      }
    }
  }

  lemma {:induction false} ItemFollows(blob: seq<byte>, off: nat, table: seq<nat>, check: bool)
    requires CursorFollows(blob, table, off) && Item(blob, off, table, check).Some?
    ensures CursorFollows(blob, Item(blob, off, table, check).value.1, Item(blob, off, table, check).value.0)
    decreases |blob| - off, 0
  {
    var tag := ReadTag(blob, off).value;
    if tag.ty == TYPE_OBJECT {
      FollowReference(blob, table, off);
    } else {
      FollowObject(blob, table, off);
      if IsContainer(tag.ty) {
        ItemsFollow(blob, off + 4, Owed(tag), table + [off], check);
      }
    }
  }

  /** Emit order is stream order: stepping over objects and skipping references lists the table. */
  lemma {:induction false} ItemsFollow(blob: seq<byte>, off: nat, k: nat, table: seq<nat>, check: bool)
    requires CursorFollows(blob, table, off) && Items(blob, off, k, table, check).Some?
    ensures CursorFollows(blob, Items(blob, off, k, table, check).value.1, Items(blob, off, k, table, check).value.0)
    decreases |blob| - off, k
  {
    if k > 0 {
      ItemFollows(blob, off, table, check);
      var first := Item(blob, off, table, check).value;
      ItemsFollow(blob, first.0, k - 1, first.1, check);
    }
  }

  /** The parse of a whole blob: the item just past the magic, with reference checking. */
  ghost predicate Accepted(blob: seq<byte>) {
    && 8 <= |blob| < U32_MAX - 16
    && blob[..4] == MAGIC
    && Item(blob, 4, [], true).Some?
  }

  /** The object table of an accepted blob. */
  ghost function Table(blob: seq<byte>): seq<nat>
    requires Accepted(blob)
  {
    Item(blob, 4, [], true).value.1
  }

  lemma TableInStreamOrder(blob: seq<byte>)
    requires Accepted(blob)
    ensures InStreamOrder(blob, Table(blob))
  {
    ItemFollows(blob, 4, [], true);
  }
}
