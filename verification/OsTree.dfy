/** Items inside an accepted blob: where they are, what they resolve to and how long they are. */
module OsTree {
  import opened Wrappers
  import opened Words
  import opened OsFormat
  import opened OsReference
  import opened OsContent

  /** Reading `k` items from `off` reads the tag of an item at `s`, at whatever depth. */
  ghost predicate Reads(blob: seq<byte>, off: nat, k: nat, table: seq<nat>, s: nat)
    decreases |blob| - off, k
  {
    var tag := ReadTag(blob, off);
    && k > 0
    && tag.Some?
    && (|| s == off
        || (IsContainer(tag.value.ty) && Reads(blob, off + 4, Owed(tag.value), table + [off], s))
        || (var first := Item(blob, off, table, true);
            first.Some? && Reads(blob, first.value.0, k - 1, first.value.1, s)))
  }

  /** An item anywhere in the tree of an accepted blob. */
  ghost predicate InTree(blob: seq<byte>, s: nat)
    requires Accepted(blob)
  {
    Reads(blob, 4, 1, [], s)
  }

  ghost predicate AllBelow(table: seq<nat>, off: nat) {
    forall i | 0 <= i < |table| :: table[i] < off
  }

  lemma {:induction false} ItemBelow(blob: seq<byte>, off: nat, table: seq<nat>)
    requires AllBelow(table, off) && Item(blob, off, table, true).Some?
    ensures AllBelow(Item(blob, off, table, true).value.1, Item(blob, off, table, true).value.0)
    decreases |blob| - off, 0
  {
    var tag := ReadTag(blob, off).value;
    if IsContainer(tag.ty) {
      ItemsBelow(blob, off + 4, Owed(tag), table + [off]);
    }
  }

  lemma {:induction false} ItemsBelow(blob: seq<byte>, off: nat, k: nat, table: seq<nat>)
    requires AllBelow(table, off) && Items(blob, off, k, table, true).Some?
    ensures AllBelow(Items(blob, off, k, table, true).value.1, Items(blob, off, k, table, true).value.0)
    decreases |blob| - off, k
  {
    if k > 0 {
      ItemBelow(blob, off, table);
      var first := Item(blob, off, table, true).value;
      ItemsBelow(blob, first.0, k - 1, first.1);
    }
  }

  /** Each item read was itself parsed, against the objects emitted before it. */
  lemma {:induction false} ReadsItem(blob: seq<byte>, off: nat, k: nat, table: seq<nat>,
      s: nat) returns (seen: seq<nat>)
    requires AllBelow(table, off) && Items(blob, off, k, table, true).Some?
    requires Reads(blob, off, k, table, s)
    ensures Item(blob, s, seen, true).Some?
    ensures seen <= Items(blob, off, k, table, true).value.1
    ensures AllBelow(seen, s)
    decreases |blob| - off, k
  {
    var tag := ReadTag(blob, off).value;
    var first := Item(blob, off, table, true).value;
    if s == off {
      seen := table;
    } else if IsContainer(tag.ty) && Reads(blob, off + 4, Owed(tag), table + [off], s) {
      seen := ReadsItem(blob, off + 4, Owed(tag), table + [off], s);
    } else {
      ItemBelow(blob, off, table);
      seen := ReadsItem(blob, first.0, k - 1, first.1, s);
    }
  }

  /** After `parse`, every item of the tree resolves in one hop to an object, and a back-reference
      always points strictly backward. */
  lemma InTreeResolves(blob: seq<byte>, s: nat)
    requires Accepted(blob) && InTree(blob, s)
    ensures Target(blob, Table(blob), s).Some?
    ensures var target := Target(blob, Table(blob), s).value;
      && ObjectAt(blob, target)
      && (if ReadTag(blob, s).value.ty == TYPE_OBJECT then target < s else target == s)
  {
    assert Items(blob, 4, 1, [], true) == Item(blob, 4, [], true) by {
      var item := Item(blob, 4, [], true).value;
      assert Items(blob, item.0, 0, item.1, true) == Some(item);
    }
    var seen := ReadsItem(blob, 4, 1, [], s);
    TableInStreamOrder(blob);
    var tag := ReadTag(blob, s).value;
    if tag.ty == TYPE_OBJECT {
      assert Table(blob)[tag.operand] == seen[tag.operand];
    }
  }

  /** The length the flat skip reports is the end of the item's own subtree in the checked parse. */
  lemma InTreeLength(blob: seq<byte>, s: nat) returns (seen: seq<nat>)
    requires Accepted(blob) && InTree(blob, s)
    ensures seen <= Table(blob) && AllBelow(seen, s)
    ensures Item(blob, s, seen, true).Some?
    ensures Length(blob, s) == Some(Item(blob, s, seen, true).value.0 - s)
  {
    assert Items(blob, 4, 1, [], true) == Item(blob, 4, [], true) by {
      var item := Item(blob, 4, [], true).value;
      assert Items(blob, item.0, 0, item.1, true) == Some(item);
    }
    seen := ReadsItem(blob, 4, 1, [], s);
    ItemUnchecked(blob, s, seen, []);
  }
}
