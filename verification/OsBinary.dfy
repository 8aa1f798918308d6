/**
 The decoder itself: a flat walk with a counter of items still owed, a thinned checkpoint
 table in place of the object array, and queries that scan from the nearest checkpoint.
 */
module OsBinary {
  import opened Wrappers
  import opened Words
  import opened OsFormat
  import opened OsReference
  import opened OsContent
  import opened OsCheckpoints

  /** What the flat walk owes: reading `remaining` more items from here is still reading the
      one item at `start`, and each owed item is paid for by bytes already passed. */
  ghost predicate Owing(blob: seq<byte>, start: nat, check: bool, goal: Outcome,
                        cursor: nat, remaining: nat, table: seq<nat>) {
    && start <= cursor
    && (cursor == start || cursor <= |blob|)
    && remaining <= 1 + 0x80_0000 * (cursor - start)
    && 4 * |table| <= cursor - start
    && Items(blob, cursor, remaining, table, check) == goal
  }

  lemma OwingStart(blob: seq<byte>, start: nat, check: bool)
    ensures Owing(blob, start, check, Item(blob, start, [], check), start, 1, [])
  {
    var item := Item(blob, start, [], check);
    if item.Some? {
      assert Items(blob, item.value.0, 0, item.value.1, check) == item;
    }
  }

  lemma OwingReference(blob: seq<byte>, start: nat, check: bool, goal: Outcome,
    cursor: nat, remaining: nat, table: seq<nat>)
    requires Owing(blob, start, check, goal, cursor, remaining, table) && remaining > 0
    requires ReadTag(blob, cursor).Some? && ReadTag(blob, cursor).value.ty == TYPE_OBJECT
    requires check ==> ReadTag(blob, cursor).value.operand < |table|
    ensures Owing(blob, start, check, goal, cursor + 4, remaining - 1, table)
  {
    assert Item(blob, cursor, table, check) == Some((cursor + 4, table));
  }

  lemma OwingObject(blob: seq<byte>, start: nat, check: bool, goal: Outcome,
    cursor: nat, remaining: nat, table: seq<nat>)
    requires Owing(blob, start, check, goal, cursor, remaining, table) && remaining > 0
    requires ObjectAt(blob, cursor)
    ensures Owing(blob, start, check, goal, AfterObject(blob, cursor),
                  remaining - 1 + Owed(ReadTag(blob, cursor).value), table + [cursor])
  {
    var tag := ReadTag(blob, cursor).value;
    if IsContainer(tag.ty) {
      OwedCounter(blob, cursor, remaining, table, check);
    } else {
      assert Item(blob, cursor, table, check) == Some((AfterObject(blob, cursor), table + [cursor]));
    }
  }

  lemma OwingStuck(blob: seq<byte>, start: nat, check: bool, goal: Outcome,
    cursor: nat, remaining: nat, table: seq<nat>)
    requires Owing(blob, start, check, goal, cursor, remaining, table) && remaining > 0
    requires var tag := ReadTag(blob, cursor);
      if tag.Some? && tag.value.ty == TYPE_OBJECT then check && |table| <= tag.value.operand
      else !ObjectAt(blob, cursor)
    ensures goal.None?
  {
    assert Item(blob, cursor, table, check).None?;
  }

  /** Same verdict, same end offset, and the count is the number of objects emitted. */
  ghost predicate Agrees(walked: Option<(u32, u32)>, reference: Outcome) {
    if reference.None? then walked.None?
    else walked.Some? && walked.value.0 == reference.value.0 && walked.value.1 == |reference.value.1|
  }

  lemma OwingDone(blob: seq<byte>, start: nat, check: bool, goal: Outcome, cursor: nat, table: seq<nat>)
    requires Owing(blob, start, check, goal, cursor, 0, table)
    ensures goal == Some((cursor, table))
  {
  }

  /** Walk the item at `start` with all its children; end offset and emitted count.
      With `ck`, record checkpoints and check references against emit order. The u32 and u64
      types carry the proof that no cursor or counter addition wraps. */
  method Walk(blob: seq<byte>, start: u32, ck: Ckpts?) returns (r: Option<(u32, u32)>)
    requires |blob| < U32_MAX - 16
    requires ck != null ==> ck.Indexes([])
    modifies if ck == null then {} else {ck, ck.buf}
    ensures ck != null ==> ck.buf == old(ck.buf)
    ensures Agrees(r, Item(blob, start, [], ck != null))
    ensures r.Some? && ck != null ==> ck.Indexes(Item(blob, start, [], true).value.1)
  {
    var check := ck != null;
    var cursor: u32 := start;
    var remaining: u64 := 1;
    var count: u32 := 0;
    ghost var table: seq<nat> := [];
    ghost var goal := Item(blob, start, [], check);
    OwingStart(blob, start, check);
    hide Item, Items, Samples;
    while remaining > 0
      invariant |table| == count
      invariant Owing(blob, start, check, goal, cursor, remaining, table)
      invariant ck != null ==> ck.buf == old(ck.buf) && ck.Indexes(table)
      decreases |blob| - cursor
    {
      var read := ReadTag(blob, cursor);
      if read.None? {
        OwingStuck(blob, start, check, goal, cursor, remaining, table);
        return None;
      }
      var tag := read.value;
      if tag.ty == TYPE_OBJECT {
        if check && tag.operand >= count {
          OwingStuck(blob, start, check, goal, cursor, remaining, table);
          return None;
        }
        OwingReference(blob, start, check, goal, cursor, remaining, table);
        remaining := remaining - 1;
        cursor := cursor + 4;
        continue;
      }
      var step := ScalarStep(tag);
      if step.None? || cursor + step.value > |blob| {
        OwingStuck(blob, start, check, goal, cursor, remaining, table);
        return None;
      }
      OwingObject(blob, start, check, goal, cursor, remaining, table);
      remaining := remaining - 1 + Owed(tag);
      if ck != null {
        ck.Record(count, cursor, table);
      }
      table := table + [cursor];
      count := count + 1;
      cursor := cursor + step.value;
    }
    OwingDone(blob, start, check, goal, cursor, table);
    return Some((cursor, count));
  }

  /** Scanning forward from `offset` next meets table entry `i`. */
  ghost predicate Scanning(blob: seq<byte>, table: seq<nat>, i: nat, offset: nat) {
    && i < |table|
    && offset <= |blob|
    && NextObject(blob, offset) == table[i]
    && ObjectAt(blob, table[i])
  }

  lemma ScanTag(blob: seq<byte>, table: seq<nat>, i: nat, offset: nat)
    requires Scanning(blob, table, i, offset)
    ensures ReadTag(blob, offset).Some?
    ensures ReadTag(blob, offset).value.ty == TYPE_OBJECT ==> Scanning(blob, table, i, offset + 4)
    ensures ReadTag(blob, offset).value.ty != TYPE_OBJECT ==> offset == table[i]
  {
  }

  lemma ScanObject(blob: seq<byte>, table: seq<nat>, i: nat)
    requires InStreamOrder(blob, table) && i + 1 < |table|
    ensures ObjectAt(blob, table[i]) && Scanning(blob, table, i + 1, AfterObject(blob, table[i]))
  {
    assert ObjectAt(blob, table[i + 1]);
    assert Linked(blob, table, i);
  }

  lemma ScanStart(blob: seq<byte>, entries: seq<nat>, stride: nat, table: seq<nat>, idx: nat, q: nat)
    requires InStreamOrder(blob, table) && Samples(entries, stride, table) && idx < |table|
    requires Times(q, stride) <= idx
    ensures q < |entries| && Scanning(blob, table, Times(q, stride), entries[q])
  {
    NearestSample(entries, stride, table, idx, q);
    assert SampleAt(entries, stride, table, q);
    assert ObjectAt(blob, table[Times(q, stride)]);
  }

  /** A parsed blob. The borrow keeps it from changing, so it is a value. */
  datatype OsBinary = OsBinary(blob: seq<byte>, ckpts: seq<u32>, stride: u64, count: u32) {

    ghost predicate Valid() {
      && Accepted(blob)
      && count == |Table(blob)|
      && Samples(ckpts, stride, Table(blob))
    }

    /** Accepts exactly the blobs the recursive reference accepts, whatever the buffer size. */
    static method Parse(blob: seq<byte>, buf: array<u32>) returns (r: Option<OsBinary>)
      modifies buf
      ensures r.Some? <==> Accepted(blob) && buf.Length > 0
      ensures r.Some? ==> r.value.Valid() && r.value.blob == blob
    {
      if |blob| < 8 || blob[..4] != MAGIC || buf.Length == 0 {
        return None;
      }
      if |blob| >= U32_MAX - 16 {
        return None;
      }
      var ck := new Ckpts(buf);
      var walked := Walk(blob, 4, ck);
      if walked.None? {
        return None;
      }
      return Some(OsBinary(blob, buf[..ck.n], ck.stride, walked.value.1));
    }

    /** An accepted blob always has a top-level item. */
    method Root() returns (r: Option<u32>)
      requires Valid()
      ensures r == Some(4)
    {
      assert Table(blob) != [];
      r := if count == 0 then None else Some(4);
    }

    /** The nearest checkpoint at or below object `idx`. */
    method NearestCheckpoint(idx: u32) returns (i: u32, offset: u32)
      requires Valid() && idx < count
      ensures i <= idx && Scanning(blob, Table(blob), i, offset)
    {
      TableInStreamOrder(blob);
      var ck := idx / stride;
      NearestMultiple(idx, stride);
      TimesIsProduct(ck, stride);
      ScanStart(blob, ckpts, stride, Table(blob), idx, ck);
      offset := ckpts[ck];
      i := ck * stride;
    }

    /** Offset of object `idx`: the object table's own entry. */
    method NthObject(idx: u32) returns (r: Option<u32>)
      requires Valid()
      ensures r == if idx < |Table(blob)| then Some(Table(blob)[idx]) else None
    {
      if idx >= count {
        return None;
      }
      ghost var table := Table(blob);
      TableInStreamOrder(blob);
      var i: u32, offset: u32 := NearestCheckpoint(idx);
      hide NextObject, Linked, Item;
      while true
        invariant i <= idx
        invariant Scanning(blob, table, i, offset)
        decreases idx - i, |blob| - offset
      {
        ScanTag(blob, table, i, offset);
        var tag := ReadTag(blob, offset).value;
        if tag.ty == TYPE_OBJECT {
          offset := offset + 4;
          continue;
        }
        if i == idx {
          return Some(offset);
        }
        ScanObject(blob, table, i);
        i := i + 1;
        offset := offset + ScalarStep(tag).value;
      }
    }

    method Resolve(offset: u32) returns (r: Option<u32>)
      requires Valid()
      ensures r == Target(blob, Table(blob), offset)
    {
      var tag := ReadTag(blob, offset);
      if tag.None? {
        return None;
      }
      if tag.value.ty == TYPE_OBJECT {
        r := NthObject(tag.value.operand);
      } else {
        r := Some(offset);
      }
    }

    method ItemLen(offset: u32) returns (r: Option<u32>)
      requires Valid()
      ensures r == Length(blob, offset)
    {
      var tag := ReadTag(blob, offset);
      if tag.None? {
        return None;
      }
      if tag.value.ty == TYPE_OBJECT {
        return Some(4);
      }
      var walked := Walk(blob, offset, null);
      r := if walked.None? then None else Some(walked.value.0 - offset);
    }

    method SymbolAt(offset: u32) returns (r: Option<seq<byte>>)
      requires Valid()
      ensures r == SymbolBytes(blob, Table(blob), offset)
    {
      var target := Resolve(offset);
      if target.None? {
        return None;
      }
      var tag := ReadTag(blob, target.value);
      if tag.None? || tag.value.ty != TYPE_SYMBOL {
        return None;
      }
      var len := tag.value.operand;
      var trimmed := if len > 0 then len - 1 else 0;
      var o := target.value + 4;
      r := if o + trimmed > |blob| then None else Some(blob[o..o + trimmed]);
    }

    method AsString(item: u32) returns (r: Option<seq<byte>>)
      requires Valid()
      ensures r == StringBytes(blob, Table(blob), item)
    {
      var target := Resolve(item);
      if target.None? {
        return None;
      }
      var tag := ReadTag(blob, target.value);
      if tag.None? || tag.value.ty != TYPE_STRING {
        return None;
      }
      var len := tag.value.operand;
      var o := target.value + 4;
      r := if o + len > |blob| then None else Some(blob[o..o + len]);
    }

    method AsNumber(item: u32) returns (r: Option<u64>)
      requires Valid()
      ensures r == NumberAt(blob, Table(blob), item)
    {
      var target := Resolve(item);
      if target.None? {
        return None;
      }
      var tag := ReadTag(blob, target.value);
      if tag.None? || tag.value.ty != TYPE_NUMBER {
        return None;
      }
      var o := target.value + 4;
      if o + 8 > |blob| {
        return None;
      }
      var lo: int, hi: int := Le32(blob, o), Le32(blob, o + 4);
      r := Some(hi * 0x1_0000_0000 + lo);
    }

    method AsBool(item: u32) returns (r: Option<bool>)
      requires Valid()
      ensures r == BooleanAt(blob, Table(blob), item)
    {
      var target := Resolve(item);
      if target.None? {
        return None;
      }
      var tag := ReadTag(blob, target.value);
      if tag.None? || tag.value.ty != TYPE_BOOLEAN {
        return None;
      }
      r := Some(tag.value.operand != 0);
    }

    method FindDictItem(dict: u32, key: seq<byte>) returns (r: Option<u32>)
      requires Valid()
      ensures r == FindDict(blob, Table(blob), dict, key)
    {
      hide Length, Item;
      var target := Resolve(dict);
      if target.None? {
        return None;
      }
      var tag := ReadTag(blob, target.value);
      if tag.None? || tag.value.ty != TYPE_DICT {
        return None;
      }
      var cursor: u32 := target.value + 4;
      var pairs := tag.value.operand;
      var i := 0;
      while i < pairs
        invariant 0 <= i <= pairs
        invariant cursor <= |blob|
        invariant FindFrom(blob, Table(blob), cursor, pairs - i, key) == FindDict(blob, Table(blob), dict, key)
      {
        var keyOff := cursor;
        var keyLen := ItemLen(keyOff);
        if keyLen.None? {
          return None;
        }
        var valueOff: u32 := cursor + keyLen.value;
        var valueLen := ItemLen(valueOff);
        if valueLen.None? {
          return None;
        }
        cursor := valueOff + valueLen.value;
        var symbol := SymbolAt(keyOff);
        if symbol == Some(key) {
          return Some(valueOff);
        }
        i := i + 1;
      }
      return None;
    }

    /** `visited` lists the items handed to the callback, in order. */
    method ForEachArray(arr: u32) returns (ok: bool, visited: seq<u32>)
      requires Valid()
      ensures var target := SequenceAt(blob, Table(blob), arr);
              if target.None? then !ok && visited == []
              else (visited == Elements(blob, target.value + 4, ReadTag(blob, target.value).value.operand, [])
                    && (ok <==> |visited| == ReadTag(blob, target.value).value.operand))
    {
      visited := [];
      var target := Resolve(arr);
      if target.None? {
        return false, visited;
      }
      var tag := ReadTag(blob, target.value);
      if tag.None? || (tag.value.ty != TYPE_ARRAY && tag.value.ty != TYPE_SET) {
        return false, visited;
      }
      ok, visited := VisitElements(target.value + 4, tag.value.operand);
    }

    /** The loop of `ForEachArray`. */
    method VisitElements(start: u32, n: nat) returns (ok: bool, visited: seq<u32>)
      requires Valid() && start <= |blob|
      ensures visited == Elements(blob, start, n, [])
      ensures ok <==> |visited| == n
    {
      hide Length, Item;
      visited := [];
      var cursor: u32 := start;
      var i := 0;
      while i < n
        invariant 0 <= i == |visited| <= n
        invariant cursor <= |blob|
        invariant Elements(blob, start, n, []) == Elements(blob, cursor, n - i, visited)
      {
        var itemLen := ItemLen(cursor);
        if itemLen.None? {
          return false, visited;
        }
        visited := visited + [cursor];
        cursor := cursor + itemLen.value;
        i := i + 1;
      }
      return true, visited;
    }
  }
}
