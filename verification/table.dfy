/** Tables: sorted blocks behind an index of separating keys. */
module TableFiles {
  import opened Common
  import opened InternalKeys
  import Merger

  /** Data blocks and, for each, the key under which the index lists it. */
  datatype Table = Table(blocks: seq<seq<Entry>>, index: seq<InternalKey>)

  /** Where block i begins in the concatenation. */
  function Offset(blocks: seq<seq<Entry>>, i: nat): nat
    requires i <= |blocks|
  {
    |Concat(blocks[..i])|
  }

  lemma {:induction false} ConcatSnoc(blocks: seq<seq<Entry>>, last: seq<Entry>)
    ensures Concat(blocks + [last]) == Concat(blocks) + last
    decreases |blocks|
  {
    if blocks == [] {
      assert blocks + [last] == [last] && Concat([last][1..]) == [];
    } else {
      assert (blocks + [last])[1..] == blocks[1..] + [last];
      ConcatSnoc(blocks[1..], last);
    }
  }

  lemma {:induction false} ConcatSplit(blocks: seq<seq<Entry>>, i: nat)
    requires i <= |blocks|
    ensures Concat(blocks) == Concat(blocks[..i]) + Concat(blocks[i..])
    decreases |blocks|
  {
    if i == 0 {
      assert blocks[0..] == blocks && Concat(blocks[..0]) == [];
    } else {
      ConcatSplit(blocks[1..], i - 1);
      assert blocks[..i][1..] == blocks[1..][..i - 1] && blocks[1..][i - 1..] == blocks[i..];
    }
  }

  /** Entry p of block i in the concatenation. */
  lemma {:induction false} EntryAt(blocks: seq<seq<Entry>>, i: nat, p: nat)
    requires i < |blocks| && p < |blocks[i]|
    ensures Offset(blocks, i + 1) == Offset(blocks, i) + |blocks[i]| <= |Concat(blocks)|
    ensures Concat(blocks)[Offset(blocks, i) + p] == blocks[i][p]
  {
    OffsetNext(blocks, i);
    ConcatSplit(blocks, i);
    ConcatSplit(blocks, i + 1);
    assert Concat(blocks[i..]) == blocks[i] + Concat(blocks[i..][1..]);
  }

  lemma {:induction false} OffsetNext(blocks: seq<seq<Entry>>, i: nat)
    requires i < |blocks|
    ensures Offset(blocks, i + 1) == Offset(blocks, i) + |blocks[i]|
  {
    assert blocks[..i + 1] == blocks[..i] + [blocks[i]];
    ConcatSnoc(blocks[..i], blocks[i]);
  }

  lemma {:induction false} OffsetGrows(blocks: seq<seq<Entry>>, i: nat, j: nat)
    requires i <= j <= |blocks|
    ensures Offset(blocks, i) <= Offset(blocks, j)
    decreases j
  {
    if i < j {
      OffsetGrows(blocks, i, j - 1);
      OffsetNext(blocks, j - 1);
    }
  }

  /** Every place of the concatenation is a place in some block. */
  lemma {:induction false} FindBlock(blocks: seq<seq<Entry>>, a: nat) returns (i: nat, p: nat)
    requires a < |Concat(blocks)|
    ensures i < |blocks| && p < |blocks[i]| && a == Offset(blocks, i) + p
  {
    i := 0;
    assert Concat(blocks[..0]) == [];
    while i < |blocks| && Offset(blocks, i + 1) <= a
      invariant i <= |blocks| && Offset(blocks, i) <= a
    {
      i := i + 1;
    }
    assert blocks[..|blocks|] == blocks;
    OffsetNext(blocks, i);
    p := a - Offset(blocks, i);
  }

  // ---------- index keys ----------

  /** What FindShortestSeparator may make of an index key. */
  predicate IsSeparator(start: InternalKey, limit: InternalKey, separator: InternalKey) {
    separator == start || start.user < separator.user < limit.user
  }

  function LastKey(block: seq<Entry>): InternalKey
    requires block != []
  {
    block[|block| - 1].key
  }

  ghost predicate TableOk(t: Table) {
    && |t.index| == |t.blocks|
    && SortedRun(Concat(t.blocks))
    && (forall i | 0 <= i < |t.blocks| :: t.blocks[i] != [])
    && (forall i | 0 <= i < |t.blocks| - 1 :: IsSeparator(LastKey(t.blocks[i]), t.blocks[i + 1][0].key, t.index[i]))
    && (t.blocks != [] ==> !Less(t.index[|t.blocks| - 1], LastKey(t.blocks[|t.blocks| - 1])))
  }

  /** Entries of an earlier block come before those of a later one. */
  lemma {:induction false} BlocksInOrder(blocks: seq<seq<Entry>>, i: nat, p: nat, j: nat, q: nat)
    requires SortedRun(Concat(blocks)) && i < |blocks| && j < |blocks| && p < |blocks[i]| && q < |blocks[j]|
    requires i < j || (i == j && p < q)
    ensures Less(blocks[i][p].key, blocks[j][q].key)
  {
    EntryAt(blocks, i, p);
    EntryAt(blocks, j, q);
    if i < j {
      OffsetGrows(blocks, i + 1, j);
    }
  }

  /** Every key of a block is at most its index key, and every later key comes after it. */
  lemma {:induction false} IndexBounds(t: Table, i: nat, j: nat, q: nat)
    requires TableOk(t) && i < |t.blocks| && j < |t.blocks| && q < |t.blocks[j]|
    ensures j <= i ==> !Less(t.index[i], t.blocks[j][q].key)
    ensures i < j ==> Less(t.index[i], t.blocks[j][q].key)
  {
    var last := |t.blocks[i]| - 1;
    if j <= i {
      if j < i || q < last {
        BlocksInOrder(t.blocks, j, q, i, last);
      }
    } else {
      BlocksInOrder(t.blocks, i, last, i + 1, 0);
      if i + 1 < j || q > 0 {
        BlocksInOrder(t.blocks, i + 1, 0, j, q);
      }
    }
  }

  // ---------- building ----------

  /** Index key i separates block i from the first key behind it, in the unwritten block if need be. */
  predicate Separated(blocks: seq<seq<Entry>>, dataBlock: seq<Entry>, i: nat, key: InternalKey)
    requires i < |blocks|
  {
    var next := if i + 1 < |blocks| then blocks[i + 1] else dataBlock;
    blocks[i] != [] && next != [] && IsSeparator(LastKey(blocks[i]), next[0].key, key)
  }

  predicate Indexed(blocks: seq<seq<Entry>>, index: seq<InternalKey>, dataBlock: seq<Entry>) {
    |index| <= |blocks| && forall i | 0 <= i < |index| :: Separated(blocks, dataBlock, i, index[i])
  }

  lemma {:induction false} PendingIndexed(
      blocks: seq<seq<Entry>>, index: seq<InternalKey>, entry: Entry, separator: InternalKey)
    requires Indexed(blocks, index, []) && |index| == |blocks| - 1
    requires blocks[|blocks| - 1] != []
    requires IsSeparator(LastKey(blocks[|blocks| - 1]), entry.key, separator)
    ensures Indexed(blocks, index + [separator], [entry])
  {
    forall i | 0 <= i < |index| ensures Separated(blocks, [entry], i, index[i]) {
      assert Separated(blocks, [], i, index[i]);
    }
  }

  lemma {:induction false} LongerBlockIndexed(
      blocks: seq<seq<Entry>>, index: seq<InternalKey>, dataBlock: seq<Entry>, entry: Entry)
    requires Indexed(blocks, index, dataBlock)
    ensures Indexed(blocks, index, dataBlock + [entry])
  {
    forall i | 0 <= i < |index| ensures Separated(blocks, dataBlock + [entry], i, index[i]) {
      assert Separated(blocks, dataBlock, i, index[i]);
    }
  }

  lemma {:induction false} WrittenBlockIndexed(blocks: seq<seq<Entry>>, index: seq<InternalKey>, dataBlock: seq<Entry>)
    requires Indexed(blocks, index, dataBlock)
    ensures Indexed(blocks + [dataBlock], index, [])
  {
    forall i | 0 <= i < |index| ensures Separated(blocks + [dataBlock], [], i, index[i]) {
      assert Separated(blocks, dataBlock, i, index[i]);
    }
  }

  lemma {:induction false} FinishedIsTable(blocks: seq<seq<Entry>>, index: seq<InternalKey>, successor: InternalKey)
    requires SortedRun(Concat(blocks)) && blocks != [] && |index| == |blocks| - 1
    requires Indexed(blocks, index, []) && forall i | 0 <= i < |blocks| :: blocks[i] != []
    requires !Less(successor, LastKey(blocks[|blocks| - 1]))
    ensures TableOk(Table(blocks, index + [successor]))
  {
    forall i | 0 <= i < |index| ensures IsSeparator(LastKey(blocks[i]), blocks[i + 1][0].key, index[i]) {
      assert Separated(blocks, [], i, index[i]);
    }
  }

  lemma {:induction false} EmptyTable(index: seq<InternalKey>)
    ensures Concat<Entry>([]) == [] && (index == [] ==> TableOk(Table([], index)))
  {
  }

  /** What the comparator makes of index keys, and when a block has reached its size. */
  datatype TableOptions = TableOptions(
    separator: (InternalKey, InternalKey) -> InternalKey, successor: InternalKey -> InternalKey, full: seq<Entry> -> bool)

  /** The comparator keeps to what FindShortestSeparator and FindShortSuccessor promise. */
  ghost predicate OptionsOk(o: TableOptions) {
    && (forall a, b | Less(a, b) :: IsSeparator(a, b, o.separator(a, b)))
    && (forall a :: !Less(o.successor(a), a))
  }

  lemma {:induction false} SeparatorHolds(o: TableOptions, a: InternalKey, b: InternalKey)
    requires OptionsOk(o) && Less(a, b)
    ensures IsSeparator(a, b, o.separator(a, b))
  {
  }

  class TableBuilder {
    const options: TableOptions
    var blocks: seq<seq<Entry>>
    var index: seq<InternalKey>
    var dataBlock: seq<Entry>
    var lastKey: InternalKey
    var numEntries: nat
    /** The index entry of the last block waits for the first key of the next. */
    var pendingIndexEntry: bool
    var closed: bool
    /** Everything added so far. */
    ghost var added: seq<Entry>

    ghost predicate Valid()
      reads this
    {
      && OptionsOk(options)
      && added == Concat(blocks) + dataBlock && SortedRun(added) && numEntries == |added|
      && (numEntries > 0 ==> lastKey == LastKey(added))
      && (if pendingIndexEntry then dataBlock == [] && blocks != [] && |index| == |blocks| - 1
          else |index| == |blocks| && (blocks != [] ==> dataBlock != []))
      && (forall i | 0 <= i < |blocks| :: blocks[i] != [])
      && Indexed(blocks, index, dataBlock)
    }

    constructor (options: TableOptions)
      requires OptionsOk(options)
      ensures Valid() && added == [] && !closed && this.options == options
    {
      this.options := options;
      blocks, index, dataBlock, added := [], [], [], [];
      lastKey := InternalKey(0.0, 0, TypeDeletion);
      numEntries, pendingIndexEntry, closed := 0, false, false;
    }

    lemma {:induction false} LastIsLast()
      requires Valid()
      ensures added == [] <==> blocks == [] && dataBlock == []
      ensures dataBlock != [] ==> lastKey == LastKey(dataBlock)
      ensures dataBlock == [] && blocks != [] ==> lastKey == LastKey(blocks[|blocks| - 1])
    {
      hide SortedRun, Indexed;
      if blocks != [] {
        var n := |blocks| - 1;
        assert blocks == blocks[..n] + [blocks[n]];
        ConcatSnoc(blocks[..n], blocks[n]);
      }
    }

    /** Add an entry behind all others.  Only now the previous block gets its index entry: the key that separates it from
        this one. */
    method Add(entry: Entry)
      requires Valid() && !closed
      requires numEntries > 0 ==> Less(lastKey, entry.key)
      modifies this
      ensures Valid() && !closed && added == old(added) + [entry]
      ensures index == old(index) + if old(pendingIndexEntry) then [options.separator(old(lastKey), entry.key)] else []
      ensures blocks == old(blocks) + if options.full(old(dataBlock) + [entry]) then [old(dataBlock) + [entry]] else []
    {
      hide SortedRun, Concat, Less, Indexed, LastKey, OptionsOk, IsSeparator;
      LastIsLast();
      LongerRun(added, entry);
      if pendingIndexEntry {
        var separator := options.separator(lastKey, entry.key);
        SeparatorHolds(options, lastKey, entry.key);
        PendingIndexed(blocks, index, entry, separator);
        index := index + [separator];
        pendingIndexEntry := false;
        assert dataBlock + [entry] == [entry];
      } else {
        LongerBlockIndexed(blocks, index, dataBlock, entry);
      }
      lastKey := entry.key;
      numEntries := numEntries + 1;
      assert Concat(blocks) + dataBlock + [entry] == Concat(blocks) + (dataBlock + [entry]);
      dataBlock := dataBlock + [entry];
      added := added + [entry];
      if options.full(dataBlock) {
        Flush();
      }
    }

    /** Write the data block; its index entry has to wait. */
    method Flush()
      requires Valid() && !closed
      modifies this`blocks, this`dataBlock, this`pendingIndexEntry
      ensures Valid() && dataBlock == [] && (added != [] ==> pendingIndexEntry)
      ensures blocks == old(blocks) + if old(dataBlock) == [] then [] else [old(dataBlock)]
    {
      hide SortedRun, Concat, Indexed;
      LastIsLast();
      if dataBlock == [] {
        return;
      }
      ConcatSnoc(blocks, dataBlock);
      WrittenBlockIndexed(blocks, index, dataBlock);
      assert Concat(blocks) + dataBlock + [] == Concat(blocks) + dataBlock;
      blocks, dataBlock := blocks + [dataBlock], [];
      pendingIndexEntry := true;
    }

    /** Write what is left, and the last index entry under a short key at or after the last one. */
    method Finish() returns (t: Table)
      requires Valid() && !closed
      modifies this
      ensures TableOk(t) && Concat(t.blocks) == added == old(added) && closed
      ensures t.blocks != [] ==> t.index[|t.index| - 1] == options.successor(LastKey(added))
    {
      hide SortedRun, Concat, Indexed, Less;
      Flush();
      LastIsLast();
      assert Concat(blocks) + [] == Concat(blocks);
      closed := true;
      if blocks == [] {
        EmptyTable(index);
      }
      if pendingIndexEntry {
        var successor := options.successor(lastKey);
        FinishedIsTable(blocks, index, successor);
        index := index + [successor];
        pendingIndexEntry := false;
      }
      t := Table(blocks, index);
    }
  }

  lemma {:induction false} LongerRun(es: seq<Entry>, e: Entry)
    requires SortedRun(es) && (es != [] ==> Less(LastKey(es), e.key))
    ensures SortedRun(es + [e]) && LastKey(es + [e]) == e.key
  {
    forall i | 0 <= i < |es| ensures Less(es[i].key, e.key) {
      assert i == |es| - 1 || Less(es[i].key, LastKey(es));
    }
  }

  // ---------- lookup ----------

  /** The first index key at or after the target. */
  function IndexSeek(index: seq<InternalKey>, target: InternalKey): (i: nat)
    ensures i <= |index|
    ensures forall j | 0 <= j < i :: Less(index[j], target)
    ensures i < |index| ==> !Less(index[i], target)
  {
    if index == [] || !Less(index[0], target) then 0 else 1 + IndexSeek(index[1..], target)
  }

  /** Every key up to block i is at most index key i, and every later one comes after it. */
  ghost predicate IndexOk(blocks: seq<seq<Entry>>, index: seq<InternalKey>) {
    && |index| == |blocks|
    && (forall i, j, q | 0 <= j <= i < |blocks| && 0 <= q < |blocks[j]| :: !Less(index[i], blocks[j][q].key))
    && (forall i, j, q | 0 <= i < j < |blocks| && 0 <= q < |blocks[j]| :: Less(index[i], blocks[j][q].key))
  }

  /** The tables that TableBuilder writes can be iterated. */
  lemma {:induction false} TablesAreIndexed(t: Table)
    requires TableOk(t)
    ensures IndexOk(t.blocks, t.index) && SortedRun(Concat(t.blocks))
  {
    forall i, j, q | 0 <= j <= i < |t.blocks| && 0 <= q < |t.blocks[j]|
      ensures !Less(t.index[i], t.blocks[j][q].key)
    {
      IndexBounds(t, i, j, q);
    }
    forall i, j, q | 0 <= i < j < |t.blocks| && 0 <= q < |t.blocks[j]|
      ensures Less(t.index[i], t.blocks[j][q].key)
    {
      IndexBounds(t, i, j, q);
    }
  }

  /** Where a seek through the index ends up, empty blocks or not. */
  lemma {:induction false} SeekByIndex(blocks: seq<seq<Entry>>, index: seq<InternalKey>, target: InternalKey)
    requires IndexOk(blocks, index) && SortedRun(Concat(blocks))
    ensures (
      var i := IndexSeek(index, target);
      SeekIndex(Concat(blocks), target)
      == if i < |blocks| then Offset(blocks, i) + SeekIndex(blocks[i], target) else |Concat(blocks)|)
  {
    hide SortedRun, Concat;
    var all, i := Concat(blocks), IndexSeek(index, target);
    var place := if i < |blocks| then Offset(blocks, i) + SeekIndex(blocks[i], target) else |all|;
    assert blocks[..|blocks|] == blocks;
    if i < |blocks| {
      OffsetNext(blocks, i);
      OffsetGrows(blocks, i + 1, |blocks|);
    }
    forall a | 0 <= a < place ensures Less(all[a].key, target) {
      var j, q := FindBlock(blocks, a);
      EntryAt(blocks, j, q);
      if i < |blocks| && j > i {
        OffsetGrows(blocks, i + 1, j);
      }
      assert j < i ==> !Less(index[j], blocks[j][q].key);
    }
    if place < |all| {
      var j, q := FindBlock(blocks, place);
      EntryAt(blocks, j, q);
      if j < i {
        OffsetGrows(blocks, j + 1, i);
      } else if j > i {
        assert Less(index[i], blocks[j][q].key);
      }
    }
    Merger.SeekIsUnique(all, target, place);
  }

  /** Where a seek in the block that the index names ends up in the whole table. */
  lemma {:induction false} SeekThroughIndex(t: Table, target: InternalKey)
    requires TableOk(t)
    ensures (
      var i := IndexSeek(t.index, target);
      SeekIndex(Concat(t.blocks), target)
      == if i < |t.blocks| then Offset(t.blocks, i) + SeekIndex(t.blocks[i], target) else |Concat(t.blocks)|)
  {
    TablesAreIndexed(t);
    SeekByIndex(t.blocks, t.index, target);
  }

  /**
   * Table::InternalGet with SaveValue: one seek in the index, one in the block it names, unless the filter says that the
   * block cannot match.  It agrees with a lookup among all entries, although the block may hold nothing at or after the
   * target.
   */
  method InternalGet(t: Table, mayMatch: bool, k: UserKey, s: SequenceNumber) returns (r: Probe)
    requires TableOk(t)
    requires var i := IndexSeek(t.index, SeekKey(k, s));
             !mayMatch && i < |t.blocks| ==> forall e | e in t.blocks[i] :: e.key.user != k
    ensures r == Lookup(Concat(t.blocks), k, s)
  {
    var target := SeekKey(k, s);
    var i := IndexSeek(t.index, target);
    SeekThroughIndex(t, target);
    r := Miss;
    if i < |t.blocks| {
      var block := t.blocks[i];
      var p := SeekIndex(block, target);
      if p < |block| {
        EntryAt(t.blocks, i, p);
        assert block[p] in block;
        if mayMatch && block[p].key.user == k {
          r := Hit(block[p]);
        }
      } else {
        BehindBlock(t, k, s, i);
      }
    }
  }

  /** Nothing of the key follows a block whose index key was reached without finding the target in it. */
  lemma {:induction false} BehindBlock(t: Table, k: UserKey, s: SequenceNumber, i: nat)
    requires TableOk(t) && i < |t.blocks|
    requires i == IndexSeek(t.index, SeekKey(k, s)) && SeekIndex(t.blocks[i], SeekKey(k, s)) == |t.blocks[i]|
    ensures Lookup(Concat(t.blocks), k, s) == Miss
  {
    var target, all := SeekKey(k, s), Concat(t.blocks);
    SeekThroughIndex(t, target);
    OffsetNext(t.blocks, i);
    if i + 1 < |t.blocks| {
      EntryAt(t.blocks, i + 1, 0);
      assert Less(LastKey(t.blocks[i]), target);
      assert IsSeparator(LastKey(t.blocks[i]), t.blocks[i + 1][0].key, t.index[i]);
    } else {
      assert t.blocks[..|t.blocks|] == t.blocks;
    }
  }

  /**
   * Bounds alone would not do: with an index key of the next block's first user key a lookup can
   * stop at the end of a block while its entry begins the next one.
   */
  lemma {:induction false} BoundsAloneMissEntries()
    ensures (
      var a, b := Entry(InternalKey(1.0, 1, TypeValue), "a"), Entry(InternalKey(2.0, 2, TypeValue), "b");
      var separator := InternalKey(2.0, 5, TypeValue);
      && Less(a.key, separator) && Less(separator, b.key)
      && IndexSeek([separator], SeekKey(2.0, 7)) == 0
      && SeekIndex([a], SeekKey(2.0, 7)) == |[a]|
      && Lookup([a, b], 2.0, 7) == Hit(b))
  {
    var a, b := Entry(InternalKey(1.0, 1, TypeValue), "a"), Entry(InternalKey(2.0, 2, TypeValue), "b");
    assert [a, b][1..] == [b];
    assert SeekIndex([a], SeekKey(2.0, 7)) == 1 + SeekIndex([a][1..], SeekKey(2.0, 7));
    Merger.SeekIsUnique([a, b], SeekKey(2.0, 7), 1);
  }
}
