/** TwoLevelIterator: a cursor over blocks found through an index is a cursor over their concatenation. */
module TwoLevelIterators {
  import opened Common
  import opened InternalKeys
  import opened TableFiles
  import Merger

  class TwoLevelIterator {
    const blocks: seq<seq<Entry>>
    const index: seq<InternalKey>
    /** The index iterator; at |index| it is invalid. */
    var indexPos: nat
    /** The block that the data iterator was made for, if there is one, and its place in it. */
    var block: Option<nat>
    var dataPos: nat

    ghost predicate Ok()
      reads this
    {
      && IndexOk(blocks, index) && SortedRun(Concat(blocks))
      && indexPos <= |index|
      && (block.Some? ==> block.value == indexPos < |blocks| && dataPos < |blocks[block.value]|)
    }

    /** The place in the concatenation; its length when the iterator is invalid. */
    ghost function Position(): nat
      requires Ok()
      reads this
    {
      if block.None? then |Concat(blocks)| else Offset(blocks, block.value) + dataPos
    }

    predicate Valid()
      reads this
    {
      block.Some?
    }

    constructor (blocks: seq<seq<Entry>>, index: seq<InternalKey>)
      requires IndexOk(blocks, index) && SortedRun(Concat(blocks))
      ensures Ok() && !Valid() && this.blocks == blocks && this.index == index
    {
      this.blocks, this.index, indexPos, block, dataPos := blocks, index, |index|, None, 0;
    }

    method Current() returns (e: Entry)
      requires Ok() && Valid()
      ensures Position() < |Concat(blocks)| && e == Concat(blocks)[Position()]
    {
      EntryAt(blocks, block.value, dataPos);
      e := blocks[block.value][dataPos];
    }

    /** The data iterator is there and stands on an entry. */
    predicate DataValid()
      reads this
    {
      block.Some? && block.value < |blocks| && dataPos < |blocks[block.value]|
    }

    /** Make the data iterator fit the index iterator; an iterator for the same block is kept. */
    method InitDataBlock()
      requires indexPos <= |index| == |blocks|
      modifies this`block, this`dataPos
      ensures block == if indexPos < |index| then Some(indexPos) else None
      ensures block == old(block) ==> dataPos == old(dataPos)
    {
      if indexPos >= |index| {
        block := None;
      } else if block == Some(indexPos) {
      } else {
        block, dataPos := Some(indexPos), |blocks[indexPos]|;
      }
    }

    /** `at` is the place to reach: the data iterator is on it, or past its block and the place is further on. */
    method SkipEmptyDataBlocksForward(ghost at: nat)
      requires indexPos <= |index| && IndexOk(blocks, index) && SortedRun(Concat(blocks))
      requires block == if indexPos < |index| then Some(indexPos) else None
      requires at == if indexPos < |index| then Offset(blocks, indexPos) + dataPos else |Concat(blocks)|
      requires indexPos < |index| ==> dataPos <= |blocks[indexPos]|
      modifies this
      ensures Ok() && Position() == at
    {
      hide IndexOk, SortedRun, Concat;
      LengthsAgree();
      while !DataValid()
        invariant indexPos <= |index| == |blocks|
        invariant block == if indexPos < |index| then Some(indexPos) else None
        invariant at == if indexPos < |index| then Offset(blocks, indexPos) + dataPos else |Concat(blocks)|
        invariant indexPos < |index| ==> dataPos <= |blocks[indexPos]|
        decreases |index| - indexPos
      {
        if indexPos >= |index| {
          block := None;
          return;
        }
        OffsetNext(blocks, indexPos);
        assert blocks[..|blocks|] == blocks;
        indexPos := indexPos + 1;
        InitDataBlock();
        if block.Some? {
          dataPos := 0;
        }
      }
    }

    lemma {:induction false} LengthsAgree()
      requires IndexOk(blocks, index)
      ensures |index| == |blocks|
    {
    }

    /** `count` entries lie before the place to leave; the last of them is the place to reach. */
    method SkipEmptyDataBlocksBackward(ghost count: nat)
      requires indexPos <= |index| && IndexOk(blocks, index) && SortedRun(Concat(blocks))
      requires block == if indexPos < |index| then Some(indexPos) else None
      requires if indexPos < |index| then
                 if dataPos < |blocks[indexPos]| then count == Offset(blocks, indexPos) + dataPos + 1
                 else count == Offset(blocks, indexPos)
               else count == 0
      modifies this
      ensures Ok() && Position() == if count > 0 then count - 1 else |Concat(blocks)|
    {
      hide IndexOk, SortedRun, Concat;
      LengthsAgree();
      while !DataValid()
        invariant indexPos <= |index| == |blocks|
        invariant block == if indexPos < |index| then Some(indexPos) else None
        invariant if indexPos < |index| then
                    if dataPos < |blocks[indexPos]| then count == Offset(blocks, indexPos) + dataPos + 1
                    else count == Offset(blocks, indexPos)
                  else count == 0
        decreases if indexPos < |index| then indexPos + 1 else 0
      {
        if indexPos >= |index| {
          block := None;
          return;
        }
        if indexPos == 0 {
          OffsetStart();
          indexPos := |index|;
        } else {
          OffsetNext(blocks, indexPos - 1);
          indexPos := indexPos - 1;
        }
        InitDataBlock();
        if block.Some? {
          var b := blocks[block.value];
          dataPos := if b == [] then 0 else |b| - 1;
        }
      }
    }

    lemma {:induction false} OffsetStart()
      ensures Offset(blocks, 0) == 0
    {
      assert blocks[..0] == [];
    }

    method Seek(target: InternalKey)
      requires Ok()
      modifies this
      ensures Ok() && Position() == SeekIndex(Concat(blocks), target)
    {
      SeekByIndex(blocks, index, target);
      indexPos := IndexSeek(index, target);
      InitDataBlock();
      if block.Some? {
        dataPos := SeekIndex(blocks[block.value], target);
      }
      SkipEmptyDataBlocksForward(SeekIndex(Concat(blocks), target));
    }

    method SeekToFirst()
      requires Ok()
      modifies this
      ensures Ok() && Position() == 0
    {
      OffsetStart();
      assert |index| == 0 ==> Concat(blocks) == [];
      indexPos := 0;
      InitDataBlock();
      if block.Some? {
        dataPos := 0;
      }
      SkipEmptyDataBlocksForward(0);
    }

    method SeekToLast()
      requires Ok()
      modifies this
      ensures Ok() && Position() == if Concat(blocks) == [] then 0 else |Concat(blocks)| - 1
    {
      assert |index| == 0 ==> Concat(blocks) == [];
      assert blocks[..|blocks|] == blocks;
      indexPos := if |index| == 0 then 0 else |index| - 1;
      if indexPos < |index| {
        OffsetNext(blocks, indexPos);
      }
      InitDataBlock();
      if block.Some? {
        var b := blocks[block.value];
        dataPos := if b == [] then 0 else |b| - 1;
      }
      SkipEmptyDataBlocksBackward(|Concat(blocks)|);
    }

    method Next()
      requires Ok() && Valid()
      modifies this
      ensures Ok() && Position() == old(Position()) + 1
    {
      ghost var at := Position();
      dataPos := dataPos + 1;
      SkipEmptyDataBlocksForward(at + 1);
    }

    method Prev()
      requires Ok() && Valid()
      modifies this
      ensures Ok() && Position() == if old(Position()) > 0 then old(Position()) - 1 else |Concat(blocks)|
    {
      ghost var at := Position();
      dataPos := if dataPos == 0 then |blocks[block.value]| else dataPos - 1;
      SkipEmptyDataBlocksBackward(at);
    }
  }

  // ---------- whole tables ----------

  /** Table::NewIterator. */
  method NewIterator(t: Table) returns (it: TwoLevelIterator)
    requires TableOk(t)
    ensures fresh(it) && it.Ok() && it.blocks == t.blocks && it.index == t.index
  {
    TablesAreIndexed(t);
    it := new TwoLevelIterator(t.blocks, t.index);
  }

  /** SeekToFirst, and Next until the end. */
  method ReadAll(it: TwoLevelIterator) returns (es: seq<Entry>)
    requires it.Ok()
    modifies it
    ensures es == Concat(it.blocks)
  {
    hide Concat, IndexOk, SortedRun;
    es := [];
    it.SeekToFirst();
    while it.Valid()
      invariant it.Ok() && it.Position() <= |Concat(it.blocks)| && es == Concat(it.blocks)[..it.Position()]
      invariant !it.Valid() ==> it.Position() == |Concat(it.blocks)|
      decreases |Concat(it.blocks)| - it.Position()
    {
      var e := it.Current();
      es := es + [e];
      it.Next();
    }
  }

  /** The iterator over a finished table yields exactly the entries that were added, in order. */
  method ReadBack(builder: TableBuilder) returns (es: seq<Entry>)
    requires builder.Valid() && !builder.closed
    modifies builder
    ensures es == old(builder.added)
  {
    var t := builder.Finish();
    var it := NewIterator(t);
    es := ReadAll(it);
  }
}
