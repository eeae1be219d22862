/** Cursors over sorted internal entries, as memtables, tables and merged views offer them. */
module InternalIterators {
  import opened InternalKeys

  datatype Direction = Forward | Reverse

  /** A cursor over sorted entries.  Stepping off either end makes it invalid. */
  class InternalIterator {
    const entries: seq<Entry>
    var pos: nat

    constructor (entries: seq<Entry>)
      ensures this.entries == entries && pos == |entries|
    {
      this.entries := entries;
      this.pos := |entries|;
    }

    predicate Valid()
      reads this
    {
      pos < |entries|
    }

    function Key(): InternalKey
      requires Valid()
      reads this
    {
      entries[pos].key
    }

    method Next()
      requires Valid()
      modifies this
      ensures pos == old(pos) + 1
    {
      pos := pos + 1;
    }

    method Prev()
      requires Valid()
      modifies this
      ensures pos == if old(pos) == 0 then |entries| else old(pos) - 1
    {
      pos := if pos == 0 then |entries| else pos - 1;
    }

    method Seek(target: InternalKey)
      modifies this
      ensures pos == SeekIndex(entries, target)
    {
      pos := SeekIndex(entries, target);
    }

    method SeekToFirst()
      modifies this
      ensures pos == 0
    {
      pos := 0;
    }

    method SeekToLast()
      modifies this
      ensures pos == if entries == [] then 0 else |entries| - 1
    {
      pos := if entries == [] then 0 else |entries| - 1;
    }
  }
}
