/** Filters in front of lookups: a table's filter block never changes what InternalGet finds. */
module TableFilters {
  import opened Common
  import opened InternalKeys
  import opened Coding
  import opened Bloom
  import opened FilterBlocks
  import opened TableFiles

  /** User keys as bytes. */
  type KeyBytes = UserKey -> seq<Byte>

  /** The keys of a block in the order in which they are added. */
  function BlockKeys(block: seq<Entry>, bytes: KeyBytes): (r: Keys)
    ensures |r| == |block| && forall p | 0 <= p < |block| :: r[p] == bytes(block[p].key.user)
  {
    seq(|block|, p requires 0 <= p < |block| => bytes(block[p].key.user))
  }

  /** At the offset of its block, every key of the table may match. */
  ghost predicate HidesNothing(hash: HashFunction, filter: seq<Byte>, t: Table, offsets: seq<nat>, bytes: KeyBytes) {
    |offsets| == |t.blocks| && forall i, p | 0 <= i < |t.blocks| && 0 <= p < |t.blocks[i]| ::
      BlockMayMatch(hash, filter, offsets[i], bytes(t.blocks[i][p].key.user))
  }

  /** What TableBuilder feeds to the filter block: StartBlock at the offset of each block, AddKey for each of its keys, and,
      from the last Flush, StartBlock at the offset where the blocks end. */
  method BuildFilter(policy: BloomFilterPolicy, t: Table, offsets: seq<nat>, end: nat, bytes: KeyBytes)
    returns (filter: seq<Byte>)
    requires policy.k <= 30 && |offsets| == |t.blocks|
    requires forall a, b | 0 <= a < b < |offsets| :: offsets[a] <= offsets[b]
    requires forall a | 0 <= a < |offsets| :: offsets[a] <= end
    ensures |filter| < 0x1_0000_0000 ==> HidesNothing(policy.hash, filter, t, offsets, bytes)
  {
    hide BlockMayMatch;
    var run := seq(|t.blocks|, i requires 0 <= i < |t.blocks| => Stretch(offsets[i], BlockKeys(t.blocks[i], bytes)))
             + [Stretch(end, [])];
    filter := FilterTable(policy, run);
    if |filter| < 0x1_0000_0000 {
      forall i, p | 0 <= i < |t.blocks| && 0 <= p < |t.blocks[i]|
        ensures BlockMayMatch(policy.hash, filter, offsets[i], bytes(t.blocks[i][p].key.user))
      {
        assert run[i].keys[p] == bytes(t.blocks[i][p].key.user);
        assert run[i].offset == offsets[i];
      }
    }
  }

  /** Table::InternalGet with a filter: asking it first saves reading the block, and changes nothing. */
  method FilteredGet(policy: BloomFilterPolicy, filter: seq<Byte>, t: Table, offsets: seq<nat>, bytes: KeyBytes,
                     k: UserKey, s: SequenceNumber)
    returns (r: Probe)
    requires TableOk(t) && HidesNothing(policy.hash, filter, t, offsets, bytes)
    ensures r == Lookup(Concat(t.blocks), k, s)
  {
    hide BlockMayMatch, TableOk;
    var i := IndexSeek(t.index, SeekKey(k, s));
    var mayMatch := true;
    if i < |t.blocks| {
      mayMatch := FilterBlocks.KeyMayMatch(policy, filter, offsets[i], bytes(k));
      if !mayMatch {
        forall e | e in t.blocks[i] ensures e.key.user != k {
          var p :| 0 <= p < |t.blocks[i]| && t.blocks[i][p] == e;
          assert BlockMayMatch(policy.hash, filter, offsets[i], bytes(t.blocks[i][p].key.user));
        }
      }
    }
    r := InternalGet(t, mayMatch, k, s);
  }
}
