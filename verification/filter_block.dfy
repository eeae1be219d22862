/** Filter blocks: one filter for the keys of every two kilobytes of table data. */
module FilterBlocks {
  import opened Coding
  import opened Bloom

  const BASE_LG := 11
  const BASE := 2048

  type Keys = seq<seq<Byte>>

  function Flat(pieces: seq<seq<Byte>>): seq<Byte> {
    if pieces == [] then [] else Flat(pieces[..|pieces| - 1]) + pieces[|pieces| - 1]
  }

  /** Where each piece of a flattened list begins. */
  function Starts(pieces: seq<seq<Byte>>): (r: seq<nat>)
    ensures |r| == |pieces|
  {
    seq(|pieces|, i requires 0 <= i < |pieces| => |Flat(pieces[..i])|)
  }

  lemma {:induction false} FlatSnoc(pieces: seq<seq<Byte>>, last: seq<Byte>)
    ensures Flat(pieces + [last]) == Flat(pieces) + last
    ensures Starts(pieces + [last]) == Starts(pieces) + [|Flat(pieces)|]
  {
    var all := pieces + [last];
    assert all[..|pieces|] == pieces;
    forall i | 0 <= i < |all| ensures Starts(all)[i] == (Starts(pieces) + [|Flat(pieces)|])[i] {
      if i < |pieces| {
        assert all[..i] == pieces[..i];
      }
    }
  }

  /** Piece i, cut out of the flattened list. */
  lemma {:induction false} FlatAt(pieces: seq<seq<Byte>>, i: nat)
    requires i < |pieces|
    ensures (
      var from := |Flat(pieces[..i])|;
      && from + |pieces[i]| == |Flat(pieces[..i + 1])| <= |Flat(pieces)|
      && Flat(pieces)[from..from + |pieces[i]|] == pieces[i])
    decreases |pieces|
  {
    var n := |pieces| - 1;
    assert pieces[..i + 1][..i] == pieces[..i];
    if i < n {
      FlatAt(pieces[..n], i);
      assert pieces[..n][..i] == pieces[..i] && pieces[..n][..i + 1] == pieces[..i + 1];
      var from := |Flat(pieces[..i])|;
      assert Flat(pieces)[from..from + |pieces[i]|] == Flat(pieces[..n])[from..from + |pieces[i]|];
    } else {
      assert pieces[..n + 1] == pieces;
    }
  }

  /** What is stored for a group of keys: nothing for no keys. */
  ghost predicate Stores(hash: HashFunction, k: nat, group: Keys, filter: seq<Byte>) {
    if group == [] then filter == [] else IsFilterOf(hash, k, group, filter)
  }

  /** A finished filter block. */
  function Block(filters: seq<seq<Byte>>): seq<Byte> {
    Flat(filters) + Fixed32Array(Starts(filters)) + EncodeFixed32(|Flat(filters)| % 0x1_0000_0000) + [BASE_LG]
  }

  class FilterBlockBuilder {
    const policy: BloomFilterPolicy
    /** Keys not yet in a filter, flattened. */
    var keys: seq<Byte>
    var start: seq<nat>
    var result: seq<Byte>
    var filterOffsets: seq<nat>
    /** The keys of each filter, the filters, and the keys waiting for the next one. */
    ghost var groups: seq<Keys>
    ghost var filters: seq<seq<Byte>>
    ghost var pending: Keys

    ghost predicate Valid()
      reads this
    {
      && policy.k <= 30
      && keys == Flat(pending) && start == Starts(pending)
      && result == Flat(filters) && filterOffsets == Starts(filters)
      && |groups| == |filters|
      && forall i | 0 <= i < |groups| :: Stores(policy.hash, policy.k, groups[i], filters[i])
    }

    /** The keys that belong to filter i. */
    ghost function Group(i: nat): Keys
      reads this
    {
      if i < |groups| then groups[i] else if i == |groups| then pending else []
    }

    constructor (policy: BloomFilterPolicy)
      requires policy.k <= 30
      ensures Valid() && groups == [] && pending == [] && this.policy == policy
    {
      this.policy := policy;
      keys, start, result, filterOffsets, groups, filters, pending := [], [], [], [], [], [], [];
    }

    /** The table goes on at this offset; filters for everything before it are made. */
    method StartBlock(blockOffset: nat)
      requires Valid() && blockOffset / BASE >= |filterOffsets|
      modifies this
      ensures Valid() && |groups| == blockOffset / BASE
      ensures forall i | i >= 0 :: Group(i) == old(Group(i))
    {
      hide Flat, Starts, Stores;
      var index := blockOffset / BASE;
      while index > |filterOffsets|
        invariant Valid() && |filterOffsets| <= index
        invariant forall i | i >= 0 :: Group(i) == old(Group(i))
        decreases index - |filterOffsets|
      {
        GenerateFilter();
      }
    }

    method AddKey(key: seq<Byte>)
      requires Valid()
      modifies this`keys, this`start, this`pending
      ensures Valid() && pending == old(pending) + [key]
    {
      hide Flat, Starts, Stores;
      FlatSnoc(pending, key);
      start := start + [|keys|];
      keys := keys + key;
      pending := pending + [key];
    }

    /** Everything that is waiting goes into one more filter. */
    method GenerateFilter()
      requires Valid()
      modifies this
      ensures Valid() && groups == old(groups) + [old(pending)] && pending == []
      ensures forall i | i >= 0 :: Group(i) == old(Group(i))
    {
      hide Flat, Starts, Stores;
      var tmpKeys := SplitKeys();
      StoresOf(policy.hash, policy.k, pending);
      filterOffsets := filterOffsets + [|result|];
      ghost var filter: seq<Byte> := [];
      if start != [] {
        var longer := policy.CreateFilter(tmpKeys, result);
        filter := longer[|result|..];
        assert longer == result + filter;
        result := longer;
        keys, start := [], [];
      }
      FlatSnoc(filters, filter);
      NothingFlat();
      filters, groups, pending := filters + [filter], groups + [pending], [];
    }

    /** The keys, cut out of the flattened list again. */
    method SplitKeys() returns (tmpKeys: Keys)
      requires Valid()
      ensures tmpKeys == pending
    {
      hide Stores;
      tmpKeys := [];
      var starts := start + [|keys|];
      var i := 0;
      while i < |start|
        invariant i <= |start| && tmpKeys == pending[..i]
      {
        FlatAt(pending, i);
        assert i + 1 == |start| ==> pending[..i + 1] == pending;
        assert starts[i + 1] == |Flat(pending[..i + 1])|;
        tmpKeys := tmpKeys + [keys[starts[i]..starts[i + 1]]];
        i := i + 1;
      }
      assert pending[..i] == pending;
    }

    method Finish() returns (block: seq<Byte>)
      requires Valid()
      modifies this
      ensures Valid() && block == Block(filters)
      ensures forall i | i >= 0 :: Group(i) == old(Group(i))
      ensures pending == []
    {
      if start != [] {
        GenerateFilter();
      }
      block := result + Fixed32Array(filterOffsets) + EncodeFixed32(|result| % 0x1_0000_0000) + [BASE_LG];
    }
  }

  lemma {:induction false} NothingFlat()
    ensures Flat([]) == [] && Starts([]) == []
  {
  }

  lemma {:induction false} StoresOf(hash: HashFunction, k: nat, group: Keys)
    ensures group == [] ==> Stores(hash, k, group, [])
    ensures group != [] ==> forall filter :: IsFilterOf(hash, k, group, filter) ==> Stores(hash, k, group, filter)
  {
  }

  // ---------- reading ----------

  /** FilterBlockReader::KeyMayMatch, for any bytes whatever; a damaged block matches everything. */
  method KeyMayMatch(policy: BloomFilterPolicy, block: seq<Byte>, blockOffset: nat, key: seq<Byte>) returns (r: bool)
    ensures r == BlockMayMatch(policy.hash, block, blockOffset, key)
  {
    hide DecodeFixed32, MayMatch, Power2;
    var n := |block|;
    if n < 5 {
      return true;
    }
    var baseLg := block[n - 1];
    var lastWord := DecodeFixed32(block[n - 5..]);
    if lastWord > n - 5 {
      return true;
    }
    var num := (n - 5 - lastWord) / 4;
    var index := blockOffset / Power2(baseLg);
    if index < num {
      var from := lastWord + index * 4;
      var filterStart, limit := DecodeFixed32(block[from..from + 4]), DecodeFixed32(block[from + 4..from + 8]);
      if filterStart <= limit && limit <= lastWord {
        r := policy.KeyMayMatch(key, block[filterStart..limit]);
        return;
      } else if filterStart == limit {
        return false;
      }
    }
    return true;
  }

  ghost predicate BlockMayMatch(hash: HashFunction, block: seq<Byte>, blockOffset: nat, key: seq<Byte>) {
    var n := |block|;
    n >= 5 ==>
      var lastWord := DecodeFixed32(block[n - 5..]);
      var index := blockOffset / Power2(block[n - 1]);
      lastWord <= n - 5 && index < (n - 5 - lastWord) / 4 ==>
        var from := lastWord + index * 4;
        var filterStart, limit := DecodeFixed32(block[from..from + 4]), DecodeFixed32(block[from + 4..from + 8]);
        if filterStart <= limit && limit <= lastWord then MayMatch(hash, key, block[filterStart..limit])
        else filterStart != limit
  }

  /** The parts of a finished block, as the reader takes them. */
  lemma {:induction false} BlockParses(filters: seq<seq<Byte>>)
    requires |Block(filters)| < 0x1_0000_0000
    ensures (
      var block := Block(filters);
      var n, size := |block|, |Flat(filters)|;
      && n == size + 4 * |filters| + 5 && block[n - 1] == BASE_LG
      && DecodeFixed32(block[n - 5..]) == size)
  {
    hide Flat, EncodeFixed32, DecodeFixed32, Starts;
    var data, offsets, count := Flat(filters), Fixed32Array(Starts(filters)), EncodeFixed32(|Flat(filters)| % 0x1_0000_0000);
    Fixed32ArrayAt(Starts(filters), 0);
    var block := Block(filters);
    assert block[|block| - 5..] == count + [BASE_LG];
    FrontOfFixed32(count + [BASE_LG]);
    assert (count + [BASE_LG])[..4] == count;
    Fixed32RoundTrip(|data|);
  }

  lemma {:induction false} FrontOfFixed32(b: seq<Byte>)
    requires |b| >= 4
    ensures DecodeFixed32(b) == DecodeFixed32(b[..4])
  {
  }

  /** The stretch of the block that holds filter i: from its offset to the next one, or to the offset array. */
  lemma {:induction false} FilterParses(filters: seq<seq<Byte>>, i: nat)
    requires |Block(filters)| < 0x1_0000_0000 && i < |filters|
    ensures (
      var block, from, size := Block(filters), |Flat(filters)| + 4 * i, |Flat(filters)|;
      var start, end := |Flat(filters[..i])|, |Flat(filters[..i + 1])|;
      && start <= end <= size && from + 8 <= |block|
      && DecodeFixed32(block[from..from + 4]) == start
      && DecodeFixed32(block[from + 4..from + 8]) == end
      && block[start..end] == filters[i])
  {
    hide Flat, EncodeFixed32, DecodeFixed32, Fixed32Array;
    FlatAt(filters, i);
    var data, offsets, count := Flat(filters), Fixed32Array(Starts(filters)), EncodeFixed32(|Flat(filters)| % 0x1_0000_0000);
    var block, from := Block(filters), |data| + 4 * i;
    var start, end := |Flat(filters[..i])|, |Flat(filters[..i + 1])|;
    Fixed32ArrayAt(Starts(filters), i);
    Fixed32ArrayAt(Starts(filters), i + 1);
    assert block[from..from + 4] == offsets[4 * i..4 * i + 4];
    Fixed32RoundTrip(start);
    if i + 1 < |filters| {
      assert block[from + 4..from + 8] == offsets[4 * (i + 1)..4 * (i + 1) + 4];
    } else {
      assert filters[..i + 1] == filters;
      assert block[from + 4..from + 8] == count;
    }
    Fixed32RoundTrip(end);
    assert block[start..end] == data[start..end];
  }

  /**
   * A finished block answers for a table offset exactly what the filter of that offset says; an
   * empty filter matches nothing, and an offset behind the last filter matches everything.
   */
  lemma {:induction false} BlockAnswersByOffset(
      hash: HashFunction, filters: seq<seq<Byte>>, blockOffset: nat, key: seq<Byte>)
    requires |Block(filters)| < 0x1_0000_0000
    ensures BlockMayMatch(hash, Block(filters), blockOffset, key)
       <==> (blockOffset / BASE < |filters| ==> MayMatch(hash, key, filters[blockOffset / BASE]))
  {
    hide Flat, DecodeFixed32, MayMatch, Block;
    var index := blockOffset / BASE;
    BlockParses(filters);
    assert Power2(11) == 32 * Power2(6) == 32 * (64 * Power2(0)) == BASE;
    if index < |filters| {
      FilterParses(filters, index);
    }
  }

  /** A block made from stored groups hides no key of the group of its offset. */
  lemma {:induction false} BlockNeverHides(
      hash: HashFunction, k: nat, groups: seq<Keys>, filters: seq<seq<Byte>>, blockOffset: nat, i: nat)
    requires |groups| == |filters| && |Block(filters)| < 0x1_0000_0000
    requires forall g | 0 <= g < |groups| :: Stores(hash, k, groups[g], filters[g])
    requires blockOffset / BASE < |groups| && i < |groups[blockOffset / BASE]|
    ensures BlockMayMatch(hash, Block(filters), blockOffset, groups[blockOffset / BASE][i])
  {
    hide Block, BlockMayMatch;
    var index := blockOffset / BASE;
    assert Stores(hash, k, groups[index], filters[index]);
    FilterNeverHides(hash, k, groups[index], filters[index], i);
    BlockAnswersByOffset(hash, filters, blockOffset, groups[index][i]);
  }

  /** A block that does not even hold its own offset array matches everything. */
  lemma {:induction false} DamagedBlockMatches(hash: HashFunction, block: seq<Byte>, blockOffset: nat, key: seq<Byte>)
    requires |block| < 5 || DecodeFixed32(block[|block| - 5..]) > |block| - 5
    ensures BlockMayMatch(hash, block, blockOffset, key)
  {
  }

  // ---------- whole runs ----------

  /** The keys added behind one StartBlock. */
  datatype Stretch = Stretch(offset: nat, keys: Keys)

  ghost predicate OffsetsGrow(run: seq<Stretch>) {
    forall a, b | 0 <= a < b < |run| :: run[a].offset <= run[b].offset
  }

  /** Every key of the first n stretches is in the group of its offset. */
  ghost predicate Grouped(b: FilterBlockBuilder, run: seq<Stretch>, n: nat)
    requires n <= |run|
    reads b
  {
    forall a, i | 0 <= a < n && 0 <= i < |run[a].keys| :: run[a].keys[i] in b.Group(run[a].offset / BASE)
  }

  /** AddKey for every key of a stretch. */
  method AddStretch(b: FilterBlockBuilder, s: Stretch)
    requires b.Valid() && |b.groups| == s.offset / BASE
    modifies b`keys, b`start, b`pending
    ensures b.Valid() && old(b.pending) <= b.pending
    ensures forall i | 0 <= i < |s.keys| :: s.keys[i] in b.pending
  {
    hide Flat, Starts, Stores;
    for i := 0 to |s.keys|
      invariant b.Valid() && old(b.pending) <= b.pending
      invariant forall j | 0 <= j < i :: s.keys[j] in b.pending
    {
      b.AddKey(s.keys[i]);
    }
  }

  /** Driving the builder as a table builder does, (StartBlock AddKey*)* Finish: at every offset the reader may match every
      key that was added behind it. */
  method FilterTable(policy: BloomFilterPolicy, run: seq<Stretch>) returns (block: seq<Byte>)
    requires policy.k <= 30 && OffsetsGrow(run)
    ensures |block| < 0x1_0000_0000 ==>
              forall a, i | 0 <= a < |run| && 0 <= i < |run[a].keys| ::
                BlockMayMatch(policy.hash, block, run[a].offset, run[a].keys[i])
  {
    hide Flat, Starts, Stores, BlockMayMatch, Block;
    var b := new FilterBlockBuilder(policy);
    for n := 0 to |run|
      invariant b.Valid() && fresh(b) && b.policy == policy && Grouped(b, run, n)
      invariant if n == 0 then |b.groups| == 0 else |b.groups| == run[n - 1].offset / BASE
    {
      if n > 0 {
        Quotients(run[n - 1].offset, run[n].offset);
      }
      ghost var g0 := b.groups;
      assert b.Valid() ==> |b.filterOffsets| == |b.groups| by { OffsetsMatch(b); }
      b.StartBlock(run[n].offset);
      label started:
      AddStretch(b, run[n]);
      forall a, i | 0 <= a < n + 1 && 0 <= i < |run[a].keys| ensures run[a].keys[i] in b.Group(run[a].offset / BASE) {
        if a < n {
          assert run[a].keys[i] in old@started(b.Group(run[a].offset / BASE));
        }
      }
    }
    label filled:
    block := b.Finish();
    if |block| < 0x1_0000_0000 {
      forall a, i | 0 <= a < |run| && 0 <= i < |run[a].keys|
        ensures BlockMayMatch(policy.hash, block, run[a].offset, run[a].keys[i])
      {
        var index := run[a].offset / BASE;
        assert run[a].keys[i] in old@filled(b.Group(index));
        assert run[a].keys[i] in b.Group(index);
        var j :| 0 <= j < |b.groups[index]| && b.groups[index][j] == run[a].keys[i];
        StoredGroups(b);
        BlockNeverHides(policy.hash, policy.k, b.groups, b.filters, run[a].offset, j);
      }
    }
  }

  lemma {:induction false} Quotients(a: nat, b: nat)
    requires a <= b
    ensures a / BASE <= b / BASE
  {
  }

  lemma {:induction false} OffsetsMatch(b: FilterBlockBuilder)
    requires b.Valid()
    ensures |b.filterOffsets| == |b.groups|
  {
  }

  lemma {:induction false} StoredGroups(b: FilterBlockBuilder)
    requires b.Valid()
    ensures |b.groups| == |b.filters|
    ensures forall g | 0 <= g < |b.groups| :: Stores(b.policy.hash, b.policy.k, b.groups[g], b.filters[g])
  {
  }
}
