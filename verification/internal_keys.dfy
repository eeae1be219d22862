/** Internal keys: a user key, a sequence number and a value type, and the order of
    `InternalKeyComparator`.

    A user key is an element of an arbitrary total order, supplied to the database as a
    comparator.  Every countable total order embeds into the reals, so a user key is a
    `real` here; `Bytewise.RankIsAnOrderEmbedding` gives the embedding for byte strings. */
module InternalKeys {

  type UserKey = real
  type Payload = string

  /** kMaxSequenceNumber: eight bits of the packed 64-bit word are kept for the type. */
  const MAX_SEQUENCE: nat := 0xff_ffff_ffff_ffff

  type SequenceNumber = n: nat | n <= MAX_SEQUENCE

  datatype ValueType = TypeDeletion | TypeValue

  datatype InternalKey = InternalKey(user: UserKey, sequence: SequenceNumber, kind: ValueType)

  datatype Entry = Entry(key: InternalKey, value: Payload)

  /** PackSequenceAndType. */
  function Pack(sequence: SequenceNumber, kind: ValueType): nat {
    sequence * 256 + if kind == TypeValue then 1 else 0
  }

  /** The internal order: user keys ascending, then packed sequence and type descending. */
  predicate Less(a: InternalKey, b: InternalKey) {
    a.user < b.user || (a.user == b.user && Pack(a.sequence, a.kind) > Pack(b.sequence, b.kind))
  }

  /** The key that sorts before every entry of `k` with sequence at most `s`, and after the
      entries of `k` with a larger one (kValueTypeForSeek). */
  function SeekKey(k: UserKey, s: SequenceNumber): InternalKey {
    InternalKey(k, s, TypeValue)
  }

  /** Memtables and tables are strictly sorted runs of entries. */
  ghost predicate SortedRun(es: seq<Entry>) {
    forall i, j | 0 <= i < j < |es| :: Less(es[i].key, es[j].key)
  }

  lemma {:induction false} SortedPair(es: seq<Entry>, i: nat, j: nat)
    requires SortedRun(es) && i < |es| && j < |es|
    ensures i < j ==> Less(es[i].key, es[j].key)
    ensures j < i ==> Less(es[j].key, es[i].key)
  {
  }

  ghost predicate Visible(e: Entry, k: UserKey, s: SequenceNumber) {
    e.key.user == k && e.key.sequence <= s
  }

  /** `e` is the newest entry of `k` at sequence `s` among `es`. */
  ghost predicate IsNewest(es: set<Entry>, k: UserKey, s: SequenceNumber, e: Entry) {
    && e in es
    && Visible(e, k, s)
    && forall x | x in es && Visible(x, k, s) :: x.key.sequence <= e.key.sequence
  }

  ghost predicate NoneVisible(es: set<Entry>, k: UserKey, s: SequenceNumber) {
    forall x | x in es :: !Visible(x, k, s)
  }

  /** A read of `k` at `s` over the entries `es` finds the value `v`. */
  ghost predicate Yields(es: set<Entry>, k: UserKey, s: SequenceNumber, v: Payload) {
    exists e :: IsNewest(es, k, s, e) && e.key.kind == TypeValue && e.value == v
  }

  /** No two entries of one user key carry the same sequence number. */
  ghost predicate UniqueSequences(es: set<Entry>) {
    forall a, b | a in es && b in es && a.key.user == b.key.user && a.key.sequence == b.key.sequence :: a == b
  }

  /** On every user key they share, all of `a` is newer than all of `b`. */
  ghost predicate Newer(a: set<Entry>, b: set<Entry>) {
    forall x, y | x in a && y in b && x.key.user == y.key.user :: x.key.sequence > y.key.sequence
  }

  ghost function SetOf<T>(es: seq<T>): set<T> {
    set e | e in es
  }

  /** An outcome of a lookup in one sorted source. */
  datatype Probe = Miss | Hit(entry: Entry)

  /** The position of the first key not below `target`. */
  function SeekIndex(es: seq<Entry>, target: InternalKey): (i: nat)
    ensures i <= |es|
    ensures forall j | 0 <= j < i :: Less(es[j].key, target)
    ensures i < |es| ==> !Less(es[i].key, target)
  {
    if es == [] || !Less(es[0].key, target) then 0 else 1 + SeekIndex(es[1..], target)
  }

  /** MemTable::Get and Table::InternalGet followed by SaveValue: seek, then compare the user key. */
  function Lookup(es: seq<Entry>, k: UserKey, s: SequenceNumber): Probe {
    var i := SeekIndex(es, SeekKey(k, s));
    if i < |es| && es[i].key.user == k then Hit(es[i]) else Miss
  }

  ghost predicate ProbeIsNewest(p: Probe, es: set<Entry>, k: UserKey, s: SequenceNumber) {
    match p
    case Miss => NoneVisible(es, k, s)
    case Hit(e) => IsNewest(es, k, s, e)
  }

  /** One seek in a sorted run finds the newest visible entry of the key. */
  lemma {:induction false} LookupFindsNewest(es: seq<Entry>, k: UserKey, s: SequenceNumber)
    requires SortedRun(es)
    ensures ProbeIsNewest(Lookup(es, k, s), SetOf(es), k, s)
  {
    var i := SeekIndex(es, SeekKey(k, s));
    forall x | x in SetOf(es) && Visible(x, k, s)
      ensures i < |es| && es[i].key.user == k && x.key.sequence <= es[i].key.sequence
    {
      var j :| 0 <= j < |es| && es[j] == x;
      assert !Less(x.key, SeekKey(k, s));
      assert i <= j;
    }
  }

  /** If all of `a` is newer than `b`, then `b` is consulted only when `a` shows nothing. */
  lemma {:induction false} NewestOfLayers(p: Probe, q: Probe, a: set<Entry>, b: set<Entry>, k: UserKey, s: SequenceNumber)
    requires Newer(a, b)
    requires ProbeIsNewest(p, a, k, s)
    requires p.Miss? ==> ProbeIsNewest(q, b, k, s)
    ensures ProbeIsNewest(if p.Hit? then p else q, a + b, k, s)
  {
  }

  lemma {:induction false} AnswerIsYield(p: Probe, es: set<Entry>, k: UserKey, s: SequenceNumber, v: Payload)
    requires UniqueSequences(es)
    requires ProbeIsNewest(p, es, k, s)
    ensures Yields(es, k, s, v) <==> (p.Hit? && p.entry.key.kind == TypeValue && p.entry.value == v)
  {
    if Yields(es, k, s, v) {
      var e :| IsNewest(es, k, s, e) && e.key.kind == TypeValue && e.value == v;
      assert p.Hit?;
      assert e.key.sequence == p.entry.key.sequence;
    }
  }

  /** Putting newer entries on top leaves the answer alone where they are not visible, and
      hides everything below where they are. */
  lemma {:induction false} YieldsOfLayers(a: set<Entry>, b: set<Entry>, k: UserKey, s: SequenceNumber, v: Payload)
    requires Newer(a, b)
    ensures Yields(a + b, k, s, v) <==>
            if NoneVisible(a, k, s) then Yields(b, k, s, v) else Yields(a, k, s, v)
  {
    if NoneVisible(a, k, s) {
      forall e ensures IsNewest(a + b, k, s, e) <==> IsNewest(b, k, s, e) {
      }
    } else {
      var w :| w in a && Visible(w, k, s);
      forall e ensures IsNewest(a + b, k, s, e) <==> IsNewest(a, k, s, e) {
        if IsNewest(a + b, k, s, e) {
          assert w.key.sequence <= e.key.sequence;
        }
      }
    }
  }
}
