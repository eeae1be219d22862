/** DBIter: a cursor over the live user keys, built on a cursor over internal entries. */
module DbIter {
  import opened Common
  import opened InternalKeys
  import opened Version
  import opened InternalIterators

  // ---------------------------------------------------------------- the visible map as a list

  /** Entry `i` is what a reader at `s` sees of its user key: a value, and the newest visible. */
  ghost predicate IsLive(es: seq<Entry>, s: SequenceNumber, i: nat) {
    && i < |es|
    && es[i].key.sequence <= s
    && es[i].key.kind == TypeValue
    && forall j | 0 <= j < i && es[j].key.user == es[i].key.user :: es[j].key.sequence > s
  }

  /** The live positions below `n`, in order. */
  ghost function Live(es: seq<Entry>, s: SequenceNumber, n: nat): seq<nat> {
    if n == 0 then [] else Live(es, s, n - 1) + if IsLive(es, s, n - 1) then [n - 1] else []
  }

  /** The live keys and values in key order: what an iterator at `s` enumerates. */
  ghost function LiveList(es: seq<Entry>, s: SequenceNumber): seq<(UserKey, Payload)> {
    var live := Live(es, s, |es|);
    LiveBounds(es, s, |es|);
    seq(|live|, r requires 0 <= r < |live| => (es[live[r]].key.user, es[live[r]].value))
  }

  lemma {:induction false} LiveBounds(es: seq<Entry>, s: SequenceNumber, n: nat)
    ensures forall r | 0 <= r < |Live(es, s, n)| :: Live(es, s, n)[r] < n && IsLive(es, s, Live(es, s, n)[r])
    ensures forall r, r' | 0 <= r < r' < |Live(es, s, n)| :: Live(es, s, n)[r] < Live(es, s, n)[r']
  {
    if n > 0 {
      LiveBounds(es, s, n - 1);
    }
  }

  lemma {:induction false} NoneLiveBetween(es: seq<Entry>, s: SequenceNumber, a: nat, b: nat)
    requires a <= b && forall i | a <= i < b :: !IsLive(es, s, i)
    ensures Live(es, s, a) == Live(es, s, b)
  {
    if a < b {
      NoneLiveBetween(es, s, a, b - 1);
    }
  }

  /** A live position is found in the list at its rank. */
  lemma {:induction false} LiveRank(es: seq<Entry>, s: SequenceNumber, i: nat, n: nat)
    requires IsLive(es, s, i) && i < n
    ensures |Live(es, s, i)| < |Live(es, s, n)| && Live(es, s, n)[|Live(es, s, i)|] == i
  {
    if i < n - 1 {
      LiveRank(es, s, i, n - 1);
    }
  }

  lemma {:induction false} UsersAscend(es: seq<Entry>, i: nat, j: nat)
    requires SortedRun(es) && i <= j < |es|
    ensures es[i].key.user <= es[j].key.user
  {
    assert i == j || Less(es[i].key, es[j].key);
  }

  /** The list is strictly sorted by key and holds exactly the answers of point lookups at `s`. */
  lemma {:induction false} LiveListIsVisibleMap(es: seq<Entry>, s: SequenceNumber)
    requires SortedRun(es)
    ensures var l := LiveList(es, s);
            && (forall r, r' | 0 <= r < r' < |l| :: l[r].0 < l[r'].0)
            && (forall k, v :: (k, v) in l <==> Yields(SetOf(es), k, s, v))
  {
    var live, l := Live(es, s, |es|), LiveList(es, s);
    LiveBounds(es, s, |es|);
    forall r, r' | 0 <= r < r' < |l| ensures l[r].0 < l[r'].0 {
      UsersAscend(es, live[r], live[r']);
      assert IsLive(es, s, live[r']);
    }
    forall k, v ensures (k, v) in l <==> Yields(SetOf(es), k, s, v) {
      if (k, v) in l {
        var r :| 0 <= r < |l| && l[r] == (k, v);
        LiveIsNewest(es, s, live[r]);
      }
      if Yields(SetOf(es), k, s, v) {
        var e :| IsNewest(SetOf(es), k, s, e) && e.key.kind == TypeValue && e.value == v;
        NewestIsLive(es, s, k, e);
      }
    }
  }

  lemma {:induction false} LiveIsNewest(es: seq<Entry>, s: SequenceNumber, i: nat)
    requires SortedRun(es) && IsLive(es, s, i)
    ensures Yields(SetOf(es), es[i].key.user, s, es[i].value)
  {
    var e := es[i];
    forall x | x in SetOf(es) && Visible(x, e.key.user, s) ensures x.key.sequence <= e.key.sequence {
      var j :| 0 <= j < |es| && es[j] == x;
      assert i <= j;
      assert i == j || Less(e.key, x.key);
    }
    assert IsNewest(SetOf(es), e.key.user, s, e);
  }

  lemma {:induction false} NewestIsLive(es: seq<Entry>, s: SequenceNumber, k: UserKey, e: Entry)
    requires SortedRun(es) && IsNewest(SetOf(es), k, s, e) && e.key.kind == TypeValue
    ensures (k, e.value) in LiveList(es, s)
  {
    var i :| 0 <= i < |es| && es[i] == e;
    forall j | 0 <= j < i && es[j].key.user == k ensures es[j].key.sequence > s {
      assert Less(es[j].key, es[i].key);
      assert es[j] in SetOf(es);
      if es[j].key.sequence <= s {
        assert Visible(es[j], k, s);
      }
    }
    LiveRank(es, s, i, |es|);
    LiveBounds(es, s, |es|);
    assert LiveList(es, s)[|Live(es, s, i)|] == (k, e.value);
  }

  // ---------------------------------------------------------------- the iterator

  /** Every entry at or after `lo` and before `hi` is too new for the reader. */
  ghost predicate AllTooNew(es: seq<Entry>, s: SequenceNumber, lo: nat, hi: nat) {
    forall j | lo <= j < hi && j < |es| :: es[j].key.sequence > s
  }

  class DBIter {
    const iter: InternalIterator
    const sequence: SequenceNumber
    var savedKey: Option<UserKey>
    var savedValue: Payload
    var direction: Direction
    var valid: bool
    /** The entry the iterator stands for. */
    ghost var current: nat

    ghost predicate Ok()
      reads this, iter
    {
      && SortedRun(iter.entries)
      && iter.pos <= |iter.entries|
      && (valid ==> IsLive(iter.entries, sequence, current))
      && (valid && direction == Forward ==> iter.pos == current)
      && (valid && direction == Reverse ==>
            && savedKey == Some(iter.entries[current].key.user)
            && savedValue == iter.entries[current].value
            && ReverseAt(iter.entries, sequence, iter.pos, current))
    }

    /** Where the iterator stands in the list of live keys. */
    ghost function Position(): Option<nat>
      reads this, iter
    {
      if valid then Some(|Live(iter.entries, sequence, current)|) else None
    }

    ghost function List(): seq<(UserKey, Payload)>
    {
      LiveList(iter.entries, sequence)
    }

    constructor (iter: InternalIterator, s: SequenceNumber)
      requires SortedRun(iter.entries) && iter.pos <= |iter.entries|
      ensures Ok() && this.iter == iter && sequence == s && Position() == None
    {
      this.iter := iter;
      this.sequence := s;
      this.savedKey := None;
      this.savedValue := "";
      this.direction := Forward;
      this.valid := false;
      this.current := 0;
    }

    method Key() returns (k: UserKey)
      requires Ok() && valid
      ensures Position().value < |List()| && k == List()[Position().value].0
    {
      LiveRank(iter.entries, sequence, current, |iter.entries|);
      k := if direction == Forward then iter.Key().user else savedKey.value;
    }

    method Value() returns (v: Payload)
      requires Ok() && valid
      ensures Position().value < |List()| && v == List()[Position().value].1
    {
      LiveRank(iter.entries, sequence, current, |iter.entries|);
      v := if direction == Forward then iter.entries[iter.pos].value else savedValue;
    }

    /** Moves forward to the next entry to yield.  Entries below `from` have been dealt with: if
        any is still ahead it is the one to skip, or too new. */
    method FindNextUserEntry(skipping0: bool, ghost from: nat)
      requires SortedRun(iter.entries) && iter.Valid() && direction == Forward
      requires SkipState(iter.entries, sequence, iter.pos, from, skipping0, savedKey)
      modifies this, iter
      ensures Ok() && direction == Forward
      ensures var r := |Live(iter.entries, sequence, from)|;
              Position() == if r < |List()| then Some(r) else None
    {
      hide SkipState, IsLive, SortedRun, Live, AllTooNew, ReverseAt;
      var skipping := skipping0;
      ghost var es := iter.entries;
      while true
        invariant iter.Valid() && direction == Forward && iter.entries == es
        invariant SkipState(es, sequence, iter.pos, from, skipping, savedKey)
        decreases |es| - iter.pos
      {
        SkipStateHasKey(es, sequence, iter.pos, from, skipping, savedKey);
        var e := iter.entries[iter.pos];
        if e.key.sequence <= sequence {
          if e.key.kind == TypeDeletion {
            SkipStateDeletion(es, sequence, iter.pos, from, skipping, savedKey);
            savedKey := Some(e.key.user);
            skipping := true;
          } else if skipping && e.key.user <= savedKey.value {
            SkipStatePast(es, sequence, iter.pos, from, skipping, savedKey);
          } else {
            SkipStateFound(es, sequence, iter.pos, from, skipping, savedKey);
            valid := true;
            savedKey := None;
            current := iter.pos;
            return;
          }
        } else {
          SkipStatePast(es, sequence, iter.pos, from, skipping, savedKey);
        }
        iter.Next();
        if !iter.Valid() {
          SkipStateEnd(es, sequence, from, skipping, savedKey);
          break;
        }
      }
      savedKey := None;
      valid := false;
    }

    /** Moves backward to the previous entry to yield, among the entries at or before the internal
        cursor (none if it is invalid). */
    method FindPrevUserEntry(ghost top: nat)
      requires SortedRun(iter.entries) && direction == Reverse && iter.pos <= |iter.entries|
      requires top <= |iter.entries| && (if iter.Valid() then top == iter.pos + 1 else top == 0)
      modifies this, iter
      ensures Ok()
      ensures var r := |Live(iter.entries, sequence, top)|;
              Position() == if r > 0 then Some(r - 1) else None
    {
      var valueType := TypeDeletion;
      ghost var es := iter.entries;
      ghost var first := top;
      ghost var below := top;
      while iter.Valid()
        invariant iter.entries == es && direction == Reverse && iter.pos <= |es|
        invariant if iter.Valid() then below == iter.pos + 1 else below == 0
        invariant ScanState(es, sequence, below, top, first, valueType, savedKey, savedValue)
        decreases below
      {
        var e := iter.entries[iter.pos];
        if e.key.sequence <= sequence {
          if valueType != TypeDeletion && e.key.user < savedKey.value {
            break;
          }
          ScanStateVisible(es, sequence, below, top, first, valueType, savedKey, savedValue);
          valueType := e.key.kind;
          first := iter.pos;
          if valueType == TypeDeletion {
            savedKey := None;
            savedValue := "";
          } else {
            savedKey := Some(e.key.user);
            savedValue := e.value;
          }
        }
        below := iter.pos;
        iter.Prev();
      }
      ScanStateEnd(es, sequence, below, top, first, valueType, savedKey, savedValue);
      if valueType == TypeDeletion {
        valid := false;
        savedKey := None;
        savedValue := "";
        direction := Forward;
      } else {
        valid := true;
        current := first;
      }
    }

    method Next()
      requires Ok() && valid
      modifies this, iter
      ensures Ok()
      ensures Position() == if old(Position().value) + 1 < |List()| then Some(old(Position().value) + 1) else None
    {
      ghost var es := iter.entries;
      LiveRank(es, sequence, current, |es|);
      if direction == Reverse {
        direction := Forward;
        if !iter.Valid() {
          iter.SeekToFirst();
        } else {
          iter.Next();
        }
        // The entry just left lies ahead, so the internal cursor cannot have run off the end.
        if !iter.Valid() {
          assert false;
        }
      } else {
        savedKey := Some(iter.Key().user);
      }
      SkipCurrent(es, sequence, iter.pos, current, savedKey);
      FindNextUserEntry(true, current + 1);
    }

    method Prev()
      requires Ok() && valid
      modifies this, iter
      ensures Ok()
      ensures Position() == if old(Position().value) > 0 then Some(old(Position().value) - 1) else None
    {
      ghost var es := iter.entries;
      if direction == Forward {
        savedKey := Some(iter.Key().user);
        var found := BackToSmallerKey();
        if !found {
          valid := false;
          savedKey := None;
          savedValue := "";
          return;
        }
        direction := Reverse;
      }
      TooNewIsDead(es, sequence, if iter.Valid() then iter.pos + 1 else 0, current);
      FindPrevUserEntry(if iter.Valid() then iter.pos + 1 else 0);
    }

    /** The loop of Prev that leaves the entries of the current key behind. */
    method BackToSmallerKey() returns (found: bool)
      requires SortedRun(iter.entries) && IsLive(iter.entries, sequence, current) && iter.pos == current
      requires savedKey == Some(iter.entries[current].key.user)
      modifies iter
      ensures iter.pos <= |iter.entries| && found == iter.Valid()
      ensures found ==> ReverseAt(iter.entries, sequence, iter.pos, current)
      ensures !found ==> |Live(iter.entries, sequence, current)| == 0
    {
      ghost var es := iter.entries;
      while true
        invariant iter.pos <= current
        invariant AllTooNew(es, sequence, iter.pos, current)
        decreases iter.pos
      {
        iter.Prev();
        if !iter.Valid() {
          TooNewIsDead(es, sequence, 0, current);
          return false;
        }
        if iter.Key().user < savedKey.value {
          return true;
        }
        UsersAscend(es, iter.pos, current);
      }
    }

    method Seek(target: UserKey)
      requires Ok()
      modifies this, iter
      ensures Ok()
      ensures var l := List();
              match Position()
              case Some(r) => r < |l| && target <= l[r].0 && forall r' | 0 <= r' < r :: l[r'].0 < target
              case None => forall r | 0 <= r < |l| :: l[r].0 < target
    {
      hide SkipState, AllTooNew, ReverseAt;
      direction := Forward;
      savedValue := "";
      savedKey := None;
      ghost var es := iter.entries;
      iter.Seek(SeekKey(target, sequence));
      SeekSplits(es, sequence, target);
      if iter.Valid() {
        StartFresh(es, sequence, iter.pos, target);
        FindNextUserEntry(false, iter.pos);
      } else {
        valid := false;
      }
    }

    method SeekToFirst()
      requires Ok()
      modifies this, iter
      ensures Ok()
      ensures Position() == if List() == [] then None else Some(0)
    {
      direction := Forward;
      savedValue := "";
      iter.SeekToFirst();
      if iter.Valid() {
        FindNextUserEntry(false, 0);
      } else {
        valid := false;
      }
    }

    method SeekToLast()
      requires Ok()
      modifies this, iter
      ensures Ok()
      ensures Position() == if List() == [] then None else Some(|List()| - 1)
    {
      direction := Reverse;
      savedValue := "";
      iter.SeekToLast();
      FindPrevUserEntry(|iter.entries|);
    }
  }

  // ---------------------------------------------------------------- moving forward

  /** Something visible of user key `k` lies before `end`. */
  ghost predicate SeenBefore(es: seq<Entry>, s: SequenceNumber, end: nat, k: UserKey) {
    exists j :: 0 <= j < end && j < |es| && es[j].key.sequence <= s && es[j].key.user == k
  }

  /** The forward scan at `pos`.  Before `from` lie only entries too new, and last the current
      entry, which is to be skipped; from `from` on, a key is skipped exactly when something
      visible of it lies behind. */
  ghost predicate SkipState(es: seq<Entry>, s: SequenceNumber, pos: nat, from: nat, skipping: bool, skip: Option<UserKey>) {
    && pos <= |es| && from <= |es|
    && (skipping ==> skip.Some? && SeenBefore(es, s, if pos < from then from else pos, skip.value))
    && (pos < from ==>
          && skipping && es[from - 1].key.user == skip.value && es[from - 1].key.kind == TypeValue
          && AllTooNew(es, s, pos, from - 1))
    && (pos >= from ==>
          && (forall i | from <= i < pos :: !IsLive(es, s, i))
          && (forall i | pos <= i < |es| && SeenBefore(es, s, pos, es[i].key.user) ::
                skipping && es[i].key.user == skip.value))
  }

  lemma {:induction false} SkipStateHasKey(es: seq<Entry>, s: SequenceNumber, pos: nat, from: nat, skipping: bool, skip: Option<UserKey>)
    requires SkipState(es, s, pos, from, skipping, skip)
    ensures skipping ==> skip.Some?
  {
  }

  lemma {:induction false} SkipCurrent(es: seq<Entry>, s: SequenceNumber, pos: nat, current: nat, skip: Option<UserKey>)
    requires SortedRun(es) && IsLive(es, s, current) && pos <= current && AllTooNew(es, s, pos, current)
    requires skip == Some(es[current].key.user)
    ensures SkipState(es, s, pos, current + 1, true, skip)
  {
    assert SeenBefore(es, s, current + 1, skip.value);
  }

  lemma {:induction false} StartFresh(es: seq<Entry>, s: SequenceNumber, p: nat, target: UserKey)
    requires SortedRun(es) && p == SeekIndex(es, SeekKey(target, s))
    ensures SkipState(es, s, p, p, false, None)
  {
    forall i | p <= i < |es| ensures !SeenBefore(es, s, p, es[i].key.user) {
      assert i == p || Less(es[p].key, es[i].key);
      assert !Less(es[i].key, SeekKey(target, s));
    }
  }

  /** Passing an entry of the current key, or one too new. */
  lemma {:induction false} SkipStatePast(es: seq<Entry>, s: SequenceNumber, pos: nat, from: nat, skipping: bool, skip: Option<UserKey>)
    requires SortedRun(es) && SkipState(es, s, pos, from, skipping, skip) && pos < |es|
    requires es[pos].key.sequence > s || (skipping && es[pos].key.user <= skip.value && es[pos].key.kind == TypeValue)
    ensures SkipState(es, s, pos + 1, from, skipping, skip)
  {
    if pos + 1 >= from {
      forall i | pos + 1 <= i < |es| && SeenBefore(es, s, pos + 1, es[i].key.user)
        ensures skipping && es[i].key.user == skip.value
      {
        var j :| 0 <= j < pos + 1 && es[j].key.sequence <= s && es[j].key.user == es[i].key.user;
        UsersAscend(es, j, pos);
        UsersAscend(es, pos, i);
        if pos >= from {
          if j < pos { assert SeenBefore(es, s, pos, es[i].key.user); }
          else { SkippedUser(es, s, pos, skip.value); }
        }
      }
      if pos >= from && es[pos].key.sequence <= s {
        SkippedUser(es, s, pos, skip.value);
      }
    }
  }

  /** A key not above the skipped one, seen after it, is the skipped one; so its entry is dead. */
  lemma {:induction false} SkippedUser(es: seq<Entry>, s: SequenceNumber, pos: nat, k: UserKey)
    requires SortedRun(es) && pos < |es| && SeenBefore(es, s, pos, k) && es[pos].key.user <= k
    ensures es[pos].key.user == k && !IsLive(es, s, pos)
  {
    var j :| 0 <= j < pos && es[j].key.sequence <= s && es[j].key.user == k;
    UsersAscend(es, j, pos);
  }

  /** A visible deletion marker: its key is skipped from here on. */
  lemma {:induction false} SkipStateDeletion(es: seq<Entry>, s: SequenceNumber, pos: nat, from: nat, skipping: bool, skip: Option<UserKey>)
    requires SortedRun(es) && SkipState(es, s, pos, from, skipping, skip) && pos < |es|
    requires es[pos].key.sequence <= s && es[pos].key.kind == TypeDeletion
    ensures SkipState(es, s, pos + 1, from, true, Some(es[pos].key.user))
  {
    assert pos >= from;
    assert SeenBefore(es, s, pos + 1, es[pos].key.user);
    forall i | pos + 1 <= i < |es| && SeenBefore(es, s, pos + 1, es[i].key.user)
      ensures es[i].key.user == es[pos].key.user
    {
      var j :| 0 <= j < pos + 1 && es[j].key.sequence <= s && es[j].key.user == es[i].key.user;
      UsersAscend(es, j, pos);
      UsersAscend(es, pos, i);
    }
  }

  /** A visible value that is not skipped is the next live entry. */
  lemma {:induction false} SkipStateFound(es: seq<Entry>, s: SequenceNumber, pos: nat, from: nat, skipping: bool, skip: Option<UserKey>)
    requires SortedRun(es) && SkipState(es, s, pos, from, skipping, skip) && pos < |es|
    requires es[pos].key.sequence <= s && es[pos].key.kind == TypeValue
    requires !(skipping && es[pos].key.user <= skip.value)
    ensures IsLive(es, s, pos) && Live(es, s, pos) == Live(es, s, from)
    ensures |Live(es, s, from)| < |LiveList(es, s)|
  {
    assert pos >= from;
    assert !SeenBefore(es, s, pos, es[pos].key.user);
    NoneLiveBetween(es, s, from, pos);
    LiveRank(es, s, pos, |es|);
  }

  lemma {:induction false} SkipStateEnd(es: seq<Entry>, s: SequenceNumber, from: nat, skipping: bool, skip: Option<UserKey>)
    requires SkipState(es, s, |es|, from, skipping, skip)
    ensures |Live(es, s, from)| == |LiveList(es, s)|
  {
    NoneLiveBetween(es, s, from, |es|);
  }

  // ---------------------------------------------------------------- moving backward

  /** Standing before an entry in reverse: nothing visible lies in between. */
  ghost predicate ReverseAt(es: seq<Entry>, s: SequenceNumber, pos: nat, current: nat)
    requires current < |es|
  {
    if pos < |es| then pos < current && AllTooNew(es, s, pos + 1, current) else AllTooNew(es, s, 0, current)
  }

  lemma {:induction false} TooNewIsDead(es: seq<Entry>, s: SequenceNumber, a: nat, b: nat)
    requires a <= b <= |es| && AllTooNew(es, s, a, b)
    ensures Live(es, s, a) == Live(es, s, b)
  {
    NoneLiveBetween(es, s, a, b);
  }

  /** The backward scan: the entries in [below, top) are done; `first` is the earliest visible one
      among them, or `top`, and nothing after it is live. */
  ghost predicate ScanState(es: seq<Entry>, s: SequenceNumber, below: nat, top: nat, first: nat,
                            kind: ValueType, savedKey: Option<UserKey>, savedValue: Payload)
  {
    && below <= first <= top <= |es|
    && AllTooNew(es, s, below, first)
    && (first == top ==> kind == TypeDeletion)
    && (first < top ==>
          && es[first].key.sequence <= s && kind == es[first].key.kind
          && (forall i | first < i < top :: !IsLive(es, s, i))
          && (kind == TypeValue ==> savedKey == Some(es[first].key.user) && savedValue == es[first].value))
  }

  /** A visible entry of the same key, or any after a deletion marker, takes over. */
  lemma {:induction false} ScanStateVisible(es: seq<Entry>, s: SequenceNumber, below: nat, top: nat, first: nat,
                                            kind: ValueType, savedKey: Option<UserKey>, savedValue: Payload)
    requires SortedRun(es) && ScanState(es, s, below, top, first, kind, savedKey, savedValue) && 0 < below
    requires es[below - 1].key.sequence <= s
    requires !(kind != TypeDeletion && es[below - 1].key.user < savedKey.value)
    ensures forall i | below - 1 < i < top :: !IsLive(es, s, i)
  {
    if first < top && kind == TypeValue {
      UsersAscend(es, below - 1, first);
    }
  }

  lemma {:induction false} ScanStateEnd(es: seq<Entry>, s: SequenceNumber, below: nat, top: nat, first: nat,
                                        kind: ValueType, savedKey: Option<UserKey>, savedValue: Payload)
    requires SortedRun(es) && ScanState(es, s, below, top, first, kind, savedKey, savedValue)
    requires below > 0 ==> kind == TypeValue && es[below - 1].key.user < savedKey.value
    ensures kind == TypeDeletion ==> |Live(es, s, top)| == 0
    ensures kind == TypeValue ==> first < top && IsLive(es, s, first) && |Live(es, s, top)| == |Live(es, s, first)| + 1
  {
    if kind == TypeDeletion {
      NoneLiveBetween(es, s, 0, top);
    } else {
      forall j | 0 <= j < first && es[j].key.user == es[first].key.user ensures es[j].key.sequence > s {
        if j < below {
          UsersAscend(es, j, below - 1);
        }
      }
      NoneLiveBetween(es, s, first + 1, top);
    }
  }

  // ---------------------------------------------------------------- seeking

  lemma {:induction false} LivePrefix(es: seq<Entry>, s: SequenceNumber, a: nat, b: nat)
    requires a <= b
    ensures Live(es, s, a) <= Live(es, s, b)
  {
    if a < b {
      LivePrefix(es, s, a, b - 1);
    }
  }

  lemma {:induction false} RestIsLater(es: seq<Entry>, s: SequenceNumber, a: nat, b: nat)
    requires a <= b
    ensures forall r | |Live(es, s, a)| <= r < |Live(es, s, b)| :: a <= Live(es, s, b)[r]
  {
    if a < b {
      RestIsLater(es, s, a, b - 1);
      LivePrefix(es, s, a, b - 1);
    }
  }

  /** The live keys before the place sought are exactly those below the target. */
  lemma {:induction false} SeekSplits(es: seq<Entry>, s: SequenceNumber, target: UserKey)
    requires SortedRun(es)
    ensures var l, n := LiveList(es, s), |Live(es, s, SeekIndex(es, SeekKey(target, s)))|;
            && n <= |l|
            && (forall r | 0 <= r < n :: l[r].0 < target)
            && (forall r | n <= r < |l| :: target <= l[r].0)
  {
    var p := SeekIndex(es, SeekKey(target, s));
    LivePrefix(es, s, p, |es|);
    RestIsLater(es, s, p, |es|);
    LiveBounds(es, s, p);
    LiveBounds(es, s, |es|);
    var live := Live(es, s, |es|);
    forall r | 0 <= r < |live| ensures r < |Live(es, s, p)| <==> es[live[r]].key.user < target {
      var i := live[r];
      assert IsLive(es, s, i);
      if r < |Live(es, s, p)| {
        assert Live(es, s, p)[r] == i;
        assert Less(es[i].key, SeekKey(target, s));
      } else {
        assert i == p || Less(es[p].key, es[i].key);
        assert !Less(es[i].key, SeekKey(target, s));
      }
    }
  }
}
