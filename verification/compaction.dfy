/** The work of a compaction: which merged entries are kept, and how they are cut into files. */
module CompactionWork {
  import opened Common
  import opened InternalKeys
  import opened Version
  import opened Ranges

  /** No file deeper than level + 1 has a range that holds `k`. */
  ghost predicate BaseLevel(levels: Levels, level: nat, k: UserKey) {
    forall lvl, j | level + 2 <= lvl < |levels| && 0 <= j < |levels[lvl]| :: !levels[lvl][j].Covers(k)
  }

  /** The cursor state of IsBaseLevelForKey: one file position per deeper level, only ever moved
      forward; and that of ShouldStopBefore over the grandparents. */
  class Compaction {
    const level: nat
    const inputVersion: Levels
    const grandparents: Level
    var levelPtrs: array<nat>
    var grandparentIndex: nat
    var seenKey: bool
    var overlappedBytes: nat
    /** No key below this one is asked about again. */
    ghost var asked: Option<UserKey>

    ghost predicate Valid()
      reads this, levelPtrs
    {
      && levelPtrs.Length == |inputVersion|
      && (forall lvl | level + 2 <= lvl < |inputVersion| ::
            && AllValid(inputVersion[lvl])
            && UserOrdered(inputVersion[lvl])
            && levelPtrs[lvl] <= |inputVersion[lvl]|
            && Passed(inputVersion[lvl], levelPtrs[lvl], asked))
    }

    function StopState(): StopCursor
      reads this
    {
      StopCursor(grandparentIndex, seenKey, overlappedBytes)
    }

    constructor (level: nat, levels: Levels, grandparents: Level)
      requires forall lvl | level + 2 <= lvl < |levels| :: AllValid(levels[lvl]) && UserOrdered(levels[lvl])
      ensures Valid() && fresh(levelPtrs)
      ensures this.level == level && inputVersion == levels && asked == None
      ensures this.grandparents == grandparents && StopState() == StopCursor(0, false, 0)
    {
      this.grandparents, grandparentIndex, seenKey, overlappedBytes := grandparents, 0, false, 0;
      this.level := level;
      this.inputVersion := levels;
      this.levelPtrs := new nat[|levels|](_ => 0);
      this.asked := None;
    }

    /** IsBaseLevelForKey agrees with a full scan of the deeper levels, as long as the keys it is
        asked about never decrease. */
    method IsBaseLevelForKey(k: UserKey) returns (base: bool)
      requires Valid()
      requires asked.Some? ==> asked.value <= k
      modifies this`asked, levelPtrs
      ensures Valid() && asked == Some(k)
      ensures base <==> BaseLevel(inputVersion, level, k)
    {
      asked := Some(k);
      var lvl := level + 2;
      while lvl < |inputVersion|
        invariant level + 2 <= lvl
        invariant Valid() && asked == Some(k)
        invariant forall l, j | level + 2 <= l < lvl && l < |inputVersion| && 0 <= j < |inputVersion[l]| ::
                    !inputVersion[l][j].Covers(k)
      {
        var files := inputVersion[lvl];
        while levelPtrs[lvl] < |files|
          invariant Valid() && asked == Some(k)
          decreases |files| - levelPtrs[lvl]
        {
          var f := files[levelPtrs[lvl]];
          if k <= f.Hi() {
            if k >= f.Lo() {
              assert f.Covers(k);
              return false;
            }
            break;
          }
          levelPtrs[lvl] := levelPtrs[lvl] + 1;
        }
        NothingAhead(files, levelPtrs[lvl], k);
        lvl := lvl + 1;
      }
      base := true;
    }

    /** ShouldStopBefore: whether the output so far overlaps too many bytes of grandparents. */
    method ShouldStopBefore(key: InternalKey) returns (stop: bool)
      modifies this`grandparentIndex, this`seenKey, this`overlappedBytes
      ensures stop == TooMuchOverlap(grandparents, old(StopState()), key)
      ensures StopState() == AfterKey(grandparents, old(StopState()), key)
    {
      while grandparentIndex < |grandparents| && Less(grandparents[grandparentIndex].largest, key)
        invariant seenKey == old(seenKey)
        invariant PassGrandparents(grandparents, old(StopState()), key) == PassGrandparents(grandparents, StopState(), key)
        decreases |grandparents| - grandparentIndex
      {
        if seenKey {
          overlappedBytes := overlappedBytes + grandparents[grandparentIndex].fileSize;
        }
        grandparentIndex := grandparentIndex + 1;
      }
      seenKey := true;
      stop := overlappedBytes > MAX_GRANDPARENT_OVERLAP_BYTES;
      if stop {
        overlappedBytes := 0;
      }
    }
  }

  // ---------------------------------------------------------------- where outputs end

  /** How far the keys have come over the grandparents, and how many bytes of them the current output overlaps. */
  datatype StopCursor = StopCursor(index: nat, seen: bool, overlapped: nat)

  function PassGrandparents(grandparents: Level, c: StopCursor, key: InternalKey): StopCursor
    decreases |grandparents| - c.index
  {
    if c.index < |grandparents| && Less(grandparents[c.index].largest, key) then
      PassGrandparents(
        grandparents,
        StopCursor(c.index + 1, c.seen, c.overlapped + if c.seen then grandparents[c.index].fileSize else 0), key)
    else c
  }

  predicate TooMuchOverlap(grandparents: Level, c: StopCursor, key: InternalKey) {
    PassGrandparents(grandparents, c, key).overlapped > MAX_GRANDPARENT_OVERLAP_BYTES
  }

  function AfterKey(grandparents: Level, c: StopCursor, key: InternalKey): StopCursor {
    var p := PassGrandparents(grandparents, c, key);
    StopCursor(p.index, true, if p.overlapped > MAX_GRANDPARENT_OVERLAP_BYTES then 0 else p.overlapped)
  }

  /** Files sorted by user key: an earlier file ends no later than the next one starts. */
  ghost predicate UserOrdered(files: Level) {
    forall i, j | 0 <= i < j < |files| :: files[i].Hi() <= files[j].Lo()
  }

  ghost predicate Passed(files: Level, p: nat, asked: Option<UserKey>) {
    p <= |files| && forall j | 0 <= j < p :: asked.Some? && files[j].Hi() < asked.value
  }

  lemma {:induction false} NothingAhead(files: Level, p: nat, k: UserKey)
    requires AllValid(files) && UserOrdered(files) && Passed(files, p, Some(k))
    requires p < |files| ==> k < files[p].Lo()
    ensures forall j | 0 <= j < |files| :: !files[j].Covers(k)
  {
    forall j | 0 <= j < |files| ensures !files[j].Covers(k) {
      if p < j {
        FileBounds(files[p], files[p].entries[0]);
      }
    }
  }

  // ---------------------------------------------------------------- the drop rules

  /** Rule (A): the entry just before is of the same user key and already visible at the oldest
      snapshot, so this one is hidden from every reader. */
  predicate Hidden(m: seq<Entry>, i: nat, snapshot: SequenceNumber)
    requires i < |m|
  {
    i > 0 && m[i - 1].key.user == m[i].key.user && m[i - 1].key.sequence <= snapshot
  }

  /** The second rule: a deletion marker that every reader sees and that has nothing below. */
  ghost predicate Obsolete(levels: Levels, level: nat, e: Entry, snapshot: SequenceNumber) {
    e.key.kind == TypeDeletion && e.key.sequence <= snapshot && BaseLevel(levels, level, e.key.user)
  }

  ghost predicate Keeps(levels: Levels, level: nat, m: seq<Entry>, i: nat, snapshot: SequenceNumber)
    requires i < |m|
  {
    !Hidden(m, i, snapshot) && !Obsolete(levels, level, m[i], snapshot)
  }

  /** The entries of `m[..n]` a compaction writes out. */
  ghost function Kept(levels: Levels, level: nat, m: seq<Entry>, n: nat, snapshot: SequenceNumber): seq<Entry>
    requires n <= |m|
  {
    if n == 0 then []
    else
      Kept(levels, level, m, n - 1, snapshot)
      + if Keeps(levels, level, m, n - 1, snapshot) then [m[n - 1]] else []
  }

  lemma {:induction false} KeptMembers(levels: Levels, level: nat, m: seq<Entry>, n: nat, snapshot: SequenceNumber)
    requires n <= |m|
    ensures forall e :: e in Kept(levels, level, m, n, snapshot) <==>
              exists i :: 0 <= i < n && m[i] == e && Keeps(levels, level, m, i, snapshot)
  {
    if n > 0 {
      KeptMembers(levels, level, m, n - 1, snapshot);
    }
  }

  lemma {:induction false} KeptIsSorted(levels: Levels, level: nat, m: seq<Entry>, n: nat, snapshot: SequenceNumber)
    requires n <= |m| && SortedRun(m)
    ensures SortedRun(Kept(levels, level, m, n, snapshot))
  {
    if n > 0 {
      KeptIsSorted(levels, level, m, n - 1, snapshot);
      KeptMembers(levels, level, m, n - 1, snapshot);
      var r := Kept(levels, level, m, n - 1, snapshot);
      forall j | 0 <= j < |r| ensures Less(r[j].key, m[n - 1].key) {
        assert r[j] in r;
      }
    }
  }

  /** An entry is hidden exactly when a newer one of its key is visible at the oldest snapshot. */
  lemma {:induction false} HiddenMeansSuperseded(m: seq<Entry>, i: nat, snapshot: SequenceNumber)
    requires SortedRun(m) && i < |m|
    ensures Hidden(m, i, snapshot) <==>
            exists j :: 0 <= j < i && m[j].key.user == m[i].key.user && m[j].key.sequence <= snapshot
  {
    if j :| 0 <= j < i && m[j].key.user == m[i].key.user && m[j].key.sequence <= snapshot {
      assert j == i - 1 || Less(m[j].key, m[i - 1].key);
      assert Less(m[i - 1].key, m[i].key);
    }
  }

  /** Among the entries visible at the oldest snapshot, the ones not hidden are the newest. */
  lemma {:induction false} ShownMeansNewest(m: seq<Entry>, i: nat, snapshot: SequenceNumber)
    requires SortedRun(m) && UniqueSequences(SetOf(m)) && i < |m|
    ensures m[i].key.sequence > snapshot ==> !Hidden(m, i, snapshot)
    ensures m[i].key.sequence <= snapshot ==>
      (!Hidden(m, i, snapshot) <==> IsNewest(SetOf(m), m[i].key.user, snapshot, m[i]))
  {
    HiddenMeansSuperseded(m, i, snapshot);
    var e := m[i];
    if Hidden(m, i, snapshot) {
      var j :| 0 <= j < i && m[j].key.user == e.key.user && m[j].key.sequence <= snapshot;
      assert Less(m[j].key, m[i].key);
      assert m[j] in SetOf(m) && Visible(m[j], e.key.user, snapshot);
      assert m[j].key.sequence != e.key.sequence;
    } else if e.key.sequence <= snapshot {
      forall x | x in SetOf(m) && Visible(x, e.key.user, snapshot) ensures x.key.sequence <= e.key.sequence {
        var j :| 0 <= j < |m| && m[j] == x;
        assert i <= j;
        assert i == j || Less(m[i].key, m[j].key);
      }
    }
  }

  lemma {:induction false} SortedIsDistinct(m: seq<Entry>)
    requires SortedRun(m)
    ensures forall i, j | 0 <= i < j < |m| :: m[i] != m[j]
  {
    forall i, j | 0 <= i < j < |m| ensures m[i] != m[j] {
      assert Less(m[i].key, m[j].key);
    }
  }

  /** What survives: entries newer than the oldest snapshot, and of the others the newest of each
      key, unless it is a deletion marker with nothing below. */
  lemma {:induction false} KeptCharacterised(levels: Levels, level: nat, m: seq<Entry>, snapshot: SequenceNumber, e: Entry)
    requires SortedRun(m) && UniqueSequences(SetOf(m)) && e in m
    ensures e in Kept(levels, level, m, |m|, snapshot) <==>
            || e.key.sequence > snapshot
            || (IsNewest(SetOf(m), e.key.user, snapshot, e)
                && !(e.key.kind == TypeDeletion && BaseLevel(levels, level, e.key.user)))
  {
    KeptMembers(levels, level, m, |m|, snapshot);
    var i :| 0 <= i < |m| && m[i] == e;
    ShownMeansNewest(m, i, snapshot);
    SortedIsDistinct(m);
  }

  /** What the inputs must satisfy against everything stored elsewhere: where a key has no data
      deeper than the outputs, all of its data outside the inputs is newer. */
  ghost predicate NothingOlderOutside(levels: Levels, level: nat, m: seq<Entry>, rest: set<Entry>, k: UserKey) {
    BaseLevel(levels, level, k) ==>
      forall x, r | x in m && r in rest && x.key.user == k && r.key.user == k :: r.key.sequence > x.key.sequence
  }

  /** Dropping keeps every answer at or after the oldest snapshot.  `rest` is everything stored
      outside the inputs. */
  lemma {:induction false} DroppingPreservesAnswers(
      levels: Levels, level: nat, m: seq<Entry>, rest: set<Entry>,
      snapshot: SequenceNumber, k: UserKey, s: SequenceNumber, v: Payload)
    requires SortedRun(m) && UniqueSequences(rest + SetOf(m)) && snapshot <= s
    requires NothingOlderOutside(levels, level, m, rest, k)
    ensures Yields(rest + SetOf(m), k, s, v)
       <==> Yields(rest + SetOf(Kept(levels, level, m, |m|, snapshot)), k, s, v)
  {
    KeptMembers(levels, level, m, |m|, snapshot);
    assert UniqueSequences(SetOf(m)) by {
      assert forall x | x in SetOf(m) :: x in rest + SetOf(m);
    }
    if Yields(rest + SetOf(m), k, s, v) {
      var e :| IsNewest(rest + SetOf(m), k, s, e) && e.key.kind == TypeValue && e.value == v;
      NewestValueIsKept(levels, level, m, rest, snapshot, k, s, e);
    }
    if Yields(rest + SetOf(Kept(levels, level, m, |m|, snapshot)), k, s, v) {
      var e :| IsNewest(rest + SetOf(Kept(levels, level, m, |m|, snapshot)), k, s, e)
            && e.key.kind == TypeValue && e.value == v;
      NewestStaysNewest(levels, level, m, rest, snapshot, k, s, e);
    }
  }

  lemma {:induction false} NewestValueIsKept(
      levels: Levels, level: nat, m: seq<Entry>, rest: set<Entry>,
      snapshot: SequenceNumber, k: UserKey, s: SequenceNumber, e: Entry)
    requires SortedRun(m) && UniqueSequences(SetOf(m)) && snapshot <= s
    requires IsNewest(rest + SetOf(m), k, s, e) && e.key.kind == TypeValue
    ensures IsNewest(rest + SetOf(Kept(levels, level, m, |m|, snapshot)), k, s, e)
  {
    KeptMembers(levels, level, m, |m|, snapshot);
    if e !in rest {
      KeptCharacterised(levels, level, m, snapshot, e);
      assert e.key.sequence <= snapshot ==> IsNewest(SetOf(m), k, snapshot, e);
    }
  }

  lemma {:induction false} NewestStaysNewest(
      levels: Levels, level: nat, m: seq<Entry>, rest: set<Entry>,
      snapshot: SequenceNumber, k: UserKey, s: SequenceNumber, e: Entry)
    requires SortedRun(m) && UniqueSequences(SetOf(m)) && snapshot <= s
    requires NothingOlderOutside(levels, level, m, rest, k)
    requires IsNewest(rest + SetOf(Kept(levels, level, m, |m|, snapshot)), k, s, e)
    ensures IsNewest(rest + SetOf(m), k, s, e)
  {
    KeptMembers(levels, level, m, |m|, snapshot);
    forall x | x in rest + SetOf(m) && Visible(x, k, s) ensures x.key.sequence <= e.key.sequence {
      if x !in rest && x !in Kept(levels, level, m, |m|, snapshot) {
        DroppedIsOlder(levels, level, m, rest, snapshot, k, s, e, x);
      }
    }
  }

  /** No dropped entry is newer than the newest one that is left. */
  lemma {:induction false} DroppedIsOlder(
      levels: Levels, level: nat, m: seq<Entry>, rest: set<Entry>,
      snapshot: SequenceNumber, k: UserKey, s: SequenceNumber, e: Entry, x: Entry)
    requires SortedRun(m) && UniqueSequences(SetOf(m)) && snapshot <= s
    requires NothingOlderOutside(levels, level, m, rest, k)
    requires IsNewest(rest + SetOf(Kept(levels, level, m, |m|, snapshot)), k, s, e)
    requires x in m && x !in Kept(levels, level, m, |m|, snapshot) && Visible(x, k, s)
    ensures x.key.sequence <= e.key.sequence
  {
    var kept := Kept(levels, level, m, |m|, snapshot);
    KeptMembers(levels, level, m, |m|, snapshot);
    KeptCharacterised(levels, level, m, snapshot, x);
    LookupFindsNewest(m, k, snapshot);
    assert x in SetOf(m) && Visible(x, k, snapshot);
    var t := Lookup(m, k, snapshot).entry;
    assert IsNewest(SetOf(m), k, snapshot, t);
    KeptCharacterised(levels, level, m, snapshot, t);
    if t in kept {
      assert t in rest + SetOf(kept) && Visible(t, k, s);
    } else if e in rest {
      assert t in m;
    } else {
      assert e in kept && e in m;
      KeptCharacterised(levels, level, m, snapshot, e);
    }
  }

  /** With no snapshot older than the inputs, at most one entry of each user key is kept. */
  lemma {:induction false} OneEntryPerKey(levels: Levels, level: nat, m: seq<Entry>, snapshot: SequenceNumber)
    requires SortedRun(m) && UniqueSequences(SetOf(m))
    requires forall e | e in m :: e.key.sequence <= snapshot
    ensures forall a, b | a in Kept(levels, level, m, |m|, snapshot) && b in Kept(levels, level, m, |m|, snapshot)
                          && a.key.user == b.key.user :: a == b
  {
    var kept := Kept(levels, level, m, |m|, snapshot);
    KeptMembers(levels, level, m, |m|, snapshot);
    forall a, b | a in kept && b in kept && a.key.user == b.key.user ensures a == b {
      KeptCharacterised(levels, level, m, snapshot, a);
      KeptCharacterised(levels, level, m, snapshot, b);
      assert a in SetOf(m) && b in SetOf(m);
      assert Visible(a, a.key.user, snapshot) && Visible(b, a.key.user, snapshot);
    }
  }

  // ---------------------------------------------------------------- output files

  function Flatten(files: Level): seq<Entry> {
    if files == [] then [] else files[0].entries + Flatten(files[1..])
  }

  lemma {:induction false} FlattenSnoc(files: Level, f: FileMetaData)
    ensures Flatten(files + [f]) == Flatten(files) + f.entries
  {
    if files == [] {
      assert [f][1..] == [];
    } else {
      assert (files + [f])[1..] == files[1..] + [f];
      FlattenSnoc(files[1..], f);
    }
  }

  /** The metadata OpenCompactionOutputFile and the main loop leave on a finished output. */
  function OutputFile(number: nat, size: nat, entries: seq<Entry>): FileMetaData
    requires entries != []
  {
    FileMetaData(number, size, entries[0].key, entries[|entries| - 1].key, entries)
  }

  /** Output files hold the kept entries in order, cut anywhere, under consecutive new numbers. */
  ghost predicate IsOutput(outputs: Level, kept: seq<Entry>, firstNumber: nat) {
    && Flatten(outputs) == kept
    && (forall i | 0 <= i < |outputs| ::
          && outputs[i].entries != []
          && outputs[i] == OutputFile(firstNumber + i, outputs[i].fileSize, outputs[i].entries))
  }

  lemma {:induction false} OutputSnoc(outputs: Level, firstNumber: nat, size: nat, builder: seq<Entry>)
    requires IsOutput(outputs, Flatten(outputs), firstNumber) && builder != []
    ensures var r := outputs + [OutputFile(firstNumber + |outputs|, size, builder)];
            IsOutput(r, Flatten(outputs) + builder, firstNumber)
  {
    FlattenSnoc(outputs, OutputFile(firstNumber + |outputs|, size, builder));
  }

  /** What the table builder makes of entries: FileSize() once they are added, and the size of the finished file. */
  datatype Sizes = Sizes(written: seq<Entry> -> nat, finished: seq<Entry> -> nat)

  /** Everything that decides the outputs of a compaction. */
  datatype Task = Task(
    levels: Levels, level: nat, grandparents: Level, m: seq<Entry>, snapshot: SequenceNumber, sizes: Sizes, firstNumber: nat)

  /** The loop state: finished outputs, and the entries of the one being built. */
  datatype Writing = Writing(outputs: Level, builder: seq<Entry>, stop: StopCursor)

  function Close(t: Task, w: Writing): Writing {
    if w.builder == [] then w
    else
      w.(outputs := w.outputs + [OutputFile(t.firstNumber + |w.outputs|, t.sizes.finished(w.builder), w.builder)],
         builder := [])
  }

  /** An entry that is kept goes into the output, which is closed when it is big enough. */
  function AddKept(t: Task, w: Writing, e: Entry): Writing {
    var w' := w.(builder := w.builder + [e]);
    if t.sizes.written(w'.builder) >= TARGET_FILE_SIZE then Close(t, w') else w'
  }

  /** Before each entry the output is closed if it overlaps too much below. */
  function StopIfNeeded(t: Task, w: Writing, key: InternalKey): Writing {
    (if TooMuchOverlap(t.grandparents, w.stop, key) then Close(t, w) else w).(stop := AfterKey(t.grandparents, w.stop, key))
  }

  /** The loop state after `n` merged entries. */
  ghost function Written(t: Task, n: nat): Writing
    requires n <= |t.m|
  {
    if n == 0 then Writing([], [], StopCursor(0, false, 0))
    else
      var w := StopIfNeeded(t, Written(t, n - 1), t.m[n - 1].key);
      if Keeps(t.levels, t.level, t.m, n - 1, t.snapshot) then AddKept(t, w, t.m[n - 1]) else w
  }

  /** The files that DoCompactionWork leaves. */
  ghost function Outputs(t: Task): Level {
    Close(t, Written(t, |t.m|)).outputs
  }

  lemma {:induction false} CloseIsOutput(t: Task, w: Writing)
    requires IsOutput(w.outputs, Flatten(w.outputs), t.firstNumber)
    ensures var w' := Close(t, w);
            && IsOutput(w'.outputs, Flatten(w'.outputs), t.firstNumber) && w'.builder == []
            && Flatten(w'.outputs) == Flatten(w.outputs) + w.builder
  {
    if w.builder != [] {
      OutputSnoc(w.outputs, t.firstNumber, t.sizes.finished(w.builder), w.builder);
    } else {
      assert Flatten(w.outputs) + [] == Flatten(w.outputs);
    }
  }

  lemma {:induction false} StopKeepsEntries(t: Task, v: Writing, key: InternalKey)
    requires IsOutput(v.outputs, Flatten(v.outputs), t.firstNumber)
    ensures var w := StopIfNeeded(t, v, key);
            && IsOutput(w.outputs, Flatten(w.outputs), t.firstNumber)
            && Flatten(w.outputs) + w.builder == Flatten(v.outputs) + v.builder
  {
    hide IsOutput, TooMuchOverlap, AfterKey;
    CloseIsOutput(t, v);
    var closed := Close(t, v);
    assert Flatten(closed.outputs) + [] == Flatten(closed.outputs);
  }

  lemma {:induction false} AddKeepsEntries(t: Task, w: Writing, e: Entry)
    requires IsOutput(w.outputs, Flatten(w.outputs), t.firstNumber)
    ensures var r := AddKept(t, w, e);
            && IsOutput(r.outputs, Flatten(r.outputs), t.firstNumber)
            && Flatten(r.outputs) + r.builder == Flatten(w.outputs) + w.builder + [e]
  {
    hide IsOutput;
    var w' := w.(builder := w.builder + [e]);
    CloseIsOutput(t, w');
    var closed := Close(t, w');
    assert Flatten(closed.outputs) + [] == Flatten(closed.outputs);
    assert Flatten(w.outputs) + w.builder + [e] == Flatten(w.outputs) + w'.builder;
  }

  lemma {:induction false} WrittenIsKept(t: Task, n: nat)
    requires n <= |t.m|
    ensures var w := Written(t, n);
            && IsOutput(w.outputs, Flatten(w.outputs), t.firstNumber)
            && Flatten(w.outputs) + w.builder == Kept(t.levels, t.level, t.m, n, t.snapshot)
  {
    hide IsOutput, Keeps, StopIfNeeded, AddKept, Flatten;
    if n == 0 {
      NoOutput(t.firstNumber);
    } else {
      WrittenIsKept(t, n - 1);
      var v := Written(t, n - 1);
      StopKeepsEntries(t, v, t.m[n - 1].key);
      AddKeepsEntries(t, StopIfNeeded(t, v, t.m[n - 1].key), t.m[n - 1]);
      KeptStep(t, n);
    }
  }

  lemma {:induction false} KeptStep(t: Task, n: nat)
    requires 0 < n <= |t.m|
    ensures Kept(t.levels, t.level, t.m, n, t.snapshot)
         == if Keeps(t.levels, t.level, t.m, n - 1, t.snapshot) then Kept(t.levels, t.level, t.m, n - 1, t.snapshot) + [t.m[n - 1]]
            else Kept(t.levels, t.level, t.m, n - 1, t.snapshot)
  {
  }

  lemma {:induction false} NoOutput(first: nat)
    ensures IsOutput([], Flatten([]), first) && Flatten([]) + [] == []
  {
  }

  /** Wherever outputs end, together they hold exactly the surviving entries in order. */
  lemma {:induction false} OutputsAreKept(t: Task)
    ensures IsOutput(Outputs(t), Kept(t.levels, t.level, t.m, |t.m|, t.snapshot), t.firstNumber)
  {
    hide IsOutput;
    WrittenIsKept(t, |t.m|);
    CloseIsOutput(t, Written(t, |t.m|));
  }

  // ---------------------------------------------------------------- an output ends only where it must

  /** No proper part of the entries would have been enough to close the output. */
  ghost predicate NotFull(sizes: Sizes, entries: seq<Entry>) {
    forall i | 0 < i < |entries| :: sizes.written(entries[..i]) < TARGET_FILE_SIZE
  }

  /** The output reached the target size, or the next key came after too many bytes of grandparents. */
  ghost predicate HadToEnd(t: Task, entries: seq<Entry>) {
    || t.sizes.written(entries) >= TARGET_FILE_SIZE
    || exists n :: 0 <= n < |t.m| && TooMuchOverlap(t.grandparents, Written(t, n).stop, t.m[n].key)
                   && Written(t, n).builder == entries
  }

  lemma {:induction false} WrittenEndsOnlyWhereItMust(t: Task, n: nat)
    requires n <= |t.m|
    ensures var w := Written(t, n);
            && (forall i | 0 <= i < |w.outputs| :: NotFull(t.sizes, w.outputs[i].entries) && HadToEnd(t, w.outputs[i].entries))
            && NotFull(t.sizes, w.builder)
            && (w.builder != [] ==> t.sizes.written(w.builder) < TARGET_FILE_SIZE)
  {
    hide Keeps, NotFull;
    EmptyNotFull(t.sizes);
    if n > 0 {
      WrittenEndsOnlyWhereItMust(t, n - 1);
      var v := Written(t, n - 1);
      if TooMuchOverlap(t.grandparents, v.stop, t.m[n - 1].key) {
        assert HadToEnd(t, v.builder);
      }
      var w := StopIfNeeded(t, v, t.m[n - 1].key);
      if Keeps(t.levels, t.level, t.m, n - 1, t.snapshot) {
        OneMoreNotFull(t.sizes, w.builder, t.m[n - 1]);
      }
    }
  }

  lemma {:induction false} EmptyNotFull(sizes: Sizes)
    ensures NotFull(sizes, [])
  {
  }

  lemma {:induction false} OneMoreNotFull(sizes: Sizes, builder: seq<Entry>, e: Entry)
    requires NotFull(sizes, builder) && (builder != [] ==> sizes.written(builder) < TARGET_FILE_SIZE)
    ensures NotFull(sizes, builder + [e])
  {
    forall i | 0 < i < |builder + [e]| ensures sizes.written((builder + [e])[..i]) < TARGET_FILE_SIZE {
      assert (builder + [e])[..i] == builder[..i];
      assert i == |builder| ==> builder[..i] == builder;
    }
  }

  /** Every output but the last ends where it is full or overlaps too much below, and none goes on beyond that. */
  lemma {:induction false} OutputsEndOnlyWhereTheyMust(t: Task, i: nat)
    requires i < |Outputs(t)|
    ensures NotFull(t.sizes, Outputs(t)[i].entries)
    ensures i + 1 < |Outputs(t)| ==> HadToEnd(t, Outputs(t)[i].entries)
  {
    WrittenEndsOnlyWhereItMust(t, |t.m|);
  }

  // ---------------------------------------------------------------- the loop

  /** FinishCompactionOutputFile. */
  method Finish(ghost t: Task, w: Writing, finished: seq<Entry> -> nat, firstNumber: nat) returns (w': Writing)
    requires t.sizes.finished == finished && t.firstNumber == firstNumber
    ensures w' == Close(t, w)
  {
    w' := w;
    if w.builder != [] {
      w' := w.(outputs := w.outputs + [OutputFile(firstNumber + |w.outputs|, finished(w.builder), w.builder)], builder := []);
    }
  }

  /** The two drop rules as the loop applies them to entry `i`. */
  method ShouldDrop(c: Compaction, m: seq<Entry>, i: nat, snapshot: SequenceNumber,
                    currentUserKey: Option<UserKey>, lastSequenceForKey: SequenceNumber)
    returns (drop: bool)
    requires i < |m| && snapshot < MAX_SEQUENCE
    requires c.Valid() && (c.asked.Some? ==> c.asked.value <= m[i].key.user)
    requires currentUserKey == if i == 0 then None else Some(m[i - 1].key.user)
    requires i > 0 ==> lastSequenceForKey == m[i - 1].key.sequence
    modifies c`asked, c.levelPtrs
    ensures c.Valid() && (c.asked.Some? ==> c.asked.value <= m[i].key.user)
    ensures drop <==> !Keeps(c.inputVersion, c.level, m, i, snapshot)
  {
    var e := m[i];
    var last := if currentUserKey != Some(e.key.user) then MAX_SEQUENCE else lastSequenceForKey;
    drop := false;
    if last <= snapshot {
      drop := true;
    } else if e.key.kind == TypeDeletion && e.key.sequence <= snapshot {
      drop := c.IsBaseLevelForKey(e.key.user);
    }
  }

  /** DoCompactionWork.  `m` is what the merging iterator yields. */
  method DoCompactionWork(c: Compaction, m: seq<Entry>, snapshot: SequenceNumber, firstNumber: nat, sizes: Sizes)
    returns (outputs: Level)
    requires c.Valid() && c.asked == None && c.StopState() == StopCursor(0, false, 0)
    requires SortedRun(m) && snapshot < MAX_SEQUENCE
    modifies c, c.levelPtrs
    ensures outputs == Outputs(Task(c.inputVersion, c.level, c.grandparents, m, snapshot, sizes, firstNumber))
    ensures IsOutput(outputs, Kept(c.inputVersion, c.level, m, |m|, snapshot), firstNumber)
  {
    hide IsOutput, Keeps, AfterKey, TooMuchOverlap;
    ghost var t := Task(c.inputVersion, c.level, c.grandparents, m, snapshot, sizes, firstNumber);
    var w := Writing([], [], StopCursor(0, false, 0));
    var currentUserKey: Option<UserKey> := None;
    var lastSequenceForKey: SequenceNumber := MAX_SEQUENCE;
    var i := 0;
    while i < |m|
      invariant i <= |m|
      invariant c.levelPtrs == old(c.levelPtrs)
      invariant c.Valid() && (c.asked.Some? ==> i > 0 && c.asked.value <= m[i - 1].key.user)
      invariant currentUserKey == if i == 0 then None else Some(m[i - 1].key.user)
      invariant i > 0 ==> lastSequenceForKey == m[i - 1].key.sequence
      invariant w == Written(t, i) && c.StopState() == w.stop
    {
      var stop := c.ShouldStopBefore(m[i].key);
      if stop {
        w := Finish(t, w, sizes.finished, firstNumber);
      }
      w := w.(stop := c.StopState());
      assert i > 0 ==> Less(m[i - 1].key, m[i].key);
      var drop := ShouldDrop(c, m, i, snapshot, currentUserKey, lastSequenceForKey);
      currentUserKey := Some(m[i].key.user);
      lastSequenceForKey := m[i].key.sequence;
      if !drop {
        w := w.(builder := w.builder + [m[i]]);
        if sizes.written(w.builder) >= TARGET_FILE_SIZE {
          w := Finish(t, w, sizes.finished, firstNumber);
        }
      }
      i := i + 1;
    }
    w := Finish(t, w, sizes.finished, firstNumber);
    OutputsAreKept(t);
    outputs := w.outputs;
  }
}
