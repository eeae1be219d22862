/** Exactly when a move or a compaction that takes one part of a split user key leaves reads correct. */
module SplitKeys {
  import opened Common
  import opened InternalKeys
  import opened Version
  import opened Ranges
  import opened CompactionInputs
  import opened CompactionWork
  import opened Builder
  import opened Tables
  import opened RunningCompaction

  // ---------------------------------------------------------------- moves

  /** File `i` of a level does not share its last user key with the next file. */
  predicate EndsItsKey(files: Level, i: nat)
    requires i < |files|
  {
    i + 1 == |files| || files[i].Hi() < files[i + 1].Lo()
  }

  /** Every lookup in the version returns the newest visible entry it stores. */
  ghost predicate ReadsNewest(levels: Levels) {
    forall k: UserKey, s: SequenceNumber ::
      ProbeIsNewest(ProbeLevels(levels, 0, k, s), EntriesFrom(levels, 0), k, s)
  }

  /** Levels as they are kept with no proviso: sorted and disjoint as internal keys. */
  ghost predicate MovedVersion(levels: Levels, level: nat, i: nat, levels': Levels) {
    && 1 <= level && level + 1 < |levels| == |levels'| && i < |levels[level]|
    && Version.Readable(levels)
    && HasMoved(levels, levels', level, levels[level][i])
    && (forall j | 0 <= j < |levels'| :: AllValid(levels'[j]))
    && (forall j | 1 <= j < |levels'| :: Ordered(levels'[j]))
    && DistinctNumbers(levels'[0])
    && (forall g | g in levels[level + 1] :: Apart(levels[level][i], g))
  }

  lemma {:induction false} OrderedEnds(files: Level, i: nat, j: nat)
    requires AllValid(files) && Ordered(files) && i < j < |files|
    ensures files[i].Hi() <= files[j].Lo()
    ensures EndsItsKey(files, i) ==> files[i].Hi() < files[j].Lo()
  {
    assert Less(files[i].largest, files[j].smallest);
    if i + 1 < j {
      assert Less(files[i + 1].largest, files[j].smallest);
      FileBounds(files[i + 1], files[i + 1].entries[0]);
    }
  }

  /** If the moved file ends its last user key, everything left at its level is newer than it. */
  lemma {:induction false} MoveKeepsRecent(levels: Levels, level: nat, i: nat, levels': Levels)
    requires MovedVersion(levels, level, i, levels') && EndsItsKey(levels[level], i)
    requires UniqueSequences(EntriesFrom(levels, 0))
    ensures Recent(levels')
  {
    var f := levels[level][i];
    forall g | g in levels[level] && g != f ensures NewerFile(g, f) {
      LeftBehindIsNewer(levels, level, i, g);
    }
    hide NewerFile, EndsItsKey;
    forall a, b, g1, g2 | 0 <= a < b < |levels'| && g1 in levels'[a] && g2 in levels'[b] ensures NewerFile(g1, g2) {
      if a == level + 1 && g1 == f {
        assert f in levels[level];
      }
    }
  }

  lemma {:induction false} LeftBehindIsNewer(levels: Levels, level: nat, i: nat, g: FileMetaData)
    requires level < |levels| && i < |levels[level]| && EndsItsKey(levels[level], i)
    requires AllValid(levels[level]) && Ordered(levels[level])
    requires UniqueSequences(EntriesFrom(levels, 0))
    requires g in levels[level] && g != levels[level][i]
    ensures NewerFile(g, levels[level][i])
  {
    var f := levels[level][i];
    var j :| 0 <= j < |levels[level]| && levels[level][j] == g;
    if i < j {
      OrderedEnds(levels[level], i, j);
      NothingShared(f, g);
    } else {
      EarlierIsNewer(g, f, EntriesFrom(levels, 0));
    }
  }

  /** Where a level shows something, the search stops there or above. */
  lemma {:induction false} ProbeStops(levels: Levels, j: nat, level: nat, k: UserKey, s: SequenceNumber) returns (m: nat)
    requires j <= level < |levels| && ProbeLevel(levels, level, k, s).Hit?
    ensures j <= m <= level && ProbeLevel(levels, m, k, s).Hit?
    ensures ProbeLevels(levels, j, k, s) == ProbeLevel(levels, m, k, s)
    decreases level - j
  {
    if ProbeLevel(levels, j, k, s).Hit? {
      m := j;
    } else {
      m := ProbeStops(levels, j + 1, level, k, s);
    }
  }

  lemma {:induction false} MovedLevelFindsNewest(levels: Levels, level: nat, i: nat, levels': Levels, m: nat, k: UserKey, s: SequenceNumber)
    requires MovedVersion(levels, level, i, levels') && m <= level
    ensures ProbeIsNewest(ProbeLevel(levels', m, k, s), EntriesOf(levels'[m]), k, s)
  {
    if m == 0 {
      assert forall g :: g in levels'[0] ==> g in levels[0];
      LevelZeroProbeFindsNewest(levels'[0], k, s);
    } else {
      LevelProbeFindsNewest(levels'[m], k, s);
    }
  }

  /** The next file, left at its level, shows an entry of the shared key. */
  lemma {:induction false} NextFileShows(levels: Levels, level: nat, i: nat, levels': Levels)
    requires MovedVersion(levels, level, i, levels') && !EndsItsKey(levels[level], i)
    ensures var f := levels[level][i];
            ProbeLevel(levels', level, f.Hi(), f.largest.sequence).Hit?
  {
    var f, g := levels[level][i], levels[level][i + 1];
    assert f.Valid() && g.Valid();
    assert Less(f.largest, g.smallest);
    assert !Less(f.largest, f.smallest);
    var w := g.entries[0];
    assert w in g.entries && g in levels[level];
    assert g in levels'[level];
    assert Visible(w, f.Hi(), f.largest.sequence);
    MovedLevelFindsNewest(levels, level, i, levels', level, f.Hi(), f.largest.sequence);
    assert w in EntriesOf(levels'[level]);
  }

  /** So the search ends at the old level or above it, in a file that was not moved. */
  lemma {:induction false} SearchEndsAbove(levels: Levels, level: nat, i: nat, levels': Levels)
    returns (m: nat, h: FileMetaData, x: Entry)
    requires MovedVersion(levels, level, i, levels') && !EndsItsKey(levels[level], i)
    ensures m <= level && h in levels[m] && h != levels[level][i] && x in h.entries
    ensures var f := levels[level][i];
            ProbeLevels(levels', 0, f.Hi(), f.largest.sequence) == Hit(x) && Visible(x, f.Hi(), f.largest.sequence)
  {
    var f := levels[level][i];
    var k, s := f.Hi(), f.largest.sequence;
    NextFileShows(levels, level, i, levels');
    m := ProbeStops(levels', 0, level, k, s);
    MovedLevelFindsNewest(levels, level, i, levels', m, k, s);
    x := ProbeLevel(levels', m, k, s).entry;
    h :| h in levels'[m] && x in h.entries;
    assert h in levels[m];
    assert f in levels[level] && f.Valid() && f.entries[0] in SetOf(f.entries);
    assert m < level ==> NewerFile(h, f);
  }

  /** If the next file continues the moved file's last user key, a read of that key goes wrong:
      the search meets the older half first. */
  lemma {:induction false} MoveHidesNewer(levels: Levels, level: nat, i: nat, levels': Levels)
    requires MovedVersion(levels, level, i, levels') && !EndsItsKey(levels[level], i)
    requires UniqueSequences(EntriesFrom(levels, 0))
    ensures !ReadsNewest(levels')
  {
    var f := levels[level][i];
    var m, h, x := SearchEndsAbove(levels, level, i, levels');
    assert f.Valid();
    var z := f.entries[|f.entries| - 1];
    HitIsNotMoved(levels, level, i, m, h, x, z);
    MovedIsStored(levels, levels', level, i, z);
    assert Visible(z, f.Hi(), f.largest.sequence);
    assert !ProbeIsNewest(ProbeLevels(levels', 0, f.Hi(), f.largest.sequence), EntriesFrom(levels', 0), f.Hi(), f.largest.sequence);
  }

  lemma {:induction false} MovedIsStored(levels: Levels, levels': Levels, level: nat, i: nat, z: Entry)
    requires level + 1 < |levels| && i < |levels[level]| && HasMoved(levels, levels', level, levels[level][i])
    requires z in levels[level][i].entries
    ensures z in EntriesFrom(levels', 0)
  {
    assert levels[level][i] in levels'[level + 1];
  }

  lemma {:induction false} HitIsNotMoved(levels: Levels, level: nat, i: nat, m: nat, h: FileMetaData, x: Entry, z: Entry)
    requires 1 <= level < |levels| && i < |levels[level]| && Version.Readable(levels) && m <= level
    requires UniqueSequences(EntriesFrom(levels, 0))
    requires h in levels[m] && h != levels[level][i] && x in h.entries
    requires z in levels[level][i].entries && x.key.user == z.key.user && x.key.sequence <= z.key.sequence
    ensures x.key.sequence < z.key.sequence
  {
    var f := levels[level][i];
    assert f in levels[level];
    if m < level {
      assert NewerFile(h, f);
    } else {
      var j :| 0 <= j < |levels[level]| && levels[level][j] == h;
      if j < i {
        EarlierIsNewer(h, f, EntriesFrom(levels, 0));
      } else {
        EarlierIsNewer(f, h, EntriesFrom(levels, 0));
      }
      assert x in SetOf(h.entries) && z in SetOf(f.entries);
    }
  }

  /** Moving one file of a level >= 1 down is safe exactly when the next file of its level does
      not go on with the user key it ends with. */
  lemma {:induction false} MoveIsSafeExactly(levels: Levels, level: nat, i: nat, levels': Levels)
    requires MovedVersion(levels, level, i, levels') && UniqueSequences(EntriesFrom(levels, 0))
    ensures ReadsNewest(levels') <==> EndsItsKey(levels[level], i)
  {
    if EndsItsKey(levels[level], i) {
      MoveKeepsRecent(levels, level, i, levels');
      forall k: UserKey, s: SequenceNumber
        ensures ProbeIsNewest(ProbeLevels(levels', 0, k, s), EntriesFrom(levels', 0), k, s)
      {
        ProbeLevelsFindsNewest(levels', 0, k, s);
      }
    } else {
      MoveHidesNewer(levels, level, i, levels');
    }
  }

  // ---------------------------------------------------------------- compactions

  /** An answer is the newest entry there was; a deletion marker may have been dropped. */
  ghost predicate Survives(p: Probe, es: set<Entry>, k: UserKey, s: SequenceNumber) {
    match p
    case Hit(e) => IsNewest(es, k, s, e)
    case Miss => forall e :: IsNewest(es, k, s, e) ==> e.key.kind == TypeDeletion
  }

  /** Every read at or after the oldest snapshot is answered as before. */
  ghost predicate ReadsSurvive(levels: Levels, levels': Levels, snapshot: SequenceNumber) {
    forall k: UserKey, s: SequenceNumber | snapshot <= s :: Survives(ProbeLevels(levels', 0, k, s), EntriesFrom(levels, 0), k, s)
  }

  /** Some reader gets its answer for `k` from the inputs. */
  ghost predicate InputsAnswer(levels: Levels, r: Running, k: UserKey) {
    || (exists n :: IsNewest(EntriesFrom(levels, 0), k, r.snapshot, n) && n in r.merged)
    || (exists n :: n in r.merged && n.key.user == k && n.key.sequence > r.snapshot)
  }

  /** The answer for `k` at the oldest snapshot is a deletion marker of the inputs, which is dropped. */
  ghost predicate LosesMarker(levels: Levels, r: Running, k: UserKey) {
    exists n :: IsNewest(EntriesFrom(levels, 0), k, r.snapshot, n) && n in r.merged
             && Obsolete(levels, r.inputs.level, n, r.snapshot)
  }

  /** No file left behind comes to answer in place of the inputs: where one goes on with the last user key of an upper
      input, that key is answered from elsewhere; and no marker is dropped above one that goes on with a lower input. */
  ghost predicate HidesNothing(levels: Levels, r: Running)
    requires r.inputs.level + 1 < |levels|
  {
    && (forall f, g | f in r.inputs.upper && g in levels[r.inputs.level] && g !in r.inputs.upper && Continues(f, g) ::
          !InputsAnswer(levels, r, f.Hi()))
    && (forall f, g | f in r.inputs.lower && g in levels[r.inputs.level + 1] && g !in r.inputs.lower && Continues(f, g) ::
          !LosesMarker(levels, r, f.Hi()))
  }

  /** A compaction about to replace its inputs in a version whose user keys may be split. */
  ghost predicate About(levels: Levels, r: Running, levels': Levels, nextFile: nat) {
    && Arranged(levels, nextFile) && Starts(r, levels, nextFile)
    && UniqueSequences(EntriesFrom(levels, 0))
    && r.inputs.level + 1 < |levels| && levels' == Replace(levels, r)
  }

  /** What the two versions look like. */
  ghost predicate Replacing(levels: Levels, r: Running, levels': Levels) {
    && Version.Readable(levels) && WellShaped(levels) && UniqueSequences(EntriesFrom(levels, 0))
    && LegalInputs(levels, r.inputs) && r.base == levels
    && InputsPresent(r, levels) && HasReplaced(levels, levels', r)
    && (forall i | 0 <= i < |levels'| :: AllValid(levels'[i]))
    && (forall i | 1 <= i < |levels'| :: Ordered(levels'[i]))
    && DistinctNumbers(levels'[0])
    && AllValid(r.All()) && SortedRun(r.merged) && SetOf(r.merged) == EntriesOf(r.All())
    && EntriesOf(r.outputs) == SetOf(Kept(levels, r.inputs.level, r.merged, |r.merged|, r.snapshot))
  }

  lemma {:induction false} AboutIsReplacing(levels: Levels, r: Running, levels': Levels, nextFile: nat)
    requires About(levels, r, levels', nextFile)
    ensures Replacing(levels, r, levels')
  {
    hide Recent, Keeps, LeftoversFit, NoGap, NumbersApart, UniqueSequences, StillBase, LegalInputs, Replace, NewerFile;
    ArrangedIsReadable(levels, nextFile);
    StartParts(r, levels, nextFile);
    ReplacedLevels(levels, r, levels', nextFile);
    FlattenMembers(r.outputs);
  }

  lemma {:induction false} ReplacedLevels(levels: Levels, r: Running, levels': Levels, nextFile: nat)
    requires Arranged(levels, nextFile) && WorkOk(r) && |levels| == NUM_LEVELS && levels' == Replace(levels, r)
    requires InputsPresent(r, levels) && LeftoversFit(r, levels)
    requires OutputNumbersOk(r, levels, nextFile + |r.outputs|)
    ensures HasReplaced(levels, levels', r)
    ensures forall i | 0 <= i < |levels'| :: AllValid(levels'[i])
    ensures forall i | 1 <= i < |levels'| :: Ordered(levels'[i])
    ensures DistinctNumbers(levels'[0])
  {
    hide Recent, NumbersApart, LeftoversFit, SaveLevel, Apply;
    var bound := nextFile + |r.outputs|;
    assert Arranged(levels, bound) by {
      forall i | 0 <= i < NUM_LEVELS ensures LevelOk(levels[i], bound, i > 0) {
        LevelBound(levels, nextFile, i, bound);
      }
    }
    ReplaceLevels(levels, r, bound);
    forall i | 0 <= i < NUM_LEVELS ensures LevelOk(levels'[i], bound, i > 0) {
      LevelBound(levels, bound, i, bound);
      assert i != r.inputs.level && i != r.inputs.level + 1 ==> levels'[i] == levels[i];
    }
  }

  /** One level of the new version is searched correctly. */
  lemma {:induction false} LevelFinds(levels: Levels, r: Running, levels': Levels, i: nat, k: UserKey, s: SequenceNumber)
    requires Replacing(levels, r, levels') && i < |levels'|
    ensures ProbeIsNewest(ProbeLevel(levels', i, k, s), EntriesOf(levels'[i]), k, s)
  {
    if i == 0 {
      forall g | g in levels'[0] ensures g in levels[0] {
        WhereFrom(levels, levels', r, 0, g);
      }
      LevelZeroProbeFindsNewest(levels'[0], k, s);
    } else {
      LevelProbeFindsNewest(levels'[i], k, s);
    }
  }

  /** The facts about the two versions that most proofs below need. */
  lemma {:induction false} ReplacingFacts(levels: Levels, r: Running, levels': Levels)
    requires Replacing(levels, r, levels')
    ensures |levels'| == |levels| == NUM_LEVELS && r.inputs.level + 1 < NUM_LEVELS && WellShaped(levels)
    ensures SortedRun(r.merged) && SetOf(r.merged) == EntriesOf(r.All()) && AllValid(r.All())
    ensures UniqueSequences(EntriesFrom(levels, 0)) && HasReplaced(levels, levels', r) && InputsPresent(r, levels)
    ensures EntriesOf(r.outputs) == SetOf(Kept(levels, r.inputs.level, r.merged, |r.merged|, r.snapshot))
  {
  }

  lemma {:induction false} LeftStays(levels: Levels, r: Running, levels': Levels, i: nat, g: FileMetaData)
    requires HasReplaced(levels, levels', r) && i < |levels| && g in levels[i] && !IsInput(r, i, g)
    ensures g in levels'[i]
    ensures forall e | e in g.entries :: e in Rest(levels, r) && e in EntriesOf(levels'[i])
  {
  }

  /** What a search finds is stored at the level where it stops, and visible. */
  lemma {:induction false} HitIsStored(levels: Levels, r: Running, levels': Levels, j: nat, k: UserKey, s: SequenceNumber)
    requires Replacing(levels, r, levels') && ProbeLevels(levels', j, k, s).Hit?
    ensures exists m :: j <= m < |levels'| && ProbeLevels(levels', j, k, s).entry in EntriesOf(levels'[m])
    ensures Visible(ProbeLevels(levels', j, k, s).entry, k, s)
    decreases |levels'| - j
  {
    hide Replacing;
    LevelFindsIf(levels, r, levels', j, k, s);
    if !ProbeLevel(levels', j, k, s).Hit? {
      HitIsStored(levels, r, levels', j + 1, k, s);
    }
  }

  lemma {:induction false} LevelFindsIf(levels: Levels, r: Running, levels': Levels, j: nat, k: UserKey, s: SequenceNumber)
    requires Replacing(levels, r, levels')
    ensures j < |levels'| ==> ProbeIsNewest(ProbeLevel(levels', j, k, s), EntriesOf(levels'[j]), k, s)
  {
    if j < |levels'| {
      LevelFinds(levels, r, levels', j, k, s);
    }
  }

  /** Inputs and what is outside them share no entry. */
  lemma {:induction false} InputsNotOutside(levels: Levels, r: Running, levels': Levels)
    requires Replacing(levels, r, levels')
    ensures Rest(levels, r) !! SetOf(r.merged)
    ensures EntriesFrom(levels, 0) == Rest(levels, r) + SetOf(r.merged)
    ensures EntriesFrom(levels', 0) <= EntriesFrom(levels, 0)
  {
    EntriesBefore(levels, r);
    EntriesAfter(levels, r, levels');
    KeptMembers(levels, r.inputs.level, r.merged, |r.merged|, r.snapshot);
    forall e | e in Rest(levels, r) && e in SetOf(r.merged) ensures false {
      var i: int, g: FileMetaData :| 0 <= i < |levels| && g in levels[i] && !IsInput(r, i, g) && e in g.entries;
      var f :| f in r.All() && e in f.entries;
      OutsideDiffers(levels, r, levels', i, g, f, e, e);
    }
  }

  /** Of two entries of one key, one outside and one in the inputs, the outer one is newer, unless its file is deeper or
      goes on with the input. */
  lemma {:induction false} OutsideDiffers(levels: Levels, r: Running, levels': Levels, i: nat, g: FileMetaData, f: FileMetaData,
                                          y: Entry, n: Entry)
    requires Replacing(levels, r, levels') && i < |levels| && g in levels[i] && !IsInput(r, i, g) && f in r.All()
    requires y in g.entries && n in f.entries && y.key.user == n.key.user
    ensures y.key.sequence != n.key.sequence
    ensures y.key.sequence < n.key.sequence ==>
              || i > r.inputs.level + 1
              || (i == r.inputs.level && f in r.inputs.upper && Continues(f, g) && f.Hi() == n.key.user)
              || (i == r.inputs.level + 1 && f in r.inputs.lower && Continues(f, g) && f.Hi() == n.key.user)
  {
    var l := r.inputs.level;
    var j := if f in r.inputs.upper then l else l + 1;
    assert f in levels[j];
    if i < j {
      assert NewerFile(g, f);
    } else if j < i {
      assert NewerFile(f, g);
      if i == l + 1 {
        LeftIsApart(levels, r.inputs, i, g, f);
        ApartShareNothing(levels, i, g, j, f, y, n);
      }
    } else if j == 0 {
      LeftIsApart(levels, r.inputs, 0, g, f);
      ApartShareNothing(levels, 0, g, 0, f, y, n);
    } else {
      SameLevelDiffers(levels, j, g, f, y, n);
    }
  }

  lemma {:induction false} ApartShareNothing(levels: Levels, i: nat, g: FileMetaData, j: nat, f: FileMetaData, y: Entry, n: Entry)
    requires WellShaped(levels) && i < |levels| && j < |levels| && g in levels[i] && f in levels[j] && Apart(g, f)
    requires y in g.entries && n in f.entries
    ensures y.key.user != n.key.user
  {
    ValidMember(levels[i], g);
    ValidMember(levels[j], f);
    FileBounds(g, y);
    FileBounds(f, n);
  }

  lemma {:induction false} SameLevelDiffers(levels: Levels, j: nat, g: FileMetaData, f: FileMetaData, y: Entry, n: Entry)
    requires WellShaped(levels) && 1 <= j < |levels| && g in levels[j] && f in levels[j] && g != f
    requires UniqueSequences(EntriesFrom(levels, 0))
    requires y in g.entries && n in f.entries && y.key.user == n.key.user
    ensures y.key.sequence != n.key.sequence
    ensures y.key.sequence < n.key.sequence ==> Continues(f, g) && f.Hi() == n.key.user
  {
    ValidMember(levels[j], g);
    ValidMember(levels[j], f);
    FileBounds(g, y);
    FileBounds(f, n);
    OrderedMembers(levels[j], g, f);
    assert y in EntriesFrom(levels, 0) && n in EntriesFrom(levels, 0);
  }

  // ---------------------------------------------------------------- safe compactions

  /** If nothing above shows the key, the newest entry is found where it is stored. */
  lemma {:induction false} ProbeReaches(levels: Levels, r: Running, levels': Levels, j: nat, i: nat, k: UserKey, s: SequenceNumber, n: Entry)
    requires Replacing(levels, r, levels') && j <= i < |levels'|
    requires IsNewest(EntriesFrom(levels, 0), k, s, n) && n in EntriesOf(levels'[i])
    requires EntriesFrom(levels', 0) <= EntriesFrom(levels, 0)
    requires forall m | j <= m < i :: NoneVisible(EntriesOf(levels'[m]), k, s)
    ensures ProbeLevels(levels', j, k, s) == Hit(n)
    decreases i - j
  {
    LevelFinds(levels, r, levels', j, k, s);
    if j < i {
      hide Replacing;
      ProbeReaches(levels, r, levels', j + 1, i, k, s, n);
    } else {
      var e := ProbeLevel(levels', j, k, s).entry;
      assert e in EntriesFrom(levels', 0);
    }
  }

  /** An answer from outside the inputs stays what it was. */
  lemma {:induction false} OutsideAnswers(levels: Levels, r: Running, levels': Levels, k: UserKey, s: SequenceNumber, n: Entry)
    requires Replacing(levels, r, levels') && IsNewest(EntriesFrom(levels, 0), k, s, n) && n in Rest(levels, r)
    ensures ProbeLevels(levels', 0, k, s) == Hit(n)
  {
    InputsNotOutside(levels, r, levels');
    var i: int, g: FileMetaData :| 0 <= i < |levels| && g in levels[i] && !IsInput(r, i, g) && n in g.entries;
    assert g in levels'[i];
    forall m | 0 <= m < i ensures NoneVisible(EntriesOf(levels'[m]), k, s) {
      forall y | y in EntriesOf(levels'[m]) && Visible(y, k, s) ensures false {
        var h :| h in levels'[m] && y in h.entries;
        AboveIsNewer(levels, r, levels', m, h, y, i, g, n);
      }
    }
    ProbeReaches(levels, r, levels', 0, i, k, s, n);
  }

  lemma {:induction false} AboveIsNewer(levels: Levels, r: Running, levels': Levels, m: nat, h: FileMetaData, y: Entry,
                                        i: nat, g: FileMetaData, n: Entry)
    requires Replacing(levels, r, levels') && m < i < |levels| && h in levels'[m] && y in h.entries
    requires g in levels[i] && n in g.entries && y.key.user == n.key.user
    ensures y.key.sequence > n.key.sequence
  {
    ReplacingFacts(levels, r, levels');
    WhereFrom(levels, levels', r, m, h);
    if h in levels[m] {
      NewerAbove(levels, m, h, i, g, y, n);
    } else {
      var j, f := OutputCameFrom(levels, r, levels', h, y);
      NewerAbove(levels, j, f, i, g, y, n);
    }
  }

  lemma {:induction false} NewerAbove(levels: Levels, m: nat, h: FileMetaData, i: nat, g: FileMetaData, y: Entry, n: Entry)
    requires Version.Readable(levels) && m < i < |levels| && h in levels[m] && g in levels[i]
    requires y in h.entries && n in g.entries && y.key.user == n.key.user
    ensures y.key.sequence > n.key.sequence
  {
    assert NewerFile(h, g);
  }

  /** Every entry of an output was in an input file. */
  lemma {:induction false} OutputCameFrom(levels: Levels, r: Running, levels': Levels, o: FileMetaData, y: Entry)
    returns (j: nat, f: FileMetaData)
    requires Replacing(levels, r, levels') && o in r.outputs && y in o.entries
    ensures r.inputs.level <= j <= r.inputs.level + 1 < |levels| && f in levels[j] && y in f.entries
  {
    ReplacingFacts(levels, r, levels');
    hide Replacing, WellShaped, HasReplaced, UniqueSequences, SortedRun, Keeps;
    KeptMembers(levels, r.inputs.level, r.merged, |r.merged|, r.snapshot);
    assert y in EntriesOf(r.outputs);
    assert y in SetOf(r.merged);
    f :| f in r.All() && y in f.entries;
    j := if f in r.inputs.upper then r.inputs.level else r.inputs.level + 1;
  }

  /** The newest entry at `s` is also the newest at the oldest snapshot, if it is visible there. */
  lemma {:induction false} AnswersAtSnapshot(levels: Levels, r: Running, k: UserKey, s: SequenceNumber, n: Entry)
    requires IsNewest(EntriesFrom(levels, 0), k, s, n) && n in r.merged && r.snapshot <= s
    ensures InputsAnswer(levels, r, k)
    ensures n.key.sequence <= r.snapshot ==> IsNewest(EntriesFrom(levels, 0), k, r.snapshot, n)
  {
    if n.key.sequence <= r.snapshot {
      assert IsNewest(EntriesFrom(levels, 0), k, r.snapshot, n);
    }
  }

  /** Nothing left above the outputs shows a key that the inputs answer. */
  lemma {:induction false} NothingAbove(levels: Levels, r: Running, levels': Levels, k: UserKey, s: SequenceNumber, n: Entry,
                                        m: nat, h: FileMetaData, y: Entry)
    requires Replacing(levels, r, levels') && HidesNothing(levels, r) && r.snapshot <= s
    requires IsNewest(EntriesFrom(levels, 0), k, s, n) && n in r.merged
    requires m <= r.inputs.level && h in levels[m] && !IsInput(r, m, h) && y in h.entries
    ensures !Visible(y, k, s)
  {
    assert n in SetOf(r.merged);
    var f :| f in r.All() && n in f.entries;
    AnswersAtSnapshot(levels, r, k, s, n);
    assert y in EntriesFrom(levels, 0);
    if Visible(y, k, s) {
      OutsideDiffers(levels, r, levels', m, h, f, y, n);
    }
  }

  lemma {:induction false} OutputIsPut(levels: Levels, r: Running, levels': Levels, o: FileMetaData)
    requires HasReplaced(levels, levels', r) && r.inputs.level + 1 < |levels| && o in r.outputs
    ensures |levels'| == |levels| && o in levels'[r.inputs.level + 1]
  {
  }

  /** An answer that is kept is found among the outputs. */
  lemma {:induction false} KeptAnswers(levels: Levels, r: Running, levels': Levels, k: UserKey, s: SequenceNumber, n: Entry)
    requires Replacing(levels, r, levels') && HidesNothing(levels, r) && r.snapshot <= s
    requires IsNewest(EntriesFrom(levels, 0), k, s, n) && n in r.merged && n in EntriesOf(r.outputs)
    ensures ProbeLevels(levels', 0, k, s) == Hit(n)
  {
    ReplacingFacts(levels, r, levels');
    hide Replacing, HidesNothing, IsNewest, WellShaped, UniqueSequences, InputsPresent, HasReplaced;
    var i := r.inputs.level + 1;
    InputsNotOutside(levels, r, levels');
    var o :| o in r.outputs && n in o.entries;
    OutputIsPut(levels, r, levels', o);
    forall m | 0 <= m < i ensures NoneVisible(EntriesOf(levels'[m]), k, s) {
      forall y | y in EntriesOf(levels'[m]) ensures !Visible(y, k, s) {
        var h :| h in levels'[m] && y in h.entries;
        WhereFrom(levels, levels', r, m, h);
        NothingAbove(levels, r, levels', k, s, n, m, h, y);
      }
    }
    ProbeReaches(levels, r, levels', 0, i, k, s, n);
  }

  /** Where the answer was a marker that is dropped, nothing older comes up. */
  lemma {:induction false} DroppedAnswers(levels: Levels, r: Running, levels': Levels, k: UserKey, s: SequenceNumber, n: Entry)
    requires Replacing(levels, r, levels') && HidesNothing(levels, r) && r.snapshot <= s
    requires IsNewest(EntriesFrom(levels, 0), k, s, n) && n in r.merged && n !in EntriesOf(r.outputs)
    ensures n.key.kind == TypeDeletion && ProbeLevels(levels', 0, k, s) == Miss
  {
    DroppedIsObsolete(levels, r, levels', k, s, n);
    if ProbeLevels(levels', 0, k, s).Hit? {
      HitIsStored(levels, r, levels', 0, k, s);
      var y := ProbeLevels(levels', 0, k, s).entry;
      var m :| 0 <= m < |levels'| && y in EntriesOf(levels'[m]);
      var h :| h in levels'[m] && y in h.entries;
      NothingOlderLeft(levels, r, levels', k, s, n, m, h, y);
    }
  }

  lemma {:induction false} DroppedIsObsolete(levels: Levels, r: Running, levels': Levels, k: UserKey, s: SequenceNumber, n: Entry)
    requires Replacing(levels, r, levels') && r.snapshot <= s
    requires IsNewest(EntriesFrom(levels, 0), k, s, n) && n in r.merged && n !in EntriesOf(r.outputs)
    ensures Obsolete(levels, r.inputs.level, n, r.snapshot) && IsNewest(EntriesFrom(levels, 0), k, r.snapshot, n)
  {
    InputsNotOutside(levels, r, levels');
    UniqueInputs(levels, r, levels');
    KeptCharacterised(levels, r.inputs.level, r.merged, r.snapshot, n);
    assert n !in Kept(levels, r.inputs.level, r.merged, |r.merged|, r.snapshot);
    assert n.key.sequence <= r.snapshot ==> IsNewest(SetOf(r.merged), k, r.snapshot, n);
  }

  lemma {:induction false} UniqueInputs(levels: Levels, r: Running, levels': Levels)
    requires Replacing(levels, r, levels')
    ensures UniqueSequences(SetOf(r.merged))
  {
    EntriesBefore(levels, r);
  }

  lemma {:induction false} NothingOlderLeft(levels: Levels, r: Running, levels': Levels, k: UserKey, s: SequenceNumber, n: Entry,
                                            m: nat, h: FileMetaData, y: Entry)
    requires Replacing(levels, r, levels') && HidesNothing(levels, r) && r.snapshot <= s
    requires IsNewest(EntriesFrom(levels, 0), k, s, n) && n in r.merged && n !in EntriesOf(r.outputs)
    requires Obsolete(levels, r.inputs.level, n, r.snapshot) && IsNewest(EntriesFrom(levels, 0), k, r.snapshot, n)
    requires m < |levels'| && h in levels'[m] && y in h.entries
    ensures !Visible(y, k, s)
  {
    ReplacingFacts(levels, r, levels');
    hide Replacing, HidesNothing, WellShaped, UniqueSequences, HasReplaced, InputsPresent, Obsolete;
    var l := r.inputs.level;
    WhereFrom(levels, levels', r, m, h);
    if Visible(y, k, s) {
      if h in r.outputs && m == l + 1 {
        assert y in EntriesOf(r.outputs);
        assert n in SetOf(r.merged);
        KeptIsNewest(levels, r, levels', k, s, n, y);
      } else if m <= l {
        NothingAbove(levels, r, levels', k, s, n, m, h, y);
      } else {
        NothingOlderDeeper(levels, r, levels', k, s, n, m, h, y);
      }
    }
  }

  lemma {:induction false} KeptIsNewest(levels: Levels, r: Running, levels': Levels, k: UserKey, s: SequenceNumber, n: Entry, y: Entry)
    requires Replacing(levels, r, levels') && IsNewest(EntriesFrom(levels, 0), k, r.snapshot, n) && n in r.merged
    requires IsNewest(EntriesFrom(levels, 0), k, s, n) && n !in EntriesOf(r.outputs) && y in EntriesOf(r.outputs)
    ensures !Visible(y, k, s)
  {
    hide Replacing;
    InputsNotOutside(levels, r, levels');
    if Visible(y, k, s) {
      ReplacingFacts(levels, r, levels');
      KeptMembers(levels, r.inputs.level, r.merged, |r.merged|, r.snapshot);
      assert y in SetOf(r.merged);
      KeptHasNoOlder(levels, r, levels', k, n, y);
    }
  }

  lemma {:induction false} NothingOlderDeeper(levels: Levels, r: Running, levels': Levels, k: UserKey, s: SequenceNumber, n: Entry,
                                              m: nat, h: FileMetaData, y: Entry)
    requires Replacing(levels, r, levels') && HidesNothing(levels, r)
    requires IsNewest(EntriesFrom(levels, 0), k, s, n) && n in r.merged
    requires Obsolete(levels, r.inputs.level, n, r.snapshot) && IsNewest(EntriesFrom(levels, 0), k, r.snapshot, n)
    requires r.inputs.level < m < |levels| && h in levels[m] && !IsInput(r, m, h) && y in h.entries
    ensures !Visible(y, k, s)
  {
    ReplacingFacts(levels, r, levels');
    hide Replacing, UniqueSequences, HasReplaced, InputsPresent;
    assert n in SetOf(r.merged);
    var f :| f in r.All() && n in f.entries;
    assert y in EntriesFrom(levels, 0);
    if Visible(y, k, s) {
      OutsideDiffers(levels, r, levels', m, h, f, y, n);
      if m > r.inputs.level + 1 {
        ValidMember(levels[m], h);
        FileBounds(h, y);
      } else {
        MarkerIsLost(levels, r, k, n);
      }
    }
  }

  lemma {:induction false} MarkerIsLost(levels: Levels, r: Running, k: UserKey, n: Entry)
    requires IsNewest(EntriesFrom(levels, 0), k, r.snapshot, n) && n in r.merged
    requires Obsolete(levels, r.inputs.level, n, r.snapshot)
    ensures LosesMarker(levels, r, k)
  {
  }

  lemma {:induction false} KeptHasNoOlder(levels: Levels, r: Running, levels': Levels, k: UserKey, n: Entry, y: Entry)
    requires Replacing(levels, r, levels') && IsNewest(EntriesFrom(levels, 0), k, r.snapshot, n) && n in r.merged
    requires y in EntriesOf(r.outputs) && y.key.user == k && y.key.sequence <= r.snapshot
    ensures y == n
  {
    InputsNotOutside(levels, r, levels');
    UniqueInputs(levels, r, levels');
    KeptMembers(levels, r.inputs.level, r.merged, |r.merged|, r.snapshot);
    assert y in r.merged;
    KeptCharacterised(levels, r.inputs.level, r.merged, r.snapshot, y);
    assert n in SetOf(r.merged) && Visible(n, k, r.snapshot);
  }

  lemma {:induction false} SafeCompaction(levels: Levels, r: Running, levels': Levels, k: UserKey, s: SequenceNumber)
    requires Replacing(levels, r, levels') && HidesNothing(levels, r) && r.snapshot <= s
    ensures Survives(ProbeLevels(levels', 0, k, s), EntriesFrom(levels, 0), k, s)
  {
    hide HidesNothing;
    ProbeLevelsFindsNewest(levels, 0, k, s);
    InputsNotOutside(levels, r, levels');
    var es := EntriesFrom(levels, 0);
    match ProbeLevels(levels, 0, k, s)
    case Hit(n) =>
      if n in Rest(levels, r) {
        OutsideAnswers(levels, r, levels', k, s, n);
      } else {
        assert n in SetOf(r.merged);
        if n in EntriesOf(r.outputs) {
          KeptAnswers(levels, r, levels', k, s, n);
        } else {
          DroppedAnswers(levels, r, levels', k, s, n);
        }
      }
    case Miss =>
      if ProbeLevels(levels', 0, k, s).Hit? {
        HitIsStored(levels, r, levels', 0, k, s);
      }
  }

  // ---------------------------------------------------------------- unsafe compactions

  /** A level that shows the key stops the search there or above. */
  lemma {:induction false} StopsAt(levels: Levels, r: Running, levels': Levels, i: nat, k: UserKey, s: SequenceNumber, y: Entry)
    returns (m: nat, h: FileMetaData, e: Entry)
    requires Replacing(levels, r, levels') && i < |levels'| && y in EntriesOf(levels'[i]) && Visible(y, k, s)
    ensures m <= i && h in levels'[m] && e in h.entries && Visible(e, k, s) && ProbeLevels(levels', 0, k, s) == Hit(e)
  {
    LevelFinds(levels, r, levels', i, k, s);
    m := ProbeStops(levels', 0, i, k, s);
    LevelFinds(levels, r, levels', m, k, s);
    e := ProbeLevel(levels', m, k, s).entry;
    h :| h in levels'[m] && e in h.entries;
  }

  lemma {:induction false} NewestOf(m: seq<Entry>, k: UserKey, z: Entry) returns (n: Entry)
    requires SortedRun(m) && z in m && z.key.user == k
    ensures n in m && n.key.user == k && forall x | x in m && x.key.user == k :: x.key.sequence <= n.key.sequence
  {
    LookupFindsNewest(m, k, MAX_SEQUENCE);
    assert z in SetOf(m) && Visible(z, k, MAX_SEQUENCE);
    n := Lookup(m, k, MAX_SEQUENCE).entry;
    assert forall x | x in m && x.key.user == k :: x in SetOf(m) && Visible(x, k, MAX_SEQUENCE);
  }

  /** The reader whose answer goes wrong: at the newest input entry, or at the oldest snapshot. */
  lemma {:induction false} WrongReader(levels: Levels, r: Running, levels': Levels, k: UserKey) returns (s: SequenceNumber, n: Entry)
    requires Replacing(levels, r, levels') && InputsAnswer(levels, r, k)
    ensures r.snapshot <= s && IsNewest(EntriesFrom(levels, 0), k, s, n) && n in r.merged
    ensures forall z | z in r.merged && z.key.user == k :: z.key.sequence <= s
  {
    ReplacingFacts(levels, r, levels');
    InputsNotOutside(levels, r, levels');
    hide *;
    if z :| z in r.merged && z.key.user == k && z.key.sequence > r.snapshot {
      n := NewestOf(r.merged, k, z);
      s := n.key.sequence;
      NewestItself(EntriesFrom(levels, 0), r.merged, n);
    } else {
      s := r.snapshot;
      n := AnswerAtSnapshot(levels, r, k);
    }
  }

  lemma {:induction false} NewestItself(es: set<Entry>, m: seq<Entry>, n: Entry)
    requires SetOf(m) <= es && n in m
    ensures IsNewest(es, n.key.user, n.key.sequence, n)
  {
    assert n in SetOf(m);
  }

  lemma {:induction false} AnswerAtSnapshot(levels: Levels, r: Running, k: UserKey) returns (n: Entry)
    requires InputsAnswer(levels, r, k)
    requires forall z | z in r.merged && z.key.user == k :: z.key.sequence <= r.snapshot
    ensures IsNewest(EntriesFrom(levels, 0), k, r.snapshot, n) && n in r.merged
  {
    n :| IsNewest(EntriesFrom(levels, 0), k, r.snapshot, n) && n in r.merged;
  }

  lemma {:induction false} UpperHides(levels: Levels, r: Running, levels': Levels, f: FileMetaData, g: FileMetaData)
    requires Replacing(levels, r, levels') && f in r.inputs.upper
    requires r.inputs.level < |levels| && g in levels[r.inputs.level] && g !in r.inputs.upper
    requires Continues(f, g) && InputsAnswer(levels, r, f.Hi())
    ensures !ReadsSurvive(levels, levels', r.snapshot)
  {
    ReplacingFacts(levels, r, levels');
    InputsNotOutside(levels, r, levels');
    hide *;
    var k, l := f.Hi(), r.inputs.level;
    var s, n := WrongReader(levels, r, levels', k);
    var y := FirstBehind(levels, r, levels', f, g);
    var m, h, e := StopsAt(levels, r, levels', l, k, s, y);
    FoundOutside(levels, r, levels', m, h, e);
    assert n in SetOf(r.merged) by { InMerged(r.merged, n); }
    NotTheNewest(levels, r, levels', k, s, n, e);
  }

  lemma {:induction false} InMerged(m: seq<Entry>, n: Entry)
    requires n in m
    ensures n in SetOf(m)
  {
  }

  /** The entry with which the file left behind goes on, older than one of the inputs. */
  lemma {:induction false} FirstBehind(levels: Levels, r: Running, levels': Levels, f: FileMetaData, g: FileMetaData)
    returns (y: Entry)
    requires Replacing(levels, r, levels') && f in r.inputs.upper
    requires r.inputs.level < |levels| == |levels'| && g in levels[r.inputs.level] && g !in r.inputs.upper && Continues(f, g)
    ensures y in EntriesOf(levels'[r.inputs.level])
    ensures exists z :: z in r.merged && z.key.user == f.Hi() && y.key.sequence <= z.key.sequence
    ensures y.key.user == f.Hi()
  {
    ReplacingFacts(levels, r, levels');
    hide Replacing, HasReplaced;
    var l := r.inputs.level;
    assert f in r.All();
    ValidMember(r.All(), f);
    ValidMember(levels[l], g);
    var z := f.entries[|f.entries| - 1];
    y := g.entries[0];
    assert z in f.entries && z in EntriesOf(r.All());
    assert z in SetOf(r.merged);
    LeftStays(levels, r, levels', l, g);
  }

  /** What is found at the level of the inputs, or above, lies outside them. */
  lemma {:induction false} FoundOutside(levels: Levels, r: Running, levels': Levels, m: nat, h: FileMetaData, e: Entry)
    requires HasReplaced(levels, levels', r) && m <= r.inputs.level && m < |levels'| && h in levels'[m] && e in h.entries
    ensures e in Rest(levels, r)
  {
    WhereFrom(levels, levels', r, m, h);
    LeftStays(levels, r, levels', m, h);
  }

  /** An answer from elsewhere is not the one there was. */
  lemma {:induction false} NotTheNewest(levels: Levels, r: Running, levels': Levels, k: UserKey, s: SequenceNumber, n: Entry, e: Entry)
    requires UniqueSequences(EntriesFrom(levels, 0)) && IsNewest(EntriesFrom(levels, 0), k, s, n) && e != n && r.snapshot <= s
    requires ProbeLevels(levels', 0, k, s) == Hit(e)
    ensures !ReadsSurvive(levels, levels', r.snapshot)
  {
    assert !Survives(ProbeLevels(levels', 0, k, s), EntriesFrom(levels, 0), k, s);
  }

  /** A key that goes on behind a lower input lies outside the hull of the upper ones. */
  lemma {:induction false} BehindLower(levels: Levels, r: Running, levels': Levels, f: FileMetaData, g: FileMetaData, n: Entry)
    requires Replacing(levels, r, levels') && f in r.inputs.lower
    requires g in levels[r.inputs.level + 1] && g !in r.inputs.lower && Continues(f, g)
    requires n in r.merged && n.key.user == f.Hi()
    ensures g.smallest.sequence <= n.key.sequence
  {
    var c := r.inputs;
    ReplacingFacts(levels, r, levels');
    assert LegalInputs(levels, c);
    hide Replacing, HasReplaced, UniqueSequences, LegalInputs, WellShaped;
    assert n in SetOf(r.merged);
    var f' :| f' in r.All() && n in f'.entries;
    BehindLowerFile(levels, c, f, g, f', n);
  }

  lemma {:induction false} LeftoverMissesHull(levels: Levels, c: Inputs, g: FileMetaData)
    requires LegalInputs(levels, c) && g in levels[c.level + 1] && g !in c.lower
    ensures !MeetsHull(g, c.upper)
  {
    MeetingMembers(levels[c.level + 1], Some(HullLo(c.upper)), Some(HullHi(c.upper)));
  }

  lemma {:induction false} BehindLowerFile(levels: Levels, c: Inputs, f: FileMetaData, g: FileMetaData, f': FileMetaData, n: Entry)
    requires WellShaped(levels) && LegalInputs(levels, c) && f in c.lower && f' in c.upper + c.lower && n in f'.entries
    requires g in levels[c.level + 1] && g !in c.lower && Continues(f, g) && n.key.user == f.Hi()
    ensures g.smallest.sequence <= n.key.sequence
  {
    LegalInputsAreValid(levels, c);
    LeftoverMissesHull(levels, c, g);
    hide LegalInputs;
    ValidMember(c.upper + c.lower, f');
    FileBounds(f', n);
    ValidMember(levels[c.level + 1], g);
    if f' in c.upper {
      LeftIsApart(levels, c, c.level + 1, g, f');
    } else {
      OrderedMembers(levels[c.level + 1], f', g);
    }
  }

  lemma {:induction false} LowerHides(levels: Levels, r: Running, levels': Levels, f: FileMetaData, g: FileMetaData)
    requires Replacing(levels, r, levels') && f in r.inputs.lower
    requires r.inputs.level + 1 < |levels| && g in levels[r.inputs.level + 1] && g !in r.inputs.lower
    requires Continues(f, g) && LosesMarker(levels, r, f.Hi())
    ensures !ReadsSurvive(levels, levels', r.snapshot)
  {
    ReplacingFacts(levels, r, levels');
    hide Replacing, HasReplaced, Obsolete;
    var k, i := f.Hi(), r.inputs.level + 1;
    var n :| IsNewest(EntriesFrom(levels, 0), k, r.snapshot, n) && n in r.merged && Obsolete(levels, i - 1, n, r.snapshot);
    BehindLower(levels, r, levels', f, g, n);
    ValidMember(levels[i], g);
    var y := g.entries[0];
    LeftStays(levels, r, levels', i, g);
    assert Visible(y, k, r.snapshot);
    var m, h, e := StopsAt(levels, r, levels', i, k, r.snapshot, y);
    MarkerIsGone(levels, r, levels', m, h, e, k, n);
    NotTheNewest(levels, r, levels', k, r.snapshot, n, e);
  }

  lemma {:induction false} MarkerIsGone(levels: Levels, r: Running, levels': Levels, m: nat, h: FileMetaData, e: Entry, k: UserKey, n: Entry)
    requires Replacing(levels, r, levels') && m < |levels'| && h in levels'[m] && e in h.entries
    requires n in r.merged && Obsolete(levels, r.inputs.level, n, r.snapshot)
    ensures e != n
  {
    ReplacingFacts(levels, r, levels');
    hide Replacing, HasReplaced;
    InputsNotOutside(levels, r, levels');
    UniqueInputs(levels, r, levels');
    KeptCharacterised(levels, r.inputs.level, r.merged, r.snapshot, n);
    WhereFrom(levels, levels', r, m, h);
    assert n in SetOf(r.merged);
    if h in r.outputs && m == r.inputs.level + 1 {
      assert e in EntriesOf(r.outputs);
    } else {
      LeftStays(levels, r, levels', m, h);
    }
  }

  lemma {:induction false} HidingNothingIsSafe(levels: Levels, r: Running, levels': Levels)
    requires Replacing(levels, r, levels') && HidesNothing(levels, r)
    ensures ReadsSurvive(levels, levels', r.snapshot)
  {
    hide Replacing, HidesNothing, Survives, ProbeLevels, EntriesFrom;
    forall k: UserKey, s: SequenceNumber | r.snapshot <= s
      ensures Survives(ProbeLevels(levels', 0, k, s), EntriesFrom(levels, 0), k, s)
    {
      SafeCompaction(levels, r, levels', k, s);
    }
  }

  lemma {:induction false} HidingIsUnsafe(levels: Levels, r: Running, levels': Levels)
    requires Replacing(levels, r, levels') && !HidesNothing(levels, r)
    ensures !ReadsSurvive(levels, levels', r.snapshot)
  {
    ReplacingFacts(levels, r, levels');
    hide Replacing, ReadsSurvive, Continues, InputsAnswer, LosesMarker;
    if f, g :| f in r.inputs.upper && g in levels[r.inputs.level] && g !in r.inputs.upper && Continues(f, g)
               && InputsAnswer(levels, r, f.Hi()) {
      UpperHides(levels, r, levels', f, g);
    } else {
      var f, g :| f in r.inputs.lower && g in levels[r.inputs.level + 1] && g !in r.inputs.lower && Continues(f, g)
                  && LosesMarker(levels, r, f.Hi());
      LowerHides(levels, r, levels', f, g);
    }
  }

  /** A compaction over any legal inputs, wherever it cuts its outputs, keeps every read at or after the oldest snapshot
      correct if and only if no file left behind comes to answer in place of the inputs. */
  lemma {:induction false} CompactionIsSafeExactly(levels: Levels, r: Running, levels': Levels, nextFile: nat)
    requires About(levels, r, levels', nextFile)
    ensures ReadsSurvive(levels, levels', r.snapshot) <==> HidesNothing(levels, r)
  {
    assert r.inputs.level + 1 < |levels|;
    hide *;
    AboutIsReplacing(levels, r, levels', nextFile);
    if HidesNothing(levels, r) {
      HidingNothingIsSafe(levels, r, levels');
    } else {
      HidingIsUnsafe(levels, r, levels');
    }
  }

  /** In particular every compaction that picks whole keys is safe. */
  lemma {:induction false} WholeKeysHideNothing(levels: Levels, r: Running)
    requires r.inputs.level + 1 < |levels| && EndsKeys(levels, r.inputs)
    ensures HidesNothing(levels, r)
  {
  }
}
