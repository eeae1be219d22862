/** A compaction between the moment its inputs are chosen and the moment its outputs replace them.
    Memtables may be flushed in between. */
module RunningCompaction {
  import opened Common
  import opened InternalKeys
  import opened Version
  import opened Ranges
  import opened CompactionInputs
  import opened CompactionWork
  import opened Builder
  import opened Tables

  /** `base` is the input version, `merged` what the merging iterator yields from the inputs. */
  datatype Running = Running(
    inputs: Inputs, manual: bool, snapshot: SequenceNumber, base: Levels, merged: seq<Entry>, outputs: Level)
  {
    function All(): Level { inputs.upper + inputs.lower }
  }

  /** The entries of all input files, merged. */
  ghost predicate IsMerged(merged: seq<Entry>, files: Level) {
    SortedRun(merged) && SetOf(merged) == EntriesOf(files)
  }

  /** What starting a compaction establishes: inputs of the current version, and outputs that hold
      exactly what the drop rules keep, under new numbers. */
  ghost predicate Starts(r: Running, levels: Levels, nextFile: nat) {
    && LegalInputs(levels, r.inputs)
    && r.base == levels
    && (!r.manual ==> NoGap(r.All()))
    && IsMerged(r.merged, r.All())
    && IsOutput(r.outputs, Kept(r.base, r.inputs.level, r.merged, |r.merged|, r.snapshot), nextFile)
  }

  /** The part of a running compaction that no other step can touch. */
  ghost predicate WorkOk(r: Running) {
    && r.inputs.level + 1 < NUM_LEVELS
    && r.inputs.upper != []
    && AllValid(r.All())
    && IsMerged(r.merged, r.All())
    && Flatten(r.outputs) == Kept(r.base, r.inputs.level, r.merged, |r.merged|, r.snapshot)
    && AllValid(r.outputs)
    && Ordered(r.outputs)
    && (!r.manual ==> NoGap(r.All()))
  }

  /** How its inputs sit in the current version, whatever was flushed meanwhile. */
  ghost predicate PlaceOk(r: Running, levels: Levels)
    requires WorkOk(r)
  {
    && |levels| == NUM_LEVELS
    && InputsPresent(r, levels)
    && LeftoversNewer(r, levels)
    && LeftoversFit(r, levels)
    && StillBase(r, levels)
  }

  ghost predicate OutputNumbersOk(r: Running, levels: Levels, nextFile: nat) {
    DistinctNumbers(r.outputs) && NumbersBelow(r.outputs, nextFile) && OutputsNew(r, levels)
  }

  ghost predicate RunningOk(r: Running, levels: Levels, nextFile: nat) {
    WorkOk(r) && PlaceOk(r, levels) && OutputNumbersOk(r, levels, nextFile)
  }

  ghost predicate InputsPresent(r: Running, levels: Levels)
    requires r.inputs.level + 1 < |levels|
  {
    && (forall f | f in r.inputs.upper :: f in levels[r.inputs.level])
    && (forall f | f in r.inputs.lower :: f in levels[r.inputs.level + 1])
  }

  ghost predicate OutputsNew(r: Running, levels: Levels) {
    forall i, f, o | 0 <= i < |levels| && f in levels[i] && o in r.outputs :: f.number != o.number
  }

  /** Files of the two levels that are not inputs are newer than every input. */
  ghost predicate LeftoversNewer(r: Running, levels: Levels)
    requires r.inputs.level + 1 < |levels|
  {
    forall i, g, f | r.inputs.level <= i <= r.inputs.level + 1 && g in levels[i] && !IsInput(r, i, g) && f in r.All() ::
      NewerFile(g, f)
  }

  ghost predicate IsInput(r: Running, i: int, g: FileMetaData) {
    (i == r.inputs.level && g in r.inputs.upper) || (i == r.inputs.level + 1 && g in r.inputs.lower)
  }

  /** The outputs fit in between the files of the lower level that are not inputs. */
  ghost predicate LeftoversFit(r: Running, levels: Levels)
    requires r.inputs.level + 1 < |levels|
  {
    forall g, o | g in levels[r.inputs.level + 1] && g !in r.inputs.lower && o in r.outputs :: KeysApart(g, o)
  }

  ghost predicate OutsideHull(g: FileMetaData, files: Level)
    requires files != []
  {
    g.Hi() < HullLo(files) || HullHi(files) < g.Lo()
  }

  /** Keys of the inputs that had nothing below in the input version still have nothing below. */
  ghost predicate StillBase(r: Running, levels: Levels) {
    forall f, k | f in r.All() && f.Covers(k) && BaseLevel(r.base, r.inputs.level, k) ::
      BaseLevel(levels, r.inputs.level, k)
  }

  // ---------------------------------------------------------------- start

  lemma {:induction false} FlattenMembers(files: Level)
    ensures SetOf(Flatten(files)) == EntriesOf(files)
  {
    if files != [] {
      FlattenMembers(files[1..]);
      assert forall f :: f in files <==> f == files[0] || f in files[1..];
      forall e ensures e in Flatten(files) <==> e in EntriesOf(files) {
        assert e in Flatten(files) <==> e in files[0].entries || e in EntriesOf(files[1..]);
      }
    }
  }

  lemma {:induction false} OutputsAreValid(outputs: Level, kept: seq<Entry>, first: nat)
    requires IsOutput(outputs, kept, first) && SortedRun(kept)
    ensures AllValid(outputs) && DistinctNumbers(outputs) && NumbersBelow(outputs, first + |outputs|)
    ensures forall f | f in outputs :: f.number >= first
  {
    forall i | 0 <= i < |outputs| ensures outputs[i].Valid() {
      PieceIsSorted(outputs, i);
    }
  }

  /** Each file is a stretch of the flattened sequence. */
  lemma {:induction false} PieceIsSorted(files: Level, i: nat)
    requires i < |files| && SortedRun(Flatten(files))
    ensures SortedRun(files[i].entries)
  {
    var all := Flatten(files);
    var rest := Flatten(files[1..]);
    if i == 0 {
      assert all[..|files[0].entries|] == files[0].entries;
    } else {
      assert all[|files[0].entries|..] == rest;
      PieceIsSorted(files[1..], i - 1);
    }
  }

  /** A later piece of a sorted sequence holds only later entries. */
  lemma {:induction false} PiecesInOrder(files: Level, i: nat, j: nat, x: Entry, y: Entry)
    requires SortedRun(Flatten(files)) && i < j < |files| && x in files[i].entries && y in files[j].entries
    ensures Less(x.key, y.key)
  {
    var head := files[0].entries;
    assert Flatten(files)[|head|..] == Flatten(files[1..]);
    if i == 0 {
      FlattenMembers(files[1..]);
      assert files[1..][j - 1] == files[j] && files[j] in files[1..];
      assert y in EntriesOf(files[1..]);
      assert y in Flatten(files[1..]);
      var a :| 0 <= a < |head| && head[a] == x;
      var b :| 0 <= b < |Flatten(files[1..])| && Flatten(files[1..])[b] == y;
      assert Flatten(files)[a] == x && Flatten(files)[|head| + b] == y;
    } else {
      assert files[1..][i - 1] == files[i] && files[1..][j - 1] == files[j];
      PiecesInOrder(files[1..], i - 1, j - 1, x, y);
    }
  }

  lemma {:induction false} OutputsAreOrdered(outputs: Level)
    requires AllValid(outputs) && SortedRun(Flatten(outputs))
    ensures Ordered(outputs)
  {
    forall i, j | 0 <= i < j < |outputs| ensures Less(outputs[i].largest, outputs[j].smallest) {
      assert outputs[i].Valid() && outputs[j].Valid();
      PiecesInOrder(outputs, i, j, outputs[i].entries[|outputs[i].entries| - 1], outputs[j].entries[0]);
    }
  }

  lemma {:induction false} LeftoversNewerAtStart(r: Running, levels: Levels, nextFile: nat)
    requires Arranged(levels, nextFile) && Starts(r, levels, nextFile)
    requires EndsKeys(levels, r.inputs) && UniqueSequences(EntriesFrom(levels, 0))
    ensures LeftoversNewer(r, levels)
  {
    ArrangedIsReadable(levels, nextFile);
    assert LegalInputs(levels, r.inputs);
    hide Arranged, Starts, LegalInputs, EndsKeys, Version.Readable, WellShaped, UniqueSequences, NewerFile;
    forall i: int, g, f | r.inputs.level <= i <= r.inputs.level + 1 && g in levels[i] && !IsInput(r, i, g) && f in r.All()
      ensures NewerFile(g, f)
    {
      LeftoverIsNewer(levels, r.inputs, i, g, f);
    }
  }

  lemma {:induction false} LeftoverIsNewer(levels: Levels, c: Inputs, i: nat, g: FileMetaData, f: FileMetaData)
    requires WellShaped(levels) && Version.Readable(levels) && LegalInputs(levels, c) && EndsKeys(levels, c)
    requires UniqueSequences(EntriesFrom(levels, 0))
    requires c.level <= i <= c.level + 1 && g in levels[i] && f in c.upper + c.lower
    requires g !in (if i == c.level then c.upper else c.lower)
    ensures NewerFile(g, f)
  {
    InputMember(levels, c, f);
    assert Recent(levels);
    hide EndsKeys, LegalInputs, Recent, Continues, NewerFile, UniqueSequences, WellShaped, Version.Readable;
    if f in c.upper && (i == 0 || i == c.level + 1) {
      LeftSharesNothing(levels, c, i, g, f);
    } else if f in c.upper {
      UpperEndsKey(levels, c, f, g);
      LeftIsNewer(levels, i, f, g);
    } else if i == c.level + 1 {
      LowerEndsKey(levels, c, f, g);
      LeftIsNewer(levels, i, f, g);
    } else {
      AboveIsNewer(levels, i, g, f);
    }
  }

  lemma {:induction false} LeftSharesNothing(levels: Levels, c: Inputs, i: nat, g: FileMetaData, f: FileMetaData)
    requires WellShaped(levels) && LegalInputs(levels, c) && f in c.upper
    requires (i == 0 && c.level == 0 && g in levels[0] && g !in c.upper)
          || (i == c.level + 1 && g in levels[i] && g !in c.lower)
    ensures NewerFile(g, f)
  {
    LeftIsApart(levels, c, i, g, f);
    LegalInputsAreValid(levels, c);
    ValidMember(levels[i], g);
    ValidMember(c.upper, f);
    hide LegalInputs, WellShaped, NewerFile;
    NothingShared(g, f);
  }

  lemma {:induction false} InputMember(levels: Levels, c: Inputs, f: FileMetaData)
    requires WellShaped(levels) && LegalInputs(levels, c) && f in c.upper + c.lower
    ensures c.level + 1 < |levels| && f in levels[if f in c.upper then c.level else c.level + 1]
  {
    LegalInputsAreValid(levels, c);
  }

  lemma {:induction false} UpperEndsKey(levels: Levels, c: Inputs, f: FileMetaData, g: FileMetaData)
    requires c.level + 1 < |levels| && EndsKeys(levels, c) && f in c.upper && g in levels[c.level] && g !in c.upper
    ensures !Continues(f, g)
  {
  }

  lemma {:induction false} LowerEndsKey(levels: Levels, c: Inputs, f: FileMetaData, g: FileMetaData)
    requires c.level + 1 < |levels| && EndsKeys(levels, c) && f in c.lower && g in levels[c.level + 1] && g !in c.lower
    ensures !Continues(f, g)
  {
  }

  lemma {:induction false} AboveIsNewer(levels: Levels, i: nat, g: FileMetaData, f: FileMetaData)
    requires Recent(levels) && i + 1 < |levels| && g in levels[i] && f in levels[i + 1]
    ensures NewerFile(g, f)
  {
  }

  /** Files left at level + 1, and at level 0, share no user key with an upper input. */
  lemma {:induction false} LeftIsApart(levels: Levels, c: Inputs, i: nat, g: FileMetaData, f: FileMetaData)
    requires WellShaped(levels) && LegalInputs(levels, c) && f in c.upper
    requires (i == 0 && c.level == 0 && g in levels[0] && g !in c.upper)
          || (i == c.level + 1 && g in levels[i] && g !in c.lower)
    ensures Apart(g, f)
  {
    HullBounds(c.upper);
    MeetingMembers(levels[c.level + 1], Some(HullLo(c.upper)), Some(HullHi(c.upper)));
    assert !MeetsHull(g, c.upper);
  }

  /** Every output lies between the files left at its level. */
  lemma {:induction false} LeftoversFitAtStart(r: Running, levels: Levels)
    requires WellShaped(levels) && LegalInputs(levels, r.inputs) && WorkOk(r)
    ensures LeftoversFit(r, levels)
  {
    hide WorkOk;
    var c := r.inputs;
    forall g, o | g in levels[c.level + 1] && g !in c.lower && o in r.outputs ensures KeysApart(g, o) {
      LeftoverBeside(levels, c, g);
      OutputBeside(r, o, g);
    }
  }

  lemma {:induction false} OutputBeside(r: Running, o: FileMetaData, g: FileMetaData)
    requires WorkOk(r) && o in r.outputs
    requires (forall f | f in r.All() :: Less(g.largest, f.smallest)) || (forall f | f in r.All() :: Less(f.largest, g.smallest))
    ensures KeysApart(g, o)
  {
    ValidMember(r.outputs, o);
    var x, y := o.entries[0], o.entries[|o.entries| - 1];
    var f := OutputEntry(r, o, x);
    ValidMember(r.All(), f);
    FileBounds(f, x);
    var f' := OutputEntry(r, o, y);
    ValidMember(r.All(), f');
    FileBounds(f', y);
  }

  lemma {:induction false} StartIsOk(r: Running, levels: Levels, nextFile: nat)
    requires Arranged(levels, nextFile) && Starts(r, levels, nextFile)
    requires EndsKeys(levels, r.inputs) && UniqueSequences(EntriesFrom(levels, 0))
    ensures RunningOk(r, levels, nextFile + |r.outputs|)
  {
    hide Recent, NewerFile, Keeps, SortedRun, LeftoversNewer, LeftoversFit, NoGap, NumbersApart, EndsKeys, UniqueSequences;
    StartParts(r, levels, nextFile);
    LeftoversNewerAtStart(r, levels, nextFile);
  }

  /** What holds at the start whatever was picked. */
  lemma {:induction false} StartParts(r: Running, levels: Levels, nextFile: nat)
    requires Arranged(levels, nextFile) && Starts(r, levels, nextFile)
    ensures WorkOk(r) && |levels| == NUM_LEVELS
    ensures InputsPresent(r, levels) && LeftoversFit(r, levels) && StillBase(r, levels)
    ensures OutputNumbersOk(r, levels, nextFile + |r.outputs|)
  {
    hide Recent, NewerFile, Keeps, SortedRun, LeftoversFit, NoGap, NumbersApart;
    ArrangedIsReadable(levels, nextFile);
    LegalInputsAreValid(levels, r.inputs);
    KeptIsSorted(r.base, r.inputs.level, r.merged, |r.merged|, r.snapshot);
    OutputsAreValid(r.outputs, Flatten(r.outputs), nextFile);
    OutputsAreOrdered(r.outputs);
    LeftoversFitAtStart(r, levels);
    forall i, f, o | 0 <= i < |levels| && f in levels[i] && o in r.outputs ensures f.number != o.number {
      LevelBound(levels, nextFile, i, nextFile);
    }
  }

  // ---------------------------------------------------------------- a flush meanwhile

  /** The one thing a flush must not do to a running compaction: land at its output level inside the range of one of
      its outputs. */
  ghost predicate MayFlush(r: Running, f: FileMetaData, p: nat) {
    p == r.inputs.level + 1 ==> forall o | o in r.outputs :: Apart(f, o)
  }

  /** Outside the hull of the inputs every flush is fine ... */
  lemma {:induction false} OutsideMayFlush(r: Running, f: FileMetaData, p: nat)
    requires WorkOk(r) && OutsideHull(f, r.All())
    ensures MayFlush(r, f, p)
  {
    forall o | o in r.outputs ensures Apart(f, o) {
      OutputInHull(r, o);
    }
  }

  /** ... and where the inputs leave no gap, as those of an automatic compaction never do, a flush to their output level
      cannot but land outside. */
  lemma {:induction false} NoGapMayFlush(r: Running, levels: Levels, f: FileMetaData, p: nat)
    requires WorkOk(r) && |levels| == NUM_LEVELS && InputsPresent(r, levels) && NoGap(r.All())
    requires f.Valid() && MayPlace(levels, f, p)
    ensures MayFlush(r, f, p)
  {
    if p == r.inputs.level + 1 {
      FileBounds(f, f.entries[0]);
      MembersAreValid(r.All(), r.All());
      forall g | g in r.All() ensures !Meets(g, Some(f.Lo()), Some(f.Hi())) {
        PlacedApart(r, levels, f, p, g);
      }
      AvoidsHull(r.All(), f.Lo(), f.Hi());
      OutsideMayFlush(r, f, p);
    }
  }

  /** A table placed at the output level or below shares no key with the inputs. */
  lemma {:induction false} PlacedApart(r: Running, levels: Levels, f: FileMetaData, p: nat, g: FileMetaData)
    requires r.inputs.level + 1 < |levels| && InputsPresent(r, levels) && MayPlace(levels, f, p) && p > r.inputs.level
    requires g in r.All()
    ensures Apart(f, g)
  {
    if g in r.inputs.upper {
      assert g in levels[r.inputs.level];
    } else {
      assert g in levels[r.inputs.level + 1];
    }
  }

  /** Flushing while a compaction runs leaves it sound. */
  lemma {:induction false} FlushKeepsRunning(r: Running, levels: Levels, levels': Levels, nextFile: nat, f: FileMetaData, p: nat)
    requires RunningOk(r, levels, nextFile) && MayFlush(r, f, p)
    requires f.Valid() && f.number >= nextFile && MayPlace(levels, f, p) && HasAdded(levels, levels', p, f)
    requires forall i, g | 0 <= i < |levels| && g in levels[i] :: NewerFile(f, g)
    ensures RunningOk(r, levels', f.number + 1)
  {
    assert InputsPresent(r, levels');
    FlushKeepsFit(r, levels, levels', f, p);
    FlushKeepsNewer(r, levels, levels', f, p);
    FlushKeepsBase(r, levels, levels', f, p);
    forall i, g, o | 0 <= i < |levels'| && g in levels'[i] && o in r.outputs ensures g.number != o.number {
      assert NumbersBelow(r.outputs, nextFile);
    }
    assert NumbersBelow(r.outputs, f.number + 1);
  }

  lemma {:induction false} FlushKeepsFit(r: Running, levels: Levels, levels': Levels, f: FileMetaData, p: nat)
    requires r.inputs.level + 1 < |levels| && HasAdded(levels, levels', p, f)
    requires LeftoversFit(r, levels) && MayFlush(r, f, p)
    ensures LeftoversFit(r, levels')
  {
    forall g, o | g in levels'[r.inputs.level + 1] && g !in r.inputs.lower && o in r.outputs ensures KeysApart(g, o) {
      if g !in levels[r.inputs.level + 1] {
        ApartKeys(f, o);
      }
    }
  }

  lemma {:induction false} FlushKeepsNewer(r: Running, levels: Levels, levels': Levels, f: FileMetaData, p: nat)
    requires r.inputs.level + 1 < |levels| && HasAdded(levels, levels', p, f)
    requires InputsPresent(r, levels) && LeftoversNewer(r, levels)
    requires forall i, g | 0 <= i < |levels| && g in levels[i] :: NewerFile(f, g)
    ensures LeftoversNewer(r, levels')
  {
    forall i: int, g, h | r.inputs.level <= i <= r.inputs.level + 1 && g in levels'[i] && !IsInput(r, i, g) && h in r.All()
      ensures NewerFile(g, h)
    {
      assert h in levels[r.inputs.level] || h in levels[r.inputs.level + 1];
    }
  }

  lemma {:induction false} FlushKeepsBase(r: Running, levels: Levels, levels': Levels, f: FileMetaData, p: nat)
    requires r.inputs.level + 1 < |levels| && InputsPresent(r, levels) && MayPlace(levels, f, p)
    requires HasAdded(levels, levels', p, f) && StillBase(r, levels)
    ensures StillBase(r, levels')
  {
    forall h, k | h in r.All() && h.Covers(k) && BaseLevel(r.base, r.inputs.level, k)
      ensures BaseLevel(levels', r.inputs.level, k)
    {
      forall lvl, j | r.inputs.level + 2 <= lvl < |levels'| && 0 <= j < |levels'[lvl]|
        ensures !levels'[lvl][j].Covers(k)
      {
        var g := levels'[lvl][j];
        assert g in levels'[lvl];
        if g in levels[lvl] {
          var j' :| 0 <= j' < |levels[lvl]| && levels[lvl][j'] == g;
          assert BaseLevel(levels, r.inputs.level, k);
        } else {
          PlacedApart(r, levels, f, p, h);
        }
      }
    }
  }

  // ---------------------------------------------------------------- finish

  /** InstallCompactionResults: the inputs are deleted and the outputs added. */
  function Replace(levels: Levels, r: Running): Levels
    requires r.inputs.level + 1 < |levels|
  {
    Install(Install(levels, r.inputs.level, LevelEdit(Numbers(r.inputs.upper), [])),
            r.inputs.level + 1, LevelEdit(Numbers(r.inputs.lower), r.outputs))
  }

  ghost predicate HasReplaced(levels: Levels, levels': Levels, r: Running) {
    && |levels'| == |levels|
    && forall i, g :: 0 <= i < |levels| ==>
         (g in levels'[i] <==> (g in levels[i] && !IsInput(r, i, g)) || (i == r.inputs.level + 1 && g in r.outputs))
  }

  /** Every entry of an output comes from an input file, so lies in the hull. */
  lemma {:induction false} OutputEntry(r: Running, o: FileMetaData, e: Entry) returns (f: FileMetaData)
    requires WorkOk(r) && o in r.outputs && e in o.entries
    ensures f in r.All() && e in f.entries
    ensures HullLo(r.All()) <= e.key.user <= HullHi(r.All())
  {
    FlattenMembers(r.outputs);
    KeptMembers(r.base, r.inputs.level, r.merged, |r.merged|, r.snapshot);
    assert e in EntriesOf(r.outputs);
    assert e in Flatten(r.outputs);
    assert e in SetOf(r.merged);
    f :| f in r.All() && e in f.entries;
    ValidMember(r.All(), f);
    FileBounds(f, e);
    HullBounds(r.All());
  }

  lemma {:induction false} OutputInHull(r: Running, o: FileMetaData)
    requires WorkOk(r) && o in r.outputs
    ensures HullLo(r.All()) <= o.Lo() && o.Hi() <= HullHi(r.All())
  {
    ValidMember(r.outputs, o);
    var _ := OutputEntry(r, o, o.entries[0]);
    var _ := OutputEntry(r, o, o.entries[|o.entries| - 1]);
  }

  lemma {:induction false} NumbersOfInputs(files: Level, inputs: Level)
    requires DistinctNumbers(files) && forall f | f in inputs :: f in files
    ensures forall g | g in files :: g.number in Numbers(inputs) <==> g in inputs
  {
    forall g | g in files && g.number in Numbers(inputs) ensures g in inputs {
      var f :| f in inputs && f.number == g.number;
      SameNumberSameFile(files, f, g);
    }
  }

  /** The outputs may be added to the lower level once its inputs are gone. */
  lemma {:induction false} ReplacementOk(levels: Levels, r: Running, nextFile: nat)
    requires WorkOk(r) && |levels| == NUM_LEVELS && InputsPresent(r, levels) && LeftoversFit(r, levels)
    requires OutputNumbersOk(r, levels, nextFile) && DistinctNumbers(levels[r.inputs.level + 1])
    ensures EditOk(levels[r.inputs.level + 1], LevelEdit(Numbers(r.inputs.lower), r.outputs), nextFile, true)
  {
    var files := levels[r.inputs.level + 1];
    NumbersOfInputs(files, r.inputs.lower);
    assert forall g | g in files && g.number !in Numbers(r.inputs.lower) :: g !in r.inputs.lower;
  }

  /** What Replace leaves at the inputs' own level. */
  lemma {:induction false} ReplaceUpper(levels: Levels, r: Running, nextFile: nat)
    requires Arranged(levels, nextFile) && |levels| == NUM_LEVELS && r.inputs.level + 1 < NUM_LEVELS
    requires InputsPresent(r, levels)
    ensures var l := r.inputs.level;
            var files := Replace(levels, r)[l];
            && LevelOk(files, nextFile, l > 0)
            && forall g :: g in files <==> g in levels[l] && g !in r.inputs.upper
  {
    hide LevelOk, SaveLevel;
    var l := r.inputs.level;
    var edit := LevelEdit(Numbers(r.inputs.upper), []);
    LevelBound(levels, nextFile, l, nextFile);
    UpperNumbers(levels[l], r.inputs.upper, nextFile, l > 0);
    InstallLevel(levels[l], edit, nextFile, l > 0);
    assert Replace(levels, r)[l] == SaveLevel(levels[l], Apply(LevelEdit({}, []), edit));
  }

  lemma {:induction false} UpperNumbers(files: Level, inputs: Level, bound: nat, apart: bool)
    requires LevelOk(files, bound, apart) && forall f | f in inputs :: f in files
    ensures EditOk(files, LevelEdit(Numbers(inputs), []), bound, apart)
    ensures forall g | g in files :: g.number in Numbers(inputs) <==> g in inputs
  {
    NumbersOfInputs(files, inputs);
  }

  /** What Replace leaves one level down. */
  lemma {:induction false} ReplaceLower(levels: Levels, r: Running, nextFile: nat)
    requires Arranged(levels, nextFile) && WorkOk(r) && InputsPresent(r, levels) && LeftoversFit(r, levels)
    requires OutputNumbersOk(r, levels, nextFile)
    ensures var l := r.inputs.level + 1;
            var files := Replace(levels, r)[l];
            && LevelOk(files, nextFile, true)
            && forall g :: g in files <==> (g in levels[l] && g !in r.inputs.lower) || g in r.outputs
  {
    assert r.inputs.level + 1 < NUM_LEVELS;
    hide LevelOk, SaveLevel, WorkOk, LeftoversFit, OutputNumbersOk;
    var l := r.inputs.level + 1;
    var edit := LevelEdit(Numbers(r.inputs.lower), r.outputs);
    LevelBound(levels, nextFile, l, nextFile);
    LevelNumbers(levels[l], nextFile, true);
    NumbersOfInputs(levels[l], r.inputs.lower);
    ReplacementOk(levels, r, nextFile);
    InstallLevel(levels[l], edit, nextFile, true);
    assert Replace(levels, r)[l] == SaveLevel(levels[l], Apply(LevelEdit({}, []), edit));
  }

  lemma {:induction false} LevelNumbers(files: Level, bound: nat, apart: bool)
    requires LevelOk(files, bound, apart)
    ensures DistinctNumbers(files)
  {
  }

  lemma {:induction false} ReplaceLevels(levels: Levels, r: Running, nextFile: nat)
    requires Arranged(levels, nextFile) && WorkOk(r) && InputsPresent(r, levels) && LeftoversFit(r, levels)
    requires OutputNumbersOk(r, levels, nextFile)
    ensures var levels' := Replace(levels, r);
            && HasReplaced(levels, levels', r)
            && LevelOk(levels'[r.inputs.level], nextFile, r.inputs.level > 0)
            && LevelOk(levels'[r.inputs.level + 1], nextFile, true)
  {
    assert r.inputs.level + 1 < NUM_LEVELS;
    hide LevelOk, SaveLevel, WorkOk, LeftoversFit, OutputNumbersOk, InputsPresent;
    ReplaceUpper(levels, r, nextFile);
    ReplaceLower(levels, r, nextFile);
    ReplacedMembers(levels, r, Replace(levels, r));
  }

  lemma {:induction false} ReplacedMembers(levels: Levels, r: Running, levels': Levels)
    requires r.inputs.level + 1 < |levels| && levels' == Replace(levels, r)
    requires forall g :: g in levels'[r.inputs.level] <==> g in levels[r.inputs.level] && g !in r.inputs.upper
    requires forall g :: g in levels'[r.inputs.level + 1] <==>
      (g in levels[r.inputs.level + 1] && g !in r.inputs.lower) || g in r.outputs
    ensures HasReplaced(levels, levels', r)
  {
  }

  /** Outputs stay above what their inputs were above. */
  lemma {:induction false} OutputAbove(levels: Levels, r: Running, j: nat, o: FileMetaData, g: FileMetaData)
    requires Recent(levels) && WorkOk(r) && r.inputs.level + 1 < j < |levels| && InputsPresent(r, levels)
    requires o in r.outputs && g in levels[j]
    ensures NewerFile(o, g)
  {
    forall x, y | x in SetOf(o.entries) && y in SetOf(g.entries) && x.key.user == y.key.user
      ensures x.key.sequence > y.key.sequence
    {
      var f := OutputEntry(r, o, x);
      assert f in levels[r.inputs.level] || f in levels[r.inputs.level + 1];
      assert NewerFile(f, g);
    }
  }

  /** What is left above the output level stays newer than the outputs. */
  lemma {:induction false} OutputBelow(levels: Levels, r: Running, i: nat, g: FileMetaData, o: FileMetaData)
    requires Recent(levels) && WorkOk(r) && r.inputs.level + 1 < |levels|
    requires InputsPresent(r, levels) && LeftoversNewer(r, levels)
    requires i <= r.inputs.level && g in levels[i] && !IsInput(r, i, g) && o in r.outputs
    ensures NewerFile(g, o)
  {
    forall x, y | x in SetOf(g.entries) && y in SetOf(o.entries) && x.key.user == y.key.user
      ensures x.key.sequence > y.key.sequence
    {
      var f := OutputEntry(r, o, y);
      assert f in levels[r.inputs.level] || f in levels[r.inputs.level + 1];
      assert NewerFile(g, f);
    }
  }

  lemma {:induction false} WhereFrom(levels: Levels, levels': Levels, r: Running, i: nat, g: FileMetaData)
    requires HasReplaced(levels, levels', r) && i < |levels| && g in levels'[i]
    ensures (g in levels[i] && !IsInput(r, i, g)) || (i == r.inputs.level + 1 && g in r.outputs)
  {
    assert IsInput(r, i, g) <==> (i == r.inputs.level && g in r.inputs.upper) || (i == r.inputs.level + 1 && g in r.inputs.lower);
  }

  lemma {:induction false} LengthKept(levels: Levels, levels': Levels, r: Running)
    requires HasReplaced(levels, levels', r)
    ensures |levels'| == |levels|
  {
  }

  lemma {:induction false} ReplacedPair(
      levels: Levels, r: Running, levels': Levels, i: nat, j: nat, g1: FileMetaData, g2: FileMetaData)
    requires Recent(levels) && WorkOk(r) && r.inputs.level + 1 < |levels|
    requires InputsPresent(r, levels) && LeftoversNewer(r, levels) && HasReplaced(levels, levels', r)
    requires i < j < |levels'| && g1 in levels'[i] && g2 in levels'[j]
    ensures NewerFile(g1, g2)
  {
    hide WorkOk, NewerFile, LeftoversNewer, InputsPresent;
    WhereFrom(levels, levels', r, i, g1);
    WhereFrom(levels, levels', r, j, g2);
    if i == r.inputs.level + 1 && g1 in r.outputs {
      OutputAbove(levels, r, j, g1, g2);
    } else if j == r.inputs.level + 1 && g2 in r.outputs {
      OutputBelow(levels, r, i, g1, g2);
    } else {
      assert g1 in levels[i] && g2 in levels[j];
    }
  }

  lemma {:induction false} ReplaceRecent(levels: Levels, r: Running, levels': Levels)
    requires Recent(levels) && WorkOk(r) && r.inputs.level + 1 < |levels|
    requires InputsPresent(r, levels) && LeftoversNewer(r, levels) && HasReplaced(levels, levels', r)
    ensures Recent(levels')
  {
    hide WorkOk, NewerFile, LeftoversNewer, InputsPresent, HasReplaced;
    LengthKept(levels, levels', r);
    forall f, g | f in levels'[0] && g in levels'[0] && f.number > g.number ensures NewerFile(f, g) {
      WhereFrom(levels, levels', r, 0, f);
      WhereFrom(levels, levels', r, 0, g);
    }
    forall i, j, g1, g2 | 0 <= i < j < |levels'| && g1 in levels'[i] && g2 in levels'[j]
      ensures NewerFile(g1, g2)
    {
      ReplacedPair(levels, r, levels', i, j, g1, g2);
    }
  }

  /** What is stored in the version outside the inputs. */
  ghost function Rest(levels: Levels, r: Running): set<Entry> {
    set i, f, e | 0 <= i < |levels| && f in levels[i] && !IsInput(r, i, f) && e in f.entries :: e
  }

  lemma {:induction false} EntriesBefore(levels: Levels, r: Running)
    requires r.inputs.level + 1 < |levels| && InputsPresent(r, levels)
    ensures EntriesFrom(levels, 0) == Rest(levels, r) + EntriesOf(r.All())
  {
    forall e ensures e in EntriesFrom(levels, 0) <==> e in Rest(levels, r) + EntriesOf(r.All()) {
      if e in EntriesFrom(levels, 0) {
        var i: int, f: FileMetaData :| 0 <= i < |levels| && f in levels[i] && e in f.entries;
        assert IsInput(r, i, f) ==> f in r.All();
      }
      if e in EntriesOf(r.All()) {
        var f :| f in r.All() && e in f.entries;
        assert f in levels[r.inputs.level] || f in levels[r.inputs.level + 1];
      }
    }
  }

  lemma {:induction false} EntriesAfter(levels: Levels, r: Running, levels': Levels)
    requires r.inputs.level + 1 < |levels| && HasReplaced(levels, levels', r)
    ensures EntriesFrom(levels', 0) == Rest(levels, r) + EntriesOf(r.outputs)
  {
    forall e ensures e in EntriesFrom(levels', 0) <==> e in Rest(levels, r) + EntriesOf(r.outputs) {
      if e in EntriesFrom(levels', 0) {
        var i: int, f: FileMetaData :| 0 <= i < |levels'| && f in levels'[i] && e in f.entries;
        assert (f in levels[i] && !IsInput(r, i, f)) || f in r.outputs;
      }
      if e in EntriesOf(r.outputs) {
        var f :| f in r.outputs && e in f.entries;
        assert f in levels'[r.inputs.level + 1];
      }
      if e in Rest(levels, r) {
        var i: int, f: FileMetaData :| 0 <= i < |levels| && f in levels[i] && !IsInput(r, i, f) && e in f.entries;
        assert f in levels'[i];
      }
    }
  }

  /** Where a key of the inputs has nothing below, everything of it outside the inputs is newer:
      this is what makes dropping its deletion marker safe. */
  lemma {:induction false} RestIsNewerAtBase(levels: Levels, r: Running, k: UserKey)
    requires WellShaped(levels) && Recent(levels) && WorkOk(r) && PlaceOk(r, levels)
    ensures NothingOlderOutside(r.base, r.inputs.level, r.merged, Rest(levels, r), k)
  {
    hide Recent;
    if BaseLevel(r.base, r.inputs.level, k) {
      forall x, y | x in r.merged && y in Rest(levels, r) && x.key.user == k && y.key.user == k
        ensures y.key.sequence > x.key.sequence
      {
        assert x in SetOf(r.merged);
        var f :| f in r.All() && x in f.entries;
        var i: int, g: FileMetaData :| 0 <= i < |levels| && g in levels[i] && !IsInput(r, i, g) && y in g.entries;
        ValidMember(r.All(), f);
        FileBounds(f, x);
        ValidMember(levels[i], g);
        FileBounds(g, y);
        RestFileIsNewer(levels, r, k, f, i, g);
      }
    }
  }

  lemma {:induction false} RestFileIsNewer(levels: Levels, r: Running, k: UserKey,
                                           f: FileMetaData, i: nat, g: FileMetaData)
    requires Recent(levels) && WorkOk(r) && PlaceOk(r, levels) && BaseLevel(r.base, r.inputs.level, k)
    requires f in r.All() && f.Covers(k)
    requires i < |levels| && g in levels[i] && !IsInput(r, i, g) && g.Covers(k)
    ensures NewerFile(g, f)
  {
    assert BaseLevel(levels, r.inputs.level, k);
    var j :| 0 <= j < |levels[i]| && levels[i][j] == g;
    assert i < r.inputs.level + 2;
    assert f in levels[r.inputs.level] || f in levels[r.inputs.level + 1];
  }

  lemma {:induction false} FinishKeepsAnswers(levels: Levels, r: Running, recorded: set<Entry>, floor: nat)
    requires WellShaped(levels) && Recent(levels) && WorkOk(r) && PlaceOk(r, levels)
    requires floor <= r.snapshot && UniqueSequences(recorded)
    requires Rest(levels, r) + SetOf(r.merged) <= recorded
    requires AnswersLike(Rest(levels, r) + SetOf(r.merged), recorded, floor)
    ensures AnswersLike(Rest(levels, r) + SetOf(Flatten(r.outputs)), recorded, r.snapshot)
  {
    forall k: UserKey, s: SequenceNumber, v: Payload | r.snapshot <= s
      ensures Yields(Rest(levels, r) + SetOf(Flatten(r.outputs)), k, s, v) <==> Yields(recorded, k, s, v)
    {
      RestIsNewerAtBase(levels, r, k);
      DroppingPreservesAnswers(r.base, r.inputs.level, r.merged, Rest(levels, r), r.snapshot, k, s, v);
    }
  }

  lemma {:induction false} ReplaceNumbers(levels: Levels, r: Running, nextFile: nat, levels': Levels)
    requires NumbersApart(levels) && OutputNumbersOk(r, levels, nextFile) && HasReplaced(levels, levels', r)
    ensures NumbersApart(levels')
  {
    forall i, j, g1, g2 | 0 <= i < j < |levels'| && g1 in levels'[i] && g2 in levels'[j]
      ensures g1.number != g2.number
    {
      assert (g1 in levels[i] && !IsInput(r, i, g1)) || (i == r.inputs.level + 1 && g1 in r.outputs);
      assert (g2 in levels[j] && !IsInput(r, j, g2)) || (j == r.inputs.level + 1 && g2 in r.outputs);
    }
  }

  /** The version after the outputs have replaced the inputs is arranged as before. */
  lemma {:induction false} FinishArranged(levels: Levels, r: Running, nextFile: nat)
    requires Arranged(levels, nextFile) && RunningOk(r, levels, nextFile)
    ensures Arranged(Replace(levels, r), nextFile) && HasReplaced(levels, Replace(levels, r), r)
  {
    var levels' := Replace(levels, r);
    ReplaceLevels(levels, r, nextFile);
    forall i | 0 <= i < NUM_LEVELS ensures LevelOk(levels'[i], nextFile, i > 0) {
      LevelBound(levels, nextFile, i, nextFile);
    }
    ReplaceRecent(levels, r, levels');
    ReplaceNumbers(levels, r, nextFile, levels');
  }

  /** Installing the outputs in place of the inputs changes no answer at or after the oldest
      snapshot. */
  lemma {:induction false} FinishKeepsTables(levels: Levels, r: Running, h: History, n: nat, floor: nat, nextFile: nat)
    requires TablesOk(levels, h, n, floor, nextFile) && RunningOk(r, levels, nextFile)
    requires floor <= r.snapshot
    ensures TablesOk(Replace(levels, r), h, n, r.snapshot, nextFile)
  {
    var levels' := Replace(levels, r);
    FinishArranged(levels, r, nextFile);
    ArrangedIsReadable(levels, nextFile);
    EntriesBefore(levels, r);
    EntriesAfter(levels, r, levels');
    FlattenMembers(r.outputs);
    KeptMembers(r.base, r.inputs.level, r.merged, |r.merged|, r.snapshot);
    RecordedBounds(h, 0, n);
    FinishKeepsAnswers(levels, r, Recorded(h, 0, n), floor);
  }

  // ---------------------------------------------------------------- a flush that does not fit

  ghost predicate LiesInside(f: FileMetaData, o: FileMetaData) {
    o.Lo() < f.Lo() && f.Hi() < o.Hi()
  }

  /** A table that shares no key range with any input lies apart from an output, or strictly inside its range. */
  lemma {:induction false} NotApartIsInside(r: Running, f: FileMetaData, o: FileMetaData)
    requires WorkOk(r) && f.Valid() && o in r.outputs && !Apart(f, o)
    requires forall g | g in r.All() :: Apart(f, g)
    ensures LiesInside(f, o)
  {
    ValidMember(r.outputs, o);
    var x, y := o.entries[0], o.entries[|o.entries| - 1];
    var g := OutputEntry(r, o, x);
    ValidMember(r.All(), g);
    FileBounds(g, x);
    var g' := OutputEntry(r, o, y);
    ValidMember(r.All(), g');
    FileBounds(g', y);
    FileBounds(f, f.entries[0]);
  }

  lemma {:induction false} KeysApartIsApart(r: Running, f: FileMetaData, o: FileMetaData)
    requires WorkOk(r) && f.Valid() && o in r.outputs && KeysApart(f, o)
    requires forall g | g in r.All() :: Apart(f, g)
    ensures Apart(f, o)
  {
    hide WorkOk, Apart;
    FileBounds(f, f.entries[0]);
    if !Apart(f, o) {
      NotApartIsInside(r, f, o);
    }
  }

  lemma {:induction false} ReplacedLower(levels: Levels, r: Running, n: nat)
    requires Arranged(levels, n) && WorkOk(r) && InputsPresent(r, levels) && OutputNumbersOk(r, levels, n)
    ensures |Replace(levels, r)| == |levels| && SortedFiles(Replace(levels, r)[r.inputs.level + 1])
    ensures forall g :: g in Replace(levels, r)[r.inputs.level + 1] <==>
                        (g in levels[r.inputs.level + 1] && g !in r.inputs.lower) || g in r.outputs
  {
    var i := r.inputs.level + 1;
    LevelBound(levels, n, i, n);
    NumbersOfInputs(levels[i], r.inputs.lower);
    SaveLevelMembers(levels[i], LevelEdit(Numbers(r.inputs.lower), r.outputs));
  }

  /** A table flushed to the output level of a running compaction leaves that level in order if and only if it lies apart
      from every output. */
  lemma {:induction false} FlushFitsExactly(r: Running, levels: Levels, levels': Levels, nextFile: nat, f: FileMetaData)
    requires RunningOk(r, levels, nextFile) && Arranged(levels', f.number + 1)
    requires f.Valid() && f.number >= nextFile && MayPlace(levels, f, r.inputs.level + 1)
    requires HasAdded(levels, levels', r.inputs.level + 1, f)
    ensures Ordered(Replace(levels', r)[r.inputs.level + 1]) <==> MayFlush(r, f, r.inputs.level + 1)
  {
    hide Recent, NumbersApart, NewerFile, Replace, StillBase, LeftoversNewer, SortedRun;
    var i := r.inputs.level + 1;
    forall g | g in r.All() ensures Apart(f, g) {
      PlacedApart(r, levels, f, i, g);
    }
    FlushKeepsNumbers(r, levels, levels', nextFile, f);
    ReplacedLower(levels', r, f.number + 1);
    if MayFlush(r, f, i) {
      FlushKeepsFit(r, levels, levels', f, i);
      ReplaceLevels(levels', r, f.number + 1);
    } else {
      var o :| o in r.outputs && !Apart(f, o);
      assert f !in r.inputs.lower by { NotAnInput(r, f); }
      if Ordered(Replace(levels', r)[i]) {
        OrderedMembers(Replace(levels', r)[i], f, o);
        KeysApartIsApart(r, f, o);
      }
    }
  }

  lemma {:induction false} NotAnInput(r: Running, f: FileMetaData)
    requires WorkOk(r) && f.Valid() && forall g | g in r.All() :: Apart(f, g)
    ensures f !in r.inputs.lower
  {
    FileBounds(f, f.entries[0]);
    assert f in r.inputs.lower ==> f in r.All();
  }

  lemma {:induction false} FlushKeepsNumbers(r: Running, levels: Levels, levels': Levels, nextFile: nat, f: FileMetaData)
    requires RunningOk(r, levels, nextFile) && f.number >= nextFile && HasAdded(levels, levels', r.inputs.level + 1, f)
    ensures OutputNumbersOk(r, levels', f.number + 1) && InputsPresent(r, levels') && f !in r.outputs
  {
    forall i, g, o | 0 <= i < |levels'| && g in levels'[i] && o in r.outputs ensures g.number != o.number {
      assert NumbersBelow(r.outputs, nextFile);
    }
    assert NumbersBelow(r.outputs, f.number + 1);
  }
}
