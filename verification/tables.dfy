/** What the table files of a version must satisfy to answer like the history of writes, and the
    three ways a version changes: a table is added, a file moves down, inputs are replaced by
    outputs. */
module Tables {
  import opened Common
  import opened InternalKeys
  import opened Version
  import opened Ranges
  import opened CompactionInputs
  import opened CompactionWork
  import opened Builder

  /** One Put or Delete of a write batch. */
  datatype Op = Op(key: UserKey, kind: ValueType, value: Payload)

  /** The history of writes: the operation with sequence number n is at position n - 1. */
  type History = h: seq<Op> | |h| < MAX_SEQUENCE witness []

  function EntryAt(h: History, i: nat): Entry
    requires i < |h|
  {
    Entry(InternalKey(h[i].key, i + 1, h[i].kind), h[i].value)
  }

  /** The entries of the writes with sequence numbers in (a, b]. */
  ghost function Recorded(h: History, a: nat, b: nat): set<Entry>
    requires b <= |h|
  {
    set i | a <= i < b :: EntryAt(h, i)
  }

  lemma {:induction false} RecordedBounds(h: History, a: nat, b: nat)
    requires b <= |h|
    ensures UniqueSequences(Recorded(h, a, b))
    ensures forall e | e in Recorded(h, a, b) :: a < e.key.sequence <= b
  {
  }

  lemma {:induction false} RecordedSplit(h: History, a: nat, b: nat, c: nat)
    requires a <= b <= c <= |h|
    ensures Recorded(h, a, c) == Recorded(h, b, c) + Recorded(h, a, b)
    ensures Newer(Recorded(h, b, c), Recorded(h, a, b))
  {
    RecordedBounds(h, a, b);
    RecordedBounds(h, b, c);
    forall e ensures e in Recorded(h, a, c) <==> e in Recorded(h, b, c) + Recorded(h, a, b) {
      if e in Recorded(h, a, c) {
        var i :| a <= i < c && EntryAt(h, i) == e;
        assert i < b || b <= i;
      }
    }
  }

  lemma {:induction false} RecordedPrefix(h: History, h': History, a: nat, b: nat)
    requires h <= h' && b <= |h|
    ensures Recorded(h', a, b) == Recorded(h, a, b)
  {
    assert forall i | a <= i < b :: EntryAt(h', i) == EntryAt(h, i);
  }

  // ---------------------------------------------------------------- the invariant of a version

  ghost predicate NumbersBelow(files: Level, bound: nat) {
    forall f | f in files :: f.number < bound
  }

  /** A level as SaveTo leaves it; at levels >= 1 its files are disjoint as ranges of internal keys. */
  ghost predicate LevelOk(files: Level, bound: nat, apart: bool) {
    && AllValid(files)
    && SortedFiles(files)
    && DistinctNumbers(files)
    && NumbersBelow(files, bound)
    && (apart ==> Ordered(files))
  }

  /** Levels as SaveTo leaves them, with no entry above a newer one of its key. */
  ghost predicate Arranged(levels: Levels, nextFile: nat) {
    && |levels| == NUM_LEVELS
    && (forall i | 0 <= i < NUM_LEVELS :: LevelOk(levels[i], nextFile, i > 0))
    && NumbersApart(levels)
    && Recent(levels)
  }

  /** A file number is in use at one level only. */
  ghost predicate NumbersApart(levels: Levels) {
    forall i, j, f, g | 0 <= i < j < |levels| && f in levels[i] && g in levels[j] :: f.number != g.number
  }

  /** From sequence `floor` on, reading the tables is reading the history up to `n`. */
  ghost predicate AnswersLike(es: set<Entry>, recorded: set<Entry>, floor: nat) {
    forall k: UserKey, s: SequenceNumber, v: Payload | floor <= s ::
      Yields(es, k, s, v) <==> Yields(recorded, k, s, v)
  }

  ghost predicate TablesOk(levels: Levels, h: History, n: nat, floor: nat, nextFile: nat) {
    && n <= |h|
    && Arranged(levels, nextFile)
    && EntriesFrom(levels, 0) <= Recorded(h, 0, n)
    && AnswersLike(EntriesFrom(levels, 0), Recorded(h, 0, n), floor)
  }

  lemma {:induction false} ArrangedIsReadable(levels: Levels, nextFile: nat)
    requires Arranged(levels, nextFile)
    ensures WellShaped(levels) && Readable(levels)
  {
    assert forall i | 0 <= i < NUM_LEVELS :: LevelOk(levels[i], nextFile, i > 0);
  }

  lemma {:induction false} SameNumberSameFile(files: Level, f: FileMetaData, g: FileMetaData)
    requires DistinctNumbers(files) && f in files && g in files && f.number == g.number
    ensures f == g
  {
  }

  // ---------------------------------------------------------------- one level at a time

  /** The level `i` part of an edit, installed. */
  function Install(levels: Levels, i: nat, edit: LevelEdit): Levels
    requires i < |levels|
  {
    levels[i := SaveLevel(levels[i], Apply(LevelEdit({}, []), edit))]
  }

  /** Files that stay apart and are sorted by smallest key are disjoint in order. */
  lemma {:induction false} ApartIsOrdered(files: Level)
    requires SortedFiles(files) && AllValid(files)
    requires forall f, g | f in files && g in files && f != g :: KeysApart(f, g)
    ensures Ordered(files)
  {
    forall i, j | 0 <= i < j < |files| ensures Less(files[i].largest, files[j].smallest) {
      assert Before(files[i], files[j]);
      assert files[i] in files && files[j] in files;
      FileBounds(files[i], files[i].entries[0]);
      FileBounds(files[j], files[j].entries[0]);
    }
  }

  /** The added files are valid, carry new numbers, and at levels >= 1 stay apart from each other
      and from the files that remain. */
  ghost predicate EditOk(files: Level, edit: LevelEdit, bound: nat, apart: bool) {
    && AllValid(edit.added)
    && DistinctNumbers(edit.added)
    && NumbersBelow(edit.added, bound)
    && (forall f, g | f in files && g in edit.added :: f.number != g.number)
    && (apart ==> Ordered(edit.added))
    && (apart ==> forall f, g | f in files && f.number !in edit.deleted && g in edit.added :: KeysApart(f, g))
  }

  /** A level after an edit that adds valid files under new numbers. */
  lemma {:induction false} InstallLevel(files: Level, edit: LevelEdit, bound: nat, apart: bool)
    requires LevelOk(files, bound, apart) && EditOk(files, edit, bound, apart)
    ensures var r := SaveLevel(files, Apply(LevelEdit({}, []), edit));
            && LevelOk(r, bound, apart)
            && forall f :: f in r <==> (f in files && f.number !in edit.deleted) || f in edit.added
  {
    var r := SaveLevel(files, Apply(LevelEdit({}, []), edit));
    SaveLevelMembers(files, edit);
    forall i | 0 <= i < |r| ensures r[i].Valid() {
      assert r[i] in r;
    }
    forall i, j | 0 <= i < j < |r| ensures r[i].number != r[j].number {
      assert r[i] in r && r[j] in r && Before(r[i], r[j]);
      if r[i].number == r[j].number {
        if r[i] in files && r[j] in files {
          SameNumberSameFile(files, r[i], r[j]);
        } else {
          SameNumberSameFile(edit.added, r[i], r[j]);
        }
      }
    }
    if apart {
      forall f, g | f in r && g in r && f != g ensures KeysApart(f, g) {
        if f in files && g in files {
          OrderedMembers(files, f, g);
        } else if f in edit.added && g in edit.added {
          OrderedMembers(edit.added, f, g);
        }
      }
      ApartIsOrdered(r);
    }
  }

  // ---------------------------------------------------------------- a table is added

  /** A table whose range meets no file of the levels 0 .. p, or that goes to level 0. */
  ghost predicate MayPlace(levels: Levels, f: FileMetaData, p: nat) {
    && p < |levels|
    && (p > 0 ==> forall i, g | 0 <= i <= p && g in levels[i] :: Apart(f, g))
  }

  /** All entries of a newly built table carry larger sequence numbers than those of the tables. */
  lemma {:induction false} AddedIsNewer(levels: Levels, h: History, n: nat, m: nat, f: FileMetaData)
    requires n <= m <= |h| && EntriesFrom(levels, 0) <= Recorded(h, 0, n)
    requires SetOf(f.entries) == Recorded(h, n, m)
    ensures Newer(SetOf(f.entries), EntriesFrom(levels, 0))
    ensures forall i, g | 0 <= i < |levels| && g in levels[i] :: NewerFile(f, g)
  {
    RecordedSplit(h, 0, n, m);
    forall i, g | 0 <= i < |levels| && g in levels[i] ensures NewerFile(f, g) {
      assert SetOf(g.entries) <= EntriesFrom(levels, 0);
    }
  }

  lemma {:induction false} NothingShared(f: FileMetaData, g: FileMetaData)
    requires f.Valid() && g.Valid() && Apart(f, g)
    ensures NewerFile(f, g) && NewerFile(g, f)
  {
    forall x, y | x in SetOf(f.entries) && y in SetOf(g.entries) ensures x.key.user != y.key.user {
      FileBounds(f, x);
      FileBounds(g, y);
    }
  }

  lemma {:induction false} AddTableRecent(levels: Levels, f: FileMetaData, p: nat, nextFile: nat, levels': Levels)
    requires Arranged(levels, nextFile) && f.Valid() && f.number >= nextFile && MayPlace(levels, f, p)
    requires forall i, g | 0 <= i < |levels| && g in levels[i] :: NewerFile(f, g)
    requires HasAdded(levels, levels', p, f)
    ensures Recent(levels')
  {
    forall i, j, g1, g2 | 0 <= i < j < |levels'| && g1 in levels'[i] && g2 in levels'[j]
      ensures NewerFile(g1, g2)
    {
      if j == p && g2 == f {
        ValidMember(levels[i], g1);
        NothingShared(g2, g1);
      }
    }
  }

  lemma {:induction false} ValidMember(files: Level, f: FileMetaData)
    requires AllValid(files) && f in files
    ensures f.Valid() && f.Lo() <= f.Hi()
  {
    FileBounds(f, f.entries[0]);
  }

  /** The levels once `f` is installed at level `p`. */
  ghost predicate HasAdded(levels: Levels, levels': Levels, p: nat, f: FileMetaData) {
    && |levels'| == |levels|
    && forall i, g :: 0 <= i < |levels| ==> (g in levels'[i] <==> g in levels[i] || (i == p && g == f))
  }

  lemma {:induction false} LevelBound(levels: Levels, nextFile: nat, i: nat, bound: nat)
    requires Arranged(levels, nextFile) && i < NUM_LEVELS && nextFile <= bound
    ensures LevelOk(levels[i], nextFile, i > 0) && LevelOk(levels[i], bound, i > 0)
  {
  }

  lemma {:induction false} AddOneOk(files: Level, f: FileMetaData, bound: nat, apart: bool)
    requires f.Valid() && f.number < bound
    requires forall g | g in files :: g.number != f.number && (apart ==> KeysApart(f, g))
    ensures EditOk(files, LevelEdit({}, [f]), bound, apart)
  {
    assert forall g | g in [f] :: g == f;
  }

  lemma {:induction false} AddTableArranged(levels: Levels, f: FileMetaData, p: nat, nextFile: nat)
    requires Arranged(levels, nextFile) && f.Valid() && f.number >= nextFile && MayPlace(levels, f, p)
    requires forall i, g | 0 <= i < |levels| && g in levels[i] :: NewerFile(f, g)
    ensures var levels' := Install(levels, p, LevelEdit({}, [f]));
            Arranged(levels', f.number + 1) && HasAdded(levels, levels', p, f)
  {
    var levels' := Install(levels, p, LevelEdit({}, [f]));
    var edit := LevelEdit({}, [f]);
    LevelBound(levels, nextFile, p, f.number + 1);
    forall g | g in levels[p] ensures p > 0 ==> KeysApart(f, g) {
      if p > 0 {
        ApartKeys(f, g);
      }
    }
    AddOneOk(levels[p], f, f.number + 1, p > 0);
    InstallLevel(levels[p], edit, f.number + 1, p > 0);
    forall i | 0 <= i < NUM_LEVELS ensures LevelOk(levels'[i], f.number + 1, i > 0) {
      if i != p {
        LevelBound(levels, nextFile, i, f.number + 1);
      }
    }
    AddTableRecent(levels, f, p, nextFile, levels');
    AddTableNumbers(levels, f, p, nextFile, levels');
  }

  lemma {:induction false} AddTableNumbers(levels: Levels, f: FileMetaData, p: nat, nextFile: nat, levels': Levels)
    requires Arranged(levels, nextFile) && f.number >= nextFile && HasAdded(levels, levels', p, f)
    ensures NumbersApart(levels')
  {
    forall i, g | 0 <= i < |levels| && g in levels[i] ensures g.number < f.number {
      LevelBound(levels, nextFile, i, nextFile);
    }
  }

  /** Flushing (or, at level 0, recovering) the writes in (n, m] extends what the tables answer
      for from n to m. */
  lemma {:induction false} AddTable(levels: Levels, h: History, n: nat, m: nat, floor: nat, nextFile: nat,
                                    f: FileMetaData, p: nat)
    requires TablesOk(levels, h, n, floor, nextFile) && n <= m <= |h|
    requires f.Valid() && SetOf(f.entries) == Recorded(h, n, m) && f.number >= nextFile
    requires MayPlace(levels, f, p)
    ensures var levels' := Install(levels, p, LevelEdit({}, [f]));
            TablesOk(levels', h, m, floor, f.number + 1) && HasAdded(levels, levels', p, f)
  {
    var levels' := Install(levels, p, LevelEdit({}, [f]));
    AddedIsNewer(levels, h, n, m, f);
    AddTableArranged(levels, f, p, nextFile);
    AddTableEntries(levels, f, p, levels');
    AnswersGrow(SetOf(f.entries), EntriesFrom(levels, 0), h, n, m, floor);
  }

  lemma {:induction false} AnswersGrow(added: set<Entry>, es: set<Entry>, h: History, n: nat, m: nat, floor: nat)
    requires n <= m <= |h| && added == Recorded(h, n, m) && Newer(added, es)
    requires es <= Recorded(h, 0, n) && AnswersLike(es, Recorded(h, 0, n), floor)
    ensures added + es <= Recorded(h, 0, m) && AnswersLike(added + es, Recorded(h, 0, m), floor)
  {
    RecordedSplit(h, 0, n, m);
    forall k: UserKey, s: SequenceNumber, v: Payload | floor <= s
      ensures Yields(added + es, k, s, v) <==> Yields(Recorded(h, 0, m), k, s, v)
    {
      YieldsOfLayers(added, es, k, s, v);
      YieldsOfLayers(Recorded(h, n, m), Recorded(h, 0, n), k, s, v);
    }
  }

  lemma {:induction false} AddTableEntries(levels: Levels, f: FileMetaData, p: nat, levels': Levels)
    requires HasAdded(levels, levels', p, f) && p < |levels|
    ensures EntriesFrom(levels', 0) == SetOf(f.entries) + EntriesFrom(levels, 0)
  {
    forall e ensures e in EntriesFrom(levels', 0) <==> e in SetOf(f.entries) + EntriesFrom(levels, 0) {
      if e in EntriesFrom(levels', 0) {
        var i, g :| 0 <= i < |levels'| && g in levels'[i] && e in g.entries;
        assert g in levels[i] || g == f;
      }
      if e in f.entries {
        assert f in levels'[p];
      }
      if e in EntriesFrom(levels, 0) {
        var i, g :| 0 <= i < |levels| && g in levels[i] && e in g.entries;
        assert g in levels'[i];
      }
    }
  }

  // ---------------------------------------------------------------- a file moves down

  /** TrivialMove: the file meets nothing at level + 1, and at level 0 nothing else. */
  ghost predicate MayMove(levels: Levels, level: nat, f: FileMetaData) {
    LegalInputs(levels, Inputs(level, [f], []))
  }

  function MoveDown(levels: Levels, level: nat, f: FileMetaData): Levels
    requires level + 1 < |levels|
  {
    Install(Install(levels, level, LevelEdit({f.number}, [])), level + 1, LevelEdit({}, [f]))
  }

  ghost predicate HasMoved(levels: Levels, levels': Levels, level: nat, f: FileMetaData) {
    && |levels'| == |levels|
    && forall i, g :: 0 <= i < |levels| ==>
         (g in levels'[i] <==> (g in levels[i] && !(i == level && g == f)) || (i == level + 1 && g == f))
  }

  lemma {:induction false} MovedIsApart(levels: Levels, level: nat, f: FileMetaData)
    requires WellShaped(levels) && MayMove(levels, level, f)
    ensures f in levels[level] && f.Valid()
    ensures forall g | g in levels[level + 1] :: Apart(f, g)
  {
    assert f in [f];
    ValidMember(levels[level], f);
    MeetingMembers(levels[level + 1], Some(f.Lo()), Some(f.Hi()));
    forall g | g in levels[level + 1] ensures Apart(f, g) {
      ValidMember(levels[level + 1], g);
      assert g !in Meeting(levels[level + 1], Some(f.Lo()), Some(f.Hi()));
    }
  }

  /** The level a file leaves. */
  lemma {:induction false} LevelLeft(files: Level, f: FileMetaData, bound: nat, apart: bool)
    requires LevelOk(files, bound, apart) && f in files
    ensures (
      var r := SaveLevel(files, Apply(LevelEdit({}, []), LevelEdit({f.number}, [])));
      LevelOk(r, bound, apart) && forall g :: g in r <==> g in files && g != f)
  {
    hide SaveLevel, Apply;
    InstallLevel(files, LevelEdit({f.number}, []), bound, apart);
    forall g | g in files && g.number == f.number ensures g == f {
      SameNumberSameFile(files, g, f);
    }
  }

  /** The level it enters. */
  lemma {:induction false} LevelEntered(files: Level, f: FileMetaData, bound: nat, apart: bool)
    requires LevelOk(files, bound, apart) && f.Valid() && f.number < bound
    requires forall g | g in files :: g.number != f.number && (apart ==> KeysApart(f, g))
    ensures (
      var r := SaveLevel(files, Apply(LevelEdit({}, []), LevelEdit({}, [f])));
      LevelOk(r, bound, apart) && forall g :: g in r <==> g in files || g == f)
  {
    hide SaveLevel, Apply, LevelOk;
    AddOneOk(files, f, bound, apart);
    InstallLevel(files, LevelEdit({}, [f]), bound, apart);
  }

  lemma {:induction false} MoveLevels(levels: Levels, nextFile: nat, level: nat, f: FileMetaData)
    requires Arranged(levels, nextFile) && MayMove(levels, level, f)
    ensures var levels' := MoveDown(levels, level, f);
            && HasMoved(levels, levels', level, f)
            && LevelOk(levels'[level], nextFile, level > 0)
            && LevelOk(levels'[level + 1], nextFile, true)
  {
    hide SaveLevel, Apply, Apart, Recent, NumbersApart;
    ArrangedIsReadable(levels, nextFile);
    MovedIsApart(levels, level, f);
    NumberNotBelow(levels, level, f);
    LevelBound(levels, nextFile, level, nextFile);
    LevelBound(levels, nextFile, level + 1, nextFile);
    LevelLeft(levels[level], f, nextFile, level > 0);
    forall g | g in levels[level + 1] ensures KeysApart(f, g) {
      ApartKeys(f, g);
    }
    LevelEntered(levels[level + 1], f, nextFile, true);
  }

  lemma {:induction false} NumberNotBelow(levels: Levels, level: nat, f: FileMetaData)
    requires NumbersApart(levels) && level + 1 < |levels| && f in levels[level]
    ensures forall g | g in levels[level + 1] :: g.number != f.number
  {
  }

  lemma {:induction false} MoveArranged(levels: Levels, nextFile: nat, level: nat, f: FileMetaData)
    requires Arranged(levels, nextFile) && MayMove(levels, level, f)
    requires EndsKeys(levels, Inputs(level, [f], [])) && UniqueSequences(EntriesFrom(levels, 0))
    ensures Arranged(MoveDown(levels, level, f), nextFile)
    ensures HasMoved(levels, MoveDown(levels, level, f), level, f)
  {
    var levels' := MoveDown(levels, level, f);
    MoveLevels(levels, nextFile, level, f);
    forall i | 0 <= i < NUM_LEVELS ensures LevelOk(levels'[i], nextFile, i > 0) {
      LevelBound(levels, nextFile, i, nextFile);
    }
    assert f in [f];
    MoveRecent(levels, nextFile, level, f, levels');
    MoveNumbers(levels, nextFile, level, f, levels');
  }

  lemma {:induction false} MoveNumbers(levels: Levels, nextFile: nat, level: nat, f: FileMetaData, levels': Levels)
    requires Arranged(levels, nextFile) && level + 1 < |levels| && f in levels[level] && HasMoved(levels, levels', level, f)
    ensures NumbersApart(levels')
  {
    forall i, j, g1, g2 | 0 <= i < j < |levels'| && g1 in levels'[i] && g2 in levels'[j]
      ensures g1.number != g2.number
    {
      if i == level && j == level + 1 && g2 == f && g1.number == f.number {
        LevelBound(levels, nextFile, level, nextFile);
        SameNumberSameFile(levels[level], g1, f);
      }
    }
  }

  lemma {:induction false} MoveEntries(levels: Levels, level: nat, f: FileMetaData, levels': Levels)
    requires level + 1 < |levels| && f in levels[level] && HasMoved(levels, levels', level, f)
    ensures EntriesFrom(levels', 0) == EntriesFrom(levels, 0)
  {
    forall e ensures e in EntriesFrom(levels', 0) <==> e in EntriesFrom(levels, 0) {
      if e in EntriesFrom(levels', 0) {
        var i: int, g: FileMetaData :| 0 <= i < |levels'| && g in levels'[i] && e in g.entries;
        assert g in levels[i] || (g == f && f in levels[level]);
      }
      if e in EntriesFrom(levels, 0) {
        var i: int, g: FileMetaData :| 0 <= i < |levels| && g in levels[i] && e in g.entries;
        assert g in levels'[i] || (g == f && f in levels'[level + 1]);
      }
    }
  }

  /** Moving a file changes no answer, if no file left at its level goes on with its last user key. */
  lemma {:induction false} MoveTable(levels: Levels, h: History, n: nat, floor: nat, nextFile: nat, level: nat, f: FileMetaData)
    requires TablesOk(levels, h, n, floor, nextFile) && MayMove(levels, level, f)
    requires EndsKeys(levels, Inputs(level, [f], []))
    ensures TablesOk(MoveDown(levels, level, f), h, n, floor, nextFile)
    ensures HasMoved(levels, MoveDown(levels, level, f), level, f)
  {
    assert f in [f];
    RecordedBounds(h, 0, n);
    MoveArranged(levels, nextFile, level, f);
    MoveEntries(levels, level, f, MoveDown(levels, level, f));
  }

  /** An earlier file of an ordered level is newer than a later one on any key they share. */
  lemma {:induction false} EarlierIsNewer(f: FileMetaData, g: FileMetaData, es: set<Entry>)
    requires f.Valid() && g.Valid() && Less(f.largest, g.smallest)
    requires UniqueSequences(es) && SetOf(f.entries) <= es && SetOf(g.entries) <= es
    ensures NewerFile(f, g)
  {
    forall x, y | x in SetOf(f.entries) && y in SetOf(g.entries) && x.key.user == y.key.user
      ensures x.key.sequence > y.key.sequence
    {
      FileBounds(f, x);
      FileBounds(g, y);
    }
  }

  /** A file left at its level is newer than an input there, unless it goes on with the input's last user key. */
  lemma {:induction false} LeftIsNewer(levels: Levels, level: nat, f: FileMetaData, g: FileMetaData)
    requires WellShaped(levels) && 1 <= level < |levels| && UniqueSequences(EntriesFrom(levels, 0))
    requires f in levels[level] && g in levels[level] && f != g && !Continues(f, g)
    ensures NewerFile(g, f)
  {
    ValidMember(levels[level], f);
    ValidMember(levels[level], g);
    OrderedMembers(levels[level], f, g);
    if Less(g.largest, f.smallest) {
      assert SetOf(f.entries) <= EntriesFrom(levels, 0) && SetOf(g.entries) <= EntriesFrom(levels, 0);
      EarlierIsNewer(g, f, EntriesFrom(levels, 0));
    } else {
      NothingShared(g, f);
    }
  }

  lemma {:induction false} MoveRecent(levels: Levels, nextFile: nat, level: nat, f: FileMetaData, levels': Levels)
    requires Arranged(levels, nextFile) && MayMove(levels, level, f)
    requires EndsKeys(levels, Inputs(level, [f], [])) && UniqueSequences(EntriesFrom(levels, 0))
    requires HasMoved(levels, levels', level, f)
    ensures Recent(levels')
  {
    ArrangedIsReadable(levels, nextFile);
    MovedIsApart(levels, level, f);
    HullBounds([f]);
    forall i, j, g1, g2 | 0 <= i < j < |levels'| && g1 in levels'[i] && g2 in levels'[j]
      ensures NewerFile(g1, g2)
    {
      if j == level + 1 && g2 == f && i == level {
        ValidMember(levels[level], g1);
        ValidMember(levels[level], f);
        if level == 0 {
          assert !MeetsHull(g1, [f]);
          NothingShared(g1, f);
        } else {
          assert f in [f] && g1 !in [f];
          LeftIsNewer(levels, level, f, g1);
        }
      } else if i == level + 1 && g1 == f {
        assert f in levels[level] && level < j;
      }
    }
  }
}
