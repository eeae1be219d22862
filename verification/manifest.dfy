/** The manifest of a running database: the snapshot record it starts with and the edits logged since, level by level.
    Replaying it gives the current version. */
module Manifests {
  import opened Common
  import opened InternalKeys
  import opened Version
  import opened Builder
  import opened Tables

  /** What LogAndApply logs: the changes of every level, and the counters. */
  datatype Edit = Edit(changes: seq<LevelEdit>, logNumber: nat, nextFile: nat, lastSequence: nat)

  datatype Manifest = Manifest(snapshot: Levels, edits: seq<Edit>) {
    /** The counters of the last edit are the ones that count. */
    function Last(): Edit {
      if edits == [] then Edit([], 0, 0, 0) else edits[|edits| - 1]
    }

    function LogNumber(): nat { Last().logNumber }

    function NextFile(): nat { Last().nextFile }

    function LastSequence(): nat { Last().lastSequence }

    function With(edit: Edit): Manifest { Manifest(snapshot, edits + [edit]) }
  }

  const NO_CHANGE: LevelEdit := LevelEdit({}, [])

  /** An edit that changes one level. */
  function OneLevel(i: nat, change: LevelEdit): (r: seq<LevelEdit>)
    ensures |r| == NUM_LEVELS
    ensures forall j | 0 <= j < NUM_LEVELS :: r[j] == if j == i then change else NO_CHANGE
  {
    seq(NUM_LEVELS, j => if j == i then change else NO_CHANGE)
  }

  /** An edit that changes level `i` and the next one. */
  function TwoLevels(i: nat, upper: LevelEdit, lower: LevelEdit): (r: seq<LevelEdit>)
    ensures |r| == NUM_LEVELS
    ensures forall j | 0 <= j < NUM_LEVELS :: r[j] == if j == i then upper else if j == i + 1 then lower else NO_CHANGE
  {
    seq(NUM_LEVELS, j => if j == i then upper else if j == i + 1 then lower else NO_CHANGE)
  }

  predicate Complete(m: Manifest) {
    |m.snapshot| == NUM_LEVELS && forall k | 0 <= k < |m.edits| :: |m.edits[k].changes| == NUM_LEVELS
  }

  /** What the edits do to one level. */
  function Column(edits: seq<Edit>, i: nat): (r: seq<LevelEdit>)
    requires i < NUM_LEVELS && forall k | 0 <= k < |edits| :: |edits[k].changes| == NUM_LEVELS
    ensures |r| == |edits|
  {
    if edits == [] then [] else Column(edits[..|edits| - 1], i) + [edits[|edits| - 1].changes[i]]
  }

  /** VersionSet::Recover: all records folded over an empty version, and saved once. */
  function ReplayedLevel(m: Manifest, i: nat): Level
    requires Complete(m) && i < NUM_LEVELS
  {
    SaveLevel([], ApplyAll(NO_CHANGE, [Snapshot(m.snapshot[i])] + Column(m.edits, i)))
  }

  function Replayed(m: Manifest): (r: Levels)
    requires Complete(m)
    ensures |r| == NUM_LEVELS && forall i | 0 <= i < NUM_LEVELS :: r[i] == ReplayedLevel(m, i)
  {
    seq(NUM_LEVELS, i requires 0 <= i < NUM_LEVELS => ReplayedLevel(m, i))
  }

  function AllAdded(edits: seq<LevelEdit>): Level {
    if edits == [] then [] else AllAdded(edits[..|edits| - 1]) + edits[|edits| - 1].added
  }

  /** Every file that some record puts at level `i`. */
  function Mentioned(m: Manifest, i: nat): Level
    requires Complete(m) && i < NUM_LEVELS
  {
    m.snapshot[i] + AllAdded(Column(m.edits, i))
  }

  // ---------------------------------------------------------------- what the manifest keeps to

  /** Installing the edits one after the other gives the level, and no edit adds a number the level has seen. */
  ghost predicate LevelTracks(m: Manifest, i: nat, files: Level)
    requires Complete(m) && i < NUM_LEVELS
  {
    && SortedFiles(m.snapshot[i]) && DistinctNumbers(m.snapshot[i])
    && FreshAdditions(Numbers(m.snapshot[i]), Column(m.edits, i))
    && InstallAll(m.snapshot[i], Column(m.edits, i)) == files
  }

  /** Files only move down: what is at a level has not been deeper before. */
  ghost predicate OnlyDown(m: Manifest, levels: Levels)
    requires Complete(m) && |levels| == NUM_LEVELS
  {
    forall i, j, f, g | 0 <= j < i < NUM_LEVELS && f in levels[j] && g in Mentioned(m, i) :: f.number != g.number
  }

  /** A number names one table, and tables of the version are mentioned. */
  ghost predicate NamesOne(m: Manifest, levels: Levels)
    requires Complete(m) && |levels| == NUM_LEVELS
  {
    && (forall i, j, f, g | 0 <= i < NUM_LEVELS && 0 <= j < NUM_LEVELS && f in Mentioned(m, i) && g in Mentioned(m, j)
                            && f.number == g.number :: f == g)
    && (forall i, f | 0 <= i < NUM_LEVELS && f in levels[i] :: f in Mentioned(m, i))
  }

  ghost predicate MentionedBelow(m: Manifest, bound: nat)
    requires Complete(m)
  {
    forall i, f | 0 <= i < NUM_LEVELS && f in Mentioned(m, i) :: f.number < bound
  }

  /** The number of the file has never been logged. */
  ghost predicate IsNew(m: Manifest, f: FileMetaData)
    requires Complete(m)
  {
    forall i, g | 0 <= i < NUM_LEVELS && g in Mentioned(m, i) :: f.number != g.number
  }

  ghost predicate Tracks(m: Manifest, levels: Levels, bound: nat) {
    && Complete(m) && |levels| == NUM_LEVELS
    && (forall i | 0 <= i < NUM_LEVELS :: LevelTracks(m, i, levels[i]))
    && OnlyDown(m, levels) && NamesOne(m, levels) && MentionedBelow(m, bound)
  }

  /** So replaying it gives the version: the numbers are fresh, as RecoverRebuildsVersion wants them. */
  lemma {:induction false} ReplayGivesVersion(m: Manifest, levels: Levels, bound: nat)
    requires Tracks(m, levels, bound)
    ensures Replayed(m) == levels
  {
    forall i | 0 <= i < NUM_LEVELS ensures ReplayedLevel(m, i) == levels[i] {
      assert LevelTracks(m, i, levels[i]);
      RecoverRebuildsVersion(m.snapshot[i], Column(m.edits, i));
    }
  }

  // ---------------------------------------------------------------- one more edit

  lemma {:induction false} FreshSnoc(seen: set<nat>, edits: seq<LevelEdit>, e: LevelEdit)
    requires FreshAdditions(seen, edits) && DistinctNumbers(e.added)
    requires Numbers(e.added) !! seen && Numbers(e.added) !! Numbers(AllAdded(edits))
    ensures FreshAdditions(seen, edits + [e])
    decreases |edits|
  {
    if edits == [] {
      assert [e][1..] == [];
    } else {
      assert (edits + [e])[1..] == edits[1..] + [e];
      FirstAdded(edits);
      FreshSnoc(seen + Numbers(edits[0].added), edits[1..], e);
    }
  }

  lemma {:induction false} FirstAdded(edits: seq<LevelEdit>)
    requires edits != []
    ensures Numbers(AllAdded(edits)) == Numbers(edits[0].added) + Numbers(AllAdded(edits[1..]))
    decreases |edits|
  {
    hide Numbers;
    var n := |edits| - 1;
    NumbersOfSum(AllAdded(edits[..n]), edits[n].added);
    if n > 0 {
      FirstAdded(edits[..n]);
      assert edits[..n][1..] == edits[1..][..n - 1];
      NumbersOfSum(AllAdded(edits[1..][..n - 1]), edits[n].added);
    } else {
      assert edits[1..] == [] && edits[..0] == [];
      NoNumbers();
    }
  }

  lemma {:induction false} NoNumbers()
    ensures Numbers([]) == {}
  {
  }

  lemma {:induction false} NumbersOfSum(a: Level, b: Level)
    ensures Numbers(a + b) == Numbers(a) + Numbers(b)
  {
    assert forall f :: f in a + b <==> f in a || f in b;
  }

  lemma {:induction false} InstallSnoc(base: Level, edits: seq<LevelEdit>, e: LevelEdit)
    ensures InstallAll(base, edits + [e]) == SaveLevel(InstallAll(base, edits), Apply(NO_CHANGE, e))
    decreases |edits|
  {
    if edits == [] {
      assert [e][1..] == [];
    } else {
      assert (edits + [e])[1..] == edits[1..] + [e];
      InstallSnoc(SaveLevel(base, Apply(NO_CHANGE, edits[0])), edits[1..], e);
    }
  }

  lemma {:induction false} ColumnSnoc(m: Manifest, edit: Edit, i: nat)
    requires Complete(m) && |edit.changes| == NUM_LEVELS && i < NUM_LEVELS
    ensures Complete(m.With(edit))
    ensures Column(m.With(edit).edits, i) == Column(m.edits, i) + [edit.changes[i]]
    ensures forall f :: f in Mentioned(m.With(edit), i) <==> f in Mentioned(m, i) || f in edit.changes[i].added
  {
    var edits := m.edits + [edit];
    assert edits[..|edits| - 1] == m.edits;
    var column := Column(m.edits, i) + [edit.changes[i]];
    assert column[..|column| - 1] == Column(m.edits, i);
  }

  /** How the levels change with an edit. */
  ghost predicate Changes(levels: Levels, changes: seq<LevelEdit>, levels': Levels) {
    && |levels| == |levels'| == |changes| == NUM_LEVELS
    && forall i | 0 <= i < NUM_LEVELS :: levels'[i] == SaveLevel(levels[i], Apply(NO_CHANGE, changes[i]))
  }

  /** What is added at level `i` is added nowhere else, is in the level afterwards, and either carries a number that was
      never logged or is a file of a shallower level. */
  ghost predicate AddsWell(m: Manifest, levels: Levels, changes: seq<LevelEdit>, levels': Levels, bound: nat)
    requires Complete(m) && |levels| == |levels'| == |changes| == NUM_LEVELS
  {
    forall i, f | 0 <= i < NUM_LEVELS && f in changes[i].added ::
      && f in levels'[i] && f.number < bound
      && (IsNew(m, f) || exists j :: 0 <= j < i && f in levels[j])
      && forall j | 0 <= j < NUM_LEVELS && j != i :: changes[j].added == []
  }

  lemma {:induction false} TracksOneLevel(m: Manifest, i: nat, files: Level, edit: Edit, files': Level)
    requires Complete(m) && i < NUM_LEVELS && |edit.changes| == NUM_LEVELS && LevelTracks(m, i, files)
    requires files' == SaveLevel(files, Apply(NO_CHANGE, edit.changes[i]))
    requires DistinctNumbers(edit.changes[i].added)
    requires forall f, g | f in edit.changes[i].added && g in Mentioned(m, i) :: f.number != g.number
    ensures Complete(m.With(edit)) && LevelTracks(m.With(edit), i, files')
  {
    hide SaveLevel, Apply;
    ColumnSnoc(m, edit, i);
    NumbersOfSum(m.snapshot[i], AllAdded(Column(m.edits, i)));
    FreshSnoc(Numbers(m.snapshot[i]), Column(m.edits, i), edit.changes[i]);
    InstallSnoc(m.snapshot[i], Column(m.edits, i), edit.changes[i]);
  }

  lemma {:induction false} SavedFrom(base: Level, edit: LevelEdit, f: FileMetaData)
    requires f in SaveLevel(base, Apply(NO_CHANGE, edit))
    ensures f in base || f in edit.added
  {
    var state := Apply(NO_CHANGE, edit);
    LiveMembers(Merge(base, state.added), state.deleted);
    MergeMembers(base, state.added, f);
    if f !in base {
      InsertedFrom([], edit.added, f);
    }
  }

  lemma {:induction false} InsertedFrom(files: Level, added: Level, f: FileMetaData)
    requires f in InsertAll(files, added)
    ensures f in files || f in added
    decreases |added|
  {
    if added != [] {
      InsertedFrom(InsertFile(files, added[0]), added[1..], f);
      InsertedOneFrom(files, added[0], f);
    }
  }

  lemma {:induction false} InsertedOneFrom(files: Level, g: FileMetaData, f: FileMetaData)
    ensures f in InsertFile(files, g) ==> f in files || f == g
  {
    if files != [] {
      InsertedOneFrom(files[1..], g, f);
    }
  }

  /** Logging an edit together with the version it makes keeps the manifest on track. */
  lemma {:induction false} LogKeepsTrack(m: Manifest, levels: Levels, bound: nat, edit: Edit, levels': Levels, bound': nat)
    requires Tracks(m, levels, bound) && Changes(levels, edit.changes, levels') && bound <= bound'
    requires AddsWell(m, levels, edit.changes, levels', bound') && NumbersApart(levels')
    requires forall i | 0 <= i < NUM_LEVELS :: DistinctNumbers(edit.changes[i].added)
    ensures Tracks(m.With(edit), levels', bound')
  {
    hide SaveLevel, LevelTracks, Mentioned;
    var m' := m.With(edit);
    forall i | 0 <= i < NUM_LEVELS
      ensures LevelTracks(m', i, levels'[i])
      ensures forall f :: f in Mentioned(m', i) <==> f in Mentioned(m, i) || f in edit.changes[i].added
    {
      ColumnSnoc(m, edit, i);
      AddedIsFresh(m, levels, bound, edit.changes, levels', bound', i);
      TracksOneLevel(m, i, levels[i], edit, levels'[i]);
    }
    LogKeepsDown(m, levels, bound, edit, levels', bound');
    LogKeepsNames(m, levels, bound, edit, levels', bound');
  }

  lemma {:induction false} AddedIsFresh(m: Manifest, levels: Levels, bound: nat, changes: seq<LevelEdit>, levels': Levels, bound': nat, i: nat)
    requires Tracks(m, levels, bound) && |levels'| == |changes| == NUM_LEVELS && i < NUM_LEVELS
    requires AddsWell(m, levels, changes, levels', bound')
    ensures forall l, f, g | i <= l < NUM_LEVELS && f in changes[i].added && g in Mentioned(m, l) :: f.number != g.number
  {
    hide LevelTracks, Mentioned, NamesOne, MentionedBelow;
    forall l, f, g | i <= l < NUM_LEVELS && f in changes[i].added && g in Mentioned(m, l) ensures f.number != g.number {
      if !IsNew(m, f) {
        var j :| 0 <= j < i && f in levels[j];
      }
    }
  }

  lemma {:induction false} LogKeepsDown(m: Manifest, levels: Levels, bound: nat, edit: Edit, levels': Levels, bound': nat)
    requires Tracks(m, levels, bound) && Changes(levels, edit.changes, levels') && Complete(m.With(edit))
    requires AddsWell(m, levels, edit.changes, levels', bound') && NumbersApart(levels')
    requires forall i, f | 0 <= i < NUM_LEVELS ::
               f in Mentioned(m.With(edit), i) <==> f in Mentioned(m, i) || f in edit.changes[i].added
    ensures OnlyDown(m.With(edit), levels')
  {
    hide SaveLevel, LevelTracks, Mentioned;
    var m' := m.With(edit);
    forall i, j, f, g | 0 <= j < i < NUM_LEVELS && f in levels'[j] && g in Mentioned(m', i) ensures f.number != g.number {
      if g in edit.changes[i].added {
        assert g in levels'[i];
      } else {
        SavedFrom(levels[j], edit.changes[j], f);
        if f !in levels[j] {
          AddedIsFresh(m, levels, bound, edit.changes, levels', bound', j);
        }
      }
    }
  }

  lemma {:induction false} LogKeepsNames(m: Manifest, levels: Levels, bound: nat, edit: Edit, levels': Levels, bound': nat)
    requires Tracks(m, levels, bound) && Changes(levels, edit.changes, levels') && Complete(m.With(edit)) && bound <= bound'
    requires AddsWell(m, levels, edit.changes, levels', bound')
    requires forall i | 0 <= i < NUM_LEVELS :: DistinctNumbers(edit.changes[i].added)
    requires forall i, f | 0 <= i < NUM_LEVELS ::
               f in Mentioned(m.With(edit), i) <==> f in Mentioned(m, i) || f in edit.changes[i].added
    ensures NamesOne(m.With(edit), levels') && MentionedBelow(m.With(edit), bound')
  {
    hide SaveLevel, LevelTracks, Mentioned;
    var m' := m.With(edit);
    forall i, j, f, g | 0 <= i < NUM_LEVELS && 0 <= j < NUM_LEVELS && f in Mentioned(m', i) && g in Mentioned(m', j)
                        && f.number == g.number
      ensures f == g
    {
      if f in Mentioned(m, i) && g in Mentioned(m, j) {
      } else if f in Mentioned(m, i) {
        OldOrNew(m, levels, bound, edit.changes, levels', bound', i, f, j, g);
      } else if g in Mentioned(m, j) {
        OldOrNew(m, levels, bound, edit.changes, levels', bound', j, g, i, f);
      } else {
        assert i == j;
        SameNumberSameFile(edit.changes[i].added, f, g);
      }
    }
    forall i, f | 0 <= i < NUM_LEVELS && f in levels'[i] ensures f in Mentioned(m', i) {
      SavedFrom(levels[i], edit.changes[i], f);
    }
  }

  /** An added file with a number logged before is the file it named. */
  lemma {:induction false} OldOrNew(m: Manifest, levels: Levels, bound: nat, changes: seq<LevelEdit>, levels': Levels, bound': nat,
                                    i: nat, f: FileMetaData, j: nat, g: FileMetaData)
    requires Tracks(m, levels, bound) && |levels'| == |changes| == NUM_LEVELS
    requires AddsWell(m, levels, changes, levels', bound')
    requires i < NUM_LEVELS && j < NUM_LEVELS && f in Mentioned(m, i) && g in changes[j].added && f.number == g.number
    ensures f == g
  {
    hide LevelTracks, Mentioned;
    if !IsNew(m, g) {
      var l :| 0 <= l < j && g in levels[l];
      assert g in Mentioned(m, l);
    }
  }

  // ---------------------------------------------------------------- the edits of the database

  lemma {:induction false} NoChangeKeeps(files: Level)
    requires SortedFiles(files)
    ensures SaveLevel(files, Apply(NO_CHANGE, NO_CHANGE)) == files
  {
    SaveLevelMembers(files, NO_CHANGE);
    SortedFilesUnique(SaveLevel(files, Apply(NO_CHANGE, NO_CHANGE)), files);
  }

  lemma {:induction false} OneLevelChanges(levels: Levels, i: nat, change: LevelEdit)
    requires |levels| == NUM_LEVELS && i < NUM_LEVELS && forall j | 0 <= j < NUM_LEVELS :: SortedFiles(levels[j])
    ensures Changes(levels, OneLevel(i, change), Install(levels, i, change))
  {
    forall j | 0 <= j < NUM_LEVELS && j != i ensures SaveLevel(levels[j], Apply(NO_CHANGE, NO_CHANGE)) == levels[j] {
      NoChangeKeeps(levels[j]);
    }
  }

  lemma {:induction false} TwoLevelsChange(levels: Levels, i: nat, upper: LevelEdit, lower: LevelEdit)
    requires |levels| == NUM_LEVELS && i + 1 < NUM_LEVELS && forall j | 0 <= j < NUM_LEVELS :: SortedFiles(levels[j])
    ensures Changes(levels, TwoLevels(i, upper, lower), Install(Install(levels, i, upper), i + 1, lower))
  {
    forall j | 0 <= j < NUM_LEVELS && j != i && j != i + 1
      ensures SaveLevel(levels[j], Apply(NO_CHANGE, NO_CHANGE)) == levels[j]
    {
      NoChangeKeeps(levels[j]);
    }
  }

  /** A new manifest: its snapshot is the version, and its one edit adds files under new numbers. */
  lemma {:induction false} NewManifestTracks(levels: Levels, low: nat, edit: Edit, levels': Levels, bound: nat)
    requires Arranged(levels, low) && Changes(levels, edit.changes, levels') && low <= bound
    requires NumbersApart(levels')
    requires forall i | 0 <= i < NUM_LEVELS :: DistinctNumbers(edit.changes[i].added)
    requires forall i, f | 0 <= i < NUM_LEVELS && f in edit.changes[i].added :: f in levels'[i] && low <= f.number < bound
    requires forall i, j | 0 <= i < j < NUM_LEVELS :: edit.changes[i].added == [] || edit.changes[j].added == []
    ensures Tracks(Manifest(levels, [edit]), levels', bound)
  {
    hide SaveLevel, LevelTracks;
    var m := Manifest(levels, []);
    forall i | 0 <= i < NUM_LEVELS
      ensures LevelTracks(m, i, levels[i]) && Mentioned(m, i) == levels[i]
    {
      LevelBound(levels, low, i, low);
      assert Column(m.edits, i) == [];
      TracksNothing(m, i);
    }
    NothingLoggedTracks(m, levels, low);
    assert m.With(edit) == Manifest(levels, [edit]);
    LogKeepsTrack(m, levels, low, edit, levels', bound);
  }

  lemma {:induction false} NothingLoggedTracks(m: Manifest, levels: Levels, low: nat)
    requires Complete(m) && m == Manifest(levels, []) && Arranged(levels, low)
    requires forall i | 0 <= i < NUM_LEVELS :: LevelTracks(m, i, levels[i]) && Mentioned(m, i) == levels[i]
    ensures Tracks(m, levels, low)
  {
    hide LevelTracks, Mentioned, Recent;
    assert forall i | 0 <= i < NUM_LEVELS :: LevelOk(levels[i], low, i > 0);
    forall i, j, f, g | 0 <= i < NUM_LEVELS && 0 <= j < NUM_LEVELS && f in levels[i] && g in levels[j] && f.number == g.number
      ensures f == g
    {
      if i == j {
        SameNumberSameFile(levels[i], f, g);
      }
    }
  }

  lemma {:induction false} TracksNothing(m: Manifest, i: nat)
    requires Complete(m) && m.edits == [] && i < NUM_LEVELS
    requires SortedFiles(m.snapshot[i]) && DistinctNumbers(m.snapshot[i])
    ensures LevelTracks(m, i, m.snapshot[i])
  {
  }
}
