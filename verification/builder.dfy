/** VersionSet::Builder: applying edits to a version, one by one or all at once. */
module Builder {
  import opened InternalKeys
  import opened Version

  /** BySmallestKey. */
  predicate Before(f: FileMetaData, g: FileMetaData) {
    Less(f.smallest, g.smallest) || (f.smallest == g.smallest && f.number < g.number)
  }

  ghost predicate SortedFiles(files: Level) {
    forall i, j | 0 <= i < j < |files| :: Before(files[i], files[j])
  }

  /** What an edit does to one level: the numbers it deletes, then the files it adds. */
  datatype LevelEdit = LevelEdit(deleted: set<nat>, added: Level)

  function Numbers(files: Level): set<nat> {
    set f | f in files :: f.number
  }

  /** Insertion into the ordered set of added files; an equivalent element is not replaced. */
  function InsertFile(files: Level, f: FileMetaData): Level {
    if files == [] || Before(f, files[0]) then [f] + files
    else if Before(files[0], f) then [files[0]] + InsertFile(files[1..], f)
    else files
  }

  function InsertAll(files: Level, added: Level): Level
    decreases |added|
  {
    if added == [] then files else InsertAll(InsertFile(files, added[0]), added[1..])
  }

  /** Builder::Apply at one level: deletions first, then each addition revokes the deletion of its
      number. */
  function Apply(state: LevelEdit, edit: LevelEdit): LevelEdit {
    LevelEdit((state.deleted + edit.deleted) - Numbers(edit.added), InsertAll(state.added, edit.added))
  }

  function ApplyAll(state: LevelEdit, edits: seq<LevelEdit>): LevelEdit
    decreases |edits|
  {
    if edits == [] then state else ApplyAll(Apply(state, edits[0]), edits[1..])
  }

  /** std::upper_bound: how many of `files` do not come after `f`. */
  function UpperBound(files: Level, f: FileMetaData): (n: nat)
    ensures n <= |files|
    ensures forall i | 0 <= i < n :: !Before(f, files[i])
    ensures n < |files| ==> Before(f, files[n])
  {
    if files == [] || Before(f, files[0]) then 0 else 1 + UpperBound(files[1..], f)
  }

  function Merge(base: Level, added: Level): Level
    decreases |added|
  {
    if added == [] then base
    else
      var n := UpperBound(base, added[0]);
      base[..n] + [added[0]] + Merge(base[n..], added[1..])
  }

  /** MaybeAddFile: deleted files are passed over. */
  function Live(files: Level, deleted: set<nat>): Level {
    if files == [] then []
    else if files[0].number in deleted then Live(files[1..], deleted)
    else [files[0]] + Live(files[1..], deleted)
  }

  /** The files of one level after SaveTo. */
  function SaveLevel(base: Level, state: LevelEdit): Level {
    Live(Merge(base, state.added), state.deleted)
  }

  // ---------------------------------------------------------------- properties of the parts

  lemma {:induction false} InsertFileSorted(files: Level, f: FileMetaData)
    requires SortedFiles(files)
    ensures SortedFiles(InsertFile(files, f))
    ensures forall g | g in InsertFile(files, f) :: g == f || g in files
    ensures forall g | g in files :: g in InsertFile(files, f)
    ensures (forall g | g in files :: g.number != f.number) ==> f in InsertFile(files, f)
  {
    if files != [] && !Before(f, files[0]) && Before(files[0], f) {
      InsertFileSorted(files[1..], f);
      var rest := InsertFile(files[1..], f);
      forall j | 0 <= j < |rest| ensures Before(files[0], rest[j]) {
        assert rest[j] in rest;
      }
      assert forall g :: g in files <==> g == files[0] || g in files[1..];
    } else if files != [] {
      assert files[0] in files;
    }
  }

  lemma {:induction false} InsertAllSorted(files: Level, added: Level)
    requires SortedFiles(files) && DistinctNumbers(added)
    requires forall f, g | f in files && g in added :: f.number != g.number
    ensures SortedFiles(InsertAll(files, added))
    ensures forall f :: f in InsertAll(files, added) <==> f in files || f in added
    decreases |added|
  {
    if added != [] {
      InsertFileSorted(files, added[0]);
      var next := InsertFile(files, added[0]);
      assert forall f :: f in next <==> f in files || f == added[0];
      forall f, g | f in next && g in added[1..] ensures f.number != g.number {
        var j :| 0 <= j < |added[1..]| && added[1..][j] == g;
        assert added[j + 1] == g && g in added;
      }
      InsertAllSorted(next, added[1..]);
      assert forall f :: f in added <==> f == added[0] || f in added[1..];
    }
  }

  lemma {:induction false} SortedAround(a: Level, f: FileMetaData, rest: Level)
    requires SortedFiles(a) && SortedFiles(rest)
    requires forall i | 0 <= i < |a| :: Before(a[i], f)
    requires forall j | 0 <= j < |rest| :: Before(f, rest[j])
    ensures SortedFiles(a + [f] + rest)
  {
    forall i, j | 0 <= i < |a| && 0 <= j < |rest| ensures Before(a[i], rest[j]) {
      assert Before(a[i], f) && Before(f, rest[j]);
    }
  }

  lemma {:induction false} UpperBoundSplits(base: Level, f: FileMetaData)
    requires SortedFiles(base) && forall i | 0 <= i < |base| :: base[i].number != f.number
    ensures var n := UpperBound(base, f);
            && (forall i | 0 <= i < n :: Before(base[i], f))
            && (forall i | n <= i < |base| :: Before(f, base[i]))
  {
    var n := UpperBound(base, f);
    forall i | n <= i < |base| ensures Before(f, base[i]) {
      assert i == n || Before(base[n], base[i]);
    }
  }

  lemma {:induction false} PartsHoldMembers(files: Level, n: nat, f: FileMetaData)
    requires n <= |files|
    ensures f in files <==> f in files[..n] || f in files[n..]
  {
    assert files == files[..n] + files[n..];
  }

  lemma {:induction false} MergeMembers(base: Level, added: Level, f: FileMetaData)
    ensures f in Merge(base, added) <==> f in base || f in added
    decreases |added|
  {
    if added != [] {
      var n := UpperBound(base, added[0]);
      MergeMembers(base[n..], added[1..], f);
      PartsHoldMembers(base, n, f);
      PartsHoldMembers(added, 1, f);
    }
  }

  lemma {:induction false} MergeSorted(base: Level, added: Level)
    requires SortedFiles(base) && SortedFiles(added)
    requires forall i, j | 0 <= i < |base| && 0 <= j < |added| :: base[i].number != added[j].number
    ensures SortedFiles(Merge(base, added))
    decreases |added|
  {
    if added != [] {
      var f := added[0];
      var n := UpperBound(base, f);
      var rest := Merge(base[n..], added[1..]);
      MergeSorted(base[n..], added[1..]);
      UpperBoundSplits(base, f);
      forall j | 0 <= j < |rest| ensures Before(f, rest[j]) {
        MergeMembers(base[n..], added[1..], rest[j]);
        assert rest[j] in rest;
      }
      SortedAround(base[..n], f, rest);
    }
  }

  /** Merging levels that share no number sorts their union. */
  lemma {:induction false} MergeUnion(base: Level, added: Level)
    requires SortedFiles(base) && SortedFiles(added)
    requires forall f, g | f in base && g in added :: f.number != g.number
    ensures SortedFiles(Merge(base, added))
    ensures forall f :: f in Merge(base, added) <==> f in base || f in added
  {
    assert forall i | 0 <= i < |base| :: base[i] in base;
    assert forall j | 0 <= j < |added| :: added[j] in added;
    MergeSorted(base, added);
    forall f ensures f in Merge(base, added) <==> f in base || f in added {
      MergeMembers(base, added, f);
    }
  }

  lemma {:induction false} LiveMembers(files: Level, deleted: set<nat>)
    ensures forall f :: f in Live(files, deleted) <==> f in files && f.number !in deleted
  {
    if files != [] {
      LiveMembers(files[1..], deleted);
      assert forall f :: f in files <==> f == files[0] || f in files[1..];
    }
  }

  lemma {:induction false} LiveSorted(files: Level, deleted: set<nat>)
    requires SortedFiles(files)
    ensures SortedFiles(Live(files, deleted))
  {
    if files != [] {
      LiveSorted(files[1..], deleted);
      LiveMembers(files[1..], deleted);
      var rest := Live(files[1..], deleted);
      forall j | 0 <= j < |rest| ensures Before(files[0], rest[j]) {
        assert rest[j] in rest;
        assert rest[j] in files[1..];
      }
    }
  }

  /** Installing one edit on a sorted level whose numbers the edit does not reuse: exactly the
      files not deleted and the files added, in order. */
  lemma {:induction false} SaveLevelMembers(base: Level, edit: LevelEdit)
    requires SortedFiles(base) && DistinctNumbers(edit.added)
    requires forall f, g | f in base && g in edit.added :: f.number != g.number
    ensures var r := SaveLevel(base, Apply(LevelEdit({}, []), edit));
            && SortedFiles(r)
            && forall f :: f in r <==> (f in base && f.number !in edit.deleted) || f in edit.added
  {
    var state := Apply(LevelEdit({}, []), edit);
    InsertAllSorted([], edit.added);
    MergeUnion(base, state.added);
    LiveMembers(Merge(base, state.added), state.deleted);
    LiveSorted(Merge(base, state.added), state.deleted);
    forall f ensures f in SaveLevel(base, state) <==> (f in base && f.number !in edit.deleted) || f in edit.added {
      if f in base {
        assert f.number !in Numbers(edit.added);
      }
    }
  }

  lemma {:induction false} SortedFilesUnique(a: Level, b: Level)
    requires SortedFiles(a) && SortedFiles(b) && forall f :: f in a <==> f in b
    ensures a == b
  {
    assert a != [] ==> a[0] in a;
    assert b != [] ==> b[0] in b;
    if a != [] {
      FirstAgrees(a, b);
      forall f ensures f in a[1..] <==> f in b[1..] {
        RestMembers(a, f);
        RestMembers(b, f);
      }
      SortedFilesUnique(a[1..], b[1..]);
    }
  }

  lemma {:induction false} RestMembers(a: Level, f: FileMetaData)
    requires SortedFiles(a) && a != []
    ensures f in a[1..] <==> f in a && f != a[0]
  {
    if f in a[1..] {
      var j :| 0 <= j < |a[1..]| && a[1..][j] == f;
      assert Before(a[0], a[j + 1]);
    }
  }

  lemma {:induction false} FirstAgrees(a: Level, b: Level)
    requires SortedFiles(a) && SortedFiles(b) && a != [] && b != [] && a[0] in b && b[0] in a
    ensures a[0] == b[0]
  {
    var i :| 0 <= i < |b| && b[i] == a[0];
    var j :| 0 <= j < |a| && a[j] == b[0];
    FirstIsLeast(b, i);
    FirstIsLeast(a, j);
  }

  lemma {:induction false} FirstIsLeast(a: Level, i: nat)
    requires SortedFiles(a) && i < |a|
    ensures i == 0 || Before(a[0], a[i])
  {
  }

  /** What is still to be written when `b` base files and `a` added files have been handled. */
  function Remaining(base: Level, state: LevelEdit, b: nat, a: nat): Level
    requires b <= |base| && a <= |state.added|
  {
    Live(Merge(base[b..], state.added[a..]), state.deleted)
  }

  lemma {:induction false} MergeStep(base: Level, added: Level, b: nat, a: nat, n: nat)
    requires b <= |base| && a < |added| && n == b + UpperBound(base[b..], added[a])
    ensures Merge(base[b..], added[a..]) == base[b..n] + [added[a]] + Merge(base[n..], added[a + 1..])
  {
    hide Merge;
    var rest, more := base[b..], added[a..];
    assert rest[..n - b] == base[b..n];
    assert rest[n - b..] == base[n..];
    assert more[0] == added[a] && more[1..] == added[a + 1..];
    MergeUnfolds(rest, more);
  }

  lemma {:induction false} MergeUnfolds(base: Level, added: Level)
    requires added != []
    ensures var n := UpperBound(base, added[0]);
            Merge(base, added) == base[..n] + [added[0]] + Merge(base[n..], added[1..])
  {
  }

  lemma {:induction false} SaveStep(base: Level, state: LevelEdit, b: nat, a: nat, n: nat, v: Level)
    requires b <= |base| && a < |state.added| && n == b + UpperBound(base[b..], state.added[a])
    ensures v + Remaining(base, state, b, a)
         == ((v + Live(base[b..n], state.deleted)) + Live([state.added[a]], state.deleted))
            + Remaining(base, state, n, a + 1)
  {
    MergeStep(base, state.added, b, a, n);
    LiveOfThree(v, base[b..n], [state.added[a]], Merge(base[n..], state.added[a + 1..]), state.deleted);
  }

  lemma {:induction false} LiveOfThree(v: Level, x: Level, y: Level, z: Level, deleted: set<nat>)
    ensures v + Live(x + y + z, deleted) == ((v + Live(x, deleted)) + Live(y, deleted)) + Live(z, deleted)
  {
    LiveOfSum(x + y, z, deleted);
    LiveOfSum(x, y, deleted);
  }

  /** SaveTo at one level: for every added file, the base files that do not come after it, then
      the file itself; at the end the remaining base files. */
  method SaveTo(base: Level, state: LevelEdit) returns (v: Level)
    ensures v == SaveLevel(base, state)
  {
    v := [];
    var b := 0;
    var a := 0;
    ghost var remaining := SaveLevel(base, state);
    assert base[0..] == base && state.added[0..] == state.added;
    while a < |state.added|
      invariant a <= |state.added| && b <= |base|
      invariant remaining == Remaining(base, state, b, a)
      invariant SaveLevel(base, state) == v + remaining
    {
      var bpos := b + UpperBound(base[b..], state.added[a]);
      SaveStep(base, state, b, a, bpos, v);
      v := MaybeAddFiles(v, base[b..bpos], state.deleted);
      v := MaybeAddFiles(v, [state.added[a]], state.deleted);
      b := bpos;
      a := a + 1;
      remaining := Remaining(base, state, b, a);
    }
    v := MaybeAddFiles(v, base[b..], state.deleted);
  }

  method MaybeAddFiles(files: Level, more: Level, deleted: set<nat>) returns (r: Level)
    ensures r == files + Live(more, deleted)
  {
    r := files;
    var i := 0;
    assert more[0..] == more;
    while i < |more|
      invariant i <= |more|
      invariant files + Live(more, deleted) == r + Live(more[i..], deleted)
    {
      assert more[i..][1..] == more[i + 1..];
      if more[i].number !in deleted {
        r := r + [more[i]];
      }
      i := i + 1;
    }
  }

  lemma {:induction false} LiveOfSum(a: Level, b: Level, deleted: set<nat>)
    ensures Live(a + b, deleted) == Live(a, deleted) + Live(b, deleted)
  {
    if a == [] {
      assert a + b == b;
    } else {
      assert (a + b)[1..] == a[1..] + b;
      LiveOfSum(a[1..], b, deleted);
    }
  }

  // ---------------------------------------------------------------- manifest replay

  /** Installing the edits one after the other, as LogAndApply does. */
  function InstallAll(base: Level, edits: seq<LevelEdit>): Level
    decreases |edits|
  {
    if edits == [] then base
    else InstallAll(SaveLevel(base, Apply(LevelEdit({}, []), edits[0])), edits[1..])
  }

  /** WriteSnapshot: one edit that adds every file of the version. */
  function Snapshot(base: Level): LevelEdit {
    LevelEdit({}, base)
  }

  /** No edit adds a number twice, or one the level has seen before. */
  ghost predicate FreshAdditions(seen: set<nat>, edits: seq<LevelEdit>)
    decreases |edits|
  {
    edits == [] ||
    (&& DistinctNumbers(edits[0].added)
     && Numbers(edits[0].added) !! seen
     && FreshAdditions(seen + Numbers(edits[0].added), edits[1..]))
  }

  /** One step of the replay: if the folded state and the installed level agree before an edit,
      they agree after it. */
  lemma {:induction false} ReplayStep(level: Level, state: LevelEdit, edit: LevelEdit)
    requires SortedFiles(level) && SortedFiles(state.added)
    requires forall f :: f in level <==> f in state.added && f.number !in state.deleted
    requires DistinctNumbers(edit.added) && Numbers(edit.added) !! Numbers(state.added)
    ensures var level', state' := SaveLevel(level, Apply(LevelEdit({}, []), edit)), Apply(state, edit);
            && SortedFiles(level') && SortedFiles(state'.added)
            && (forall f :: f in level' <==> f in state'.added && f.number !in state'.deleted)
            && Numbers(state'.added) == Numbers(state.added) + Numbers(edit.added)
  {
    var state' := Apply(state, edit);
    forall f, g | f in state.added && g in edit.added ensures f.number != g.number {
      assert f.number in Numbers(state.added) && g.number in Numbers(edit.added);
    }
    SaveLevelMembers(level, edit);
    InsertAllSorted(state.added, edit.added);
    var level' := SaveLevel(level, Apply(LevelEdit({}, []), edit));
    forall f ensures f in level' <==> f in state'.added && f.number !in state'.deleted {
      if f in edit.added {
        assert f.number in Numbers(edit.added);
      } else if f in state.added {
        assert f.number in Numbers(state.added);
      }
    }
  }

  /** Replaying: folding all edits over an empty version and saving once gives the level that
      installing them one by one gives. */
  lemma {:induction false} ReplayFrom(level: Level, state: LevelEdit, edits: seq<LevelEdit>)
    requires SortedFiles(level) && SortedFiles(state.added)
    requires forall f :: f in level <==> f in state.added && f.number !in state.deleted
    requires FreshAdditions(Numbers(state.added), edits)
    ensures SaveLevel([], ApplyAll(state, edits)) == InstallAll(level, edits)
    ensures SortedFiles(InstallAll(level, edits))
    decreases |edits|
  {
    if edits == [] {
      var saved := SaveLevel([], state);
      MergeUnion([], state.added);
      LiveMembers(Merge([], state.added), state.deleted);
      LiveSorted(Merge([], state.added), state.deleted);
      SortedFilesUnique(saved, level);
    } else {
      ReplayStep(level, state, edits[0]);
      ReplayFrom(SaveLevel(level, Apply(LevelEdit({}, []), edits[0])), Apply(state, edits[0]), edits[1..]);
    }
  }

  /** VersionSet::Recover rebuilds the current level from the snapshot record and the edits logged
      after it. */
  lemma {:induction false} RecoverRebuildsVersion(base: Level, edits: seq<LevelEdit>)
    requires SortedFiles(base) && DistinctNumbers(base)
    requires FreshAdditions(Numbers(base), edits)
    ensures SaveLevel([], ApplyAll(LevelEdit({}, []), [Snapshot(base)] + edits)) == InstallAll(base, edits)
  {
    var state := Apply(LevelEdit({}, []), Snapshot(base));
    InsertAllSorted([], base);
    SortedFilesUnique(state.added, base);
    assert ([Snapshot(base)] + edits)[1..] == edits;
    ReplayFrom(base, state, edits);
  }

  /** Without that proviso replay and installation part ways: a number deleted and later added again with other contents
      comes back twice from the manifest.  The database never gives a number twice (`Manifests.LogKeepsTrack`). */
  lemma {:induction false} ReAddedNumberDiverges(f: FileMetaData, g: FileMetaData)
    requires f.number == g.number && Less(f.smallest, g.smallest)
    ensures var edits := [LevelEdit({f.number}, []), LevelEdit({}, [g])];
            && InstallAll([f], edits) == [g]
            && SaveLevel([], ApplyAll(LevelEdit({}, []), [Snapshot([f])] + edits)) == [f, g]
  {
    var n := f.number;
    var e0, e1 := LevelEdit({n}, []), LevelEdit({}, [g]);
    var empty := LevelEdit({}, []);
    assert Apply(empty, e0) == LevelEdit({n}, []);
    assert Live([f], {n}) == [] by { assert Live([f][1..], {n}) == []; }
    assert SaveLevel([f], Apply(empty, e0)) == [];
    InsertOne([], g);
    assert Apply(empty, e1) == LevelEdit({} - Numbers([g]), [g]);
    assert {} - Numbers([g]) == {};
    MergeEmpty([g]);
    LiveAll([g]);
    assert SaveLevel([], Apply(empty, e1)) == [g];
    assert [e0, e1][1..] == [e1] && [e1][1..] == [];
    assert InstallAll([f], [e0, e1]) == InstallAll([], [e1]) == InstallAll([g], []) == [g];

    InsertOne([], f);
    assert Apply(empty, Snapshot([f])) == LevelEdit({}, [f]) by { assert {} - Numbers([f]) == {}; }
    assert Apply(LevelEdit({}, [f]), e0) == LevelEdit({n}, [f]) by { assert Numbers([]) == {}; }
    InsertOne([f], g);
    assert Apply(LevelEdit({n}, [f]), e1) == LevelEdit({}, [f, g]) by {
      assert g in [g] && n in Numbers([g]);
      assert InsertFile([f], g) == [f] + InsertFile([f][1..], g);
    }
    MergeEmpty([f, g]);
    LiveAll([f, g]);
    var all := [Snapshot([f])] + [e0, e1];
    assert all[1..] == [e0, e1];
    assert ApplyAll(empty, all) == ApplyAll(LevelEdit({}, [f]), [e0, e1]) == ApplyAll(LevelEdit({n}, [f]), [e1])
        == ApplyAll(LevelEdit({}, [f, g]), []);
  }

  lemma {:induction false} InsertOne(files: Level, f: FileMetaData)
    ensures InsertAll(files, [f]) == InsertFile(files, f)
  {
    assert [f][1..] == [];
    assert InsertAll(InsertFile(files, f), []) == InsertFile(files, f);
  }

  lemma {:induction false} MergeEmpty(files: Level)
    ensures Merge([], files) == files
  {
    if files != [] {
      MergeEmpty(files[1..]);
    }
  }

  lemma {:induction false} LiveAll(files: Level)
    ensures Live(files, {}) == files
  {
    if files != [] {
      LiveAll(files[1..]);
    }
  }
}
