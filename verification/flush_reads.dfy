/** Flushes to the output level of a running compaction, in terms of what reads find once it has finished. */
module FlushReads {
  import opened Common
  import opened InternalKeys
  import opened Version
  import opened Ranges
  import opened CompactionInputs
  import opened CompactionWork
  import opened Builder
  import opened Tables
  import opened RunningCompaction
  import opened SplitKeys

  // ---------- a level with a file inside another ----------

  /** A search for a key of the inner file stops at the outer one, or before it. */
  lemma {:induction false} SearchPassesBy(files: Level, f: FileMetaData, o: FileMetaData, key: InternalKey)
    requires SortedFiles(files) && o in files && LiesInside(f, o) && f.Lo() <= key.user <= f.Hi()
    ensures var i := FindFileIndex(files, key);
            i < |files| && files[i] != f
  {
    var p :| 0 <= p < |files| && files[p] == o;
    var i := FindFileIndex(files, key);
    if i < p {
      assert Before(files[i], files[p]);
    }
  }

  /** At such a key the level is split all the same, so binary search stops there too. */
  lemma {:induction false} StillSplits(files: Level, f: FileMetaData, o: FileMetaData, key: InternalKey)
    requires SortedFiles(files) && AllValid(files) && o in files && LiesInside(f, o) && f.Lo() <= key.user <= f.Hi()
    requires forall g, h | g in files && h in files && g != h && g != f && h != f :: KeysApart(g, h)
    requires !Less(f.largest, key)
    ensures SplitsAt(files, key)
  {
    forall i, j | 0 <= i < j < |files| && Less(files[j].largest, key) ensures Less(files[i].largest, key) {
      var g, h := files[i], files[j];
      assert g in files && h in files && Before(g, h);
      ValidMember(files, h);
      ValidMember(files, o);
      assert h != f && h != o && KeysApart(h, o);
      if g != f {
        ValidMember(files, g);
        assert KeysApart(g, h);
      }
    }
  }

  // ---------- where a hit comes from ----------

  lemma {:induction false} TurnHit(files: Level, k: UserKey, s: SequenceNumber) returns (g: FileMetaData)
    requires ProbeInTurn(files, k, s).Hit?
    ensures g in files && ProbeInTurn(files, k, s).entry in g.entries
  {
    if Lookup(files[0].entries, k, s).Hit? {
      g := files[0];
    } else {
      g := TurnHit(files[1..], k, s);
    }
  }

  lemma {:induction false} HitFile(levels: Levels, j: nat, k: UserKey, s: SequenceNumber) returns (m: nat, g: FileMetaData)
    requires ProbeLevels(levels, j, k, s).Hit?
    ensures m < |levels| && g in levels[m] && ProbeLevels(levels, j, k, s).entry in g.entries
    ensures m > 0 ==> var i := FindFileIndex(levels[m], SeekKey(k, s)); i < |levels[m]| && g == levels[m][i]
    decreases |levels| - j
  {
    if !ProbeLevel(levels, j, k, s).Hit? {
      m, g := HitFile(levels, j + 1, k, s);
    } else if j == 0 {
      CandidatesMembers(levels[0], k);
      g := TurnHit(NewestFirst(Candidates(levels[0], k)), k, s);
      m := 0;
    } else {
      m, g := j, levels[j][FindFileIndex(levels[j], SeekKey(k, s))];
    }
  }

  // ---------- the flush ----------

  /** A new table at the output level of a running compaction. */
  ghost predicate Flushed(r: Running, levels: Levels, levels': Levels, nextFile: nat, f: FileMetaData) {
    && RunningOk(r, levels, nextFile) && Arranged(levels', f.number + 1)
    && f.Valid() && f.number >= nextFile && MayPlace(levels, f, r.inputs.level + 1)
    && HasAdded(levels, levels', r.inputs.level + 1, f)
    && forall i, g | 0 <= i < |levels| && g in levels[i] :: NewerFile(f, g)
  }

  /** What Flushed says of each part. */
  lemma {:induction false} FlushedParts(r: Running, levels: Levels, levels': Levels, nextFile: nat, f: FileMetaData)
    requires Flushed(r, levels, levels', nextFile, f)
    ensures WorkOk(r) && |levels| == |levels'| == NUM_LEVELS && r.inputs.level + 1 < NUM_LEVELS
    ensures WellShaped(levels') && HasAdded(levels, levels', r.inputs.level + 1, f) && f.Valid()
    ensures InputsPresent(r, levels) && LeftoversFit(r, levels) && Ordered(r.outputs) && AllValid(r.outputs)
    ensures forall i, g | 0 <= i < |levels| && g in levels[i] :: NewerFile(f, g)
    ensures forall g | g in r.All() :: Apart(f, g)
  {
    hide Recent, NumbersApart, NewerFile, StillBase, LeftoversNewer, SortedRun;
    ArrangedIsReadable(levels', f.number + 1);
    forall g | g in r.All() ensures Apart(f, g) {
      PlacedApart(r, levels, f, r.inputs.level + 1, g);
    }
  }

  lemma {:induction false} FlushedReplace(r: Running, levels: Levels, levels': Levels, nextFile: nat, f: FileMetaData)
    requires Flushed(r, levels, levels', nextFile, f)
    ensures OutputNumbersOk(r, levels', f.number + 1) && InputsPresent(r, levels') && f !in r.inputs.lower
  {
    FlushedParts(r, levels, levels', nextFile, f);
    hide Recent, NumbersApart, NewerFile, StillBase, LeftoversNewer, LeftoversFit, SortedRun, Arranged, WorkOk;
    NotAnInput(r, f);
    FlushKeepsNumbers(r, levels, levels', nextFile, f);
  }

  lemma {:induction false} ReplaceElsewhere(levels: Levels, r: Running)
    requires r.inputs.level + 1 < |levels|
    ensures |Replace(levels, r)| == |levels|
    ensures forall m | 0 <= m < |levels| && m != r.inputs.level && m != r.inputs.level + 1 :: Replace(levels, r)[m] == levels[m]
  {
  }

  /** What the version holds once the compaction has finished. */
  lemma {:induction false} Finished(r: Running, levels: Levels, levels': Levels, nextFile: nat, f: FileMetaData)
    requires Flushed(r, levels, levels', nextFile, f)
    ensures var i, after := r.inputs.level + 1, Replace(levels', r);
            && |after| == |levels| == NUM_LEVELS && i < NUM_LEVELS && SortedFiles(after[i])
            && (forall g :: g in after[i] <==> g == f || (g in levels[i] && g !in r.inputs.lower) || g in r.outputs)
            && (forall m, g | 0 <= m < |after| && m != i && g in after[m] :: g in levels[m])
            && (forall m | 1 <= m < |after| && m != i :: AllValid(after[m]) && Ordered(after[m]))
  {
    FlushedParts(r, levels, levels', nextFile, f);
    FlushedReplace(r, levels, levels', nextFile, f);
    assert Arranged(levels', f.number + 1);
    ReplaceElsewhere(levels', r);
    hide Flushed, WorkOk, LeftoversFit, OutputNumbersOk, InputsPresent, NewerFile, Apart, Arranged, Replace;
    ReplacedLower(levels', r, f.number + 1);
    ReplaceUpper(levels', r, f.number + 1);
    assert WellShaped(levels');
    hide SortedRun;
  }

  /** Nothing but f itself holds an entry as new as f's at f's keys. */
  lemma {:induction false} OthersAreOlder(
      r: Running, levels: Levels, levels': Levels, nextFile: nat, f: FileMetaData, m: nat, g: FileMetaData, x: Entry, e: Entry)
    requires Flushed(r, levels, levels', nextFile, f) && m < |Replace(levels', r)| && g in Replace(levels', r)[m]
    requires m == r.inputs.level + 1 ==> g != f
    requires x in g.entries && e in f.entries && x.key.user == e.key.user
    ensures x.key.sequence < e.key.sequence
  {
    FlushedParts(r, levels, levels', nextFile, f);
    Finished(r, levels, levels', nextFile, f);
    hide Flushed, Replace, SortedFiles, LeftoversFit, Apart;
    var h := g;
    if m == r.inputs.level + 1 && g in r.outputs {
      h := OutputEntry(r, g, x);
    }
    assert exists j :: 0 <= j < |levels| && h in levels[j];
    assert NewerFile(f, h);
    assert e in SetOf(f.entries) && x in SetOf(h.entries);
  }

  /** Apart from f, the files at the output level are still in order. */
  lemma {:induction false} OthersInOrder(r: Running, levels: Levels, levels': Levels, nextFile: nat, f: FileMetaData)
    requires Flushed(r, levels, levels', nextFile, f)
    ensures var files := Replace(levels', r)[r.inputs.level + 1];
            && AllValid(files)
            && forall g, h | g in files && h in files && g != h && g != f && h != f :: KeysApart(g, h)
  {
    FlushedParts(r, levels, levels', nextFile, f);
    Finished(r, levels, levels', nextFile, f);
    hide Flushed, Replace, WorkOk, KeysApart, NewerFile, Apart, InputsPresent, LeftoversFit;
    var i := r.inputs.level + 1;
    var files := Replace(levels', r)[i];
    forall j | 0 <= j < |files| ensures files[j].Valid() {
      assert files[j] in files;
      if files[j] in r.outputs {
        ValidMember(r.outputs, files[j]);
      } else {
        ValidMember(levels'[i], files[j]);
      }
    }
    forall g, h | g in files && h in files && g != h && g != f && h != f ensures KeysApart(g, h) {
      if g in r.outputs && h in r.outputs {
        OrderedMembers(r.outputs, g, h);
      } else if g !in r.outputs && h !in r.outputs {
        OrderedMembers(levels'[i], g, h);
      } else if h in r.outputs {
        LeftoverFits(r, levels, g, h);
      } else {
        LeftoverFits(r, levels, h, g);
      }
    }
  }

  lemma {:induction false} LeftoverFits(r: Running, levels: Levels, g: FileMetaData, o: FileMetaData)
    requires r.inputs.level + 1 < |levels| && LeftoversFit(r, levels)
    requires g in levels[r.inputs.level + 1] && g !in r.inputs.lower && o in r.outputs
    ensures KeysApart(g, o) && KeysApart(o, g)
  {
  }

  /** The first entry of a table that lies inside an output cannot be read, although the search for it is as sure as ever. */
  lemma {:induction false} EntryIsLost(
      r: Running, levels: Levels, levels': Levels, nextFile: nat, f: FileMetaData, o: FileMetaData, e: Entry)
    requires Flushed(r, levels, levels', nextFile, f) && o in r.outputs && LiesInside(f, o) && e in f.entries
    ensures var after, k, s := Replace(levels', r), e.key.user, e.key.sequence;
            && (forall m | 1 <= m < |after| :: SplitsAt(after[m], SeekKey(k, s)))
            && !ProbeIsNewest(ProbeLevels(after, 0, k, s), EntriesFrom(after, 0), k, s)
  {
    Finished(r, levels, levels', nextFile, f);
    OthersInOrder(r, levels, levels', nextFile, f);
    FileBounds(f, e);
    hide Flushed, Replace, SplitsAt, KeysApart;
    var i, after, k, s := r.inputs.level + 1, Replace(levels', r), e.key.user, e.key.sequence;
    forall m | 1 <= m < |after| ensures SplitsAt(after[m], SeekKey(k, s)) {
      if m == i {
        StillSplits(after[i], f, o, SeekKey(k, s));
      } else {
        OrderedSplits(after[m], SeekKey(k, s));
      }
    }
    assert f in after[i];
    assert e in EntriesFrom(after, 0) && Visible(e, k, s);
    var p := ProbeLevels(after, 0, k, s);
    if ProbeIsNewest(p, EntriesFrom(after, 0), k, s) {
      var m, g := HitFile(after, 0, k, s);
      if m == i {
        SearchPassesBy(after[i], f, o, SeekKey(k, s));
      }
      OthersAreOlder(r, levels, levels', nextFile, f, m, g, p.entry, e);
    }
  }

  /** Once a compaction has finished, every read finds the newest entry if and only if no table was flushed into the range
      of one of its outputs. */
  lemma {:induction false} FlushReadsExactly(r: Running, levels: Levels, levels': Levels, nextFile: nat, f: FileMetaData)
    requires Flushed(r, levels, levels', nextFile, f)
    ensures ReadsNewest(Replace(levels', r)) <==> MayFlush(r, f, r.inputs.level + 1)
  {
    var i, after := r.inputs.level + 1, Replace(levels', r);
    if MayFlush(r, f, i) {
      FlushFitsReads(r, levels, levels', nextFile, f);
    } else {
      FlushedParts(r, levels, levels', nextFile, f);
      var o :| o in r.outputs && !Apart(f, o);
      hide Flushed, Replace, WorkOk, SplitsAt, Apart, LiesInside;
      NotApartIsInside(r, f, o);
      EntryIsLost(r, levels, levels', nextFile, f, o, f.entries[0]);
    }
  }

  lemma {:induction false} FlushFitsReads(r: Running, levels: Levels, levels': Levels, nextFile: nat, f: FileMetaData)
    requires Flushed(r, levels, levels', nextFile, f) && MayFlush(r, f, r.inputs.level + 1)
    ensures ReadsNewest(Replace(levels', r))
  {
    var after := Replace(levels', r);
    FlushKeepsRunning(r, levels, levels', nextFile, f, r.inputs.level + 1);
    assert Arranged(levels', f.number + 1);
    hide Flushed, RunningOk, Arranged, MayFlush;
    FinishArranged(levels', r, f.number + 1);
    ArrangedIsReadable(after, f.number + 1);
    hide Version.Readable, ProbeIsNewest, Replace;
    forall k: UserKey, s: SequenceNumber ensures ProbeIsNewest(ProbeLevels(after, 0, k, s), EntriesFrom(after, 0), k, s) {
      ProbeLevelsFindsNewest(after, 0, k, s);
    }
  }
}
