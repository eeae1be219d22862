/** A version: seven levels of table files, and the searches `version_set.cc` makes in it. */
module Version {
  import opened InternalKeys

  /** File metadata together with the entries of the table it names. */
  datatype FileMetaData = FileMetaData(
    number: nat, fileSize: nat, smallest: InternalKey, largest: InternalKey, entries: seq<Entry>)
  {
    function Lo(): UserKey { smallest.user }

    function Hi(): UserKey { largest.user }

    /** What BuildTable and the compaction loop record about a finished table. */
    ghost predicate Valid() {
      && entries != []
      && SortedRun(entries)
      && smallest == entries[0].key
      && largest == entries[|entries| - 1].key
    }

    predicate Covers(x: UserKey) { Lo() <= x <= Hi() }
  }

  type Level = seq<FileMetaData>

  type Levels = seq<Level>

  ghost function EntriesOf(files: Level): set<Entry> {
    set f, e | f in files && e in f.entries :: e
  }

  /** Everything stored at level `i` or deeper. */
  ghost function EntriesFrom(levels: Levels, i: nat): set<Entry> {
    set j, f, e | i <= j < |levels| && f in levels[j] && e in f.entries :: e
  }

  ghost predicate AllValid(files: Level) {
    forall i | 0 <= i < |files| :: files[i].Valid()
  }

  /** Sorted and disjoint as ranges of internal keys: what a level >= 1 always is. */
  ghost predicate Ordered(files: Level) {
    forall i, j | 0 <= i < j < |files| :: Less(files[i].largest, files[j].smallest)
  }

  /** Sorted and disjoint as ranges of user keys: no user key is split across two files. */
  ghost predicate UserDisjoint(files: Level) {
    forall i, j | 0 <= i < j < |files| :: files[i].Hi() < files[j].Lo()
  }

  /** Two files that are disjoint as ranges of internal keys. */
  ghost predicate KeysApart(f: FileMetaData, g: FileMetaData) {
    Less(f.largest, g.smallest) || Less(g.largest, f.smallest)
  }

  ghost predicate NewerFile(f: FileMetaData, g: FileMetaData) {
    Newer(SetOf(f.entries), SetOf(g.entries))
  }

  /** Entries never hop over each other: level 0 is newer where the file number is larger, and
      every level is newer than the deeper ones. */
  ghost predicate Recent(levels: Levels) {
    && (forall f, g | |levels| > 0 && f in levels[0] && g in levels[0] && f.number > g.number :: NewerFile(f, g))
    && (forall i, j, f, g | 0 <= i < j < |levels| && f in levels[i] && g in levels[j] :: NewerFile(f, g))
  }

  lemma {:induction false} FileBounds(f: FileMetaData, e: Entry)
    requires f.Valid() && e in f.entries
    ensures !Less(e.key, f.smallest) && !Less(f.largest, e.key)
    ensures f.Covers(e.key.user)
  {
  }

  // ---------------------------------------------------------------- point lookups

  /** The smallest index whose file ends at or after `key`. */
  function FindFileIndex(files: Level, key: InternalKey): (i: nat)
    ensures i <= |files|
    ensures forall j | 0 <= j < i :: Less(files[j].largest, key)
    ensures i < |files| ==> !Less(files[i].largest, key)
  {
    if files == [] || !Less(files[0].largest, key) then 0 else 1 + FindFileIndex(files[1..], key)
  }

  /** Files that end before `key` come before those that do not. */
  ghost predicate SplitsAt(files: Level, key: InternalKey) {
    forall i, j | 0 <= i < j < |files| && Less(files[j].largest, key) :: Less(files[i].largest, key)
  }

  lemma {:induction false} OrderedSplits(files: Level, key: InternalKey)
    requires AllValid(files) && Ordered(files)
    ensures SplitsAt(files, key)
  {
    forall i, j | 0 <= i < j < |files| && Less(files[j].largest, key) ensures Less(files[i].largest, key) {
      LargestAscend(files, i, j);
    }
  }

  /** FindFile: binary search.  Files in order are split at every key. */
  method FindFile(files: Level, key: InternalKey) returns (right: nat)
    requires SplitsAt(files, key)
    ensures right == FindFileIndex(files, key)
  {
    var left := 0;
    right := |files|;
    while left < right
      invariant left <= right <= |files|
      invariant left <= FindFileIndex(files, key) <= right
    {
      var mid := (left + right) / 2;
      var f := files[mid];
      if Less(f.largest, key) {
        left := mid + 1;
      } else {
        right := mid;
      }
    }
  }

  lemma {:induction false} LargestAscend(files: Level, i: nat, j: nat)
    requires AllValid(files) && Ordered(files) && i < j < |files|
    ensures Less(files[i].largest, files[j].largest)
  {
    var g := files[j];
    assert g.Valid();
    assert !Less(g.largest, g.smallest);
  }

  /** At levels >= 1 one file is probed. */
  function LevelProbe(files: Level, k: UserKey, s: SequenceNumber): Probe {
    var i := FindFileIndex(files, SeekKey(k, s));
    if i < |files| && !(k < files[i].Lo()) then Lookup(files[i].entries, k, s) else Miss
  }

  /** Past the probed file nothing of `k` is visible, unless the file already shows something newer. */
  lemma {:induction false} LaterFilesAreOlder(f: FileMetaData, g: FileMetaData, x: Entry, k: UserKey, s: SequenceNumber)
    requires f.Valid() && g.Valid() && Less(f.largest, g.smallest) && !Less(f.largest, SeekKey(k, s))
    requires x in g.entries && Visible(x, k, s)
    ensures Lookup(f.entries, k, s).Hit? && x.key.sequence <= Lookup(f.entries, k, s).entry.key.sequence
    ensures f.Lo() <= k
  {
    FileBounds(g, x);
    var last := |f.entries| - 1;
    var p := SeekIndex(f.entries, SeekKey(k, s));
    assert !Less(f.entries[last].key, SeekKey(k, s));
    assert p <= last;
    assert p == last || Less(f.entries[p].key, f.entries[last].key);
    FileBounds(f, f.entries[p]);
  }

  /** The single probed file holds the newest visible entry of the whole level. */
  lemma {:induction false} LevelProbeFindsNewest(files: Level, k: UserKey, s: SequenceNumber)
    requires AllValid(files) && Ordered(files)
    ensures ProbeIsNewest(LevelProbe(files, k, s), EntriesOf(files), k, s)
  {
    var i := FindFileIndex(files, SeekKey(k, s));
    forall x | x in EntriesOf(files) && Visible(x, k, s)
      ensures i < |files| && files[i].Lo() <= k && Lookup(files[i].entries, k, s).Hit?
      ensures x.key.sequence <= Lookup(files[i].entries, k, s).entry.key.sequence
    {
      var j :| 0 <= j < |files| && x in files[j].entries;
      FileBounds(files[j], x);
      assert !Less(x.key, SeekKey(k, s));
      assert i <= j;
      if i < j {
        LaterFilesAreOlder(files[i], files[j], x, k, s);
      } else {
        LookupFindsNewest(files[i].entries, k, s);
        assert x in SetOf(files[i].entries);
      }
    }
    if LevelProbe(files, k, s).Hit? {
      LookupFindsNewest(files[i].entries, k, s);
    }
  }

  /** std::sort with NewestFirst. */
  function NewestFirst(files: Level): (r: Level)
    ensures forall f :: f in r <==> f in files
    ensures |r| == |files|
  {
    if files == [] then [] else InsertByNumber(files[0], NewestFirst(files[1..]))
  }

  function InsertByNumber(f: FileMetaData, files: Level): (r: Level)
    ensures forall g :: g in r <==> g == f || g in files
    ensures |r| == |files| + 1
  {
    if files == [] || f.number >= files[0].number then [f] + files
    else [files[0]] + InsertByNumber(f, files[1..])
  }

  ghost predicate NumbersFall(files: Level) {
    forall i, j | 0 <= i < j < |files| :: files[i].number > files[j].number
  }

  lemma {:induction false} InsertByNumberFalls(f: FileMetaData, files: Level)
    requires NumbersFall(files)
    requires forall i | 0 <= i < |files| :: files[i].number != f.number
    ensures NumbersFall(InsertByNumber(f, files))
  {
    if files != [] && f.number < files[0].number {
      InsertByNumberFalls(f, files[1..]);
      var rest := InsertByNumber(f, files[1..]);
      forall j | 0 <= j < |rest| ensures files[0].number > rest[j].number {
        assert rest[j] in rest;
        assert rest[j] == f || rest[j] in files[1..];
      }
    }
  }

  lemma {:induction false} NewestFirstFalls(files: Level)
    requires DistinctNumbers(files)
    ensures NumbersFall(NewestFirst(files))
  {
    if files != [] {
      NewestFirstFalls(files[1..]);
      var rest := NewestFirst(files[1..]);
      forall i | 0 <= i < |rest| ensures rest[i].number != files[0].number {
        assert rest[i] in rest;
      }
      InsertByNumberFalls(files[0], rest);
    }
  }

  /** The level-0 files whose range holds `k`. */
  function Candidates(files: Level, k: UserKey): Level {
    if files == [] then []
    else if files[0].Covers(k) then [files[0]] + Candidates(files[1..], k)
    else Candidates(files[1..], k)
  }

  lemma {:induction false} CandidatesMembers(files: Level, k: UserKey)
    ensures forall f :: f in Candidates(files, k) <==> f in files && f.Covers(k)
  {
    if files != [] {
      CandidatesMembers(files[1..], k);
      assert forall f :: f in files <==> f == files[0] || f in files[1..];
    }
  }

  function ProbeInTurn(files: Level, k: UserKey, s: SequenceNumber): Probe {
    if files == [] then Miss
    else
      var p := Lookup(files[0].entries, k, s);
      if p.Hit? then p else ProbeInTurn(files[1..], k, s)
  }

  lemma {:induction false} FirstFileIsNewer(files: Level)
    requires files != []
    requires forall i, j | 0 <= i < j < |files| :: NewerFile(files[i], files[j])
    ensures Newer(SetOf(files[0].entries), EntriesOf(files[1..]))
    ensures EntriesOf(files) == SetOf(files[0].entries) + EntriesOf(files[1..])
  {
    forall x, y | x in SetOf(files[0].entries) && y in EntriesOf(files[1..]) && x.key.user == y.key.user
      ensures x.key.sequence > y.key.sequence
    {
      var j :| 0 <= j < |files[1..]| && y in files[1..][j].entries;
      assert NewerFile(files[0], files[j + 1]);
    }
    assert forall f :: f in files <==> f == files[0] || f in files[1..];
  }

  lemma {:induction false} ProbeInTurnFindsNewest(files: Level, k: UserKey, s: SequenceNumber)
    requires AllValid(files)
    requires forall i, j | 0 <= i < j < |files| :: NewerFile(files[i], files[j])
    ensures ProbeIsNewest(ProbeInTurn(files, k, s), EntriesOf(files), k, s)
  {
    if files != [] {
      ProbeInTurnFindsNewest(files[1..], k, s);
      LookupFindsNewest(files[0].entries, k, s);
      FirstFileIsNewer(files);
      NewestOfLayers(Lookup(files[0].entries, k, s), ProbeInTurn(files[1..], k, s),
                     SetOf(files[0].entries), EntriesOf(files[1..]), k, s);
    }
  }

  function LevelZeroProbe(files: Level, k: UserKey, s: SequenceNumber): Probe {
    ProbeInTurn(NewestFirst(Candidates(files, k)), k, s)
  }

  lemma {:induction false} CandidatesAreDistinct(files: Level, k: UserKey)
    requires DistinctNumbers(files)
    ensures DistinctNumbers(Candidates(files, k))
  {
    if files != [] {
      CandidatesAreDistinct(files[1..], k);
      CandidatesMembers(files[1..], k);
      var rest := Candidates(files[1..], k);
      forall i | 0 <= i < |rest| ensures rest[i].number != files[0].number {
        assert rest[i] in rest;
      }
    }
  }

  lemma {:induction false} LevelZeroProbeFindsNewest(files: Level, k: UserKey, s: SequenceNumber)
    requires AllValid(files) && DistinctNumbers(files)
    requires forall f, g | f in files && g in files && f.number > g.number :: NewerFile(f, g)
    ensures ProbeIsNewest(LevelZeroProbe(files, k, s), EntriesOf(files), k, s)
  {
    var tmp := Candidates(files, k);
    var sorted := NewestFirst(tmp);
    CandidatesAreDistinct(files, k);
    CandidatesMembers(files, k);
    NewestFirstFalls(tmp);
    forall i | 0 <= i < |sorted| ensures sorted[i] in files && sorted[i].Valid() {
      assert sorted[i] in sorted;
    }
    ProbeInTurnFindsNewest(sorted, k, s);
    forall x | x in EntriesOf(files) && Visible(x, k, s) ensures x in EntriesOf(sorted) {
      var f :| f in files && x in f.entries;
      FileBounds(f, x);
      assert f in sorted;
    }
  }

  /** What Version::Get finds at one level. */
  function ProbeLevel(levels: Levels, i: nat, k: UserKey, s: SequenceNumber): Probe
    requires i < |levels|
  {
    if i == 0 then LevelZeroProbe(levels[0], k, s) else LevelProbe(levels[i], k, s)
  }

  /** Version::Get from level `i` on. */
  function ProbeLevels(levels: Levels, i: nat, k: UserKey, s: SequenceNumber): Probe
    decreases |levels| - i
  {
    if i >= |levels| then Miss
    else
      var p := ProbeLevel(levels, i, k, s);
      if p.Hit? then p else ProbeLevels(levels, i + 1, k, s)
  }

  /** What makes level-by-level search correct. */
  ghost predicate Readable(levels: Levels) {
    && (forall i | 0 <= i < |levels| :: AllValid(levels[i]))
    && (forall i | 1 <= i < |levels| :: Ordered(levels[i]))
    && (|levels| > 0 ==> DistinctNumbers(levels[0]))
    && Recent(levels)
  }

  ghost predicate DistinctNumbers(files: Level) {
    forall i, j | 0 <= i < j < |files| :: files[i].number != files[j].number
  }

  lemma {:induction false} ProbeLevelFindsNewest(levels: Levels, i: nat, k: UserKey, s: SequenceNumber)
    requires Readable(levels) && i < |levels|
    ensures ProbeIsNewest(ProbeLevel(levels, i, k, s), EntriesOf(levels[i]), k, s)
  {
    if i == 0 {
      LevelZeroProbeFindsNewest(levels[0], k, s);
    } else {
      LevelProbeFindsNewest(levels[i], k, s);
    }
  }

  lemma {:induction false} LevelIsNewerThanDeeper(levels: Levels, i: nat)
    requires Recent(levels) && i < |levels|
    ensures Newer(EntriesOf(levels[i]), EntriesFrom(levels, i + 1))
  {
    forall x, y | x in EntriesOf(levels[i]) && y in EntriesFrom(levels, i + 1) && x.key.user == y.key.user
      ensures x.key.sequence > y.key.sequence
    {
      var f :| f in levels[i] && x in f.entries;
      var j, g :| i + 1 <= j < |levels| && g in levels[j] && y in g.entries;
      assert NewerFile(f, g);
    }
  }

  /** Version::Get returns the newest visible entry stored in the version. */
  lemma {:induction false} ProbeLevelsFindsNewest(levels: Levels, i: nat, k: UserKey, s: SequenceNumber)
    requires Readable(levels)
    ensures ProbeIsNewest(ProbeLevels(levels, i, k, s), EntriesFrom(levels, i), k, s)
    decreases |levels| - i
  {
    if i < |levels| {
      assert Recent(levels);
      hide Readable, Recent, Newer, ProbeIsNewest, ProbeLevel, EntriesOf, EntriesFrom;
      ProbeLevelsFindsNewest(levels, i + 1, k, s);
      ProbeLevelFindsNewest(levels, i, k, s);
      LevelIsNewerThanDeeper(levels, i);
      NewestOfLayers(ProbeLevel(levels, i, k, s), ProbeLevels(levels, i + 1, k, s),
                     EntriesOf(levels[i]), EntriesFrom(levels, i + 1), k, s);
      SplitLevel(levels, i);
    }
  }

  lemma {:induction false} SplitLevel(levels: Levels, i: nat)
    requires i < |levels|
    ensures EntriesFrom(levels, i) == EntriesOf(levels[i]) + EntriesFrom(levels, i + 1)
  {
    forall e ensures e in EntriesFrom(levels, i) <==> e in EntriesOf(levels[i]) + EntriesFrom(levels, i + 1) {
      if e in EntriesFrom(levels, i) {
        var j, f :| i <= j < |levels| && f in levels[j] && e in f.entries;
      }
    }
  }

  /** The level-0 files whose range holds `k`, in file order. */
  method GatherCandidates(files: Level, k: UserKey) returns (tmp: Level)
    ensures tmp == Candidates(files, k)
  {
    tmp := [];
    var i := 0;
    while i < |files|
      invariant i <= |files|
      invariant Candidates(files, k) == tmp + Candidates(files[i..], k)
    {
      var f := files[i];
      assert files[i..][0] == f && files[i..][1..] == files[i + 1..];
      if k >= f.Lo() && k <= f.Hi() {
        tmp := tmp + [f];
      }
      i := i + 1;
    }
    assert tmp + [] == tmp;
  }

  /** The one file of a level >= 1 that can hold `k`, found by binary search. */
  method GatherFile(files: Level, k: UserKey, s: SequenceNumber) returns (found: Level)
    requires SplitsAt(files, SeekKey(k, s))
    ensures ProbeInTurn(found, k, s) == LevelProbe(files, k, s)
  {
    found := [];
    var index := FindFile(files, SeekKey(k, s));
    if index < |files| && !(k < files[index].Lo()) {
      found := [files[index]];
      assert ProbeInTurn(found[1..], k, s) == Miss;
    }
  }

  /** Reads a list of files in turn until one holds a visible entry. */
  method SearchFiles(files: Level, k: UserKey, s: SequenceNumber) returns (p: Probe)
    ensures p == ProbeInTurn(files, k, s)
  {
    var i := 0;
    assert files[0..] == files;
    while i < |files|
      invariant i <= |files|
      invariant ProbeInTurn(files, k, s) == ProbeInTurn(files[i..], k, s)
    {
      assert files[i..][0] == files[i] && files[i..][1..] == files[i + 1..];
      p := Lookup(files[i].entries, k, s);
      if p.Hit? {
        return;
      }
      i := i + 1;
    }
    p := Miss;
  }

  /** Version::Get: level by level, file by file; the first hit ends the search. */
  method Get(levels: Levels, k: UserKey, s: SequenceNumber) returns (p: Probe)
    requires forall i | 1 <= i < |levels| :: SplitsAt(levels[i], SeekKey(k, s))
    ensures p == ProbeLevels(levels, 0, k, s)
  {
    var level := 0;
    while level < |levels|
      invariant level <= |levels|
      invariant ProbeLevels(levels, 0, k, s) == ProbeLevels(levels, level, k, s)
    {
      var files: Level;
      if level == 0 {
        var tmp := GatherCandidates(levels[0], k);
        files := NewestFirst(tmp);
      } else {
        files := GatherFile(levels[level], k, s);
      }
      p := SearchFiles(files, k, s);
      if p.Hit? {
        return;
      }
      level := level + 1;
    }
    p := Miss;
  }
}
