/** Which files of a level a range of user keys meets: SomeFileOverlapsRange,
    GetOverlappingInputs and PickLevelForMemTableOutput. */
module Ranges {
  import opened Common
  import opened InternalKeys
  import opened Version

  const MAX_MEM_COMPACT_LEVEL: nat := 2
  const TARGET_FILE_SIZE: nat := 2 * 1048576
  const MAX_GRANDPARENT_OVERLAP_BYTES: nat := 10 * TARGET_FILE_SIZE

  /** A bound that is absent stands for "before all keys" or "after all keys". */
  type Bound = Option<UserKey>

  predicate InRange(x: UserKey, begin: Bound, end: Bound) {
    (begin.Some? ==> begin.value <= x) && (end.Some? ==> x <= end.value)
  }

  /** The user-key range of `f` and [begin, end] share a key. */
  predicate Meets(f: FileMetaData, begin: Bound, end: Bound) {
    !(begin.Some? && f.Hi() < begin.value) && !(end.Some? && f.Lo() > end.value)
  }

  function Meeting(files: Level, begin: Bound, end: Bound): Level {
    if files == [] then []
    else if Meets(files[0], begin, end) then [files[0]] + Meeting(files[1..], begin, end)
    else Meeting(files[1..], begin, end)
  }

  lemma {:induction false} MeetingMembers(files: Level, begin: Bound, end: Bound)
    ensures forall f :: f in Meeting(files, begin, end) <==> f in files && Meets(f, begin, end)
  {
    if files != [] {
      MeetingMembers(files[1..], begin, end);
      assert forall f :: f in files <==> f == files[0] || f in files[1..];
    }
  }

  lemma {:induction false} MeetingSnoc(files: Level, i: nat, begin: Bound, end: Bound)
    requires i < |files|
    ensures Meeting(files[..i + 1], begin, end)
         == Meeting(files[..i], begin, end) + if Meets(files[i], begin, end) then [files[i]] else []
    decreases i
  {
    if i == 0 {
      assert files[..1] == [files[0]] && files[..0] == [];
      assert Meeting([files[0]][1..], begin, end) == [];
    } else {
      MeetingSnoc(files[1..], i - 1, begin, end);
      assert files[..i + 1][1..] == files[1..][..i] && files[..i][1..] == files[1..][..i - 1];
    }
  }

  // ---------------------------------------------------------------- overlap test

  /** SomeFileOverlapsRange: linear over level 0, binary search elsewhere. */
  method SomeFileOverlapsRange(disjointSortedFiles: bool, files: Level, smallest: Bound, largest: Bound)
    returns (overlaps: bool)
    requires AllValid(files)
    requires disjointSortedFiles ==> Ordered(files)
    ensures overlaps <==> exists f :: f in files && Meets(f, smallest, largest)
  {
    if !disjointSortedFiles {
      var i := 0;
      while i < |files|
        invariant i <= |files|
        invariant forall j | 0 <= j < i :: !Meets(files[j], smallest, largest)
      {
        if Meets(files[i], smallest, largest) {
          return true;
        }
        i := i + 1;
      }
      return false;
    }
    var index := 0;
    if smallest.Some? {
      OrderedSplits(files, SeekKey(smallest.value, MAX_SEQUENCE));
      index := FindFile(files, SeekKey(smallest.value, MAX_SEQUENCE));
      forall j | 0 <= j < index ensures !Meets(files[j], smallest, largest) {
        assert Less(files[j].largest, SeekKey(smallest.value, MAX_SEQUENCE));
      }
    }
    if index >= |files| {
      return false;
    }
    overlaps := !(largest.Some? && largest.value < files[index].Lo());
    if overlaps {
      assert Meets(files[index], smallest, largest);
    } else {
      forall j | index < j < |files| ensures !Meets(files[j], smallest, largest) {
        assert Less(files[index].largest, files[j].smallest);
        assert files[index].Valid();
        assert !Less(files[index].largest, files[index].smallest);
      }
    }
  }

  // ---------------------------------------------------------------- overlapping inputs

  /** No file meets [begin, end] and sticks out of it on a side that is bounded. */
  ghost predicate Closed(files: Level, begin: Bound, end: Bound) {
    forall f | f in files && Meets(f, begin, end) :: Inside(f, begin, end)
  }

  ghost predicate Inside(f: FileMetaData, begin: Bound, end: Bound) {
    (begin.Some? ==> begin.value <= f.Lo()) && (end.Some? ==> f.Hi() <= end.value)
  }

  /** [b, e] contains [begin, end], bounded on the same sides. */
  ghost predicate Widens(begin: Bound, end: Bound, b: Bound, e: Bound) {
    && b.Some? == begin.Some? && e.Some? == end.Some?
    && (b.Some? ==> b.value <= begin.value)
    && (e.Some? ==> end.value <= e.value)
  }

  /** Some file's range holds `x`. */
  ghost predicate CoveredBy(files: Level, x: UserKey) {
    exists f :: f in files && f.Covers(x)
  }

  /** Widening [begin, end] to [b, e] took in no key outside the files. */
  ghost predicate Filled(files: Level, begin: Bound, end: Bound, b: Bound, e: Bound) {
    forall x | InRange(x, b, e) && !InRange(x, begin, end) :: CoveredBy(files, x)
  }

  /** [b, e] is the least range containing [begin, end] and every file it meets. */
  ghost predicate IsClosure(files: Level, begin: Bound, end: Bound, b: Bound, e: Bound) {
    && Widens(begin, end, b, e)
    && Closed(files, b, e)
    && (forall b', e' | Widens(begin, end, b', e') && Closed(files, b', e') :: Widens(b, e, b', e'))
  }

  /** How many files stick out below `begin` and above `end`: falls at every restart. */
  ghost function Sticking(files: Level, begin: Bound, end: Bound): nat {
    if files == [] then 0
    else
      var below := if begin.Some? && files[0].Lo() < begin.value then 1 else 0;
      var above := if end.Some? && files[0].Hi() > end.value then 1 else 0;
      below + above + Sticking(files[1..], begin, end)
  }

  lemma {:induction false} StickingFalls(files: Level, begin: Bound, end: Bound, b: Bound, e: Bound)
    requires Widens(begin, end, b, e)
    ensures Sticking(files, b, e) <= Sticking(files, begin, end)
    ensures (exists f :: f in files && ((b.Some? && b.value <= f.Lo() < begin.value)
                                     || (e.Some? && end.value < f.Hi() <= e.value)))
            ==> Sticking(files, b, e) < Sticking(files, begin, end)
  {
    if files != [] {
      StickingFalls(files[1..], begin, end, b, e);
      assert forall f :: f in files <==> f == files[0] || f in files[1..];
    }
  }

  lemma {:induction false} NothingMeets(begin: Bound, end: Bound)
    ensures Closed([], begin, end) && Meeting([], begin, end) == []
  {
  }

  lemma {:induction false} NothingFilled(files: Level, begin: Bound, end: Bound)
    ensures Filled(files, begin, end, begin, end)
  {
  }

  lemma {:induction false} ClosedSnoc(files: Level, i: nat, begin: Bound, end: Bound)
    requires i < |files|
    ensures Closed(files[..i + 1], begin, end)
       <==> Closed(files[..i], begin, end) && (Meets(files[i], begin, end) ==> Inside(files[i], begin, end))
  {
    assert files[..i + 1] == files[..i] + [files[i]];
  }

  /** What GetOverlappingInputs collects: at level 0 the files meeting the closure of the range, elsewhere those meeting
      the range itself. */
  ghost predicate IsOverlapping(level: nat, files: Level, begin: Bound, end: Bound, inputs: Level) {
    if level > 0 then inputs == Meeting(files, begin, end)
    else exists b, e :: IsClosure(files, begin, end, b, e) && inputs == Meeting(files, b, e)
  }

  /** GetOverlappingInputs, with the range it ends up with: one pass at levels >= 1; at level 0 the pass restarts whenever
      a file widens the range. */
  method GetOverlappingInputs(level: nat, files: Level, begin: Bound, end: Bound)
    returns (inputs: Level, b: Bound, e: Bound)
    requires AllValid(files)
    ensures inputs == Meeting(files, b, e)
    ensures level > 0 ==> b == begin && e == end
    ensures level == 0 ==> IsClosure(files, begin, end, b, e) && Filled(files, begin, end, b, e)
    ensures IsOverlapping(level, files, begin, end, inputs)
  {
    hide Filled, Sticking, Closed;
    var userBegin, userEnd := begin, end;
    inputs := [];
    var i := 0;
    NothingMeets(userBegin, userEnd);
    NothingFilled(files, begin, end);
    while i < |files|
      invariant i <= |files|
      invariant inputs == Meeting(files[..i], userBegin, userEnd)
      invariant Widens(begin, end, userBegin, userEnd)
      invariant level > 0 ==> userBegin == begin && userEnd == end
      invariant level == 0 ==> Closed(files[..i], userBegin, userEnd)
      invariant forall b', e' | Widens(begin, end, b', e') && Closed(files, b', e') :: Widens(userBegin, userEnd, b', e')
      invariant Filled(files, begin, end, userBegin, userEnd)
      decreases Sticking(files, userBegin, userEnd), |files| - i
    {
      var f := files[i];
      i := i + 1;
      MeetingSnoc(files, i - 1, userBegin, userEnd);
      ClosedSnoc(files, i - 1, userBegin, userEnd);
      assert files[..i] == files[..i - 1] + [f];
      if userBegin.Some? && f.Hi() < userBegin.value {
      } else if userEnd.Some? && f.Lo() > userEnd.value {
      } else {
        inputs := inputs + [f];
        if level == 0 {
          if userBegin.Some? && f.Lo() < userBegin.value {
            StickingFalls(files, userBegin, userEnd, Some(f.Lo()), userEnd);
            LeastGrows(files, begin, end, userBegin, userEnd, f, Some(f.Lo()), userEnd);
            FillGrows(files, begin, end, userBegin, userEnd, f, Some(f.Lo()), userEnd);
            userBegin := Some(f.Lo());
            inputs := [];
            i := 0;
            NothingMeets(userBegin, userEnd);
          } else if userEnd.Some? && f.Hi() > userEnd.value {
            StickingFalls(files, userBegin, userEnd, userBegin, Some(f.Hi()));
            LeastGrows(files, begin, end, userBegin, userEnd, f, userBegin, Some(f.Hi()));
            FillGrows(files, begin, end, userBegin, userEnd, f, userBegin, Some(f.Hi()));
            userEnd := Some(f.Hi());
            inputs := [];
            i := 0;
            NothingMeets(userBegin, userEnd);
          }
        }
      }
    }
    assert files[..i] == files;
    b, e := userBegin, userEnd;
  }

  /** A file that meets the current range forces every closed range to contain it. */
  lemma {:induction false} LeastGrows(files: Level, begin: Bound, end: Bound, b: Bound, e: Bound, f: FileMetaData, b1: Bound, e1: Bound)
    requires f in files && f.Lo() <= f.Hi() && Meets(f, b, e) && Widens(begin, end, b, e)
    requires (b1 == b && e.Some? && e1 == Some(f.Hi())) || (b.Some? && b1 == Some(f.Lo()) && e1 == e)
    requires forall b', e' | Widens(begin, end, b', e') && Closed(files, b', e') :: Widens(b, e, b', e')
    ensures forall b', e' | Widens(begin, end, b', e') && Closed(files, b', e') :: Widens(b1, e1, b', e')
  {
    forall b', e' | Widens(begin, end, b', e') && Closed(files, b', e') ensures Widens(b1, e1, b', e') {
      assert Widens(b, e, b', e');
      assert Meets(f, b', e');
      assert Inside(f, b', e');
    }
  }

  lemma {:induction false} FillGrows(files: Level, begin: Bound, end: Bound, b: Bound, e: Bound, f: FileMetaData, b1: Bound, e1: Bound)
    requires f in files && f.Lo() <= f.Hi() && Meets(f, b, e)
    requires (b1 == b && e.Some? && e1 == Some(f.Hi())) || (b.Some? && b1 == Some(f.Lo()) && e1 == e)
    requires Filled(files, begin, end, b, e)
    ensures Filled(files, begin, end, b1, e1)
  {
    forall x | InRange(x, b1, e1) && !InRange(x, begin, end) ensures CoveredBy(files, x) {
      if !InRange(x, b, e) {
        assert f.Covers(x);
      }
    }
  }

  // ---------------------------------------------------------------- level for a flushed memtable

  function TotalFileSize(files: Level): nat {
    if files == [] then 0 else files[0].fileSize + TotalFileSize(files[1..])
  }

  /** The bytes of some files are the sum of those of each. */
  lemma {:induction false} SizesAdd(a: Level, b: Level)
    ensures TotalFileSize(a + b) == TotalFileSize(a) + TotalFileSize(b)
    ensures |a| == 1 ==> TotalFileSize(a) == a[0].fileSize
  {
    if a == [] {
      assert a + b == b;
    } else {
      assert (a + b)[1..] == a[1..] + b;
      SizesAdd(a[1..], b);
    }
  }

  ghost predicate OverlapInLevel(files: Level, lo: UserKey, hi: UserKey) {
    exists f :: f in files && Meets(f, Some(lo), Some(hi))
  }

  /** The table may sit at `level + 1` as far as the bytes of level + 2 are concerned. */
  ghost predicate GrandparentsFit(levels: Levels, level: nat, lo: UserKey, hi: UserKey)
    requires |levels| == NUM_LEVELS
  {
    level + 2 < NUM_LEVELS ==>
      TotalFileSize(Meeting(levels[level + 2], Some(lo), Some(hi))) <= MAX_GRANDPARENT_OVERLAP_BYTES
  }

  /** Level `level` may hand the table on to level + 1. */
  ghost predicate MayPush(levels: Levels, level: nat, lo: UserKey, hi: UserKey)
    requires |levels| == NUM_LEVELS
  {
    level < MAX_MEM_COMPACT_LEVEL && !OverlapInLevel(levels[level + 1], lo, hi) && GrandparentsFit(levels, level, lo, hi)
  }

  /** The level a flushed table with range [lo, hi] gets: 0 if it meets level 0, else the first
      level that cannot push it further. */
  ghost predicate IsFlushLevel(levels: Levels, lo: UserKey, hi: UserKey, level: nat)
    requires |levels| == NUM_LEVELS
  {
    if OverlapInLevel(levels[0], lo, hi) then level == 0
    else (forall l: nat | l < level :: MayPush(levels, l, lo, hi)) && !MayPush(levels, level, lo, hi)
  }

  /** A table is never placed below, or beside, a file its range meets, except at level 0. */
  lemma {:induction false} FlushLevelIsClear(levels: Levels, lo: UserKey, hi: UserKey, level: nat)
    requires |levels| == NUM_LEVELS && IsFlushLevel(levels, lo, hi, level)
    ensures level <= MAX_MEM_COMPACT_LEVEL
    ensures level > 0 ==> forall i: nat | i <= level :: !OverlapInLevel(levels[i], lo, hi)
  {
    if level > 0 {
      assert MayPush(levels, level - 1, lo, hi);
      forall i: nat | i <= level ensures !OverlapInLevel(levels[i], lo, hi) {
        if i > 0 {
          assert MayPush(levels, i - 1, lo, hi);
        }
      }
    }
  }

  /**
   * The level in terms of files and bytes: a table moves down to level 1, and on to level 2, as long as its range meets no
   * file on the way and no more than 20 MB one level further down.
   */
  lemma {:induction false} FlushLevelIsDeepest(levels: Levels, lo: UserKey, hi: UserKey, level: nat)
    requires |levels| == NUM_LEVELS
    ensures var free0 := forall f | f in levels[0] :: !Meets(f, Some(lo), Some(hi));
            var free1 := (forall f | f in levels[1] :: !Meets(f, Some(lo), Some(hi)))
                         && TotalFileSize(Meeting(levels[2], Some(lo), Some(hi))) <= 20 * 1048576;
            var free2 := (forall f | f in levels[2] :: !Meets(f, Some(lo), Some(hi)))
                         && TotalFileSize(Meeting(levels[3], Some(lo), Some(hi))) <= 20 * 1048576;
            IsFlushLevel(levels, lo, hi, level) <==> level == if free0 && free1 then if free2 then 2 else 1 else 0
  {
    hide Meeting, TotalFileSize, Meets;
    assert OverlapInLevel(levels[0], lo, hi) <==> !forall f | f in levels[0] :: !Meets(f, Some(lo), Some(hi));
    assert MayPush(levels, 0, lo, hi) <==>
      (forall f | f in levels[1] :: !Meets(f, Some(lo), Some(hi)))
      && TotalFileSize(Meeting(levels[2], Some(lo), Some(hi))) <= 20 * 1048576;
    assert MayPush(levels, 1, lo, hi) <==>
      (forall f | f in levels[2] :: !Meets(f, Some(lo), Some(hi)))
      && TotalFileSize(Meeting(levels[3], Some(lo), Some(hi))) <= 20 * 1048576;
    assert !MayPush(levels, 2, lo, hi);
  }

  method PickLevelForMemTableOutput(levels: Levels, lo: UserKey, hi: UserKey) returns (level: nat)
    requires |levels| == NUM_LEVELS
    requires forall i | 0 <= i < NUM_LEVELS :: AllValid(levels[i])
    requires forall i | 1 <= i < NUM_LEVELS :: Ordered(levels[i])
    ensures IsFlushLevel(levels, lo, hi, level)
  {
    level := 0;
    var overlap := SomeFileOverlapsRange(false, levels[0], Some(lo), Some(hi));
    if !overlap {
      while level < MAX_MEM_COMPACT_LEVEL
        invariant level <= MAX_MEM_COMPACT_LEVEL
        invariant forall l: nat | l < level :: MayPush(levels, l, lo, hi)
      {
        overlap := SomeFileOverlapsRange(true, levels[level + 1], Some(lo), Some(hi));
        if overlap {
          return;
        }
        if level + 2 < NUM_LEVELS {
          var overlaps, _, _ := GetOverlappingInputs(level + 2, levels[level + 2], Some(lo), Some(hi));
          var sum := TotalFileSize(overlaps);
          if sum > MAX_GRANDPARENT_OVERLAP_BYTES {
            return;
          }
        }
        level := level + 1;
      }
    }
  }
}
