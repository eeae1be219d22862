/** Choosing the inputs of a compaction: PickCompaction, CompactRange and SetupOtherInputs. */
module CompactionInputs {
  import opened Common
  import opened InternalKeys
  import opened Version
  import opened Ranges

  const EXPANDED_COMPACTION_BYTE_SIZE_LIMIT: nat := 25 * TARGET_FILE_SIZE

  /** The files of `level` and of `level + 1` that are merged. */
  datatype Inputs = Inputs(level: nat, upper: Level, lower: Level)

  // ---------------------------------------------------------------- hulls

  function HullLo(files: Level): UserKey
    requires files != []
  {
    if |files| == 1 || files[0].Lo() <= HullLo(files[1..]) then files[0].Lo() else HullLo(files[1..])
  }

  function HullHi(files: Level): UserKey
    requires files != []
  {
    if |files| == 1 || files[0].Hi() >= HullHi(files[1..]) then files[0].Hi() else HullHi(files[1..])
  }

  lemma {:induction false} HullBounds(files: Level)
    requires files != []
    ensures forall f | f in files :: HullLo(files) <= f.Lo() && f.Hi() <= HullHi(files)
    ensures exists f :: f in files && f.Lo() == HullLo(files)
    ensures exists f :: f in files && f.Hi() == HullHi(files)
  {
    assert files[0] in files;
    if |files| > 1 {
      HullBounds(files[1..]);
      assert forall f :: f in files <==> f == files[0] || f in files[1..];
    }
  }

  ghost predicate MeetsHull(f: FileMetaData, files: Level)
    requires files != []
  {
    Meets(f, Some(HullLo(files)), Some(HullHi(files)))
  }

  /** The ranges of the files leave no gap in their hull. */
  ghost predicate NoGap(files: Level)
    requires files != []
  {
    forall x | HullLo(files) <= x <= HullHi(files) :: CoveredBy(files, x)
  }

  /** GetRange: the smallest and the largest internal key of some files. */
  method GetRange(inputs: Level) returns (smallest: InternalKey, largest: InternalKey)
    requires inputs != [] && AllValid(inputs)
    ensures smallest.user == HullLo(inputs) && largest.user == HullHi(inputs)
    ensures forall f | f in inputs :: !Less(f.smallest, smallest) && !Less(largest, f.largest)
  {
    smallest, largest := inputs[0].smallest, inputs[0].largest;
    var i := 1;
    while i < |inputs|
      invariant 1 <= i <= |inputs|
      invariant exists j :: 0 <= j < i && inputs[j].smallest == smallest
      invariant exists j :: 0 <= j < i && inputs[j].largest == largest
      invariant forall j | 0 <= j < i :: !Less(inputs[j].smallest, smallest) && !Less(largest, inputs[j].largest)
    {
      var f := inputs[i];
      if Less(f.smallest, smallest) {
        smallest := f.smallest;
      }
      if Less(largest, f.largest) {
        largest := f.largest;
      }
      i := i + 1;
    }
    HullBounds(inputs);
    assert exists f :: f in inputs && f.smallest == smallest;
    assert exists f :: f in inputs && f.largest == largest;
  }

  /** Adding files that meet the hull of a gap-free set leaves it gap-free. */
  lemma {:induction false} NoGapGrows(a: Level, b: Level)
    requires a != [] && NoGap(a)
    requires forall f | f in b :: MeetsHull(f, a)
    ensures NoGap(a + b)
  {
    HullBounds(a);
    HullBounds(a + b);
    assert forall f :: f in a + b <==> f in a || f in b;
    var lowest :| lowest in a + b && lowest.Lo() == HullLo(a + b);
    var highest :| highest in a + b && highest.Hi() == HullHi(a + b);
    forall x | HullLo(a + b) <= x <= HullHi(a + b) ensures CoveredBy(a + b, x) {
      if x < HullLo(a) {
        assert lowest.Covers(x);
      } else if HullHi(a) < x {
        assert highest.Covers(x);
      } else {
        assert CoveredBy(a, x);
        var f :| f in a && f.Covers(x);
        assert f in a + b;
      }
    }
  }

  lemma {:induction false} SameHull(a: Level, b: Level)
    requires a != [] && b != [] && forall f :: f in a <==> f in b
    ensures HullLo(a) == HullLo(b) && HullHi(a) == HullHi(b)
    ensures NoGap(a) ==> NoGap(b)
  {
    HullBounds(a);
    HullBounds(b);
    if NoGap(a) {
      forall x | HullLo(b) <= x <= HullHi(b) ensures CoveredBy(b, x) {
        assert CoveredBy(a, x);
        var f :| f in a && f.Covers(x);
        assert f in b;
      }
    }
  }

  lemma {:induction false} NoGapOfOne(f: FileMetaData)
    requires f.Lo() <= f.Hi()
    ensures NoGap([f])
  {
    forall x | HullLo([f]) <= x <= HullHi([f]) ensures CoveredBy([f], x) {
      assert f in [f] && f.Covers(x);
    }
  }

  ghost predicate RangeAvoids(files: Level, lo: UserKey, hi: UserKey) {
    forall f | f in files :: !Meets(f, Some(lo), Some(hi))
  }

  /** A range that avoids every file of a gap-free set avoids its hull. */
  lemma {:induction false} AvoidsHull(files: Level, lo: UserKey, hi: UserKey)
    requires files != [] && NoGap(files) && lo <= hi && RangeAvoids(files, lo, hi)
    requires forall f | f in files :: f.Lo() <= f.Hi()
    ensures hi < HullLo(files) || HullHi(files) < lo
  {
    HullBounds(files);
    var x := if lo < HullLo(files) then HullLo(files) else lo;
    if x <= HullHi(files) {
      assert CoveredBy(files, x);
      var f :| f in files && f.Covers(x);
      assert !Meets(f, Some(lo), Some(hi));
    }
  }

  /** ... and a gap lets some range through: gap-freedom is exactly what is needed. */
  lemma {:induction false} GapLetsRangeThrough(files: Level)
    requires files != [] && forall f | f in files :: f.Lo() <= f.Hi()
    ensures NoGap(files) <==>
            forall lo, hi | lo <= hi && RangeAvoids(files, lo, hi) :: hi < HullLo(files) || HullHi(files) < lo
  {
    if NoGap(files) {
      forall lo, hi | lo <= hi && RangeAvoids(files, lo, hi)
        ensures hi < HullLo(files) || HullHi(files) < lo
      {
        AvoidsHull(files, lo, hi);
      }
    } else {
      var x :| HullLo(files) <= x <= HullHi(files) && !CoveredBy(files, x);
      forall f | f in files ensures !Meets(f, Some(x), Some(x)) {
        assert !f.Covers(x);
      }
      assert RangeAvoids(files, x, x);
    }
  }

  // ---------------------------------------------------------------- legal inputs

  ghost predicate Apart(f: FileMetaData, g: FileMetaData) {
    f.Hi() < g.Lo() || g.Hi() < f.Lo()
  }

  lemma {:induction false} DisjointMembers(files: Level, f: FileMetaData, g: FileMetaData)
    requires UserDisjoint(files) && f in files && g in files && f != g
    ensures Apart(f, g)
  {
  }

  lemma {:induction false} OrderedMembers(files: Level, f: FileMetaData, g: FileMetaData)
    requires Ordered(files) && f in files && g in files && f != g
    ensures KeysApart(f, g)
  {
  }

  lemma {:induction false} ApartKeys(f: FileMetaData, g: FileMetaData)
    requires Apart(f, g)
    ensures KeysApart(f, g)
  {
  }

  /** The levels of a version: from level 1 on sorted, and disjoint as ranges of internal keys.  A user key may
      be split over two files. */
  ghost predicate WellShaped(levels: Levels) {
    && |levels| == NUM_LEVELS
    && (forall i | 0 <= i < NUM_LEVELS :: AllValid(levels[i]))
    && (forall i | 1 <= i < NUM_LEVELS :: Ordered(levels[i]))
  }

  /** What every compaction knows of its inputs: all the files of level + 1 that meet the upper
      hull, and at level 0 no upper file left out that meets it. */
  ghost predicate LegalInputs(levels: Levels, c: Inputs) {
    && |levels| == NUM_LEVELS
    && c.level + 1 < NUM_LEVELS
    && c.upper != []
    && (forall f | f in c.upper :: f in levels[c.level])
    && c.lower == Meeting(levels[c.level + 1], Some(HullLo(c.upper)), Some(HullHi(c.upper)))
    && (c.level == 0 ==> forall f | f in levels[0] && MeetsHull(f, c.upper) :: f in c.upper)
  }

  /** A file left out at level + 1 has every file of the inputs on one and the same side, even when a user key
      is split between it and an input. */
  lemma {:induction false} LeftoverBeside(levels: Levels, c: Inputs, g: FileMetaData)
    requires WellShaped(levels) && LegalInputs(levels, c)
    requires g in levels[c.level + 1] && g !in c.lower
    ensures (forall f | f in c.upper + c.lower :: Less(g.largest, f.smallest))
         || (forall f | f in c.upper + c.lower :: Less(f.largest, g.smallest))
  {
    HullBounds(c.upper);
    MeetingMembers(levels[c.level + 1], Some(HullLo(c.upper)), Some(HullHi(c.upper)));
    MembersAreValid(levels[c.level + 1], levels[c.level + 1]);
    if g.Hi() < HullLo(c.upper) {
      forall f | f in c.upper + c.lower ensures Less(g.largest, f.smallest) {
        if f in c.lower {
          OrderedMembers(levels[c.level + 1], f, g);
        }
      }
    } else {
      forall f | f in c.upper + c.lower ensures Less(f.largest, g.smallest) {
        if f in c.lower {
          OrderedMembers(levels[c.level + 1], f, g);
        }
      }
    }
  }

  /** Where no user key is split at level + 1, the files left out there stay clear of the whole hull, gaps included. */
  lemma {:induction false} LeftoversAvoidHull(levels: Levels, c: Inputs, g: FileMetaData)
    requires WellShaped(levels) && LegalInputs(levels, c) && UserDisjoint(levels[c.level + 1])
    requires g in levels[c.level + 1] && g !in c.lower
    ensures g.Hi() < HullLo(c.upper + c.lower) || HullHi(c.upper + c.lower) < g.Lo()
  {
    var all := c.upper + c.lower;
    HullBounds(c.upper);
    HullBounds(all);
    MeetingMembers(levels[c.level + 1], Some(HullLo(c.upper)), Some(HullHi(c.upper)));
    MembersAreValid(levels[c.level + 1], levels[c.level + 1]);
    if g.Hi() < HullLo(c.upper) {
      var f :| f in all && f.Lo() == HullLo(all);
      if f in c.lower {
        DisjointMembers(levels[c.level + 1], f, g);
      }
    } else {
      var f :| f in all && f.Hi() == HullHi(all);
      if f in c.lower {
        DisjointMembers(levels[c.level + 1], f, g);
      }
    }
  }

  /** `g` goes on with the user key that `f` ends with. */
  ghost predicate Continues(f: FileMetaData, g: FileMetaData) {
    f.Hi() == g.Lo() && Less(f.largest, g.smallest)
  }

  /** No file left at the level of an input goes on with the last user key of that input. */
  ghost predicate EndsKeys(levels: Levels, c: Inputs)
    requires c.level + 1 < |levels|
  {
    && (forall f, g | f in c.upper && g in levels[c.level] && g !in c.upper :: !Continues(f, g))
    && (forall f, g | f in c.lower && g in levels[c.level + 1] && g !in c.lower :: !Continues(f, g))
  }

  // ---------------------------------------------------------------- SetupOtherInputs

  /** The closure of a range at level 0, once taken, leaves no level-0 file meeting its hull out. */
  lemma {:induction false} ClosureIsClosedUnderHull(files: Level, inputs: Level, b: Bound, e: Bound)
    requires Closed(files, b, e) && inputs == Meeting(files, b, e) && inputs != []
    ensures forall f | f in files && MeetsHull(f, inputs) :: f in inputs
  {
    MeetingMembers(files, b, e);
    HullBounds(inputs);
  }

  /** Re-collecting the upper files over the whole hull keeps it gap-free. */
  lemma {:induction false} ExpansionHasNoGap(level: nat, files: Level, all: Level, expanded: Level, b: Bound, e: Bound, lower: Level)
    requires all != [] && NoGap(all) && expanded == Meeting(files, b, e)
    requires forall f | f in all :: f in expanded || f in lower
    requires forall f | f in lower :: f in all
    requires expanded != []
    requires if level > 0 then b == Some(HullLo(all)) && e == Some(HullHi(all))
             else Closed(files, b, e) && Widens(Some(HullLo(all)), Some(HullHi(all)), b, e)
                  && Filled(files, Some(HullLo(all)), Some(HullHi(all)), b, e)
    requires forall f | f in files :: f.Lo() <= f.Hi()
    ensures NoGap(expanded + lower)
  {
    MeetingMembers(files, b, e);
    HullBounds(all);
    assert forall f :: f in expanded + lower <==> f in expanded || f in lower;
    if level > 0 {
      NoGapGrows(all, expanded);
      assert forall f :: f in all + expanded <==> f in expanded + lower;
      SameHull(all + expanded, expanded + lower);
    } else {
      HullBounds(expanded + lower);
      forall x | HullLo(expanded + lower) <= x <= HullHi(expanded + lower) ensures CoveredBy(expanded + lower, x) {
        if HullLo(all) <= x <= HullHi(all) {
          assert CoveredBy(all, x);
          var f :| f in all && f.Covers(x);
          assert f in expanded + lower;
        } else {
          assert InRange(x, b, e);
          assert CoveredBy(files, x);
          var f :| f in files && f.Covers(x);
          assert f in expanded + lower;
        }
      }
    }
  }

  lemma {:induction false} MembersAreValid(part: Level, files: Level)
    requires AllValid(files) && forall f | f in part :: f in files
    ensures AllValid(part)
    ensures forall f | f in part :: f.Lo() <= f.Hi()
  {
    forall i | 0 <= i < |part| ensures part[i].Valid() {
      assert part[i] in part;
    }
    forall f | f in part ensures f.Lo() <= f.Hi() {
      assert f.Valid();
      FileBounds(f, f.entries[0]);
    }
  }

  ghost predicate Around(files: Level, b: Bound, e: Bound)
    requires files != []
  {
    (b.Some? ==> b.value <= HullLo(files)) && (e.Some? ==> HullHi(files) <= e.value)
  }

  lemma {:induction false} MeetingContains(files: Level, part: Level, all: Level, b: Bound, e: Bound)
    requires all != [] && Around(all, b, e)
    requires forall f | f in part :: f in files && f in all && f.Lo() <= f.Hi()
    ensures forall f | f in part :: f in Meeting(files, b, e)
  {
    MeetingMembers(files, b, e);
    HullBounds(all);
  }

  /** Whatever meets the hull of `part` meets the hull of a larger set. */
  lemma {:induction false} HullGrows(part: Level, whole: Level, f: FileMetaData)
    requires part != [] && whole != [] && forall g | g in part :: g in whole
    requires MeetsHull(f, part)
    ensures MeetsHull(f, whole)
  {
    HullBounds(part);
    HullBounds(whole);
    var low :| low in part && low.Lo() == HullLo(part);
    var high :| high in part && high.Hi() == HullHi(part);
    assert low in whole && high in whole;
  }

  /** How [b, e] comes out of GetOverlappingInputs when started from the hull of `all`. */
  ghost predicate CollectedAround(level: nat, files: Level, all: Level, b: Bound, e: Bound)
    requires all != []
  {
    if level > 0 then b == Some(HullLo(all)) && e == Some(HullHi(all))
    else IsClosure(files, Some(HullLo(all)), Some(HullHi(all)), b, e)
         && Filled(files, Some(HullLo(all)), Some(HullHi(all)), b, e)
  }

  /** The expanded upper files keep the old ones and, at level 0, stay closed. */
  lemma {:induction false} ExpansionKeepsUpper(level: nat, files: Level, inputs0: Level, all: Level, expanded0: Level, b: Bound, e: Bound)
    requires AllValid(files) && all != []
    requires forall f | f in inputs0 :: f in files && f in all
    requires expanded0 == Meeting(files, b, e) && expanded0 != []
    requires CollectedAround(level, files, all, b, e)
    ensures forall f | f in expanded0 :: f in files
    ensures forall f | f in inputs0 :: f in expanded0
    ensures level == 0 ==> forall f | f in files && MeetsHull(f, expanded0) :: f in expanded0
  {
    MeetingMembers(files, b, e);
    MembersAreValid(files, files);
    MeetingContains(files, inputs0, all, b, e);
    if level == 0 {
      ClosureIsClosedUnderHull(files, expanded0, b, e);
    }
  }

  /** Expanding the upper files, and then collecting the lower ones, leaves no gap. */
  lemma {:induction false} ExpansionKeepsNoGap(level: nat, files: Level, lowerFiles: Level, inputs0: Level, inputs1: Level,
                            expanded0: Level, expanded1: Level, b: Bound, e: Bound)
    requires AllValid(files) && inputs0 != [] && NoGap(inputs0 + inputs1)
    requires forall f | f in inputs0 :: f in expanded0
    requires expanded0 == Meeting(files, b, e) && expanded0 != []
    requires CollectedAround(level, files, inputs0 + inputs1, b, e)
    requires inputs1 == Meeting(lowerFiles, Some(HullLo(inputs0)), Some(HullHi(inputs0)))
    requires expanded1 == Meeting(lowerFiles, Some(HullLo(expanded0)), Some(HullHi(expanded0)))
    ensures NoGap(expanded0 + expanded1)
  {
    MembersAreValid(files, files);
    MeetingMembers(lowerFiles, Some(HullLo(inputs0)), Some(HullHi(inputs0)));
    MeetingMembers(lowerFiles, Some(HullLo(expanded0)), Some(HullHi(expanded0)));
    forall f | f in inputs1 ensures f in expanded1 {
      HullGrows(inputs0, expanded0, f);
    }
    ExpansionHasNoGap(level, files, inputs0 + inputs1, expanded0, b, e, inputs1);
    LowerKeepsNoGap(expanded0, inputs1, expanded1);
  }

  lemma {:induction false} LowerKeepsNoGap(upper: Level, some: Level, lower: Level)
    requires upper != [] && NoGap(upper + some)
    requires forall f | f in some :: f in lower
    requires forall f | f in lower :: MeetsHull(f, upper)
    ensures NoGap(upper + lower)
  {
    HullBounds(upper);
    HullBounds(upper + some);
    forall f | f in lower ensures MeetsHull(f, upper + some) {
      var low :| low in upper && low.Lo() == HullLo(upper);
      var high :| high in upper && high.Hi() == HullHi(upper);
      assert low in upper + some && high in upper + some;
    }
    NoGapGrows(upper + some, lower);
    assert forall f :: f in (upper + some) + lower <==> f in upper + lower;
    SameHull((upper + some) + lower, upper + lower);
  }

  // ---------------------------------------------------------------- what exactly is picked

  /** The upper files grow to `expanded0` if that stays below the byte limit and takes in no further lower file. */
  ghost predicate GrowsTo(levels: Levels, c: Inputs, expanded0: Level, r: Inputs)
    requires c.level + 1 < |levels|
  {
    if |expanded0| > |c.upper| && TotalFileSize(c.lower) + TotalFileSize(expanded0) < EXPANDED_COMPACTION_BYTE_SIZE_LIMIT then
      var expanded1 := Meeting(levels[c.level + 1], Some(HullLo(expanded0)), Some(HullHi(expanded0)));
      r == if |expanded1| == |c.lower| then Inputs(c.level, expanded0, expanded1) else c
    else r == c
  }

  ghost predicate Expands(levels: Levels, c: Inputs, r: Inputs)
    requires c.level + 1 < |levels| && c.upper != []
  {
    var all := c.upper + c.lower;
    exists expanded0 ::
      && IsOverlapping(c.level, levels[c.level], Some(HullLo(all)), Some(HullHi(all)), expanded0)
      && GrowsTo(levels, c, expanded0, r)
  }

  ghost predicate SetsUp(levels: Levels, level: nat, inputs0: Level, r: Inputs)
    requires level + 1 < |levels| && inputs0 != []
  {
    var c := Inputs(level, inputs0, Meeting(levels[level + 1], Some(HullLo(inputs0)), Some(HullHi(inputs0))));
    if c.lower == [] then r == c else Expands(levels, c, r)
  }

  /** The files that a compaction of `first` starts from. */
  ghost predicate StartsFrom(levels: Levels, level: nat, first: FileMetaData, inputs0: Level)
    requires level < |levels|
  {
    if level == 0 then IsOverlapping(0, levels[0], Some(first.Lo()), Some(first.Hi()), inputs0) else inputs0 == [first]
  }

  /** PickCompaction, once the first file is chosen. */
  ghost predicate FirstPick(levels: Levels, level: nat, first: FileMetaData, r: Inputs)
    requires level + 1 < |levels|
  {
    && first in levels[level]
    && exists inputs0 :: StartsFrom(levels, level, first, inputs0) && inputs0 != [] && SetsUp(levels, level, inputs0, r)
  }

  /** How many files it takes to reach the target size, `total` being what the first `i` hold. */
  function EnoughFiles(files: Level, i: nat, total: nat): (n: nat)
    requires i <= |files|
    ensures i <= n <= |files| && (i < |files| ==> i < n)
    decreases |files| - i
  {
    if i == |files| then i
    else if total + files[i].fileSize >= TARGET_FILE_SIZE then i + 1
    else EnoughFiles(files, i + 1, total + files[i].fileSize)
  }

  /** The files up to the one with which they reach the target size. */
  function CutShort(files: Level): (r: Level)
    ensures files != [] ==> r != []
    ensures r <= files
  {
    files[..EnoughFiles(files, 0, 0)]
  }

  /** CompactRange. */
  ghost predicate RangePick(levels: Levels, level: nat, begin: Bound, end: Bound, r: Inputs)
    requires level + 1 < |levels|
  {
    exists found ::
      && IsOverlapping(level, levels[level], begin, end, found) && found != []
      && SetsUp(levels, level, if level > 0 then CutShort(found) else found, r)
  }

  /** The files two levels down that the compaction will come to lie over. */
  function Grandparents(levels: Levels, c: Inputs): Level
    requires c.upper != []
  {
    if c.level + 2 < |levels| then
      Meeting(levels[c.level + 2], Some(HullLo(c.upper + c.lower)), Some(HullHi(c.upper + c.lower)))
    else []
  }

  // ---------------------------------------------------------------- ... and what that is in terms of the levels

  /** Both bounds of a closure are determined. */
  lemma {:induction false} ClosureIsUnique(files: Level, begin: Bound, end: Bound, b: Bound, e: Bound, b': Bound, e': Bound)
    requires IsClosure(files, begin, end, b, e) && IsClosure(files, begin, end, b', e')
    ensures b == b' && e == e'
  {
    hide Closed;
    assert Widens(b, e, b', e') && Widens(b', e', b, e);
  }

  /** A wider range meets as many files exactly when it meets no other ones. */
  lemma {:induction false} MeetingCounts(files: Level, begin: Bound, end: Bound, b: Bound, e: Bound)
    requires Widens(begin, end, b, e)
    ensures |Meeting(files, begin, end)| <= |Meeting(files, b, e)|
    ensures |Meeting(files, begin, end)| == |Meeting(files, b, e)|
            <==> forall f | f in files && Meets(f, b, e) :: Meets(f, begin, end)
  {
    if files != [] {
      MeetingCounts(files[1..], begin, end, b, e);
      assert forall f :: f in files <==> f == files[0] || f in files[1..];
    }
  }

  lemma {:induction false} HullOfMore(some: Level, more: Level)
    requires some != [] && more != [] && forall f | f in some :: f in more
    ensures Widens(Some(HullLo(some)), Some(HullHi(some)), Some(HullLo(more)), Some(HullHi(more)))
  {
    HullBounds(some);
    HullBounds(more);
  }

  /** The first files are among those that meet the hull of all inputs. */
  lemma {:induction false} FirstAreAround(level: nat, files: Level, inputs0: Level, all: Level, wide: Level)
    requires AllValid(files) && all != [] && forall f | f in inputs0 :: f in files && f in all
    requires IsOverlapping(level, files, Some(HullLo(all)), Some(HullHi(all)), wide)
    ensures forall f | f in inputs0 :: f in wide
  {
    hide Closed;
    MembersAreValid(files, files);
    if level > 0 {
      MeetingContains(files, inputs0, all, Some(HullLo(all)), Some(HullHi(all)));
    } else {
      var b, e :| IsClosure(files, Some(HullLo(all)), Some(HullHi(all)), b, e) && wide == Meeting(files, b, e);
      MeetingContains(files, inputs0, all, b, e);
    }
  }

  lemma {:induction false} OverlappingIsUnique(level: nat, files: Level, begin: Bound, end: Bound, wide: Level, other: Level)
    requires IsOverlapping(level, files, begin, end, wide) && IsOverlapping(level, files, begin, end, other)
    ensures wide == other
  {
    hide IsClosure;
    if level == 0 {
      var b, e :| IsClosure(files, begin, end, b, e) && wide == Meeting(files, b, e);
      var b', e' :| IsClosure(files, begin, end, b', e') && other == Meeting(files, b', e');
      ClosureIsUnique(files, begin, end, b, e, b', e');
    }
  }

  lemma {:induction false} MeetsNoFurther(files: Level, some: Level, more: Level)
    requires some != [] && more != [] && forall f | f in some :: f in more
    ensures |Meeting(files, Some(HullLo(more)), Some(HullHi(more)))| == |Meeting(files, Some(HullLo(some)), Some(HullHi(some)))|
            <==> forall f | f in files && MeetsHull(f, more) :: MeetsHull(f, some)
  {
    hide HullLo, HullHi, Meeting, Meets;
    HullOfMore(some, more);
    var b, e, b', e' := Some(HullLo(some)), Some(HullHi(some)), Some(HullLo(more)), Some(HullHi(more));
    MeetingCounts(files, b, e, b', e');
    assert forall f :: MeetsHull(f, more) <==> Meets(f, b', e');
    assert forall f :: MeetsHull(f, some) <==> Meets(f, b, e);
  }

  /**
   * When inputs grow.  `wide` are the files of the level that meet the hull of the first inputs of both levels, at level 0
   * its closure.  If these are more than the first ones, come to less than 50 MB together with the files of level + 1, and
   * meet no other file of level + 1, all of them are taken; otherwise only the first ones.
   */
  lemma {:induction false} GrowsExactly(levels: Levels, level: nat, inputs0: Level, lower: Level, wide: Level, c: Inputs)
    requires WellShaped(levels) && level + 1 < NUM_LEVELS
    requires inputs0 != [] && forall f | f in inputs0 :: f in levels[level]
    requires SetsUp(levels, level, inputs0, c)
    requires lower == Meeting(levels[level + 1], Some(HullLo(inputs0)), Some(HullHi(inputs0)))
    requires var lo, hi := Some(HullLo(inputs0 + lower)), Some(HullHi(inputs0 + lower));
             if level > 0 then wide == Meeting(levels[level], lo, hi)
             else exists b, e :: IsClosure(levels[0], lo, hi, b, e) && wide == Meeting(levels[0], b, e)
    ensures c.level == level && c.upper != []
    ensures c.lower == Meeting(levels[level + 1], Some(HullLo(c.upper)), Some(HullHi(c.upper)))
    ensures c.upper == if lower != [] && |wide| > |inputs0| && TotalFileSize(lower) + TotalFileSize(wide) < 50 * 1048576
                          && forall f | f in levels[level + 1] && MeetsHull(f, wide) :: MeetsHull(f, inputs0)
                       then wide else inputs0
  {
    hide IsClosure, HullLo, HullHi, Meeting, TotalFileSize, Meets, Ordered;
    var files, all := levels[level], inputs0 + lower;
    if lower != [] {
      var lo, hi := Some(HullLo(all)), Some(HullHi(all));
      var expanded0 :| IsOverlapping(level, files, lo, hi, expanded0) && GrowsTo(levels, Inputs(level, inputs0, lower), expanded0, c);
      OverlappingIsUnique(level, files, lo, hi, wide, expanded0);
      FirstAreAround(level, files, inputs0, all, wide);
      if |wide| > |inputs0| {
        MeetsNoFurther(levels[level + 1], inputs0, wide);
      }
    }
  }

  /** PickCompaction starts from its first file alone, at level 0 from the closure of its range. */
  lemma {:induction false} PickStartsExactly(levels: Levels, level: nat, first: FileMetaData, c: Inputs)
    requires level + 1 < |levels| && FirstPick(levels, level, first, c)
    ensures level > 0 ==> SetsUp(levels, level, [first], c)
    ensures level == 0 ==>
      forall b, e | IsClosure(levels[0], Some(first.Lo()), Some(first.Hi()), b, e) ::
        Meeting(levels[0], b, e) != [] && SetsUp(levels, 0, Meeting(levels[0], b, e), c)
  {
    hide SetsUp, IsClosure;
    var inputs0 :| StartsFrom(levels, level, first, inputs0) && inputs0 != [] && SetsUp(levels, level, inputs0, c);
    if level == 0 {
      var b, e :| IsClosure(levels[0], Some(first.Lo()), Some(first.Hi()), b, e) && inputs0 == Meeting(levels[0], b, e);
      forall b', e' | IsClosure(levels[0], Some(first.Lo()), Some(first.Hi()), b', e') ensures b' == b && e' == e {
        ClosureIsUnique(levels[0], Some(first.Lo()), Some(first.Hi()), b, e, b', e');
      }
    }
  }

  /** CompactRange starts, above level 0, from as many of the files meeting the request as it takes to reach 2 MB. */
  lemma {:induction false} RangeStartsExactly(levels: Levels, level: nat, begin: Bound, end: Bound, n: nat, c: Inputs)
    requires level + 1 < |levels| && RangePick(levels, level, begin, end, c)
    requires level > 0
    requires var found := Meeting(levels[level], begin, end);
             && n < |found| && TotalFileSize(found[..n]) < 2 * 1048576
             && (n + 1 == |found| || TotalFileSize(found[..n + 1]) >= 2 * 1048576)
    ensures SetsUp(levels, level, Meeting(levels[level], begin, end)[..n + 1], c)
  {
    hide SetsUp;
    EnoughAre(Meeting(levels[level], begin, end), 0, 0, n);
  }

  lemma {:induction false} EnoughAre(files: Level, i: nat, total: nat, n: nat)
    requires i <= n < |files| && total == TotalFileSize(files[..i]) && TotalFileSize(files[..n]) < TARGET_FILE_SIZE
    requires n + 1 == |files| || TotalFileSize(files[..n + 1]) >= TARGET_FILE_SIZE
    ensures EnoughFiles(files, i, total) == n + 1
    decreases |files| - i
  {
    hide TotalFileSize;
    OneMoreSize(files, i);
    if i < n {
      SizesAscend(files, i + 1, n);
      EnoughAre(files, i + 1, total + files[i].fileSize, n);
    }
  }

  lemma {:induction false} OneMoreSize(files: Level, i: nat)
    requires i < |files|
    ensures TotalFileSize(files[..i + 1]) == TotalFileSize(files[..i]) + files[i].fileSize
  {
    assert files[..i + 1] == files[..i] + [files[i]];
    SizesAdd(files[..i], [files[i]]);
    SizesAdd([files[i]], []);
  }

  lemma {:induction false} SizesAscend(files: Level, i: nat, n: nat)
    requires i <= n <= |files|
    ensures TotalFileSize(files[..i]) <= TotalFileSize(files[..n])
  {
    assert files[..n] == files[..i] + files[i..n];
    SizesAdd(files[..i], files[i..n]);
  }

  /** At level 0 it starts from all files meeting the closure of the request. */
  lemma {:induction false} RangeStartsAtZero(levels: Levels, begin: Bound, end: Bound, b: Bound, e: Bound, c: Inputs)
    requires 1 < |levels| && RangePick(levels, 0, begin, end, c) && IsClosure(levels[0], begin, end, b, e)
    ensures Meeting(levels[0], b, e) != [] && SetsUp(levels, 0, Meeting(levels[0], b, e), c)
  {
    hide SetsUp, IsClosure;
    var found :| IsOverlapping(0, levels[0], begin, end, found) && found != [] && SetsUp(levels, 0, found, c);
    assert IsOverlapping(0, levels[0], begin, end, Meeting(levels[0], b, e));
    OverlappingIsUnique(0, levels[0], begin, end, found, Meeting(levels[0], b, e));
  }

  /** Grandparents are exactly the files two levels down that meet the hull of all inputs, and in order. */
  lemma {:induction false} GrandparentsAre(levels: Levels, c: Inputs)
    requires WellShaped(levels) && c.upper != []
    ensures forall f :: f in Grandparents(levels, c) <==>
              c.level + 2 < NUM_LEVELS && f in levels[c.level + 2] && MeetsHull(f, c.upper + c.lower)
    ensures AllValid(Grandparents(levels, c)) && Ordered(Grandparents(levels, c))
  {
    if c.level + 2 < NUM_LEVELS {
      var lo, hi := Some(HullLo(c.upper + c.lower)), Some(HullHi(c.upper + c.lower));
      MeetingMembers(levels[c.level + 2], lo, hi);
      MeetingIsOrdered(levels[c.level + 2], lo, hi);
    }
  }

  lemma {:induction false} TailIsOrdered(files: Level)
    requires AllValid(files) && Ordered(files) && files != []
    ensures AllValid(files[1..]) && Ordered(files[1..])
  {
  }

  lemma {:induction false} FrontIsOrdered(f: FileMetaData, behind: Level, rest: Level)
    requires AllValid([f] + behind) && Ordered([f] + behind)
    requires AllValid(rest) && Ordered(rest) && forall g | g in rest :: g in behind
    ensures AllValid([f] + rest) && Ordered([f] + rest)
  {
    var all, r := [f] + behind, [f] + rest;
    assert all[0] == f;
    forall j | 0 <= j < |rest| ensures Less(f.largest, rest[j].smallest) {
      assert rest[j] in behind;
      var k :| 0 <= k < |behind| && behind[k] == rest[j];
      assert all[k + 1] == rest[j];
    }
  }

  lemma {:induction false} MeetingIsOrdered(files: Level, begin: Bound, end: Bound)
    requires AllValid(files) && Ordered(files)
    ensures AllValid(Meeting(files, begin, end)) && Ordered(Meeting(files, begin, end))
  {
    hide AllValid, Ordered, Meets;
    if files != [] {
      TailIsOrdered(files);
      MeetingIsOrdered(files[1..], begin, end);
      MeetingMembers(files[1..], begin, end);
      assert [files[0]] + files[1..] == files;
      FrontIsOrdered(files[0], files[1..], Meeting(files[1..], begin, end));
    } else {
      NoneAreOrdered(files);
    }
  }

  lemma {:induction false} NoneAreOrdered(files: Level)
    requires files == []
    ensures AllValid(files) && Ordered(files)
  {
  }

  /** Tries to take in more files of `level` without taking in more of level + 1. */
  method TryExpand(levels: Levels, c: Inputs, allStart: UserKey, allLimit: UserKey, largest: InternalKey)
    returns (r: Inputs, pointer: InternalKey)
    requires WellShaped(levels) && LegalInputs(levels, c)
    requires allStart == HullLo(c.upper + c.lower) && allLimit == HullHi(c.upper + c.lower)
    requires largest.user == HullHi(c.upper)
    ensures LegalInputs(levels, r) && r.level == c.level
    ensures forall f | f in c.upper :: f in r.upper
    ensures |r.lower| == |c.lower|
    ensures NoGap(c.upper + c.lower) ==> NoGap(r.upper + r.lower)
    ensures pointer.user == HullHi(r.upper)
    ensures Expands(levels, c, r)
  {
    r, pointer := c, largest;
    var upperFiles, lowerFiles := levels[c.level], levels[c.level + 1];
    var expanded0, b, e := GetOverlappingInputs(c.level, upperFiles, Some(allStart), Some(allLimit));
    if |expanded0| > |c.upper|
       && TotalFileSize(c.lower) + TotalFileSize(expanded0) < EXPANDED_COMPACTION_BYTE_SIZE_LIMIT
    {
      ExpansionKeepsUpper(c.level, upperFiles, c.upper, c.upper + c.lower, expanded0, b, e);
      MembersAreValid(expanded0, upperFiles);
      var newStart, newLimit := GetRange(expanded0);
      var expanded1, _, _ := GetOverlappingInputs(c.level + 1, lowerFiles, Some(newStart.user), Some(newLimit.user));
      if |expanded1| == |c.lower| {
        if NoGap(c.upper + c.lower) {
          ExpansionKeepsNoGap(c.level, upperFiles, lowerFiles, c.upper, c.lower, expanded0, expanded1, b, e);
        }
        r, pointer := Inputs(c.level, expanded0, expanded1), newLimit;
      }
    }
    assert GrowsTo(levels, c, expanded0, r);
  }

  lemma {:induction false} LegalInputsAreValid(levels: Levels, c: Inputs)
    requires WellShaped(levels) && LegalInputs(levels, c)
    ensures AllValid(c.upper) && AllValid(c.lower) && AllValid(c.upper + c.lower)
    ensures forall f | f in c.lower :: f in levels[c.level + 1] && MeetsHull(f, c.upper)
  {
    MembersAreValid(c.upper, levels[c.level]);
    MeetingMembers(levels[c.level + 1], Some(HullLo(c.upper)), Some(HullHi(c.upper)));
    MembersAreValid(c.lower, levels[c.level + 1]);
  }

  /** Collects the files of level + 1 and, where that pulls in no further file of level + 1 and
      stays below the byte limit, more files of `level`. */
  method SetupOtherInputs(levels: Levels, level: nat, inputs0: Level)
    returns (c: Inputs, grandparents: Level, pointer: InternalKey)
    requires WellShaped(levels) && level + 1 < NUM_LEVELS
    requires inputs0 != [] && forall f | f in inputs0 :: f in levels[level]
    requires level == 0 ==> forall f | f in levels[0] && MeetsHull(f, inputs0) :: f in inputs0
    ensures LegalInputs(levels, c) && c.level == level
    ensures forall f | f in inputs0 :: f in c.upper
    ensures NoGap(inputs0) ==> NoGap(c.upper + c.lower)
    ensures SetsUp(levels, level, inputs0, c)
    ensures grandparents == Grandparents(levels, c)
    ensures pointer.user == HullHi(c.upper)
  {
    hide Expands, NoGap, IsOverlapping, HullLo, HullHi, Ordered, IsClosure, Filled;
    MembersAreValid(inputs0, levels[level]);
    var smallest, largest := GetRange(inputs0);
    pointer := largest;
    var inputs1, _, _ := GetOverlappingInputs(level + 1, levels[level + 1], Some(smallest.user), Some(largest.user));
    c := Inputs(level, inputs0, inputs1);
    LegalInputsAreValid(levels, c);
    var allStart, allLimit := GetRange(inputs0 + inputs1);
    if NoGap(inputs0) {
      NoGapGrows(inputs0, inputs1);
    }
    if inputs1 != [] {
      c, pointer := TryExpand(levels, c, allStart.user, allLimit.user, largest);
      LegalInputsAreValid(levels, c);
      allStart, allLimit := GetRange(c.upper + c.lower);
    }
    grandparents := [];
    if level + 2 < NUM_LEVELS {
      var overlaps, _, _ := GetOverlappingInputs(level + 2, levels[level + 2], Some(allStart.user), Some(allLimit.user));
      grandparents := overlaps;
    }
  }

  /** The closure of a range no level-0 file meets is the range itself. */
  lemma {:induction false} ClosureOfNothing(files: Level, begin: Bound, end: Bound, b: Bound, e: Bound)
    requires IsClosure(files, begin, end, b, e)
    ensures (forall f | f in files :: !Meets(f, begin, end)) <==> Meeting(files, b, e) == []
  {
    MeetingMembers(files, b, e);
    if Meeting(files, b, e) == [] {
      forall f | f in files ensures !Meets(f, begin, end) {
        assert f !in Meeting(files, b, e);
      }
    } else {
      var g := Meeting(files, b, e)[0];
      assert g in Meeting(files, b, e);
      if !Meets(g, begin, end) {
        assert !Widens(b, e, begin, end) || !Meets(g, b, e);
        assert !Closed(files, begin, end);
      }
    }
  }

  // ---------------------------------------------------------------- PickCompaction, CompactRange

  /** The first file that ends after the compaction pointer, or the first file of the level. */
  method FileAfterPointer(files: Level, pointer: Option<InternalKey>) returns (f: FileMetaData)
    requires files != []
    ensures f in files
    ensures pointer.None? ==> f == files[0]
    ensures pointer.Some? && (exists g :: g in files && Less(pointer.value, g.largest)) ==>
      exists i :: 0 <= i < |files| && f == files[i] && Less(pointer.value, f.largest)
               && forall j | 0 <= j < i :: !Less(pointer.value, files[j].largest)
    ensures pointer.Some? && (forall g | g in files :: !Less(pointer.value, g.largest)) ==> f == files[0]
  {
    var i := 0;
    while i < |files|
      invariant i <= |files|
      invariant forall j | 0 <= j < i :: pointer.Some? && !Less(pointer.value, files[j].largest)
    {
      f := files[i];
      if pointer.None? || Less(pointer.value, f.largest) {
        return;
      }
      i := i + 1;
    }
    f := files[0];
  }

  /** PickCompaction once level and first file are chosen, by size or by seeks: the inputs are
      legal, hold the file, and leave no gap. */
  method PickCompaction(levels: Levels, level: nat, first: FileMetaData)
    returns (c: Inputs, grandparents: Level, pointer: InternalKey)
    requires WellShaped(levels) && level + 1 < NUM_LEVELS && first in levels[level]
    ensures LegalInputs(levels, c) && c.level == level && first in c.upper
    ensures NoGap(c.upper + c.lower)
    ensures FirstPick(levels, level, first, c)
    ensures grandparents == Grandparents(levels, c)
  {
    var inputs0 := [first];
    MembersAreValid(levels[level], levels[level]);
    MembersAreValid(inputs0, levels[level]);
    NoGapOfOne(first);
    if level == 0 {
      var smallest, largest := GetRange(inputs0);
      ghost var b, e;
      inputs0, b, e := GetOverlappingInputs(0, levels[0], Some(smallest.user), Some(largest.user));
      MeetingMembers(levels[0], b, e);
      assert first in inputs0;
      ClosureIsClosedUnderHull(levels[0], inputs0, b, e);
      ExpansionHasNoGap(0, levels[0], [first], inputs0, b, e, []);
      assert inputs0 + [] == inputs0;
    }
    assert StartsFrom(levels, level, first, inputs0);
    c, grandparents, pointer := SetupOtherInputs(levels, level, inputs0);
  }

  /** CompactRange: the files meeting a requested range, cut short at levels >= 1 once they are
      large enough. */
  method CompactRange(levels: Levels, level: nat, begin: Bound, end: Bound)
    returns (c: Option<Inputs>)
    requires WellShaped(levels) && level + 1 < NUM_LEVELS
    ensures c.None? <==> forall f | f in levels[level] :: !Meets(f, begin, end)
    ensures c.Some? ==> LegalInputs(levels, c.value) && c.value.level == level
    ensures c.Some? ==> RangePick(levels, level, begin, end, c.value)
  {
    var inputs, b, e := GetOverlappingInputs(level, levels[level], begin, end);
    ghost var found := inputs;
    MeetingMembers(levels[level], b, e);
    MembersAreValid(levels[level], levels[level]);
    if level == 0 {
      ClosureOfNothing(levels[0], begin, end, b, e);
    }
    if inputs == [] {
      c := None;
      return;
    }
    assert inputs[0] in inputs;
    if level == 0 {
      ClosureIsClosedUnderHull(levels[0], inputs, b, e);
    } else {
      inputs := TakeUpToTarget(inputs);
    }
    var r, _, _ := SetupOtherInputs(levels, level, inputs);
    c := Some(r);
  }

  /** The loop of CompactRange that avoids compacting too much in one go. */
  method TakeUpToTarget(inputs: Level) returns (r: Level)
    ensures r == CutShort(inputs)
  {
    var total: nat, i := 0, 0;
    while i < |inputs|
      invariant i <= |inputs| && EnoughFiles(inputs, 0, 0) == EnoughFiles(inputs, i, total)
    {
      total := total + inputs[i].fileSize;
      if total >= TARGET_FILE_SIZE {
        return inputs[..i + 1];
      }
      i := i + 1;
    }
    return inputs[..i];
  }
}
