/** Runs of the code that end with a wrong read: a split user key taken apart, and a flush into the range of an output. */
module StaleRuns {
  import opened Common
  import opened InternalKeys
  import opened Version
  import opened Ranges
  import opened CompactionInputs
  import opened CompactionWork
  import opened Builder
  import opened Tables
  import opened RunningCompaction
  import opened Database
  import opened DatabaseReads
  import opened CodedRuns

  /** The first levels of a version; the deeper ones are empty. */
  function Top(l0: Level, l1: Level, l2: Level): Levels { [l0, l1, l2, [], [], [], []] }

  function PutOp(k: UserKey, v: Payload): Op { Op(k, TypeValue, v) }

  function PutEntry(k: UserKey, s: SequenceNumber, v: Payload): Entry { Entry(InternalKey(k, s, TypeValue), v) }

  /** Blocks are flushed to the file once they hold 4 KB, uncompressed: a payload of that size counts at once. */
  const BLOCK_SIZE: nat := 4096

  ghost predicate CountsPayloads(sizes: Sizes) {
    && (forall es, e: Entry | |e.value| >= BLOCK_SIZE :: sizes.written(es + [e]) >= |e.value|)
    && (forall es :: sizes.finished(es) >= sizes.written(es))
  }

  /** A table of one or two entries without payload is small. */
  ghost predicate SmallTables(sizes: Sizes) {
    && (forall es: seq<Entry> | |es| <= 2 && (forall e | e in es :: e.value == "") :: sizes.finished(es) < TARGET_FILE_SIZE)
    && (forall es :: sizes.finished(es) >= sizes.written(es))
  }

  // ---------------------------------------------------------------- single steps on known levels

  lemma {:induction false} OneEntryMem(first: nat, op: Op)
    requires first < MAX_SEQUENCE
    ensures AddOps([], first, [op]) == [Entry(InternalKey(op.key, first, op.kind), op.value)]
  {
    var e := Entry(InternalKey(op.key, first, op.kind), op.value);
    assert [op][1..] == [];
    assert MemInsert([], e) == [e] + [];
    assert AddOps([e], first + 1, []) == [e];
  }

  /** A newer version of the one key of a memtable goes in front. */
  lemma {:induction false} NewerInFront(e: Entry, first: nat, op: Op)
    requires first < MAX_SEQUENCE && e.key.user == op.key && e.key.sequence < first
    ensures AddOps([e], first, [op]) == [Entry(InternalKey(op.key, first, op.kind), op.value), e]
  {
    var n := Entry(InternalKey(op.key, first, op.kind), op.value);
    assert [op][1..] == [];
    assert Less(n.key, e.key);
    assert MemInsert([e], n) == [n] + [e];
    assert AddOps([n, e], first + 1, []) == [n, e];
  }

  /** Two keys in order. */
  lemma {:induction false} TwoKeys(first: nat, a: Op, b: Op)
    requires first + 1 < MAX_SEQUENCE && a.key < b.key
    ensures AddOps([], first, [a, b])
         == [Entry(InternalKey(a.key, first, a.kind), a.value), Entry(InternalKey(b.key, first + 1, b.kind), b.value)]
  {
    var x, y := Entry(InternalKey(a.key, first, a.kind), a.value), Entry(InternalKey(b.key, first + 1, b.kind), b.value);
    assert [a, b][1..] == [b] && [b][1..] == [];
    assert MemInsert([], x) == [x] + [];
    assert [x][1..] == [];
    assert MemInsert([x], y) == [x] + MemInsert([], y) == [x, y];
    assert AddOps([x, y], first + 2, []) == [x, y];
    assert AddOps([x], first + 1, [b]) == AddOps([x, y], first + 2, []);
  }

  /** A table that meets nothing goes to level 2. */
  lemma {:induction false} GoesToTwo(l2: Level, lo: UserKey, hi: UserKey, l1: Level)
    requires forall f | f in l1 :: !Meets(f, Some(lo), Some(hi))
    requires forall f | f in l2 :: !Meets(f, Some(lo), Some(hi))
    ensures IsFlushLevel(Top([], l1, l2), lo, hi, 2)
  {
    var levels := Top([], l1, l2);
    NoneMeets(l2, lo, hi);
    assert Meeting([], Some(lo), Some(hi)) == [];
    forall l: nat | l < 2 ensures MayPush(levels, l, lo, hi) {
      assert levels[l + 2] == if l == 0 then l2 else [];
    }
  }

  lemma {:induction false} NoneMeets(files: Level, lo: UserKey, hi: UserKey)
    requires forall f | f in files :: !Meets(f, Some(lo), Some(hi))
    ensures Meeting(files, Some(lo), Some(hi)) == [] && TotalFileSize(Meeting(files, Some(lo), Some(hi))) == 0
  {
    if files != [] {
      NoneMeets(files[1..], lo, hi);
    }
  }

  lemma {:induction false} AllMeet(files: Level)
    ensures Meeting(files, None, None) == files
  {
    if files != [] {
      AllMeet(files[1..]);
    }
  }

  /** A table that meets a file of level 2, and a few bytes of level 2 in all, stays at level 1. */
  lemma {:induction false} StaysAtOne(l1: Level, l2: Level, lo: UserKey, hi: UserKey, f: FileMetaData)
    requires forall g | g in l1 :: !Meets(g, Some(lo), Some(hi))
    requires f in l2 && Meets(f, Some(lo), Some(hi))
    requires TotalFileSize(Meeting(l2, Some(lo), Some(hi))) <= MAX_GRANDPARENT_OVERLAP_BYTES
    ensures IsFlushLevel(Top([], l1, l2), lo, hi, 1)
  {
    var levels := Top([], l1, l2);
    assert levels[2] == l2 && levels[1] == l1;
    assert MayPush(levels, 0, lo, hi);
    assert OverlapInLevel(levels[2], lo, hi);
  }

  // ---------------------------------------------------------------- a split key taken apart

  const K: UserKey := 0.0
  const J: UserKey := 1.0

  /** K is written under sequence 2, then with `older` under 4 and `newer` under 5; J, behind it, under 1 and 3. */
  datatype Split = Split(older: Payload, newer: Payload, sizes: Sizes) {
    function J1(): Entry { PutEntry(J, 1, "") }
    function K2(): Entry { PutEntry(K, 2, "") }
    function J3(): Entry { PutEntry(J, 3, "") }
    function K4(): Entry { PutEntry(K, 4, older) }
    function K5(): Entry { PutEntry(K, 5, newer) }

    function Table(number: nat, es: seq<Entry>): FileMetaData
      requires es != []
    {
      OutputFile(number, sizes.finished(es), es)
    }

    /** The flushed tables. */
    function A(): FileMetaData { Table(5, [J1()]) }
    function B(): FileMetaData { Table(7, [K2(), J3()]) }
    function C(): FileMetaData { Table(9, [K5(), K4()]) }

    /** What the compaction of level 0 leaves. */
    function D1(): FileMetaData { Table(10, [K5()]) }
    function D2(): FileMetaData { Table(11, [K4()]) }
    function D3(): FileMetaData { Table(12, [J3()]) }

    /** What the compaction of the first of these leaves. */
    function E(): FileMetaData { Table(13, [K5()]) }

    function FlushedLevels(): Levels { Top([C()], [B()], [A()]) }
    function SplitLevels(): Levels { Top([], [D1(), D2(), D3()], [A()]) }
    function ApartLevels(): Levels { Top([], [D2(), D3()], [E(), A()]) }

    function Merged(): seq<Entry> { [K5(), K4(), K2(), J3()] }

    function First(): Running {
      Running(Inputs(0, [C()], [B()]), true, 4, FlushedLevels(), Merged(), [D1(), D2(), D3()])
    }

    function Second(): Running {
      Running(Inputs(1, [D1()], []), true, 4, SplitLevels(), [K5()], [E()])
    }

    /** Both payloads fill an output of their own. */
    ghost predicate Big() {
      && |older| >= TARGET_FILE_SIZE && |newer| >= TARGET_FILE_SIZE && older != newer
      && CountsPayloads(sizes) && SmallTables(sizes)
    }
  }

  /** Two memtables are flushed: to level 2, and above that to level 1. */
  lemma {:induction false} FlushTwo(w: Split) returns (run: Run)
    requires w.Big()
    ensures run.Ok(w.sizes) && Quiet(run.Last())
    ensures var st := run.Last();
            && st.levels == Top([], [w.B()], [w.A()]) && st.mem == [] && st.running == None && st.snapshots == []
            && st.nextFile == 8 && st.lastSequence == 3 && st.history == [PutOp(J, ""), PutOp(K, ""), PutOp(J, "")]
  {
    hide Run.Ok, Quiet, IsFlushLevel, Install, AddOps, Split.Big;
    run := Open(w.sizes);
    OneEntryMem(1, PutOp(J, ""));
    FirstFlushes(w);
    run := PutAndFlush(w.sizes, run, [PutOp(J, "")], [w.J1()], 2, Top([], [], [w.A()]));
    TwoKeys(2, PutOp(K, ""), PutOp(J, ""));
    SecondFlushes(w);
    run := PutAndFlush(w.sizes, run, [PutOp(K, ""), PutOp(J, "")], [w.K2(), w.J3()], 1, Top([], [w.B()], [w.A()]));
  }

  /** A third, with two versions of K that a snapshot keeps apart, goes to level 0. */
  lemma {:induction false} FlushThree(w: Split) returns (run: Run)
    requires w.Big()
    ensures run.Ok(w.sizes) && Quiet(run.Last())
    ensures var st := run.Last();
            && st.levels == w.FlushedLevels() && st.mem == [] && st.running == None && st.snapshots == [4] && st.nextFile == 10
            && st.history == [PutOp(J, ""), PutOp(K, ""), PutOp(J, ""), PutOp(K, w.older), PutOp(K, w.newer)]
  {
    hide Run.Ok, Quiet, IsFlushLevel, Install, AddOps, Split.Big;
    run := FlushTwo(w);
    run := Write(w.sizes, run, [PutOp(K, w.older)]);
    OneEntryMem(4, PutOp(K, w.older));
    run := CodedRuns.Snapshot(w.sizes, run);
    run := Write(w.sizes, run, [PutOp(K, w.newer)]);
    NewerInFront(w.K4(), 5, PutOp(K, w.newer));
    ThirdFlushes(w);
    run := SwitchAndFlush(w.sizes, run, 0);
  }

  lemma {:induction false} FirstFlushes(w: Split)
    ensures IsFlushLevel(Empty(), J, J, 2)
    ensures Install(Empty(), 2, LevelEdit({}, [w.A()])) == Top([], [], [w.A()])
  {
    assert Empty() == Top([], [], []);
    GoesToTwo([], J, J, []);
    SavedIs([], LevelEdit({}, [w.A()]), [w.A()]);
  }

  lemma {:induction false} OneMeets(a: FileMetaData, lo: UserKey, hi: UserKey)
    requires Meets(a, Some(lo), Some(hi))
    ensures Meeting([a], Some(lo), Some(hi)) == [a] && TotalFileSize([a]) == a.fileSize
  {
    assert [a][1..] == [];
    assert Meeting([a], Some(lo), Some(hi)) == [a] + Meeting([], Some(lo), Some(hi)) == [a];
    assert TotalFileSize([a]) == a.fileSize + TotalFileSize([]);
  }

  lemma {:induction false} SmallA(w: Split)
    requires w.Big()
    ensures w.A().fileSize < TARGET_FILE_SIZE
  {
    assert forall e | e in [w.J1()] :: e.value == "";
  }

  lemma {:induction false} SecondFlushes(w: Split)
    requires w.Big()
    ensures IsFlushLevel(Top([], [], [w.A()]), K, J, 1)
    ensures Install(Top([], [], [w.A()]), 1, LevelEdit({}, [w.B()])) == Top([], [w.B()], [w.A()])
  {
    hide IsFlushLevel, Split.Big;
    var a := w.A();
    OneMeets(a, K, J);
    SmallA(w);
    assert a in [a];
    StaysAtOne([], [a], K, J, a);
    InstalledAt(Top([], [], [a]), 1, w.B(), [w.B()]);
  }

  lemma {:induction false} ThirdFlushes(w: Split)
    ensures IsFlushLevel(Top([], [w.B()], [w.A()]), K, K, 0)
    ensures Install(Top([], [w.B()], [w.A()]), 0, LevelEdit({}, [w.C()])) == w.FlushedLevels()
  {
    var levels := Top([], [w.B()], [w.A()]);
    assert levels[1] == [w.B()] && w.B() in [w.B()];
    assert OverlapInLevel(levels[1], K, K);
    assert !MayPush(levels, 0, K, K);
    assert !OverlapInLevel(levels[0], K, K);
    SavedIs([], LevelEdit({}, [w.C()]), [w.C()]);
  }

  /** Such payloads and such a table builder exist. */
  lemma {:induction false} SomeSplit() returns (w: Split)
    ensures w.Big()
  {
    var sizes := Sizes(es => PayloadBytes(es), es => PayloadBytes(es) + 100);
    forall es, e: Entry | |e.value| >= BLOCK_SIZE ensures sizes.written(es + [e]) >= |e.value| {
      assert (es + [e])[..|es|] == es;
    }
    forall es: seq<Entry> | |es| <= 2 && (forall e | e in es :: e.value == "") ensures sizes.finished(es) < TARGET_FILE_SIZE {
      NoPayload(es);
    }
    w := Split(seq(TARGET_FILE_SIZE, _ => 'o'), seq(TARGET_FILE_SIZE, _ => 'n'), sizes);
    assert w.older[0] != w.newer[0];
  }

  function PayloadBytes(es: seq<Entry>): nat {
    if es == [] then 0 else PayloadBytes(es[..|es| - 1]) + |es[|es| - 1].value|
  }

  lemma {:induction false} NoPayload(es: seq<Entry>)
    requires forall e | e in es :: e.value == ""
    ensures PayloadBytes(es) == 0
  {
    if es != [] {
      NoPayload(es[..|es| - 1]);
    }
  }

  // The first compaction.

  lemma {:induction false} FirstIsPicked(w: Split)
    ensures ManualPick(w.FlushedLevels(), None, None, w.First().inputs)
    ensures LegalInputs(w.FlushedLevels(), w.First().inputs)
  {
    var levels, c := w.FlushedLevels(), w.First().inputs;
    var files, lower := [w.C()], [w.B()];
    assert files[1..] == [] && lower[1..] == [];
    assert Meeting([], None, None) == [] && Meeting([], Some(K), Some(J)) == [] && Meeting([], Some(K), Some(K)) == [];
    assert Meeting(files, None, None) == files && Meeting(files, Some(K), Some(J)) == files;
    assert Meeting(lower, Some(K), Some(K)) == lower;
    assert IsClosure(files, None, None, None, None);
    assert IsOverlapping(0, files, None, None, files);
    assert c.upper + c.lower == [w.C(), w.B()] && [w.C(), w.B()][1..] == lower;
    assert HullLo(lower) == K && HullHi(lower) == J;
    assert HullLo(c.upper + c.lower) == K && HullHi(c.upper + c.lower) == J;
    assert IsClosure(files, Some(K), Some(J), Some(K), Some(J));
    assert IsOverlapping(0, files, Some(K), Some(J), files);
    assert GrowsTo(levels, c, files, c);
    assert Expands(levels, c, c);
    assert SetsUp(levels, 0, files, c);
    assert RangePick(levels, 0, None, None, c);
    assert w.C() in files;
  }

  lemma {:induction false} FirstKeeps(w: Split)
    ensures var m, levels := w.Merged(), w.FlushedLevels();
            Keeps(levels, 0, m, 0, 4) && Keeps(levels, 0, m, 1, 4) && !Keeps(levels, 0, m, 2, 4) && Keeps(levels, 0, m, 3, 4)
  {
  }

  /** No key comes after more than 20 MB of grandparents: none comes after the one grandparent there is. */
  lemma {:induction false} NothingPassed(grandparents: Level, c: StopCursor, key: InternalKey)
    requires c.overlapped == 0 && (c.index < |grandparents| ==> !Less(grandparents[c.index].largest, key))
    ensures !TooMuchOverlap(grandparents, c, key) && AfterKey(grandparents, c, key) == StopCursor(c.index, true, 0)
  {
  }

  /** A payload of the target size closes the output it goes to. */
  lemma {:induction false} BigEntryCloses(t: Task, w: Writing, e: Entry)
    requires w.builder == [] && CountsPayloads(t.sizes) && |e.value| >= TARGET_FILE_SIZE
    ensures AddKept(t, w, e) == w.(outputs := w.outputs + [OutputFile(t.firstNumber + |w.outputs|, t.sizes.finished([e]), [e])])
  {
    assert [] + [e] == [e];
    assert t.sizes.written([] + [e]) >= |e.value|;
  }

  lemma {:induction false} FirstCuts(w: Split)
    requires w.Big()
    ensures Outputs(TaskOf(w.First(), w.sizes, 10)) == [w.D1(), w.D2(), w.D3()]
  {
    hide Keeps, Split.Big;
    var t := TaskOf(w.First(), w.sizes, 10);
    FirstGrandparents(w);
    FirstKeeps(w);
    var k := StopCursor(0, true, 0);
    NothingPassed(t.grandparents, StopCursor(0, false, 0), w.K5().key);
    NothingPassed(t.grandparents, k, w.K4().key);
    NothingPassed(t.grandparents, k, w.K2().key);
    NothingPassed(t.grandparents, k, w.J3().key);
    assert w.Big();
    BigParts(w);
    BigEntryCloses(t, Writing([], [], k), w.K5());
    assert Written(t, 0) == Writing([], [], StopCursor(0, false, 0));
    assert Written(t, 1) == Writing([w.D1()], [], k);
    BigEntryCloses(t, Writing([w.D1()], [], k), w.K4());
    assert Written(t, 2) == Writing([w.D1(), w.D2()], [], k);
    assert Written(t, 3) == Writing([w.D1(), w.D2()], [], k);
    SmallEntryGoesLast(t, Writing([w.D1(), w.D2()], [], k), w.J3());
    assert Written(t, 4) == AddKept(t, Writing([w.D1(), w.D2()], [], k), w.J3());
  }

  lemma {:induction false} BigParts(w: Split)
    requires w.Big()
    ensures CountsPayloads(w.sizes) && |w.K5().value| >= TARGET_FILE_SIZE && |w.K4().value| >= TARGET_FILE_SIZE
  {
  }

  lemma {:induction false} SmallEntryGoesLast(t: Task, w: Writing, e: Entry)
    requires w.builder == []
    ensures Close(t, AddKept(t, w, e)).outputs
         == w.outputs + [OutputFile(t.firstNumber + |w.outputs|, t.sizes.finished([e]), [e])]
  {
    assert [] + [e] == [e];
  }

  lemma {:induction false} FirstGrandparents(w: Split)
    ensures Grandparents(w.FlushedLevels(), w.First().inputs) == [w.A()]
  {
    var c := w.First().inputs;
    assert c.upper + c.lower == [w.C(), w.B()] && [w.C(), w.B()][1..] == [w.B()];
    assert HullLo([w.B()]) == K && HullHi([w.B()]) == J;
    assert [w.A()][1..] == [] && Meeting([], Some(K), Some(J)) == [];
    assert Meeting([w.A()], Some(K), Some(J)) == [w.A()];
  }

  lemma {:induction false} FirstStarts(w: Split)
    requires w.Big()
    ensures Starts(w.First(), w.FlushedLevels(), 10)
  {
    hide Outputs, Split.Big, IsOutput, LegalInputs, NoGap;
    var r := w.First();
    FirstIsPicked(w);
    FirstCuts(w);
    OutputsAreKept(TaskOf(r, w.sizes, 10));
    hide EntriesOf;
    FirstMerges(w);
  }

  lemma {:induction false} FirstMerges(w: Split)
    ensures EntriesOf(w.First().All()) == SetOf(w.Merged())
  {
    assert w.First().All() == [w.C(), w.B()];
    FlattenMembers([w.C(), w.B()]);
    assert [w.C(), w.B()][1..] == [w.B()] && [w.B()][1..] == [];
    assert Flatten([w.B()]) == [w.K2(), w.J3()] + [];
    assert Flatten([w.C(), w.B()]) == [w.K5(), w.K4()] + [w.K2(), w.J3()] == w.Merged();
  }

  lemma {:induction false} FirstReplaces(w: Split)
    ensures Replace(w.FlushedLevels(), w.First()) == w.SplitLevels()
  {
    hide SaveLevel, Apply;
    OnlyOneLeaves(w.C());
    ThreeForOne(w.B(), w.D1(), w.D2(), w.D3());
    assert w.C() in [w.C()] && w.B() in [w.B()];
    assert Numbers([w.C()]) == {9} && Numbers([w.B()]) == {7};
    assert w.FlushedLevels()[0 := []][1 := [w.D1(), w.D2(), w.D3()]] == w.SplitLevels();
  }

  lemma {:induction false} OnlyOneLeaves(a: FileMetaData)
    ensures SaveLevel([a], Apply(LevelEdit({}, []), LevelEdit({a.number}, []))) == []
  {
    SavedIs([a], LevelEdit({a.number}, []), []);
  }

  lemma {:induction false} ThreeForOne(f: FileMetaData, a: FileMetaData, b: FileMetaData, c: FileMetaData)
    requires Before(a, b) && Before(b, c) && Before(a, c) && f.number < a.number < b.number < c.number
    ensures SaveLevel([f], Apply(LevelEdit({}, []), LevelEdit({f.number}, [a, b, c]))) == [a, b, c]
  {
    SavedIs([f], LevelEdit({f.number}, [a, b, c]), [a, b, c]);
  }

  // The second compaction, of the first of the three files.

  lemma {:induction false} SecondIsPicked(w: Split)
    requires w.Big()
    ensures ManualPick(w.SplitLevels(), None, None, w.Second().inputs)
    ensures LegalInputs(w.SplitLevels(), w.Second().inputs)
  {
    var levels, c := w.SplitLevels(), w.Second().inputs;
    var files := [w.D1(), w.D2(), w.D3()];
    AllMeet(files);
    BigEntry(w, w.K5());
    assert EnoughFiles(files, 0, 0) == 1 && CutShort(files) == [w.D1()];
    assert [w.A()][1..] == [] && Meeting([], Some(K), Some(K)) == [];
    assert Meeting([w.A()], Some(K), Some(K)) == [];
    assert SetsUp(levels, 1, [w.D1()], c);
    assert IsOverlapping(1, levels[1], None, None, files);
    assert RangePick(levels, 1, None, None, c);
    assert w.A() in levels[2] && Meets(w.A(), None, None);
    assert w.D1() in files;
  }

  lemma {:induction false} BigEntry(w: Split, e: Entry)
    requires w.Big() && |e.value| >= TARGET_FILE_SIZE
    ensures w.sizes.finished([e]) >= TARGET_FILE_SIZE
  {
    assert [] + [e] == [e];
    assert w.sizes.written([] + [e]) >= |e.value|;
  }

  lemma {:induction false} SecondCuts(w: Split)
    requires w.Big()
    ensures Outputs(TaskOf(w.Second(), w.sizes, 13)) == [w.E()]
  {
    var t := TaskOf(w.Second(), w.sizes, 13);
    assert Grandparents(w.SplitLevels(), w.Second().inputs) == [];
    NothingPassed(t.grandparents, StopCursor(0, false, 0), w.K5().key);
    assert Keeps(t.levels, 1, t.m, 0, 4);
    BigEntryCloses(t, Writing([], [], StopCursor(0, true, 0)), w.K5());
    assert Written(t, 0) == Writing([], [], StopCursor(0, false, 0));
    assert Written(t, 1) == Writing([w.E()], [], StopCursor(0, true, 0));
  }

  lemma {:induction false} SecondStarts(w: Split)
    requires w.Big()
    ensures Starts(w.Second(), w.SplitLevels(), 13)
  {
    hide Outputs, Split.Big, IsOutput, LegalInputs, NoGap;
    var r := w.Second();
    SecondIsPicked(w);
    SecondCuts(w);
    OutputsAreKept(TaskOf(r, w.sizes, 13));
    assert r.All() == [w.D1()];
    assert EntriesOf([w.D1()]) == SetOf([w.K5()]) by {
      assert w.D1() in [w.D1()] && w.D1().entries == [w.K5()];
    }
  }

  lemma {:induction false} SecondReplaces(w: Split)
    ensures Replace(w.SplitLevels(), w.Second()) == w.ApartLevels()
  {
    hide SaveLevel, Apply;
    FirstOfThreeLeaves(w.D1(), w.D2(), w.D3());
    EntersInFront(w.A(), w.E());
    assert w.D1() in [w.D1()] && Numbers([w.D1()]) == {10} && Numbers([]) == {};
    assert w.SplitLevels()[1 := [w.D2(), w.D3()]][2 := [w.E(), w.A()]] == w.ApartLevels();
  }

  lemma {:induction false} FirstOfThreeLeaves(a: FileMetaData, b: FileMetaData, c: FileMetaData)
    requires Before(a, b) && Before(b, c) && Before(a, c) && a.number != b.number && a.number != c.number
    ensures SaveLevel([a, b, c], Apply(LevelEdit({}, []), LevelEdit({a.number}, []))) == [b, c]
  {
    SavedIs([a, b, c], LevelEdit({a.number}, []), [b, c]);
  }

  lemma {:induction false} EntersInFront(a: FileMetaData, f: FileMetaData)
    requires Before(f, a) && a.number != f.number
    ensures SaveLevel([a], Apply(LevelEdit({}, []), LevelEdit({}, [f]))) == [f, a]
  {
    SavedIs([a], LevelEdit({}, [f]), [f, a]);
  }

  /** The search for K ends at the overwritten version, above the newer one. */
  lemma {:induction false} OlderIsFound(w: Split)
    ensures ProbeLevels(w.ApartLevels(), 0, K, 5) == Hit(w.K4())
  {
    var levels := w.ApartLevels();
    assert levels[0] == [] && levels[1] == [w.D2(), w.D3()];
    assert ProbeLevel(levels, 0, K, 5) == Miss;
    assert Lookup([w.K4()], K, 5) == Hit(w.K4());
    assert FindFileIndex(levels[1], SeekKey(K, 5)) == 0;
    assert ProbeLevel(levels, 1, K, 5) == Hit(w.K4());
    assert ProbeLevels(levels, 1, K, 5) == Hit(w.K4());
    assert ProbeLevels(levels, 0, K, 5) == ProbeLevels(levels, 1, K, 5);
  }

  lemma {:induction false} CodedCompaction(sizes: Sizes, st: State, r: Running)
    requires r.manual && ManualPick(st.levels, None, None, r.inputs) && r.inputs.upper != []
    requires r.outputs == Outputs(TaskOf(r, sizes, st.nextFile))
    ensures AsCoded(sizes, st, StartCompaction(r))
  {
  }

  /**
   * A run of the code that ends with Get returning an overwritten value: two versions of a key, both of them large and kept
   * by a snapshot between them, are written to an output each; DB::CompactRange goes on to the next level with the first of
   * the two files alone, as it has reached the target size.
   */
  lemma {:induction false} SplitKeyGivesStaleRead(w: Split) returns (run: Run)
    requires w.Big()
    ensures run.Ok(w.sizes)
    ensures var st := run.Last();
            && st.lastSequence == |st.history| == 5 && DatabaseReads.Readable(st, 5)
            && Found(DbGet(st, K, 5)) == Some(w.older)
            && K in MapAt(st.history, 5) && MapAt(st.history, 5)[K] == w.newer
            && !ReadsMap(st)
  {
    hide Run.Ok, Quiet, Install, AsCoded, Starts, Split.Big, Outputs, ManualPick, ProbeLevels, Replace, MapAt;
    run := FlushThree(w);
    FirstIsPicked(w);
    FirstCuts(w);
    FirstStarts(w);
    CodedCompaction(w.sizes, run.Last(), w.First());
    run := Start(w.sizes, run, w.First());
    FirstReplaces(w);
    run := CodedRuns.Finish(w.sizes, run);
    SecondIsPicked(w);
    SecondCuts(w);
    SecondStarts(w);
    CodedCompaction(w.sizes, run.Last(), w.Second());
    run := Start(w.sizes, run, w.Second());
    SecondReplaces(w);
    run := CodedRuns.Finish(w.sizes, run);
    QuietSequence(run.Last());
    WrongAnswer(w, run.Last());
  }

  lemma {:induction false} QuietSequence(st: State)
    requires Quiet(st)
    ensures st.lastSequence == |st.history|
  {
  }

  lemma {:induction false} WrongAnswer(w: Split, st: State)
    requires w.Big() && Quiet(st) && st.levels == w.ApartLevels() && st.mem == [] && st.lastSequence == 5
    requires st.history == [PutOp(J, ""), PutOp(K, ""), PutOp(J, ""), PutOp(K, w.older), PutOp(K, w.newer)]
    ensures DatabaseReads.Readable(st, 5) && Found(DbGet(st, K, 5)) == Some(w.older)
    ensures K in MapAt(st.history, 5) && MapAt(st.history, 5)[K] == w.newer && !ReadsMap(st)
  {
    hide ProbeLevels;
    OlderIsFound(w);
    assert Lookup([], K, 5) == Miss;
    assert st.history[4] == PutOp(K, w.newer);
    assert !ReadsMapAt(st, K, 5, w.older);
  }

  // ---------------------------------------------------------------- a flush into a gap

  const LEFT: UserKey := 0.0
  const MIDDLE: UserKey := 1.0
  const RIGHT: UserKey := 2.0

  /** LEFT and RIGHT are written twice, each time into tables of their own; MIDDLE is written while they are compacted. */
  datatype Gap = Gap(sizes: Sizes) {
    function Put(k: UserKey, s: SequenceNumber): Entry { PutEntry(k, s, "") }

    function Table(number: nat, es: seq<Entry>): FileMetaData
      requires es != []
    {
      OutputFile(number, sizes.finished(es), es)
    }

    function Left2(): FileMetaData { Table(5, [Put(LEFT, 1)]) }
    function Right2(): FileMetaData { Table(7, [Put(RIGHT, 2)]) }
    function Left1(): FileMetaData { Table(9, [Put(LEFT, 3)]) }
    function Right1(): FileMetaData { Table(11, [Put(RIGHT, 4)]) }

    /** The compaction of both levels leaves one table over the whole range. */
    function Whole(): FileMetaData { Table(12, [Put(LEFT, 3), Put(RIGHT, 4)]) }
    function Flushed(): FileMetaData { Table(14, [Put(MIDDLE, 5)]) }

    function Before(): Levels { Top([], [Left1(), Right1()], [Left2(), Right2()]) }
    function Meanwhile(): Levels { Top([], [Left1(), Right1()], [Left2(), Flushed(), Right2()]) }
    function After(): Levels { Top([], [], [Whole(), Flushed()]) }

    function Merged(): seq<Entry> { [Put(LEFT, 3), Put(LEFT, 1), Put(RIGHT, 4), Put(RIGHT, 2)] }

    function Work(): Running {
      Running(Inputs(1, [Left1(), Right1()], [Left2(), Right2()]), true, 4, Before(), Merged(), [Whole()])
    }
  }

  lemma {:induction false} GapFlushes(w: Gap, l1: Level, l2: Level, k: UserKey, f: FileMetaData, g: FileMetaData)
    requires SmallTables(w.sizes) && f in l2 && f.Covers(k) && g !in l1
    requires l2 == [w.Left2(), w.Right2()] && (l1 == [] || l1 == [w.Left1()])
    requires k == LEFT || k == RIGHT
    requires l1 != [] ==> k == RIGHT
    ensures IsFlushLevel(Top([], l1, l2), k, k, 1)
  {
    var a, b := w.Left2(), w.Right2();
    assert l2[1..] == [b] && [b][1..] == [];
    var meeting := Meeting(l2, Some(k), Some(k));
    assert Meeting([b], Some(k), Some(k)) == if k == RIGHT then [b] + [] else [];
    assert meeting == if k == RIGHT then [b] else [a] + [];
    assert meeting[1..] == [] && TotalFileSize(meeting) == meeting[0].fileSize + TotalFileSize([]);
    SmallSingle(w, LEFT, 1);
    SmallSingle(w, RIGHT, 2);
    StaysAtOne(l1, l2, k, k, f);
  }

  lemma {:induction false} SmallSingle(w: Gap, k: UserKey, s: SequenceNumber)
    requires SmallTables(w.sizes)
    ensures w.sizes.finished([w.Put(k, s)]) < TARGET_FILE_SIZE
  {
    assert forall e | e in [w.Put(k, s)] :: e.value == "";
  }

  lemma {:induction false} FlushBelow(w: Gap) returns (run: Run)
    ensures run.Ok(w.sizes) && Quiet(run.Last())
    ensures var st := run.Last();
            && st.levels == Top([], [], [w.Left2(), w.Right2()]) && st.mem == [] && st.running == None && st.snapshots == []
            && st.nextFile == 8 && st.lastSequence == 2 && st.history == [PutOp(LEFT, ""), PutOp(RIGHT, "")]
  {
    hide Run.Ok, Quiet, IsFlushLevel, Install, AddOps, MemInsert;
    var a, b := w.Left2(), w.Right2();
    run := Open(w.sizes);
    OneEntryMem(1, PutOp(LEFT, ""));
    GoesToTwo([], LEFT, LEFT, []);
    InstalledAt(Empty(), 2, a, [a]);
    assert Empty()[2 := [a]] == Top([], [], [a]);
    run := PutAndFlush(w.sizes, run, [PutOp(LEFT, "")], [w.Put(LEFT, 1)], 2, Top([], [], [a]));
    OneEntryMem(2, PutOp(RIGHT, ""));
    GoesToTwo([a], RIGHT, RIGHT, []);
    InstalledAt(Top([], [], [a]), 2, b, [a, b]);
    run := PutAndFlush(w.sizes, run, [PutOp(RIGHT, "")], [w.Put(RIGHT, 2)], 2, Top([], [], [a, b]));
  }

  /** Two tables at level 2, and over each of them one at level 1. */
  lemma {:induction false} FlushFour(w: Gap) returns (run: Run)
    requires SmallTables(w.sizes)
    ensures run.Ok(w.sizes) && Quiet(run.Last())
    ensures var st := run.Last();
            && st.levels == w.Before() && st.mem == [] && st.running == None && st.snapshots == [] && st.nextFile == 12
            && st.lastSequence == 4
            && st.history == [PutOp(LEFT, ""), PutOp(RIGHT, ""), PutOp(LEFT, ""), PutOp(RIGHT, "")]
  {
    hide Run.Ok, Quiet, IsFlushLevel, Install, AddOps, MemInsert, SmallTables;
    var a, b := w.Left2(), w.Right2();
    run := FlushBelow(w);
    OneEntryMem(3, PutOp(LEFT, ""));
    GapFlushes(w, [], [a, b], LEFT, a, a);
    InstalledAt(Top([], [], [a, b]), 1, w.Left1(), [w.Left1()]);
    run := PutAndFlush(w.sizes, run, [PutOp(LEFT, "")], [w.Put(LEFT, 3)], 1, Top([], [w.Left1()], [a, b]));
    OneEntryMem(4, PutOp(RIGHT, ""));
    GapFlushes(w, [w.Left1()], [a, b], RIGHT, b, b);
    InstalledAt(Top([], [w.Left1()], [a, b]), 1, w.Right1(), [w.Left1(), w.Right1()]);
    run := PutAndFlush(w.sizes, run, [PutOp(RIGHT, "")], [w.Put(RIGHT, 4)], 1, w.Before());
  }

  /** A file enters a level of known files. */
  lemma {:induction false} InstalledAt(levels: Levels, i: nat, f: FileMetaData, r: Level)
    requires i < |levels| && SortedFiles(levels[i]) && SortedFiles(r)
    requires forall g | g in levels[i] :: g.number != f.number
    requires forall g :: g in r <==> g in levels[i] || g == f
    ensures Install(levels, i, LevelEdit({}, [f])) == levels[i := r]
  {
    SavedIs(levels[i], LevelEdit({}, [f]), r);
  }

  /** Both levels lie between LEFT and RIGHT. */
  lemma {:induction false} BothMeet(a: FileMetaData, b: FileMetaData)
    requires a.Lo() == LEFT && b.Lo() == RIGHT && a.Hi() == LEFT && b.Hi() == RIGHT
    ensures Meeting([a, b], Some(LEFT), Some(RIGHT)) == [a, b]
    ensures HullLo([a, b]) == LEFT && HullHi([a, b]) == RIGHT
  {
    assert [a, b][1..] == [b] && [b][1..] == [];
    assert Meeting([b], Some(LEFT), Some(RIGHT)) == [b] + [];
    assert Meeting([a, b], Some(LEFT), Some(RIGHT)) == [a] + [b];
  }

  lemma {:induction false} WorkIsPicked(w: Gap)
    requires SmallTables(w.sizes)
    ensures ManualPick(w.Before(), None, None, w.Work().inputs)
    ensures LegalInputs(w.Before(), w.Work().inputs)
  {
    hide HullLo, HullHi, Meeting, SmallTables;
    var levels, c := w.Before(), w.Work().inputs;
    var upper := [w.Left1(), w.Right1()];
    AllMeet(upper);
    SmallSingle(w, LEFT, 3);
    SmallSingle(w, RIGHT, 4);
    var sizes := upper[0].fileSize + upper[1].fileSize;
    assert EnoughFiles(upper, 2, sizes) == 2 && EnoughFiles(upper, 1, upper[0].fileSize) == 2;
    assert CutShort(upper) == upper;
    BothMeet(w.Left1(), w.Right1());
    BothMeet(w.Left2(), w.Right2());
    WorkHull(w);
    assert GrowsTo(levels, c, upper, c);
    assert IsOverlapping(1, upper, Some(LEFT), Some(RIGHT), upper);
    assert Expands(levels, c, c);
    assert SetsUp(levels, 1, upper, c);
    assert IsOverlapping(1, levels[1], None, None, upper);
    assert RangePick(levels, 1, None, None, c);
    assert w.Left2() in levels[2] && Meets(w.Left2(), None, None);
  }

  lemma {:induction false} WorkHull(w: Gap)
    ensures HullLo(w.Work().All()) == LEFT && HullHi(w.Work().All()) == RIGHT
  {
    var a, b, c, d := w.Left1(), w.Right1(), w.Left2(), w.Right2();
    assert w.Work().All() == [a, b, c, d];
    assert [a, b, c, d][1..] == [b, c, d] && [b, c, d][1..] == [c, d] && [c, d][1..] == [d];
    assert HullLo([d]) == RIGHT && HullLo([c, d]) == LEFT && HullLo([b, c, d]) == LEFT;
    assert HullHi([d]) == RIGHT && HullHi([c, d]) == RIGHT && HullHi([b, c, d]) == RIGHT;
  }

  lemma {:induction false} WorkCuts(w: Gap)
    requires SmallTables(w.sizes)
    ensures Outputs(TaskOf(w.Work(), w.sizes, 12)) == [w.Whole()]
  {
    hide SmallTables;
    var t := TaskOf(w.Work(), w.sizes, 12);
    var m := w.Merged();
    assert Grandparents(w.Before(), w.Work().inputs) == [];
    var k := StopCursor(0, true, 0);
    NothingPassed([], StopCursor(0, false, 0), m[0].key);
    NothingPassed([], k, m[1].key);
    NothingPassed([], k, m[2].key);
    NothingPassed([], k, m[3].key);
    assert Keeps(t.levels, 1, m, 0, 4) && !Keeps(t.levels, 1, m, 1, 4) && Keeps(t.levels, 1, m, 2, 4) && !Keeps(t.levels, 1, m, 3, 4);
    SmallBuilder(w, [m[0]]);
    SmallBuilder(w, [m[0], m[2]]);
    assert [] + [m[0]] == [m[0]] && [m[0]] + [m[2]] == [m[0], m[2]];
    assert Written(t, 0) == Writing([], [], StopCursor(0, false, 0));
    assert Written(t, 1) == Writing([], [m[0]], k);
    assert Written(t, 2) == Writing([], [m[0]], k);
    assert Written(t, 3) == Writing([], [m[0], m[2]], k);
    assert Written(t, 4) == Writing([], [m[0], m[2]], k);
  }

  lemma {:induction false} SmallBuilder(w: Gap, es: seq<Entry>)
    requires SmallTables(w.sizes) && |es| <= 2 && forall i | 0 <= i < |es| :: es[i].value == ""
    ensures w.sizes.written(es) < TARGET_FILE_SIZE
  {
    assert forall e | e in es :: e.value == "";
    assert w.sizes.finished(es) < TARGET_FILE_SIZE;
  }

  lemma {:induction false} WorkStarts(w: Gap)
    requires SmallTables(w.sizes)
    ensures Starts(w.Work(), w.Before(), 12)
  {
    hide Outputs, SmallTables, IsOutput, LegalInputs, NoGap;
    var r := w.Work();
    WorkIsPicked(w);
    WorkCuts(w);
    OutputsAreKept(TaskOf(r, w.sizes, 12));
    hide EntriesOf;
    WorkMerges(w);
  }

  lemma {:induction false} WorkMerges(w: Gap)
    ensures EntriesOf(w.Work().All()) == SetOf(w.Merged())
  {
    var a, b, c, d := w.Left1(), w.Right1(), w.Left2(), w.Right2();
    assert w.Work().All() == [a, b, c, d];
    FlattenMembers([a, b, c, d]);
    assert [a, b, c, d][1..] == [b, c, d] && [b, c, d][1..] == [c, d] && [c, d][1..] == [d] && [d][1..] == [];
    assert Flatten([d]) == d.entries + [];
    assert Flatten([c, d]) == c.entries + Flatten([d]) == [c.entries[0], d.entries[0]];
    assert Flatten([b, c, d]) == b.entries + Flatten([c, d]);
    assert Flatten([a, b, c, d]) == a.entries + Flatten([b, c, d]);
    assert Flatten([a, b, c, d]) == [w.Put(LEFT, 3), w.Put(RIGHT, 4), w.Put(LEFT, 1), w.Put(RIGHT, 2)];
  }

  /** The table of MIDDLE meets neither input: it goes to level 2, in between. */
  lemma {:induction false} MiddleFlushes(w: Gap)
    ensures IsFlushLevel(w.Before(), MIDDLE, MIDDLE, 2)
    ensures Install(w.Before(), 2, LevelEdit({}, [w.Flushed()])) == w.Meanwhile()
  {
    hide IsFlushLevel;
    GoesToTwo([w.Left2(), w.Right2()], MIDDLE, MIDDLE, [w.Left1(), w.Right1()]);
    InstalledAt(w.Before(), 2, w.Flushed(), [w.Left2(), w.Flushed(), w.Right2()]);
    assert w.Before()[2 := [w.Left2(), w.Flushed(), w.Right2()]] == w.Meanwhile();
  }

  lemma {:induction false} WorkReplaces(w: Gap)
    ensures Replace(w.Meanwhile(), w.Work()) == w.After()
  {
    hide SaveLevel, Apply;
    BothLeave(w.Left1(), w.Right1());
    OuterLeave(w.Left2(), w.Flushed(), w.Right2(), w.Whole());
    assert w.Meanwhile()[1 := []][2 := [w.Whole(), w.Flushed()]] == w.After();
  }

  lemma {:induction false} BothLeave(a: FileMetaData, b: FileMetaData)
    requires Before(a, b)
    ensures SaveLevel([a, b], Apply(LevelEdit({}, []), LevelEdit(Numbers([a, b]), []))) == []
  {
    assert a in [a, b] && b in [a, b];
    SavedIs([a, b], LevelEdit(Numbers([a, b]), []), []);
  }

  lemma {:induction false} OuterLeave(a: FileMetaData, f: FileMetaData, b: FileMetaData, o: FileMetaData)
    requires Before(a, f) && Before(f, b) && Before(a, b) && Before(o, f)
    requires f.number != a.number && f.number != b.number
    requires o.number != a.number && o.number != b.number && o.number != f.number
    ensures SaveLevel([a, f, b], Apply(LevelEdit({}, []), LevelEdit(Numbers([a, b]), [o]))) == [o, f]
  {
    assert a in [a, b] && b in [a, b];
    SavedIs([a, f, b], LevelEdit(Numbers([a, b]), [o]), [o, f]);
  }

  /** The search at level 2 is led to the wide table, and finds nothing there. */
  lemma {:induction false} MiddleIsMissed(w: Gap)
    ensures ProbeLevels(w.After(), 0, MIDDLE, 5) == Miss
  {
    var levels := w.After();
    assert levels[2] == [w.Whole(), w.Flushed()];
    assert FindFileIndex(levels[2], SeekKey(MIDDLE, 5)) == 0;
    assert w.Whole().entries[1..] == [w.Put(RIGHT, 4)];
    assert SeekIndex(w.Whole().entries, SeekKey(MIDDLE, 5)) == 1 + SeekIndex([w.Put(RIGHT, 4)], SeekKey(MIDDLE, 5)) == 1;
    assert ProbeLevel(levels, 2, MIDDLE, 5) == Miss;
    assert forall i | 0 <= i < 7 && i != 2 :: levels[i] == [];
    assert forall i | 0 <= i < 7 && i != 2 :: ProbeLevel(levels, i, MIDDLE, 5) == Miss;
    NothingDeeper(levels, 0, MIDDLE, 5);
  }

  lemma {:induction false} NothingDeeper(levels: Levels, i: nat, k: UserKey, s: SequenceNumber)
    requires forall j | 0 <= j < |levels| :: ProbeLevel(levels, j, k, s) == Miss
    ensures ProbeLevels(levels, i, k, s) == Miss
    decreases |levels| - i
  {
    if i < |levels| {
      NothingDeeper(levels, i + 1, k, s);
    }
  }

  /**
   * A run of the code that ends with Get not finding what was just written: during a manual compaction whose inputs leave a
   * gap, a memtable is flushed to the output level into that gap, and the output comes to lie over it.  (A build with
   * assertions stops in SaveTo instead.)
   */
  lemma {:induction false} FlushIntoGapLosesRead(w: Gap) returns (run: Run)
    requires SmallTables(w.sizes)
    ensures run.Ok(w.sizes)
    ensures var st := run.Last();
            && st.lastSequence == |st.history| == 5 && DatabaseReads.Readable(st, 5)
            && Found(DbGet(st, MIDDLE, 5)) == None
            && MIDDLE in MapAt(st.history, 5)
            && |st.levels| == NUM_LEVELS && !Ordered(st.levels[2]) && !ReadsMap(st)
  {
    hide Run.Ok, Quiet, Install, AsCoded, Starts, SmallTables, Outputs, ManualPick, ProbeLevels, Replace, MapAt, AddOps;
    hide IsFlushLevel;
    run := FlushFour(w);
    WorkIsPicked(w);
    WorkCuts(w);
    WorkStarts(w);
    CodedCompaction(w.sizes, run.Last(), w.Work());
    run := Start(w.sizes, run, w.Work());
    OneEntryMem(5, PutOp(MIDDLE, ""));
    MiddleFlushes(w);
    run := PutAndFlush(w.sizes, run, [PutOp(MIDDLE, "")], [w.Put(MIDDLE, 5)], 2, w.Meanwhile());
    WorkReplaces(w);
    run := CodedRuns.Finish(w.sizes, run);
    QuietSequence(run.Last());
    MissedAnswer(w, run.Last());
  }

  lemma {:induction false} MissedAnswer(w: Gap, st: State)
    requires Quiet(st) && st.levels == w.After() && st.mem == [] && st.lastSequence == 5
    requires st.history == [PutOp(LEFT, ""), PutOp(RIGHT, ""), PutOp(LEFT, ""), PutOp(RIGHT, ""), PutOp(MIDDLE, "")]
    ensures DatabaseReads.Readable(st, 5) && Found(DbGet(st, MIDDLE, 5)) == None
    ensures MIDDLE in MapAt(st.history, 5) && !Ordered(st.levels[2]) && !ReadsMap(st)
  {
    hide ProbeLevels;
    MiddleIsMissed(w);
    assert Lookup([], MIDDLE, 5) == Miss;
    assert st.history[4] == PutOp(MIDDLE, "");
    assert !ReadsMapAt(st, MIDDLE, 5, "");
    assert !Less(w.Whole().largest, w.Flushed().smallest);
    assert st.levels[2][0] == w.Whole() && st.levels[2][1] == w.Flushed();
  }
}
