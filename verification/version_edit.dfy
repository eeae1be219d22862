/** Version edits as records of the manifest. */
module VersionEdits {
  import opened Common
  import opened Coding
  import Crc32c
  import LogFormat
  import LogRoundTrip

  const COMPARATOR := 1
  const LOG_NUMBER := 2
  const NEXT_FILE_NUMBER := 3
  const LAST_SEQUENCE := 4
  const COMPACT_POINTER := 5
  const DELETED_FILE := 6
  const NEW_FILE := 7
  const PREV_LOG_NUMBER := 9

  datatype NewFileEntry = NewFileEntry(
    level: nat, number: DoubleWord, size: DoubleWord, smallest: seq<Byte>, largest: seq<Byte>)

  /** std::set of pairs: kept sorted. */
  type Deleted = (nat, DoubleWord)

  datatype Edit = Edit(
    comparator: Option<seq<Byte>>,
    logNumber: Option<DoubleWord>,
    prevLogNumber: Option<DoubleWord>,
    nextFileNumber: Option<DoubleWord>,
    lastSequence: Option<DoubleWord>,
    compactPointers: seq<(nat, seq<Byte>)>,
    deleted: seq<Deleted>,
    added: seq<NewFileEntry>)

  /** One tagged field of a record. */
  datatype Field =
    | Comparator(name: seq<Byte>)
    | LogNumber(number: DoubleWord)
    | PrevLogNumber(number: DoubleWord)
    | NextFileNumber(number: DoubleWord)
    | LastSequence(number: DoubleWord)
    | CompactPointer(level: nat, key: seq<Byte>)
    | DeletedFile(level: nat, number: DoubleWord)
    | NewFile(file: NewFileEntry)
  {
    /** What the format can carry: known levels, and lengths that fit 32 bits. */
    predicate Fits() {
      match this
      case Comparator(name) => |name| < 0x1_0000_0000
      case CompactPointer(level, key) => level < NUM_LEVELS && |key| < 0x1_0000_0000
      case DeletedFile(level, _) => level < NUM_LEVELS
      case NewFile(f) => f.level < NUM_LEVELS && |f.smallest| < 0x1_0000_0000 && |f.largest| < 0x1_0000_0000
      case _ => true
    }
  }

  // ---------- fields as bytes ----------

  function EncodedLevel(level: nat): seq<Byte> {
    Varint32(level % 0x1_0000_0000)
  }

  function Tag(f: Field): Word {
    match f
    case Comparator(_) => COMPARATOR
    case LogNumber(_) => LOG_NUMBER
    case PrevLogNumber(_) => PREV_LOG_NUMBER
    case NextFileNumber(_) => NEXT_FILE_NUMBER
    case LastSequence(_) => LAST_SEQUENCE
    case CompactPointer(_, _) => COMPACT_POINTER
    case DeletedFile(_, _) => DELETED_FILE
    case NewFile(_) => NEW_FILE
  }

  function Body(f: Field): seq<Byte> {
    match f
    case Comparator(name) => LengthPrefixed(name)
    case LogNumber(n) => Varint(n)
    case PrevLogNumber(n) => Varint(n)
    case NextFileNumber(n) => Varint(n)
    case LastSequence(n) => Varint(n)
    case CompactPointer(level, key) => EncodedLevel(level) + LengthPrefixed(key)
    case DeletedFile(level, n) => EncodedLevel(level) + Varint(n)
    case NewFile(f) =>
      EncodedLevel(f.level)
      + (Varint(f.number) + (Varint(f.size) + (LengthPrefixed(f.smallest) + LengthPrefixed(f.largest))))
  }

  function EncodedField(f: Field): (r: seq<Byte>) {
    Varint32(Tag(f)) + Body(f)
  }

  function EncodedFields(fields: seq<Field>): seq<Byte> {
    if fields == [] then [] else EncodedField(fields[0]) + EncodedFields(fields[1..])
  }

  function GetLevel(input: seq<Byte>): (r: Parsed<nat>)
    ensures r.Got? ==> |r.rest| < |input| && r.value < NUM_LEVELS
  {
    match GetVarint32(input)
    case Failed => Failed
    case Got(v, rest) => if v < NUM_LEVELS then Got(v, rest) else Failed
  }

  function ParseNewFile(input: seq<Byte>): (r: Parsed<NewFileEntry>)
    ensures r.Got? ==> |r.rest| < |input|
  {
    match GetLevel(input)
    case Failed => Failed
    case Got(level, rest) =>
      match GetVarint64(rest)
      case Failed => Failed
      case Got(number, rest) =>
        match GetVarint64(rest)
        case Failed => Failed
        case Got(size, rest) =>
          match GetLengthPrefixedSlice(rest)
          case Failed => Failed
          case Got(smallest, rest) =>
            match GetLengthPrefixedSlice(rest)
            case Failed => Failed
            case Got(largest, rest) => Got(NewFileEntry(level, number, size, smallest, largest), rest)
  }

  datatype Outcome = Done | Corrupt(message: string)

  datatype Parsing = Parsing(fields: seq<Field>, outcome: Outcome)

  /** A field off the front, its tag being known. */
  datatype Taken = Took(field: Field, rest: seq<Byte>) | Bad(message: string)

  function TakeNumber(input: seq<Byte>, make: DoubleWord -> Field, message: string): (r: Taken)
    ensures r.Took? ==> |r.rest| < |input|
  {
    match GetVarint64(input)
    case Failed => Bad(message)
    case Got(n, rest) => Took(make(n), rest)
  }

  function TakeField(tag: Word, input: seq<Byte>): (r: Taken)
    ensures r.Took? ==> |r.rest| < |input|
  {
    if tag == COMPARATOR then
      match GetLengthPrefixedSlice(input)
      case Failed => Bad("comparator name")
      case Got(name, rest) => Took(Comparator(name), rest)
    else if tag == LOG_NUMBER then TakeNumber(input, (n: DoubleWord) => LogNumber(n), "log number")
    else if tag == PREV_LOG_NUMBER then TakeNumber(input, (n: DoubleWord) => PrevLogNumber(n), "previous log number")
    else if tag == NEXT_FILE_NUMBER then TakeNumber(input, (n: DoubleWord) => NextFileNumber(n), "next file number")
    else if tag == LAST_SEQUENCE then TakeNumber(input, (n: DoubleWord) => LastSequence(n), "last sequence number")
    else if tag == COMPACT_POINTER then
      match GetLevel(input)
      case Failed => Bad("compaction pointer")
      case Got(level, rest) =>
        match GetLengthPrefixedSlice(rest)
        case Failed => Bad("compaction pointer")
        case Got(key, rest) => Took(CompactPointer(level, key), rest)
    else if tag == DELETED_FILE then
      match GetLevel(input)
      case Failed => Bad("deleted file")
      case Got(level, rest) =>
        match GetVarint64(rest)
        case Failed => Bad("deleted file")
        case Got(number, rest) => Took(DeletedFile(level, number), rest)
    else if tag == NEW_FILE then
      match ParseNewFile(input)
      case Failed => Bad("new-file entry")
      case Got(f, rest) => Took(NewFile(f), rest)
    else
      Bad("unknown tag")
  }

  /** The fields of a record up to the first bad one, for any bytes whatever. */
  function ParseFields(input: seq<Byte>): Parsing
    decreases |input|
  {
    match GetVarint32(input)
    case Failed => Parsing([], if input == [] then Done else Corrupt("invalid tag"))
    case Got(tag, rest) =>
      match TakeField(tag, rest)
      case Bad(message) => Parsing([], Corrupt(message))
      case Took(f, further) =>
        var later := ParseFields(further);
        Parsing([f] + later.fields, later.outcome)
  }

  lemma {:induction false} LevelRoundTrip(level: nat, tail: seq<Byte>)
    requires level < NUM_LEVELS
    ensures GetLevel(EncodedLevel(level) + tail) == Got(level, tail)
  {
    hide Varint32, GetVarint32;
    Varint32RoundTrip(level, tail);
  }

  lemma {:induction false} NewFileRoundTrip(f: NewFileEntry, tail: seq<Byte>)
    requires NewFile(f).Fits()
    ensures ParseNewFile(
      EncodedLevel(f.level)
      + (Varint(f.number) + (Varint(f.size) + (LengthPrefixed(f.smallest) + LengthPrefixed(f.largest)))) + tail)
         == Got(f, tail)
  {
    hide EncodedLevel, GetLevel, Varint, GetVarint64, LengthPrefixed, GetLengthPrefixedSlice;
    var five := LengthPrefixed(f.largest);
    var four := LengthPrefixed(f.smallest) + five;
    var three := Varint(f.size) + four;
    var two := Varint(f.number) + three;
    assert four + tail == LengthPrefixed(f.smallest) + (five + tail);
    assert three + tail == Varint(f.size) + (four + tail);
    assert two + tail == Varint(f.number) + (three + tail);
    assert EncodedLevel(f.level) + two + tail == EncodedLevel(f.level) + (two + tail);
    LevelRoundTrip(f.level, two + tail);
    Varint64RoundTrip(f.number, three + tail);
    Varint64RoundTrip(f.size, four + tail);
    SliceRoundTrip(f.smallest, five + tail);
    SliceRoundTrip(f.largest, tail);
  }

  lemma {:induction false} BodyRoundTrip(f: Field, tail: seq<Byte>)
    requires f.Fits()
    ensures TakeField(Tag(f), Body(f) + tail) == Took(f, tail)
  {
    hide EncodedLevel, GetLevel, Varint, GetVarint64, LengthPrefixed, GetLengthPrefixedSlice, ParseNewFile;
    match f
    case Comparator(name) => SliceRoundTrip(name, tail);
    case CompactPointer(level, key) =>
      assert Body(f) + tail == EncodedLevel(level) + (LengthPrefixed(key) + tail);
      LevelRoundTrip(level, LengthPrefixed(key) + tail);
      SliceRoundTrip(key, tail);
    case DeletedFile(level, n) =>
      assert Body(f) + tail == EncodedLevel(level) + (Varint(n) + tail);
      LevelRoundTrip(level, Varint(n) + tail);
      Varint64RoundTrip(n, tail);
    case NewFile(file) => NewFileRoundTrip(file, tail);
    case _ => Varint64RoundTrip(f.number, tail);
  }

  /** Fields written one after the other are read back, in order. */
  lemma {:induction false} FieldsRoundTrip(fields: seq<Field>)
    requires forall f | f in fields :: f.Fits()
    ensures ParseFields(EncodedFields(fields)) == Parsing(fields, Done)
  {
    hide Body, TakeField, Varint32, GetVarint32, Tag;
    if fields == [] {
      NothingParses();
    } else {
      var rest := EncodedFields(fields[1..]);
      assert EncodedFields(fields) == Varint32(Tag(fields[0])) + (Body(fields[0]) + rest);
      Varint32RoundTrip(Tag(fields[0]), Body(fields[0]) + rest);
      BodyRoundTrip(fields[0], rest);
      FieldsRoundTrip(fields[1..]);
      assert [fields[0]] + fields[1..] == fields;
    }
  }

  lemma {:induction false} NothingParses()
    ensures GetVarint32([]) == Failed
  {
    assert ParseVarint([], 5) == Failed;
  }

  // ---------- damaged records ----------

  /** Fields in front of anything are taken, and then it is its turn. */
  lemma {:induction false} FieldsThen(fields: seq<Field>, tail: seq<Byte>)
    requires forall f | f in fields :: f.Fits()
    ensures ParseFields(EncodedFields(fields) + tail)
         == Parsing(fields + ParseFields(tail).fields, ParseFields(tail).outcome)
  {
    hide Body, TakeField, Varint32, GetVarint32, Tag;
    if fields == [] {
      assert [] + tail == tail && [] + ParseFields(tail).fields == ParseFields(tail).fields;
    } else {
      var rest := EncodedFields(fields[1..]) + tail;
      assert EncodedFields(fields) + tail == Varint32(Tag(fields[0])) + (Body(fields[0]) + rest);
      Varint32RoundTrip(Tag(fields[0]), Body(fields[0]) + rest);
      BodyRoundTrip(fields[0], rest);
      FieldsThen(fields[1..], tail);
      assert [fields[0]] + (fields[1..] + ParseFields(tail).fields) == fields + ParseFields(tail).fields;
    }
  }

  lemma {:induction false} LevelCut(level: nat, n: nat)
    requires level < NUM_LEVELS && n < |EncodedLevel(level)|
    ensures GetLevel(EncodedLevel(level)[..n]) == Failed
  {
    UnrolledVarint(level);
    VarintCut(level, n, 5);
  }

  lemma {:induction false} NumberCut(v: DoubleWord, n: nat)
    requires n < |Varint(v)|
    ensures GetVarint64(Varint(v)[..n]) == Failed
  {
    VarintCut(v, n, 10);
  }

  /** Two parts, the second or the first of which is cut. */
  lemma {:induction false} CutOfTwo(a: seq<Byte>, b: seq<Byte>, n: nat)
    requires n < |a + b|
    ensures n < |a| ==> (a + b)[..n] == a[..n]
    ensures n >= |a| ==> n - |a| < |b| && (a + b)[..n] == a + b[..n - |a|]
  {
  }

  lemma {:induction false} NewFileCut(f: NewFileEntry, n: nat)
    requires NewFile(f).Fits() && n < |Body(NewFile(f))|
    ensures ParseNewFile(Body(NewFile(f))[..n]) == Failed
  {
    hide EncodedLevel, GetLevel, Varint, GetVarint64, LengthPrefixed, GetLengthPrefixedSlice;
    var level, number, size := EncodedLevel(f.level), Varint(f.number), Varint(f.size);
    var smallest, largest := LengthPrefixed(f.smallest), LengthPrefixed(f.largest);
    CutOfTwo(level, number + (size + (smallest + largest)), n);
    if n < |level| {
      LevelCut(f.level, n);
    } else {
      var n1 := n - |level|;
      LevelRoundTrip(f.level, (number + (size + (smallest + largest)))[..n1]);
      CutOfTwo(number, size + (smallest + largest), n1);
      if n1 < |number| {
        NumberCut(f.number, n1);
      } else {
        var n2 := n1 - |number|;
        Varint64RoundTrip(f.number, (size + (smallest + largest))[..n2]);
        CutOfTwo(size, smallest + largest, n2);
        if n2 < |size| {
          NumberCut(f.size, n2);
        } else {
          var n3 := n2 - |size|;
          Varint64RoundTrip(f.size, (smallest + largest)[..n3]);
          CutOfTwo(smallest, largest, n3);
          if n3 < |smallest| {
            SliceCut(f.smallest, n3);
          } else {
            SliceRoundTrip(f.smallest, largest[..n3 - |smallest|]);
            SliceCut(f.largest, n3 - |smallest|);
          }
        }
      }
    }
  }

  lemma {:induction false} BodyCut(f: Field, n: nat)
    requires f.Fits() && n < |Body(f)|
    ensures TakeField(Tag(f), Body(f)[..n]).Bad?
  {
    hide EncodedLevel, GetLevel, Varint, GetVarint64, LengthPrefixed, GetLengthPrefixedSlice, ParseNewFile;
    match f
    case Comparator(name) => SliceCut(name, n);
    case CompactPointer(level, key) =>
      CutOfTwo(EncodedLevel(level), LengthPrefixed(key), n);
      if n < |EncodedLevel(level)| {
        LevelCut(level, n);
      } else {
        LevelRoundTrip(level, LengthPrefixed(key)[..n - |EncodedLevel(level)|]);
        SliceCut(key, n - |EncodedLevel(level)|);
      }
    case DeletedFile(level, number) =>
      CutOfTwo(EncodedLevel(level), Varint(number), n);
      if n < |EncodedLevel(level)| {
        LevelCut(level, n);
      } else {
        LevelRoundTrip(level, Varint(number)[..n - |EncodedLevel(level)|]);
        NumberCut(number, n - |EncodedLevel(level)|);
      }
    case NewFile(file) => NewFileCut(file, n);
    case _ => NumberCut(f.number, n);
  }

  lemma {:induction false} FieldCut(f: Field, n: nat)
    requires f.Fits() && 0 < n < |EncodedField(f)|
    ensures ParseFields(EncodedField(f)[..n]).fields == [] && ParseFields(EncodedField(f)[..n]).outcome.Corrupt?
  {
    hide Body, TakeField, Tag, Varint, Varint32, GetVarint32;
    var tag := Varint32(Tag(f));
    CutOfTwo(tag, Body(f), n);
    if n < |tag| {
      TagCut(Tag(f), n);
    } else {
      Varint32RoundTrip(Tag(f), Body(f)[..n - |tag|]);
      BodyCut(f, n - |tag|);
    }
  }

  lemma {:induction false} TagCut(v: Word, n: nat)
    requires n < |Varint32(v)|
    ensures GetVarint32(Varint32(v)[..n]) == Failed
  {
    UnrolledVarint(v);
    VarintCut(v, n, 5);
  }

  /** A record cut anywhere but between two fields is refused; the fields that are whole have been taken. */
  lemma {:induction false} CutRecordIsRefused(fields: seq<Field>, k: nat, n: nat)
    requires (forall f | f in fields :: f.Fits()) && k < |fields|
    requires |EncodedFields(fields[..k])| < n < |EncodedFields(fields[..k + 1])|
    ensures n <= |EncodedFields(fields)|
    ensures var parsing := ParseFields(EncodedFields(fields)[..n]);
            parsing.fields == fields[..k] && parsing.outcome.Corrupt?
  {
    hide ParseFields, EncodedField;
    var before, field := EncodedFields(fields[..k]), EncodedField(fields[k]);
    OneMoreField(fields[..k], fields[k]);
    assert fields[..k + 1] == fields[..k] + [fields[k]];
    FieldsJoin(fields[..k + 1], fields[k + 1..]);
    assert fields == fields[..k + 1] + fields[k + 1..];
    var m := n - |before|;
    assert EncodedFields(fields)[..n] == before + field[..m];
    FieldsThen(fields[..k], field[..m]);
    FieldCut(fields[k], m);
    assert fields[..k] + [] == fields[..k];
  }

  lemma {:induction false} FieldsJoin(a: seq<Field>, b: seq<Field>)
    ensures EncodedFields(a + b) == EncodedFields(a) + EncodedFields(b)
    decreases |a|
  {
    hide EncodedField;
    if a == [] {
      assert a + b == b;
    } else {
      assert (a + b)[1..] == a[1..] + b;
      FieldsJoin(a[1..], b);
    }
  }

  /** A tag that is none of the eight, and a level that does not exist, end the record with a complaint. */
  lemma {:induction false} StrangeFieldIsRefused(fields: seq<Field>, tag: Word, level: Word, rest: seq<Byte>)
    requires forall f | f in fields :: f.Fits()
    requires tag == 0 || tag == 8 || tag > 9
             || ((tag == COMPACT_POINTER || tag == DELETED_FILE || tag == NEW_FILE) && level >= 7)
    ensures var parsing := ParseFields(EncodedFields(fields) + (Varint32(tag) + (Varint32(level) + rest)));
            parsing.fields == fields && parsing.outcome.Corrupt?
  {
    hide Varint32, GetVarint32;
    var tail := Varint32(tag) + (Varint32(level) + rest);
    FieldsThen(fields, tail);
    Varint32RoundTrip(tag, Varint32(level) + rest);
    Varint32RoundTrip(level, rest);
    assert fields + [] == fields;
  }

  // ---------- edits ----------

  const EMPTY := Edit(None, None, None, None, None, [], [], [])

  predicate PairBefore(a: Deleted, b: Deleted) {
    a.0 < b.0 || (a.0 == b.0 && a.1 < b.1)
  }

  /** std::set::insert. */
  function InsertPair(pairs: seq<Deleted>, p: Deleted): seq<Deleted> {
    if pairs == [] || PairBefore(p, pairs[0]) then [p] + pairs
    else if pairs[0] == p then pairs
    else [pairs[0]] + InsertPair(pairs[1..], p)
  }

  predicate Sorted(pairs: seq<Deleted>) {
    forall i, j | 0 <= i < j < |pairs| :: PairBefore(pairs[i], pairs[j])
  }

  /** What DecodeFrom does with one field. */
  function Set(e: Edit, f: Field): Edit {
    match f
    case Comparator(name) => e.(comparator := Some(name))
    case LogNumber(n) => e.(logNumber := Some(n))
    case PrevLogNumber(n) => e.(prevLogNumber := Some(n))
    case NextFileNumber(n) => e.(nextFileNumber := Some(n))
    case LastSequence(n) => e.(lastSequence := Some(n))
    case CompactPointer(level, key) => e.(compactPointers := e.compactPointers + [(level, key)])
    case DeletedFile(level, n) => e.(deleted := InsertPair(e.deleted, (level, n)))
    case NewFile(f) => e.(added := e.added + [f])
  }

  function SetAll(e: Edit, fields: seq<Field>): Edit
    decreases |fields|
  {
    if fields == [] then e else SetAll(Set(e, fields[0]), fields[1..])
  }

  function NameField(e: Edit): seq<Field> {
    if e.comparator.Some? then [Comparator(e.comparator.value)] else []
  }

  function LogField(e: Edit): seq<Field> {
    if e.logNumber.Some? then [LogNumber(e.logNumber.value)] else []
  }

  function PrevLogField(e: Edit): seq<Field> {
    if e.prevLogNumber.Some? then [PrevLogNumber(e.prevLogNumber.value)] else []
  }

  function NextFileField(e: Edit): seq<Field> {
    if e.nextFileNumber.Some? then [NextFileNumber(e.nextFileNumber.value)] else []
  }

  function SequenceField(e: Edit): seq<Field> {
    if e.lastSequence.Some? then [LastSequence(e.lastSequence.value)] else []
  }

  function Head(e: Edit): seq<Field> {
    NameField(e) + LogField(e) + PrevLogField(e) + NextFileField(e) + SequenceField(e)
  }

  /** The fields of an edit in the order EncodeTo writes them. */
  function Fields(e: Edit): seq<Field> {
    Head(e) + Pointers(e.compactPointers) + Deletions(e.deleted) + Additions(e.added)
  }

  function Pointers(pointers: seq<(nat, seq<Byte>)>): (r: seq<Field>)
    ensures |r| == |pointers|
  {
    seq(|pointers|, i requires 0 <= i < |pointers| => CompactPointer(pointers[i].0, pointers[i].1))
  }

  function Deletions(deleted: seq<Deleted>): (r: seq<Field>)
    ensures |r| == |deleted|
  {
    seq(|deleted|, i requires 0 <= i < |deleted| => DeletedFile(deleted[i].0, deleted[i].1))
  }

  function Additions(added: seq<NewFileEntry>): (r: seq<Field>)
    ensures |r| == |added|
  {
    seq(|added|, i requires 0 <= i < |added| => NewFile(added[i]))
  }

  predicate FieldsFit(e: Edit) {
    forall f | f in Fields(e) :: f.Fits()
  }

  lemma {:induction false} SetAllAppend(e: Edit, a: seq<Field>, b: seq<Field>)
    ensures SetAll(e, a + b) == SetAll(SetAll(e, a), b)
    decreases |a|
  {
    hide Set;
    if a == [] {
      assert a + b == b;
    } else {
      assert (a + b)[1..] == a[1..] + b;
      SetAllAppend(Set(e, a[0]), a[1..], b);
    }
  }

  // ---------- any sequence of fields ----------

  /** The set of deleted files stays one. */
  lemma {:induction false} InsertPairAdds(pairs: seq<Deleted>, p: Deleted)
    requires Sorted(pairs)
    ensures Sorted(InsertPair(pairs, p))
    ensures forall q :: q in InsertPair(pairs, p) <==> q == p || q in pairs
  {
    if pairs != [] && !PairBefore(p, pairs[0]) && pairs[0] != p {
      var rest := InsertPair(pairs[1..], p);
      InsertPairAdds(pairs[1..], p);
      forall j | 0 <= j < |rest| ensures PairBefore(pairs[0], rest[j]) {
        assert rest[j] in rest;
      }
    }
  }

  /** Whatever fields a record holds: files are deleted or added by each of them, in a set and in a list. */
  lemma {:induction false} FilesAreSet(e: Edit, fields: seq<Field>)
    requires Sorted(e.deleted)
    ensures Sorted(SetAll(e, fields).deleted)
    ensures forall q: Deleted :: q in SetAll(e, fields).deleted <==> q in e.deleted || DeletedFile(q.0, q.1) in fields
    ensures forall f :: f in SetAll(e, fields).added <==> f in e.added || NewFile(f) in fields
    decreases |fields|
  {
    hide InsertPair, Sorted;
    if fields != [] {
      var first := fields[0];
      if first.DeletedFile? {
        InsertPairAdds(e.deleted, (first.level, first.number));
      }
      FilesAreSet(Set(e, first), fields[1..]);
      assert forall f :: f in fields <==> f == first || f in fields[1..];
    }
  }

  /** A field of another kind leaves a number alone. */
  lemma {:induction false} OthersKeep(e: Edit, fields: seq<Field>)
    ensures var r := SetAll(e, fields);
            && ((forall f | f in fields :: !f.Comparator?) ==> r.comparator == e.comparator)
            && ((forall f | f in fields :: !f.LogNumber?) ==> r.logNumber == e.logNumber)
            && ((forall f | f in fields :: !f.PrevLogNumber?) ==> r.prevLogNumber == e.prevLogNumber)
            && ((forall f | f in fields :: !f.NextFileNumber?) ==> r.nextFileNumber == e.nextFileNumber)
            && ((forall f | f in fields :: !f.LastSequence?) ==> r.lastSequence == e.lastSequence)
    decreases |fields|
  {
    hide InsertPair;
    if fields != [] {
      OthersKeep(Set(e, fields[0]), fields[1..]);
      assert forall f | f in fields[1..] :: f in fields;
      assert fields[0] in fields;
    }
  }

  /** Of a field that comes more than once, the last one counts. */
  lemma {:induction false} LastOneCounts(e: Edit, before: seq<Field>, f: Field, after: seq<Field>)
    requires forall g | g in after :: Tag(g) != Tag(f)
    ensures var r := SetAll(e, before + [f] + after);
            match f
            case Comparator(name) => r.comparator == Some(name)
            case LogNumber(n) => r.logNumber == Some(n)
            case PrevLogNumber(n) => r.prevLogNumber == Some(n)
            case NextFileNumber(n) => r.nextFileNumber == Some(n)
            case LastSequence(n) => r.lastSequence == Some(n)
            case _ => true
  {
    hide InsertPair;
    SetAllAppend(e, before + [f], after);
    SetAllAppend(e, before, [f]);
    var x := SetAll(e, before);
    assert SetAll(x, [f]) == Set(x, f) by { assert [f][1..] == []; }
    OthersKeep(Set(x, f), after);
  }

  lemma {:induction false} PointersSet(e: Edit, pointers: seq<(nat, seq<Byte>)>)
    ensures SetAll(e, Pointers(pointers)) == e.(compactPointers := e.compactPointers + pointers)
    decreases |pointers|
  {
    if pointers == [] {
      assert e.compactPointers + pointers == e.compactPointers;
    } else {
      var e' := e.(compactPointers := e.compactPointers + [pointers[0]]);
      assert Pointers(pointers)[1..] == Pointers(pointers[1..]);
      PointersSet(e', pointers[1..]);
      assert e.compactPointers + pointers == e.compactPointers + [pointers[0]] + pointers[1..];
    }
  }

  lemma {:induction false} AdditionsSet(e: Edit, added: seq<NewFileEntry>)
    ensures SetAll(e, Additions(added)) == e.(added := e.added + added)
    decreases |added|
  {
    if added == [] {
      assert e.added + added == e.added;
    } else {
      var e' := e.(added := e.added + [added[0]]);
      assert Additions(added)[1..] == Additions(added[1..]);
      AdditionsSet(e', added[1..]);
      assert e.added + added == e.added + [added[0]] + added[1..];
    }
  }

  lemma {:induction false} InsertLast(pairs: seq<Deleted>, p: Deleted)
    requires Sorted(pairs + [p])
    ensures InsertPair(pairs, p) == pairs + [p]
  {
    if pairs != [] {
      assert (pairs + [p])[0] == pairs[0] && (pairs + [p])[|pairs|] == p;
      assert (pairs + [p])[1..] == pairs[1..] + [p];
      InsertLast(pairs[1..], p);
    }
  }

  lemma {:induction false} DeletionsSet(e: Edit, deleted: seq<Deleted>)
    requires Sorted(e.deleted + deleted)
    ensures SetAll(e, Deletions(deleted)) == e.(deleted := e.deleted + deleted)
    decreases |deleted|
  {
    if deleted == [] {
      assert e.deleted + deleted == e.deleted;
    } else {
      var next := e.deleted + [deleted[0]];
      assert next + deleted[1..] == e.deleted + deleted;
      assert next == (e.deleted + deleted)[..|next|];
      InsertLast(e.deleted, deleted[0]);
      assert Deletions(deleted)[1..] == Deletions(deleted[1..]);
      DeletionsSet(e.(deleted := next), deleted[1..]);
    }
  }

  lemma {:induction false} HeadSet(e: Edit)
    ensures SetAll(EMPTY, Head(e)) == e.(compactPointers := [], deleted := [], added := [])
  {
    var a, b, c, d, f := NameField(e), LogField(e), PrevLogField(e), NextFileField(e), SequenceField(e);
    SetAllAppend(EMPTY, a + b + c + d, f);
    SetAllAppend(EMPTY, a + b + c, d);
    SetAllAppend(EMPTY, a + b, c);
    SetAllAppend(EMPTY, a, b);
    OneField(EMPTY, a);
    OneField(SetAll(EMPTY, a), b);
    OneField(SetAll(SetAll(EMPTY, a), b), c);
    OneField(SetAll(SetAll(SetAll(EMPTY, a), b), c), d);
    OneField(SetAll(SetAll(SetAll(SetAll(EMPTY, a), b), c), d), f);
  }

  lemma {:induction false} OneField(e: Edit, fields: seq<Field>)
    requires |fields| <= 1
    ensures SetAll(e, fields) == if fields == [] then e else Set(e, fields[0])
  {
    if fields != [] {
      assert fields[1..] == [];
    }
  }

  /** Setting the fields of an edit on an empty one gives the edit back. */
  lemma {:induction false} FieldsRestoreEdit(e: Edit)
    requires Sorted(e.deleted)
    ensures SetAll(EMPTY, Fields(e)) == e
  {
    hide Set, Head;
    var head := e.(compactPointers := [], deleted := [], added := []);
    SetAllAppend(EMPTY, Head(e) + Pointers(e.compactPointers) + Deletions(e.deleted), Additions(e.added));
    SetAllAppend(EMPTY, Head(e) + Pointers(e.compactPointers), Deletions(e.deleted));
    SetAllAppend(EMPTY, Head(e), Pointers(e.compactPointers));
    HeadSet(e);
    PointersSet(head, e.compactPointers);
    assert [] + e.compactPointers == e.compactPointers;
    assert [] + e.deleted == e.deleted && [] + e.added == e.added;
    DeletionsSet(head.(compactPointers := e.compactPointers), e.deleted);
    AdditionsSet(head.(compactPointers := e.compactPointers, deleted := e.deleted), e.added);
  }

  /** EncodeTo. */
  function Encoded(e: Edit): seq<Byte> {
    EncodedFields(Fields(e))
  }

  /** DecodeFrom into an edit.  Clear forgets everything but the compaction pointers. */
  function Decoded(before: Edit, record: seq<Byte>): Edit {
    SetAll(EMPTY.(compactPointers := before.compactPointers), ParseFields(record).fields)
  }

  lemma {:induction false} EditRoundTrip(e: Edit)
    requires FieldsFit(e) && Sorted(e.deleted)
    ensures Decoded(EMPTY, Encoded(e)) == e && ParseFields(Encoded(e)).outcome == Done
  {
    hide SetAll, ParseFields, Fields;
    FieldsRoundTrip(Fields(e));
    FieldsRestoreEdit(e);
  }

  lemma {:induction false} PointersStay(e: Edit, pointers: seq<(nat, seq<Byte>)>, fields: seq<Field>)
    ensures SetAll(e.(compactPointers := pointers + e.compactPointers), fields)
         == SetAll(e, fields).(compactPointers := pointers + SetAll(e, fields).compactPointers)
    decreases |fields|
  {
    if fields != [] {
      var f := fields[0];
      assert f.CompactPointer? ==>
        pointers + e.compactPointers + [(f.level, f.key)] == pointers + (e.compactPointers + [(f.level, f.key)]);
      PointersStay(Set(e, f), pointers, fields[1..]);
    }
  }

  /**
   * Decoding into an edit that has been used before restores what was encoded exactly when that
   * edit held no compaction pointers: Clear keeps them, and decoding adds to them.
   */
  lemma {:induction false} ReusedEditKeepsPointers(before: Edit, e: Edit)
    requires FieldsFit(e) && Sorted(e.deleted)
    ensures Decoded(before, Encoded(e)) == e.(compactPointers := before.compactPointers + e.compactPointers)
    ensures Decoded(before, Encoded(e)) == e <==> before.compactPointers == []
  {
    hide SetAll, ParseFields, Fields;
    FieldsRoundTrip(Fields(e));
    FieldsRestoreEdit(e);
    assert before.compactPointers + EMPTY.compactPointers == before.compactPointers;
    PointersStay(EMPTY, before.compactPointers, Fields(e));
    assert |before.compactPointers + e.compactPointers| == |before.compactPointers| + |e.compactPointers|;
  }

  // ---------- the class ----------

  class VersionEdit {
    var edit: Edit

    constructor ()
      ensures edit == EMPTY
    {
      edit := EMPTY;
    }

    /** Clear leaves the compaction pointers in place. */
    method Clear()
      modifies this
      ensures edit == EMPTY.(compactPointers := old(edit.compactPointers))
    {
      edit := edit.(comparator := None, logNumber := None, prevLogNumber := None, nextFileNumber := None,
                    lastSequence := None, deleted := [], added := []);
    }

    method EncodeTo() returns (dst: seq<Byte>)
      ensures dst == Encoded(edit)
    {
      hide EncodedField, EncodedFields, Head, Pointers, Deletions, Additions;
      dst := EncodedFields(Head(edit));
      ghost var done := Head(edit);
      var i := 0;
      while i < |edit.compactPointers|
        invariant i <= |edit.compactPointers|
        invariant done == Head(edit) + Pointers(edit.compactPointers)[..i]
        invariant dst == EncodedFields(done)
      {
        PointerAt(edit.compactPointers, i);
        var f := CompactPointer(edit.compactPointers[i].0, edit.compactPointers[i].1);
        OneMoreField(done, f);
        dst, done := dst + EncodedField(f), done + [f];
        i := i + 1;
      }
      ghost var before := done;
      assert before == Head(edit) + Pointers(edit.compactPointers);
      i := 0;
      while i < |edit.deleted|
        invariant i <= |edit.deleted|
        invariant done == before + Deletions(edit.deleted)[..i]
        invariant dst == EncodedFields(done)
      {
        DeletionAt(edit.deleted, i);
        var f := DeletedFile(edit.deleted[i].0, edit.deleted[i].1);
        OneMoreField(done, f);
        dst, done := dst + EncodedField(f), done + [f];
        i := i + 1;
      }
      before := done;
      assert before == Head(edit) + Pointers(edit.compactPointers) + Deletions(edit.deleted);
      i := 0;
      while i < |edit.added|
        invariant i <= |edit.added|
        invariant done == before + Additions(edit.added)[..i]
        invariant dst == EncodedFields(done)
      {
        AdditionAt(edit.added, i);
        OneMoreField(done, NewFile(edit.added[i]));
        dst, done := dst + EncodedField(NewFile(edit.added[i])), done + [NewFile(edit.added[i])];
        i := i + 1;
      }
      assert done == Fields(edit);
    }

    method DecodeFrom(record: seq<Byte>) returns (outcome: Outcome)
      modifies this
      ensures edit == Decoded(old(edit), record)
      ensures outcome == ParseFields(record).outcome
    {
      hide Set, TakeField, GetVarint32;
      ghost var before := edit;
      Clear();
      var input := record;
      while true
        invariant SetAll(edit, ParseFields(input).fields) == Decoded(before, record)
        invariant ParseFields(input).outcome == ParseFields(record).outcome
        decreases |input|
      {
        match GetVarint32(input)
        case Failed =>
          return if input == [] then Done else Corrupt("invalid tag");
        case Got(tag, rest) =>
          match TakeField(tag, rest) {
            case Bad(message) => return Corrupt(message);
            case Took(f, further) =>
              FirstField(edit, f, ParseFields(further).fields);
              edit := Set(edit, f);
              input := further;
          }
      }
    }
  }

  lemma {:induction false} FirstField(e: Edit, f: Field, fields: seq<Field>)
    ensures SetAll(e, [f] + fields) == SetAll(Set(e, f), fields)
  {
    assert ([f] + fields)[1..] == fields;
  }

  lemma {:induction false} OneMoreField(fields: seq<Field>, f: Field)
    ensures EncodedFields(fields + [f]) == EncodedFields(fields) + EncodedField(f)
    decreases |fields|
  {
    hide EncodedField;
    if fields == [] {
      assert fields + [f] == [f] && EncodedFields([f][1..]) == [];
    } else {
      assert (fields + [f])[1..] == fields[1..] + [f];
      OneMoreField(fields[1..], f);
    }
  }

  lemma {:induction false} PointerAt(pointers: seq<(nat, seq<Byte>)>, i: nat)
    requires i < |pointers|
    ensures Pointers(pointers)[..i + 1] == Pointers(pointers)[..i] + [CompactPointer(pointers[i].0, pointers[i].1)]
  {
  }

  lemma {:induction false} DeletionAt(deleted: seq<Deleted>, i: nat)
    requires i < |deleted|
    ensures Deletions(deleted)[..i + 1] == Deletions(deleted)[..i] + [DeletedFile(deleted[i].0, deleted[i].1)]
  {
  }

  lemma {:induction false} AdditionAt(added: seq<NewFileEntry>, i: nat)
    requires i < |added|
    ensures Additions(added)[..i + 1] == Additions(added)[..i] + [NewFile(added[i])]
  {
  }

  // ---------- the manifest ----------

  function EncodedAll(edits: seq<Edit>): (r: seq<seq<Byte>>)
    ensures |r| == |edits|
  {
    seq(|edits|, i requires 0 <= i < |edits| => Encoded(edits[i]))
  }

  /** The manifest cut off anywhere decodes to the edits whose records it holds completely. */
  lemma {:induction false} ManifestRoundTrip(crc: Crc32c.Checksum, edits: seq<Edit>, n: nat, k: nat)
    requires forall e | e in edits :: FieldsFit(e) && Sorted(e.deleted)
    requires n <= |LogFormat.WriteAll(crc, 0, EncodedAll(edits))|
    requires k <= |edits| && |LogFormat.WriteAll(crc, 0, EncodedAll(edits)[..k])| <= n
    requires k < |edits| ==> n < |LogFormat.WriteAll(crc, 0, EncodedAll(edits)[..k + 1])|
    ensures (
      var contents := LogFormat.ReadAll(crc, LogFormat.WriteAll(crc, 0, EncodedAll(edits))[..n], 0);
      && contents.reports == [] && |contents.records| == k
      && forall i | 0 <= i < k ::
           Decoded(EMPTY, contents.records[i]) == edits[i] && ParseFields(contents.records[i]).outcome == Done)
  {
    hide Decoded, ParseFields, Encoded, FieldsFit, LogFormat.WriteAll, LogFormat.ReadAll;
    LogRoundTrip.TruncatedLogYieldsWholeRecords(crc, EncodedAll(edits), n, k);
    forall i | 0 <= i < k
      ensures Decoded(EMPTY, EncodedAll(edits)[..k][i]) == edits[i] && ParseFields(EncodedAll(edits)[..k][i]).outcome == Done
    {
      assert edits[i] in edits;
      EditRoundTrip(edits[i]);
    }
  }
}
