/**
 * Readers of the skip list run while one writer inserts.  A step is one load of a reader or one
 * store of the writer; steps of different threads interleave in any way.
 */
module ConcurrentSkipList {
  import opened SkipLists

  datatype Writer =
    | Idle
    /** Linking node x bottom-up; `prepared` says that its own link at `level` has been stored. */
    | Linking(x: nat, prev: seq<nat>, level: nat, prepared: bool)

  /** What a reader looks for: FindGreaterOrEqual, FindLessThan or FindLast. */
  datatype Query = FirstFrom(key: Key) | LastBefore(key: Key) | Last

  datatype Reader =
    | Entering(query: Query)
    | Searching(query: Query, x: nat, level: nat)
    | Found(query: Query, result: int)

  datatype State = State(nodes: Arena, maxHeight: nat, linked: seq<set<nat>>, writer: Writer, readers: seq<Reader>)

  datatype Step =
    | RaiseMaxHeight(height: nat)
    | Allocate(key: Key, height: nat, prev: seq<nat>)
    | SetOwnNext
    | SetPrevNext
    | NewReader(query: Query)
    /** The load of the list height may be stale. */
    | LoadMaxHeight(r: nat, height: nat)
    | LoadNext(r: nat)

  function Empty(): State {
    State([Node(0.0, seq(MAX_HEIGHT, _ => NIL))], 1, seq(MAX_HEIGHT, _ => {}), Idle, [])
  }

  /** Whether the search moves on to the node that was loaded. */
  predicate MovesTo(nodes: Arena, q: Query, next: int)
    requires next == NIL || 0 <= next < |nodes|
  {
    match q
    case Last => next != NIL
    case _ => KeyIsAfter(nodes, q.key, next)
  }

  /** One turn of the loop of all three searches, `next` being what was loaded. */
  function Advance(nodes: Arena, q: Query, x: nat, level: nat, next: int): Reader
    requires next == NIL || 0 <= next < |nodes|
  {
    if MovesTo(nodes, q, next) then Searching(q, next, level)
    else if level == 0 then Found(q, if q.FirstFrom? then next else x)
    else Searching(q, x, level - 1)
  }

  /** A place in a search: at the head, or at a node of the level that the search may have moved to. */
  ghost predicate PlaceFor(nodes: Arena, linked: seq<set<nat>>, q: Query, x: nat, i: nat) {
    match q
    case Last => i < |linked| && (x == 0 || (x in linked[i] && x < |nodes|))
    case _ => IsPlace(nodes, linked, q.key, x, i)
  }

  /** x is the last of a set of nodes, with a key below `bound` if there is one; the head if there is none. */
  ghost predicate IsLast(nodes: Arena, level: set<nat>, q: Query, x: int)
    requires InArena(nodes, level) && !q.FirstFrom?
  {
    && (x == 0 || (x > 0 && x in level && (q.LastBefore? ==> nodes[x].key < q.key)))
    && forall z | z in level && (q.LastBefore? ==> nodes[z].key < q.key) :: x > 0 && nodes[z].key <= nodes[x].key
  }

  ghost predicate Answers(nodes: Arena, level: set<nat>, q: Query, result: int)
    requires InArena(nodes, level)
  {
    match q
    case FirstFrom(key) => IsFirst(nodes, level, key, result)
    case _ => IsLast(nodes, level, q, result)
  }

  /** The link read at a place is written, and leads to a node of that level or nowhere. */
  lemma {:induction false} LinkAt(nodes: Arena, maxHeight: nat, linked: seq<set<nat>>, q: Query, x: nat, i: nat)
    requires Coherent(nodes, maxHeight, linked) && PlaceFor(nodes, linked, q, x, i)
    ensures InArena(nodes, linked[i])
    ensures x < |nodes| && i < |nodes[x].next| && IsNext(nodes, linked[i], x, nodes[x].next[i])
  {
    if q.Last? {
      assert LevelOk(nodes, linked, i);
      LinkIsWritten(nodes, maxHeight, linked, if x < |nodes| then nodes[x].key + 1.0 else 0.0, x, i);
    } else {
      LinkIsWritten(nodes, maxHeight, linked, q.key, x, i);
    }
  }

  /** A search that cannot go on at level 0 has its answer. */
  lemma {:induction false} EndsWithAnswer(nodes: Arena, maxHeight: nat, linked: seq<set<nat>>, q: Query, x: nat)
    requires Coherent(nodes, maxHeight, linked) && PlaceFor(nodes, linked, q, x, 0)
    requires x < |nodes| && 0 < |nodes[x].next|
    requires nodes[x].next[0] == NIL || 0 <= nodes[x].next[0] < |nodes|
    requires !MovesTo(nodes, q, nodes[x].next[0])
    ensures InArena(nodes, linked[0])
    ensures Answers(nodes, linked[0], q, if q.FirstFrom? then nodes[x].next[0] else x)
  {
    LinkAt(nodes, maxHeight, linked, q, x, 0);
    if q.FirstFrom? {
      SearchEnds(nodes, maxHeight, linked, q.key, x);
    } else {
      assert LevelOk(nodes, linked, 0);
      forall z | z in linked[0] && (q.LastBefore? ==> nodes[z].key < q.key) ensures x > 0 && nodes[z].key <= nodes[x].key {
        assert !Before(nodes, x, z);
      }
    }
  }

  // ---------- what every step keeps ----------

  ghost predicate ReaderOk(st: State, r: Reader) {
    r.Searching? ==> r.level < MAX_HEIGHT && PlaceFor(st.nodes, st.linked, r.query, r.x, r.level)
  }

  ghost predicate WriterOk(st: State) {
    st.writer.Linking? ==>
      var w := st.writer;
      && Inserting(st.nodes, st.maxHeight, st.linked, w.x, w.prev, w.level)
      && w.level < |st.nodes[w.x].next|
      && (w.prepared ==>
          && w.prev[w.level] < |st.nodes| && w.prev[w.level] != w.x
          && w.level < |st.nodes[w.prev[w.level]].next|
          && st.nodes[w.x].next[w.level] == st.nodes[w.prev[w.level]].next[w.level])
  }

  ghost predicate Inv(st: State) {
    && Coherent(st.nodes, st.maxHeight, st.linked)
    && WriterOk(st)
    && forall r | 0 <= r < |st.readers| :: ReaderOk(st, st.readers[r])
  }

  /** The places that the writer's search finds for an absent key. */
  ghost predicate Belongs(st: State, key: Key, height: nat, prev: seq<nat>) {
    && 0 < |st.linked|
    && (forall n | n in st.linked[0] :: n < |st.nodes| && st.nodes[n].key != key)
    && height <= |prev| && forall j | 0 <= j < height :: IsGap(st.nodes, st.linked, key, prev[j], j)
  }

  /** The link a search loads exists and has been written. */
  predicate LoadIsDefined(st: State, t: Reader)
    requires t.Searching?
  {
    && t.x < |st.nodes| && t.level < |st.nodes[t.x].next|
    && var next := st.nodes[t.x].next[t.level]; next == NIL || 0 < next < |st.nodes|
  }

  /** Both links a store is about exist. */
  predicate StoreIsDefined(st: State)
    requires st.writer.Linking?
  {
    var w := st.writer;
    && w.level < |w.prev| && w.x < |st.nodes| && w.prev[w.level] < |st.nodes| && w.level < |st.linked|
    && w.level < |st.nodes[w.x].next| && w.level < |st.nodes[w.prev[w.level]].next|
  }

  ghost predicate Next(st: State, step: Step, st': State) {
    match step
    case RaiseMaxHeight(height) =>
      st.writer.Idle? && st.maxHeight <= height <= MAX_HEIGHT && st' == st.(maxHeight := height)
    case Allocate(key, height, prev) =>
      && st.writer.Idle? && 0 < height <= st.maxHeight && Belongs(st, key, height, prev)
      && st' == st.(nodes := st.nodes + [NewNode(key, height)], writer := Linking(|st.nodes|, prev, 0, false))
    case SetOwnNext =>
      && st.writer.Linking? && !st.writer.prepared && StoreIsDefined(st)
      && var w := st.writer;
         st' == st.(nodes := WithNext(st.nodes, w.x, w.level, st.nodes[w.prev[w.level]].next[w.level]),
                    writer := w.(prepared := true))
    case SetPrevNext =>
      && st.writer.Linking? && st.writer.prepared && StoreIsDefined(st)
      && var w := st.writer;
         st' == st.(nodes := WithNext(st.nodes, w.prev[w.level], w.level, w.x),
                    linked := st.linked[w.level := st.linked[w.level] + {w.x}],
                    writer := if w.level + 1 == |st.nodes[w.x].next| then Idle
                              else Linking(w.x, w.prev, w.level + 1, false))
    case NewReader(query) => st' == st.(readers := st.readers + [Entering(query)])
    case LoadMaxHeight(r, height) =>
      && r < |st.readers| && st.readers[r].Entering? && 0 < height <= st.maxHeight
      && st' == st.(readers := st.readers[r := Searching(st.readers[r].query, 0, height - 1)])
    case LoadNext(r) =>
      && r < |st.readers| && st.readers[r].Searching? && LoadIsDefined(st, st.readers[r])
      && var t := st.readers[r];
         st' == st.(readers := st.readers[r := Advance(st.nodes, t.query, t.x, t.level, st.nodes[t.x].next[t.level])])
  }

  /** Loads and stores are always defined: no search ever follows a link that has not been written. */
  lemma {:induction false} StepsAreDefined(st: State)
    requires Inv(st)
    ensures forall r | 0 <= r < |st.readers| && st.readers[r].Searching? :: LoadIsDefined(st, st.readers[r])
    ensures st.writer.Linking? ==> StoreIsDefined(st)
  {
    forall r | 0 <= r < |st.readers| && st.readers[r].Searching? ensures LoadIsDefined(st, st.readers[r]) {
      var t := st.readers[r];
      assert ReaderOk(st, t);
      LinkAt(st.nodes, st.maxHeight, st.linked, t.query, t.x, t.level);
    }
    if st.writer.Linking? {
      var w := st.writer;
      StoreOwnLink(st.nodes, st.maxHeight, st.linked, w.x, w.prev, w.level);
    }
  }

  /** Stores only add nodes to levels, and never change a key. */
  ghost predicate Grown(st: State, st': State) {
    && |st.nodes| <= |st'.nodes| && (forall n | 0 <= n < |st.nodes| :: st'.nodes[n].key == st.nodes[n].key)
    && |st.linked| == |st'.linked| && (forall i | 0 <= i < |st.linked| :: st.linked[i] <= st'.linked[i])
  }

  lemma {:induction false} GrowthKeepsReader(st: State, st': State, r: Reader)
    requires Grown(st, st') && ReaderOk(st, r)
    ensures ReaderOk(st', r)
  {
  }

  lemma {:induction false} WriterStepKeeps(st: State, step: Step, st': State)
    requires Inv(st) && Next(st, step, st')
    requires step.RaiseMaxHeight? || step.Allocate? || step.SetOwnNext? || step.SetPrevNext?
    ensures Coherent(st'.nodes, st'.maxHeight, st'.linked) && WriterOk(st') && Grown(st, st')
    ensures st'.readers == st.readers
  {
    hide Coherent, IsGap;
    var w := st.writer;
    match step
    case RaiseMaxHeight(height) =>
      RaiseHeight(st.nodes, st.maxHeight, st.linked, height);
    case Allocate(key, height, prev) =>
      BeginInsert(st.nodes, st.maxHeight, st.linked, key, height, prev);
      InsertingIsCoherent(st'.nodes, st'.maxHeight, st'.linked, |st.nodes|, prev, 0);
    case SetOwnNext =>
      StoreOwnLink(st.nodes, st.maxHeight, st.linked, w.x, w.prev, w.level);
      InsertingIsCoherent(st'.nodes, st'.maxHeight, st'.linked, w.x, w.prev, w.level);
    case SetPrevNext =>
      StoreLinkTo(st.nodes, st.maxHeight, st.linked, w.x, w.prev, w.level);
      InsertingIsCoherent(st'.nodes, st'.maxHeight, st'.linked, w.x, w.prev, w.level + 1);
  }

  lemma {:induction false} LoadKeepsReader(st: State, r: nat, st': State)
    requires Inv(st) && Next(st, LoadNext(r), st')
    ensures ReaderOk(st, st'.readers[r])
  {
    var t := st.readers[r];
    assert ReaderOk(st, t);
    LinkAt(st.nodes, st.maxHeight, st.linked, t.query, t.x, t.level);
  }

  lemma {:induction false} ReaderStepKeeps(st: State, step: Step, st': State)
    requires Inv(st) && Next(st, step, st')
    requires step.NewReader? || step.LoadMaxHeight? || step.LoadNext?
    ensures Inv(st') && Grown(st, st')
  {
    hide Coherent, Inserting, PlaceFor;
    forall r | 0 <= r < |st'.readers| ensures ReaderOk(st', st'.readers[r]) {
      if step.LoadNext? && step.r == r {
        LoadKeepsReader(st, r, st');
      } else if r < |st.readers| {
        assert ReaderOk(st, st.readers[r]);
      }
      HeadIsPlace(st, r);
    }
  }

  lemma {:induction false} HeadIsPlace(st: State, r: nat)
    requires Inv(st)
    ensures |st.linked| == MAX_HEIGHT && st.maxHeight <= MAX_HEIGHT
    ensures forall q, i | 0 <= i < MAX_HEIGHT :: PlaceFor(st.nodes, st.linked, q, 0, i)
  {
  }

  /** Every load and every store keeps the invariant, and nodes only come in. */
  lemma {:induction false} StepKeepsInv(st: State, step: Step, st': State)
    requires Inv(st) && Next(st, step, st')
    ensures Inv(st') && Grown(st, st')
  {
    hide Coherent, WriterOk, Next;
    if step.RaiseMaxHeight? || step.Allocate? || step.SetOwnNext? || step.SetPrevNext? {
      WriterStepKeeps(st, step, st');
      forall r | 0 <= r < |st'.readers| ensures ReaderOk(st', st'.readers[r]) {
        GrowthKeepsReader(st, st', st.readers[r]);
      }
    } else {
      ReaderStepKeeps(st, step, st');
    }
  }

  // ---------- runs ----------

  ghost predicate IsRun(states: seq<State>, steps: seq<Step>) {
    && |states| == |steps| + 1
    && states[0] == Empty()
    && forall i | 0 <= i < |steps| :: Next(states[i], steps[i], states[i + 1])
  }

  lemma {:induction false} EmptyOk()
    ensures Inv(Empty())
  {
    forall i | 0 <= i < MAX_HEIGHT ensures LevelOk(Empty().nodes, Empty().linked, i) {
    }
  }

  lemma {:induction false} RunKeepsInv(states: seq<State>, steps: seq<Step>, n: nat)
    requires IsRun(states, steps) && n < |states|
    ensures Inv(states[n])
  {
    if n == 0 {
      EmptyOk();
    } else {
      RunKeepsInv(states, steps, n - 1);
      StepKeepsInv(states[n - 1], steps[n - 1], states[n]);
    }
  }

  lemma {:induction false} RunGrows(states: seq<State>, steps: seq<Step>, m: nat, n: nat)
    requires IsRun(states, steps) && m <= n < |states|
    ensures Grown(states[m], states[n])
    decreases n
  {
    hide Next, Inv;
    if m < n {
      RunGrows(states, steps, m, n - 1);
      RunKeepsInv(states, steps, n - 1);
      StepKeepsInv(states[n - 1], steps[n - 1], states[n]);
    }
  }

  /** At every moment of every run each level is a sorted sublist of the one below. */
  lemma {:induction false} LevelsStayNested(states: seq<State>, steps: seq<Step>, n: nat, i: nat)
    requires IsRun(states, steps) && n < |states| && i + 1 < MAX_HEIGHT
    ensures |states[n].linked| == MAX_HEIGHT
    ensures LevelOk(states[n].nodes, states[n].linked, i) && LevelOk(states[n].nodes, states[n].linked, i + 1)
    ensures states[n].linked[i + 1] <= states[n].linked[i]
  {
    RunKeepsInv(states, steps, n);
  }

  /**
   * In any interleaving a search returns the first node at or after its key, the last one before it, or the last of all, of
   * the nodes that are in the list at the moment of its last load.
   */
  lemma {:induction false} SearchIsLinearizable(states: seq<State>, steps: seq<Step>, n: nat, r: nat)
    requires IsRun(states, steps) && n < |steps| && steps[n] == LoadNext(r)
    requires states[n + 1].readers[r].Found?
    ensures (
      var st, t := states[n], states[n + 1].readers[r];
      && st.linked != [] && InArena(st.nodes, st.linked[0])
      && Answers(st.nodes, st.linked[0], t.query, t.result))
  {
    RunKeepsInv(states, steps, n);
    var st := states[n];
    var t := st.readers[r];
    assert Next(st, steps[n], states[n + 1]);
    assert ReaderOk(st, t);
    LinkAt(st.nodes, st.maxHeight, st.linked, t.query, t.x, t.level);
    EndsWithAnswer(st.nodes, st.maxHeight, st.linked, t.query, t.x);
  }

  /** A key that is in the list at some moment is found by every search for it that ends later. */
  lemma {:induction false} PublishedKeyIsFound(states: seq<State>, steps: seq<Step>, m: nat, n: nat, r: nat, node: nat)
    requires IsRun(states, steps) && m <= n < |steps| && steps[n] == LoadNext(r)
    requires states[n + 1].readers[r].Found?
    requires states[m].linked != [] && node in states[m].linked[0] && node < |states[m].nodes|
    requires states[n + 1].readers[r].query == FirstFrom(states[m].nodes[node].key)
    ensures states[n + 1].readers[r].result == node
  {
    SearchIsLinearizable(states, steps, n, r);
    RunGrows(states, steps, m, n);
    RunKeepsInv(states, steps, n);
    var st := states[n];
    assert node in st.linked[0];
    assert LevelOk(st.nodes, st.linked, 0);
  }
}
