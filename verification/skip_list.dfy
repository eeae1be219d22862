/**
 * The skip list of a memtable.  Nodes live in an arena and are named by their index; node 0 is
 * the head.  What the links mean is said with the set of nodes linked at each level: the link of a
 * node is its successor in that set.
 */
module SkipLists {
  type Key = real

  const MAX_HEIGHT := 12
  const NIL := -1
  /** A link of a new node that has not been written yet. */
  const UNSET := -2

  datatype Node = Node(key: Key, next: seq<int>)

  type Arena = seq<Node>

  /** A node whose links have not been written. */
  function NewNode(key: Key, height: nat): Node {
    Node(key, seq(height, _ => UNSET))
  }

  /** The head precedes every node at levels not used before. */
  function Padded(prev: seq<nat>, height: nat): (r: seq<nat>)
    ensures |r| >= height
  {
    if height <= |prev| then prev else prev + seq(height - |prev|, _ => 0)
  }

  /** Node m comes before node n, the head before all. */
  predicate Before(nodes: Arena, m: nat, n: nat)
    requires m < |nodes| && n < |nodes|
  {
    n != 0 && (m == 0 || nodes[m].key < nodes[n].key)
  }

  ghost predicate InArena(nodes: Arena, level: set<nat>) {
    forall z | z in level :: 0 < z < |nodes|
  }

  ghost predicate DistinctKeys(nodes: Arena, level: set<nat>)
    requires InArena(nodes, level)
  {
    forall m, n | m in level && n in level && m != n :: nodes[m].key != nodes[n].key
  }

  /** y is the successor of n in a set of nodes. */
  ghost predicate IsNext(nodes: Arena, level: set<nat>, n: nat, y: int)
    requires InArena(nodes, level) && n < |nodes|
  {
    if y == NIL then forall z | z in level :: !Before(nodes, n, z)
    else
      && 0 <= y && y in level && Before(nodes, n, y)
      && forall z | z in level && Before(nodes, n, z) :: z == y || Before(nodes, y, z)
  }

  /** Nodes linked at a level exist, reach up to that level, and are found through its links. */
  ghost predicate LevelOk(nodes: Arena, linked: seq<set<nat>>, i: nat)
    requires i < |linked|
  {
    && InArena(nodes, linked[i]) && DistinctKeys(nodes, linked[i])
    && 0 < |nodes|
    && (forall n | n in linked[i] || n == 0 :: i < |nodes[n].next| && IsNext(nodes, linked[i], n, nodes[n].next[i]))
  }

  /** Every level is a sorted sublist of the one below. */
  ghost predicate Coherent(nodes: Arena, maxHeight: nat, linked: seq<set<nat>>) {
    && |linked| == MAX_HEIGHT && 0 < maxHeight <= MAX_HEIGHT
    && (forall i | 0 <= i < MAX_HEIGHT :: LevelOk(nodes, linked, i))
    && (forall i, j | 0 <= i <= j < MAX_HEIGHT :: linked[j] <= linked[i])
    && (forall i | maxHeight <= i < MAX_HEIGHT :: linked[i] == {})
  }

  /** y is the first node of a set at or after a key. */
  ghost predicate IsFirst(nodes: Arena, level: set<nat>, key: Key, y: int)
    requires InArena(nodes, level)
  {
    if y == NIL then forall z | z in level :: nodes[z].key < key
    else
      && 0 <= y && y in level && nodes[y].key >= key
      && forall z | z in level && nodes[z].key >= key :: nodes[y].key <= nodes[z].key
  }

  /** KeyIsAfterNode: a link that leads to nothing is infinite. */
  predicate KeyIsAfter(nodes: Arena, key: Key, n: int)
    requires n == NIL || 0 <= n < |nodes|
  {
    n != NIL && nodes[n].key < key
  }

  /** A place in a search for `key`: at the head, or at a node linked at this level with a smaller key. */
  ghost predicate IsPlace(nodes: Arena, linked: seq<set<nat>>, key: Key, x: nat, i: nat) {
    && i < |linked|
    && (x == 0 || (x in linked[i] && x < |nodes| && nodes[x].key < key))
  }

  // ---------- one load ----------

  /** The link read at a place is written, and leads to a node of that level or nowhere. */
  lemma {:induction false} LinkIsWritten(nodes: Arena, maxHeight: nat, linked: seq<set<nat>>, key: Key, x: nat, i: nat)
    requires Coherent(nodes, maxHeight, linked) && IsPlace(nodes, linked, key, x, i)
    ensures InArena(nodes, linked[i])
    ensures x < |nodes| && i < |nodes[x].next| && IsNext(nodes, linked[i], x, nodes[x].next[i])
  {
    assert LevelOk(nodes, linked, i);
  }

  /** A search that cannot go on at level 0 has found the first node at or after the key. */
  lemma {:induction false} SearchEnds(nodes: Arena, maxHeight: nat, linked: seq<set<nat>>, key: Key, x: nat)
    requires Coherent(nodes, maxHeight, linked) && IsPlace(nodes, linked, key, x, 0)
    requires x < |nodes| && 0 < |nodes[x].next|
    requires nodes[x].next[0] == NIL || 0 <= nodes[x].next[0] < |nodes|
    requires !KeyIsAfter(nodes, key, nodes[x].next[0])
    ensures InArena(nodes, linked[0]) && IsFirst(nodes, linked[0], key, nodes[x].next[0])
  {
    LinkIsWritten(nodes, maxHeight, linked, key, x, 0);
    assert LevelOk(nodes, linked, 0);
  }

  // ---------- the stores of Insert ----------

  function WithNext(nodes: Arena, n: nat, i: nat, y: int): Arena
    requires n < |nodes| && i < |nodes[n].next|
  {
    nodes[n := nodes[n].(next := nodes[n].next[i := y])]
  }

  /** Where a key goes at a level: after p, before what follows p. */
  ghost predicate IsGap(nodes: Arena, linked: seq<set<nat>>, key: Key, p: nat, i: nat) {
    && IsPlace(nodes, linked, key, p, i)
    && p < |nodes| && i < |nodes[p].next|
    && (var y := nodes[p].next[i]; y == NIL || (0 < y < |nodes| && nodes[y].key > key))
  }

  /** A node that is not linked yet changes nothing. */
  lemma {:induction false} AddNode(nodes: Arena, maxHeight: nat, linked: seq<set<nat>>, node: Node)
    requires Coherent(nodes, maxHeight, linked)
    ensures Coherent(nodes + [node], maxHeight, linked)
  {
    var nodes' := nodes + [node];
    forall i | 0 <= i < MAX_HEIGHT ensures LevelOk(nodes', linked, i) {
      assert LevelOk(nodes, linked, i);
      forall n | n in linked[i] || n == 0 ensures IsNext(nodes', linked[i], n, nodes'[n].next[i]) {
        assert IsNext(nodes, linked[i], n, nodes[n].next[i]);
      }
    }
  }

  /** Writing a link of a node at a level where it is not linked yet changes nothing. */
  lemma {:induction false} PrepareLink(nodes: Arena, maxHeight: nat, linked: seq<set<nat>>, x: nat, i: nat, y: int)
    requires Coherent(nodes, maxHeight, linked)
    requires 0 < x < |nodes| && i < MAX_HEIGHT && i < |nodes[x].next| && x !in linked[i]
    ensures Coherent(WithNext(nodes, x, i, y), maxHeight, linked)
  {
    var nodes' := WithNext(nodes, x, i, y);
    forall j | 0 <= j < MAX_HEIGHT ensures LevelOk(nodes', linked, j) {
      assert LevelOk(nodes, linked, j);
      forall n | n in linked[j] || n == 0 ensures IsNext(nodes', linked[j], n, nodes'[n].next[j]) {
        assert IsNext(nodes, linked[j], n, nodes[n].next[j]);
      }
    }
  }

  /** Successors depend on keys only. */
  lemma {:induction false} NextBySameKeys(nodes: Arena, nodes': Arena, level: set<nat>, n: nat, y: int)
    requires |nodes'| == |nodes| && forall m | 0 <= m < |nodes| :: nodes'[m].key == nodes[m].key
    requires InArena(nodes, level) && n < |nodes|
    ensures IsNext(nodes', level, n, y) <==> IsNext(nodes, level, n, y)
  {
  }

  /** A node x put between p and its successor y: only p gets a new successor. */
  lemma {:induction false} SuccessorsAround(nodes: Arena, level: set<nat>, x: nat, p: nat, y: int)
    requires InArena(nodes, level) && DistinctKeys(nodes, level) && 0 < x < |nodes| && p < |nodes|
    requires p == 0 || p in level
    requires Before(nodes, p, x) && IsNext(nodes, level, p, y)
    requires y == NIL || nodes[y].key > nodes[x].key
    requires forall n | n in level :: nodes[n].key != nodes[x].key
    ensures IsNext(nodes, level + {x}, p, x) && IsNext(nodes, level + {x}, x, y)
  {
  }

  lemma {:induction false} SuccessorsElsewhere(nodes: Arena, level: set<nat>, x: nat, p: nat, y: int, n: nat, z: int)
    requires InArena(nodes, level) && DistinctKeys(nodes, level) && 0 < x < |nodes| && p < |nodes|
    requires p == 0 || p in level
    requires Before(nodes, p, x) && IsNext(nodes, level, p, y)
    requires y == NIL || nodes[y].key > nodes[x].key
    requires n != p && (n == 0 || n in level) && n < |nodes| && IsNext(nodes, level, n, z)
    ensures IsNext(nodes, level + {x}, n, z)
  {
    if Before(nodes, n, x) {
      assert Before(nodes, n, p) || Before(nodes, p, n);
    }
  }

  /** Publishing x at level i behind p, once its own link is written, adds it to that level. */
  lemma {:induction false} PublishLevel(nodes: Arena, linked: seq<set<nat>>, x: nat, i: nat, p: nat)
    requires i < |linked| && LevelOk(nodes, linked, i)
    requires 0 < x < |nodes| && x !in linked[i] && i < |nodes[x].next|
    requires forall n | n in linked[i] :: nodes[n].key != nodes[x].key
    requires IsGap(nodes, linked, nodes[x].key, p, i) && nodes[x].next[i] == nodes[p].next[i]
    ensures LevelOk(WithNext(nodes, p, i, x), linked[i := linked[i] + {x}], i)
  {
    var nodes', level := WithNext(nodes, p, i, x), linked[i];
    var y := nodes[p].next[i];
    assert IsNext(nodes, level, p, y);
    SuccessorsAround(nodes, level, x, p, y);
    forall n | n in level + {x} || n == 0
      ensures i < |nodes'[n].next| && IsNext(nodes', level + {x}, n, nodes'[n].next[i])
    {
      hide IsNext;
      NextBySameKeys(nodes, nodes', level + {x}, n, nodes'[n].next[i]);
      if n != x && n != p {
        SuccessorsElsewhere(nodes, level, x, p, y, n, nodes[n].next[i]);
      }
    }
  }

  /** ... and leaves the other levels as they are: the list stays coherent, at each level a sorted sublist of the level
      below, and holds the new node from the moment it is published there. */
  lemma {:induction false} Publish(nodes: Arena, maxHeight: nat, linked: seq<set<nat>>, x: nat, i: nat, p: nat)
    requires Coherent(nodes, maxHeight, linked) && i < maxHeight
    requires 0 < x < |nodes| && x !in linked[i] && i < |nodes[x].next|
    requires forall n | n in linked[0] && n != x :: n < |nodes| && nodes[n].key != nodes[x].key
    requires forall j | 0 <= j < i :: x in linked[j]
    requires forall j | i <= j < MAX_HEIGHT :: x !in linked[j]
    requires IsGap(nodes, linked, nodes[x].key, p, i) && nodes[x].next[i] == nodes[p].next[i]
    ensures Coherent(WithNext(nodes, p, i, x), maxHeight, linked[i := linked[i] + {x}])
  {
    var nodes', linked' := WithNext(nodes, p, i, x), linked[i := linked[i] + {x}];
    assert linked[i] <= linked[0];
    PublishLevel(nodes, linked, x, i, p);
    forall j | 0 <= j < MAX_HEIGHT ensures LevelOk(nodes', linked', j) {
      if j != i {
        OtherLevel(nodes, linked, x, i, p, j);
      }
    }
  }

  lemma {:induction false} OtherLevel(nodes: Arena, linked: seq<set<nat>>, x: nat, i: nat, p: nat, j: nat)
    requires i < |linked| && j < |linked| && j != i && LevelOk(nodes, linked, j)
    requires p < |nodes| && i < |nodes[p].next|
    ensures LevelOk(WithNext(nodes, p, i, x), linked[i := linked[i] + {x}], j)
  {
    var nodes' := WithNext(nodes, p, i, x);
    forall n | n in linked[j] || n == 0 ensures IsNext(nodes', linked[j], n, nodes'[n].next[j]) {
      NextBySameKeys(nodes, nodes', linked[j], n, nodes[n].next[j]);
    }
  }

  /**
   * A node x in the middle of its insertion: it is linked below `level` and not from there on, and
   * `prev` names the places where it belongs.
   */
  ghost predicate Inserting(nodes: Arena, maxHeight: nat, linked: seq<set<nat>>, x: nat, prev: seq<nat>, level: nat) {
    && Coherent(nodes, maxHeight, linked)
    && 0 < x < |nodes|
    && (var height := |nodes[x].next|;
        && level <= height <= maxHeight && height <= |prev|
        && forall j | level <= j < height :: IsGap(nodes, linked, nodes[x].key, prev[j], j))
    && (forall j | 0 <= j < level :: x in linked[j])
    && (forall j | level <= j < MAX_HEIGHT :: x !in linked[j])
    && (forall n | n in linked[0] && n != x :: n < |nodes| && nodes[n].key != nodes[x].key)
  }

  ghost predicate SameKeys(nodes: Arena, nodes': Arena) {
    |nodes'| == |nodes| && forall m | 0 <= m < |nodes| :: nodes'[m].key == nodes[m].key
  }

  lemma {:induction false} SameKeysStart(nodes: Arena, key: Key, height: nat)
    ensures SameKeys(nodes + [Node(key, [])], nodes + [NewNode(key, height)])
    ensures |(nodes + [NewNode(key, height)])[|nodes|].next| == height
  {
  }

  lemma {:induction false} SameKeysChain(a: Arena, b: Arena, c: Arena)
    requires SameKeys(a, b) && SameKeys(b, c)
    ensures SameKeys(a, c) && |c| == |b| == |a|
  {
  }

  lemma {:induction false} RaiseHeight(nodes: Arena, maxHeight: nat, linked: seq<set<nat>>, height: nat)
    requires Coherent(nodes, maxHeight, linked) && maxHeight <= height <= MAX_HEIGHT
    ensures Coherent(nodes, height, linked)
  {
  }

  lemma {:induction false} BeginInsert(
      nodes: Arena, maxHeight: nat, linked: seq<set<nat>>, key: Key, height: nat, prev: seq<nat>)
    requires Coherent(nodes, maxHeight, linked) && height <= maxHeight && height <= |prev|
    requires forall n | n in linked[0] :: n < |nodes| && nodes[n].key != key
    requires forall j | 0 <= j < height :: IsGap(nodes, linked, key, prev[j], j)
    ensures Inserting(nodes + [NewNode(key, height)], maxHeight, linked, |nodes|, prev, 0)
  {
    var node := NewNode(key, height);
    AddNode(nodes, maxHeight, linked, node);
    assert LevelOk(nodes, linked, 0);
    forall j | 0 <= j < height ensures IsGap(nodes + [node], linked, key, prev[j], j) {
      assert IsGap(nodes, linked, key, prev[j], j);
    }
  }

  /** x->SetNext(i, prev[i]->Next(i)): nobody can see this link yet. */
  lemma {:induction false} StoreOwnLink(
      nodes: Arena, maxHeight: nat, linked: seq<set<nat>>, x: nat, prev: seq<nat>, i: nat)
    requires Inserting(nodes, maxHeight, linked, x, prev, i) && i < |nodes[x].next|
    ensures i < |prev| && prev[i] < |nodes| && prev[i] != x && i < |nodes[prev[i]].next|
    ensures (
      var nodes' := WithNext(nodes, x, i, nodes[prev[i]].next[i]);
      && Inserting(nodes', maxHeight, linked, x, prev, i) && SameKeys(nodes, nodes')
      && i < |nodes'[prev[i]].next| && nodes'[prev[i]].next[i] == nodes[prev[i]].next[i] == nodes'[x].next[i]
      && |nodes'[x].next| == |nodes[x].next|)
  {
    hide LevelOk;
    assert IsGap(nodes, linked, nodes[x].key, prev[i], i);
    var y := nodes[prev[i]].next[i];
    var nodes' := WithNext(nodes, x, i, y);
    PrepareLinkInside(nodes, maxHeight, linked, x, i, y);
    forall j | i <= j < |nodes'[x].next| ensures IsGap(nodes', linked, nodes'[x].key, prev[j], j) {
      assert IsGap(nodes, linked, nodes[x].key, prev[j], j);
    }
  }

  lemma {:induction false} PrepareLinkInside(nodes: Arena, maxHeight: nat, linked: seq<set<nat>>, x: nat, i: nat, y: int)
    requires Coherent(nodes, maxHeight, linked)
    requires 0 < x < |nodes| && i < |nodes[x].next| <= maxHeight && x !in linked[i]
    ensures Coherent(WithNext(nodes, x, i, y), maxHeight, linked) && |linked| == MAX_HEIGHT && maxHeight <= MAX_HEIGHT
  {
    PrepareLink(nodes, maxHeight, linked, x, i, y);
  }

  /** prev[i]->SetNext(i, x): from here on x is linked at level i. */
  lemma {:induction false} StoreLinkTo(
      nodes: Arena, maxHeight: nat, linked: seq<set<nat>>, x: nat, prev: seq<nat>, i: nat)
    requires Inserting(nodes, maxHeight, linked, x, prev, i) && i < |nodes[x].next|
    requires prev[i] < |nodes| && prev[i] != x && i < |nodes[prev[i]].next|
    requires nodes[x].next[i] == nodes[prev[i]].next[i]
    ensures |linked| == MAX_HEIGHT && i < MAX_HEIGHT
    ensures (
      var nodes', linked' := WithNext(nodes, prev[i], i, x), linked[i := linked[i] + {x}];
      && Inserting(nodes', maxHeight, linked', x, prev, i + 1) && SameKeys(nodes, nodes')
      && |nodes'[x].next| == |nodes[x].next|)
  {
    hide LevelOk;
    var p := prev[i];
    var nodes', linked' := WithNext(nodes, p, i, x), linked[i := linked[i] + {x}];
    assert IsGap(nodes, linked, nodes[x].key, p, i);
    Publish(nodes, maxHeight, linked, x, i, p);
    forall j | i + 1 <= j < |nodes'[x].next| ensures IsGap(nodes', linked', nodes'[x].key, prev[j], j) {
      assert IsGap(nodes, linked, nodes[x].key, prev[j], j);
    }
  }

  lemma {:induction false} InsertingIsCoherent(
      nodes: Arena, maxHeight: nat, linked: seq<set<nat>>, x: nat, prev: seq<nat>, level: nat)
    requires Inserting(nodes, maxHeight, linked, x, prev, level)
    ensures Coherent(nodes, maxHeight, linked) && InArena(nodes, linked[0])
  {
    assert LevelOk(nodes, linked, 0);
  }

  /** The keys of level 0 once the new node is in it. */
  lemma {:induction false} KeysAfter(nodes: Arena, level: set<nat>, nodes': Arena, level': set<nat>, key: Key)
    requires InArena(nodes, level) && SameKeys(nodes + [Node(key, [])], nodes')
    requires level' == level + {|nodes|}
    ensures (set n | n in level' :: nodes'[n].key) == (set n | n in level :: nodes[n].key) + {key}
  {
    var before, after := set n | n in level :: nodes[n].key, set n | n in level' :: nodes'[n].key;
    forall k ensures k in after <==> k in before + {key} {
      if k in before {
        var n :| n in level && nodes[n].key == k;
        assert n in level' && nodes'[n].key == k;
      }
      if k == key {
        assert |nodes| in level' && nodes'[|nodes|].key == key;
      }
    }
  }

  // ---------- the list ----------

  /** The nodes of level 0 that come after x: what a search that stands at x can still pass. */
  ghost function Ahead(nodes: Arena, level: set<nat>, x: nat): set<nat>
    requires InArena(nodes, level) && x < |nodes|
  {
    set n | n in level && Before(nodes, x, n)
  }

  lemma {:induction false} AheadFalls(nodes: Arena, level: set<nat>, x: nat, y: nat)
    requires InArena(nodes, level) && x < |nodes| && y in level && Before(nodes, x, y)
    ensures Ahead(nodes, level, y) < Ahead(nodes, level, x)
  {
    assert y in Ahead(nodes, level, x) && y !in Ahead(nodes, level, y);
  }

  class SkipList {
    var nodes: Arena
    var maxHeight: nat
    ghost var linked: seq<set<nat>>

    ghost predicate Valid()
      reads this
    {
      Coherent(nodes, maxHeight, linked)
    }

    /** The keys inserted so far. */
    ghost function Keys(): set<Key>
      requires Valid()
      reads this
    {
      assert LevelOk(nodes, linked, 0);
      set n | n in linked[0] :: nodes[n].key
    }

    constructor ()
      ensures Valid() && Keys() == {}
    {
      nodes := [Node(0.0, seq(MAX_HEIGHT, _ => NIL))];
      maxHeight := 1;
      linked := seq(MAX_HEIGHT, _ => {});
      new;
      assert forall i | 0 <= i < MAX_HEIGHT :: LevelOk(nodes, linked, i);
    }

    /** The last place of a search for `key` at a level. */
    ghost predicate StopsAt(key: Key, p: nat, i: nat)
      reads this
    {
      && IsPlace(nodes, linked, key, p, i)
      && p < |nodes| && i < |nodes[p].next|
      && (var y := nodes[p].next[i]; y == NIL || (0 < y < |nodes| && nodes[y].key >= key))
    }

    /** The first node at or after `key`, and for each level in use the place where `key` belongs. */
    method FindGreaterOrEqual(key: Key) returns (result: int, prev: seq<nat>)
      requires Valid()
      ensures InArena(nodes, linked[0]) && IsFirst(nodes, linked[0], key, result)
      ensures |prev| == maxHeight && forall i | 0 <= i < maxHeight :: StopsAt(key, prev[i], i)
    {
      hide Coherent, IsNext, IsFirst, IsPlace;
      LevelInside();
      SearchStarts(key);
      var x: nat, level := 0, maxHeight - 1;
      prev := seq(maxHeight, _ => 0);
      while true
        invariant 0 <= level < maxHeight == |prev|
        invariant IsPlace(nodes, linked, key, x, level) && x < |nodes|
        invariant forall i | level < i < maxHeight :: StopsAt(key, prev[i], i)
        decreases level, Ahead(nodes, linked[0], x)
      {
        LinkGoesOn(key, x, level);
        var next := nodes[x].next[level];
        if KeyIsAfter(nodes, key, next) {
          AheadFalls(nodes, linked[0], x, next);
          x := next;
        } else {
          prev := prev[level := x];
          if level == 0 {
            SearchEnds(nodes, maxHeight, linked, key, x);
            return next, prev;
          }
          level := level - 1;
        }
      }
    }

    lemma {:induction false} SearchStarts(key: Key)
      requires Valid()
      ensures forall i | 0 <= i < MAX_HEIGHT :: IsPlace(nodes, linked, key, 0, i)
    {
    }

    lemma {:induction false} LevelInside()
      requires Valid()
      ensures |linked| == MAX_HEIGHT && 0 < maxHeight <= MAX_HEIGHT
      ensures 0 < |nodes| && InArena(nodes, linked[0])
      ensures forall i | 0 <= i < MAX_HEIGHT :: linked[i] <= linked[0]
    {
      assert LevelOk(nodes, linked, 0);
    }

    /** Following a link at a level moves ahead in the whole list. */
    lemma {:induction false} LinkGoesOn(key: Key, x: nat, i: nat)
      requires Valid() && IsPlace(nodes, linked, key, x, i)
      ensures x < |nodes| && i < |nodes[x].next| && InArena(nodes, linked[0])
      ensures (
        var y := nodes[x].next[i];
        && (y == NIL || (0 < y < |nodes| && y in linked[i] && y in linked[0] && Before(nodes, x, y)))
        && (KeyIsAfter(nodes, key, y) ==> IsPlace(nodes, linked, key, y, i)))
      ensures i > 0 ==> IsPlace(nodes, linked, key, x, i - 1)
    {
      LinkIsWritten(nodes, maxHeight, linked, key, x, i);
      LevelInside();
    }

    /** The last node before `key`, or the head. */
    method FindLessThan(key: Key) returns (x: nat)
      requires Valid()
      ensures InArena(nodes, linked[0]) && x < |nodes|
      ensures x == 0 || (x in linked[0] && nodes[x].key < key)
      ensures forall z | z in linked[0] && nodes[z].key < key :: z == x || Before(nodes, z, x)
    {
      hide Coherent, IsNext, IsPlace;
      LevelInside();
      SearchStarts(key);
      var level := maxHeight - 1;
      x := 0;
      while true
        invariant 0 <= level < maxHeight
        invariant IsPlace(nodes, linked, key, x, level) && x < |nodes|
        decreases level, Ahead(nodes, linked[0], x)
      {
        LinkGoesOn(key, x, level);
        var next := nodes[x].next[level];
        if next == NIL || nodes[next].key >= key {
          if level == 0 {
            LastBefore(key, x);
            return x;
          }
          level := level - 1;
        } else {
          AheadFalls(nodes, linked[0], x, next);
          x := next;
        }
      }
    }

    lemma {:induction false} LastBefore(key: Key, x: nat)
      requires Valid() && IsPlace(nodes, linked, key, x, 0)
      requires x < |nodes| && 0 < |nodes[x].next|
      requires nodes[x].next[0] == NIL || (0 < nodes[x].next[0] < |nodes| && nodes[nodes[x].next[0]].key >= key)
      ensures InArena(nodes, linked[0])
      ensures x == 0 || (x in linked[0] && nodes[x].key < key)
      ensures forall z | z in linked[0] && nodes[z].key < key :: z == x || Before(nodes, z, x)
    {
      LinkIsWritten(nodes, maxHeight, linked, key, x, 0);
      assert LevelOk(nodes, linked, 0);
    }

    /** The last node, or the head. */
    method FindLast() returns (x: nat)
      requires Valid()
      ensures InArena(nodes, linked[0]) && x < |nodes|
      ensures x == 0 || x in linked[0]
      ensures forall z | z in linked[0] :: z == x || Before(nodes, z, x)
    {
      LevelInside();
      assert forall i | 0 <= i < MAX_HEIGHT :: LevelOk(nodes, linked, i);
      var level := maxHeight - 1;
      x := 0;
      while true
        invariant 0 <= level < maxHeight
        invariant (x == 0 || x in linked[level]) && x < |nodes|
        decreases level, Ahead(nodes, linked[0], x)
      {
        assert LevelOk(nodes, linked, level);
        var next := nodes[x].next[level];
        if next == NIL {
          if level == 0 {
            return x;
          }
          assert linked[level] <= linked[level - 1];
          level := level - 1;
        } else {
          assert linked[level] <= linked[0];
          AheadFalls(nodes, linked[0], x, next);
          x := next;
        }
      }
    }

    lemma {:induction false} KeyMissing(key: Key, n: nat)
      requires Valid() && key !in Keys()
      ensures n in linked[0] ==> n < |nodes| && nodes[n].key != key
    {
      LevelInside();
    }

    /** The places found for an absent key are gaps at every level, unused ones included. */
    lemma {:induction false} GapsFound(key: Key, prev: seq<nat>, height: nat)
      requires Valid() && key !in Keys() && height <= MAX_HEIGHT
      requires |prev| == maxHeight && forall i | 0 <= i < maxHeight :: StopsAt(key, prev[i], i)
      ensures forall i | 0 <= i < height :: IsGap(nodes, linked, key, Padded(prev, height)[i], i)
    {
      hide IsPlace;
      LevelInside();
      SearchStarts(key);
      forall i | 0 <= i < height ensures IsGap(nodes, linked, key, Padded(prev, height)[i], i) {
        assert LevelOk(nodes, linked, i);
        var p := Padded(prev, height)[i];
        assert i < maxHeight ==> StopsAt(key, prev[i], i);
        LinkIsWritten(nodes, maxHeight, linked, key, p, i);
        var y := nodes[p].next[i];
        if y != NIL {
          KeyMissing(key, y);
        }
      }
    }

    /** Insert: link the new node level by level, from the bottom up. */
    method Insert(key: Key, height: nat)
      requires Valid() && key !in Keys() && 0 < height <= MAX_HEIGHT
      modifies this
      ensures Valid() && Keys() == old(Keys()) + {key}
    {
      hide Coherent, IsNext, IsPlace, LevelOk, IsFirst, IsGap, WithNext, Inserting, SameKeys, StopsAt, Padded;
      ghost var before := Keys();
      var first, prev := FindGreaterOrEqual(key);
      LevelInside();
      GapsFound(key, prev, height);
      forall n | n in linked[0] ensures n < |nodes| && nodes[n].key != key {
        KeyMissing(key, n);
      }
      if height > maxHeight {
        RaiseHeight(nodes, maxHeight, linked, height);
        maxHeight := height;
      }
      prev := Padded(prev, height);
      var x, i := |nodes|, 0;
      BeginInsert(nodes, maxHeight, linked, key, height, prev);
      nodes := nodes + [NewNode(key, height)];
      SameKeysStart(old(nodes), key, height);
      while i < height
        invariant 0 <= i <= height && x < |nodes| && |nodes[x].next| == height
        invariant Inserting(nodes, maxHeight, linked, x, prev, i)
        invariant SameKeys(old(nodes) + [Node(key, [])], nodes)
        invariant |linked| == MAX_HEIGHT && linked[0] == if i == 0 then old(linked[0]) else old(linked[0]) + {x}
      {
        StoreOwnLink(nodes, maxHeight, linked, x, prev, i);
        SameKeysChain(old(nodes) + [Node(key, [])], nodes, WithNext(nodes, x, i, nodes[prev[i]].next[i]));
        nodes := WithNext(nodes, x, i, nodes[prev[i]].next[i]);
        StoreLinkTo(nodes, maxHeight, linked, x, prev, i);
        SameKeysChain(old(nodes) + [Node(key, [])], nodes, WithNext(nodes, prev[i], i, x));
        nodes, linked := WithNext(nodes, prev[i], i, x), linked[i := linked[i] + {x}];
        i := i + 1;
      }
      InsertingIsCoherent(nodes, maxHeight, linked, x, prev, i);
      KeysAfter(old(nodes), old(linked[0]), nodes, linked[0], key);
    }
  }
}
