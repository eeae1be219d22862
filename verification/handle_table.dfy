/** The hash table of a cache: an array of buckets, each a chain of entries. */
module HandleTables {
  import opened Common
  import opened Coding

  /** Entries are found by key and hash together. */
  datatype Name = Name(key: seq<Byte>, hash: Word)

  /** A table entry: its name and the handle it stands for. */
  datatype Slot = Slot(name: Name, id: nat)

  type Buckets = seq<seq<Slot>>

  predicate PowerOfTwo(n: nat) {
    n == 1 || (n > 0 && n % 2 == 0 && PowerOfTwo(n / 2))
  }

  /** x & y. */
  function And(x: nat, y: nat): (r: nat)
    ensures r <= y
  {
    if x == 0 || y == 0 then 0 else 2 * And(x / 2, y / 2) + if x % 2 == 1 && y % 2 == 1 then 1 else 0
  }

  function Home(name: Name, length: nat): (b: nat)
    requires length > 0
    ensures b < length
  {
    And(name.hash, length - 1)
  }

  lemma {:induction false} MaskIsRemainder(x: nat, length: nat)
    requires PowerOfTwo(length)
    ensures And(x, length - 1) == x % length
    decreases length
  {
    if length > 1 {
      var half := length / 2;
      assert (length - 1) / 2 == half - 1 && (length - 1) % 2 == 1;
      MaskIsRemainder(x / 2, half);
      HalvesRemain(x, half);
    }
  }

  lemma {:induction false} HalvesRemain(x: nat, half: nat)
    requires half > 0
    ensures x % (2 * half) == 2 * (x / 2 % half) + x % 2
  {
    var q, r := x / 2 / half, x / 2 % half;
    assert x == 2 * (q * half + r) + x % 2;
    var rest := 2 * r + x % 2;
    assert x == q * (2 * half) + rest;
    RemainderIs(x, 2 * half, q, rest);
  }

  lemma {:induction false} Product(k: nat, m: nat)
    requires k > 0
    ensures k * m >= m
  {
    assert k * m == m + (k - 1) * m;
  }

  lemma {:induction false} RemainderIs(x: nat, m: nat, q: nat, rest: nat)
    requires m > 0 && rest < m && x == q * m + rest
    ensures x % m == rest
  {
    var q', r := x / m, x % m;
    assert x == q' * m + r;
    if q > q' {
      assert (q - q') * m == r - rest;
      Product(q - q', m);
    } else if q' > q {
      assert (q' - q) * m == rest - r;
      Product(q' - q, m);
    }
  }

  /** Masking the hash spreads names over all buckets as its remainder does. */
  lemma {:induction false} HomeIsRemainder(name: Name, length: nat)
    requires PowerOfTwo(length)
    ensures Home(name, length) == name.hash % length
  {
    MaskIsRemainder(name.hash, length);
  }

  /** Every entry of `contents` is in the bucket of its hash, and nothing else is anywhere. */
  ghost predicate Represents(buckets: Buckets, contents: map<Name, nat>) {
    && |buckets| > 0
    && (forall b | 0 <= b < |buckets| :: ChainOk(buckets[b], b, |buckets|, contents))
    && (forall name | name in contents :: Slot(name, contents[name]) in buckets[Home(name, |buckets|)])
  }

  ghost predicate ChainOk(chain: seq<Slot>, b: nat, length: nat, contents: map<Name, nat>)
    requires length > 0
  {
    && (forall j | 0 <= j < |chain| ::
          && Home(chain[j].name, length) == b
          && chain[j].name in contents && contents[chain[j].name] == chain[j].id)
    && (forall i, j | 0 <= i < j < |chain| :: chain[i].name != chain[j].name)
  }

  /** FindPointer: the place of an entry in its chain, or the end of the chain. */
  method FindPointer(chain: seq<Slot>, name: Name) returns (p: nat)
    ensures p <= |chain| && forall j | 0 <= j < p :: chain[j].name != name
    ensures p < |chain| ==> chain[p].name == name
  {
    p := 0;
    while p < |chain| && chain[p].name != name
      invariant p <= |chain| && forall j | 0 <= j < p :: chain[j].name != name
    {
      p := p + 1;
    }
  }

  /** The end of its chain is reached exactly when an entry is not in the table. */
  lemma {:induction false} FoundIffPresent(buckets: Buckets, contents: map<Name, nat>, name: Name, p: nat)
    requires Represents(buckets, contents)
    requires (
      var chain := buckets[Home(name, |buckets|)];
      && p <= |chain| && (forall j | 0 <= j < p :: chain[j].name != name)
      && (p < |chain| ==> chain[p].name == name))
    ensures (
      var chain := buckets[Home(name, |buckets|)];
      && (p < |chain| <==> name in contents)
      && (p < |chain| ==> contents[name] == chain[p].id))
  {
    var b := Home(name, |buckets|);
    assert ChainOk(buckets[b], b, |buckets|, contents);
    if name in contents {
      assert Slot(name, contents[name]) in buckets[b];
    }
  }

  /** Replace the entry at a place of its chain, or append it. */
  function Put(chain: seq<Slot>, p: nat, s: Slot): seq<Slot>
    requires p <= |chain|
  {
    chain[..p] + [s] + (if p < |chain| then chain[p + 1..] else [])
  }

  function Cut(chain: seq<Slot>, p: nat): seq<Slot>
    requires p < |chain|
  {
    chain[..p] + chain[p + 1..]
  }

  ghost predicate IsPointer(chain: seq<Slot>, name: Name, p: nat) {
    && p <= |chain| && (forall j | 0 <= j < p :: chain[j].name != name)
    && (p < |chain| ==> chain[p].name == name)
  }

  /** The chain that a new or replaced entry is in. */
  lemma {:induction false} PutChain(chain: seq<Slot>, b: nat, length: nat, contents: map<Name, nat>, s: Slot, p: nat)
    requires length > 0 && b == Home(s.name, length) && ChainOk(chain, b, length, contents)
    requires IsPointer(chain, s.name, p)
    ensures ChainOk(Put(chain, p, s), b, length, contents[s.name := s.id])
    ensures s in Put(chain, p, s)
    ensures forall t | t in chain && t.name != s.name :: t in Put(chain, p, s)
  {
    var chain' := Put(chain, p, s);
    assert chain'[p] == s && forall j | 0 <= j < |chain'| && j != p :: j < |chain| && chain'[j] == chain[j];
    forall j | 0 <= j < |chain'| && j != p ensures chain'[j].name != s.name {
      assert chain[j].name != s.name;
    }
    forall t | t in chain && t.name != s.name ensures t in chain' {
      var j :| 0 <= j < |chain| && chain[j] == t;
      assert chain'[j] == t;
    }
  }

  /** The chain that an entry has been taken out of. */
  lemma {:induction false} CutChain(chain: seq<Slot>, b: nat, length: nat, contents: map<Name, nat>, name: Name, p: nat)
    requires length > 0 && ChainOk(chain, b, length, contents)
    requires p < |chain| && chain[p].name == name
    ensures ChainOk(Cut(chain, p), b, length, contents - {name})
    ensures forall t | t in chain && t.name != name :: t in Cut(chain, p)
  {
    var chain' := Cut(chain, p);
    assert forall j | 0 <= j < |chain'| :: chain'[j] == chain[if j < p then j else j + 1];
    forall t | t in chain && t.name != name ensures t in chain' {
      var j :| 0 <= j < |chain| && chain[j] == t;
      assert chain'[if j < p then j else j - 1] == t;
    }
  }

  /** A chain elsewhere does not notice. */
  lemma {:induction false} OtherChain(
      chain: seq<Slot>, b: nat, length: nat, contents: map<Name, nat>, contents': map<Name, nat>, name: Name)
    requires length > 0 && ChainOk(chain, b, length, contents) && b != Home(name, length)
    requires forall other | other in contents && other != name :: other in contents' && contents'[other] == contents[other]
    ensures ChainOk(chain, b, length, contents')
  {
  }

  lemma {:induction false} PutRepresents(buckets: Buckets, contents: map<Name, nat>, s: Slot, p: nat)
    requires Represents(buckets, contents)
    requires IsPointer(buckets[Home(s.name, |buckets|)], s.name, p)
    ensures (
      var b := Home(s.name, |buckets|);
      Represents(buckets[b := Put(buckets[b], p, s)], contents[s.name := s.id]))
  {
    hide ChainOk, Put;
    var n, b := |buckets|, Home(s.name, |buckets|);
    var buckets', contents' := buckets[b := Put(buckets[b], p, s)], contents[s.name := s.id];
    PutChain(buckets[b], b, n, contents, s, p);
    forall c | 0 <= c < n ensures ChainOk(buckets'[c], c, n, contents') {
      if c != b {
        OtherChain(buckets[c], c, n, contents, contents', s.name);
      }
    }
    forall name | name in contents' ensures Slot(name, contents'[name]) in buckets'[Home(name, n)] {
      if name != s.name {
        assert Slot(name, contents[name]) in buckets[Home(name, n)];
      }
    }
  }

  lemma {:induction false} CutRepresents(buckets: Buckets, contents: map<Name, nat>, name: Name, p: nat)
    requires Represents(buckets, contents)
    requires IsPointer(buckets[Home(name, |buckets|)], name, p) && p < |buckets[Home(name, |buckets|)]|
    ensures (
      var b := Home(name, |buckets|);
      Represents(buckets[b := Cut(buckets[b], p)], contents - {name}))
  {
    hide ChainOk, Cut;
    var n, b := |buckets|, Home(name, |buckets|);
    var buckets', contents' := buckets[b := Cut(buckets[b], p)], contents - {name};
    CutChain(buckets[b], b, n, contents, name, p);
    forall c | 0 <= c < n ensures ChainOk(buckets'[c], c, n, contents') {
      if c != b {
        OtherChain(buckets[c], c, n, contents, contents', name);
      }
    }
    forall other | other in contents' ensures Slot(other, contents'[other]) in buckets'[Home(other, n)] {
      assert Slot(other, contents[other]) in buckets[Home(other, n)];
    }
  }

  /** A power of two, at least four and at least n. */
  method NewLength(n: nat) returns (length: nat)
    ensures length >= 4 && length >= n && PowerOfTwo(length)
    ensures length > 4 ==> length / 2 < n
  {
    length := 4;
    assert PowerOfTwo(2) && PowerOfTwo(4);
    while length < n
      invariant length >= 4 && PowerOfTwo(length)
      invariant length > 4 ==> length / 2 < n
    {
      length := length * 2;
    }
  }

  function EmptyBuckets(length: nat): (r: Buckets)
    requires length > 0
    ensures |r| == length && Represents(r, map[])
  {
    seq(length, _ => [])
  }

  class HandleTable {
    var buckets: Buckets
    var elems: nat
    ghost var contents: map<Name, nat>

    ghost predicate Holds()
      reads this
    {
      Represents(buckets, contents) && elems == |contents| && PowerOfTwo(|buckets|)
    }

    /** There are at least as many buckets as entries. */
    ghost predicate Valid()
      reads this
    {
      Holds() && elems <= |buckets|
    }

    constructor ()
      ensures Valid() && contents == map[]
    {
      assert PowerOfTwo(2) && PowerOfTwo(4);
      buckets := [[], [], [], []];
      elems, contents := 0, map[];
    }

    method Lookup(name: Name) returns (r: Option<nat>)
      requires Valid()
      ensures r == if name in contents then Some(contents[name]) else None
    {
      var chain := buckets[Home(name, |buckets|)];
      var p := FindPointer(chain, name);
      FoundIffPresent(buckets, contents, name, p);
      r := if p < |chain| then Some(chain[p].id) else None;
    }

    /** Enter a handle, in place of one of the same name if there is one. */
    method Insert(name: Name, id: nat) returns (previous: Option<nat>)
      requires Valid()
      modifies this
      ensures Valid() && contents == old(contents)[name := id]
      ensures previous == if name in old(contents) then Some(old(contents)[name]) else None
    {
      hide Represents, ChainOk;
      TableNotEmpty();
      var b := Home(name, |buckets|);
      var p := FindPointer(buckets[b], name);
      FoundIffPresent(buckets, contents, name, p);
      previous := if p < |buckets[b]| then Some(buckets[b][p].id) else None;
      PutRepresents(buckets, contents, Slot(name, id), p);
      buckets := buckets[b := Put(buckets[b], p, Slot(name, id))];
      contents := contents[name := id];
      if previous.None? {
        elems := elems + 1;
        if elems > |buckets| {
          Resize();
        }
      }
    }

    method Remove(name: Name) returns (removed: Option<nat>)
      requires Valid()
      modifies this
      ensures Valid() && contents == old(contents) - {name}
      ensures removed == if name in old(contents) then Some(old(contents)[name]) else None
    {
      hide Represents, ChainOk;
      TableNotEmpty();
      var b := Home(name, |buckets|);
      var p := FindPointer(buckets[b], name);
      FoundIffPresent(buckets, contents, name, p);
      removed := None;
      if p < |buckets[b]| {
        removed := Some(buckets[b][p].id);
        CutRepresents(buckets, contents, name, p);
        buckets := buckets[b := Cut(buckets[b], p)];
        elems := elems - 1;
        contents := contents - {name};
      }
    }

    lemma {:induction false} TableNotEmpty()
      requires Holds()
      ensures |buckets| > 0
    {
    }

    /** Move all entries to a table with about as many buckets as entries. */
    method Resize()
      requires Holds()
      modifies this`buckets
      ensures Valid() && |buckets| >= 4 && (|buckets| > 4 ==> |buckets| / 2 < elems)
    {
      hide Represents, ChainOk, MovedBelow, Home, EmptyBuckets, PowerOfTwo;
      TableNotEmpty();
      var newLength := NewLength(elems);
      var newList := EmptyBuckets(newLength);
      ghost var moved: map<Name, nat> := map[];
      NothingMoved(contents, |buckets|);
      var i, count := 0, 0;
      while i < |buckets|
        invariant Holds() && 0 <= i <= |buckets| && |buckets| > 0 && |newList| == newLength
        invariant Represents(newList, moved) && count == |moved|
        invariant MovedBelow(contents, moved, |buckets|, i)
      {
        newList, count, moved := MoveChain(i, newList, count, moved);
        i := i + 1;
      }
      AllMoved(contents, moved, |buckets|);
      assert elems == count;
      buckets := newList;
    }

    /** Move the entries of one bucket to the front of their new chains. */
    method MoveChain(i: nat, list: Buckets, n: nat, ghost done: map<Name, nat>)
      returns (newList: Buckets, count: nat, ghost moved: map<Name, nat>)
      requires Holds() && i < |buckets| && |buckets| > 0 && |list| > 0
      requires Represents(list, done) && n == |done| && MovedBelow(contents, done, |buckets|, i)
      ensures |newList| == |list| && Represents(newList, moved) && count == |moved|
      ensures MovedBelow(contents, moved, |buckets|, i + 1)
    {
      hide Represents, ChainOk;
      newList, count, moved := list, n, done;
      var j := 0;
      while j < |buckets[i]|
        invariant j <= |buckets[i]| && |newList| == |list|
        invariant Represents(newList, moved) && count == |moved|
        invariant forall name :: name in moved <==> name in done || InFront(buckets[i], j, name)
        invariant forall name | name in moved :: name in contents && moved[name] == contents[name]
      {
        var s := buckets[i][j];
        ChainEntry(buckets, contents, i, j);
        var b := Home(s.name, |newList|);
        OneMoreInFront(buckets[i], j);
        FrontRepresents(newList, moved, s);
        newList := newList[b := [s] + newList[b]];
        moved := moved[s.name := s.id];
        count := count + 1;
        j := j + 1;
      }
      WholeChain(buckets, contents, i);
    }
  }

  /** What has been moved: the entries of the first i buckets. */
  ghost predicate MovedBelow(contents: map<Name, nat>, moved: map<Name, nat>, length: nat, i: nat)
    requires length > 0
  {
    && (forall name :: name in moved <==> name in contents && Home(name, length) < i)
    && (forall name | name in moved :: moved[name] == contents[name])
  }

  lemma {:induction false} NothingMoved(contents: map<Name, nat>, length: nat)
    requires length > 0
    ensures MovedBelow(contents, map[], length, 0)
  {
  }

  lemma {:induction false} AllMoved(contents: map<Name, nat>, moved: map<Name, nat>, length: nat)
    requires length > 0 && MovedBelow(contents, moved, length, length)
    ensures moved == contents
  {
  }

  /** One of the first j entries of a chain has this name. */
  ghost predicate InFront(chain: seq<Slot>, j: nat, name: Name) {
    exists i :: 0 <= i < j && i < |chain| && chain[i].name == name
  }

  lemma {:induction false} OneMoreInFront(chain: seq<Slot>, j: nat)
    requires j < |chain|
    ensures forall name :: InFront(chain, j + 1, name) <==> InFront(chain, j, name) || chain[j].name == name
  {
    forall name ensures InFront(chain, j + 1, name) <==> InFront(chain, j, name) || chain[j].name == name {
      if InFront(chain, j + 1, name) {
        var i :| 0 <= i < j + 1 && i < |chain| && chain[i].name == name;
        assert i < j || i == j;
      }
    }
  }

  lemma {:induction false} ChainEntry(buckets: Buckets, contents: map<Name, nat>, b: nat, j: nat)
    requires Represents(buckets, contents) && b < |buckets| && j < |buckets[b]|
    ensures (
      var s := buckets[b][j];
      && s.name in contents && contents[s.name] == s.id && Home(s.name, |buckets|) == b
      && !InFront(buckets[b], j, s.name))
  {
    assert ChainOk(buckets[b], b, |buckets|, contents);
  }

  /** A chain holds exactly the entries whose hash leads to it. */
  lemma {:induction false} WholeChain(buckets: Buckets, contents: map<Name, nat>, b: nat)
    requires Represents(buckets, contents) && b < |buckets|
    ensures forall name :: InFront(buckets[b], |buckets[b]|, name) <==> name in contents && Home(name, |buckets|) == b
  {
    assert ChainOk(buckets[b], b, |buckets|, contents);
    forall name | name in contents && Home(name, |buckets|) == b ensures InFront(buckets[b], |buckets[b]|, name) {
      var s := Slot(name, contents[name]);
      assert s in buckets[b];
      var j :| 0 <= j < |buckets[b]| && buckets[b][j] == s;
    }
  }

  /** An entry that is not there yet is put at the front of its chain. */
  lemma {:induction false} FrontRepresents(buckets: Buckets, contents: map<Name, nat>, s: Slot)
    requires Represents(buckets, contents) && s.name !in contents
    ensures |buckets| > 0
    ensures (
      var b := Home(s.name, |buckets|);
      Represents(buckets[b := [s] + buckets[b]], contents[s.name := s.id]))
  {
    var n, b := |buckets|, Home(s.name, |buckets|);
    var buckets', contents' := buckets[b := [s] + buckets[b]], contents[s.name := s.id];
    forall c | 0 <= c < n ensures ChainOk(buckets'[c], c, n, contents') {
      assert ChainOk(buckets[c], c, n, contents);
    }
    forall name | name in contents' ensures Slot(name, contents'[name]) in buckets'[Home(name, n)] {
      if name != s.name {
        assert Slot(name, contents[name]) in buckets[Home(name, n)];
      }
    }
  }
}
