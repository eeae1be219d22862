/** One shard of the cache: a hash table, a list from oldest to newest, and reference counts. */
module LruCaches {
  import opened Common
  import opened Coding
  import opened HandleTables

  datatype LRUHandle = LRUHandle(name: Name, value: nat, charge: nat, refs: nat)

  /** The charges of all handles numbered below n that have not been freed. */
  ghost function Charges(entries: map<nat, LRUHandle>, n: nat): nat {
    if n == 0 then 0
    else Charges(entries, n - 1) + (if n - 1 in entries then entries[n - 1].charge else 0)
  }

  lemma {:induction false} ChargesSame(a: map<nat, LRUHandle>, b: map<nat, LRUHandle>, n: nat)
    requires forall id | 0 <= id < n :: (id in a <==> id in b) && (id in a ==> a[id].charge == b[id].charge)
    ensures Charges(a, n) == Charges(b, n)
  {
    if n > 0 {
      ChargesSame(a, b, n - 1);
    }
  }

  lemma {:induction false} ChargesWithout(a: map<nat, LRUHandle>, id: nat, n: nat)
    requires id in a && id < n
    ensures Charges(a, n) == Charges(a - {id}, n) + a[id].charge
  {
    if id == n - 1 {
      ChargesSame(a, a - {id}, n - 1);
    } else {
      ChargesWithout(a, id, n - 1);
    }
  }

  function Without(list: seq<nat>, id: nat): seq<nat> {
    if list == [] then [] else if list[0] == id then list[1..] else [list[0]] + Without(list[1..], id)
  }

  ghost predicate Distinct(list: seq<nat>) {
    forall i, j | 0 <= i < j < |list| :: list[i] != list[j]
  }

  lemma {:induction false} WithoutMembers(list: seq<nat>, id: nat)
    requires Distinct(list)
    ensures Distinct(Without(list, id))
    ensures forall x :: x in Without(list, id) <==> x in list && x != id
  {
    if list != [] {
      var rest := Without(list[1..], id);
      assert list == [list[0]] + list[1..];
      WithoutMembers(list[1..], id);
      forall j | 0 <= j < |rest| ensures rest[j] != list[0] {
        assert rest[j] in rest;
      }
    }
  }

  lemma {:induction false} AppendDistinct(list: seq<nat>, id: nat)
    requires Distinct(list) && id !in list
    ensures Distinct(list + [id])
    ensures forall x :: x in list + [id] <==> x in list || x == id
  {
  }

  // ---------- what holds between operations ----------

  /** References: one for each handle given out, one for being cached. */
  ghost predicate CountsOk(
      entries: map<nat, LRUHandle>, lru: seq<nat>, outstanding: map<nat, nat>, loose: Option<nat>)
  {
    && outstanding.Keys == entries.Keys
    && forall id | id in entries ::
         && entries[id].refs > 0
         && entries[id].refs == outstanding[id] + (if id in lru then 1 else 0) + (if loose == Some(id) then 1 else 0)
  }

  /** The list and the table hold the same handles. */
  ghost predicate Agree(entries: map<nat, LRUHandle>, lru: seq<nat>, contents: map<Name, nat>) {
    && Distinct(lru)
    && (forall id | id in lru :: id in entries && entries[id].name in contents && contents[entries[id].name] == id)
    && (forall name | name in contents ::
          contents[name] in lru && contents[name] in entries && entries[contents[name]].name == name)
  }

  /** Every handle ever made is either alive or has been deleted, once. */
  ghost predicate DeletedOnce(entries: map<nat, LRUHandle>, deleted: seq<nat>, nextId: nat) {
    && Distinct(deleted)
    && (forall id | id in entries :: id < nextId)
    && (forall id | id in deleted :: id < nextId && id !in entries)
    && (forall id | 0 <= id < nextId :: id in entries || id in deleted)
  }

  // ---------- handles change ----------

  lemma {:induction false} AgreeByName(
      entries: map<nat, LRUHandle>, lru: seq<nat>, contents: map<Name, nat>, id: nat, h: LRUHandle)
    requires Agree(entries, lru, contents) && id in entries && h.name == entries[id].name
    ensures Agree(entries[id := h], lru, contents)
  {
    hide Distinct;
  }

  lemma {:induction false} AliveAsBefore(entries: map<nat, LRUHandle>, deleted: seq<nat>, nextId: nat, id: nat, h: LRUHandle)
    requires DeletedOnce(entries, deleted, nextId) && id in entries
    ensures DeletedOnce(entries[id := h], deleted, nextId)
  {
    hide Distinct;
  }

  lemma {:induction false} OneFewer(
      entries: map<nat, LRUHandle>, lru: seq<nat>, outstanding: map<nat, nat>, id: nat)
    requires CountsOk(entries, lru, outstanding, Some(id)) && id in entries && entries[id].refs > 1
    ensures CountsOk(entries[id := entries[id].(refs := entries[id].refs - 1)], lru, outstanding, None)
  {
  }

  /** A handle whose last reference goes is neither cached nor held. */
  lemma {:induction false} LastReference(
      entries: map<nat, LRUHandle>, lru: seq<nat>, outstanding: map<nat, nat>, id: nat)
    requires CountsOk(entries, lru, outstanding, Some(id)) && id in entries
    ensures entries[id].refs > 0 && id in outstanding
    ensures entries[id].refs == 1 <==> id !in lru && outstanding[id] == 0
  {
  }

  lemma {:induction false} Freed(
      entries: map<nat, LRUHandle>, lru: seq<nat>, contents: map<Name, nat>, outstanding: map<nat, nat>,
      deleted: seq<nat>, nextId: nat, id: nat)
    requires Agree(entries, lru, contents) && CountsOk(entries, lru, outstanding, Some(id))
    requires DeletedOnce(entries, deleted, nextId) && id in entries && entries[id].refs == 1
    ensures Agree(entries - {id}, lru, contents)
    ensures CountsOk(entries - {id}, lru, outstanding - {id}, None)
    ensures DeletedOnce(entries - {id}, deleted + [id], nextId)
  {
    LastReference(entries, lru, outstanding, id);
    AppendDistinct(deleted, id);
  }

  // ---------- the list changes ----------

  lemma {:induction false} MovedToEnd(
      entries: map<nat, LRUHandle>, lru: seq<nat>, contents: map<Name, nat>, outstanding: map<nat, nat>, id: nat)
    requires Agree(entries, lru, contents) && CountsOk(entries, lru, outstanding, None) && id in lru
    ensures id in entries && id in outstanding
    ensures Agree(entries, Without(lru, id) + [id], contents)
    ensures CountsOk(entries[id := entries[id].(refs := entries[id].refs + 1)], Without(lru, id) + [id],
                     outstanding[id := outstanding[id] + 1], None)
  {
    hide Without, Distinct;
    WithoutMembers(lru, id);
    AppendDistinct(Without(lru, id), id);
  }

  lemma {:induction false} TakenOut(
      entries: map<nat, LRUHandle>, lru: seq<nat>, contents: map<Name, nat>, outstanding: map<nat, nat>, id: nat)
    requires Agree(entries, lru, contents) && CountsOk(entries, lru, outstanding, None) && id in lru
    ensures id in entries
    ensures Agree(entries, Without(lru, id), contents - {entries[id].name})
    ensures CountsOk(entries, Without(lru, id), outstanding, Some(id))
  {
    hide Without, Distinct;
    WithoutMembers(lru, id);
  }

  lemma {:induction false} Entered(
      entries: map<nat, LRUHandle>, lru: seq<nat>, contents: map<Name, nat>, outstanding: map<nat, nat>,
      loose: Option<nat>, nextId: nat, h: LRUHandle)
    requires Agree(entries, lru, contents) && CountsOk(entries, lru, outstanding, loose)
    requires nextId !in entries && loose != Some(nextId) && h.name !in contents && h.refs == 2
    ensures Agree(entries[nextId := h], lru + [nextId], contents[h.name := nextId])
    ensures CountsOk(entries[nextId := h], lru + [nextId], outstanding[nextId := 1], loose)
  {
    hide Distinct;
    AppendDistinct(lru, nextId);
  }

  lemma {:induction false} WithoutOlder(list: seq<nat>, id: nat, newest: nat)
    requires id in list
    ensures Without(list + [newest], id) == Without(list, id) + [newest]
  {
    if list[0] != id {
      assert list == [list[0]] + list[1..];
      WithoutOlder(list[1..], id, newest);
      assert (list + [newest])[1..] == list[1..] + [newest];
    } else {
      assert (list + [newest])[1..] == list[1..] + [newest];
    }
  }

  /** A new handle takes the name of a listed one, which leaves the list and keeps its reference for now. */
  lemma {:induction false} Replaced(
      entries: map<nat, LRUHandle>, lru: seq<nat>, contents: map<Name, nat>, outstanding: map<nat, nat>,
      previous: nat, nextId: nat, h: LRUHandle)
    requires Agree(entries, lru, contents) && CountsOk(entries, lru, outstanding, None) && nextId !in entries
    requires h.name in contents && contents[h.name] == previous && h.refs == 2
    ensures previous in lru && previous in entries
    ensures Agree(entries[nextId := h], Without(lru + [nextId], previous), contents[h.name := nextId])
    ensures CountsOk(entries[nextId := h], Without(lru + [nextId], previous), outstanding[nextId := 1], Some(previous))
  {
    TakenOut(entries, lru, contents, outstanding, previous);
    Entered(entries, Without(lru, previous), contents - {h.name}, outstanding, Some(previous), nextId, h);
    WithoutOlder(lru, previous, nextId);
    assert (contents - {h.name})[h.name := nextId] == contents[h.name := nextId];
  }

  lemma {:induction false} OneMore(entries: map<nat, LRUHandle>, deleted: seq<nat>, nextId: nat, h: LRUHandle)
    requires DeletedOnce(entries, deleted, nextId)
    ensures nextId !in entries && DeletedOnce(entries[nextId := h], deleted, nextId + 1)
    ensures Charges(entries[nextId := h], nextId + 1) == Charges(entries, nextId) + h.charge
  {
    hide Distinct;
    ChargesSame(entries, entries[nextId := h], nextId);
  }

  // ---------- eviction ----------

  /** What usage loses when the cache gives up its reference to a handle. */
  ghost function Relief(entries: map<nat, LRUHandle>, outstanding: map<nat, nat>, id: nat): nat {
    if id in entries && id in outstanding && outstanding[id] == 0 then entries[id].charge else 0
  }

  ghost function TotalRelief(list: seq<nat>, entries: map<nat, LRUHandle>, outstanding: map<nat, nat>): nat {
    if list == [] then 0
    else Relief(entries, outstanding, list[0]) + TotalRelief(list[1..], entries, outstanding)
  }

  /** How many of the oldest handles have to go. */
  ghost function ToEvict(
      list: seq<nat>, entries: map<nat, LRUHandle>, outstanding: map<nat, nat>, usage: int, capacity: int): (n: nat)
    ensures n <= |list|
  {
    if usage <= capacity || list == [] then 0
    else 1 + ToEvict(list[1..], entries, outstanding, usage - Relief(entries, outstanding, list[0]), capacity)
  }

  /** No fewer would do, and with that many gone the rest fits or there is none. */
  lemma {:induction false} EvictsNoMoreThanNeeded(
      list: seq<nat>, entries: map<nat, LRUHandle>, outstanding: map<nat, nat>, usage: int, capacity: int, k: nat)
    requires k <= |list|
    ensures var n := ToEvict(list, entries, outstanding, usage, capacity);
            && (k < n ==> usage - TotalRelief(list[..k], entries, outstanding) > capacity)
            && (k == n < |list| ==> usage - TotalRelief(list[..k], entries, outstanding) <= capacity)
  {
    if usage > capacity && k > 0 {
      assert list[..k][1..] == list[1..][..k - 1];
      EvictsNoMoreThanNeeded(
        list[1..], entries, outstanding, usage - Relief(entries, outstanding, list[0]), capacity, k - 1);
    }
  }

  lemma {:induction false} SameToEvict(
      list: seq<nat>, e0: map<nat, LRUHandle>, o0: map<nat, nat>, e1: map<nat, LRUHandle>, o1: map<nat, nat>,
      usage: int, capacity: int)
    requires forall id | id in list :: Relief(e0, o0, id) == Relief(e1, o1, id)
    ensures ToEvict(list, e0, o0, usage, capacity) == ToEvict(list, e1, o1, usage, capacity)
  {
    if usage > capacity && list != [] {
      SameToEvict(list[1..], e0, o0, e1, o1, usage - Relief(e0, o0, list[0]), capacity);
    }
  }

  // ---------- handles in the hands of clients ----------

  /** Handles that clients hold stay what they are. */
  ghost predicate KeepsHeld(
      entries: map<nat, LRUHandle>, outstanding: map<nat, nat>, entries': map<nat, LRUHandle>, outstanding': map<nat, nat>)
  {
    forall id | id in entries && id in outstanding && outstanding[id] > 0 ::
      && id in entries' && id in outstanding' && outstanding'[id] == outstanding[id]
      && entries'[id].name == entries[id].name && entries'[id].value == entries[id].value
  }

  lemma {:induction false} HeldThroughout(
      e0: map<nat, LRUHandle>, o0: map<nat, nat>, e1: map<nat, LRUHandle>, o1: map<nat, nat>,
      e2: map<nat, LRUHandle>, o2: map<nat, nat>, id: nat)
    requires KeepsHeld(e0, o0, e1, o1) && KeepsHeld(e1, o1, e2, o2)
    requires id in e1 && id in o1 && o1[id] > 0
    ensures KeepsHeld(e0, o0, e2, o2)
    ensures id in e2 && id in o2 && o2[id] == o1[id] && e2[id].name == e1[id].name && e2[id].value == e1[id].value
  {
  }

  /** All handles but these stay exactly as they are. */
  ghost predicate OthersSame(
      e0: map<nat, LRUHandle>, o0: map<nat, nat>, e1: map<nat, LRUHandle>, o1: map<nat, nat>, gone: seq<nat>)
  {
    forall id | id in e0 && id !in gone ::
      id in e1 && e1[id] == e0[id] && (id in o0 <==> id in o1) && (id in o0 ==> o1[id] == o0[id])
  }

  /** Once the oldest handle is dropped, what remains to be evicted is one less. */
  lemma {:induction false} OneEvicted(
      e0: map<nat, LRUHandle>, o0: map<nat, nat>, e1: map<nat, LRUHandle>, o1: map<nat, nat>,
      list: seq<nat>, contents: map<Name, nat>, usage: int, capacity: int)
    requires list != [] && usage > capacity && Agree(e0, list, contents) && OthersSame(e0, o0, e1, o1, [list[0]])
    ensures ToEvict(list, e0, o0, usage, capacity)
         == 1 + ToEvict(list[1..], e1, o1, usage - Relief(e0, o0, list[0]), capacity)
  {
    SameToEvict(list[1..], e0, o0, e1, o1, usage - Relief(e0, o0, list[0]), capacity);
  }

  lemma {:induction false} OthersSameThroughout(
      e0: map<nat, LRUHandle>, o0: map<nat, nat>, e1: map<nat, LRUHandle>, o1: map<nat, nat>,
      e2: map<nat, LRUHandle>, o2: map<nat, nat>, gone: seq<nat>, id: nat)
    requires OthersSame(e0, o0, e1, o1, gone) && OthersSame(e1, o1, e2, o2, [id])
    ensures OthersSame(e0, o0, e2, o2, gone + [id])
  {
  }

  lemma {:induction false} HeldSoFar(
      e0: map<nat, LRUHandle>, o0: map<nat, nat>, e1: map<nat, LRUHandle>, o1: map<nat, nat>,
      e2: map<nat, LRUHandle>, o2: map<nat, nat>)
    requires KeepsHeld(e0, o0, e1, o1) && KeepsHeld(e1, o1, e2, o2)
    ensures KeepsHeld(e0, o0, e2, o2)
  {
  }

  class LRUCache {
    const table: HandleTable
    var capacity: nat
    var usage: nat
    /** From oldest to newest. */
    var lru: seq<nat>
    var entries: map<nat, LRUHandle>
    var nextId: nat
    /** Calls of deleters, in order. */
    var deleted: seq<nat>
    /** Handles given to clients and not yet released. */
    ghost var outstanding: map<nat, nat>

    /** `loose` is a handle that has just lost a holder and still counts it. */
    ghost predicate OkBut(loose: Option<nat>)
      reads this, table
    {
      && table.Valid()
      && Agree(entries, lru, table.contents)
      && CountsOk(entries, lru, outstanding, loose)
      && DeletedOnce(entries, deleted, nextId)
      && usage == Charges(entries, nextId)
    }

    ghost predicate Valid()
      reads this, table
    {
      OkBut(None)
    }

    constructor (capacity: nat)
      ensures Valid() && fresh(table) && lru == [] && entries == map[] && this.capacity == capacity
    {
      table := new HandleTable();
      this.capacity, usage, lru, entries, nextId, deleted, outstanding := capacity, 0, [], map[], 0, [], map[];
    }

    /** Give up one reference; the last one frees the handle. */
    method Unref(id: nat)
      requires OkBut(Some(id)) && id in entries
      modifies this`usage, this`entries, this`deleted, this`outstanding
      ensures Valid()
      ensures id in old(outstanding) && if id in old(lru) || old(outstanding)[id] > 0 then
                entries == old(entries)[id := old(entries)[id].(refs := old(entries)[id].refs - 1)]
                && outstanding == old(outstanding) && deleted == old(deleted) && usage == old(usage)
              else
                entries == old(entries) - {id} && outstanding == old(outstanding) - {id}
                && deleted == old(deleted) + [id] && usage + old(entries)[id].charge == old(usage)
    {
      hide Charges, Agree, CountsOk, DeletedOnce, HandleTable.Valid;
      var h := entries[id];
      LastReference(entries, lru, outstanding, id);
      AliveIsNumbered(entries, deleted, nextId, id);
      if h.refs - 1 <= 0 {
        ChargesWithout(entries, id, nextId);
        Freed(entries, lru, table.contents, outstanding, deleted, nextId, id);
        usage := usage - h.charge;
        deleted := deleted + [id];
        entries := entries - {id};
        outstanding := outstanding - {id};
      } else {
        var h' := h.(refs := h.refs - 1);
        ChargesSame(entries, entries[id := h'], nextId);
        AgreeByName(entries, lru, table.contents, id, h');
        AliveAsBefore(entries, deleted, nextId, id, h');
        OneFewer(entries, lru, outstanding, id);
        entries := entries[id := h'];
      }
    }

    method Lookup(name: Name) returns (r: Option<nat>)
      requires Valid()
      modifies this
      ensures Valid() && table.contents == old(table.contents)
      ensures r == if name in table.contents then Some(table.contents[name]) else None
      ensures r.None? ==> entries == old(entries) && lru == old(lru) && outstanding == old(outstanding)
      ensures r.Some? ==>
        && r.value in old(entries) && r.value in old(outstanding) && old(entries)[r.value].name == name
        && entries == old(entries)[r.value := old(entries)[r.value].(refs := old(entries)[r.value].refs + 1)]
        && outstanding == old(outstanding)[r.value := old(outstanding)[r.value] + 1]
        && lru == Without(old(lru), r.value) + [r.value]
      ensures usage == old(usage) && deleted == old(deleted) && capacity == old(capacity) && nextId == old(nextId)
    {
      hide Charges, CountsOk, DeletedOnce, Without, Distinct, HandleTable.Valid;
      r := table.Lookup(name);
      if r.Some? {
        var id := r.value;
        MovedToEnd(entries, lru, table.contents, outstanding, id);
        var h' := entries[id].(refs := entries[id].refs + 1);
        ChargesSame(entries, entries[id := h'], nextId);
        AgreeByName(entries, Without(lru, id) + [id], table.contents, id, h');
        AliveAsBefore(entries, deleted, nextId, id, h');
        lru := Without(lru, id) + [id];
        outstanding := outstanding[id := outstanding[id] + 1];
        entries := entries[id := h'];
      }
    }

    /** A client gives a handle back. */
    method Release(id: nat)
      requires Valid() && id in outstanding && outstanding[id] > 0
      modifies this
      ensures Valid() && table.contents == old(table.contents) && lru == old(lru)
      ensures capacity == old(capacity) && nextId == old(nextId)
      ensures id in old(lru) || old(outstanding)[id] > 1 ==>
                && outstanding == old(outstanding)[id := old(outstanding)[id] - 1] && id in old(entries)
                && entries == old(entries)[id := old(entries)[id].(refs := old(entries)[id].refs - 1)]
                && deleted == old(deleted) && usage == old(usage)
      ensures id !in old(lru) && old(outstanding)[id] == 1 ==>
                && id in old(entries) && entries == old(entries) - {id} && outstanding == old(outstanding) - {id}
                && deleted == old(deleted) + [id] && usage + old(entries)[id].charge == old(usage)
    {
      hide Charges, Agree, DeletedOnce, HandleTable.Valid;
      outstanding := outstanding[id := outstanding[id] - 1];
      Unref(id);
    }

    /** Take a handle out of the list and the table; its reference is given up. */
    method Drop(id: nat)
      requires Valid() && id in lru
      modifies this, table
      ensures Valid() && lru == Without(old(lru), id)
      ensures id in old(entries) && table.contents == old(table.contents) - {old(entries)[id].name}
      ensures nextId == old(nextId) && capacity == old(capacity)
      ensures id in old(outstanding) && if old(outstanding)[id] > 0 then
                entries == old(entries)[id := old(entries)[id].(refs := old(entries)[id].refs - 1)]
                && outstanding == old(outstanding) && deleted == old(deleted) && usage == old(usage)
              else
                entries == old(entries) - {id} && outstanding == old(outstanding) - {id}
                && deleted == old(deleted) + [id] && usage + old(entries)[id].charge == old(usage)
      ensures KeepsHeld(old(entries), old(outstanding), entries, outstanding)
      ensures OthersSame(old(entries), old(outstanding), entries, outstanding, [id])
    {
      hide Charges, Agree, CountsOk, DeletedOnce, Without, HandleTable.Valid;
      TakenOut(entries, lru, table.contents, outstanding, id);
      LeftOut(entries, lru, table.contents, id);
      var name := entries[id].name;
      lru := Without(lru, id);
      var _ := table.Remove(name);
      Unref(id);
    }

    method Erase(name: Name)
      requires Valid()
      modifies this, table
      ensures Valid() && capacity == old(capacity) && nextId == old(nextId)
      ensures table.contents == old(table.contents) - {name}
      ensures KeepsHeld(old(entries), old(outstanding), entries, outstanding)
      ensures OthersSame(old(entries), old(outstanding), entries, outstanding,
                         if name in old(table.contents) then [old(table.contents)[name]] else [])
      ensures lru == if name in old(table.contents) then Without(old(lru), old(table.contents)[name]) else old(lru)
    {
      hide Charges, Agree, CountsOk, DeletedOnce, Without, HandleTable.Valid;
      ghost var before := table.contents;
      var removed := table.Remove(name);
      if removed.Some? {
        CachedIsListed(entries, lru, before, removed.value, name);
        TakenOut(entries, lru, before, outstanding, removed.value);
        lru := Without(lru, removed.value);
        Unref(removed.value);
      } else {
        assert table.contents == before;
      }
    }

    method DropOldest()
      requires Valid() && usage > capacity && lru != []
      modifies this, table
      ensures Valid() && capacity == old(capacity) && nextId == old(nextId) && lru == old(lru)[1..]
      ensures ToEvict(old(lru), old(entries), old(outstanding), old(usage), capacity)
           == 1 + ToEvict(lru, entries, outstanding, usage, capacity)
      ensures OthersSame(old(entries), old(outstanding), entries, outstanding, [old(lru)[0]])
      ensures KeepsHeld(old(entries), old(outstanding), entries, outstanding) && old(deleted) <= deleted
      ensures forall name | name in table.contents ::
                name in old(table.contents) && table.contents[name] == old(table.contents)[name]
    {
      hide Charges, Agree, CountsOk, DeletedOnce, ToEvict, OthersSame, KeepsHeld, HandleTable.Valid;
      ghost var before := (entries, outstanding, lru, usage, table.contents);
      Drop(lru[0]);
      OneEvicted(before.0, before.1, entries, outstanding, before.2, before.4, before.3, capacity);
    }

    /** Drop the oldest handles until the rest fits, or none is left. */
    method Evict()
      requires Valid()
      modifies this, table
      ensures Valid() && (usage <= capacity || lru == []) && capacity == old(capacity) && nextId == old(nextId)
      ensures lru == old(lru)[ToEvict(old(lru), old(entries), old(outstanding), old(usage), capacity)..]
      ensures OthersSame(old(entries), old(outstanding), entries, outstanding, old(lru)[..|old(lru)| - |lru|])
      ensures forall name | name in table.contents ::
                name in old(table.contents) && table.contents[name] == old(table.contents)[name]
      ensures KeepsHeld(old(entries), old(outstanding), entries, outstanding) && old(deleted) <= deleted
    {
      hide Valid;
      ghost var k := 0;
      assert KeepsHeld(old(entries), old(outstanding), entries, outstanding);
      assert OthersSame(old(entries), old(outstanding), entries, outstanding, []);
      assert old(lru)[..k] == [];
      hide KeepsHeld, OthersSame;
      while usage > capacity && lru != []
        invariant Valid() && capacity == old(capacity) && nextId == old(nextId)
        invariant 0 <= k <= |old(lru)| && lru == old(lru)[k..]
        invariant ToEvict(old(lru), old(entries), old(outstanding), old(usage), capacity)
                  == k + ToEvict(lru, entries, outstanding, usage, capacity)
        invariant forall name | name in table.contents ::
                    name in old(table.contents) && table.contents[name] == old(table.contents)[name]
        invariant OthersSame(old(entries), old(outstanding), entries, outstanding, old(lru)[..k])
        invariant KeepsHeld(old(entries), old(outstanding), entries, outstanding) && old(deleted) <= deleted
        decreases |lru|
      {
        ghost var before := (entries, outstanding);
        DropOldest();
        assert old(lru)[..k + 1] == old(lru)[..k] + [old(lru)[k]];
        OthersSameThroughout(
          old(entries), old(outstanding), before.0, before.1, entries, outstanding, old(lru)[..k], old(lru)[k]);
        HeldSoFar(old(entries), old(outstanding), before.0, before.1, entries, outstanding);
        k := k + 1;
      }
    }

    /** List a new handle as the newest; one of the same name leaves the list and awaits its Unref. */
    method Enter(name: Name, value: nat, charge: nat) returns (id: nat, previous: Option<nat>)
      requires Valid()
      modifies this, table
      ensures OkBut(previous) && capacity == old(capacity) && deleted == old(deleted)
      ensures previous == if name in old(table.contents) then Some(old(table.contents)[name]) else None
      ensures previous.Some? ==> previous.value in entries && previous.value != id && previous.value !in lru
      ensures id == old(nextId) && id !in old(entries) && id !in old(outstanding)
      ensures entries == old(entries)[id := LRUHandle(name, value, charge, 2)]
      ensures outstanding == old(outstanding)[id := 1] && table.contents == old(table.contents)[name := id]
      ensures lru == (if previous.Some? then Without(old(lru), previous.value) else old(lru)) + [id]
      ensures usage == old(usage) + charge
    {
      hide Charges, Agree, CountsOk, DeletedOnce, Without, HandleTable.Valid;
      id := nextId;
      NewIsNew(id);
      var h := LRUHandle(name, value, charge, 2);
      OneMore(entries, deleted, nextId, h);
      ghost var before := (entries, lru, table.contents, outstanding);
      entries := entries[id := h];
      outstanding := outstanding[id := 1];
      nextId := nextId + 1;
      lru := lru + [id];
      usage := usage + charge;
      previous := table.Insert(name, id);
      if previous.Some? {
        CachedIsListed(before.0, before.1, before.2, previous.value, name);
        Replaced(before.0, before.1, before.2, before.3, previous.value, id, h);
        WithoutOlder(before.1, previous.value, id);
        LeftOut(before.0, before.1, before.2, previous.value);
        lru := Without(lru, previous.value);
      } else {
        Entered(before.0, before.1, before.2, before.3, None, id, h);
      }
    }

    /** Enter, and the replaced handle loses the reference of the cache. */
    method Place(name: Name, value: nat, charge: nat) returns (id: nat)
      requires Valid()
      modifies this, table
      ensures Valid() && capacity == old(capacity) && old(deleted) <= deleted
      ensures id == old(nextId) && id in entries && entries[id] == LRUHandle(name, value, charge, 2)
      ensures id in outstanding && outstanding[id] == 1 && table.contents == old(table.contents)[name := id]
      ensures (
        var replaced := name in old(table.contents);
        && lru == (if replaced then Without(old(lru), old(table.contents)[name]) else old(lru)) + [id]
        && usage == old(usage) + charge
           - if replaced then Relief(old(entries), old(outstanding), old(table.contents)[name]) else 0)
      ensures KeepsHeld(old(entries), old(outstanding), entries, outstanding)
      ensures forall x | x in lru :: Relief(entries, outstanding, x) == Relief(old(entries), old(outstanding), x)
    {
      hide Charges, Agree, CountsOk, DeletedOnce, Without, HandleTable.Valid;
      var previous;
      id, previous := Enter(name, value, charge);
      if previous.Some? {
        Unref(previous.value);
      }
    }

    /** Cache a value in place of one of the same name, and make room for it. */
    method Insert(name: Name, value: nat, charge: nat) returns (id: nat)
      requires Valid()
      modifies this, table
      ensures Valid() && (usage <= capacity || lru == []) && capacity == old(capacity)
      ensures id == old(nextId) && id in entries && entries[id].name == name && entries[id].value == value
      ensures id in outstanding && outstanding[id] == 1
      ensures (
        var replaced := name in old(table.contents);
        var rest := if replaced then Without(old(lru), old(table.contents)[name]) else old(lru);
        var relief := if replaced then Relief(old(entries), old(outstanding), old(table.contents)[name]) else 0;
        lru == (rest + [id])[ToEvict(rest + [id], old(entries), old(outstanding), old(usage) + charge - relief, capacity)..])
      ensures forall other | other in table.contents ::
                if other == name then table.contents[other] == id
                else other in old(table.contents) && table.contents[other] == old(table.contents)[other]
      ensures KeepsHeld(old(entries), old(outstanding), entries, outstanding) && old(deleted) <= deleted
    {
      hide Charges, Agree, CountsOk, DeletedOnce, Without, KeepsHeld, ToEvict, Relief, HandleTable.Valid;
      id := Place(name, value, charge);
      SameToEvict(lru, entries, outstanding, old(entries), old(outstanding), usage, capacity);
      ghost var between := (entries, outstanding);
      Evict();
      HeldThroughout(old(entries), old(outstanding), between.0, between.1, entries, outstanding, id);
    }

    lemma {:induction false} NewIsNew(id: nat)
      requires Valid() && id == nextId
      ensures id !in entries && id !in outstanding && id !in lru
    {
    }
  }

  lemma {:induction false} AliveIsNumbered(entries: map<nat, LRUHandle>, deleted: seq<nat>, nextId: nat, id: nat)
    requires DeletedOnce(entries, deleted, nextId) && id in entries
    ensures id < nextId
  {
  }

  lemma {:induction false} CachedIsListed(
      entries: map<nat, LRUHandle>, lru: seq<nat>, contents: map<Name, nat>, id: nat, name: Name)
    requires Agree(entries, lru, contents) && name in contents && contents[name] == id
    ensures id in lru && id in entries && entries[id].name == name
  {
  }

  lemma {:induction false} LeftOut(
      entries: map<nat, LRUHandle>, lru: seq<nat>, contents: map<Name, nat>, id: nat)
    requires Agree(entries, lru, contents) && id in lru
    ensures id !in Without(lru, id)
  {
    WithoutMembers(lru, id);
  }
}
