/** MergingIterator: several sorted cursors behave as one cursor over their sorted union. */
module Merger {
  import opened Common
  import opened InternalKeys
  import opened Version
  import opened InternalIterators

  // ---------------------------------------------------------------- cuts

  /** In `es`, position `p` is the first entry not before `m[t]` (past the end if t is |m|). */
  ghost predicate AtCut(es: seq<Entry>, p: nat, m: seq<Entry>, t: nat) {
    p == if t < |m| then SeekIndex(es, m[t].key) else |es|
  }

  /** Position `p` is the last entry before `m[t]`, or invalid if there is none. */
  ghost predicate AtLast(es: seq<Entry>, p: nat, m: seq<Entry>, t: nat) {
    var cut := if t < |m| then SeekIndex(es, m[t].key) else |es|;
    p == if cut == 0 then |es| else cut - 1
  }

  /** `es` is one of the sorted runs that `m` merges. */
  ghost predicate PartOf(es: seq<Entry>, m: seq<Entry>) {
    SortedRun(es) && SetOf(es) <= SetOf(m)
  }

  /** Binary or linear, there is one place where a key splits a sorted run. */
  lemma {:induction false} SeekIsUnique(es: seq<Entry>, target: InternalKey, p: nat)
    requires SortedRun(es) && p <= |es|
    requires forall j | 0 <= j < p :: Less(es[j].key, target)
    requires p < |es| ==> !Less(es[p].key, target)
    ensures SeekIndex(es, target) == p
  {
    var i := SeekIndex(es, target);
  }

  lemma {:induction false} SeekOwnKey(es: seq<Entry>, p: nat)
    requires SortedRun(es) && p < |es|
    ensures SeekIndex(es, es[p].key) == p
  {
    SeekIsUnique(es, es[p].key, p);
  }

  /** The place of a member in the merged run. */
  lemma {:induction false} Place(es: seq<Entry>, m: seq<Entry>, j: nat) returns (i: nat)
    requires PartOf(es, m) && j < |es|
    ensures i < |m| && m[i] == es[j]
  {
    assert es[j] in SetOf(es);
    i :| 0 <= i < |m| && m[i] == es[j];
  }

  /** Moving the cut over m[t] moves the position in exactly the run that holds m[t]. */
  lemma {:induction false} CutStep(es: seq<Entry>, p: nat, m: seq<Entry>, t: nat)
    requires SortedRun(m) && PartOf(es, m) && t < |m| && AtCut(es, p, m, t)
    ensures AtCut(es, if p < |es| && es[p] == m[t] then p + 1 else p, m, t + 1)
  {
    var q := if p < |es| && es[p] == m[t] then p + 1 else p;
    if t + 1 < |m| {
      assert Less(m[t].key, m[t + 1].key);
      forall j | 0 <= j < q ensures Less(es[j].key, m[t + 1].key) {
      }
    }
    if q < |es| {
      var i := Place(es, m, q);
      assert p < q ==> Less(es[p].key, es[q].key);
      SortedPair(m, i, t);
      assert i != t;
      assert t + 1 < i ==> Less(m[t + 1].key, m[i].key);
    }
    if t + 1 < |m| {
      SeekIsUnique(es, m[t + 1].key, q);
    }
  }

  lemma {:induction false} CutAtSeek(es: seq<Entry>, m: seq<Entry>, target: InternalKey)
    requires SortedRun(m) && PartOf(es, m)
    ensures AtCut(es, SeekIndex(es, target), m, SeekIndex(m, target))
  {
    var t, p := SeekIndex(m, target), SeekIndex(es, target);
    if t < |m| {
      if p < |es| {
        var i := Place(es, m, p);
        assert t <= i;
        assert t == i || Less(m[t].key, m[i].key);
      }
      SeekIsUnique(es, m[t].key, p);
    } else if p < |es| {
      var i := Place(es, m, p);
    }
  }

  lemma {:induction false} CutAtStart(es: seq<Entry>, m: seq<Entry>)
    requires SortedRun(m) && PartOf(es, m)
    ensures AtCut(es, 0, m, 0)
  {
    if es != [] {
      var i := Place(es, m, 0);
      assert i == 0 || Less(m[0].key, m[i].key);
      SeekIsUnique(es, m[0].key, 0);
    }
  }

  // ---------------------------------------------------------------- the iterator

  class MergingIterator {
    const children: seq<InternalIterator>
    var current: Option<nat>
    var direction: Direction
    /** The sorted union of the children. */
    ghost const merged: seq<Entry>

    ghost predicate Children()
    {
      && SortedRun(merged)
      && (forall i | 0 <= i < |children| :: PartOf(children[i].entries, merged))
      && (forall e | e in merged :: exists i :: 0 <= i < |children| && e in children[i].entries)
      && (forall i, j | 0 <= i < j < |children| :: SetOf(children[i].entries) !! SetOf(children[j].entries))
      && (forall i, j | 0 <= i < j < |children| :: children[i] != children[j])
    }

    /** The children not at the current entry sit just after it, or just before it. */
    ghost predicate Placed(t: nat)
      reads this, children
    {
      && t < |merged|
      && current.Some? && current.value < |children|
      && (forall i | 0 <= i < |children| ::
            var c := children[i];
            if i == current.value then c.pos < |c.entries| && c.entries[c.pos] == merged[t]
            else if direction == Forward then AtCut(c.entries, c.pos, merged, t)
            else AtLast(c.entries, c.pos, merged, t))
    }

    ghost predicate Ok()
      reads this, children
    {
      && Children()
      && (forall i | 0 <= i < |children| :: children[i].pos <= |children[i].entries|)
      && (current.Some? ==> exists t :: Placed(t))
    }

    /** The position in the merged run; its length if the iterator is invalid. */
    ghost function Pos(): (t: nat)
      requires Ok()
      reads this, children
    {
      if current.None? then |merged| else var t :| Placed(t); t
    }

    constructor (children: seq<InternalIterator>, ghost merged: seq<Entry>)
      requires SortedRun(merged)
      requires forall i | 0 <= i < |children| :: PartOf(children[i].entries, merged) && children[i].pos <= |children[i].entries|
      requires forall e | e in merged :: exists i :: 0 <= i < |children| && e in children[i].entries
      requires forall i, j | 0 <= i < j < |children| :: SetOf(children[i].entries) !! SetOf(children[j].entries)
      requires forall i, j | 0 <= i < j < |children| :: children[i] != children[j]
      ensures Ok() && Pos() == |merged| && this.merged == merged && this.children == children
    {
      this.children := children;
      this.merged := merged;
      this.current := None;
      this.direction := Forward;
    }

    /** Only one position fits. */
    lemma {:induction false} PlacedOnce(t: nat, t': nat)
      requires Children() && Placed(t) && Placed(t')
      ensures t == t'
    {
      var c := children[current.value];
      assert c.entries[c.pos] == merged[t] && c.entries[c.pos] == merged[t'];
      SortedPair(merged, t, t');
    }

    lemma {:induction false} PosIs(t: nat)
      requires Ok() && Placed(t)
      ensures Pos() == t
    {
      PlacedOnce(t, Pos());
    }

    /** FindSmallest, when all children stand at the cut `t`. */
    method FindSmallest(ghost t: nat)
      requires Children() && t <= |merged| && direction == Forward
      requires forall i | 0 <= i < |children| :: AtCut(children[i].entries, children[i].pos, merged, t)
      modifies this`current
      ensures Ok() && Pos() == t
    {
      var smallest: Option<nat> := None;
      var i := 0;
      while i < |children|
        invariant i <= |children|
        invariant smallest.Some? ==> smallest.value < i && children[smallest.value].Valid()
        invariant forall j | 0 <= j < i && children[j].Valid() ::
                    smallest.Some? && !Less(children[j].Key(), children[smallest.value].Key())
      {
        var child := children[i];
        if child.Valid() {
          if smallest.None? {
            smallest := Some(i);
          } else if Less(child.Key(), children[smallest.value].Key()) {
            smallest := Some(i);
          }
        }
        i := i + 1;
      }
      current := smallest;
      SmallestIsCut(t);
    }

    lemma {:induction false} SmallestIsCut(t: nat)
      requires Children() && t <= |merged| && direction == Forward
      requires forall i | 0 <= i < |children| :: AtCut(children[i].entries, children[i].pos, merged, t)
      requires current.Some? ==> current.value < |children| && children[current.value].Valid()
      requires forall j | 0 <= j < |children| && children[j].Valid() ::
                 current.Some? && !Less(children[j].Key(), children[current.value].Key())
      ensures Ok() && Pos() == t
    {
      if t < |merged| {
        assert merged[t] in merged;
        var i :| 0 <= i < |children| && merged[t] in children[i].entries;
        var c := children[i];
        var j :| 0 <= j < |c.entries| && c.entries[j] == merged[t];
        SeekOwnKey(c.entries, j);
        assert c.pos == j && c.Valid();
        var d := children[current.value];
        assert !Less(d.Key(), merged[t].key);
        KeysEqualEntries(d.entries, d.pos, t);
        assert Placed(t);
        PosIs(t);
      }
    }

    /** A child's entry whose key ties with merged[t] is merged[t]. */
    lemma {:induction false} KeysEqualEntries(es: seq<Entry>, p: nat, t: nat)
      requires Children() && PartOf(es, merged) && p < |es| && t < |merged|
      requires !Less(es[p].key, merged[t].key) && !Less(merged[t].key, es[p].key)
      ensures es[p] == merged[t]
    {
      var i := Place(es, merged, p);
      SortedPair(merged, i, t);
    }

    /** FindLargest, when all children stand at the last entry before the cut `t`. */
    method FindLargest(ghost t: nat)
      requires Children() && t <= |merged| && direction == Reverse
      requires forall i | 0 <= i < |children| :: AtLast(children[i].entries, children[i].pos, merged, t)
      modifies this`current
      ensures Ok() && Pos() == if t == 0 then |merged| else t - 1
    {
      var largest: Option<nat> := None;
      var i := |children|;
      while i > 0
        invariant 0 <= i <= |children|
        invariant largest.Some? ==> i <= largest.value < |children| && children[largest.value].Valid()
        invariant forall j | i <= j < |children| && children[j].Valid() ::
                    largest.Some? && !Less(children[largest.value].Key(), children[j].Key())
      {
        i := i - 1;
        var child := children[i];
        if child.Valid() {
          if largest.None? {
            largest := Some(i);
          } else if Less(children[largest.value].Key(), child.Key()) {
            largest := Some(i);
          }
        }
      }
      current := largest;
      LargestIsCut(t);
    }

    /** A child at the last entry before the cut stands on an entry before it. */
    lemma {:induction false} LastIsBefore(es: seq<Entry>, p: nat, t: nat)
      requires Children() && PartOf(es, merged) && t <= |merged| && AtLast(es, p, merged, t) && p < |es|
      ensures t > 0 && !Less(merged[t - 1].key, es[p].key)
    {
      var i := Place(es, merged, p);
      if t < |merged| {
        assert Less(es[p].key, merged[t].key);
        SortedPair(merged, i, t);
      }
      SortedPair(merged, t - 1, i);
    }

    /** The child that holds merged[t - 1] stands on it. */
    lemma {:induction false} LastIsHeld(es: seq<Entry>, p: nat, t: nat, j: nat)
      requires Children() && PartOf(es, merged) && 0 < t <= |merged| && AtLast(es, p, merged, t)
      requires j < |es| && es[j] == merged[t - 1]
      ensures p == j
    {
      SeekOwnKey(es, j);
      CutStep(es, j, merged, t - 1);
    }

    lemma {:induction false} HolderOfLast(t: nat) returns (i: nat)
      requires Children() && 0 < t <= |merged|
      requires forall i | 0 <= i < |children| :: AtLast(children[i].entries, children[i].pos, merged, t)
      ensures i < |children| && children[i].Valid() && children[i].Key() == merged[t - 1].key
    {
      hide AtLast, SortedRun;
      assert merged[t - 1] in merged;
      i :| 0 <= i < |children| && merged[t - 1] in children[i].entries;
      var c := children[i];
      var j :| 0 <= j < |c.entries| && c.entries[j] == merged[t - 1];
      LastIsHeld(c.entries, c.pos, t, j);
    }

    lemma {:induction false} LargestIsCut(t: nat)
      requires Children() && t <= |merged| && direction == Reverse
      requires forall i | 0 <= i < |children| :: AtLast(children[i].entries, children[i].pos, merged, t)
      requires current.Some? ==> current.value < |children| && children[current.value].Valid()
      requires forall j | 0 <= j < |children| && children[j].Valid() ::
                 current.Some? && !Less(children[current.value].Key(), children[j].Key())
      ensures Ok() && Pos() == if t == 0 then |merged| else t - 1
    {
      if current.Some? {
        var d := children[current.value];
        LastIsBefore(d.entries, d.pos, t);
      }
      if t > 0 {
        var i := HolderOfLast(t);
        var d := children[current.value];
        assert !Less(d.Key(), children[i].Key());
        KeysEqualEntries(d.entries, d.pos, t - 1);
        OthersStayBefore(t);
        assert Placed(t - 1);
        PosIs(t - 1);
      }
    }

    /** Children other than the current one do not hold its entry, so the cut before it is the
        cut after it for them. */
    lemma {:induction false} OthersStayBefore(t: nat)
      requires Children() && 0 < t <= |merged|
      requires current.Some? && current.value < |children| && children[current.value].Valid()
      requires children[current.value].entries[children[current.value].pos] == merged[t - 1]
      requires forall i | 0 <= i < |children| :: AtLast(children[i].entries, children[i].pos, merged, t)
      ensures forall i | 0 <= i < |children| && i != current.value ::
                AtLast(children[i].entries, children[i].pos, merged, t - 1)
    {
      forall i | 0 <= i < |children| && i != current.value
        ensures AtLast(children[i].entries, children[i].pos, merged, t - 1)
      {
        var c := children[i];
        NotHeldTwice(current.value, i, t - 1);
        CutStep(c.entries, SeekIndex(c.entries, merged[t - 1].key), merged, t - 1);
      }
    }

    lemma {:induction false} NotHeldTwice(i: nat, j: nat, t: nat)
      requires Children() && i < |children| && j < |children| && i != j && t < |merged|
      requires merged[t] in children[i].entries
      ensures merged[t] !in children[j].entries
    {
      assert merged[t] in SetOf(children[i].entries);
      if i < j {
        assert SetOf(children[i].entries) !! SetOf(children[j].entries);
      } else {
        assert SetOf(children[j].entries) !! SetOf(children[i].entries);
      }
    }

    method SeekToFirst()
      requires Ok()
      modifies this, children
      ensures Ok() && Pos() == 0
    {
      var i := 0;
      while i < |children|
        invariant i <= |children|
        invariant forall j | 0 <= j < i :: AtCut(children[j].entries, children[j].pos, merged, 0)
      {
        children[i].SeekToFirst();
        CutAtStart(children[i].entries, merged);
        i := i + 1;
      }
      direction := Forward;
      FindSmallest(0);
    }

    method SeekToLast()
      requires Ok()
      modifies this, children
      ensures Ok() && Pos() == if merged == [] then 0 else |merged| - 1
    {
      var i := 0;
      while i < |children|
        invariant i <= |children|
        invariant forall j | 0 <= j < i :: AtLast(children[j].entries, children[j].pos, merged, |merged|)
      {
        children[i].SeekToLast();
        i := i + 1;
      }
      direction := Reverse;
      FindLargest(|merged|);
    }

    method Seek(target: InternalKey)
      requires Ok()
      modifies this, children
      ensures Ok() && Pos() == SeekIndex(merged, target)
    {
      ghost var t := SeekIndex(merged, target);
      var i := 0;
      while i < |children|
        invariant i <= |children|
        invariant forall j | 0 <= j < i :: AtCut(children[j].entries, children[j].pos, merged, t)
      {
        children[i].Seek(target);
        CutAtSeek(children[i].entries, merged, target);
        i := i + 1;
      }
      direction := Forward;
      FindSmallest(t);
    }

    /** Positions every child but the current one just after the current key. */
    method TurnForward(ghost t: nat)
      requires Ok() && Placed(t)
      modifies this`direction, children
      ensures Ok() && Placed(t) && direction == Forward && current == old(current)
    {
      if direction != Forward {
        var key := children[current.value].Key();
        var i := 0;
        while i < |children|
          invariant i <= |children|
          invariant children[current.value].pos == old(children[current.value].pos)
          invariant forall j | 0 <= j < i && j != current.value :: AtCut(children[j].entries, children[j].pos, merged, t)
          invariant forall j | 0 <= j < |children| :: children[j].pos <= |children[j].entries|
        {
          if i != current.value {
            var child := children[i];
            child.Seek(key);
            if child.Valid() && child.Key() == key {
              KeysEqualEntries(child.entries, child.pos, t);
              NotHeldTwice(current.value, i, t);
              assert false;
            }
          }
          i := i + 1;
        }
        direction := Forward;
        assert Placed(t);
      }
    }

    /** Positions every child but the current one just before the current key. */
    method TurnReverse(ghost t: nat)
      requires Ok() && Placed(t)
      modifies this`direction, children
      ensures Ok() && Placed(t) && direction == Reverse && current == old(current)
    {
      hide AtCut, PartOf, Less, SortedRun;
      if direction != Reverse {
        var key := children[current.value].Key();
        var i := 0;
        while i < |children|
          invariant i <= |children|
          invariant children[current.value].pos == old(children[current.value].pos)
          invariant forall j | 0 <= j < i && j != current.value :: AtLast(children[j].entries, children[j].pos, merged, t)
          invariant forall j | 0 <= j < |children| :: children[j].pos <= |children[j].entries|
        {
          if i != current.value {
            var child := children[i];
            child.Seek(key);
            if child.Valid() {
              child.Prev();
            } else {
              child.SeekToLast();
            }
          }
          i := i + 1;
        }
        direction := Reverse;
        assert Placed(t);
      }
    }

    method Next()
      requires Ok() && current.Some?
      modifies this, children
      ensures Ok() && Pos() == old(Pos()) + 1
    {
      ghost var t := Pos();
      TurnForward(t);
      var child := children[current.value];
      AllCutAfter(t);
      child.Next();
      FindSmallest(t + 1);
    }

    method Prev()
      requires Ok() && current.Some?
      modifies this, children
      ensures Ok() && Pos() == if old(Pos()) == 0 then |merged| else old(Pos()) - 1
    {
      ghost var t := Pos();
      TurnReverse(t);
      var child := children[current.value];
      SeekOwnKey(child.entries, child.pos);
      child.Prev();
      FindLargest(t);
    }

    /** Once the current child has stepped past merged[t], every child is at the cut t + 1. */
    lemma {:induction false} AllCutAfter(t: nat)
      requires Children() && Placed(t) && direction == Forward
      ensures forall i | 0 <= i < |children| ::
        AtCut(children[i].entries, if i == current.value then children[i].pos + 1 else children[i].pos, merged, t + 1)
    {
      forall i | 0 <= i < |children|
        ensures AtCut(children[i].entries, if i == current.value then children[i].pos + 1 else children[i].pos, merged, t + 1)
      {
        var c := children[i];
        if i == current.value {
          SeekOwnKey(c.entries, c.pos);
        } else {
          assert children[current.value].entries[children[current.value].pos] == merged[t];
          NotHeldTwice(current.value, i, t);
        }
        CutStep(c.entries, c.pos, merged, t);
      }
    }

    method Key() returns (k: InternalKey)
      requires Ok() && current.Some?
      ensures Pos() < |merged| && k == merged[Pos()].key
    {
      k := children[current.value].Key();
      assert Placed(Pos());
    }

    method Value() returns (v: Payload)
      requires Ok() && current.Some?
      ensures Pos() < |merged| && v == merged[Pos()].value
    {
      var c := children[current.value];
      assert Placed(Pos());
      v := c.entries[c.pos].value;
    }
  }
}
