/** Where a compaction cuts its outputs, in bytes of the grandparents they come to lie over. */
module CompactionCuts {
  import opened Common
  import opened InternalKeys
  import opened Version
  import opened Ranges
  import opened CompactionWork

  // ---------- the files between two keys ----------

  /** The files that end at or after `from` and before `to`. */
  function Between(files: Level, from: InternalKey, to: InternalKey): Level {
    if files == [] then []
    else
      (if !Less(files[0].largest, from) && Less(files[0].largest, to) then [files[0]] else [])
      + Between(files[1..], from, to)
  }

  lemma {:induction false} BetweenAdds(a: Level, b: Level, from: InternalKey, to: InternalKey)
    ensures Between(a + b, from, to) == Between(a, from, to) + Between(b, from, to)
  {
    if a == [] {
      assert a + b == b;
    } else {
      assert (a + b)[1..] == a[1..] + b;
      BetweenAdds(a[1..], b, from, to);
    }
  }

  lemma {:induction false} AllBetween(files: Level, from: InternalKey, to: InternalKey)
    requires forall k | 0 <= k < |files| :: !Less(files[k].largest, from) && Less(files[k].largest, to)
    ensures Between(files, from, to) == files
  {
    if files != [] {
      AllBetween(files[1..], from, to);
    }
  }

  lemma {:induction false} NoneBetween(files: Level, from: InternalKey, to: InternalKey)
    requires forall k | 0 <= k < |files| :: Less(files[k].largest, from) || !Less(files[k].largest, to)
    ensures Between(files, from, to) == []
  {
    if files != [] {
      NoneBetween(files[1..], from, to);
    }
  }

  /** In files in order, those before a key come first. */
  lemma {:induction false} IndexSplits(files: Level, key: InternalKey, i: nat)
    requires AllValid(files) && Ordered(files) && i < |files|
    ensures Less(files[i].largest, key) <==> i < FindFileIndex(files, key)
  {
    OrderedSplits(files, key);
  }

  lemma {:induction false} IndexAscends(files: Level, a: InternalKey, b: InternalKey)
    requires AllValid(files) && Ordered(files) && (Less(a, b) || a == b)
    ensures FindFileIndex(files, a) <= FindFileIndex(files, b)
  {
    var i := FindFileIndex(files, b);
    if i < FindFileIndex(files, a) {
      IndexSplits(files, a, i);
      IndexSplits(files, b, i);
    }
  }

  lemma {:induction false} BetweenIsSlice(files: Level, a: InternalKey, b: InternalKey)
    requires AllValid(files) && Ordered(files) && (Less(a, b) || a == b)
    ensures FindFileIndex(files, a) <= FindFileIndex(files, b)
    ensures Between(files, a, b) == files[FindFileIndex(files, a)..FindFileIndex(files, b)]
  {
    hide Ordered, AllValid, Less, Between, FindFileIndex;
    IndexAscends(files, a, b);
    var i, j := FindFileIndex(files, a), FindFileIndex(files, b);
    var front, slice, back := files[..i], files[i..j], files[j..];
    assert files == (front + slice) + back;
    BetweenAdds(front + slice, back, a, b);
    BetweenAdds(front, slice, a, b);
    forall k | 0 <= k < |front| ensures Less(front[k].largest, a) {
      IndexSplits(files, a, k);
    }
    NoneBetween(front, a, b);
    forall k | 0 <= k < |slice| ensures !Less(slice[k].largest, a) && Less(slice[k].largest, b) {
      IndexSplits(files, a, i + k);
      IndexSplits(files, b, i + k);
    }
    AllBetween(slice, a, b);
    forall k | 0 <= k < |back| ensures !Less(back[k].largest, b) {
      IndexSplits(files, b, j + k);
    }
    NoneBetween(back, a, b);
  }

  // ---------- the cursor over a run of keys ----------

  ghost predicate Ascending(keys: seq<InternalKey>) {
    forall i, j | 0 <= i < j < |keys| :: Less(keys[i], keys[j])
  }

  /** The state of ShouldStopBefore once it was asked about the first `n` keys. */
  function CursorAfter(grandparents: Level, keys: seq<InternalKey>, n: nat): StopCursor
    requires n <= |keys|
  {
    if n == 0 then StopCursor(0, false, 0) else AfterKey(grandparents, CursorAfter(grandparents, keys, n - 1), keys[n - 1])
  }

  /** What ShouldStopBefore answers for the n-th key. */
  predicate StopsAt(grandparents: Level, keys: seq<InternalKey>, n: nat)
    requires n < |keys|
  {
    TooMuchOverlap(grandparents, CursorAfter(grandparents, keys, n), keys[n])
  }

  /** The last time an output was cut before key n was at key s, or none was and s is the first key. */
  ghost predicate SinceStop(grandparents: Level, keys: seq<InternalKey>, s: nat, n: nat)
    requires n <= |keys|
  {
    && (if n == 0 then s == 0 else s < n)
    && (s == 0 || StopsAt(grandparents, keys, s))
    && forall i | s < i < n :: !StopsAt(grandparents, keys, i)
  }

  lemma {:induction false} NoSize()
    ensures TotalFileSize([]) == 0
  {
  }

  lemma {:induction false} FirstSize(files: Level)
    requires files != []
    ensures TotalFileSize(files) == files[0].fileSize + TotalFileSize(files[1..])
  {
  }

  lemma {:induction false} Passes(grandparents: Level, c: StopCursor, key: InternalKey)
    requires AllValid(grandparents) && Ordered(grandparents) && c.index <= FindFileIndex(grandparents, key)
    ensures var to := FindFileIndex(grandparents, key);
            PassGrandparents(grandparents, c, key)
            == StopCursor(to, c.seen, c.overlapped + if c.seen then TotalFileSize(grandparents[c.index..to]) else 0)
    decreases |grandparents| - c.index
  {
    hide Ordered, AllValid, Less, FindFileIndex, TotalFileSize;
    var to := FindFileIndex(grandparents, key);
    if c.index < |grandparents| {
      IndexSplits(grandparents, key, c.index);
    }
    if c.index == to {
      assert grandparents[c.index..to] == [];
      NoSize();
    } else {
      var f := grandparents[c.index];
      FirstSize(grandparents[c.index..to]);
      assert grandparents[c.index..to][1..] == grandparents[c.index + 1..to];
      Passes(grandparents, StopCursor(c.index + 1, c.seen, c.overlapped + if c.seen then f.fileSize else 0), key);
    }
  }

  lemma {:induction false} CursorIndex(grandparents: Level, keys: seq<InternalKey>, n: nat)
    requires AllValid(grandparents) && Ordered(grandparents) && Ascending(keys) && 0 < n <= |keys|
    ensures var c := CursorAfter(grandparents, keys, n);
            c.index == FindFileIndex(grandparents, keys[n - 1]) && c.seen
  {
    hide Ordered, AllValid, Less, PassGrandparents;
    if n > 1 {
      CursorIndex(grandparents, keys, n - 1);
      IndexAscends(grandparents, keys[n - 2], keys[n - 1]);
    }
    Passes(grandparents, CursorAfter(grandparents, keys, n - 1), keys[n - 1]);
  }

  /** One more key: a stop starts the count again, and otherwise what was passed is added. */
  lemma {:induction false} CountsOn(grandparents: Level, keys: seq<InternalKey>, n: nat)
    requires AllValid(grandparents) && Ordered(grandparents) && Ascending(keys) && 0 < n < |keys|
    ensures FindFileIndex(grandparents, keys[n - 1]) <= FindFileIndex(grandparents, keys[n])
    ensures var i, j := FindFileIndex(grandparents, keys[n - 1]), FindFileIndex(grandparents, keys[n]);
            CursorAfter(grandparents, keys, n + 1).overlapped
            == if StopsAt(grandparents, keys, n) then 0
               else CursorAfter(grandparents, keys, n).overlapped + TotalFileSize(grandparents[i..j])
  {
    hide Ordered, AllValid, Less, PassGrandparents, FindFileIndex, TotalFileSize;
    CursorIndex(grandparents, keys, n);
    IndexAscends(grandparents, keys[n - 1], keys[n]);
    Passes(grandparents, CursorAfter(grandparents, keys, n), keys[n]);
  }

  lemma {:induction false} FirstCounts(grandparents: Level, keys: seq<InternalKey>)
    requires AllValid(grandparents) && Ordered(grandparents) && keys != []
    ensures CursorAfter(grandparents, keys, 1).overlapped == 0
  {
    hide Ordered, AllValid, Less, PassGrandparents, FindFileIndex, TotalFileSize;
    Passes(grandparents, CursorAfter(grandparents, keys, 0), keys[0]);
  }

  /** The bytes counted since the last cut, or since the first key. */
  lemma {:induction false} Overlapped(grandparents: Level, keys: seq<InternalKey>, s: nat, n: nat)
    requires AllValid(grandparents) && Ordered(grandparents) && Ascending(keys)
    requires s < n <= |keys| && SinceStop(grandparents, keys, s, n)
    ensures CursorAfter(grandparents, keys, n).overlapped == TotalFileSize(Between(grandparents, keys[s], keys[n - 1]))
    decreases n
  {
    hide Ordered, AllValid, Less, CursorAfter, StopsAt, Between, FindFileIndex, TotalFileSize;
    BetweenIsSlice(grandparents, keys[s], keys[n - 1]);
    if n == 1 {
      FirstCounts(grandparents, keys);
      NoSize();
    } else {
      CountsOn(grandparents, keys, n - 1);
      if s == n - 1 {
        NoSize();
      } else {
        Overlapped(grandparents, keys, s, n - 1);
        BetweenIsSlice(grandparents, keys[s], keys[n - 2]);
        SliceGrows(grandparents, FindFileIndex(grandparents, keys[s]), FindFileIndex(grandparents, keys[n - 2]),
                   FindFileIndex(grandparents, keys[n - 1]));
      }
    }
  }

  lemma {:induction false} SliceGrows(files: Level, i: nat, j: nat, k: nat)
    requires i <= j <= k <= |files|
    ensures TotalFileSize(files[i..k]) == TotalFileSize(files[i..j]) + TotalFileSize(files[j..k])
  {
    assert files[i..k] == files[i..j] + files[j..k];
    SizesAdd(files[i..j], files[j..k]);
  }

  /**
   * Over any ascending run of keys: ShouldStopBefore says stop at a key exactly when the grandparents that end before it,
   * but not before the key of the last stop (or the first key), hold more than 20 MB.
   */
  lemma {:induction false} StopsExactly(grandparents: Level, keys: seq<InternalKey>, s: nat, n: nat)
    requires AllValid(grandparents) && Ordered(grandparents) && Ascending(keys)
    requires n < |keys| && SinceStop(grandparents, keys, s, n)
    ensures StopsAt(grandparents, keys, n) <==> TotalFileSize(Between(grandparents, keys[s], keys[n])) > 20 * 1048576
  {
    hide Ordered, AllValid, Less, PassGrandparents, Between, FindFileIndex, TotalFileSize;
    var c := CursorAfter(grandparents, keys, n);
    NoSize();
    if n > 0 {
      CursorIndex(grandparents, keys, n);
      IndexAscends(grandparents, keys[n - 1], keys[n]);
    }
    Passes(grandparents, c, keys[n]);
    BetweenIsSlice(grandparents, keys[s], keys[n]);
    if s < n {
      Overlapped(grandparents, keys, s, n);
      BetweenIsSlice(grandparents, keys[s], keys[n - 1]);
      SliceGrows(grandparents, FindFileIndex(grandparents, keys[s]), c.index, FindFileIndex(grandparents, keys[n]));
    }
  }

  /** There is always a last stop. */
  lemma {:induction false} LastStop(grandparents: Level, keys: seq<InternalKey>, n: nat) returns (s: nat)
    requires n <= |keys|
    ensures SinceStop(grandparents, keys, s, n)
  {
    if n <= 1 {
      s := 0;
    } else if StopsAt(grandparents, keys, n - 1) {
      s := n - 1;
    } else {
      s := LastStop(grandparents, keys, n - 1);
    }
  }

  // ---------- outputs ----------

  function KeysOf(m: seq<Entry>): (keys: seq<InternalKey>)
    ensures |keys| == |m| && forall i | 0 <= i < |m| :: keys[i] == m[i].key
  {
    seq(|m|, i requires 0 <= i < |m| => m[i].key)
  }

  /** The loop asks about every merged entry. */
  lemma {:induction false} WrittenStop(t: Task, n: nat)
    requires n <= |t.m|
    ensures Written(t, n).stop == CursorAfter(t.grandparents, KeysOf(t.m), n)
  {
    hide TooMuchOverlap, AfterKey, Keeps;
    if n > 0 {
      WrittenStop(t, n - 1);
    }
  }

  /** The entries from `first` to `last` were merged without a stop in between. */
  ghost predicate Unstopped(t: Task, first: Entry, last: Entry, n: nat)
    requires n <= |t.m|
  {
    exists i, j :: 0 <= i <= j < n && t.m[i] == first && t.m[j] == last
                   && forall k | i < k <= j :: !StopsAt(t.grandparents, KeysOf(t.m), k)
  }

  /** The entry being written so far came without a stop since its first one. */
  ghost predicate OpenUnstopped(t: Task, builder: seq<Entry>, n: nat)
    requires n <= |t.m|
  {
    builder != [] ==>
      exists i, j :: 0 <= i <= j < n && t.m[i] == builder[0] && t.m[j] == builder[|builder| - 1]
                     && forall k | i < k < n :: !StopsAt(t.grandparents, KeysOf(t.m), k)
  }

  ghost predicate AllUnstopped(t: Task, outputs: Level, n: nat)
    requires n <= |t.m|
  {
    forall o | o in outputs && o.entries != [] :: Unstopped(t, o.entries[0], o.entries[|o.entries| - 1], n)
  }

  lemma {:induction false} UnstoppedLater(t: Task, outputs: Level, n: nat)
    requires 0 < n <= |t.m| && AllUnstopped(t, outputs, n - 1)
    ensures AllUnstopped(t, outputs, n)
  {
    forall o | o in outputs && o.entries != [] ensures Unstopped(t, o.entries[0], o.entries[|o.entries| - 1], n) {
      assert Unstopped(t, o.entries[0], o.entries[|o.entries| - 1], n - 1);
    }
  }

  lemma {:induction false} CloseUnstopped(t: Task, w: Writing, n: nat)
    requires n <= |t.m| && AllUnstopped(t, w.outputs, n) && OpenUnstopped(t, w.builder, n)
    ensures AllUnstopped(t, Close(t, w).outputs, n) && Close(t, w).builder == []
  {
    if w.builder != [] {
      var i, j :| 0 <= i <= j < n && t.m[i] == w.builder[0] && t.m[j] == w.builder[|w.builder| - 1]
                     && forall k | i < k < n :: !StopsAt(t.grandparents, KeysOf(t.m), k);
      assert Unstopped(t, w.builder[0], w.builder[|w.builder| - 1], n);
    }
  }

  lemma {:induction false} StopUnstopped(t: Task, v: Writing, n: nat)
    requires n < |t.m| && v.stop == CursorAfter(t.grandparents, KeysOf(t.m), n)
    requires AllUnstopped(t, v.outputs, n) && OpenUnstopped(t, v.builder, n)
    ensures var w := StopIfNeeded(t, v, t.m[n].key);
            AllUnstopped(t, w.outputs, n + 1) && OpenUnstopped(t, w.builder, n + 1)
  {
    hide TooMuchOverlap, AfterKey, AllUnstopped, CursorAfter;
    var w := StopIfNeeded(t, v, t.m[n].key);
    CloseUnstopped(t, v, n);
    UnstoppedLater(t, w.outputs, n + 1);
  }

  lemma {:induction false} AddUnstopped(t: Task, w: Writing, n: nat)
    requires 0 < n <= |t.m| && AllUnstopped(t, w.outputs, n) && OpenUnstopped(t, w.builder, n)
    ensures var r := AddKept(t, w, t.m[n - 1]);
            AllUnstopped(t, r.outputs, n) && OpenUnstopped(t, r.builder, n)
  {
    hide AllUnstopped, StopsAt;
    var builder := w.builder + [t.m[n - 1]];
    if w.builder == [] {
      assert t.m[n - 1] == builder[0] && t.m[n - 1] == builder[|builder| - 1];
    } else {
      var i, j :| 0 <= i <= j < n && t.m[i] == w.builder[0] && t.m[j] == w.builder[|w.builder| - 1]
                     && forall k | i < k < n :: !StopsAt(t.grandparents, KeysOf(t.m), k);
      assert t.m[i] == builder[0] && t.m[n - 1] == builder[|builder| - 1];
    }
    assert OpenUnstopped(t, builder, n);
    CloseUnstopped(t, w.(builder := builder), n);
  }

  lemma {:induction false} WrittenUnstopped(t: Task, n: nat)
    requires n <= |t.m|
    ensures AllUnstopped(t, Written(t, n).outputs, n) && OpenUnstopped(t, Written(t, n).builder, n)
  {
    hide StopIfNeeded, AddKept, Keeps, OpenUnstopped, AllUnstopped, CursorAfter;
    if n == 0 {
      NothingOpen(t);
    } else {
      WrittenUnstopped(t, n - 1);
      WrittenStop(t, n - 1);
      StopUnstopped(t, Written(t, n - 1), n - 1);
      AddUnstopped(t, StopIfNeeded(t, Written(t, n - 1), t.m[n - 1].key), n);
    }
  }

  lemma {:induction false} NothingOpen(t: Task)
    ensures AllUnstopped(t, [], 0) && OpenUnstopped(t, [], 0)
  {
  }

  lemma {:induction false} KeysAscend(m: seq<Entry>)
    requires SortedRun(m)
    ensures Ascending(KeysOf(m))
  {
  }

  lemma {:induction false} SubrangeIsLess(files: Level, from: InternalKey, a: InternalKey, to: InternalKey)
    requires Less(from, a) || from == a
    ensures TotalFileSize(Between(files, a, to)) <= TotalFileSize(Between(files, from, to))
  {
    if files != [] {
      SubrangeIsLess(files[1..], from, a, to);
      SizesAdd(if !Less(files[0].largest, a) && Less(files[0].largest, to) then [files[0]] else [], Between(files[1..], a, to));
      SizesAdd(if !Less(files[0].largest, from) && Less(files[0].largest, to) then [files[0]] else [], Between(files[1..], from, to));
    }
  }

  lemma {:induction false} UnstoppedFits(t: Task, i: nat, j: nat)
    requires SortedRun(t.m) && AllValid(t.grandparents) && Ordered(t.grandparents) && i <= j < |t.m|
    requires forall k | i < k <= j :: !StopsAt(t.grandparents, KeysOf(t.m), k)
    ensures TotalFileSize(Between(t.grandparents, t.m[i].key, t.m[j].key)) <= 20 * 1048576
  {
    hide Ordered, AllValid, StopsAt, Less;
    var keys := KeysOf(t.m);
    KeysAscend(t.m);
    if i == j {
      BetweenIsSlice(t.grandparents, keys[i], keys[i]);
    } else {
      var s := LastStop(t.grandparents, keys, j);
      assert s <= i;
      StopsExactly(t.grandparents, keys, s, j);
      SubrangeIsLess(t.grandparents, keys[s], keys[i], keys[j]);
    }
  }

  /** No output comes to lie over more than 20 MB of grandparents: those that end between its first and its last entry. */
  lemma {:induction false} OutputsOverlapLittle(t: Task, o: FileMetaData)
    requires SortedRun(t.m) && AllValid(t.grandparents) && Ordered(t.grandparents) && o in Outputs(t) && o.entries != []
    ensures TotalFileSize(Between(t.grandparents, o.entries[0].key, o.entries[|o.entries| - 1].key)) <= 20 * 1048576
  {
    hide Ordered, AllValid, StopsAt, SortedRun;
    var n := |t.m|;
    WrittenUnstopped(t, n);
    CloseUnstopped(t, Written(t, n), n);
    var first, last := o.entries[0], o.entries[|o.entries| - 1];
    assert Unstopped(t, first, last, n);
    var i, j :| 0 <= i <= j < n && t.m[i] == first && t.m[j] == last
                   && forall k | i < k <= j :: !StopsAt(t.grandparents, KeysOf(t.m), k);
    UnstoppedFits(t, i, j);
  }

  /** An output that is neither the last nor full was followed by a key that brought the grandparents over 20 MB. */
  lemma {:induction false} OutputsEndForSize(t: Task, i: nat) returns (s: nat, n: nat)
    requires SortedRun(t.m) && AllValid(t.grandparents) && Ordered(t.grandparents)
    requires i + 1 < |Outputs(t)| && t.sizes.written(Outputs(t)[i].entries) < TARGET_FILE_SIZE
    ensures s < n < |t.m| && SinceStop(t.grandparents, KeysOf(t.m), s, n) && Written(t, n).builder == Outputs(t)[i].entries
    ensures TotalFileSize(Between(t.grandparents, t.m[s].key, t.m[n].key)) > 20 * 1048576
  {
    hide Ordered, AllValid, SortedRun, Written, Outputs, TooMuchOverlap, CursorAfter, Between, TotalFileSize, NotFull;
    OutputsEndOnlyWhereTheyMust(t, i);
    KeysAscend(t.m);
    n :| 0 <= n < |t.m| && TooMuchOverlap(t.grandparents, Written(t, n).stop, t.m[n].key)
         && Written(t, n).builder == Outputs(t)[i].entries;
    WrittenStop(t, n);
    s := LastStop(t.grandparents, KeysOf(t.m), n);
    StopsExactly(t.grandparents, KeysOf(t.m), s, n);
    if n == 0 {
      BetweenIsSlice(t.grandparents, t.m[0].key, t.m[0].key);
      NoSize();
    }
  }
}
