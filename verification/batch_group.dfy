/** BuildBatchGroup: which queued writers the front writer takes along. */
module BatchGroups {
  import opened Common
  import opened Coding
  import opened WriteBatches

  /** A call of Write; a call without a batch only waits for its turn (and forces a memtable switch). */
  datatype Request = Request(batch: Option<seq<BatchOp>>, sync: bool) {
    function Ops(): seq<BatchOp> {
      if batch.Some? then batch.value else []
    }

    /** What joining this request adds to the size of a group. */
    function Size(): nat {
      if batch.Some? then HEADER_SIZE + |EncodedAll(batch.value)| else 0
    }
  }

  function Joined(requests: seq<Request>): seq<BatchOp> {
    if requests == [] then [] else requests[0].Ops() + Joined(requests[1..])
  }

  function TotalSize(requests: seq<Request>): nat {
    if requests == [] then 0 else requests[0].Size() + TotalSize(requests[1..])
  }

  /** A small write does not wait for a large group. */
  function MaxSize(size: nat): nat {
    if size <= 0x2_0000 then size + 0x2_0000 else 0x10_0000
  }

  /** A synchronous write is not handled by a writer that does not sync. */
  predicate NeedsOwnSync(requests: seq<Request>, i: nat)
    requires i < |requests|
  {
    requests[i].sync && !requests[0].sync
  }

  /** The number of requests in a group, `n` of which are already known to belong to it. */
  function GroupCount(requests: seq<Request>, n: nat, size: nat, max: nat): (r: nat)
    requires 0 < n <= |requests|
    ensures n <= r <= |requests|
    decreases |requests| - n
  {
    if n == |requests| || NeedsOwnSync(requests, n) then n
    else if requests[n].batch.Some? && size + requests[n].Size() > max then n
    else GroupCount(requests, n + 1, size + requests[n].Size(), max)
  }

  function Group(requests: seq<Request>): (r: nat)
    requires requests != []
    ensures 0 < r <= |requests|
  {
    GroupCount(requests, 1, requests[0].Size(), MaxSize(requests[0].Size()))
  }

  lemma {:induction false} TotalSizeSnoc(requests: seq<Request>, last: Request)
    ensures TotalSize(requests + [last]) == TotalSize(requests) + last.Size()
    ensures Joined(requests + [last]) == Joined(requests) + last.Ops()
    decreases |requests|
  {
    if requests == [] {
      assert [last][1..] == [];
      assert requests + [last] == [last];
    } else {
      assert (requests + [last])[1..] == requests[1..] + [last];
      TotalSizeSnoc(requests[1..], last);
    }
  }

  lemma {:induction false} GroupCountIsMaximal(requests: seq<Request>, n: nat, size: nat, max: nat)
    requires 0 < n <= |requests| && size == TotalSize(requests[..n])
    requires forall i | 0 <= i < n :: !NeedsOwnSync(requests, i)
    requires size <= max || size == requests[0].Size()
    ensures (
      var r := GroupCount(requests, n, size, max);
      && (forall i | 0 <= i < r :: !NeedsOwnSync(requests, i))
      && (TotalSize(requests[..r]) <= max || TotalSize(requests[..r]) == requests[0].Size())
      && (r == |requests| || NeedsOwnSync(requests, r)
          || (requests[r].batch.Some? && TotalSize(requests[..r + 1]) > max)))
    decreases |requests| - n
  {
    hide Request.Size, TotalSize, Joined;
    if n < |requests| {
      OneMoreRequest(requests, n);
      if !NeedsOwnSync(requests, n) && !(requests[n].batch.Some? && size + requests[n].Size() > max) {
        NoBatchNoSize(requests[n]);
        GroupCountIsMaximal(requests, n + 1, size + requests[n].Size(), max);
      }
    }
  }

  lemma {:induction false} NoBatchNoSize(request: Request)
    ensures request.batch.None? ==> request.Size() == 0
  {
  }

  /**
   * A group is the longest run of queued requests that begins with the front one, never makes a
   * synchronous write wait for no sync, and outgrows neither the limit nor the front request.
   */
  lemma {:induction false} GroupIsMaximal(requests: seq<Request>)
    requires requests != []
    ensures (
      var r, max := Group(requests), MaxSize(requests[0].Size());
      && (forall i | 0 <= i < r :: !NeedsOwnSync(requests, i))
      && (TotalSize(requests[..r]) <= max || TotalSize(requests[..r]) == requests[0].Size())
      && (r == |requests| || NeedsOwnSync(requests, r)
          || (requests[r].batch.Some? && TotalSize(requests[..r + 1]) > max)))
  {
    hide Request.Size;
    FrontAlone(requests);
    GroupCountIsMaximal(requests, 1, requests[0].Size(), MaxSize(requests[0].Size()));
  }

  lemma {:induction false} CountReaches(requests: seq<Request>, n: nat, size: nat, max: nat, m: nat)
    requires 0 < n <= m <= |requests| && size == TotalSize(requests[..n])
    ensures m <= GroupCount(requests, n, size, max) <==>
            forall i | n <= i < m :: !NeedsOwnSync(requests, i) && (requests[i].batch.Some? ==> TotalSize(requests[..i + 1]) <= max)
    decreases |requests| - n
  {
    hide Request.Size, TotalSize, Joined;
    if n < m {
      OneMoreRequest(requests, n);
      if !NeedsOwnSync(requests, n) && !(requests[n].batch.Some? && size + requests[n].Size() > max) {
        NoBatchNoSize(requests[n]);
        CountReaches(requests, n + 1, size + requests[n].Size(), max, m);
      }
    }
  }

  /**
   * How far a group reaches, in bytes: a front write of up to 128 KB takes along what adds at most 128 KB to it, and
   * a larger one what brings the group to at most 1 MB.  No write that wants a sync joins a front write that does not.
   */
  lemma {:induction false} GroupReaches(requests: seq<Request>, n: nat)
    requires 0 < n <= |requests|
    ensures n <= Group(requests) <==>
            forall i | 1 <= i < n ::
              && (requests[i].sync ==> requests[0].sync)
              && (requests[i].batch.Some? ==>
                    if requests[0].Size() <= 128 * 1024 then TotalSize(requests[1..i + 1]) <= 128 * 1024
                    else TotalSize(requests[..i + 1]) <= 1024 * 1024)
  {
    hide Request.Size, GroupCount, Joined;
    FrontAlone(requests);
    CountReaches(requests, 1, requests[0].Size(), MaxSize(requests[0].Size()), n);
    forall i {:trigger requests[i]} | 1 <= i < n ensures TotalSize(requests[..i + 1]) == requests[0].Size() + TotalSize(requests[1..i + 1]) {
      assert requests[..i + 1][1..] == requests[1..i + 1];
    }
  }

  // ---------- the method ----------

  datatype Writer = Writer(batch: WriteBatch?, sync: bool)

  /** What the writer asks for, its batch being one built by the operations of WriteBatch. */
  ghost predicate Asks(w: Writer, request: Request)
    reads w.batch
  {
    && request.sync == w.sync
    && (if w.batch == null then request.batch == None
        else w.batch.Valid() && request.batch == Some(w.batch.ops))
  }

  lemma {:induction false} AskedSize(w: Writer, request: Request)
    requires Asks(w, request) && w.batch != null
    ensures w.batch.ByteSize() == request.Size()
  {
  }

  lemma {:induction false} FrontAlone(requests: seq<Request>)
    requires requests != []
    ensures Joined(requests[..1]) == requests[0].Ops()
    ensures TotalSize(requests[..1]) == requests[0].Size()
  {
    assert requests[..1] == [requests[0]] && requests[..1][1..] == [];
  }

  lemma {:induction false} OneMoreRequest(requests: seq<Request>, n: nat)
    requires n < |requests|
    ensures Joined(requests[..n + 1]) == Joined(requests[..n]) + requests[n].Ops()
    ensures TotalSize(requests[..n + 1]) == TotalSize(requests[..n]) + requests[n].Size()
  {
    assert requests[..n + 1] == requests[..n] + [requests[n]];
    TotalSizeSnoc(requests[..n], requests[n]);
  }

  /**
   * The batch to log for the front writer: its own when it goes alone, otherwise `tmp` holding the
   * operations of the whole group in queue order.  No caller's batch is disturbed.
   */
  method BuildBatchGroup(writers: seq<Writer>, tmp: WriteBatch, ghost requests: seq<Request>)
    returns (result: WriteBatch, count: nat)
    requires writers != [] && writers[0].batch != null
    requires |requests| == |writers| && forall i | 0 <= i < |writers| :: Asks(writers[i], requests[i])
    requires tmp.Valid() && tmp.ops == []
    requires forall w | w in writers :: w.batch != tmp
    modifies tmp
    ensures count == Group(requests)
    ensures forall i | 0 <= i < |writers| :: Asks(writers[i], requests[i])
    ensures result.Valid() && result.ops == Joined(requests[..count])
    ensures result == writers[0].batch || result == tmp
  {
    hide WriteBatch.Valid, Request.Size, EncodedAll, Joined, TotalSize;
    var first := writers[0];
    result := first.batch;
    AskedSize(first, requests[0]);
    FrontAlone(requests);
    var size: nat, max := first.batch.ByteSize(), MaxSize(first.batch.ByteSize());
    count := 1;
    while count < |writers|
      invariant 0 < count <= |writers|
      invariant forall i | 0 <= i < |writers| :: Asks(writers[i], requests[i])
      invariant result == first.batch || result == tmp
      invariant result.Valid() && result.ops == Joined(requests[..count])
      invariant result == first.batch ==> tmp.Valid() && tmp.ops == []
      invariant Group(requests) == GroupCount(requests, count, size, max)
    {
      var w := writers[count];
      assert Asks(w, requests[count]) && w in writers;
      if w.sync && !first.sync {
        break;
      }
      OneMoreRequest(requests, count);
      if w.batch != null {
        AskedSize(w, requests[count]);
        size := size + w.batch.ByteSize();
        if size > max {
          break;
        }
        if result == first.batch {
          result := tmp;
          result.Append(first.batch);
        }
        result.Append(w.batch);
      } else {
        NoBatchNoSize(requests[count]);
      }
      count := count + 1;
    }
  }
}
