/**
 * The bytewise comparator and the shortening of index keys.  The rank of a byte string embeds
 * byte strings in the reals in order, so that user keys can be reals in the rest of the model.
 */
module Bytewise {
  import opened Coding
  import opened InternalKeys

  /** Slice::compare: lexicographic, a proper prefix first. */
  predicate Precedes(a: seq<Byte>, b: seq<Byte>) {
    b != [] && (a == [] || a[0] < b[0] || (a[0] == b[0] && Precedes(a[1..], b[1..])))
  }

  /** Digits in base 257; zero stands for the end of the string. */
  ghost function Rank(s: seq<Byte>): (r: real)
    ensures 0.0 <= r < 1.0
  {
    if s == [] then 0.0 else (s[0] as real + 1.0 + Rank(s[1..])) / 257.0
  }

  /** Comparing strings is comparing ranks, and no two strings share one. */
  lemma {:induction false} RankIsAnOrderEmbedding(a: seq<Byte>, b: seq<Byte>)
    ensures Precedes(a, b) <==> Rank(a) < Rank(b)
    ensures Rank(a) == Rank(b) ==> a == b
    decreases |a|
  {
    if a != [] && b != [] {
      RankIsAnOrderEmbedding(a[1..], b[1..]);
      assert a == [a[0]] + a[1..] && b == [b[0]] + b[1..];
    }
  }

  lemma {:induction false} CommonPrefix(a: seq<Byte>, b: seq<Byte>, n: nat)
    requires n <= |a| && n <= |b| && a[..n] == b[..n]
    ensures Precedes(a, b) <==> Precedes(a[n..], b[n..])
  {
    if n > 0 {
      assert a[0] == a[..n][0] && b[0] == b[..n][0];
      assert a[1..][..n - 1] == a[..n][1..] && b[1..][..n - 1] == b[..n][1..];
      CommonPrefix(a[1..], b[1..], n - 1);
      assert a[1..][n - 1..] == a[n..] && b[1..][n - 1..] == b[n..];
    }
  }

  /** The first place where two strings differ decides. */
  lemma {:induction false} FirstDifference(a: seq<Byte>, b: seq<Byte>, n: nat)
    requires n < |a| && n < |b| && a[..n] == b[..n] && a[n] != b[n]
    ensures Precedes(a, b) <==> a[n] < b[n]
  {
    CommonPrefix(a, b, n);
  }

  /** Strings part ways at place i, with room between the two bytes for one more. */
  predicate PartsAt(start: seq<Byte>, limit: seq<Byte>, i: nat) {
    i < |start| && i < |limit| && start[..i] == limit[..i] && (start[i] as int) + 1 < limit[i]
  }

  lemma {:induction false} PartsOnce(start: seq<Byte>, limit: seq<Byte>, i: nat, j: nat)
    requires PartsAt(start, limit, i) && j < |start| && j < |limit| && start[..j] == limit[..j] && start[j] != limit[j]
    ensures i == j
  {
    forall k | 0 <= k < i ensures start[k] == limit[k] {
      assert start[..i][k] == limit[..i][k];
    }
    forall k | 0 <= k < j ensures start[k] == limit[k] {
      assert start[..j][k] == limit[..j][k];
    }
  }

  /** FindShortestSeparator: never longer, never before `start`, and before `limit` if `start` is.  Where the two part ways
      with room in between, it ends with a byte in that room. */
  method FindShortestSeparator(start: seq<Byte>, limit: seq<Byte>) returns (separator: seq<Byte>)
    ensures |separator| <= |start|
    ensures separator == start || (|separator| <= |limit| && Precedes(start, separator))
    ensures Precedes(start, limit) ==> Precedes(separator, limit)
    ensures !Precedes(start, limit) ==> separator == start
    ensures forall i: nat | PartsAt(start, limit, i) :: separator == start[..i] + [(start[i] as int) + 1]
    ensures (forall i: nat :: !PartsAt(start, limit, i)) ==> separator == start
  {
    var minLength := if |start| < |limit| then |start| else |limit|;
    var diff := 0;
    while diff < minLength && start[diff] == limit[diff]
      invariant diff <= minLength && start[..diff] == limit[..diff]
    {
      diff := diff + 1;
    }
    separator := start;
    if diff < minLength {
      FirstDifference(start, limit, diff);
      var byte: int := start[diff];
      if byte < 0xff && byte + 1 < limit[diff] {
        separator := start[..diff] + [byte + 1];
        assert separator[..diff] == start[..diff];
        FirstDifference(start, separator, diff);
        FirstDifference(separator, limit, diff);
        assert PartsAt(start, limit, diff);
      }
      forall i: nat | PartsAt(start, limit, i) ensures i == diff {
        PartsOnce(start, limit, i, diff);
      }
    }
  }

  /** What follows a string that begins with so many bytes 0xff begins with them too, and goes on. */
  lemma {:induction false} TopIsLast(key: seq<Byte>, i: nat, x: seq<Byte>)
    requires i <= |key| && (forall j | 0 <= j < i :: key[j] == 0xff) && Precedes(key, x)
    ensures |x| > i
  {
    if i > 0 {
      TopIsLast(key[1..], i - 1, x[1..]);
    }
  }

  /** FindShortSuccessor: leaves exactly the runs of 0xff alone, and nothing shorter follows the key. */
  method FindShortSuccessor(key: seq<Byte>) returns (successor: seq<Byte>)
    ensures |successor| <= |key|
    ensures if forall i | 0 <= i < |key| :: key[i] == 0xff then successor == key else Precedes(key, successor)
    ensures forall x | Precedes(key, x) :: |successor| <= |x|
  {
    var i := 0;
    while i < |key|
      invariant i <= |key| && forall j | 0 <= j < i :: key[j] == 0xff
    {
      var byte: int := key[i];
      if byte != 0xff {
        successor := key[..i] + [byte + 1];
        assert successor[..i] == key[..i];
        FirstDifference(key, successor, i);
        forall x | Precedes(key, x) ensures |successor| <= |x| {
          TopIsLast(key, i, x);
        }
        return;
      }
      i := i + 1;
    }
    forall x | Precedes(key, x) ensures |key| <= |x| {
      TopIsLast(key, i, x);
    }
    return key;
  }

  // ---------- internal keys over byte strings ----------

  datatype ByteKey = ByteKey(user: seq<Byte>, sequence: SequenceNumber, kind: ValueType)

  /** The internal key the rest of the model sees. */
  ghost function Ranked(k: ByteKey): InternalKey {
    InternalKey(Rank(k.user), k.sequence, k.kind)
  }

  /**
   * InternalKeyComparator::FindShortestSeparator: the start itself, or a key of a user key strictly
   * between the two.
   */
  method ShortestSeparator(start: ByteKey, limit: ByteKey) returns (separator: ByteKey)
    ensures separator == start || Rank(start.user) < Rank(separator.user) < Rank(limit.user)
    ensures |separator.user| <= |start.user|
    ensures forall i: nat | PartsAt(start.user, limit.user, i) && i + 1 < |start.user| ::
              separator == ByteKey(start.user[..i] + [(start.user[i] as int) + 1], MAX_SEQUENCE, TypeValue)
  {
    var tmp := FindShortestSeparator(start.user, limit.user);
    RankIsAnOrderEmbedding(start.user, tmp);
    RankIsAnOrderEmbedding(start.user, limit.user);
    RankIsAnOrderEmbedding(tmp, limit.user);
    separator := if |tmp| < |start.user| && Precedes(start.user, tmp) then ByteKey(tmp, MAX_SEQUENCE, TypeValue) else start;
  }

  /** InternalKeyComparator::FindShortSuccessor. */
  method ShortSuccessor(key: ByteKey) returns (successor: ByteKey)
    ensures !Less(Ranked(successor), Ranked(key))
    ensures |successor.user| <= |key.user|
    ensures forall x | Precedes(key.user, x) :: |successor.user| <= |x|
  {
    var tmp := FindShortSuccessor(key.user);
    RankIsAnOrderEmbedding(key.user, tmp);
    successor := if |tmp| < |key.user| && Precedes(key.user, tmp) then ByteKey(tmp, MAX_SEQUENCE, TypeValue) else key;
  }
}
