/** Bloom filters: what CreateFilter sets, KeyMayMatch finds. */
module Bloom {
  import opened Coding
  import Crc32c

  /** The hash function is arbitrary. */
  type HashFunction = seq<Byte> -> Word

  // ---------- bits ----------

  function Power2(n: nat): (r: nat)
    ensures r > 0
  {
    if n == 0 then 1 else 2 * Power2(n - 1)
  }

  /** x & (1 << b) */
  predicate TestBit(x: nat, b: nat) {
    if b == 0 then x % 2 == 1 else TestBit(x / 2, b - 1)
  }

  /** x | (1 << b) */
  function WithBit(x: nat, b: nat): nat {
    if b == 0 then x / 2 * 2 + 1 else x % 2 + 2 * WithBit(x / 2, b - 1)
  }

  lemma {:induction false} BitFits(x: nat, b: nat, n: nat)
    requires x < Power2(n) && b < n
    ensures WithBit(x, b) < Power2(n)
  {
    if b > 0 {
      BitFits(x / 2, b - 1, n - 1);
    }
  }

  /** Setting one bit sets it and leaves the others alone. */
  lemma {:induction false} BitsIndependent(x: nat, b: nat, c: nat)
    ensures TestBit(WithBit(x, b), c) <==> b == c || TestBit(x, c)
  {
    if b > 0 {
      assert WithBit(x, b) / 2 == WithBit(x / 2, b - 1) && WithBit(x, b) % 2 == x % 2;
      if c > 0 {
        BitsIndependent(x / 2, b - 1, c - 1);
      }
    } else {
      assert WithBit(x, b) / 2 == x / 2;
    }
  }

  function ByteWithBit(x: Byte, b: nat): Byte
    requires b < 8
  {
    assert Power2(8) == 16 * Power2(4) == 256;
    BitFits(x, b, 8);
    WithBit(x, b)
  }

  function SetBit(bytes: seq<Byte>, p: nat): (r: seq<Byte>)
    requires p < 8 * |bytes|
    ensures |r| == |bytes|
  {
    bytes[p / 8 := ByteWithBit(bytes[p / 8], p % 8)]
  }

  predicate HasBit(bytes: seq<Byte>, p: nat)
    requires p < 8 * |bytes|
  {
    TestBit(bytes[p / 8], p % 8)
  }

  lemma {:induction false} SetBitSets(bytes: seq<Byte>, p: nat, q: nat)
    requires p < 8 * |bytes| && q < 8 * |bytes|
    ensures HasBit(SetBit(bytes, p), q) <==> p == q || HasBit(bytes, q)
  {
    hide WithBit, TestBit;
    if p / 8 == q / 8 {
      BitsIndependent(bytes[p / 8], p % 8, q % 8);
    }
  }

  // ---------- probes ----------

  /** Double hashing: probe j of a key. */
  function Probe(h: Word, j: nat): Word {
    if j == 0 then h else (Probe(h, j - 1) + Crc32c.RotateLeft15(h)) % 0x1_0000_0000
  }

  /** One of the first k probes of a key hits bit p. */
  ghost predicate Hits(h: Word, k: nat, bits: nat, p: nat)
    requires bits > 0
  {
    exists j :: 0 <= j < k && Probe(h, j) % bits == p
  }

  /** The bit that a probe looks at in so many bytes. */
  function Position(probe: Word, size: nat): (p: nat)
    requires size > 0
    ensures p < 8 * size
  {
    probe % (8 * size)
  }

  /** The first k probes of a hash all hit set bits. */
  predicate ProbesSet(bytes: seq<Byte>, h: Word, k: nat)
    requires bytes != []
  {
    forall j | 0 <= j < k :: HasBit(bytes, Position(Probe(h, j), |bytes|))
  }

  /** KeyMayMatch. */
  ghost predicate MayMatch(hash: HashFunction, key: seq<Byte>, filter: seq<Byte>) {
    |filter| >= 2 &&
    var bytes, k := filter[..|filter| - 1], filter[|filter| - 1];
    k > 30 || ProbesSet(bytes, hash(key), k)
  }

  class BloomFilterPolicy {
    const hash: HashFunction
    const bitsPerKey: nat
    /** The number of probes. */
    const k: nat

    constructor (hash: HashFunction, bitsPerKey: nat)
      ensures this.hash == hash && this.bitsPerKey == bitsPerKey && 1 <= k <= 30
      ensures (k == 1 || 100 * k <= 69 * bitsPerKey) && (k == 30 || 69 * bitsPerKey < 100 * (k + 1))
    {
      this.hash, this.bitsPerKey := hash, bitsPerKey;
      var n := bitsPerKey * 69 / 100;
      k := if n < 1 then 1 else if n > 30 then 30 else n;
    }

    /** The size of a filter in bytes: as few as hold so many bits for each key, and 64 bits at least. */
    function FilterBytes(n: nat): (r: nat)
      ensures r >= 8 && 8 * r >= n * bitsPerKey
      ensures r > 8 ==> 8 * (r - 1) < n * bitsPerKey
    {
      var bits := n * bitsPerKey;
      ((if bits < 64 then 64 else bits) + 7) / 8
    }

    /**
     * Appends a filter: exactly the bits that some probe of some key hits are set, and the number of
     * probes is remembered.
     */
    method CreateFilter(keys: seq<seq<Byte>>, dst: seq<Byte>) returns (r: seq<Byte>)
      requires k <= 30
      ensures |r| == |dst| + FilterBytes(|keys|) + 1 && r[..|dst|] == dst
      ensures IsFilterOf(hash, k, keys, r[|dst|..])
    {
      hide HasBit, SetBit;
      var size := FilterBytes(|keys|);
      var filter := seq(size, _ => 0);
      NoBits(filter);
      var i := 0;
      while i < |keys|
        invariant i <= |keys| && |filter| == size
        invariant forall p | 0 <= p < 8 * size ::
          HasBit(filter, p) <==> exists i' :: 0 <= i' < i && Hits(hash(keys[i']), k, 8 * size, p)
      {
        var h := hash(keys[i]);
        var delta: int := Crc32c.RotateLeft15(h);
        var probe: int := h;
        ghost var before := filter;
        var j := 0;
        while j < k
          invariant j <= k && |filter| == size && probe == Probe(h, j)
          invariant forall p | 0 <= p < 8 * size :: HasBit(filter, p) <==> HasBit(before, p) || Hits(h, j, 8 * size, p)
        {
          ghost var earlier := filter;
          var position := probe % (8 * size);
          filter := SetBit(filter, position);
          forall p | 0 <= p < 8 * size
            ensures HasBit(filter, p) <==> HasBit(before, p) || Hits(h, j + 1, 8 * size, p)
          {
            SetBitSets(earlier, position, p);
            OneMoreProbe(h, j, 8 * size, p);
          }
          probe := (probe + delta) % 0x1_0000_0000;
          j := j + 1;
        }
        i := i + 1;
      }
      r := dst + filter + [k];
      assert r[|dst|..] == filter + [k] && (filter + [k])[..size] == filter;
    }

    /** KeyMayMatch, for any bytes whatever. */
    method KeyMayMatch(key: seq<Byte>, filter: seq<Byte>) returns (r: bool)
      ensures r == MayMatch(hash, key, filter)
    {
      var len := |filter|;
      if len < 2 {
        return false;
      }
      var bytes, probes := filter[..len - 1], filter[len - 1];
      if probes > 30 {
        return true;
      }
      hide HasBit, Crc32c.RotateLeft15, ProbesSet, Position, Probe;
      var h := hash(key);
      var delta: int := Crc32c.RotateLeft15(h);
      var probe: int, j := h, 0;
      NoProbe(bytes, h);
      while j < probes
        invariant 0 <= j <= probes && probe == Probe(h, j) && ProbesSet(bytes, h, j)
      {
        NextProbe(bytes, h, j, probes);
        if !HasBit(bytes, Position(probe, |bytes|)) {
          return false;
        }
        probe := (probe + delta) % 0x1_0000_0000;
        j := j + 1;
      }
      return true;
    }
  }

  lemma {:induction false} NoProbe(bytes: seq<Byte>, h: Word)
    requires bytes != []
    ensures ProbesSet(bytes, h, 0) && Probe(h, 0) == h
  {
  }

  lemma {:induction false} NextProbe(bytes: seq<Byte>, h: Word, j: nat, k: nat)
    requires bytes != [] && j < k
    ensures ProbesSet(bytes, h, j + 1) <==> ProbesSet(bytes, h, j) && HasBit(bytes, Position(Probe(h, j), |bytes|))
    ensures ProbesSet(bytes, h, k) ==> ProbesSet(bytes, h, j + 1)
    ensures Probe(h, j + 1) == (Probe(h, j) + Crc32c.RotateLeft15(h)) % 0x1_0000_0000
  {
    hide HasBit, Position;
  }

  lemma {:induction false} NoBits(bytes: seq<Byte>)
    requires forall i | 0 <= i < |bytes| :: bytes[i] == 0
    ensures forall p | 0 <= p < 8 * |bytes| :: !HasBit(bytes, p)
  {
    forall p | 0 <= p < 8 * |bytes| ensures !HasBit(bytes, p) {
      ZeroHasNoBit(p % 8);
    }
  }

  lemma {:induction false} ZeroHasNoBit(b: nat)
    ensures !TestBit(0, b)
  {
    if b > 0 {
      ZeroHasNoBit(b - 1);
    }
  }

  lemma {:induction false} OneMoreProbe(h: Word, j: nat, bits: nat, p: nat)
    requires bits > 0
    ensures Hits(h, j + 1, bits, p) <==> Hits(h, j, bits, p) || Probe(h, j) % bits == p
  {
    if Hits(h, j + 1, bits, p) {
      var i :| 0 <= i < j + 1 && Probe(h, i) % bits == p;
      assert i == j || Hits(h, j, bits, p);
    }
    if Hits(h, j, bits, p) {
      var i :| 0 <= i < j && Probe(h, i) % bits == p;
      assert i < j + 1;
    }
  }

  /** What a filter for some keys looks like. */
  ghost predicate IsFilterOf(hash: HashFunction, k: nat, keys: seq<seq<Byte>>, filter: seq<Byte>) {
    && |filter| >= 2 && filter[|filter| - 1] == k
    && var bytes := filter[..|filter| - 1];
       forall p | 0 <= p < 8 * |bytes| ::
         HasBit(bytes, p) <==> exists i :: 0 <= i < |keys| && Hits(hash(keys[i]), k, 8 * |bytes|, p)
  }

  /** A filter never hides a key it was made for. */
  lemma {:induction false} FilterNeverHides(hash: HashFunction, k: nat, keys: seq<seq<Byte>>, filter: seq<Byte>, i: nat)
    requires IsFilterOf(hash, k, keys, filter) && i < |keys|
    ensures MayMatch(hash, keys[i], filter)
  {
    var bytes := filter[..|filter| - 1];
    forall j | 0 <= j < k ensures HasBit(bytes, Position(Probe(hash(keys[i]), j), |bytes|)) {
      var p := Position(Probe(hash(keys[i]), j), |bytes|);
      assert Hits(hash(keys[i]), k, 8 * |bytes|, p);
    }
  }

  function Steps(h: nat, j: nat, delta: nat): nat {
    h + j * delta
  }

  function LowWord(n: nat): Word {
    n % 0x1_0000_0000
  }

  lemma {:induction false} OneMoreStep(h: nat, j: nat, delta: nat)
    requires j > 0
    ensures Steps(h, j, delta) == Steps(h, j - 1, delta) + delta && Steps(h, 0, delta) == h
    ensures (LowWord(Steps(h, j - 1, delta)) as int + delta) % 0x1_0000_0000 == LowWord(Steps(h, j - 1, delta) + delta)
  {
  }

  lemma {:induction false} ProbeSteps(h: Word, j: nat, delta: nat)
    requires delta == Crc32c.RotateLeft15(h)
    ensures Probe(h, j) == LowWord(Steps(h, j, delta))
  {
    hide Crc32c.RotateLeft15;
    if j > 0 {
      hide LowWord, Steps;
      ProbeSteps(h, j - 1, delta);
      OneMoreStep(h, j, delta);
    }
  }

  /** The probes of a key are equally spaced, by the hash rotated by 17 bits. */
  lemma {:induction false} ProbesAreSpaced(h: Word, j: nat)
    ensures Probe(h, j) == (h + j * (h / 0x2_0000 + h % 0x2_0000 * 0x8000)) % 0x1_0000_0000
  {
    hide Probe;
    ProbeSteps(h, j, h / 0x2_0000 + h % 0x2_0000 * 0x8000);
  }

  /** Some probe of some key falls on bit p. */
  ghost predicate FallsOn(hash: HashFunction, k: nat, keys: seq<seq<Byte>>, bits: nat, p: nat)
    requires bits > 0
  {
    exists i, j :: 0 <= i < |keys| && 0 <= j < k && Probe(hash(keys[i]), j) % bits == p
  }

  lemma {:induction false} FallsWhereHit(hash: HashFunction, k: nat, keys: seq<seq<Byte>>, bits: nat, p: nat)
    requires bits > 0
    ensures FallsOn(hash, k, keys, bits, p) <==> exists i :: 0 <= i < |keys| && Hits(hash(keys[i]), k, bits, p)
  {
    hide Probe;
    if FallsOn(hash, k, keys, bits, p) {
      var i, j :| 0 <= i < |keys| && 0 <= j < k && Probe(hash(keys[i]), j) % bits == p;
      assert Hits(hash(keys[i]), k, bits, p);
    }
    if exists i :: 0 <= i < |keys| && Hits(hash(keys[i]), k, bits, p) {
      var i :| 0 <= i < |keys| && Hits(hash(keys[i]), k, bits, p);
      var j :| 0 <= j < k && Probe(hash(keys[i]), j) % bits == p;
    }
  }

  /** Every probe of a key falls on a probe of some of these keys. */
  ghost predicate AllFall(hash: HashFunction, k: nat, keys: seq<seq<Byte>>, bits: nat, key: seq<Byte>)
    requires bits > 0
  {
    forall j | 0 <= j < k :: FallsOn(hash, k, keys, bits, Probe(hash(key), j) % bits)
  }

  lemma {:induction false} FoundIffFalls(hash: HashFunction, k: nat, keys: seq<seq<Byte>>, filter: seq<Byte>, probe: Word)
    requires IsFilterOf(hash, k, keys, filter)
    ensures HasBit(filter[..|filter| - 1], Position(probe, |filter| - 1))
       <==> FallsOn(hash, k, keys, 8 * (|filter| - 1), probe % (8 * (|filter| - 1)))
  {
    hide HasBit, Probe, FallsOn, Hits;
    FallsWhereHit(hash, k, keys, 8 * (|filter| - 1), probe % (8 * (|filter| - 1)));
  }

  /** A filter matches exactly the keys each of whose probes falls on a probe of some key it was made for. */
  lemma {:induction false} MatchesExactly(hash: HashFunction, k: nat, keys: seq<seq<Byte>>, filter: seq<Byte>, key: seq<Byte>)
    requires IsFilterOf(hash, k, keys, filter) && k <= 30
    ensures MayMatch(hash, key, filter) <==> AllFall(hash, k, keys, 8 * (|filter| - 1), key)
  {
    hide HasBit, Probe, FallsOn, Hits, Position, IsFilterOf;
    assert |filter| >= 2 && filter[|filter| - 1] == k by { FilterShape(hash, k, keys, filter); }
    var bytes := filter[..|filter| - 1];
    var h := hash(key);
    if MayMatch(hash, key, filter) {
      forall j | 0 <= j < k ensures FallsOn(hash, k, keys, 8 * (|filter| - 1), Probe(h, j) % (8 * (|filter| - 1))) {
        assert HasBit(bytes, Position(Probe(h, j), |bytes|));
        FoundIffFalls(hash, k, keys, filter, Probe(h, j));
      }
    }
    if AllFall(hash, k, keys, 8 * (|filter| - 1), key) {
      forall j | 0 <= j < k ensures HasBit(bytes, Position(Probe(h, j), |bytes|)) {
        FoundIffFalls(hash, k, keys, filter, Probe(h, j));
      }
      assert ProbesSet(bytes, h, k);
    }
  }

  lemma {:induction false} FilterShape(hash: HashFunction, k: nat, keys: seq<seq<Byte>>, filter: seq<Byte>)
    requires IsFilterOf(hash, k, keys, filter)
    ensures |filter| >= 2 && filter[|filter| - 1] == k
  {
  }

  /** Too short to be a filter: nothing matches.  More probes than a filter may have: everything does. */
  lemma {:induction false} OtherEncodings(hash: HashFunction, key: seq<Byte>, filter: seq<Byte>)
    ensures |filter| < 2 ==> !MayMatch(hash, key, filter)
    ensures |filter| >= 2 && filter[|filter| - 1] > 30 ==> MayMatch(hash, key, filter)
  {
  }
}
