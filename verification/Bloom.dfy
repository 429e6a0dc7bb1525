/** Bloom filters: several bits per key, set when the filter is made and all required to be set in a match. */
module Bloom {
  import opened Basics
  import opened Coding

  type Key = seq<Byte>
  type Hash = Key -> Word

  // ----- bits of a number -----

  predicate Bit(x: nat, b: nat)
    decreases b
  {
    if b == 0 then x % 2 == 1 else Bit(x / 2, b - 1)
  }

  /** `x | 1 << b`, for an `x` of `n` bits. */
  function WithBit(x: nat, b: nat, n: nat): (r: nat)
    requires b < n && x < Pow2(n)
    ensures r < Pow2(n)
    decreases b
  {
    if b == 0 then x - x % 2 + 1 else 2 * WithBit(x / 2, b - 1, n - 1) + x % 2
  }

  lemma {:induction false} WithBitSets(x: nat, b: nat, n: nat, c: nat)
    requires b < n && x < Pow2(n)
    ensures Bit(WithBit(x, b, n), c) <==> c == b || Bit(x, c)
    decreases b
  {
    if b > 0 && c > 0 {
      WithBitSets(x / 2, b - 1, n - 1, c - 1);
      assert WithBit(x, b, n) / 2 == WithBit(x / 2, b - 1, n - 1);
    }
  }

  // ----- the bits of a filter -----

  predicate IsSet(bytes: seq<Byte>, pos: nat)
    requires pos < 8 * |bytes|
  {
    Bit(bytes[pos / 8], pos % 8)
  }

  /** `bytes[pos / 8] |= 1 << pos % 8`. */
  function SetBit(bytes: seq<Byte>, pos: nat): (r: seq<Byte>)
    requires pos < 8 * |bytes|
    ensures |r| == |bytes|
  {
    assert Pow2(8) == 256;
    bytes[pos / 8 := WithBit(bytes[pos / 8], pos % 8, 8)]
  }

  lemma SetBitSets(bytes: seq<Byte>, pos: nat, q: nat)
    requires pos < 8 * |bytes| && q < 8 * |bytes|
    ensures IsSet(SetBit(bytes, pos), q) <==> q == pos || IsSet(bytes, q)
  {
    assert Pow2(8) == 256;
    if q / 8 == pos / 8 {
      WithBitSets(bytes[pos / 8], pos % 8, 8, q % 8);
    }
  }

  /** The distance between probes: the hash value rotated right by 17 bits. */
  function Delta(h: Word): Word {
    h / 0x2_0000 + h % 0x2_0000 * 0x8000
  }

  predicate AllSet(bytes: seq<Byte>, h: Word, delta: Word, k: nat)
    requires |bytes| > 0
    decreases k
  {
    k == 0 || (IsSet(bytes, h % (8 * |bytes|)) && AllSet(bytes, (h + delta) % TwoTo32, delta, k - 1))
  }

  /** The hash value after `j` probes. */
  function Probe(h: Word, delta: Word, j: nat): (r: Word)
    decreases j
  {
    if j == 0 then h else Probe((h + delta) % TwoTo32, delta, j - 1)
  }

  lemma {:induction false} ProbeNext(h: Word, delta: Word, j: nat)
    ensures Probe(h, delta, j + 1) == (Probe(h, delta, j) + delta) % TwoTo32
    decreases j
  {
    if j > 0 {
      ProbeNext((h + delta) % TwoTo32, delta, j - 1);
    }
  }

  /** One of the first `k` probes for a hash value hits bit `q` of `bits`. */
  ghost predicate Probed(h: Word, k: nat, bits: nat, q: nat) {
    bits > 0 && exists j: nat :: j < k && Probe(h, Delta(h), j) % bits == q
  }

  /** Some key has a probe at bit `q`. */
  ghost predicate SomeProbe(hash: Hash, keys: seq<Key>, k: nat, bits: nat, q: nat) {
    exists n :: 0 <= n < |keys| && Probed(hash(keys[n]), k, bits, q)
  }

  /** Probe `j` hits a bit that is set. */
  predicate Hits(bytes: seq<Byte>, h: Word, delta: Word, j: nat)
    requires |bytes| > 0
  {
    IsSet(bytes, Probe(h, delta, j) % (8 * |bytes|))
  }

  lemma {:induction false} AllSetMeans(bytes: seq<Byte>, h: Word, delta: Word, k: nat)
    requires |bytes| > 0
    ensures AllSet(bytes, h, delta, k) <==> forall j: nat :: j < k ==> Hits(bytes, h, delta, j)
    decreases k
  {
    if k > 0 {
      var next: Word := (h + delta) % TwoTo32;
      AllSetMeans(bytes, next, delta, k - 1);
      FirstHit(bytes, h, delta);
      forall j: nat | j < k - 1 ensures Hits(bytes, next, delta, j) <==> Hits(bytes, h, delta, j + 1) {
      }
      hide Hits, IsSet;
      forall j: nat | j < k && AllSet(bytes, h, delta, k) ensures Hits(bytes, h, delta, j) {
        if j > 0 {
          assert Hits(bytes, next, delta, j - 1);
        }
      }
    }
  }

  lemma FirstHit(bytes: seq<Byte>, h: Word, delta: Word)
    requires |bytes| > 0
    ensures Hits(bytes, h, delta, 0) <==> IsSet(bytes, h % (8 * |bytes|))
  {
  }

  /** Exactly the bits that a probe for some key hits are set. */
  ghost predicate MadeOf(hash: Hash, keys: seq<Key>, k: nat, bytes: seq<Byte>) {
    forall q: nat :: q < 8 * |bytes| ==> (IsSet(bytes, q) <==> SomeProbe(hash, keys, k, 8 * |bytes|, q))
  }

  lemma MadeOfNone(hash: Hash, k: nat, n: nat)
    ensures MadeOf(hash, [], k, Zeros(n))
  {
    forall q: nat | q < 8 * n ensures !IsSet(Zeros(n), q) {
      NoBits(q % 8);
    }
  }

  lemma {:induction false} NoBits(b: nat)
    ensures !Bit(0, b)
  {
    if b > 0 {
      NoBits(b - 1);
    }
  }

  lemma KeyIsCovered(hash: Hash, keys: seq<Key>, k: nat, bytes: seq<Byte>, n: nat)
    requires |bytes| > 0 && MadeOf(hash, keys, k, bytes) && n < |keys|
    ensures AllSet(bytes, hash(keys[n]), Delta(hash(keys[n])), k)
  {
    var h := hash(keys[n]);
    hide AllSet, Probe, IsSet, Delta;
    forall j: nat | j < k ensures Hits(bytes, h, Delta(h), j) {
      assert Probed(h, k, 8 * |bytes|, Probe(h, Delta(h), j) % (8 * |bytes|));
    }
    AllSetMeans(bytes, h, Delta(h), k);
  }

  // ----- making and reading a filter -----

  /** The filter has one byte more than the bits: the number of probes. */
  predicate Matches(hash: Hash, key: Key, filter: seq<Byte>) {
    if |filter| < 2 then false
    else
      var k := filter[|filter| - 1];
      k > 30 || AllSet(filter[..|filter| - 1], hash(key), Delta(hash(key)), k)
  }

  method KeyMayMatch(hash: Hash, key: Key, filter: seq<Byte>) returns (r: bool)
    ensures r == Matches(hash, key, filter)
  {
    if |filter| < 2 {
      return false;
    }
    var bytes := filter[..|filter| - 1];
    var k: int := filter[|filter| - 1];
    if k > 30 {
      return true;
    }
    var h: Word := hash(key);
    var delta := Delta(h);
    for j := 0 to k
      invariant AllSet(bytes, hash(key), delta, k) == AllSet(bytes, h, delta, k - j)
    {
      if !IsSet(bytes, h % (8 * |bytes|)) {
        return false;
      }
      h := (h + delta) % TwoTo32;
    }
    return true;
  }

  /** A filter for some keys: no key is ever missed, and no bit is set that none of them probes. */
  method CreateFilter(hash: Hash, bitsPerKey: nat, k: nat, keys: seq<Key>) returns (filter: seq<Byte>)
    requires 1 <= k <= 30
    ensures forall key :: key in keys ==> Matches(hash, key, filter)
    ensures |filter| == (if |keys| * bitsPerKey < 64 then 64 else |keys| * bitsPerKey + 7) / 8 + 1
    ensures filter[|filter| - 1] == k && MadeOf(hash, keys, k, filter[..|filter| - 1])
  {
    hide MadeOf, AllSet;
    var bits := |keys| * bitsPerKey;
    if bits < 64 {
      bits := 64;
    }
    var size := (bits + 7) / 8;
    var bytes := Zeros(size);
    MadeOfNone(hash, k, size);
    assert keys[..0] == [];
    for i := 0 to |keys|
      invariant |bytes| == size && MadeOf(hash, keys[..i], k, bytes)
    {
      ghost var before := bytes;
      bytes := AddKey(bytes, hash(keys[i]), k);
      OneKeyMore(hash, keys, i, k, before, bytes);
    }
    filter := bytes + [k];
    assert filter[..size] == bytes && keys[..|keys|] == keys;
    forall key | key in keys ensures Matches(hash, key, filter) {
      var n :| 0 <= n < |keys| && keys[n] == key;
      KeyIsCovered(hash, keys, k, bytes, n);
    }
  }

  lemma OneKeyMore(hash: Hash, keys: seq<Key>, i: nat, k: nat, bytes: seq<Byte>, r: seq<Byte>)
    requires i < |keys| && MadeOf(hash, keys[..i], k, bytes) && |r| == |bytes|
    requires forall q: nat :: q < 8 * |r| ==>
      (IsSet(r, q) <==> IsSet(bytes, q) || Probed(hash(keys[i]), k, 8 * |r|, q))
    ensures MadeOf(hash, keys[..i + 1], k, r)
  {
    hide IsSet, Probed, SomeProbe;
    forall q: nat | q < 8 * |r| ensures IsSet(r, q) <==> SomeProbe(hash, keys[..i + 1], k, 8 * |r|, q) {
      MoreProbes(hash, keys, i, k, 8 * |r|, q);
    }
  }

  lemma MoreProbes(hash: Hash, keys: seq<Key>, i: nat, k: nat, bits: nat, q: nat)
    requires i < |keys|
    ensures SomeProbe(hash, keys[..i + 1], k, bits, q) <==>
      SomeProbe(hash, keys[..i], k, bits, q) || Probed(hash(keys[i]), k, bits, q)
  {
    hide Probed;
    assert keys[..i + 1][i] == keys[i];
    assert forall n :: 0 <= n < i ==> keys[..i + 1][n] == keys[..i][n];
  }

  /** Set the bits of one key. */
  method AddKey(bytes: seq<Byte>, hash: Word, k: nat) returns (r: seq<Byte>)
    requires |bytes| > 0
    ensures |r| == |bytes|
    ensures forall q: nat :: q < 8 * |r| ==> (IsSet(r, q) <==> IsSet(bytes, q) || Probed(hash, k, 8 * |r|, q))
  {
    hide IsSet, Probed, Delta;
    var h: Word, delta := hash, Delta(hash);
    r := bytes;
    NoProbes(hash, 8 * |r|);
    for j := 0 to k
      invariant |r| == |bytes| && h == Probe(hash, delta, j)
      invariant forall q: nat :: q < 8 * |r| ==> (IsSet(r, q) <==> IsSet(bytes, q) || Probed(hash, j, 8 * |r|, q))
    {
      var pos := h % (8 * |r|);
      ghost var before := r;
      r := SetBit(r, pos);
      forall q: nat | q < 8 * |r| ensures IsSet(r, q) <==> IsSet(bytes, q) || Probed(hash, j + 1, 8 * |r|, q) {
        SetBitSets(before, pos, q);
        OneProbeMore(hash, j, 8 * |r|, q);
      }
      ProbeNext(hash, delta, j);
      h := (h + delta) % TwoTo32;
    }
  }

  lemma NoProbes(h: Word, bits: nat)
    ensures forall q :: !Probed(h, 0, bits, q)
  {
  }

  lemma OneProbeMore(h: Word, j: nat, bits: nat, q: nat)
    requires bits > 0
    ensures Probed(h, j + 1, bits, q) <==> Probed(h, j, bits, q) || q == Probe(h, Delta(h), j) % bits
  {
    hide Probe, Delta;
  }
}
