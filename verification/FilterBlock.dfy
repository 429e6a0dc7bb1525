/**
  The filter block of a table: one filter for every 2 KB of file offset at which data blocks
  start, and the array of offsets that finds it again.
 */
module FilterBlock {
  import opened Basics
  import opened Coding
  import opened Bloom

  const FilterBaseLg: Byte := 11
  const FilterBase := 2048

  // ----- the contents -----

  /** Where the `i`-th of some filters, one after the other in `data`, begins; the last ends with `data`. */
  function Limit(data: seq<Byte>, offsets: seq<nat>, i: nat): (r: nat)
    requires i <= |offsets|
  {
    if i < |offsets| then offsets[i] else |data|
  }

  predicate FilterOk(data: seq<Byte>, offsets: seq<nat>, i: nat)
    requires i < |offsets|
  {
    Limit(data, offsets, i) <= Limit(data, offsets, i + 1) <= |data|
  }

  predicate OffsetsOk(data: seq<Byte>, offsets: seq<nat>) {
    forall i :: 0 <= i < |offsets| ==> FilterOk(data, offsets, i)
  }

  function FilterOf(data: seq<Byte>, offsets: seq<nat>, i: nat): (r: seq<Byte>)
    requires i < |offsets| && FilterOk(data, offsets, i)
  {
    data[Limit(data, offsets, i)..Limit(data, offsets, i + 1)]
  }

  // ----- keys that wait for their filter -----

  function StartOf(start: seq<nat>, keys: seq<Byte>, i: nat): nat
    requires i <= |start|
  {
    if i < |start| then start[i] else |keys|
  }

  predicate PieceOk(start: seq<nat>, keys: seq<Byte>, pending: seq<Key>, i: nat)
    requires i < |start| == |pending|
  {
    && StartOf(start, keys, i) <= StartOf(start, keys, i + 1) <= |keys|
    && keys[StartOf(start, keys, i)..StartOf(start, keys, i + 1)] == pending[i]
  }

  /** `keys` is the concatenation of the pending keys, and `start` tells where each begins. */
  ghost predicate Flattened(start: seq<nat>, keys: seq<Byte>, pending: seq<Key>) {
    |start| == |pending| && forall i :: 0 <= i < |start| ==> PieceOk(start, keys, pending, i)
  }

  lemma FlattenOneMore(start: seq<nat>, keys: seq<Byte>, pending: seq<Key>, key: Key)
    requires Flattened(start, keys, pending)
    ensures Flattened(start + [|keys|], keys + key, pending + [key])
  {
    var start', keys', pending' := start + [|keys|], keys + key, pending + [key];
    forall i | 0 <= i < |start'| ensures PieceOk(start', keys', pending', i) {
      if i < |start| {
        assert PieceOk(start, keys, pending, i);
        assert StartOf(start', keys', i + 1) == StartOf(start, keys, i + 1);
        var a, b := StartOf(start, keys, i), StartOf(start, keys, i + 1);
        assert keys'[a..b] == keys[a..b];
      } else {
        assert keys'[|keys|..] == key;
      }
    }
  }

  /** A key added for the filter `index` is in it, or waits for it. */
  ghost predicate Covers(hash: Hash, result: seq<Byte>, offsets: seq<nat>, pending: seq<Key>, index: nat, key: Key) {
    if index < |offsets| then FilterOk(result, offsets, index) && Matches(hash, key, FilterOf(result, offsets, index))
    else index == |offsets| && key in pending
  }

  /** Putting the pending keys into the next filter keeps every key covered. */
  lemma NextFilterCovers(hash: Hash, result: seq<Byte>, offsets: seq<nat>, pending: seq<Key>, filter: seq<Byte>,
      index: nat, key: Key)
    requires OffsetsOk(result, offsets) && Covers(hash, result, offsets, pending, index, key)
    requires forall p :: p in pending ==> Matches(hash, p, filter)
    ensures Covers(hash, result + filter, offsets + [|result|], [], index, key)
  {
    hide Matches;
    var result', offsets' := result + filter, offsets + [|result|];
    if index < |offsets| {
      assert Limit(result', offsets', index + 1) == Limit(result, offsets, index + 1);
      assert FilterOf(result', offsets', index) == FilterOf(result, offsets, index);
    } else {
      assert FilterOf(result', offsets', index) == filter;
    }
  }

  lemma NextFilterOffsets(result: seq<Byte>, offsets: seq<nat>, filter: seq<Byte>)
    requires OffsetsOk(result, offsets)
    ensures OffsetsOk(result + filter, offsets + [|result|])
  {
    var result', offsets' := result + filter, offsets + [|result|];
    forall i | 0 <= i < |offsets'| ensures FilterOk(result', offsets', i) {
      if i < |offsets| {
        assert FilterOk(result, offsets, i);
        assert Limit(result', offsets', i + 1) == Limit(result, offsets, i + 1);
      }
    }
  }

  // ----- reading -----

  /** Where the array of offsets is and how long, and the spacing; nothing if the contents make no sense. */
  datatype Reader = Reader(words: nat, num: nat, baseLg: nat)

  function OpenReader(contents: seq<Byte>): (r: Reader)
    ensures r.num > 0 ==> r.words + 4 * r.num + 4 <= |contents|
  {
    var n := |contents|;
    if n < 5 then Reader(0, 0, 0)
    else if WordOf(contents, n - 5) > n - 5 then Reader(0, 0, contents[n - 1])
    else Reader(WordOf(contents, n - 5), (n - 5 - WordOf(contents, n - 5)) / 4, contents[n - 1])
  }

  /** `blockOffset >> baseLg`. */
  function IndexOf(blockOffset: nat, baseLg: nat): nat
    decreases baseLg
  {
    if baseLg == 0 then blockOffset else IndexOf(blockOffset / 2, baseLg - 1)
  }

  lemma IndexByBase(o: nat)
    ensures IndexOf(o, FilterBaseLg) == o / FilterBase
  {
    assert IndexOf(o, 11) == IndexOf(o / 8, 8) by {
      assert o / 2 / 2 == o / 4 && o / 4 / 2 == o / 8;
    }
    assert IndexOf(o / 8, 8) == IndexOf(o / 64, 5) by {
      assert o / 8 / 2 == o / 16 && o / 16 / 2 == o / 32 && o / 32 / 2 == o / 64;
    }
    assert IndexOf(o / 64, 5) == IndexOf(o / 512, 2) by {
      assert o / 64 / 2 == o / 128 && o / 128 / 2 == o / 256 && o / 256 / 2 == o / 512;
    }
    assert o / 512 / 2 == o / 1024 && o / 1024 / 2 == o / 2048;
  }

  /** What the filter for an offset says of a key; anything that is not as it should be counts as a match. */
  predicate MayMatch(hash: Hash, contents: seq<Byte>, blockOffset: nat, key: Key) {
    var reader := OpenReader(contents);
    var index := IndexOf(blockOffset, reader.baseLg);
    if index >= reader.num then true
    else
      var start, limit := WordOf(contents, reader.words + 4 * index), WordOf(contents, reader.words + 4 * index + 4);
      if start <= limit && limit <= reader.words then Matches(hash, key, contents[start..limit])
      else start != limit
  }

  method KeyMayMatch(hash: Hash, contents: seq<Byte>, blockOffset: nat, key: Key) returns (r: bool)
    ensures r == MayMatch(hash, contents, blockOffset, key)
  {
    hide WordOf, Matches, IndexOf;
    var reader := OpenReader(contents);
    var index := IndexOf(blockOffset, reader.baseLg);
    if index < reader.num {
      var start := WordOf(contents, reader.words + 4 * index);
      var limit := WordOf(contents, reader.words + 4 * index + 4);
      if start <= limit && limit <= reader.words {
        r := Bloom.KeyMayMatch(hash, key, contents[start..limit]);
        return;
      } else if start == limit {
        return false;
      }
    }
    return true;
  }

  /** The filters, the offset of each and of the end, and the spacing. */
  function Contents(data: seq<Byte>, offsets: seq<nat>): (r: seq<Byte>) {
    data + Words(offsets + [|data|]) + [FilterBaseLg]
  }

  /** The reader finds in the contents what was put there. */
  lemma WordIn(data: seq<Byte>, offsets: seq<nat>, i: nat)
    requires |data| < TwoTo32 && OffsetsOk(data, offsets) && i <= |offsets|
    ensures WordOf(Contents(data, offsets), |data| + 4 * i) == Limit(data, offsets, i)
  {
    hide DecodeFixed32, EncodeFixed32, Words;
    var ws := offsets + [|data|];
    var o := |data| + 4 * i;
    WordAt(ws, i);
    assert Contents(data, offsets)[o..o + 4] == Words(ws)[4 * i..4 * i + 4];
    assert i < |offsets| ==> FilterOk(data, offsets, i);
    Fixed32RoundTrip(ws[i]);
  }

  lemma NothingMissed(hash: Hash, data: seq<Byte>, offsets: seq<nat>, o: nat, key: Key)
    requires |data| < TwoTo32 && OffsetsOk(data, offsets)
    requires o / FilterBase < |offsets| && Matches(hash, key, FilterOf(data, offsets, o / FilterBase))
    ensures MayMatch(hash, Contents(data, offsets), o, key)
  {
    hide Matches, WordOf, Words;
    var index, contents := o / FilterBase, Contents(data, offsets);
    WordIn(data, offsets, |offsets|);
    WordIn(data, offsets, index);
    WordIn(data, offsets, index + 1);
    IndexByBase(o);
    hide IndexOf;
    assert FilterOk(data, offsets, index);
    var start, limit := Limit(data, offsets, index), Limit(data, offsets, index + 1);
    assert contents[start..limit] == data[start..limit];
  }

  // ----- building -----

  class FilterBlockBuilder {
    const hash: Hash
    const bitsPerKey: nat
    const k: nat
    var keys: seq<Byte>
    var start: seq<nat>
    var result: seq<Byte>
    var filterOffsets: seq<nat>
    ghost var pending: seq<Key>
    ghost var added: set<(nat, Key)>

    ghost predicate Valid()
      reads this
    {
      && 1 <= k <= 30 && Flattened(start, keys, pending) && OffsetsOk(result, filterOffsets)
      && forall a :: a in added ==> Covers(hash, result, filterOffsets, pending, a.0, a.1)
    }

    constructor (hash: Hash, bitsPerKey: nat, k: nat)
      requires 1 <= k <= 30
      ensures Valid() && added == {} && filterOffsets == []
    {
      this.hash, this.bitsPerKey, this.k := hash, bitsPerKey, k;
      keys, start, result, filterOffsets := [], [], [], [];
      pending, added := [], {};
    }

    method AddKey(key: Key)
      requires Valid()
      modifies this
      ensures Valid() && added == old(added) + {(|filterOffsets|, key)}
      ensures filterOffsets == old(filterOffsets)
    {
      hide Flattened, OffsetsOk;
      FlattenOneMore(start, keys, pending, key);
      start := start + [|keys|];
      keys := keys + key;
      pending := pending + [key];
      added := added + {(|filterOffsets|, key)};
    }

    /** Make filters until the next one is the filter for blocks at `blockOffset`. */
    method StartBlock(blockOffset: nat)
      requires Valid() && |filterOffsets| <= blockOffset / FilterBase
      modifies this
      ensures Valid() && added == old(added) && |filterOffsets| == blockOffset / FilterBase
    {
      var index := blockOffset / FilterBase;
      while |filterOffsets| < index
        invariant Valid() && added == old(added) && |filterOffsets| <= index
        decreases index - |filterOffsets|
      {
        GenerateFilter();
      }
    }

    method GenerateFilter()
      requires Valid()
      modifies this
      ensures Valid() && added == old(added) && pending == []
      ensures |filterOffsets| == |old(filterOffsets)| + 1
    {
      hide Matches, OffsetsOk;
      ghost var result0, offsets0, pending0 := result, filterOffsets, pending;
      if |start| == 0 {
        filterOffsets := filterOffsets + [|result|];
        assert result + [] == result;
        NextFilterOffsets(result0, offsets0, []);
        forall a | a in added ensures Covers(hash, result, filterOffsets, pending, a.0, a.1) {
          NextFilterCovers(hash, result0, offsets0, pending0, [], a.0, a.1);
        }
        return;
      }
      var tmp: seq<Key> := [];
      for i := 0 to |start|
        invariant tmp == pending[..i]
      {
        assert PieceOk(start, keys, pending, i);
        tmp := tmp + [keys[StartOf(start, keys, i)..StartOf(start, keys, i + 1)]];
      }
      assert tmp == pending0;
      filterOffsets := filterOffsets + [|result|];
      var filter := CreateFilter(hash, bitsPerKey, k, tmp);
      result := result + filter;
      keys, start, pending := [], [], [];
      NextFilterOffsets(result0, offsets0, filter);
      forall a | a in added ensures Covers(hash, result, filterOffsets, pending, a.0, a.1) {
        NextFilterCovers(hash, result0, offsets0, pending0, filter, a.0, a.1);
      }
    }

    /** Append the array of offsets: no key that was added for a block is ever missed there. */
    method Finish() returns (contents: seq<Byte>)
      requires Valid()
      modifies this
      ensures |contents| < TwoTo32 ==>
        forall a, o: nat :: a in old(added) && o / FilterBase == a.0 ==> MayMatch(hash, contents, o, a.1)
    {
      hide MayMatch, Matches;
      if |start| > 0 {
        GenerateFilter();
      }
      contents := result;
      for i := 0 to |filterOffsets|
        invariant contents == result + Words(filterOffsets[..i])
      {
        assert filterOffsets[..i + 1][..i] == filterOffsets[..i];
        contents := contents + EncodeFixed32(filterOffsets[i] % TwoTo32);
      }
      assert (filterOffsets + [|result|])[..|filterOffsets|] == filterOffsets == filterOffsets[..|filterOffsets|];
      contents := contents + EncodeFixed32(|result| % TwoTo32) + [FilterBaseLg];
      assert contents == Contents(result, filterOffsets);
      if |contents| < TwoTo32 {
        forall a, o: nat | a in old(added) && o / FilterBase == a.0 ensures MayMatch(hash, contents, o, a.1) {
          assert Covers(hash, result, filterOffsets, pending, a.0, a.1);
          NothingMissed(hash, result, filterOffsets, o, a.1);
        }
      }
    }
  }
}
