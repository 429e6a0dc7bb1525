/**
  The two-level iterator: an index of blocks behind one cursor over all their entries.  It walks the
  blocks of a table under the index of the table, and the files of a level under the list of the files.
 */
module TwoLevelIters {
  import opened Basics
  import opened InternalKeys
  import opened LsmTree
  import opened Reads
  import opened MergingIter
  import opened Separators
  import opened Tables
  import Bloom

  /** An index key and the handle that its block is fetched by. */
  datatype IndexItem<H> = IndexItem(key: InternalKey, handle: H)

  /** A cursor on a block and the handle it was fetched by; its length when it is at no entry. */
  datatype BlockCursor<H> = BlockCursor(handle: H, entries: seq<Entry>, pos: nat) {
    predicate AtEntry() {
      pos < |entries|
    }
  }

  /** The blocks in the order of the index. */
  ghost function Fetched<H>(index: seq<IndexItem<H>>, store: map<H, seq<Entry>>): (r: seq<seq<Entry>>)
    requires forall i :: 0 <= i < |index| ==> index[i].handle in store
    ensures |r| == |index| && forall i :: 0 <= i < |index| ==> r[i] == store[index[i].handle]
  {
    seq(|index|, (i: int) requires 0 <= i < |index| => store[index[i].handle])
  }

  /** Index keys are in order; no key of a block is after its index key, and later blocks come after it. */
  ghost predicate Indexed<H>(index: seq<IndexItem<H>>, store: map<H, seq<Entry>>) {
    && (forall i :: 0 <= i < |index| ==> index[i].handle in store)
    && (forall i, e :: 0 <= i < |index| && e in store[index[i].handle] ==> !Before(index[i].key, e.key))
    && forall i, j, e :: 0 <= i < j < |index| && e in store[index[j].handle] ==> Before(index[i].key, e.key)
  }

  /** Where block `i` starts among all entries. */
  ghost function Start(blocks: seq<seq<Entry>>, i: nat): (r: nat)
    requires i <= |blocks|
  {
    |Flat(blocks[..i])|
  }

  lemma {:induction false} FlatAt(blocks: seq<seq<Entry>>, i: nat)
    requires i < |blocks|
    ensures Start(blocks, i + 1) == Start(blocks, i) + |blocks[i]| <= |Flat(blocks)|
    ensures Flat(blocks)[Start(blocks, i)..Start(blocks, i + 1)] == blocks[i]
  {
    var n := |blocks| - 1;
    assert blocks[..i + 1][..i] == blocks[..i];
    if i < n {
      FlatAt(blocks[..n], i);
      assert blocks[..n][..i] == blocks[..i] && blocks[..n][..i + 1] == blocks[..i + 1];
      assert Flat(blocks)[..|Flat(blocks[..n])|] == Flat(blocks[..n]);
    } else {
      assert blocks[..i + 1] == blocks;
    }
  }

  lemma StartEnds(blocks: seq<seq<Entry>>)
    ensures Start(blocks, 0) == 0 && Start(blocks, |blocks|) == |Flat(blocks)|
  {
    assert blocks[..|blocks|] == blocks;
  }

  /** Entries come from blocks. */
  lemma {:induction false} BlockOfPosition(blocks: seq<seq<Entry>>, p: nat) returns (i: nat)
    requires p < |Flat(blocks)|
    ensures i < |blocks| && Start(blocks, i) <= p < Start(blocks, i) + |blocks[i]| == Start(blocks, i + 1)
    ensures Flat(blocks)[p] == blocks[i][p - Start(blocks, i)]
  {
    var n := |blocks| - 1;
    if p < |Flat(blocks[..n])| {
      i := BlockOfPosition(blocks[..n], p);
      assert blocks[..n][..i] == blocks[..i] && blocks[..n][..i + 1] == blocks[..i + 1];
    } else {
      i := n;
      assert blocks[..i + 1] == blocks;
    }
    FlatAt(blocks, i);
  }

  lemma {:induction false} StartMonotone(blocks: seq<seq<Entry>>, i: nat, j: nat)
    requires i <= j <= |blocks|
    ensures Start(blocks, i) <= Start(blocks, j)
  {
    if i < j {
      StartMonotone(blocks, i, j - 1);
      FlatAt(blocks, j - 1);
    }
  }

  /** Position of the first index key not before `target`. */
  function ItemSeek<H>(items: seq<IndexItem<H>>, target: InternalKey): (i: nat)
    ensures i <= |items|
    ensures forall j :: 0 <= j < i ==> Before(items[j].key, target)
    ensures i < |items| ==> !Before(items[i].key, target)
  {
    if items == [] || !Before(items[0].key, target) then 0 else 1 + ItemSeek(items[1..], target)
  }

  /** The first entry of all not before `target` is the first such entry of the block that the index leads to. */
  lemma SeekInBlocks<H>(items: seq<IndexItem<H>>, store: map<H, seq<Entry>>, target: InternalKey)
    requires Indexed(items, store) && SortedEntries(Flat(Fetched(items, store)))
    ensures var blocks, i := Fetched(items, store), ItemSeek(items, target);
      SeekIndex(Flat(blocks), target) == Start(blocks, i) + if i < |items| then SeekIndex(blocks[i], target) else 0
  {
    hide Start, Flat, SeekIndex, ItemSeek, Before, SortedEntries;
    var blocks, i := Fetched(items, store), ItemSeek(items, target);
    var all, p := Flat(blocks), if i < |items| then SeekIndex(blocks[i], target) else 0;
    StartEnds(blocks);
    var t := Start(blocks, i) + p;
    if i < |items| {
      FlatAt(blocks, i);
    }
    forall q | 0 <= q < |all| ensures q < t <==> Before(all[q].key, target) {
      var j := BlockOfPosition(blocks, q);
      if j == i {
        SortedBlock(blocks, i);
        SeekSplits(blocks[i], target, q - Start(blocks, i));
      } else {
        OtherBlocks(items, store, target, j, all[q]);
        StartMonotone(blocks, if j < i then j + 1 else i + 1, if j < i then i else j);
      }
    }
    SeekIsCut(all, target, t);
  }

  lemma SeekIsCut(es: seq<Entry>, target: InternalKey, t: nat)
    requires t <= |es| && forall q :: 0 <= q < |es| ==> (q < t <==> Before(es[q].key, target))
    ensures SeekIndex(es, target) == t
  {
    var k := SeekIndex(es, target);
    assert k < |es| ==> (k < t <==> Before(es[k].key, target));
    assert t < |es| ==> !Before(es[t].key, target);
  }

  lemma OtherBlocks<H>(items: seq<IndexItem<H>>, store: map<H, seq<Entry>>, target: InternalKey, j: nat, e: Entry)
    requires Indexed(items, store) && j < |items| && e in store[items[j].handle] && j != ItemSeek(items, target)
    ensures Before(e.key, target) <==> j < ItemSeek(items, target)
  {
    var i := ItemSeek(items, target);
    if j < i {
      assert !Before(items[j].key, e.key) && Before(items[j].key, target);
    } else {
      assert Before(items[i].key, e.key) && !Before(items[i].key, target);
    }
  }

  lemma SortedBlock(blocks: seq<seq<Entry>>, i: nat)
    requires i < |blocks| && SortedEntries(Flat(blocks))
    ensures SortedEntries(blocks[i])
  {
    hide Flat, SortedEntries, Start;
    FlatAt(blocks, i);
    SortedSlice(Flat(blocks), Start(blocks, i), Start(blocks, i + 1));
  }

  lemma SortedSlice(es: seq<Entry>, a: nat, b: nat)
    requires SortedEntries(es) && a <= b <= |es|
    ensures SortedEntries(es[a..b])
  {
  }

  class TwoLevelIterator<H(==)> {
    // The index, and a cursor on it; its length when it is at no index entry.
    const items: seq<IndexItem<H>>
    var index: nat

    // The blocks by their handles, and a cursor on the block in hand.
    const store: map<H, seq<Entry>>
    var data: Option<BlockCursor<H>>

    /** Position among all entries; outside exactly when there is no block in hand. */
    ghost var at: int

    ghost function Blocks(): (r: seq<seq<Entry>>)
      requires Indexed(items, store)
    {
      Fetched(items, store)
    }

    ghost function All(): (r: seq<Entry>)
      requires Indexed(items, store)
    {
      Flat(Blocks())
    }

    /** The block in hand is the one of its handle. */
    ghost predicate Shape()
      reads this
    {
      && Indexed(items, store) && SortedEntries(All()) && index <= |items|
      && (data.Some? ==> data.value.handle in store && data.value.entries == store[data.value.handle])
    }

    /** The block in hand is the one the index is at. */
    ghost predicate InHand()
      reads this
      requires Indexed(items, store)
    {
      data.Some? && index < |items| && data.value.handle == items[index].handle && data.value.entries == Blocks()[index]
    }

    ghost predicate Valid()
      reads this
    {
      && Shape() && -1 <= at <= |All()| && (data.None? <==> at == -1 || at == |All()|)
      && (data.Some? ==> InHand() && data.value.AtEntry() && at == Start(Blocks(), index) + data.value.pos)
    }

    constructor (items: seq<IndexItem<H>>, store: map<H, seq<Entry>>)
      requires Indexed(items, store) && SortedEntries(Flat(Fetched(items, store)))
      ensures Valid() && this.items == items && this.store == store && data == None
    {
      this.items, this.store, index, data, at := items, store, |items|, None, -1;
    }

    method Current() returns (e: Entry)
      requires Valid() && data.Some?
      ensures 0 <= at < |All()| && e == All()[at]
    {
      hide Indexed, SortedEntries, Flat, Start;
      e := data.value.entries[data.value.pos];
      FlatAt(Blocks(), index);
    }

    /** Fetch the block that the index is at, unless it is in hand already. */
    method InitDataBlock()
      requires Shape()
      modifies this`data
      ensures Shape() && if index < |items| then InHand() else data == None
    {
      if index == |items| {
        data := None;
      } else {
        var handle := items[index].handle;
        if data.None? || data.value.handle != handle {
          data := Some(BlockCursor(handle, store[handle], 0));
        }
      }
    }

    /** Go on to the next block that has an entry; `t` is the position the cursor stands for. */
    method SkipEmptyDataBlocksForward(ghost t: int)
      requires Shape()
      requires if index < |items| then InHand() && data.value.pos <= |data.value.entries| else data == None
      requires t == Start(Blocks(), index) + if data.Some? then data.value.pos else 0
      modifies this
      ensures Valid() && at == t
    {
      hide Indexed, SortedEntries, Flat, Start;
      StartEnds(Blocks());
      while data.None? || !data.value.AtEntry()
        invariant Shape()
        invariant if index < |items| then InHand() && data.value.pos <= |data.value.entries| else data == None
        invariant t == Start(Blocks(), index) + if data.Some? then data.value.pos else 0
        decreases |items| - index, data.Some?
      {
        if index == |items| {
          data := None;
          at := t;
          return;
        }
        FlatAt(Blocks(), index);
        index := index + 1;
        InitDataBlock();
        if data.Some? {
          data := Some(data.value.(pos := 0));
        }
      }
      FlatAt(Blocks(), index);
      at := t;
    }

    /** Where a cursor that went backward stands: before its block when it is at no entry. */
    ghost function Behind(): (t: int)
      requires Indexed(items, store) && index <= |items|
      reads this
    {
      if index == |items| then -1
      else Start(Blocks(), index) + if data.Some? && data.value.AtEntry() then data.value.pos else -1
    }

    /** Go back to the last block before that has an entry. */
    method SkipEmptyDataBlocksBackward(ghost t: int)
      requires Shape() && t == Behind()
      requires if index < |items| then InHand() else data == None
      modifies this
      ensures Valid() && at == t
    {
      hide Indexed, SortedEntries, Flat, Start;
      StartEnds(Blocks());
      while data.None? || !data.value.AtEntry()
        invariant Shape() && t == Behind()
        invariant if index < |items| then InHand() else data == None
        decreases if index < |items| then index + 1 else 0, data.Some?
      {
        if index == |items| {
          data := None;
          at := t;
          return;
        }
        if index == 0 {
          index := |items|;
        } else {
          index := index - 1;
          FlatAt(Blocks(), index);
        }
        InitDataBlock();
        if data.Some? {
          var n := |data.value.entries|;
          data := Some(data.value.(pos := if n > 0 then n - 1 else 0));
        }
      }
      FlatAt(Blocks(), index);
      at := t;
    }

    /** Go to the first entry not before `target`. */
    method Seek(target: InternalKey)
      requires Valid()
      modifies this
      ensures Valid() && at == SeekIndex(All(), target)
    {
      index := ItemSeek(items, target);
      InitDataBlock();
      if data.Some? {
        data := Some(data.value.(pos := SeekIndex(data.value.entries, target)));
      }
      SeekInBlocks(items, store, target);
      SkipEmptyDataBlocksForward(SeekIndex(All(), target));
    }

    method SeekToFirst()
      requires Valid()
      modifies this
      ensures Valid() && at == 0
    {
      index := 0;
      InitDataBlock();
      if data.Some? {
        data := Some(data.value.(pos := 0));
      }
      StartEnds(Blocks());
      SkipEmptyDataBlocksForward(0);
    }

    method SeekToLast()
      requires Valid()
      modifies this
      ensures Valid() && at == |All()| - 1
    {
      StartEnds(Blocks());
      index := if |items| > 0 then |items| - 1 else 0;
      InitDataBlock();
      if data.Some? {
        var n := |data.value.entries|;
        data := Some(data.value.(pos := if n > 0 then n - 1 else 0));
        FlatAt(Blocks(), index);
      }
      SkipEmptyDataBlocksBackward(|All()| - 1);
    }

    method Next()
      requires Valid() && data.Some?
      modifies this
      ensures Valid() && at == old(at) + 1
    {
      data := Some(data.value.(pos := data.value.pos + 1));
      SkipEmptyDataBlocksForward(at + 1);
    }

    method Prev()
      requires Valid() && data.Some?
      modifies this
      ensures Valid() && at == old(at) - 1
    {
      var pos := data.value.pos;
      data := Some(data.value.(pos := if pos == 0 then |data.value.entries| else pos - 1));
      SkipEmptyDataBlocksBackward(at - 1);
    }
  }

  // ----- a table -----

  function TableItems(index: seq<IndexEntry>): (r: seq<IndexItem<nat>>)
    ensures |r| == |index| && forall i :: 0 <= i < |r| ==> r[i] == IndexItem(Ranked(index[i].key), index[i].offset)
  {
    seq(|index|, (i: int) requires 0 <= i < |index| => IndexItem(Ranked(index[i].key), index[i].offset))
  }

  function TableStore(file: map<nat, seq<StoredEntry>>): (r: map<nat, seq<Entry>>) {
    map offset | offset in file :: Placed(file[offset])
  }

  lemma TableIndexed(t: Table, hash: Bloom.Hash, blocks: seq<seq<StoredEntry>>)
    requires Represents(t, hash, blocks)
    ensures Indexed(TableItems(t.index), TableStore(t.file))
    ensures Fetched(TableItems(t.index), TableStore(t.file)) == PlacedBlocks(blocks)
  {
    var items, store := TableItems(t.index), TableStore(t.file);
    hide Before, Ranked, Place;
    forall i, e: Entry | 0 <= i < |items| && e in store[items[i].handle] ensures !Before(items[i].key, e.key) {
      var d := PlacedFrom(blocks[i], e);
      assert InBlock(blocks, i, d);
      NotAfterIndex(blocks, t.index, i, d);
      KeyOfPlace(d);
    }
    forall i, j, e: Entry | 0 <= i < j < |items| && e in store[items[j].handle] ensures Before(items[i].key, e.key) {
      var d := PlacedFrom(blocks[j], e);
      BeforeLater(blocks, t.index, i, j, d);
      KeyOfPlace(d);
    }
  }

  lemma KeyOfPlace(d: StoredEntry)
    ensures Place(d).key == Ranked(d.key)
  {
  }

  lemma PlacedFrom(es: seq<StoredEntry>, e: Entry) returns (d: StoredEntry)
    requires e in Placed(es)
    ensures d in es && e == Place(d)
  {
    var p :| 0 <= p < |es| && Placed(es)[p] == e;
    d := es[p];
  }

  lemma BeforeLater(blocks: seq<seq<StoredEntry>>, index: seq<IndexEntry>, i: nat, j: nat, d: StoredEntry)
    requires Increasing(blocks) && |index| == |blocks| && i < j < |blocks| && IndexOk(blocks, index, i)
    requires d in blocks[j]
    ensures Before(Ranked(index[i].key), Ranked(d.key))
  {
    hide SortedEntries;
    var first := blocks[i + 1][0];
    assert first in blocks[i + 1];
    if j > i + 1 {
      assert Less(first.key, d.key);
    } else {
      FirstInBlock(blocks[j], d);
    }
  }

  lemma FirstInBlock(b: seq<StoredEntry>, d: StoredEntry)
    requires SortedEntries(Placed(b)) && d in b
    ensures d.key == b[0].key || Less(b[0].key, d.key)
  {
    var p :| 0 <= p < |b| && b[p] == d;
    assert p > 0 ==> Before(Placed(b)[0].key, Placed(b)[p].key);
  }

  ghost function PlacedBlocks(blocks: seq<seq<StoredEntry>>): (r: seq<seq<Entry>>)
    ensures |r| == |blocks| && forall i :: 0 <= i < |blocks| ==> r[i] == Placed(blocks[i])
  {
    seq(|blocks|, (i: int) requires 0 <= i < |blocks| => Placed(blocks[i]))
  }

  lemma {:induction false} FlatPlaced(blocks: seq<seq<StoredEntry>>)
    ensures Flat(PlacedBlocks(blocks)) == Placed(Flat(blocks))
  {
    if blocks != [] {
      var n := |blocks| - 1;
      FlatPlaced(blocks[..n]);
      assert PlacedBlocks(blocks)[..n] == PlacedBlocks(blocks[..n]);
    }
  }

  /** The iterator of a table runs over the entries the table was built from. */
  method NewTableIterator(t: Table, ghost hash: Bloom.Hash, ghost blocks: seq<seq<StoredEntry>>)
    returns (iter: TwoLevelIterator<nat>)
    requires Represents(t, hash, blocks)
    ensures fresh(iter) && iter.Valid() && iter.All() == Placed(Flat(blocks))
  {
    hide Indexed, Flat, Represents, SortedEntries;
    TableIndexed(t, hash, blocks);
    FlatPlaced(blocks);
    AllSorted(t, hash, blocks);
    iter := new TwoLevelIterator(TableItems(t.index), TableStore(t.file));
  }

  lemma AllSorted(t: Table, hash: Bloom.Hash, blocks: seq<seq<StoredEntry>>)
    requires Represents(t, hash, blocks)
    ensures SortedEntries(Placed(Flat(blocks)))
  {
    FlatSorted(blocks);
  }
}
