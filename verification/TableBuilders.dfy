/** Building a table: entries go into data blocks, and a block gets its index key when the next one begins. */
module TableBuilders {
  import opened Basics
  import opened Coding
  import opened InternalKeys
  import opened Separators
  import opened FilterBlock
  import opened Tables
  import opened BlockFormat
  import opened BlockBuilders
  import opened TableFormat
  import opened TableFiles
  import Bloom
  import LogFormat

  /** The blocks so far, the last one perhaps still growing. */
  function Blocks(done: seq<seq<StoredEntry>>, open: seq<StoredEntry>): (r: seq<seq<StoredEntry>>) {
    if open == [] then done else done + [open]
  }

  /** The index keys of the finished blocks, except perhaps the last, separate them from what follows. */
  ghost predicate IndexSoFar(index: seq<IndexEntry>, offsets: seq<nat>, blocks: seq<seq<StoredEntry>>) {
    && |index| <= |offsets| <= |blocks| && (|index| == 0 || |index| < |blocks|)
    && forall i :: 0 <= i < |index| ==> index[i].offset == offsets[i] && SeparatedHere(index, blocks, i)
  }

  ghost predicate SeparatedHere(index: seq<IndexEntry>, blocks: seq<seq<StoredEntry>>, i: int)
    requires 0 <= i < |index|
  {
    && i + 1 < |blocks| && blocks[i] != [] && blocks[i + 1] != []
    && Separates(Ranked(Last(blocks[i])), Ranked(index[i].key), Ranked(First(blocks[i + 1])))
  }

  ghost predicate Written(file: map<nat, seq<StoredEntry>>, offset: nat, done: seq<seq<StoredEntry>>,
      offsets: seq<nat>) {
    && |offsets| == |done|
    && forall i :: 0 <= i < |done| ==> offsets[i] in file && file[offsets[i]] == done[i] && offsets[i] < offset
  }

  /** Every key of a block was added to the filter for the offset of the block. */
  ghost predicate Filtered(added: set<(nat, Bloom.Key)>, done: seq<seq<StoredEntry>>, offsets: seq<nat>,
      open: seq<StoredEntry>, offset: nat)
    requires |offsets| == |done|
  {
    && (forall i, e :: InBlock(done, i, e) ==> (offsets[i] / FilterBase, e.key.user) in added)
    && forall e :: e in open ==> (offset / FilterBase, e.key.user) in added
  }

  /** Blocks cut from a sorted sequence increase. */
  lemma {:induction false} CutIsIncreasing(blocks: seq<seq<StoredEntry>>)
    requires SortedEntries(Placed(Flat(blocks))) && forall i :: 0 <= i < |blocks| ==> blocks[i] != []
    ensures Increasing(blocks)
  {
    if blocks != [] {
      var n := |blocks| - 1;
      var before, last, all := blocks[..n], blocks[n], Flat(blocks);
      SortedParts(Flat(before), last);
      CutIsIncreasing(before);
      hide Before;
      forall i, j, d, e | 0 <= i < j < |blocks| && d in blocks[i] && e in blocks[j] ensures Less(d.key, e.key) {
        if j < n {
          assert d in before[i] && e in before[j];
        } else {
          assert InBlock(before, i, d);
          InFlat(before, d);
        }
      }
      forall i | 0 <= i < |blocks| ensures SortedEntries(Placed(blocks[i])) {
        assert i < n ==> SortedEntries(Placed(before[i]));
      }
    }
  }

  lemma SortedParts(a: seq<StoredEntry>, b: seq<StoredEntry>)
    requires SortedEntries(Placed(a + b))
    ensures SortedEntries(Placed(a)) && SortedEntries(Placed(b))
    ensures forall d, e :: d in a && e in b ==> Less(d.key, e.key)
  {
    hide Before;
    var c := Placed(a + b);
    forall i, j | 0 <= i < j < |a| ensures Before(Placed(a)[i].key, Placed(a)[j].key) {
      assert Before(c[i].key, c[j].key);
    }
    forall i, j | 0 <= i < j < |b| ensures Before(Placed(b)[i].key, Placed(b)[j].key) {
      assert Before(c[|a| + i].key, c[|a| + j].key);
    }
    forall d, e | d in a && e in b ensures Less(d.key, e.key) {
      var i :| 0 <= i < |a| && a[i] == d;
      var j :| 0 <= j < |b| && b[j] == e;
      assert Before(c[i].key, c[|a| + j].key);
    }
  }

  lemma SortedOneMore(all: seq<StoredEntry>, e: StoredEntry)
    requires SortedEntries(Placed(all)) && (all != [] ==> Less(all[|all| - 1].key, e.key))
    ensures SortedEntries(Placed(all + [e]))
  {
    var c, n := Placed(all + [e]), |all|;
    forall i, j | 0 <= i < j <= n ensures Before(c[i].key, c[j].key) {
      if j < n {
        assert Before(Placed(all)[i].key, Placed(all)[j].key);
      } else if i < n - 1 {
        assert Before(Placed(all)[i].key, Placed(all)[n - 1].key);
      }
    }
  }

  lemma LastOfFlat(done: seq<seq<StoredEntry>>)
    requires done != [] && done[|done| - 1] != []
    ensures Flat(done) != [] && Flat(done)[|Flat(done)| - 1].key == Last(done[|done| - 1])
  {
  }

  // ----- what a builder has made so far, as a value -----

  datatype Build = Build(file: map<nat, seq<StoredEntry>>, offset: nat, index: seq<IndexEntry>, open: seq<StoredEntry>,
                         pending: bool, handle: nat, lastKey: StoredKey, done: seq<seq<StoredEntry>>, offsets: seq<nat>)

  ghost function All(b: Build): seq<StoredEntry> {
    Flat(b.done) + b.open
  }

  ghost predicate BlocksOk(b: Build) {
    && SortedEntries(Placed(All(b))) && (forall i :: 0 <= i < |b.done| ==> b.done[i] != [])
    && (All(b) != [] ==> b.lastKey == All(b)[|All(b)| - 1].key)
    && Written(b.file, b.offset, b.done, b.offsets)
  }

  /** A finished block waits for its index key exactly until the next block has its first entry. */
  ghost predicate IndexOkSoFar(b: Build) {
    && IndexSoFar(b.index, b.offsets, Blocks(b.done, b.open))
    && |b.index| == |b.done| - (if b.pending then 1 else 0)
    && (b.pending ==> b.done != [] && b.open == [] && |b.offsets| == |b.done| && b.handle == b.offsets[|b.done| - 1])
  }

  ghost predicate MayFollow(b: Build, e: StoredEntry) {
    All(b) != [] ==> Less(All(b)[|All(b)| - 1].key, e.key)
  }

  function Appended(b: Build, e: StoredEntry): Build {
    b.(open := b.open + [e], lastKey := e.key)
  }

  lemma AppendKeeps(b: Build, e: StoredEntry)
    requires BlocksOk(b) && MayFollow(b, e)
    ensures BlocksOk(Appended(b, e)) && All(Appended(b, e)) == All(b) + [e]
  {
    hide Written;
    SortedOneMore(All(b), e);
    assert All(Appended(b, e)) == All(b) + [e];
  }

  /** With its index key, the last finished block is separated from the entry that comes next. */
  lemma SeparatorKeeps(b: Build, e: StoredEntry, sep: StoredKey)
    requires BlocksOk(b) && IndexOkSoFar(b) && b.pending && Separates(Ranked(b.lastKey), Ranked(sep), Ranked(e.key))
    ensures IndexOkSoFar(Appended(b.(index := b.index + [IndexEntry(sep, b.handle)], pending := false), e))
  {
    hide Written, SortedEntries, Flat;
    LastOfFlat(b.done);
    assert Flat(b.done) + [] == Flat(b.done);
    var b' := Appended(b.(index := b.index + [IndexEntry(sep, b.handle)], pending := false), e);
    var blocks, blocks' := Blocks(b.done, b.open), Blocks(b'.done, b'.open);
    forall i | 0 <= i < |b'.index| ensures b'.index[i].offset == b'.offsets[i] && SeparatedHere(b'.index, blocks', i) {
      assert i < |b.index| ==> SeparatedHere(b.index, blocks, i);
    }
  }

  lemma OpenGrowsKeeps(b: Build, e: StoredEntry)
    requires IndexOkSoFar(b) && !b.pending && |b.offsets| == |b.done|
    ensures IndexOkSoFar(Appended(b, e))
  {
    hide Separates;
    var blocks, blocks' := Blocks(b.done, b.open), Blocks(b.done, b.open + [e]);
    forall i | 0 <= i < |b.index| ensures b.index[i].offset == b.offsets[i] && SeparatedHere(b.index, blocks', i) {
      assert SeparatedHere(b.index, blocks, i);
      assert blocks'[i] == blocks[i] && First(blocks'[i + 1]) == First(blocks[i + 1]);
    }
  }

  function Flushed(b: Build, size: nat): Build {
    b.(file := b.file[b.offset := b.open], offset := b.offset + size, pending := true, handle := b.offset,
       done := b.done + [b.open], offsets := b.offsets + [b.offset], open := [])
  }

  lemma FlushKeeps(b: Build, size: nat)
    requires BlocksOk(b) && IndexOkSoFar(b) && b.open != [] && size > 0
    ensures BlocksOk(Flushed(b, size)) && IndexOkSoFar(Flushed(b, size)) && All(Flushed(b, size)) == All(b)
  {
    hide SortedEntries, SeparatedHere, Written, Flat;
    var b' := Flushed(b, size);
    PendingOrOpen(b);
    AllFlushed(b, size);
    WrittenFlush(b, size);
    assert Blocks(b'.done, b'.open) == Blocks(b.done, b.open);
  }

  lemma AllFlushed(b: Build, size: nat)
    ensures All(Flushed(b, size)) == All(b)
  {
    assert (b.done + [b.open])[..|b.done|] == b.done;
  }

  lemma WrittenFlush(b: Build, size: nat)
    requires Written(b.file, b.offset, b.done, b.offsets) && size > 0
    ensures Written(b.file[b.offset := b.open], b.offset + size, b.done + [b.open], b.offsets + [b.offset])
  {
  }

  lemma PendingOrOpen(b: Build)
    requires BlocksOk(b) && IndexOkSoFar(b) && b.open != []
    ensures !b.pending && |b.index| == |b.done| == |b.offsets|
  {
  }

  lemma FilteredMore(added: set<(nat, Bloom.Key)>, b: Build, e: StoredEntry)
    requires |b.offsets| == |b.done| && Filtered(added, b.done, b.offsets, b.open, b.offset)
    ensures Filtered(added + {(b.offset / FilterBase, e.key.user)}, b.done, b.offsets, b.open + [e], b.offset)
  {
  }

  lemma FilteredFlush(added: set<(nat, Bloom.Key)>, b: Build, size: nat)
    requires |b.offsets| == |b.done| && Filtered(added, b.done, b.offsets, b.open, b.offset)
    ensures Filtered(added, b.done + [b.open], b.offsets + [b.offset], [], b.offset + size)
  {
    forall i, e | InBlock(b.done + [b.open], i, e)
      ensures ((b.offsets + [b.offset])[i] / FilterBase, e.key.user) in added
    {
      assert i < |b.done| ==> InBlock(b.done, i, e);
    }
  }

  // ----- what it has made, as bytes -----

  /** The file so far, the entries of the open data block and of the index block, and the handles of finished blocks. */
  datatype Image = Image(file: seq<Byte>, data: seq<KeyValue>, index: seq<KeyValue>,
                         pendingHandle: Handle, handles: seq<Handle>)

  ghost predicate KeysFit(b: Build) {
    && b.lastKey.sn <= MAX_SEQUENCE_NUMBER && NumbersFit(b.open)
    && (forall i :: 0 <= i < |b.done| ==> NumbersFit(b.done[i]))
    && forall i :: 0 <= i < |b.index| ==> b.index[i].key.sn <= MAX_SEQUENCE_NUMBER
  }

  ghost predicate BlocksStored(step: LogFormat.CrcStep, file: seq<Byte>, handles: seq<Handle>,
      done: seq<seq<StoredEntry>>, offsets: seq<nat>) {
    && |handles| == |done| == |offsets|
    && forall i :: 0 <= i < |done| ==>
      handles[i].offset == offsets[i] && BlockAt(step, file, handles[i], Encoded(done[i]))
  }

  /** The bytes are those of the blocks, the open entries and the index keys. */
  ghost predicate Mirrors(step: LogFormat.CrcStep, im: Image, b: Build) {
    && |im.file| == b.offset && BlocksStored(step, im.file, im.handles, b.done, b.offsets)
    && im.data == Encoded(b.open) && |b.index| <= |im.handles| && im.index == IndexPairs(b.index, im.handles)
    && (b.pending ==> |im.handles| > 0 && im.pendingHandle == im.handles[|im.handles| - 1])
    && KeysFit(b)
  }

  lemma MirrorsAdd(step: LogFormat.CrcStep, im: Image, b: Build, e: StoredEntry)
    requires Mirrors(step, im, b) && e.key.sn <= MAX_SEQUENCE_NUMBER
    ensures Mirrors(step, im.(data := im.data + [EncodedEntry(e)]), Appended(b, e))
  {
    hide BlocksStored, IndexPairs;
    assert Encoded(b.open + [e]) == Encoded(b.open) + [EncodedEntry(e)];
  }

  function Indexed(b: Build, sep: StoredKey): Build {
    b.(index := b.index + [IndexEntry(sep, b.handle)], pending := false)
  }

  lemma MirrorsIndex(step: LogFormat.CrcStep, im: Image, b: Build, sep: StoredKey)
    requires Mirrors(step, im, b) && b.pending && |b.index| == |b.done| - 1 && sep.sn <= MAX_SEQUENCE_NUMBER
    ensures Mirrors(step, im.(index := im.index + [KeyValue(KeyBytes(sep), HandleBytes(im.pendingHandle))]),
        Indexed(b, sep))
  {
    hide BlockAt, Encoded, KeyBytes, HandleBytes;
    var index := b.index + [IndexEntry(sep, b.handle)];
    assert IndexPairs(index, im.handles) ==
      IndexPairs(b.index, im.handles) + [KeyValue(KeyBytes(sep), HandleBytes(im.pendingHandle))];
  }

  /** A block behind the file leaves the others where they are. */
  lemma MirrorsFlush(step: LogFormat.CrcStep, im: Image, b: Build, contents: seq<Byte>)
    requires Mirrors(step, im, b) && HoldsBlock(contents, im.data) && |b.index| == |b.done| && !b.pending
    ensures var h := Handle(|im.file|, |contents|);
      Mirrors(step, Image(im.file + contents + Trailer(step, contents), [], im.index, h, im.handles + [h]),
          Flushed(b, |contents| + TRAILER_SIZE))
  {
    var h, more := Handle(|im.file|, |contents|), contents + Trailer(step, contents);
    StoredAtEnd(step, im.file, contents);
    assert im.file + contents + Trailer(step, contents) == im.file + more;
    hide Trailer, Stored, HoldsBlock, EncodedEntry;
    assert BlockAt(step, im.file + more, h, Encoded(b.open));
    forall i | 0 <= i < |b.done| ensures BlockAt(step, im.file + more, im.handles[i], Encoded(b.done[i])) {
      BlockStays(step, im.file, more, im.handles[i], Encoded(b.done[i]));
    }
    hide BlockAt, Encoded;
    assert IndexPairs(b.index, im.handles + [h]) == IndexPairs(b.index, im.handles);
    assert Encoded([]) == [];
  }

  class TableBuilder {
    const step: LogFormat.CrcStep
    const hash: Bloom.Hash
    const policy: seq<Byte>
    const blockSize: nat
    const filter: FilterBlockBuilder?
    const dataBlock: BlockBuilder
    const indexBlock: BlockBuilder
    var file: seq<Byte>
    var pendingIndexEntry: bool
    var pendingHandle: Handle
    var lastKey: StoredKey
    ghost var b: Build
    ghost var handles: seq<Handle>

    ghost function Now(): Image
      reads this, dataBlock, indexBlock
    {
      Image(file, dataBlock.plan.entries, indexBlock.plan.entries, pendingHandle, handles)
    }

    ghost predicate FilterOkSoFar()
      reads this, filter
    {
      filter != null ==>
        && filter.Valid() && filter.hash == hash && |filter.filterOffsets| == b.offset / FilterBase
        && |b.offsets| == |b.done| && Filtered(filter.added, b.done, b.offsets, b.open, b.offset)
    }

    /** Everything but the index keys and the filter. */
    ghost predicate Core()
      reads this, dataBlock, indexBlock
    {
      && dataBlock != indexBlock && dataBlock.Valid() && indexBlock.Valid()
      && BlocksOk(b) && Mirrors(step, Now(), b) && pendingIndexEntry == b.pending && lastKey == b.lastKey
    }

    ghost predicate Valid()
      reads this, filter, dataBlock, indexBlock
    {
      Core() && IndexOkSoFar(b) && FilterOkSoFar()
    }

    constructor (step: LogFormat.CrcStep, hash: Bloom.Hash, policy: seq<Byte>, blockSize: nat, interval: nat,
        filter: FilterBlockBuilder?)
      requires interval >= 1 && (filter != null ==> filter.Valid() && filter.hash == hash && filter.filterOffsets == [])
      ensures Valid() && All(b) == [] && fresh(dataBlock) && fresh(indexBlock)
      ensures this.step == step && this.hash == hash && this.policy == policy && this.filter == filter
      ensures this.blockSize == blockSize
    {
      hide BlocksOk, IndexOkSoFar, Filtered, All, Mirrors;
      NewBuild(step, if filter == null then {} else filter.added);
      this.step, this.hash, this.policy, this.blockSize, this.filter := step, hash, policy, blockSize, filter;
      dataBlock := new BlockBuilder(interval);
      indexBlock := new BlockBuilder(1);
      file, pendingIndexEntry, pendingHandle, lastKey := [], false, Handle(0, 0), NoKey;
      b, handles := NothingBuilt, [];
    }

    /** Add an entry after all others; a block that has become large enough is written. */
    method Add(e: StoredEntry)
      requires Valid() && MayFollow(b, e) && e.key.sn <= MAX_SEQUENCE_NUMBER
      modifies this, filter, dataBlock, indexBlock
      ensures Valid() && All(b) == old(All(b)) + [e]
      ensures if b.open != [] then
          b.done == old(b.done) && b.open == old(b.open) + [e] && dataBlock.CurrentSizeEstimate() < blockSize
        else
          b.done == old(b.done) + [old(b.open) + [e]] && pendingHandle.size >= blockSize
    {
      hide BlocksOk, IndexOkSoFar, Filtered, All, Mirrors, MayFollow, dataBlock.Valid, indexBlock.Valid;
      SameLengths(b);
      IndexPending(e);
      if filter != null {
        FilteredMore(filter.added, b, e);
        filter.AddKey(e.key.user);
      }
      AppendData(e);
      if dataBlock.CurrentSizeEstimate() >= blockSize {
        Flush();
      }
    }

    /** Before the first entry of a block, the block before it gets its index key. */
    method IndexPending(e: StoredEntry)
      requires Core() && IndexOkSoFar(b)
      modifies this`pendingIndexEntry, this`b, indexBlock
      ensures Core() && IndexOkSoFar(Appended(b, e)) && b == old(b).(index := b.index, pending := b.pending)
      ensures All(b) == old(All(b)) && (old(MayFollow(b, e)) ==> MayFollow(b, e))
    {
      hide BlocksOk, IndexOkSoFar, All, Mirrors, dataBlock.Valid, indexBlock.Valid;
      SameLengths(b);
      if pendingIndexEntry {
        var sep := InternalSeparator(lastKey, e.key);
        SeparatorKeeps(b, e, sep);
        PendingCount(step, Now(), b);
        MirrorsIndex(step, Now(), b, sep);
        IndexAside(b, Indexed(b, sep));
        indexBlock.Add(KeyBytes(sep), HandleBytes(pendingHandle));
        pendingIndexEntry := false;
        b := Indexed(b, sep);
      } else {
        OpenGrowsKeeps(b, e);
      }
    }

    method AppendData(e: StoredEntry)
      requires Core() && IndexOkSoFar(Appended(b, e)) && MayFollow(b, e) && e.key.sn <= MAX_SEQUENCE_NUMBER
      modifies this`lastKey, this`b, dataBlock
      ensures Core() && b == Appended(old(b), e) && All(b) == old(All(b)) + [e]
    {
      hide BlocksOk, IndexOkSoFar, All, Mirrors, dataBlock.Valid, indexBlock.Valid;
      AppendKeeps(b, e);
      MirrorsAdd(step, Now(), b, e);
      lastKey := e.key;
      dataBlock.Add(KeyBytes(e.key), e.value);
      b := Appended(b, e);
    }

    /** Write the open block. */
    method Flush()
      requires Valid()
      modifies this, filter, dataBlock
      ensures Valid() && All(b) == old(All(b)) && b.open == []
      ensures old(b.open) != [] ==>
        b.done == old(b.done) + [old(b.open)] && pendingHandle.size == old(dataBlock.CurrentSizeEstimate())
    {
      hide BlocksOk, IndexOkSoFar, Filtered, All, Mirrors, dataBlock.Valid, indexBlock.Valid, dataBlock.Empty;
      OpenIsData(step, Now(), b);
      if dataBlock.Empty() {
        return;
      }
      SameLengths(b);
      ghost var was := b;
      WriteDataBlock();
      OpenIsData(step, Now(), b);
      if filter != null {
        FilteredFlush(filter.added, was, |file| - was.offset);
        filter.StartBlock(|file|);
      }
    }

    method WriteDataBlock()
      requires Core() && IndexOkSoFar(b) && b.open != []
      modifies this`file, this`pendingHandle, this`pendingIndexEntry, this`b, this`handles, dataBlock
      ensures Core() && IndexOkSoFar(b) && All(b) == old(All(b)) && |file| > |old(file)| == old(b).offset
      ensures b == Flushed(old(b), |file| - |old(file)|)
      ensures pendingHandle.size == old(dataBlock.CurrentSizeEstimate())
    {
      hide BlocksOk, IndexOkSoFar, All, Mirrors, HoldsBlock, dataBlock.Valid, indexBlock.Valid;
      var contents := dataBlock.Finish();
      ghost var size := |contents| + TRAILER_SIZE;
      OpenIsData(step, Now(), b);
      PendingOrOpen(b);
      FlushKeeps(b, size);
      MirrorsFlush(step, Now(), b, contents);
      pendingHandle := WriteRawBlock(contents);
      dataBlock.Reset();
      b, handles := Flushed(b, size), handles + [pendingHandle];
      pendingIndexEntry := true;
    }

    method WriteRawBlock(contents: seq<Byte>) returns (h: Handle)
      modifies this`file
      ensures file == old(file) + contents + Trailer(step, contents) && h == Handle(|old(file)|, |contents|)
    {
      h := Handle(|file|, |contents|);
      file := file + contents;
      file := file + Trailer(step, contents);
    }

    /**
      Write what is left: the file then holds a table in which every entry that was added can be
      looked up, unless a part of it has become too large.
     */
    method Finish() returns (ghost t: Table, ghost at: Places)
      requires Valid()
      modifies this, filter, dataBlock, indexBlock
      ensures Flat(b.done) == old(All(b))
      ensures FileHolds(step, policy, file, t, at) && (Small(file, at) ==> Represents(t, hash, b.done))
    {
      hide BlocksOk, IndexOkSoFar, Filtered, Represents, Mirrors, FileHolds, FilterOkSoFar, dataBlock.Valid,
        indexBlock.Valid, Small;
      Flush();
      assert Flat(b.done) + [] == Flat(b.done);
      t, at := CloseFile();
    }

    method CloseFile() returns (ghost t: Table, ghost at: Places)
      requires Valid() && b.open == []
      modifies this`file, this`pendingIndexEntry, filter, indexBlock
      ensures FileHolds(step, policy, file, t, at) && (Small(file, at) ==> Represents(t, hash, b.done))
    {
      hide BlocksOk, IndexOkSoFar, Filtered, Represents, MayMatch, Mirrors, HoldsBlock, FileHolds, FooterBytes,
        Trailer, MetaPairs;
      hide IsIndexed, IndexPairs, DataHeld;
      ghost var im := Now();
      SameLengths(b);
      ghost var added := if filter == null then {} else filter.added;
      var contents, filterHandle := CloseFilter();
      var meta := MetaBlock(filterHandle);
      var metaHandle := WriteRawBlock(meta);
      ghost var index := CloseIndex(im);
      var indexContents := indexBlock.Finish();
      var indexHandle := WriteRawBlock(indexContents);
      file := file + FooterBytes(metaHandle, indexHandle);
      t := Table(b.file, index, contents);
      at := PlacesOf(step, im.file, handles, contents, meta, indexContents);
      ClosedDataHeld(step, im, b, t);
      ClosedHolds(step, policy, im.file, t, handles, meta, indexContents);
      if Small(file, at) {
        FinishedRepresents(b, index, contents, hash, added);
      }
    }

    /** Write the filter block, if there is a filter. */
    method CloseFilter() returns (contents: Option<seq<Byte>>, h: Option<Handle>)
      requires filter != null ==> filter.Valid() && filter.hash == hash
      modifies this`file, filter
      ensures contents.Some? == (filter != null) && h == FilterAt(old(file), contents)
      ensures file == if contents.Some? then WithBlock(step, old(file), contents.value) else old(file)
      ensures contents.Some? && |contents.value| < TwoTo32 ==>
        forall a, o: nat :: a in old(filter.added) && o / FilterBase == a.0 ==> MayMatch(hash, contents.value, o, a.1)
    {
      hide MayMatch, filter.Valid;
      contents, h := None, None;
      if filter != null {
        var c := filter.Finish();
        var handle := WriteRawBlock(c);
        contents, h := Some(c), Some(handle);
      }
    }

    method MetaBlock(h: Option<Handle>) returns (contents: seq<Byte>)
      requires dataBlock.interval >= 1
      ensures HoldsBlock(contents, MetaPairs(policy, h))
    {
      var block := new BlockBuilder(dataBlock.interval);
      if h.Some? {
        block.Add(FilterKey(policy), HandleBytes(h.value));
      }
      contents := block.Finish();
    }

    /** The last block gets an index key that need not be before anything. */
    method CloseIndex(ghost im: Image) returns (ghost index: seq<IndexEntry>)
      requires Mirrors(step, im, b) && im.index == indexBlock.plan.entries && im.pendingHandle == pendingHandle
      requires im.handles == handles
      requires indexBlock.Valid() && BlocksOk(b) && IndexOkSoFar(b) && pendingIndexEntry == b.pending
      requires lastKey == b.lastKey
      modifies this`pendingIndexEntry, indexBlock
      ensures indexBlock.Valid() && |index| <= |handles| && indexBlock.plan.entries == IndexPairs(index, handles)
      ensures if b.pending then IsIndexed(b, index) else index == b.index
      ensures forall i :: 0 <= i < |index| ==> index[i].key.sn <= MAX_SEQUENCE_NUMBER
    {
      hide BlocksOk, IndexOkSoFar, Mirrors, indexBlock.Valid;
      index := b.index;
      IndexIsMirrored(step, im, b);
      if pendingIndexEntry {
        var succ := InternalSuccessor(lastKey);
        PendingCount(step, im, b);
        MirrorsIndex(step, im, b, succ);
        IndexIsMirrored(step, im.(index := im.index + [KeyValue(KeyBytes(succ), HandleBytes(pendingHandle))]),
            Indexed(b, succ));
        index := index + [IndexEntry(succ, b.handle)];
        assert index[..|b.index|] == b.index;
        indexBlock.Add(KeyBytes(succ), HandleBytes(pendingHandle));
        pendingIndexEntry := false;
      }
    }
  }

  lemma IndexIsMirrored(step: LogFormat.CrcStep, im: Image, b: Build)
    requires Mirrors(step, im, b)
    ensures |b.index| <= |im.handles| && im.index == IndexPairs(b.index, im.handles)
    ensures forall i :: 0 <= i < |b.index| ==> b.index[i].key.sn <= MAX_SEQUENCE_NUMBER
  {
  }

  lemma ClosedDataHeld(step: LogFormat.CrcStep, im: Image, b: Build, t: Table)
    requires Mirrors(step, im, b) && BlocksOk(b) && IndexOkSoFar(b) && b.open == []
    requires t.file == b.file && if b.pending then IsIndexed(b, t.index) else t.index == b.index
    requires forall i :: 0 <= i < |t.index| ==> t.index[i].key.sn <= MAX_SEQUENCE_NUMBER
    ensures |im.handles| == |t.index| && forall i :: 0 <= i < |t.index| ==> DataHeld(step, im.file, t, im.handles, i)
  {
    hide BlockAt, SortedEntries, Flat, Separates, Succeeds, Encoded, IndexPairs;
    forall i | 0 <= i < |t.index| ensures i < |im.handles| && DataHeld(step, im.file, t, im.handles, i) {
      assert t.index[i].offset == b.offsets[i] by {
        assert i < |b.index| ==> t.index[i] == b.index[i];
      }
    }
  }

  lemma PendingCount(step: LogFormat.CrcStep, im: Image, b: Build)
    requires IndexOkSoFar(b) && b.pending && Mirrors(step, im, b)
    ensures |b.index| == |b.done| - 1 && b.lastKey.sn <= MAX_SEQUENCE_NUMBER
  {
  }

  lemma OpenIsData(step: LogFormat.CrcStep, im: Image, b: Build)
    requires Mirrors(step, im, b)
    ensures im.data == [] <==> b.open == []
    ensures |im.file| == b.offset
  {
  }

  const NoKey := StoredKey([], 0, Value)

  const NothingBuilt := Build(map[], 0, [], [], false, 0, NoKey, [], [])

  lemma NewBuild(step: LogFormat.CrcStep, added: set<(nat, Bloom.Key)>)
    ensures BlocksOk(NothingBuilt) && IndexOkSoFar(NothingBuilt) && All(NothingBuilt) == []
    ensures Mirrors(step, Image([], [], [], Handle(0, 0), []), NothingBuilt)
    ensures Filtered(added, [], [], [], 0)
  {
  }

  /** With the last index key in place, the blocks are all there and can be looked up. */
  lemma FinishedRepresents(b: Build, index: seq<IndexEntry>, filter: Option<seq<Byte>>, hash: Bloom.Hash,
      added: set<(nat, Bloom.Key)>)
    requires BlocksOk(b) && IndexOkSoFar(b) && b.open == []
    requires if b.pending then IsIndexed(b, index) else index == b.index
    requires |b.offsets| == |b.done|
    requires filter.Some? ==> Filtered(added, b.done, b.offsets, [], b.offset)
    requires filter.Some? ==>
      forall a, o: nat :: a in added && o / FilterBase == a.0 ==> MayMatch(hash, filter.value, o, a.1)
    ensures Represents(Table(b.file, index, filter), hash, b.done)
  {
    hide MayMatch, SortedEntries, Flat, Filtered, IsIndexed, IndexOkSoFar;
    assert Flat(b.done) + [] == Flat(b.done);
    CutIsIncreasing(b.done);
    IndexFinished(b, index);
    hide Increasing, IndexOk;
    if filter.Some? {
      FilterFinished(b, index, filter.value, hash, added);
    }
  }

  lemma IndexFinished(b: Build, index: seq<IndexEntry>)
    requires BlocksOk(b) && IndexOkSoFar(b) && b.open == [] && Increasing(b.done)
    requires if b.pending then IsIndexed(b, index) else index == b.index
    ensures |index| == |b.done| == |b.offsets|
    ensures forall i :: 0 <= i < |b.done| ==> index[i].offset == b.offsets[i] && IndexOk(b.done, index, i)
  {
    hide SortedEntries, Flat, Separates, Succeeds, Increasing;
    assert Flat(b.done) + [] == Flat(b.done);
    if b.done != [] {
      LastOfFlat(b.done);
    }
    forall i | 0 <= i < |b.index|
      ensures index[i].offset == b.offsets[i] && i + 1 < |b.done| && IndexOk(b.done, index, i)
    {
      assert SeparatedHere(b.index, b.done, i);
      assert index[i] == b.index[i];
    }
  }

  lemma FilterFinished(b: Build, index: seq<IndexEntry>, filter: seq<Byte>, hash: Bloom.Hash,
      added: set<(nat, Bloom.Key)>)
    requires |index| == |b.done| == |b.offsets| && Filtered(added, b.done, b.offsets, [], b.offset)
    requires forall i :: 0 <= i < |b.done| ==> index[i].offset == b.offsets[i]
    requires forall a, o: nat :: a in added && o / FilterBase == a.0 ==> MayMatch(hash, filter, o, a.1)
    ensures forall i, e :: InBlock(b.done, i, e) ==> MayMatch(hash, filter, index[i].offset, e.key.user)
  {
    hide MayMatch;
    forall i, e | InBlock(b.done, i, e) ensures MayMatch(hash, filter, index[i].offset, e.key.user) {
      assert (b.offsets[i] / FilterBase, e.key.user) in added;
    }
  }

  /** The last block has got an index key that does not come before it. */
  ghost predicate IsIndexed(b: Build, index: seq<IndexEntry>) {
    && |index| == |b.index| + 1 && index[..|b.index|] == b.index
    && Succeeds(Ranked(b.lastKey), Ranked(index[|b.index|].key)) && index[|b.index|].offset == b.handle
  }

  lemma SameLengths(b: Build)
    requires BlocksOk(b)
    ensures |b.offsets| == |b.done|
  {
  }

  lemma IndexAside(b: Build, b': Build)
    requires BlocksOk(b) && b' == b.(index := b'.index, pending := b'.pending)
    ensures BlocksOk(b') && All(b') == All(b) && forall e :: MayFollow(b, e) ==> MayFollow(b', e)
  {
  }
}
