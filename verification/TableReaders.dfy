/**
  Reading a table file: the footer leads to the index and, through the metaindex, to the filter; a
  point lookup seeks in the bytes of the index block, asks the filter, and seeks in the bytes of one
  data block.
 */
module TableReaders {
  import opened Basics
  import opened Coding
  import opened InternalKeys
  import opened Reads
  import opened Separators
  import opened BlockFormat
  import opened BlockBuilders
  import opened BlockIters
  import opened TableFormat
  import opened TableFiles
  import opened Tables
  import opened TableBuilders
  import FilterBlock
  import Bloom
  import LogFormat

  // ----- seeking in a block -----

  function EntryAt(es: seq<KeyValue>, i: nat): Option<KeyValue> {
    if i < |es| then Some(es[i]) else None
  }

  /** The first entry of a block whose key is not before the target. */
  method SeekIn(less: Order, contents: seq<Byte>, target: seq<Byte>, ghost es: seq<KeyValue>)
    returns (found: Option<KeyValue>)
    requires HoldsBlock(contents, es) && |contents| < TwoTo32 && Transitive(less) && SortedKeys(less, es)
    ensures found == EntryAt(es, FirstNotBefore(less, es, target))
  {
    hide Layout, Contents, FirstNotBefore, Transitive, SortedKeys;
    ghost var data, p, restarts :| IsMade(contents, data, p, restarts) && p.entries == es;
    var iter := new BlockIter(less, contents, data, p, restarts);
    iter.Seek(target);
    AtAnEntry(iter);
    if iter.current < iter.restartsAt {
      return Some(KeyValue(iter.key, iter.value));
    }
    return None;
  }

  lemma AtAnEntry(iter: BlockIter)
    requires iter.Valid()
    ensures iter.current < iter.restartsAt <==> iter.at < |iter.p.entries|
    ensures iter.at < |iter.p.entries| ==> KeyValue(iter.key, iter.value) == iter.p.entries[iter.at]
  {
    NotPastEnd(iter.Data(), iter.p, iter.restarts, iter.at);
  }

  // ----- seeks in bytes are seeks in keys -----

  function Target(user: seq<Byte>, s: nat): seq<Byte> {
    KeyBytes(StoredKey(user, s, Value))
  }

  lemma LessThanTarget(k: StoredKey, user: seq<Byte>, s: nat)
    requires k.sn <= MAX_SEQUENCE_NUMBER && s <= MAX_SEQUENCE_NUMBER
    ensures KeyLess(KeyBytes(k), Target(user, s)) <==> Before(Ranked(k), LookupKey(Rank(user), s))
  {
    KeyLessIsBefore(k, StoredKey(user, s, Value));
  }

  lemma IndexSeekIs(index: seq<IndexEntry>, handles: seq<Handle>, user: seq<Byte>, s: nat)
    requires |index| <= |handles| && s <= MAX_SEQUENCE_NUMBER
    requires forall i :: 0 <= i < |index| ==> index[i].key.sn <= MAX_SEQUENCE_NUMBER
    ensures FirstNotBefore(KeyLess, IndexPairs(index, handles), Target(user, s)) ==
      IndexSeek(index, LookupKey(Rank(user), s))
  {
    hide KeyLess, KeyBytes, Before, Rank, Target;
    forall i | 0 <= i < |index|
      ensures KeyLess(IndexPairs(index, handles)[i].key, Target(user, s)) <==>
        Before(Ranked(index[i].key), LookupKey(Rank(user), s))
    {
      LessThanTarget(index[i].key, user, s);
    }
    hide FirstNotBefore, IndexSeek;
  }

  lemma BlockSeekIs(es: seq<StoredEntry>, user: seq<Byte>, s: nat)
    requires NumbersFit(es) && s <= MAX_SEQUENCE_NUMBER
    ensures FirstNotBefore(KeyLess, Encoded(es), Target(user, s)) == SeekIndex(Placed(es), LookupKey(Rank(user), s))
  {
    hide KeyLess, KeyBytes, Before, Rank, Target;
    forall i | 0 <= i < |es|
      ensures KeyLess(Encoded(es)[i].key, Target(user, s)) <==> Before(Placed(es)[i].key, LookupKey(Rank(user), s))
    {
      assert es[i] in es;
      LessThanTarget(es[i].key, user, s);
    }
    hide FirstNotBefore, SeekIndex;
  }

  lemma EncodedSorted(es: seq<StoredEntry>)
    requires NumbersFit(es) && SortedEntries(Placed(es))
    ensures SortedKeys(KeyLess, Encoded(es))
  {
    hide KeyLess, KeyBytes, Before, Rank;
    forall i, j | 0 <= i < j < |es| ensures KeyLess(Encoded(es)[i].key, Encoded(es)[j].key) {
      assert es[i] in es && es[j] in es;
      assert Before(Placed(es)[i].key, Placed(es)[j].key);
      KeyLessIsBefore(es[i].key, es[j].key);
    }
  }

  /** Index keys increase. */
  lemma IndexIncreases(blocks: seq<seq<StoredEntry>>, index: seq<IndexEntry>, i: nat, j: nat)
    requires Increasing(blocks) && |index| == |blocks| && i < j < |blocks| && IndexOk(blocks, index, i)
    requires IndexOk(blocks, index, j)
    ensures Before(Ranked(index[i].key), Ranked(index[j].key))
  {
    var first, last := blocks[i + 1][0], blocks[j][|blocks[j]| - 1];
    assert InBlock(blocks, j, last) && InBlock(blocks, i + 1, first);
    BeforeNextBlock(blocks, index, i);
    FirstIsLeast(blocks, i + 1, j, last);
    NotAfterIndex(blocks, index, j, last);
    hide IndexOk, Increasing;
    BeforeTransitive(Ranked(index[i].key), Ranked(first.key), Ranked(last.key));
    BeforeTransitive(Ranked(index[i].key), Ranked(last.key), Ranked(index[j].key));
  }

  lemma BeforeNextBlock(blocks: seq<seq<StoredEntry>>, index: seq<IndexEntry>, i: nat)
    requires Increasing(blocks) && |index| == |blocks| && i + 1 < |blocks| && IndexOk(blocks, index, i)
    ensures Before(Ranked(index[i].key), Ranked(blocks[i + 1][0].key))
  {
    assert blocks[i + 1][0] in blocks[i + 1] && blocks[i][|blocks[i]| - 1] in blocks[i];
    assert Less(Last(blocks[i]), First(blocks[i + 1]));
  }

  lemma IndexSorted(blocks: seq<seq<StoredEntry>>, index: seq<IndexEntry>, handles: seq<Handle>)
    requires Increasing(blocks) && |index| == |blocks| <= |handles|
    requires forall i :: 0 <= i < |blocks| ==> IndexOk(blocks, index, i)
    requires forall i :: 0 <= i < |index| ==> index[i].key.sn <= MAX_SEQUENCE_NUMBER
    ensures SortedKeys(KeyLess, IndexPairs(index, handles))
  {
    hide KeyLess, KeyBytes, Before, Rank, Increasing, IndexOk;
    forall i, j | 0 <= i < j < |index|
      ensures KeyLess(IndexPairs(index, handles)[i].key, IndexPairs(index, handles)[j].key)
    {
      IndexIncreases(blocks, index, i, j);
      KeyLessIsBefore(index[i].key, index[j].key);
    }
  }

  // ----- opening -----

  /** A table that has been opened: its index block, and its filter if the reader uses the same policy. */
  datatype OpenTable = OpenTable(index: seq<Byte>, filter: Option<seq<Byte>>)

  ghost predicate IsOpen(step: LogFormat.CrcStep, file: seq<Byte>, t: Table, at: Places, open: OpenTable) {
    && |t.index| <= |at.data| && |open.index| < TwoTo32 && HoldsBlock(open.index, IndexPairs(t.index, at.data))
    && (open.filter.Some? ==> open.filter == t.filter)
  }

  /** Read the footer, the index block and the filter. */
  method Open(step: LogFormat.CrcStep, verify: bool, policy: Option<seq<Byte>>, file: seq<Byte>, ghost name: seq<Byte>,
      ghost t: Table, ghost at: Places)
    returns (r: Option<OpenTable>)
    requires FileHolds(step, name, file, t, at) && Small(file, at)
    ensures r.Some? && IsOpen(step, file, t, at, r.value)
    ensures r.value.filter == if policy == Some(name) then t.filter else None
  {
    hide HoldsBlock, Stored, ReadFooter, FooterBytes, ReadBlock, DataHeld, IndexPairs, MetaPairs;
    var footer := ReadFooter(file[|file| - FOOTER_SIZE..]);
    ghost var index :| Stored(step, file, at.index, index) && HoldsBlock(index, IndexPairs(t.index, at.data));
    ghost var meta :| Stored(step, file, at.meta, meta) && HoldsBlock(meta, MetaPairs(name, at.filter));
    HandleInFile(step, file, at.index, index);
    HandleInFile(step, file, at.meta, meta);
    FooterReads(at.meta, at.index);
    StoredReads(step, verify, file, at.index, index);
    StoredSize(step, file, at.index, index);
    StoredSize(step, file, at.meta, meta);
    var contents := ReadBlock(step, verify, file, footer.value.index);
    var filter := None;
    if policy.Some? {
      StoredReads(step, verify, file, at.meta, meta);
      var metaContents := ReadBlock(step, verify, file, footer.value.meta);
      filter := ReadMeta(step, verify, policy.value, file, metaContents.value, name, t.filter, at.filter);
    }
    r := Some(OpenTable(contents.value, filter));
  }

  lemma StoredSize(step: LogFormat.CrcStep, file: seq<Byte>, h: Handle, contents: seq<Byte>)
    requires Stored(step, file, h, contents)
    ensures |contents| == h.size
  {
  }

  /** Find the filter by the name of its policy. */
  method ReadMeta(step: LogFormat.CrcStep, verify: bool, policy: seq<Byte>, file: seq<Byte>, meta: seq<Byte>,
                  ghost name: seq<Byte>, ghost filter: Option<seq<Byte>>, ghost h: Option<Handle>)
    returns (r: Option<seq<Byte>>)
    requires HoldsBlock(meta, MetaPairs(name, h)) && |meta| < TwoTo32 && |file| < TwoTo64
    requires h.Some? == filter.Some? && (filter.Some? ==> Stored(step, file, h.value, filter.value))
    ensures r == if policy == name then filter else None
  {
    hide HoldsBlock, Stored, ReadBlock, BytesLess, Transitive, ReadHandle, HandleBytes;
    BytesLessTransitive();
    var key := FilterKey(policy);
    var found := SeekIn(BytesLess, meta, key, MetaPairs(name, h));
    assert key[7..] == policy && FilterKey(name)[7..] == name;
    if policy == name && h.Some? {
      NotBeforeItself(key);
    }
    if found.None? || found.value.key != key {
      return None;
    }
    HandleInFile(step, file, h.value, filter.value);
    HandleAlone(h.value);
    StoredReads(step, verify, file, h.value, filter.value);
    var handle := ReadHandle(found.value.value);
    r := ReadBlock(step, verify, file, handle.value);
  }

  lemma NotBeforeItself(key: seq<Byte>)
    ensures !BytesLess(key, key)
  {
    RankOrder(key, key);
  }

  // ----- lookup -----

  lemma WithoutFilter(t: Table, hash: Bloom.Hash, blocks: seq<seq<StoredEntry>>, filter: Option<seq<Byte>>)
    requires Represents(t, hash, blocks) && (filter.Some? ==> filter == t.filter)
    ensures Represents(t.(filter := filter), hash, blocks)
  {
  }

  lemma BlockOf(step: LogFormat.CrcStep, policy: seq<Byte>, file: seq<Byte>, t: Table, at: Places, hash: Bloom.Hash,
      blocks: seq<seq<StoredEntry>>, i: nat)
    requires FileHolds(step, policy, file, t, at) && Represents(t, hash, blocks) && i < |blocks|
    ensures |at.data| == |t.index| == |blocks| && at.data[i].offset == t.index[i].offset
    ensures NumbersFit(blocks[i]) && SortedEntries(Placed(blocks[i]))
    ensures BlockAt(step, file, at.data[i], Encoded(blocks[i]))
  {
    assert DataHeld(step, file, t, at.data, i);
  }

  /** Seek in one data block; an entry of another user key does not count. */
  method GetFromBlock(contents: seq<Byte>, user: seq<Byte>, s: nat, ghost es: seq<StoredEntry>)
    returns (r: Option<StoredEntry>)
    requires HoldsBlock(contents, Encoded(es)) && |contents| < TwoTo32 && NumbersFit(es) && SortedEntries(Placed(es))
    requires s <= MAX_SEQUENCE_NUMBER
    ensures PointGet(Placed(es), Rank(user), s) == if r.Some? then Some(Place(r.value)) else None
  {
    hide HoldsBlock, SortedEntries, Transitive, SortedKeys, FirstNotBefore, SeekIndex, KeyLess, KeyBytes, ParseKey,
      Rank, Text;
    KeyLessTransitive();
    EncodedSorted(es);
    BlockSeekIs(es, user, s);
    var found := SeekIn(KeyLess, contents, Target(user, s), Encoded(es));
    if found.None? {
      return None;
    }
    ghost var i := SeekIndex(Placed(es), LookupKey(Rank(user), s));
    assert es[i] in es && found.value == EncodedEntry(es[i]);
    ParsesBack(es[i].key);
    RankOrder(es[i].key.user, user);
    var k := ParseKey(found.value.key);
    if k.None? || k.value.user != user {
      return None;
    }
    return Some(StoredEntry(k.value, found.value.value));
  }

  /** Look a user key up as of a sequence number: the answer is that of a scan of all entries. */
  method InternalGet(step: LogFormat.CrcStep, verify: bool, file: seq<Byte>, open: OpenTable, hash: Bloom.Hash,
                     user: seq<Byte>, s: nat,
                     ghost policy: seq<Byte>, ghost t: Table, ghost at: Places, ghost blocks: seq<seq<StoredEntry>>)
    returns (r: Option<StoredEntry>)
    requires FileHolds(step, policy, file, t, at) && Small(file, at) && IsOpen(step, file, t, at, open)
    requires Represents(t, hash, blocks) && s <= MAX_SEQUENCE_NUMBER
    ensures PointGet(Placed(Flat(blocks)), Rank(user), s) == if r.Some? then Some(Place(r.value)) else None
  {
    hide *;
    var h := SeekIndexBlock(step, open, user, s, policy, file, t, at, hash, blocks);
    ghost var i := IndexSeek(t.index, LookupKey(Rank(user), s));
    ghost var t' := t.(filter := open.filter);
    OpenFilter(step, file, t, at, open);
    WithoutFilter(t, hash, blocks, open.filter);
    BlockAnswers(t', hash, blocks, user, s);
    LooksMeans(t', hash, user, s);
    if h.None? {
      return None;
    }
    if open.filter.Some? {
      var may := FilterBlock.KeyMayMatch(hash, open.filter.value, h.value.offset, user);
      if !may {
        return None;
      }
    }
    BlockOf(step, policy, file, t, at, hash, blocks, i);
    var contents := ReadDataBlock(step, verify, file, h.value, Encoded(blocks[i]));
    r := GetFromBlock(contents, user, s, blocks[i]);
  }

  lemma OpenFilter(step: LogFormat.CrcStep, file: seq<Byte>, t: Table, at: Places, open: OpenTable)
    requires IsOpen(step, file, t, at, open)
    ensures open.filter.Some? ==> open.filter == t.filter
  {
  }

  lemma LooksMeans(t: Table, hash: Bloom.Hash, user: seq<Byte>, s: nat)
    ensures var i := IndexSeek(t.index, LookupKey(Rank(user), s));
      LooksInto(t, hash, user, s) <==>
        i < |t.index| && (t.filter.Some? ==> FilterBlock.MayMatch(hash, t.filter.value, t.index[i].offset, user))
  {
  }

  /** The handle of the block that may hold the key. */
  method SeekIndexBlock(step: LogFormat.CrcStep, open: OpenTable, user: seq<Byte>, s: nat,
                        ghost policy: seq<Byte>, ghost file: seq<Byte>,
                        ghost t: Table, ghost at: Places, ghost hash: Bloom.Hash, ghost blocks: seq<seq<StoredEntry>>)
    returns (h: Option<Handle>)
    requires FileHolds(step, policy, file, t, at) && Small(file, at) && IsOpen(step, file, t, at, open)
    requires Represents(t, hash, blocks) && s <= MAX_SEQUENCE_NUMBER
    ensures |at.data| == |t.index| == |blocks|
    ensures var i := IndexSeek(t.index, LookupKey(Rank(user), s));
      && h.Some? == (i < |t.index|)
      && (h.Some? ==> h.value == at.data[i] && h.value.offset == t.index[i].offset && h.value.size < TwoTo32)
  {
    var es := IndexFacts(step, policy, file, t, at, hash, blocks);
    IndexSeekIs(t.index, at.data, user, s);
    KeyLessTransitive();
    hide HoldsBlock, Transitive, SortedKeys, FirstNotBefore, IndexSeek, KeyLess, KeyBytes, Rank, Represents, FileHolds,
      ReadHandle, HandleBytes;
    var found := SeekIn(KeyLess, open.index, Target(user, s), es);
    if found.None? {
      return None;
    }
    ghost var i := IndexSeek(t.index, LookupKey(Rank(user), s));
    DataHandle(step, policy, file, t, at, i);
    HandleAlone(at.data[i]);
    var handle := ReadHandle(found.value.value);
    return Some(handle.value);
  }

  lemma IndexFacts(step: LogFormat.CrcStep, policy: seq<Byte>, file: seq<Byte>, t: Table, at: Places, hash: Bloom.Hash,
      blocks: seq<seq<StoredEntry>>)
    returns (es: seq<KeyValue>)
    requires FileHolds(step, policy, file, t, at) && Represents(t, hash, blocks)
    ensures |at.data| == |t.index| == |blocks| && es == IndexPairs(t.index, at.data) && SortedKeys(KeyLess, es)
    ensures forall i :: 0 <= i < |t.index| ==> t.index[i].key.sn <= MAX_SEQUENCE_NUMBER
  {
    es := IndexPairs(t.index, at.data);
    hide SortedKeys, KeyLess, IndexPairs, BlockAt, NumbersFit, Increasing, IndexOk;
    forall i | 0 <= i < |t.index| ensures t.index[i].key.sn <= MAX_SEQUENCE_NUMBER {
      assert DataHeld(step, file, t, at.data, i);
    }
    IndexSorted(blocks, t.index, at.data);
  }

  lemma DataHandle(step: LogFormat.CrcStep, policy: seq<Byte>, file: seq<Byte>, t: Table, at: Places, i: nat)
    requires FileHolds(step, policy, file, t, at) && Small(file, at) && i < |t.index|
    ensures |at.data| == |t.index| && HandleOk(at.data[i]) && at.data[i].offset == t.index[i].offset
    ensures at.data[i].size < TwoTo32
  {
    assert DataHeld(step, file, t, at.data, i);
    var contents :| Stored(step, file, at.data[i], contents);
    HandleInFile(step, file, at.data[i], contents);
  }

  method ReadDataBlock(step: LogFormat.CrcStep, verify: bool, file: seq<Byte>, h: Handle, ghost es: seq<KeyValue>)
    returns (contents: seq<Byte>)
    requires BlockAt(step, file, h, es)
    ensures HoldsBlock(contents, es) && |contents| == h.size
  {
    hide HoldsBlock, Stored, ReadBlock;
    ghost var stored :| Stored(step, file, h, stored) && HoldsBlock(stored, es);
    StoredReads(step, verify, file, h, stored);
    StoredSize(step, file, h, stored);
    contents := ReadBlock(step, verify, file, h).value;
  }

  // ----- from entries to bytes and back -----

  /** Build a table of sorted entries. */
  method BuildTable(step: LogFormat.CrcStep, hash: Bloom.Hash, policy: seq<Byte>, blockSize: nat, interval: nat,
                    filter: FilterBlock.FilterBlockBuilder?, entries: seq<StoredEntry>)
    returns (file: seq<Byte>, ghost t: Table, ghost at: Places, ghost blocks: seq<seq<StoredEntry>>)
    requires SortedEntries(Placed(entries)) && NumbersFit(entries) && interval >= 1
    requires filter != null ==> filter.Valid() && filter.hash == hash && filter.filterOffsets == []
    modifies filter
    ensures FileHolds(step, policy, file, t, at) && Flat(blocks) == entries
    ensures Small(file, at) ==> Represents(t, hash, blocks)
  {
    hide *;
    var builder := new TableBuilder(step, hash, policy, blockSize, interval, filter);
    for i := 0 to |entries|
      invariant builder.Valid() && All(builder.b) == entries[..i] && builder.step == step && builder.hash == hash
      invariant builder.policy == policy
      invariant fresh(builder) && fresh(builder.dataBlock) && fresh(builder.indexBlock) && builder.filter == filter
    {
      NextMayFollow(builder.b, entries, i);
      assert entries[..i + 1] == entries[..i] + [entries[i]];
      builder.Add(entries[i]);
    }
    assert entries[..|entries|] == entries;
    t, at := builder.Finish();
    file, blocks := builder.file, builder.b.done;
  }

  /**
    Open a table and ask it for a key.  With each block below 4 GB, a file that `BuildTable` made
    answers as the entries themselves do, whatever filter policy the reader has.
   */
  method LookUp(step: LogFormat.CrcStep, verify: bool, hash: Bloom.Hash, policy: Option<seq<Byte>>, file: seq<Byte>,
                user: seq<Byte>, s: nat,
                ghost name: seq<Byte>, ghost t: Table, ghost at: Places, ghost blocks: seq<seq<StoredEntry>>)
    returns (r: Option<StoredEntry>)
    requires FileHolds(step, name, file, t, at) && Small(file, at) && Represents(t, hash, blocks)
    requires s <= MAX_SEQUENCE_NUMBER
    ensures PointGet(Placed(Flat(blocks)), Rank(user), s) == if r.Some? then Some(Place(r.value)) else None
  {
    hide *;
    var open := Open(step, verify, policy, file, name, t, at);
    r := InternalGet(step, verify, file, open.value, hash, user, s, name, t, at, blocks);
  }

  lemma NextMayFollow(b: Build, entries: seq<StoredEntry>, i: nat)
    requires SortedEntries(Placed(entries)) && NumbersFit(entries) && i < |entries| && All(b) == entries[..i]
    ensures MayFollow(b, entries[i]) && entries[i].key.sn <= MAX_SEQUENCE_NUMBER
  {
    assert entries[i] in entries;
    if i > 0 {
      assert Before(Placed(entries)[i - 1].key, Placed(entries)[i].key);
    }
  }
}
