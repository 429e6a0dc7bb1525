/** What a table file holds, byte for byte: data blocks, a filter, the metaindex, the index and the footer. */
module TableFiles {
  import opened Basics
  import opened Coding
  import opened InternalKeys
  import opened Separators
  import opened BlockFormat
  import opened BlockBuilders
  import opened TableFormat
  import opened Tables
  import LogFormat

  function EncodedEntry(e: StoredEntry): KeyValue {
    KeyValue(KeyBytes(e.key), e.value)
  }

  function Encoded(es: seq<StoredEntry>): (r: seq<KeyValue>)
    ensures |r| == |es| && forall i :: 0 <= i < |es| ==> r[i] == EncodedEntry(es[i])
  {
    seq(|es|, (i: int) requires 0 <= i < |es| => EncodedEntry(es[i]))
  }

  /** The entries of the index block: a key and the handle of its data block. */
  function IndexPairs(index: seq<IndexEntry>, handles: seq<Handle>): (r: seq<KeyValue>)
    requires |index| <= |handles|
    ensures |r| == |index|
    ensures forall i :: 0 <= i < |index| ==> r[i] == KeyValue(KeyBytes(index[i].key), HandleBytes(handles[i]))
  {
    seq(|index|, (i: int) requires 0 <= i < |index| => KeyValue(KeyBytes(index[i].key), HandleBytes(handles[i])))
  }

  function FilterKey(policy: seq<Byte>): (r: seq<Byte>) {
    [102, 105, 108, 116, 101, 114, 46] + policy // "filter."
  }

  /** The entries of the metaindex block: the name of the filter policy and the handle of the filter. */
  function MetaPairs(policy: seq<Byte>, filter: Option<Handle>): (r: seq<KeyValue>) {
    if filter.Some? then [KeyValue(FilterKey(policy), HandleBytes(filter.value))] else []
  }

  /** The block at a handle holds some entries. */
  ghost predicate BlockAt(step: LogFormat.CrcStep, file: seq<Byte>, h: Handle, es: seq<KeyValue>) {
    exists contents :: Stored(step, file, h, contents) && HoldsBlock(contents, es)
  }

  lemma BlockStays(step: LogFormat.CrcStep, file: seq<Byte>, more: seq<Byte>, h: Handle, es: seq<KeyValue>)
    requires BlockAt(step, file, h, es)
    ensures BlockAt(step, file + more, h, es)
  {
    hide Stored, HoldsBlock;
    var contents :| Stored(step, file, h, contents) && HoldsBlock(contents, es);
    StoredStays(step, file, more, h, contents);
  }

  /** Sequence numbers fit into seven bytes. */
  ghost predicate NumbersFit(es: seq<StoredEntry>) {
    forall e :: e in es ==> e.key.sn <= MAX_SEQUENCE_NUMBER
  }

  /** Where the parts of a table are in its file. */
  datatype Places = Places(data: seq<Handle>, filter: Option<Handle>, meta: Handle, index: Handle)

  /** Offsets fit into 64 bits, and no block is longer than a 32-bit number can say. */
  ghost predicate Small(file: seq<Byte>, at: Places) {
    && |file| < TwoTo64 && at.meta.size < TwoTo32 && at.index.size < TwoTo32
    && (at.filter.Some? ==> at.filter.value.size < TwoTo32)
    && forall i :: 0 <= i < |at.data| ==> at.data[i].size < TwoTo32
  }

  ghost predicate DataHeld(step: LogFormat.CrcStep, file: seq<Byte>, t: Table, handles: seq<Handle>, i: nat)
    requires i < |t.index| && i < |handles|
  {
    && handles[i].offset == t.index[i].offset && t.index[i].offset in t.file && t.index[i].key.sn <= MAX_SEQUENCE_NUMBER
    && NumbersFit(t.file[t.index[i].offset]) && BlockAt(step, file, handles[i], Encoded(t.file[t.index[i].offset]))
  }

  /** The file is that of the table `t`, with its parts at the places `at`. */
  ghost predicate FileHolds(step: LogFormat.CrcStep, policy: seq<Byte>, file: seq<Byte>, t: Table, at: Places) {
    && |file| >= FOOTER_SIZE && file[|file| - FOOTER_SIZE..] == FooterBytes(at.meta, at.index)
    && |at.data| == |t.index| && (forall i :: 0 <= i < |t.index| ==> DataHeld(step, file, t, at.data, i))
    && BlockAt(step, file, at.index, IndexPairs(t.index, at.data))
    && BlockAt(step, file, at.meta, MetaPairs(policy, at.filter))
    && at.filter.Some? == t.filter.Some? && (t.filter.Some? ==> Stored(step, file, at.filter.value, t.filter.value))
  }

  lemma HandleInFile(step: LogFormat.CrcStep, file: seq<Byte>, h: Handle, contents: seq<Byte>)
    requires Stored(step, file, h, contents) && |file| < TwoTo64
    ensures HandleOk(h)
  {
  }

  // ----- blocks one after the other -----

  function WithBlock(step: LogFormat.CrcStep, file: seq<Byte>, contents: seq<Byte>): (r: seq<Byte>) {
    file + contents + Trailer(step, contents)
  }

  lemma BlockBehind(step: LogFormat.CrcStep, file: seq<Byte>, contents: seq<Byte>, es: seq<KeyValue>)
    requires HoldsBlock(contents, es)
    ensures BlockAt(step, WithBlock(step, file, contents), Handle(|file|, |contents|), es)
  {
    hide HoldsBlock, Stored, Trailer;
    StoredAtEnd(step, file, contents);
  }

  /** The file behind its data blocks: the filter, the metaindex, the index and the footer. */
  function Closed(step: LogFormat.CrcStep, file: seq<Byte>, filter: Option<seq<Byte>>, meta: seq<Byte>,
      index: seq<Byte>): (r: seq<Byte>) {
    var one := if filter.Some? then WithBlock(step, file, filter.value) else file;
    var two := WithBlock(step, one, meta);
    WithBlock(step, two, index) + FooterBytes(Handle(|one|, |meta|), Handle(|two|, |index|))
  }

  function FilterAt(file: seq<Byte>, filter: Option<seq<Byte>>): Option<Handle> {
    if filter.Some? then Some(Handle(|file|, |filter.value|)) else None
  }

  function PlacesOf(step: LogFormat.CrcStep, file: seq<Byte>, data: seq<Handle>, filter: Option<seq<Byte>>,
      meta: seq<Byte>, index: seq<Byte>): Places {
    var one := if filter.Some? then WithBlock(step, file, filter.value) else file;
    var two := WithBlock(step, one, meta);
    Places(data, FilterAt(file, filter), Handle(|one|, |meta|), Handle(|two|, |index|))
  }

  /** All parts of a closed file are where they should be. */
  lemma ClosedHolds(step: LogFormat.CrcStep, policy: seq<Byte>, file: seq<Byte>, t: Table, data: seq<Handle>,
      meta: seq<Byte>, index: seq<Byte>)
    requires |data| == |t.index| && forall i :: 0 <= i < |t.index| ==> DataHeld(step, file, t, data, i)
    requires HoldsBlock(meta, MetaPairs(policy, FilterAt(file, t.filter)))
    requires HoldsBlock(index, IndexPairs(t.index, data))
    ensures FileHolds(step, policy, Closed(step, file, t.filter, meta, index), t,
        PlacesOf(step, file, data, t.filter, meta, index))
  {
    hide HoldsBlock, Stored, Trailer, BlockAt, FooterBytes, IndexPairs, MetaPairs, NumbersFit, Encoded;
    var filter := if t.filter.Some? then t.filter.value + Trailer(step, t.filter.value) else [];
    var one := if t.filter.Some? then WithBlock(step, file, t.filter.value) else file;
    var two := WithBlock(step, one, meta);
    var three := WithBlock(step, two, index);
    var footer := FooterBytes(Handle(|one|, |meta|), Handle(|two|, |index|));
    var all := three + footer;
    assert all == Closed(step, file, t.filter, meta, index) && all[|all| - FOOTER_SIZE..] == footer;
    var c := index + Trailer(step, index) + footer;
    var b := meta + Trailer(step, meta) + c;
    var a := filter + b;
    assert two + c == all && one + b == all && file + a == all;
    BlockBehind(step, one, meta, MetaPairs(policy, FilterAt(file, t.filter)));
    BlockBehind(step, two, index, IndexPairs(t.index, data));
    BlockStays(step, two, c, Handle(|one|, |meta|), MetaPairs(policy, FilterAt(file, t.filter)));
    BlockStays(step, three, footer, Handle(|two|, |index|), IndexPairs(t.index, data));
    if t.filter.Some? {
      StoredAtEnd(step, file, t.filter.value);
      StoredStays(step, one, b, Handle(|file|, |t.filter.value|), t.filter.value);
    }
    forall i | 0 <= i < |t.index| ensures DataHeld(step, all, t, data, i) {
      assert DataHeld(step, file, t, data, i);
      BlockStays(step, file, a, data[i], Encoded(t.file[t.index[i].offset]));
    }
  }
}
