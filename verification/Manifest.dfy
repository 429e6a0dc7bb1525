/**
  The manifest: a log whose first record lists the files of a version and whose other records are
  the edits installed since.  Whatever byte prefix of it a crash leaves, recovery yields, list for
  list, the version that was current after the edits that lie wholly inside the prefix.
 */
module Manifest {
  import opened Basics
  import opened Coding
  import opened InternalKeys
  import opened LsmTree
  import opened KeyCodec
  import opened VersionBuilder
  import opened LogFormat
  import EditCodec
  import LogReader
  import LogWriter
  import LogRoundTrip

  /** What the bytes refer to: the comparator, its order of user keys, and the tables on disk by number. */
  datatype Catalog = Catalog(comparator: seq<Byte>, names: Naming, tables: map<nat, seq<Entry>>)

  type Levels = seq<seq<File>>

  // ----- files and edits as bytes -----

  function ItemOf(c: Catalog, level: nat, f: File): (i: EditCodec.Item)
    requires Known(c, f)
    ensures i.NewFile?
  {
    EditCodec.NewFile(level, f.number, f.size, EncodeKey(c.names, f.smallest), EncodeKey(c.names, f.largest))
  }

  function FileOf(c: Catalog, i: EditCodec.Item): (f: File)
    requires i.NewFile?
  {
    File(i.number, i.size, DecodeKey(c.names, i.smallest), DecodeKey(c.names, i.largest),
         if i.number in c.tables then c.tables[i.number] else [])
  }

  /** A file whose table is on disk and whose metadata can be written down. */
  predicate Known(c: Catalog, f: File) {
    && Nameable(c.names, f.smallest) && Nameable(c.names, f.largest)
    && |c.names.name(f.smallest.user)| + 8 < TwoTo32 && |c.names.name(f.largest.user)| + 8 < TwoTo32
    && f.number < TwoTo64 && f.size < TwoTo64
    && f.number in c.tables && c.tables[f.number] == f.entries
  }

  lemma FileRoundTrip(c: Catalog, level: nat, f: File)
    requires Known(c, f) && level < NUM_LEVELS
    ensures FileOf(c, ItemOf(c, level, f)) == f && EditCodec.ItemOk(ItemOf(c, level, f))
  {
    hide EncodeKey, DecodeKey;
    KeyRoundTrip(c.names, f.smallest);
    KeyRoundTrip(c.names, f.largest);
  }

  /** Files to put into levels that exist. */
  ghost predicate OnlyNewFiles(items: seq<EditCodec.Item>) {
    forall i :: i in items ==> i.NewFile? && EditCodec.LevelExists(i)
  }

  function Added(c: Catalog, items: seq<EditCodec.Item>): (r: seq<(int, File)>)
    requires OnlyNewFiles(items)
    ensures |r| == |items| && LevelsInRange(r)
    ensures forall k :: 0 <= k < |items| ==> r[k] == (items[k].level, FileOf(c, items[k]))
  {
    assert forall k :: 0 <= k < |items| ==> items[k] in items;
    seq(|items|, (k: int) requires 0 <= k < |items| => (items[k].level, FileOf(c, items[k])))
  }

  /** What an edit from the manifest does to a version. */
  function Meaning(c: Catalog, e: EditCodec.Edit): (r: Edit)
    requires OnlyNewFiles(e.newFiles)
    ensures LevelsInRange(r.added)
  {
    Edit(set d | d in e.deletedFiles :: (d.0, d.1), Added(c, e.newFiles))
  }

  ghost predicate AllReadable(edits: seq<EditCodec.Edit>) {
    forall k :: 0 <= k < |edits| ==> OnlyNewFiles(edits[k].newFiles)
  }

  ghost function Meanings(c: Catalog, edits: seq<EditCodec.Edit>): (r: seq<Edit>)
    requires AllReadable(edits)
    ensures |r| == |edits| && AllInRange(r) && forall k :: 0 <= k < |edits| ==> r[k] == Meaning(c, edits[k])
  {
    seq(|edits|, (k: int) requires 0 <= k < |edits| => Meaning(c, edits[k]))
  }

  // ----- the snapshot record -----

  ghost predicate Listable(c: Catalog, levels: Levels) {
    && |levels| == NUM_LEVELS && SortedLevels(levels) && |c.comparator| < TwoTo32
    && AllKnown(c, levels)
    && forall i, f, g :: At(levels, i, f) && At(levels, i, g) && f.number == g.number ==> f == g
  }

  function LevelItems(c: Catalog, level: nat, files: seq<File>): (r: seq<EditCodec.Item>)
    requires level < NUM_LEVELS && forall f :: f in files ==> Known(c, f)
    ensures |r| == |files| && OnlyNewFiles(r)
    ensures forall k :: 0 <= k < |files| ==> r[k] == ItemOf(c, level, files[k])
  {
    seq(|files|, (k: int) requires 0 <= k < |files| => assert files[k] in files; ItemOf(c, level, files[k]))
  }

  ghost predicate AllKnown(c: Catalog, levels: Levels) {
    |levels| <= NUM_LEVELS && forall i, f :: At(levels, i, f) ==> Known(c, f)
  }

  /** The files of the levels from `level` on. */
  function SnapshotItems(c: Catalog, levels: Levels, level: nat): (r: seq<EditCodec.Item>)
    requires level <= |levels| && AllKnown(c, levels)
    ensures OnlyNewFiles(r)
    decreases |levels| - level
  {
    if level == |levels| then []
    else
      assert forall f :: f in levels[level] ==> At(levels, level, f);
      LevelItems(c, level, levels[level]) + SnapshotItems(c, levels, level + 1)
  }

  function SnapshotEdit(c: Catalog, levels: Levels): (e: EditCodec.Edit)
    requires AllKnown(c, levels)
  {
    EditCodec.Edit(Some(c.comparator), None, None, None, None, [], [], SnapshotItems(c, levels, 0))
  }

  function LevelPairs(level: nat, files: seq<File>): (r: seq<(int, File)>)
    ensures |r| == |files| && forall k :: 0 <= k < |files| ==> r[k] == (level, files[k])
  {
    seq(|files|, (k: int) requires 0 <= k < |files| => (level, files[k]))
  }

  /** The pairs that the snapshot lists, level by level. */
  function FilePairs(levels: Levels, level: nat): (r: seq<(int, File)>)
    requires level <= |levels|
    decreases |levels| - level
  {
    if level == |levels| then []
    else LevelPairs(level, levels[level]) + FilePairs(levels, level + 1)
  }

  lemma {:induction false} SnapshotAdds(c: Catalog, levels: Levels, level: nat)
    requires level <= |levels| <= NUM_LEVELS && AllKnown(c, levels)
    ensures Added(c, SnapshotItems(c, levels, level)) == FilePairs(levels, level)
    ensures forall i :: i in SnapshotItems(c, levels, level) ==> EditCodec.ItemOk(i)
    decreases |levels| - level
  {
    hide Known, ItemOf, FileOf, EditCodec.ItemOk;
    if level < |levels| {
      var files := levels[level];
      assert forall f :: f in files ==> At(levels, level, f);
      hide At, AllKnown;
      LevelAdds(c, level, files);
      SnapshotAdds(c, levels, level + 1);
      AddedConcat(c, LevelItems(c, level, files), SnapshotItems(c, levels, level + 1));
    }
  }

  lemma AddedConcat(c: Catalog, a: seq<EditCodec.Item>, b: seq<EditCodec.Item>)
    requires OnlyNewFiles(a) && OnlyNewFiles(b)
    ensures OnlyNewFiles(a + b) && Added(c, a + b) == Added(c, a) + Added(c, b)
  {
    hide FileOf;
  }

  lemma LevelAdds(c: Catalog, level: nat, files: seq<File>)
    requires level < NUM_LEVELS && forall f :: f in files ==> Known(c, f)
    ensures Added(c, LevelItems(c, level, files)) == LevelPairs(level, files)
    ensures forall i :: i in LevelItems(c, level, files) ==> EditCodec.ItemOk(i)
  {
    hide Known, ItemOf, FileOf, EditCodec.ItemOk;
    var items := LevelItems(c, level, files);
    forall k | 0 <= k < |files|
      ensures EditCodec.ItemOk(items[k]) && items[k].NewFile?
      ensures (items[k].level, FileOf(c, items[k])) == (level, files[k])
    {
      assert files[k] in files;
      FileRoundTrip(c, level, files[k]);
      ItemLevel(c, level, files[k]);
    }
  }

  lemma ItemLevel(c: Catalog, level: nat, f: File)
    requires Known(c, f)
    ensures ItemOf(c, level, f).level == level
  {
  }

  lemma {:induction false} PairsMean(levels: Levels, level: nat)
    requires level <= |levels|
    ensures forall i, f :: (i, f) in FilePairs(levels, level) <==> level <= i < |levels| && f in levels[i]
    decreases |levels| - level
  {
    if level < |levels| {
      PairsMean(levels, level + 1);
      var first := LevelPairs(level, levels[level]);
      forall i, f ensures (i, f) in first <==> i == level && f in levels[i] {
        if i == level && f in levels[i] {
          var k :| 0 <= k < |levels[i]| && levels[i][k] == f;
          assert first[k] == (i, f);
        }
      }
    }
  }

  /** No number occurs twice in a level of the list. */
  ghost predicate NumbersOnce(added: seq<(int, File)>) {
    forall i, j :: 0 <= i < j < |added| && added[i].0 == added[j].0 ==> added[i].1.number != added[j].1.number
  }

  lemma {:induction false} PairsOnce(levels: Levels, level: nat)
    requires level <= |levels| && SortedLevels(levels)
    requires forall i, f, g :: At(levels, i, f) && At(levels, i, g) && f.number == g.number ==> f == g
    ensures NumbersOnce(FilePairs(levels, level))
    decreases |levels| - level
  {
    if level < |levels| {
      PairsOnce(levels, level + 1);
      PairsMean(levels, level + 1);
      var n, all := |levels[level]|, FilePairs(levels, level);
      forall i, j | 0 <= i < j < |all| && all[i].0 == all[j].0 ensures all[i].1.number != all[j].1.number {
        if j < n {
          assert FileBefore(levels[level][i], levels[level][j]);
          assert At(levels, level, all[i].1) && At(levels, level, all[j].1);
        } else {
          var rest := FilePairs(levels, level + 1);
          assert all[j] == rest[j - n] && rest[j - n] in rest && all[j] == (all[j].0, all[j].1);
          assert i >= n ==> all[i] == rest[i - n];
        }
      }
    }
  }

  /** Applied to the empty version, the snapshot edit lists exactly the files of the version. */
  lemma SnapshotLists(c: Catalog, levels: Levels)
    requires Listable(c, levels)
    ensures EditCodec.EditOk(SnapshotEdit(c, levels))
    ensures FreshIn({}, Meaning(c, SnapshotEdit(c, levels)).added)
    ensures ApplyEdit({}, Meaning(c, SnapshotEdit(c, levels))) == ListingOf(levels)
  {
    var e := SnapshotEdit(c, levels);
    var added := Meaning(c, e).added;
    SnapshotAdds(c, levels, 0);
    PairsMean(levels, 0);
    PairsOnce(levels, 0);
    assert added == FilePairs(levels, 0);
    SnapshotOk(c, levels);
    hide Known, EditCodec.EditOk, SnapshotItems, FilePairs, SortedFiles;
    forall p | p in added ensures 0 <= p.0 < NUM_LEVELS {
      assert p == (p.0, p.1);
    }
    forall p: (int, File) ensures p in Pairs(added) <==> p in ListingOf(levels) {
      assert p == (p.0, p.1);
    }
  }

  lemma SnapshotOk(c: Catalog, levels: Levels)
    requires AllKnown(c, levels) && |c.comparator| < TwoTo32
    requires forall i :: i in SnapshotItems(c, levels, 0) ==> EditCodec.ItemOk(i)
    ensures EditCodec.EditOk(SnapshotEdit(c, levels))
  {
    hide SnapshotItems, Known;
    var e := SnapshotEdit(c, levels);
    assert EditCodec.Items(e) == [EditCodec.Comparator(c.comparator)] + e.newFiles;
  }

  // ----- records -----

  function EditBytes(e: EditCodec.Edit): (r: seq<Byte>) {
    EditCodec.ItemsBytes(EditCodec.Items(e))
  }

  const NoEdit := EditCodec.Edit(None, None, None, None, None, [], [], [])

  /** The edit in a record, decoded into a new one. */
  function ReadEdit(record: seq<Byte>): (r: Option<EditCodec.Edit>) {
    var items := EditCodec.GetItems(record);
    if items.Some? then Some(EditCodec.ApplyAll(NoEdit, items.value)) else None
  }

  lemma EditRoundTrip(e: EditCodec.Edit)
    requires EditCodec.EditOk(e)
    ensures ReadEdit(EditBytes(e)) == Some(e)
  {
    EditCodec.DecodeInvertsEncode(e, NoEdit);
  }

  lemma {:induction false} ReadableEdit(e: EditCodec.Edit, items: seq<EditCodec.Item>)
    requires OnlyNewFiles(e.newFiles) && forall i :: i in items ==> EditCodec.LevelExists(i)
    ensures OnlyNewFiles(EditCodec.ApplyAll(e, items).newFiles)
    decreases |items|
  {
    if items != [] {
      ReadableEdit(EditCodec.Apply(e, items[0]), items[1..]);
    }
  }

  /** The edits of some records, or none if one cannot be decoded. */
  function ReadEdits(records: seq<seq<Byte>>): (r: Option<seq<EditCodec.Edit>>)
    ensures r.Some? ==> |r.value| == |records| && AllReadable(r.value)
  {
    if records == [] then Some([])
    else
      var n := |records| - 1;
      var before, last := ReadEdits(records[..n]), ReadEdit(records[n]);
      if before.None? || last.None? then None
      else
        ReadableEdit(NoEdit, EditCodec.GetItems(records[n]).value);
        Some(before.value + [last.value])
  }

  /** The numbers an edit may carry, each from the last edit that carries it. */
  datatype Counters = Counters(log: Option<nat>, prevLog: Option<nat>, next: Option<nat>, last: Option<nat>)

  function Noted(k: Counters, e: EditCodec.Edit): Counters {
    Counters(
      if e.logNumber.Some? then e.logNumber else k.log,
      if e.prevLogNumber.Some? then e.prevLogNumber else k.prevLog,
      if e.nextFileNumber.Some? then e.nextFileNumber else k.next,
      if e.lastSequence.Some? then e.lastSequence else k.last)
  }

  function NotedAll(edits: seq<EditCodec.Edit>): (r: Counters) {
    if edits == [] then Counters(None, None, None, None) else Noted(NotedAll(edits[..|edits| - 1]), edits[|edits| - 1])
  }

  predicate SameComparator(c: Catalog, e: EditCodec.Edit) {
    e.comparator.None? || e.comparator.value == c.comparator
  }

  // ----- recovery -----

  datatype Recovery = Corrupt | Recovered(levels: Levels, log: nat, prevLog: nat, nextFile: nat, lastSequence: nat)

  /** The records of a manifest, and that nothing was reported as damaged. */
  ghost function Readable(step: CrcStep, file: seq<Byte>): (r: Option<seq<EditCodec.Edit>>)
    ensures r.Some? ==> AllReadable(r.value)
  {
    var (records, reports) := LogReader.AllRecords(step, true, file, 0);
    if reports == 0 then ReadEdits(records) else None
  }

  ghost predicate Complete(c: Catalog, edits: seq<EditCodec.Edit>) {
    && (forall k :: 0 <= k < |edits| ==> SameComparator(c, edits[k]))
    && NotedAll(edits).next.Some? && NotedAll(edits).log.Some? && NotedAll(edits).last.Some?
  }

  /** What recovery has to yield for any file. */
  ghost predicate IsRecovery(c: Catalog, step: CrcStep, file: seq<Byte>, r: Recovery) {
    var edits := Readable(step, file);
    if edits.None? || !Complete(c, edits.value) then r.Corrupt? else Rebuilt(c, edits.value, r)
  }

  function NoFiles(): (r: Levels)
    ensures |r| == NUM_LEVELS && forall i :: 0 <= i < NUM_LEVELS ==> r[i] == []
  {
    seq(NUM_LEVELS, _ => [])
  }

  /** A builder on the empty version has applied all edits; the numbers are the latest ones. */
  ghost predicate Rebuilt(c: Catalog, edits: seq<EditCodec.Edit>, r: Recovery)
    requires AllReadable(edits) && Complete(c, edits)
  {
    var noted := NotedAll(edits);
    && r.Recovered? && |r.levels| == NUM_LEVELS && SortedLevels(r.levels)
    && ListingOf(r.levels) == Standing(NoFiles(), AppliedAll(NothingYet(), Meanings(c, edits)))
    && r.log == noted.log.value && r.nextFile == noted.next.value + 1 && r.lastSequence == noted.last.value
    && r.prevLog == if noted.prevLog.Some? then noted.prevLog.value else 0
  }

  // ----- what is written -----

  /** An edit as it is written: it carries all four numbers, and no foreign comparator. */
  ghost predicate Written(c: Catalog, e: EditCodec.Edit) {
    && EditCodec.EditOk(e) && SameComparator(c, e)
    && e.logNumber.Some? && e.prevLogNumber.Some? && e.nextFileNumber.Some? && e.lastSequence.Some?
  }

  ghost predicate AllWritten(c: Catalog, edits: seq<EditCodec.Edit>) {
    forall k :: 0 <= k < |edits| ==> Written(c, edits[k])
  }

  function Records(c: Catalog, base: Levels, edits: seq<EditCodec.Edit>): (r: seq<seq<Byte>>)
    requires AllKnown(c, base)
    ensures |r| == 1 + |edits|
  {
    [EditBytes(SnapshotEdit(c, base))] + seq(|edits|, (k: int) requires 0 <= k < |edits| => EditBytes(edits[k]))
  }

  /** Versions that were current one after the other, and the edits between them. */
  ghost predicate Installed(c: Catalog, versions: seq<Levels>, edits: seq<EditCodec.Edit>) {
    && |versions| == |edits| + 1 && Listable(c, versions[0]) && AllWritten(c, edits) && AllReadable(edits)
    && AddedOnce(ListingOf(versions[0]), Meanings(c, edits))
    && InstalledInTurn(versions, Meanings(c, edits))
  }

  /** `file` is what is left of a manifest of which `n` records are complete. */
  ghost predicate CutManifest(c: Catalog, step: CrcStep, versions: seq<Levels>, edits: seq<EditCodec.Edit>, n: nat,
      file: seq<Byte>) {
    && Installed(c, versions, edits)
    && var records := Records(c, versions[0], edits);
       file <= LogFrom(step, 0, records) && n == LogRoundTrip.Complete(step, 0, records, |file|)
  }

  lemma {:induction false} WrittenReads(c: Catalog, base: Levels, edits: seq<EditCodec.Edit>, n: nat)
    requires Listable(c, base) && AllWritten(c, edits) && 1 <= n <= 1 + |edits|
    ensures ReadEdits(Records(c, base, edits)[..n]) == Some([SnapshotEdit(c, base)] + edits[..n - 1])
  {
    hide EditBytes, ReadEdit, SnapshotEdit, Known, EditCodec.EditOk;
    var records := Records(c, base, edits);
    var e := if n == 1 then SnapshotEdit(c, base) else edits[n - 2];
    assert records[..n][..n - 1] == records[..n - 1] && records[..n][n - 1] == EditBytes(e);
    SnapshotLists(c, base);
    EditRoundTrip(e);
    if n == 1 {
      assert records[..0] == [] && edits[..0] == [];
      assert ReadEdits(records[..0]) == Some([]) && [] + [e] == [e] + edits[..0];
    } else {
      WrittenReads(c, base, edits, n - 1);
      var snapshot := SnapshotEdit(c, base);
      assert [snapshot] + edits[..n - 2] + [e] == [snapshot] + edits[..n - 1];
    }
  }

  /** An edit in front that lists the base stands for it. */
  lemma {:induction false} BaseFirst(files: Listing, first: Edit, edits: seq<Edit>)
    requires ApplyEdit({}, first) == files && FreshIn({}, first.added) && AddedOnce(files, edits)
    ensures ApplyEdits({}, [first] + edits) == ApplyEdits(files, edits)
    ensures AddedOnce({}, [first] + edits) && Seen({}, [first] + edits) == Seen(files, edits)
    decreases |edits|
  {
    var all, n := [first] + edits, |edits|;
    if edits == [] {
      assert all == [first] && all[..0] == [] && Pairs(first.added) == files;
    } else {
      BaseFirst(files, first, edits[..n - 1]);
      assert all[..n] == [first] + edits[..n - 1] && all[n] == edits[n - 1];
    }
  }

  lemma {:induction false} LastCounters(edits: seq<EditCodec.Edit>, c: Catalog)
    requires edits != [] && Written(c, edits[|edits| - 1])
    ensures var e := edits[|edits| - 1];
      NotedAll(edits) == Counters(e.logNumber, e.prevLogNumber, e.nextFileNumber, e.lastSequence)
  {
  }

  lemma MeaningsFirst(c: Catalog, first: EditCodec.Edit, edits: seq<EditCodec.Edit>)
    requires OnlyNewFiles(first.newFiles) && AllReadable(edits)
    ensures AllReadable([first] + edits) && Meanings(c, [first] + edits) == [Meaning(c, first)] + Meanings(c, edits)
  {
    hide Meaning;
  }

  lemma CutRecords(c: Catalog, step: CrcStep, versions: seq<Levels>, edits: seq<EditCodec.Edit>, n: nat,
      file: seq<Byte>)
    requires CutManifest(c, step, versions, edits, n, file)
    ensures n <= 1 + |edits| && AllKnown(c, versions[0])
    ensures LogReader.AllRecords(step, true, file, 0) == (Records(c, versions[0], edits)[..n], 0)
  {
    var records := Records(c, versions[0], edits);
    hide Listable, Written, LogFrom, LogRoundTrip.Complete, ReadEdit, InstalledInTurn, AddedOnce, LogReader.AllRecords;
    var log := LogFrom(step, 0, records);
    assert file == log[..|file|];
    LogRoundTrip.CrashSafe(step, true, records, |file|);
  }

  /** What the complete records of a cut manifest decode to. */
  lemma CutReads(c: Catalog, step: CrcStep, versions: seq<Levels>, edits: seq<EditCodec.Edit>, n: nat, file: seq<Byte>)
    requires CutManifest(c, step, versions, edits, n, file)
    ensures n <= 1 + |edits|
    ensures Readable(step, file) == if n == 0 then Some([]) else Some([SnapshotEdit(c, versions[0])] + edits[..n - 1])
  {
    CutRecords(c, step, versions, edits, n, file);
    hide Listable, Written, LogFrom, LogRoundTrip.Complete, ReadEdit, InstalledInTurn, AddedOnce, LogReader.AllRecords,
      Records;
    if n > 0 {
      WrittenReads(c, versions[0], edits, n);
    }
  }

  /** The edits that the complete records of a cut manifest mean, and their effect on the empty version. */
  lemma CutMeans(c: Catalog, versions: seq<Levels>, edits: seq<EditCodec.Edit>, n: nat)
    requires Installed(c, versions, edits) && 1 <= n <= 1 + |edits|
    ensures var read := [SnapshotEdit(c, versions[0])] + edits[..n - 1];
      && AllReadable(read) && AddedOnce({}, Meanings(c, read))
      && ApplyEdits({}, Meanings(c, read)) == ListingOf(versions[n - 1])
  {
    var first, some := SnapshotEdit(c, versions[0]), edits[..n - 1];
    hide Listable, Written, SnapshotEdit, Meaning;
    SnapshotLists(c, versions[0]);
    assert OnlyNewFiles(first.newFiles) by {
      SnapshotIsReadable(c, versions[0]);
    }
    assert Meanings(c, some) == Meanings(c, edits)[..n - 1];
    AddedOncePrefix(ListingOf(versions[0]), Meanings(c, edits), n - 1);
    InTurnMeans(versions, Meanings(c, edits), n - 1);
    MeaningsFirst(c, first, some);
    hide AddedOnce, ApplyEdit, FreshIn, ListingOf, ApplyEdits;
    BaseFirst(ListingOf(versions[0]), Meaning(c, first), Meanings(c, some));
  }

  /** A builder that has applied them stands for the version that was current after them. */
  lemma CutBuilds(c: Catalog, versions: seq<Levels>, edits: seq<EditCodec.Edit>, n: nat)
    requires Installed(c, versions, edits) && 1 <= n <= 1 + |edits|
    ensures var read := [SnapshotEdit(c, versions[0])] + edits[..n - 1];
      && AllReadable(read)
      && Standing(NoFiles(), AppliedAll(NothingYet(), Meanings(c, read))) == ListingOf(versions[n - 1])
  {
    CutMeans(c, versions, edits, n);
    var read := [SnapshotEdit(c, versions[0])] + edits[..n - 1];
    hide Installed, SnapshotEdit, AddedOnce, Standing, AppliedAll, ApplyEdits, ListingOf;
    EmptyListing();
    BuiltIsMeant(NoFiles(), Meanings(c, read));
  }

  lemma SnapshotIsReadable(c: Catalog, levels: Levels)
    requires AllKnown(c, levels)
    ensures OnlyNewFiles(SnapshotEdit(c, levels).newFiles)
  {
  }

  lemma SameLists(a: Levels, b: Levels)
    requires |a| == |b| == NUM_LEVELS && SortedLevels(a) && SortedLevels(b) && ListingOf(a) == ListingOf(b)
    ensures a == b
  {
    forall i | 0 <= i < NUM_LEVELS ensures a[i] == b[i] {
      forall f ensures f in a[i] <==> f in b[i] {
        assert f in a[i] <==> (i, f) in ListingOf(a);
        assert f in b[i] <==> (i, f) in ListingOf(b);
      }
      SortedUnique(a[i], b[i]);
    }
  }

  lemma SnapshotHasNoCounters(c: Catalog, levels: Levels)
    requires AllKnown(c, levels)
    ensures !Complete(c, [SnapshotEdit(c, levels)]) && SameComparator(c, SnapshotEdit(c, levels))
  {
    var e := SnapshotEdit(c, levels);
    assert [e][..0] == [];
    assert NotedAll([e]) == Noted(NotedAll([]), e);
  }

  /** The state that the edits installed so far left behind. */
  ghost predicate IsState(r: Recovery, levels: Levels, e: EditCodec.Edit) {
    && r.Recovered? && r.levels == levels && Some(r.log) == e.logNumber && Some(r.prevLog) == e.prevLogNumber
    && e.nextFileNumber.Some? && r.nextFile == e.nextFileNumber.value + 1 && Some(r.lastSequence) == e.lastSequence
  }

  /**
    Whatever prefix of the manifest is left, recovery yields the version and the numbers after the
    edits that are wholly inside it; without a complete edit it refuses the manifest.
   */
  lemma CrashRecovery(c: Catalog, step: CrcStep, versions: seq<Levels>, edits: seq<EditCodec.Edit>, n: nat,
      file: seq<Byte>, r: Recovery)
    requires CutManifest(c, step, versions, edits, n, file) && IsRecovery(c, step, file, r)
    ensures AfterCut(r, versions, edits, n)
  {
    hide CutManifest, Readable, Installed, SnapshotEdit, Rebuilt, Complete, AllKnown, IsState;
    CutIsInstalled(c, step, versions, edits, n, file);
    CutReads(c, step, versions, edits, n, file);
    if n == 0 {
      NothingNoted(c);
    } else if n == 1 {
      assert edits[..0] == [] && [SnapshotEdit(c, versions[0])] + [] == [SnapshotEdit(c, versions[0])];
      SnapshotHasNoCounters(c, versions[0]);
    } else {
      CutIsComplete(c, versions, edits, n);
      CutRebuilt(c, versions, edits, n, r);
    }
  }

  lemma NothingNoted(c: Catalog)
    ensures !Complete(c, [])
  {
  }

  lemma CutRebuilt(c: Catalog, versions: seq<Levels>, edits: seq<EditCodec.Edit>, n: nat, r: Recovery)
    requires Installed(c, versions, edits) && 2 <= n <= 1 + |edits|
    requires var read := [SnapshotEdit(c, versions[0])] + edits[..n - 1];
      AllReadable(read) && Complete(c, read) && Rebuilt(c, read, r)
    ensures IsState(r, versions[n - 1], edits[n - 2])
  {
    hide Installed, SnapshotEdit, Complete, ListingOf, ApplyEdits, Meanings, AddedOnce, SortedLevels, NotedAll,
      AllReadable, Standing, AppliedAll;
    CutBuilds(c, versions, edits, n);
    CutIsComplete(c, versions, edits, n);
    InstalledSorted(c, versions, edits, n - 1);
    SameLists(r.levels, versions[n - 1]);
  }

  lemma InstalledSorted(c: Catalog, versions: seq<Levels>, edits: seq<EditCodec.Edit>, n: nat)
    requires Installed(c, versions, edits) && n <= |edits|
    ensures |versions| == |edits| + 1 && |versions[n]| == NUM_LEVELS && SortedLevels(versions[n])
  {
  }

  lemma CutIsInstalled(c: Catalog, step: CrcStep, versions: seq<Levels>, edits: seq<EditCodec.Edit>, n: nat,
      file: seq<Byte>)
    requires CutManifest(c, step, versions, edits, n, file)
    ensures Installed(c, versions, edits) && AllKnown(c, versions[0]) && |versions| == 1 + |edits|
  {
  }

  lemma CutIsComplete(c: Catalog, versions: seq<Levels>, edits: seq<EditCodec.Edit>, n: nat)
    requires Installed(c, versions, edits) && 2 <= n <= 1 + |edits|
    ensures var read, e := [SnapshotEdit(c, versions[0])] + edits[..n - 1], edits[n - 2];
      && Complete(c, read) && NotedAll(read) == Counters(e.logNumber, e.prevLogNumber, e.nextFileNumber, e.lastSequence)
      && e.logNumber.Some? && e.prevLogNumber.Some? && e.nextFileNumber.Some? && e.lastSequence.Some?
  {
    var read := [SnapshotEdit(c, versions[0])] + edits[..n - 1];
    SnapshotHasNoCounters(c, versions[0]);
    hide Listable, AddedOnce, InstalledInTurn, EditCodec.EditOk, SnapshotEdit;
    assert Written(c, edits[n - 2]) && read[|read| - 1] == edits[n - 2];
    LastCounters(read, c);
    hide NotedAll;
    forall k | 0 <= k < |read| ensures SameComparator(c, read[k]) {
      assert k > 0 ==> read[k] == edits[k - 1] && Written(c, edits[k - 1]);
    }
  }

  lemma EmptyListing()
    ensures ListingOf(NoFiles()) == {}
  {
  }

  lemma {:induction false} ReadEditsPrefix(records: seq<seq<Byte>>, n: nat)
    requires n <= |records| && ReadEdits(records).Some?
    ensures ReadEdits(records[..n]) == Some(ReadEdits(records).value[..n])
    decreases |records|
  {
    hide ReadEdit;
    if n == |records| {
      assert records[..n] == records && ReadEdits(records).value[..n] == ReadEdits(records).value;
    } else {
      var m := |records| - 1;
      ReadEditsPrefix(records[..m], n);
      assert records[..m][..n] == records[..n];
      var before := ReadEdits(records[..m]).value;
      assert ReadEdits(records).value[..n] == before[..n];
    }
  }

  /** How far a loop over the records has come. */
  ghost predicate Midway(c: Catalog, records: seq<seq<Byte>>, edits: seq<EditCodec.Edit>, noted: Counters,
      states: seq<LevelState>) {
    && |edits| <= |records| && ReadEdits(records[..|edits|]) == Some(edits) && AllReadable(edits)
    && noted == NotedAll(edits)
    && (forall k :: 0 <= k < |edits| ==> SameComparator(c, edits[k]))
    && states == AppliedAll(NothingYet(), Meanings(c, edits))
  }

  lemma MidwayBegins(c: Catalog, records: seq<seq<Byte>>)
    ensures Midway(c, records, [], Counters(None, None, None, None), NothingYet())
  {
    assert records[..0] == [];
  }

  lemma NextRead(records: seq<seq<Byte>>, edits: seq<EditCodec.Edit>)
    requires |edits| < |records| && ReadEdits(records[..|edits|]) == Some(edits)
    ensures var e := ReadEdit(records[|edits|]);
      ReadEdits(records[..|edits| + 1]) == if e.Some? then Some(edits + [e.value]) else None
  {
    var n := |edits|;
    hide ReadEdit;
    assert records[..n + 1][..n] == records[..n] && records[..n + 1][n] == records[n];
  }

  lemma MeaningsMore(c: Catalog, edits: seq<EditCodec.Edit>, e: EditCodec.Edit)
    requires AllReadable(edits) && OnlyNewFiles(e.newFiles)
    ensures AllReadable(edits + [e]) && Meanings(c, edits + [e]) == Meanings(c, edits) + [Meaning(c, e)]
  {
    hide Meaning;
  }

  lemma OneEditMore(states: seq<LevelState>, edits: seq<Edit>, e: Edit)
    requires |states| == NUM_LEVELS && AllInRange(edits) && LevelsInRange(e.added)
    ensures AllInRange(edits + [e]) && AppliedAll(states, edits + [e]) == Applied(AppliedAll(states, edits), e)
  {
    assert (edits + [e])[..|edits|] == edits;
  }

  lemma DecodedReadable(record: seq<Byte>)
    requires ReadEdit(record).Some?
    ensures OnlyNewFiles(ReadEdit(record).value.newFiles)
  {
    ReadableEdit(NoEdit, EditCodec.GetItems(record).value);
  }

  lemma MidwayStep(c: Catalog, records: seq<seq<Byte>>, edits: seq<EditCodec.Edit>, noted: Counters,
      states: seq<LevelState>, e: EditCodec.Edit)
    requires Midway(c, records, edits, noted, states) && |edits| < |records|
    requires ReadEdit(records[|edits|]) == Some(e) && SameComparator(c, e)
    ensures OnlyNewFiles(e.newFiles) && |states| == NUM_LEVELS
    ensures Midway(c, records, edits + [e], Noted(noted, e), Applied(states, Meaning(c, e)))
  {
    DecodedReadable(records[|edits|]);
    NextRead(records, edits);
    MeaningsMore(c, edits, e);
    OneEditMore(NothingYet(), Meanings(c, edits), Meaning(c, e));
    assert (edits + [e])[..|edits|] == edits;
    hide ReadEdit, Meaning, AppliedAll, Applied, SameComparator;
  }

  /** A record that cannot be decoded, or names another comparator, makes the whole manifest unusable. */
  lemma MidwayFails(c: Catalog, records: seq<seq<Byte>>, edits: seq<EditCodec.Edit>, noted: Counters,
      states: seq<LevelState>)
    requires Midway(c, records, edits, noted, states) && |edits| < |records|
    requires var e := ReadEdit(records[|edits|]); e.None? || !SameComparator(c, e.value)
    ensures ReadEdits(records).None? || !Complete(c, ReadEdits(records).value)
  {
    NextRead(records, edits);
    hide ReadEdit, NotedAll, SameComparator, Midway;
    if ReadEdits(records).Some? {
      ReadEditsPrefix(records, |edits| + 1);
      var all := ReadEdits(records).value;
      assert all[|edits|] == all[..|edits| + 1][|edits|];
    }
  }

  lemma MidwayEnds(c: Catalog, records: seq<seq<Byte>>, edits: seq<EditCodec.Edit>, noted: Counters,
      states: seq<LevelState>)
    requires Midway(c, records, edits, noted, states) && |edits| == |records|
    ensures ReadEdits(records) == Some(edits) && |states| == NUM_LEVELS
    ensures Complete(c, edits) <==> noted.next.Some? && noted.log.Some? && noted.last.Some?
  {
    assert records[..|records|] == records;
    hide ReadEdit, AppliedAll;
  }

  /** The state that recovery has to yield from a manifest of which `n` records are complete. */
  ghost predicate AfterCut(r: Recovery, versions: seq<Levels>, edits: seq<EditCodec.Edit>, n: nat) {
    && n <= 1 + |edits| == |versions| && (n < 2 ==> r.Corrupt?)
    && (n >= 2 ==> IsState(r, versions[n - 1], edits[n - 2]))
  }

  /** Rebuild the version from what is left of a manifest. */
  method Recover(c: Catalog, step: CrcStep, file: seq<Byte>) returns (r: Recovery)
    ensures IsRecovery(c, step, file, r)
    ensures forall versions, edits, n: nat :: CutManifest(c, step, versions, edits, n, file) ==>
      AfterCut(r, versions, edits, n)
  {
    hide *;
    r := Rebuild(c, step, file);
    forall versions, edits, n: nat | CutManifest(c, step, versions, edits, n, file)
      ensures AfterCut(r, versions, edits, n)
    {
      CrashRecovery(c, step, versions, edits, n, file, r);
    }
  }

  method Rebuild(c: Catalog, step: CrcStep, file: seq<Byte>) returns (r: Recovery)
    ensures IsRecovery(c, step, file, r)
  {
    hide *;
    var records, reports := LogReader.ReadLog(step, true, file);
    if reports > 0 {
      Refused(c, step, file);
      return Corrupt;
    }
    var builder := NewBuilder();
    var noted := Counters(None, None, None, None);
    ghost var edits: seq<EditCodec.Edit> := [];
    MidwayBegins(c, records);
    for i := 0 to |records|
      invariant builder.Valid() && fresh(builder) && builder.base == NoFiles() && |edits| == i
      invariant Midway(c, records, edits, noted, builder.states)
    {
      var e := DecodeRecord(records[i]);
      if e.None? || !SameComparator(c, e.value) {
        MidwayFails(c, records, edits, noted, builder.states);
        Refused(c, step, file);
        return Corrupt;
      }
      MidwayStep(c, records, edits, noted, builder.states, e.value);
      builder.Apply(Meaning(c, e.value));
      noted := Noted(noted, e.value);
      edits := edits + [e.value];
    }
    MidwayEnds(c, records, edits, noted, builder.states);
    if noted.next.None? || noted.log.None? || noted.last.None? {
      Refused(c, step, file);
      return Corrupt;
    }
    var levels := builder.SaveTo();
    NothingToShare(builder.states);
    r := Recovered(levels, noted.log.value, if noted.prevLog.Some? then noted.prevLog.value else 0,
                   noted.next.value + 1, noted.last.value);
    Accepted(c, step, file, records, edits, noted, builder.states, r);
  }

  /** Decode a record into a new edit. */
  method DecodeRecord(record: seq<Byte>) returns (e: Option<EditCodec.Edit>)
    ensures e == ReadEdit(record)
  {
    var edit := new EditCodec.VersionEdit();
    var ok := edit.DecodeFrom(record);
    return if ok then Some(edit.e) else None;
  }

  method NewBuilder() returns (b: Builder)
    ensures fresh(b) && b.Valid() && b.base == NoFiles() && b.states == NothingYet()
  {
    b := new Builder(NoFiles());
  }

  lemma NothingToShare(states: seq<LevelState>)
    requires |states| == NUM_LEVELS
    ensures NumbersApart(NoFiles(), states)
  {
  }

  lemma Refused(c: Catalog, step: CrcStep, file: seq<Byte>)
    requires var all := LogReader.AllRecords(step, true, file, 0);
      all.1 > 0 || ReadEdits(all.0).None? || !Complete(c, ReadEdits(all.0).value)
    ensures IsRecovery(c, step, file, Corrupt)
  {
  }

  lemma Accepted(c: Catalog, step: CrcStep, file: seq<Byte>, records: seq<seq<Byte>>, edits: seq<EditCodec.Edit>,
      noted: Counters, states: seq<LevelState>, r: Recovery)
    requires LogReader.AllRecords(step, true, file, 0) == (records, 0) && ReadEdits(records) == Some(edits)
    requires Complete(c, edits)
    requires Midway(c, records, edits, noted, states) && noted.next.Some? && noted.log.Some? && noted.last.Some?
    requires r.Recovered? && |r.levels| == NUM_LEVELS && SortedLevels(r.levels)
    requires ListingOf(r.levels) == Standing(NoFiles(), states)
    requires r.log == noted.log.value && r.nextFile == noted.next.value + 1
    requires r.lastSequence == noted.last.value && r.prevLog == if noted.prevLog.Some? then noted.prevLog.value else 0
    ensures IsRecovery(c, step, file, r)
  {
    hide LogReader.AllRecords, ReadEdits, NotedAll, AppliedAll, Standing, Meanings, ListingOf;
  }

  // ----- installing edits -----

  /** An edit with the numbers that installing it fills in. */
  function Filled(e: EditCodec.Edit, log: nat, prevLog: nat, next: nat, last: nat): EditCodec.Edit {
    e.(logNumber := if e.logNumber.Some? then e.logNumber else Some(log),
       prevLogNumber := if e.prevLogNumber.Some? then e.prevLogNumber else Some(prevLog),
       nextFileNumber := Some(next), lastSequence := Some(last))
  }

  /** An edit that may be installed: it can be written, adds known files, and gives no number to a level twice. */
  ghost predicate MayInstall(c: Catalog, seen: Listing, e: EditCodec.Edit) {
    && Written(c, e) && OnlyNewFiles(e.newFiles) && FreshIn(seen, Meaning(c, e).added)
    && forall p :: p in Meaning(c, e).added ==> Known(c, p.1)
  }

  /** A manifest that holds `versions[0]` and `edits`, when `versions` were current in turn. */
  ghost predicate Holds(c: Catalog, step: CrcStep, dest: seq<Byte>, versions: seq<Levels>, edits: seq<EditCodec.Edit>) {
    Installed(c, versions, edits) && dest == LogFrom(step, 0, Records(c, versions[0], edits))
  }

  /** All that was ever listed. */
  ghost function Ever(c: Catalog, versions: seq<Levels>, edits: seq<EditCodec.Edit>): Listing
    requires Installed(c, versions, edits)
  {
    Seen(ListingOf(versions[0]), Meanings(c, edits))
  }

  lemma {:induction false} ListedIsSeen(files: Listing, edits: seq<Edit>)
    ensures ApplyEdits(files, edits) <= Seen(files, edits)
  {
    if edits != [] {
      ListedIsSeen(files, edits[..|edits| - 1]);
    }
  }

  lemma OneMoreInstalled(c: Catalog, versions: seq<Levels>, edits: seq<EditCodec.Edit>, e: EditCodec.Edit,
      levels: Levels)
    requires Installed(c, versions, edits) && MayInstall(c, Ever(c, versions, edits), e)
    requires |levels| == NUM_LEVELS && SortedLevels(levels)
    requires ListingOf(levels) == ApplyEdit(ListingOf(versions[|edits|]), Meaning(c, e))
    ensures Installed(c, versions + [levels], edits + [e])
  {
    MeaningsMore(c, edits, e);
    var before, all := Meanings(c, edits), Meanings(c, edits + [e]);
    assert all[..|edits|] == before && all[|edits|] == Meaning(c, e);
    hide Listable, Written, Meaning, ListingOf, ApplyEdit, SortedLevels, FreshIn, Meanings;
  }

  lemma OneMoreRecord(c: Catalog, step: CrcStep, base: Levels, edits: seq<EditCodec.Edit>, e: EditCodec.Edit)
    requires AllKnown(c, base)
    ensures var log := LogFrom(step, 0, Records(c, base, edits));
      LogFrom(step, 0, Records(c, base, edits + [e])) == log + Layout(step, |log|, EditBytes(e), true)
  {
    hide LogFrom, Layout, EditBytes, AllKnown;
    LogAppend(step, 0, Records(c, base, edits), EditBytes(e));
    assert Records(c, base, edits + [e]) == Records(c, base, edits) + [EditBytes(e)];
  }

  lemma FirstRecord(c: Catalog, step: CrcStep, base: Levels)
    requires AllKnown(c, base)
    ensures LogFrom(step, 0, Records(c, base, [])) == Layout(step, 0, EditBytes(SnapshotEdit(c, base)), true)
  {
    var record := EditBytes(SnapshotEdit(c, base));
    assert Records(c, base, []) == [record];
    hide Layout, EditBytes, SnapshotEdit, Records;
    var none: seq<seq<Byte>> := [];
    LogAppend(step, 0, none, record);
    assert none + [record] == [record] && LogFrom(step, 0, none) == [];
    assert [] + Layout(step, 0, record, true) == Layout(step, 0, record, true);
  }

  /** A version that can be listed stays one when an edit that may be installed is applied. */
  lemma StaysListable(c: Catalog, levels: Levels, seen: Listing, e: EditCodec.Edit, levels': Levels)
    requires Listable(c, levels) && ListingOf(levels) <= seen && MayInstall(c, seen, e)
    requires |levels'| == NUM_LEVELS && SortedLevels(levels')
    requires ListingOf(levels') == ApplyEdit(ListingOf(levels), Meaning(c, e))
    ensures Listable(c, levels')
  {
    var added := Meaning(c, e).added;
    hide Known, Written, SortedLevels, EditCodec.EditOk, Meaning;
    forall i, f | At(levels', i, f) ensures Known(c, f) {
      FromEither(levels, added, levels', i, f, Meaning(c, e));
    }
    forall i, f, g | At(levels', i, f) && At(levels', i, g) && f.number == g.number ensures f == g {
      FromEither(levels, added, levels', i, f, Meaning(c, e));
      FromEither(levels, added, levels', i, g, Meaning(c, e));
      if (i, f) in added && (i, g) in added {
        OneOfNumber(added, (i, f), (i, g), seen);
      }
    }
  }

  lemma FromEither(levels: Levels, added: seq<(int, File)>, levels': Levels, i: int, f: File, edit: Edit)
    requires At(levels', i, f) && ListingOf(levels') == ApplyEdit(ListingOf(levels), edit) && added == edit.added
    ensures (i, f) in added || (At(levels, i, f) && (i, f) in ListingOf(levels))
  {
    assert (i, f) in ListingOf(levels');
  }

  lemma OneOfNumber(added: seq<(int, File)>, p: (int, File), q: (int, File), seen: Listing)
    requires p in added && q in added && FreshIn(seen, added) && p.0 == q.0 && p.1.number == q.1.number
    ensures p == q
  {
    var i :| 0 <= i < |added| && added[i] == p;
    var j :| 0 <= j < |added| && added[j] == q;
  }

  ghost predicate Sorted(levels: Levels) {
    |levels| == NUM_LEVELS && forall i :: 0 <= i < NUM_LEVELS ==> SortedFiles(levels[i])
  }

  /** What installing needs of the current version. */
  lemma MayBeApplied(c: Catalog, versions: seq<Levels>, edits: seq<EditCodec.Edit>, e: EditCodec.Edit, levels: Levels)
    requires Installed(c, versions, edits) && versions[|edits|] == levels && MayInstall(c, Ever(c, versions, edits), e)
    ensures Sorted(levels) && OnlyNewFiles(e.newFiles) && FreshIn(ListingOf(levels), Meaning(c, e).added)
    ensures ListingOf(levels) <= Ever(c, versions, edits)
    ensures e.logNumber.Some? && e.prevLogNumber.Some?
  {
    var all := Meanings(c, edits);
    InTurnMeans(versions, all, |edits|);
    assert all[..|edits|] == all;
    ListedIsSeen(ListingOf(versions[0]), all);
    hide Listable, ListingOf, Meaning, Meanings, ApplyEdits, Seen, Known, EditCodec.EditOk, SortedFiles;
  }

  /** One more record and one more version. */
  lemma HoldsMore(c: Catalog, step: CrcStep, dest: seq<Byte>, versions: seq<Levels>, edits: seq<EditCodec.Edit>,
      e: EditCodec.Edit, levels: Levels)
    requires Holds(c, step, dest, versions, edits) && MayInstall(c, Ever(c, versions, edits), e)
    requires Listable(c, versions[|edits|]) && Sorted(levels)
    requires ListingOf(levels) == ApplyEdit(ListingOf(versions[|edits|]), Meaning(c, e))
    ensures Holds(c, step, dest + Layout(step, |dest|, EditBytes(e), true), versions + [levels], edits + [e])
    ensures Listable(c, levels) && (versions + [levels])[|edits| + 1] == levels
  {
    MayBeApplied(c, versions, edits, e, versions[|edits|]);
    assert AllKnown(c, versions[0]) && |versions| == |edits| + 1;
    assert SortedLevels(levels);
    hide Listable, Installed, MayInstall, Ever, Records, Meaning, ListingOf, ApplyEdit, LogFrom, Layout, EditBytes,
      SortedLevels, AllKnown;
    StaysListable(c, versions[|edits|], Ever(c, versions, edits), e, levels);
    OneMoreInstalled(c, versions, edits, e, levels);
    OneMoreRecord(c, step, versions[0], edits, e);
    assert (versions + [levels])[0] == versions[0];
  }

  lemma HoldsFirst(c: Catalog, step: CrcStep, levels: Levels)
    requires Listable(c, levels)
    ensures AllKnown(c, levels)
    ensures Holds(c, step, Layout(step, 0, EditBytes(SnapshotEdit(c, levels)), true), [levels], [])
  {
    NothingInstalled(c, levels);
    FirstRecord(c, step, levels);
  }

  class VersionSet {
    const c: Catalog
    const step: CrcStep
    var levels: Levels
    var logNumber: nat
    var prevLogNumber: nat
    var nextFileNumber: nat
    var lastSequence: nat
    var log: LogWriter.Writer?
    ghost var versions: seq<Levels>
    ghost var edits: seq<EditCodec.Edit>

    /** The manifest, once there is one, holds the version it began with and all edits installed since. */
    ghost predicate Valid()
      reads this, log
    {
      && Listable(c, levels)
      && (log == null ==> versions == [levels] && edits == [])
      && (log != null ==> log.Valid() && log.step == step && Holds(c, step, log.dest, versions, edits))
      && Installed(c, versions, edits) && versions[|edits|] == levels
    }

    /** A version set with no manifest open yet, as after creating or recovering a database. */
    constructor (c: Catalog, step: CrcStep, levels: Levels, logNumber: nat, prevLogNumber: nat, nextFileNumber: nat,
        lastSequence: nat)
      requires Listable(c, levels)
      ensures Valid() && log == null && this.levels == levels && this.c == c && this.step == step
      ensures this.logNumber == logNumber && this.prevLogNumber == prevLogNumber
      ensures this.nextFileNumber == nextFileNumber && this.lastSequence == lastSequence
    {
      this.c, this.step, this.levels, log := c, step, levels, null;
      this.logNumber, this.prevLogNumber := logNumber, prevLogNumber;
      this.nextFileNumber, this.lastSequence := nextFileNumber, lastSequence;
      versions, edits := [levels], [];
      NothingInstalled(c, levels);
    }

    function ToInstall(e: EditCodec.Edit): EditCodec.Edit
      reads this
    {
      Filled(e, logNumber, prevLogNumber, nextFileNumber, lastSequence)
    }

    /** Open a new manifest that begins with a snapshot of the current version. */
    method OpenManifest()
      requires Valid() && log == null
      modifies this`log
      ensures Valid() && log != null && fresh(log)
    {
      HoldsFirst(c, step, levels);
      hide Listable, LogFrom, Layout, EditBytes, Holds, SnapshotEdit, Installed;
      var writer := new LogWriter.Writer(step, []);
      var record := EncodeEdit(SnapshotEdit(c, levels));
      writer.AddRecord(record);
      assert [] + Layout(step, 0, record, true) == Layout(step, 0, record, true);
      log := writer;
    }

    /** Build the next version, record the edit in the manifest, and make the version current. */
    method LogAndApply(e: EditCodec.Edit)
      requires Valid() && MayInstall(c, Ever(c, versions, edits), ToInstall(e))
      modifies this, log
      ensures Valid() && log != null && (old(log) != null ==> log == old(log)) && (old(log) == null ==> fresh(log))
      ensures versions == old(versions) + [levels] && edits == old(edits) + [old(ToInstall(e))]
      ensures ListingOf(levels) == ApplyEdit(old(ListingOf(levels)), Meaning(c, old(ToInstall(e))))
      ensures Some(logNumber) == edits[|edits| - 1].logNumber && Some(prevLogNumber) == edits[|edits| - 1].prevLogNumber
      ensures nextFileNumber == old(nextFileNumber) && lastSequence == old(lastSequence)
    {
      hide Listable, LogFrom, Layout, EditBytes, Holds, Installed, MayInstall, Ever, Meaning, ListingOf, ApplyEdit,
        SortedFiles, FreshIn;
      var edit := ToInstall(e);
      MayBeApplied(c, versions, edits, edit, levels);
      var levels' := VersionBuilder.BuildNext(levels, Meaning(c, edit));
      if log == null {
        OpenManifest();
      }
      var record := EncodeEdit(edit);
      HoldsMore(c, step, log.dest, versions, edits, edit, levels');
      log.AddRecord(record);
      levels := levels';
      logNumber, prevLogNumber := edit.logNumber.value, edit.prevLogNumber.value;
      versions, edits := versions + [levels'], edits + [edit];
      HoldsIsInstalled(c, step, log.dest, versions, edits);
    }
  }

  lemma HoldsIsInstalled(c: Catalog, step: CrcStep, dest: seq<Byte>, versions: seq<Levels>, edits: seq<EditCodec.Edit>)
    requires Holds(c, step, dest, versions, edits)
    ensures Installed(c, versions, edits) && |versions| == |edits| + 1
  {
  }

  method EncodeEdit(e: EditCodec.Edit) returns (record: seq<Byte>)
    ensures record == EditBytes(e)
  {
    var edit := new EditCodec.VersionEdit();
    edit.e := e;
    record := edit.EncodeTo();
  }

  lemma NothingInstalled(c: Catalog, levels: Levels)
    requires Listable(c, levels)
    ensures Installed(c, [levels], [])
  {
  }
}
