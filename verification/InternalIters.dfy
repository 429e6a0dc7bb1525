/**
  The internal iterator of the database: a merging iterator over the memtables, the files of level 0
  and one run for each deeper level.  It runs over everything the tree holds.
 */
module InternalIters {
  import opened Basics
  import opened InternalKeys
  import opened LsmTree
  import opened CompactionWork
  import opened MergingIter
  import opened TwoLevelIters

  // ----- the files of a level -----

  lemma {:induction false} LevelSorted(fs: seq<File>)
    requires ValidFiles(fs) && SortedFiles(fs) && AllApart(fs)
    ensures SortedEntries(Concat(fs))
  {
    if fs != [] {
      var n := |fs| - 1;
      var front, last := fs[..n], fs[n];
      assert forall f :: f in front ==> f in fs;
      LevelSorted(front);
      ConcatContents(front);
      forall x, y | x in Concat(front) && y in last.entries ensures Before(x.key, y.key) {
        var f :| f in front && x in f.entries;
        var i :| 0 <= i < n && fs[i] == f;
        DisjointInOrder(fs, i, n);
        assert last in fs;
        BoundsOf(f, x);
        BoundsOf(last, y);
      }
      assert last in fs;
      SortedJoin(Concat(front), last.entries);
    }
  }

  lemma SortedJoin(a: seq<Entry>, b: seq<Entry>)
    requires SortedEntries(a) && SortedEntries(b) && forall x, y :: x in a && y in b ==> Before(x.key, y.key)
    ensures SortedEntries(a + b)
  {
  }

  /** A file is asked for by its number and size. */
  function FileItem(f: File): IndexItem<(nat, nat)> {
    IndexItem(f.largest, (f.number, f.size))
  }

  function FileItems(fs: seq<File>): (r: seq<IndexItem<(nat, nat)>>)
    ensures |r| == |fs| && forall i :: 0 <= i < |fs| ==> r[i] == FileItem(fs[i])
  {
    seq(|fs|, (i: int) requires 0 <= i < |fs| => FileItem(fs[i]))
  }

  ghost predicate NumbersDiffer(fs: seq<File>) {
    forall f, g :: f in fs && g in fs && f.number == g.number ==> f == g
  }

  /** The tables by number and size. */
  function FileStore(fs: seq<File>): (r: map<(nat, nat), seq<Entry>>)
    requires NumbersDiffer(fs)
    ensures forall f :: f in fs ==> (f.number, f.size) in r && r[(f.number, f.size)] == f.entries
  {
    map f | f in fs :: (f.number, f.size) := f.entries
  }

  lemma LevelIndexed(fs: seq<File>)
    requires ValidFiles(fs) && SortedFiles(fs) && AllApart(fs) && NumbersDiffer(fs)
    ensures Indexed(FileItems(fs), FileStore(fs))
    ensures Flat(Fetched(FileItems(fs), FileStore(fs))) == Concat(fs)
  {
    hide ValidFile, SortedFiles, AllApart, Before, NumbersDiffer, FileStore, Flat, Concat;
    var items, store := FileItems(fs), FileStore(fs);
    forall i, e: Entry | 0 <= i < |items| && e in store[items[i].handle] ensures !Before(items[i].key, e.key) {
      assert fs[i] in fs;
      NotAfterLargest(fs[i], e);
    }
    forall i, j, e: Entry | 0 <= i < j < |items| && e in store[items[j].handle] ensures Before(items[i].key, e.key) {
      assert fs[i] in fs && fs[j] in fs;
      DisjointInOrder(fs, i, j);
      AfterSmallest(fs[j], e, fs[i].largest);
    }
    FetchedFiles(fs, Fetched(items, store));
  }

  lemma NotAfterLargest(f: File, e: Entry)
    requires ValidFile(f) && e in f.entries
    ensures !Before(f.largest, e.key)
  {
    BoundsOf(f, e);
  }

  lemma AfterSmallest(f: File, e: Entry, k: InternalKey)
    requires ValidFile(f) && e in f.entries && Before(k, f.smallest)
    ensures Before(k, e.key)
  {
    BoundsOf(f, e);
  }

  lemma {:induction false} FetchedFiles(fs: seq<File>, blocks: seq<seq<Entry>>)
    requires |blocks| == |fs| && forall i :: 0 <= i < |fs| ==> blocks[i] == fs[i].entries
    ensures Flat(blocks) == Concat(fs)
  {
    if fs != [] {
      FetchedFiles(fs[..|fs| - 1], blocks[..|fs| - 1]);
    }
  }

  /** The iterator of a deeper level runs over the entries of its files in order. */
  method NewConcatenatingIterator(fs: seq<File>) returns (iter: TwoLevelIterator<(nat, nat)>)
    requires ValidFiles(fs) && SortedFiles(fs) && AllApart(fs) && NumbersDiffer(fs)
    ensures fresh(iter) && iter.Valid() && iter.All() == Concat(fs)
  {
    LevelIndexed(fs);
    LevelSorted(fs);
    hide Indexed, Flat, SortedEntries, Concat, ValidFiles, SortedFiles, AllApart;
    iter := new TwoLevelIterator(FileItems(fs), FileStore(fs));
  }

  // ----- all of the tree -----

  /** `e` is in a memtable, in a level above `level`, or in one of the first `n` files of `level`. */
  ghost predicate Covered(db: Db, level: nat, n: nat, e: Entry) {
    || e in db.mem || e in db.ImmEntries()
    || (exists i, f :: At(db.levels, i, f) && i < level && e in f.entries)
    || (level < |db.levels| && n <= |db.levels[level]| && exists f :: f in db.levels[level][..n] && e in f.entries)
  }

  lemma FreshFile(db: Db, n: nat, x: Entry, y: Entry)
    requires Structured(db) && n < |db.levels[0]| && Covered(db, 0, n, x) && y in db.levels[0][n].entries
    ensures x.key != y.key
  {
    var g := db.levels[0][n];
    assert At(db.levels, 0, g);
    if x !in db.mem && x !in db.ImmEntries() {
      var f :| f in db.levels[0][..n] && x in f.entries;
      var i :| 0 <= i < n && db.levels[0][i] == f;
      assert At(db.levels, 0, f) && FileBefore(db.levels[0][i], g);
      assert f.number != g.number;
      assert Newer(f.entries, g.entries) || Newer(g.entries, f.entries);
    }
  }

  lemma FreshLevel(db: Db, level: nat, x: Entry, y: Entry)
    requires Structured(db) && level < NUM_LEVELS && Covered(db, level, 0, x) && y in Concat(db.levels[level])
    ensures x.key != y.key
  {
    ConcatContents(db.levels[level]);
    var g :| g in db.levels[level] && y in g.entries;
    assert At(db.levels, level, g);
    if x !in db.mem && x !in db.ImmEntries() {
      var i, f :| At(db.levels, i, f) && i < level && x in f.entries;
      assert Newer(f.entries, g.entries);
    }
  }

  lemma CoverFile(db: Db, n: nat, e: Entry)
    requires |db.levels| == NUM_LEVELS && n < |db.levels[0]|
    ensures Covered(db, 0, n + 1, e) <==> Covered(db, 0, n, e) || e in db.levels[0][n].entries
  {
    assert db.levels[0][..n + 1] == db.levels[0][..n] + [db.levels[0][n]];
  }

  lemma CoverLevelZero(db: Db, e: Entry)
    requires |db.levels| == NUM_LEVELS
    ensures Covered(db, 0, |db.levels[0]|, e) <==> Covered(db, 1, 0, e)
  {
    var files := db.levels[0];
    assert files[..|files|] == files;
    if f :| f in files && e in f.entries {
      assert At(db.levels, 0, f);
    }
  }

  lemma CoverLevel(db: Db, level: nat, e: Entry)
    requires |db.levels| == NUM_LEVELS && level < NUM_LEVELS
    ensures Covered(db, level + 1, 0, e) <==> Covered(db, level, 0, e) || e in Concat(db.levels[level])
  {
    ConcatContents(db.levels[level]);
    if f :| f in db.levels[level] && e in f.entries {
      assert At(db.levels, level, f);
    }
    if i, f :| At(db.levels, i, f) && i < level + 1 && e in f.entries {
      assert i == level ==> f in db.levels[level];
    }
  }

  lemma LevelRuns(db: Db, level: nat)
    requires Structured(db) && level < NUM_LEVELS
    ensures level >= 1 ==> SortedEntries(Concat(db.levels[level]))
    ensures forall f :: f in db.levels[level] ==> SortedEntries(f.entries)
  {
    LevelOf(db.levels, db.nextFile, level);
    if level >= 1 {
      LevelSorted(db.levels[level]);
    }
  }

  lemma MemRuns(db: Db)
    requires Structured(db)
    ensures |db.levels| == NUM_LEVELS && SortedEntries(db.mem) && SortedEntries(db.ImmEntries())
    ensures forall x, y :: x in db.mem && y in db.ImmEntries() ==> x.key != y.key
  {
  }

  /** Collect a run for each source of entries and merge them: nothing is missing, and nothing else is there. */
  method NewInternalIterator(mem: seq<Entry>, imm: Option<seq<Entry>>, levels: seq<seq<File>>, ghost db: Db)
    returns (iter: MergingIterator)
    requires Structured(db) && db.mem == mem && db.imm == imm && db.levels == levels
    ensures fresh(iter) && iter.Valid() && forall e :: e in iter.all <==> InTree(db, e)
  {
    hide Structured, Union, SortedEntries, Covered, InTree, MergeEntries, Concat;
    MemRuns(db);
    EmptyUnion();
    UnionGrows([], [], mem);
    var runs := [] + [mem];
    ghost var all := MergeEntries([], mem);
    if imm.Some? {
      UnionGrows(runs, all, imm.value);
      runs, all := runs + [imm.value], MergeEntries(all, imm.value);
    }
    CoverMem(db);
    runs, all := AddFiles(levels[0], runs, all, db);
    runs, all := AddLevels(levels, runs, all, db);
    CoverAll(db);
    iter := new MergingIterator(runs, all);
  }

  lemma CoverMem(db: Db)
    requires |db.levels| == NUM_LEVELS
    ensures forall e :: Covered(db, 0, 0, e) <==> e in db.mem || (db.imm.Some? && e in db.imm.value)
  {
  }

  lemma CoverAll(db: Db)
    requires |db.levels| == NUM_LEVELS
    ensures forall e :: Covered(db, NUM_LEVELS, 0, e) <==> InTree(db, e)
  {
  }

  /** Level 0: each file is a run, since files may overlap. */
  method AddFiles(files: seq<File>, runs: seq<seq<Entry>>, ghost all: seq<Entry>, ghost db: Db)
    returns (more: seq<seq<Entry>>, ghost all': seq<Entry>)
    requires Structured(db) && |db.levels| == NUM_LEVELS && files == db.levels[0] && Union(runs, all)
    requires forall e :: e in all <==> Covered(db, 0, 0, e)
    ensures Union(more, all') && forall e :: e in all' <==> Covered(db, 1, 0, e)
  {
    hide Structured, Union, SortedEntries, Covered, InTree, MergeEntries, Concat;
    LevelRuns(db, 0);
    more, all' := runs, all;
    for n := 0 to |files|
      invariant Union(more, all') && forall e :: e in all' <==> Covered(db, 0, n, e)
    {
      var run := files[n].entries;
      assert files[n] in files;
      forall x, y | x in all' && y in run ensures x.key != y.key {
        FreshFile(db, n, x, y);
      }
      forall e ensures Covered(db, 0, n + 1, e) <==> Covered(db, 0, n, e) || e in run {
        CoverFile(db, n, e);
      }
      UnionGrows(more, all', run);
      more, all' := more + [run], MergeEntries(all', run);
    }
    forall e ensures Covered(db, 0, |files|, e) <==> Covered(db, 1, 0, e) {
      CoverLevelZero(db, e);
    }
  }

  /** Deeper levels: one run each, unless the level is empty. */
  method AddLevels(levels: seq<seq<File>>, runs: seq<seq<Entry>>, ghost all: seq<Entry>, ghost db: Db)
    returns (more: seq<seq<Entry>>, ghost all': seq<Entry>)
    requires Structured(db) && |levels| == NUM_LEVELS && levels == db.levels && Union(runs, all)
    requires forall e :: e in all <==> Covered(db, 1, 0, e)
    ensures Union(more, all') && forall e :: e in all' <==> Covered(db, NUM_LEVELS, 0, e)
  {
    hide Structured, Union, SortedEntries, Covered, InTree, MergeEntries, Concat;
    more, all' := runs, all;
    for level := 1 to NUM_LEVELS
      invariant Union(more, all') && forall e :: e in all' <==> Covered(db, level, 0, e)
    {
      forall e ensures Covered(db, level + 1, 0, e) <==> Covered(db, level, 0, e) || e in Concat(levels[level]) {
        CoverLevel(db, level, e);
      }
      if levels[level] != [] {
        var run := Concat(levels[level]);
        LevelRuns(db, level);
        forall x, y | x in all' && y in run ensures x.key != y.key {
          FreshLevel(db, level, x, y);
        }
        UnionGrows(more, all', run);
        more, all' := more + [run], MergeEntries(all', run);
      } else {
        ConcatContents(levels[level]);
      }
    }
  }
}
