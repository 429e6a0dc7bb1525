/**
  The database object: the operations that change the memtables, the version and the
  snapshot list.  Each is proved to be a step of `Runs`, so what holds of every run holds
  of every sequence of calls.
 */
module Database {
  import opened Basics
  import opened InternalKeys
  import opened LsmTree
  import opened Reads
  import opened CompactionInputs
  import opened CompactionWork
  import opened CompactionInvisible
  import opened VersionBuilder
  import opened MergingIter
  import opened DbIter
  import opened InternalIters
  import opened Runs

  // Placement of a flushed table

  /** Does a file of the level meet the range?  Disjoint levels are searched by bisection. */
  method SomeFileOverlapsRange(files: seq<File>, disjoint: bool, lo: UserKey, hi: UserKey) returns (r: bool)
    requires ValidFiles(files) && (disjoint ==> SortedFiles(files) && AllApart(files))
    requires forall f :: f in files ==> f.largest.sn <= MAX_SEQUENCE_NUMBER
    ensures r <==> exists f :: f in files && Overlaps(f, lo, hi)
  {
    if !disjoint {
      for i := 0 to |files|
        invariant forall j :: 0 <= j < i ==> !Overlaps(files[j], lo, hi)
      {
        if lo > files[i].largest.user || hi < files[i].smallest.user {
        } else {
          assert files[i] in files;
          return true;
        }
      }
      return false;
    }
    var index := FindFile(files, InternalKey(lo, MAX_SEQUENCE_NUMBER, Value));
    forall i | 0 <= i < |files| ensures files[i].largest.user >= lo <==> i >= index {
      assert files[i] in files;
    }
    if index >= |files| {
      return false;
    }
    assert files[index] in files;
    r := !(hi < files[index].smallest.user);
    forall i | index < i < |files| && hi < files[index].smallest.user ensures hi < files[i].smallest.user {
      LaterFilesAreAbove(files, index, hi);
    }
  }

  /** Sequence numbers fit into internal keys. */
  ghost predicate SmallNumbers(levels: seq<seq<File>>) {
    forall i, f :: At(levels, i, f) ==> f.largest.sn <= MAX_SEQUENCE_NUMBER
  }

  method OverlapInLevel(levels: seq<seq<File>>, level: nat, lo: UserKey, hi: UserKey) returns (r: bool)
    requires Searchable(levels) && SmallNumbers(levels) && level < NUM_LEVELS
    ensures r <==> MeetsLevel(levels, level, lo, hi)
  {
    assert forall f :: f in levels[level] <==> At(levels, level, f);
    r := SomeFileOverlapsRange(levels[level], level > 0, lo, hi);
  }

  ghost predicate MeetsLevel(levels: seq<seq<File>>, level: nat, lo: UserKey, hi: UserKey) {
    exists f :: At(levels, level, f) && Overlaps(f, lo, hi)
  }

  /** How much data two levels below `level` meets the range. */
  function GrandBytes(levels: seq<seq<File>>, level: nat, lo: UserKey, hi: UserKey): (n: nat) {
    if level + 2 < |levels| then TotalFileSize(Overlapping(levels[level + 2], Some(lo), Some(hi))) else 0
  }

  /** No level passed on the way has too much data two levels below, and there is a reason to go no further. */
  ghost predicate Deepest(levels: seq<seq<File>>, level: nat, lo: UserKey, hi: UserKey, byteLimit: nat) {
    && (forall i :: 0 <= i < level ==> GrandBytes(levels, i, lo, hi) <= byteLimit)
    && (level < 2 ==>
      || (level == 0 && MeetsLevel(levels, 0, lo, hi))
      || MeetsLevel(levels, level + 1, lo, hi)
      || GrandBytes(levels, level, lo, hi) > byteLimit)
  }

  /** The deepest level, at most 2, that a new table may enter without passing a file it meets. */
  method PickLevelForMemTableOutput(levels: seq<seq<File>>, lo: UserKey, hi: UserKey, byteLimit: nat)
    returns (level: nat)
    requires Searchable(levels) && SmallNumbers(levels)
    ensures level <= MAX_MEM_COMPACT_LEVEL && MayEnter(levels, level, lo, hi)
    ensures Deepest(levels, level, lo, hi, byteLimit)
  {
    hide Overlapping, TotalFileSize, SortedFiles, AllApart, MeetsLevel, Overlaps;
    level := 0;
    var overlap := OverlapInLevel(levels, 0, lo, hi);
    if !overlap {
      while level < MAX_MEM_COMPACT_LEVEL
        invariant level <= MAX_MEM_COMPACT_LEVEL
        invariant forall i :: 0 <= i <= level ==> !MeetsLevel(levels, i, lo, hi)
        invariant forall i :: 0 <= i < level ==> GrandBytes(levels, i, lo, hi) <= byteLimit
      {
        overlap := OverlapInLevel(levels, level + 1, lo, hi);
        if overlap {
          break;
        }
        SortedIsDistinct(levels[level + 2]);
        var overlaps := GetOverlappingInputs(levels[level + 2], false, Some(lo), Some(hi));
        if TotalFileSize(overlaps) > byteLimit {
          break;
        }
        level := level + 1;
      }
      MeetsNone(levels, level, lo, hi);
    }
  }

  lemma MeetsNone(levels: seq<seq<File>>, level: nat, lo: UserKey, hi: UserKey)
    requires level < |levels| && forall i :: 0 <= i <= level ==> !MeetsLevel(levels, i, lo, hi)
    ensures MayEnter(levels, level, lo, hi)
  {
    forall i, g | At(levels, i, g) && i <= level ensures !Overlaps(g, lo, hi) {
      assert !MeetsLevel(levels, i, lo, hi);
    }
  }

  // Memtables and merged inputs

  /** Insertion into a memtable. */
  function InsertEntry(es: seq<Entry>, e: Entry): (r: seq<Entry>) {
    MergeEntries(es, [e])
  }

  lemma InsertEntrySorted(es: seq<Entry>, e: Entry)
    requires SortedEntries(es) && forall x :: x in es ==> x.key.sn < e.key.sn
    ensures SortedEntries(InsertEntry(es, e))
  {
    MergeSorted(es, [e]);
  }

  /** Insert the records of a batch one by one, under consecutive sequence numbers. */
  method InsertBatch(mem: seq<Entry>, updates: seq<Update>, lastSequence: nat,
      ghost batch: seq<Entry>)
    returns (r: seq<Entry>)
    requires SortedEntries(mem) && forall e :: e in mem ==> e.key.sn <= lastSequence
    requires |batch| == |updates|
    requires forall i :: 0 <= i < |updates| ==> IsUpdate(batch[i], lastSequence + 1 + i, updates[i])
    ensures SortedEntries(r) && forall e :: e in r <==> e in mem || e in batch
  {
    r := mem;
    for i := 0 to |updates|
      invariant SortedEntries(r)
      invariant forall e :: e in r <==> e in mem || e in batch[..i]
      invariant forall e :: e in r ==> e.key.sn <= lastSequence + i
    {
      var e := Entry(InternalKey(updates[i].0, lastSequence + 1 + i, updates[i].1), updates[i].2);
      assert batch[..i + 1] == batch[..i] + [e];
      InsertEntrySorted(r, e);
      r := InsertEntry(r, e);
    }
    assert batch[..|updates|] == batch;
  }

  /** Two different input files hold no common key. */
  lemma InputsShareNothing(db: Db, c: Inputs, i: int, f: File, j: int, g: File, x: Entry, y: Entry)
    requires Structured(db) && Selected(db.levels, c)
    requires IsInput(c, i, f) && IsInput(c, j, g) && f != g && x in f.entries && y in g.entries
    ensures x.key != y.key
  {
    hide MemNewest, ValidSnapshots, Selected, SortedFiles;
    InputAt(db.levels, c, i, f);
    InputAt(db.levels, c, j, g);
    if i == j && i >= 1 {
      BoundsOf(f, x);
      BoundsOf(g, y);
      assert Apart(f, g);
    } else {
      assert i == j ==> f.number != g.number;
      assert Newer(f.entries, g.entries) || Newer(g.entries, f.entries);
    }
  }

  /** Merge all files of a compaction into one sorted run. */
  method MakeInput(ghost db: Db, c: Inputs) returns (m: seq<Entry>)
    requires Structured(db) && Selected(db.levels, c)
    ensures IsMerged(m, c)
  {
    hide Structured, Selected;
    ghost var all := c.inputs0 + c.inputs1;
    InputsDistinct(db, c);
    m := [];
    for n := 0 to |c.inputs0| + |c.inputs1|
      invariant SortedEntries(m)
      invariant forall e :: e in m <==> exists i :: 0 <= i < n && e in all[i].entries
    {
      var f := if n < |c.inputs0| then c.inputs0[n] else c.inputs1[n - |c.inputs0|];
      assert f == all[n] && IsInput(c, if n < |c.inputs0| then c.level else c.level + 1, f);
      forall x, y | x in m && y in f.entries ensures x.key != y.key {
        var i :| 0 <= i < n && x in all[i].entries;
        InputsShareNothing(db, c, if i < |c.inputs0| then c.level else c.level + 1, all[i],
                           if n < |c.inputs0| then c.level else c.level + 1, f, x, y);
      }
      InputIsValid(db, c, if n < |c.inputs0| then c.level else c.level + 1, f);
      MergeSorted(m, f.entries);
      m := MergeEntries(m, f.entries);
    }
    forall e ensures e in m <==> FromInput(c, e) {
      if i :| 0 <= i < |all| && e in all[i].entries {
        assert IsInput(c, if i < |c.inputs0| then c.level else c.level + 1, all[i]);
      }
      if i, g :| IsInput(c, i, g) && e in g.entries {
        assert g in all;
      }
    }
  }

  lemma InputIsValid(db: Db, c: Inputs, i: int, f: File)
    requires Structured(db) && Selected(db.levels, c) && IsInput(c, i, f)
    ensures ValidFile(f)
  {
    InputAt(db.levels, c, i, f);
  }

  lemma InputsDistinct(db: Db, c: Inputs)
    requires Structured(db) && Selected(db.levels, c)
    ensures Distinct(c.inputs0 + c.inputs1)
  {
    SortedIsDistinct(db.levels[c.level + 1]);
    OverlappingDistinct(db.levels[c.level + 1], Some(c.lo), Some(c.hi));
    var all, n := c.inputs0 + c.inputs1, |c.inputs0|;
    forall i, j | 0 <= i < j < |all| ensures all[i] != all[j] {
      if i < n <= j {
        InputAt(db.levels, c, c.level, all[i]);
        InputAt(db.levels, c, c.level + 1, all[j]);
      }
    }
  }

  // The object

  class DBImpl {
    var mem: seq<Entry>
    var imm: Option<seq<Entry>>
    var levels: seq<seq<File>>
    var lastSequence: nat
    var snapshots: seq<nat>
    var nextFileNumber: nat
    ghost var history: seq<Entry>

    ghost function Abs(): Db
      reads this
    {
      Db(mem, imm, levels, snapshots, nextFileNumber, history)
    }

    /** The shape every operation keeps. */
    ghost predicate Valid()
      reads this
    {
      Structured(Abs()) && lastSequence == |history|
    }

    constructor ()
      ensures Valid() && Abs() == EmptyDb() && ReadsAgree(Abs())
    {
      mem, imm, levels := [], None, seq(NUM_LEVELS, i => []);
      lastSequence, snapshots, nextFileNumber, history := 0, [], 2, [];
      EmptyDbInv();
    }

    /** Read `k`, at a snapshot or as of now: what the history of writes says it is. */
    method Get(k: UserKey, snapshot: Option<nat>) returns (r: ReadResult)
      requires Valid() && (snapshot.Some? ==> snapshot.value in snapshots)
      ensures ReadsAgree(Abs()) ==>
                var s := if snapshot.Some? then snapshot.value else |history|;
                s <= |history| && r == Report(Lookup(history, k, s))
    {
      assert snapshot.Some? ==> Abs().SmallestSnapshot() <= snapshot.value <= |history|;
      hide Structured, Visible;
      var s := if snapshot.Some? then snapshot.value else lastSequence;
      var o := TreeGet(mem, imm, levels, k, s, Abs());
      r := Report(o);
    }

    /** An iterator over the database, at a snapshot or as of now: it lists what the history of writes says. */
    method NewIterator(snapshot: Option<nat>) returns (it: DBIter)
      requires Valid() && (snapshot.Some? ==> snapshot.value in snapshots)
      ensures fresh(it) && fresh(it.iter) && it.Valid()
      ensures it.sequence == if snapshot.Some? then snapshot.value else |history|
      ensures ReadsAgree(Abs()) ==> it.sequence <= |history| && forall k, v ::
                Lists(it.Entries(), it.sequence, k, v) <==> Report(Lookup(history, k, it.sequence)) == Found(v)
    {
      assert snapshot.Some? ==> Abs().SmallestSnapshot() <= snapshot.value <= |history|;
      hide Structured, ReadsAgree, Lists, InTree, SortedEntries;
      var iter := NewInternalIterator(mem, imm, levels, Abs());
      it := new DBIter(iter, if snapshot.Some? then snapshot.value else lastSequence);
      forall k, v | ReadsAgree(Abs())
        ensures Lists(it.Entries(), it.sequence, k, v) <==> Report(Lookup(history, k, it.sequence)) == Found(v)
      {
        ViewIsHistory(Abs(), it.Entries(), it.sequence, k, v);
      }
    }

    /** Give a batch the next sequence numbers, insert it, and only then publish it. */
    method Write(updates: seq<Update>)
      requires Valid() && |history| + |updates| < MAX_SEQUENCE_NUMBER
      modifies this
      ensures Valid() && Appended(old(history), updates, history) && ReadsShow(old(history), updates, history)
      ensures Written(old(Abs()), history[|old(history)|..], Abs())
      ensures old(ReadsAgree(Abs())) ==> ReadsAgree(Abs())
    {
      hide ReadsAgree, Structured, SortedEntries, ReadsShow, Numbering;
      ghost var db, batch := Abs(), EntriesOf(history, updates);
      MemNumbers(db);
      mem := InsertBatch(mem, updates, lastSequence, batch);
      lastSequence, history := lastSequence + |updates|, history + batch;
      assert history[|db.history|..] == batch;
      assert Written(db, batch, Abs());
      NextKeeps(db, Step.Write(batch), Abs());
      BatchShows(db.history, updates, history);
    }

    /** Turn the full memtable into the immutable one. */
    method SwitchMemTable()
      requires Valid() && imm.None?
      modifies this
      ensures Valid() && Switched(old(Abs()), Abs())
      ensures old(ReadsAgree(Abs())) ==> ReadsAgree(Abs())
    {
      hide Structured, ReadsAgree;
      ghost var db := Abs();
      imm, mem, nextFileNumber := Some(mem), [], nextFileNumber + 1;
      NextKeeps(db, Switch, Abs());
    }

    /** Write the immutable memtable out as a table of level 0, 1 or 2. */
    method CompactMemTable(fileSize: seq<Entry> -> nat, byteLimit: nat) returns (level: nat, ghost f: File)
      requires Valid() && imm.Some?
      modifies this
      ensures Valid() && level <= MAX_MEM_COMPACT_LEVEL && Flushed(old(Abs()), level, f, Abs())
      ensures old(imm).value != [] ==> Deepest(old(levels), level, f.smallest.user, f.largest.user, byteLimit)
      ensures old(ReadsAgree(Abs())) ==> ReadsAgree(Abs())
    {
      hide ReadsAgree, NewerFirst, Recorded, Deepest;
      ghost var db := Abs();
      var es, number := imm.value, nextFileNumber;
      level := 0;
      if es == [] {
        imm, nextFileNumber := None, number + 1;
        f := File(0, 0, InternalKey(0.0, 0, Value), InternalKey(0.0, 0, Value), []);
      } else {
        var file := File(number, fileSize(es), es[0].key, es[|es| - 1].key, es);
        f := file;
        OrderedIsSearchable(levels, nextFileNumber);
        NumbersFit(db);
        level := PickLevelForMemTableOutput(levels, file.smallest.user, file.largest.user, byteLimit);
        AddIsFresh(db, level, file);
        var levels' := BuildNext(levels, Edit({}, [(level, file)]));
        ListingIsAdded(levels, level, file, levels');
        imm, levels, nextFileNumber := None, levels', number + 1;
      }
      hide Structured;
      NextKeeps(db, Flush(level, f), Abs());
    }

    /**
      Compact `level` starting from the file at `index`, or just move that file down when
      it meets nothing.  The reads that are still possible stay the same if and only if no
      dropped deletion uncovers a value left behind.
     */
    method BackgroundCompaction(level: nat, index: nat, byteLimit: nat, grandLimit: nat,
                                stopBefore: nat -> bool, fileSize: seq<Entry> -> nat, maxOutput: nat)
      returns (ghost step: Step, ghost base: Inputs)
      requires Valid() && level + 1 < NUM_LEVELS && index < |levels[level]|
      modifies this
      ensures Valid() && Next(old(Abs()), step, Abs()) && (step.MoveDown? || step.Compact?)
      ensures base.level == level && step.c.level == level && old(levels)[level][index] in base.inputs0
      ensures Least(old(levels)[level], level == 0, [old(levels)[level][index]], base.inputs0)
      ensures IsGrowth(old(levels), byteLimit, base, step.c)
      ensures step.MoveDown? == (|step.c.inputs0| == 1 && step.c.inputs1 == []
                                 && GrandBytes(old(levels), level, step.c.lo, step.c.hi) <= grandLimit)
      ensures old(ReadsAgree(Abs())) && Safe(old(Abs()), step) ==> ReadsAgree(Abs())
      ensures step.Compact? ==> (SameReads(old(Abs()), Abs()) <==> NoResurrection(old(Abs()), step.c, step.m))
    {
      hide ReadsAgree, NewerFirst, Recorded, MemNewest, ValidSnapshots, Compacted, Selected, Searchable, Least,
        IsGrowth, GrandBytes;
      ghost var db := Abs();
      OrderedIsSearchable(levels, nextFileNumber);
      var c;
      c, base := PickCompaction(levels, level, index, byteLimit);
      var trivial := IsTrivialMove(levels, c, grandLimit);
      if trivial {
        step := MoveDown(c);
        var levels' := InstallMove(levels, nextFileNumber, c, c.inputs0);
        levels := levels';
        assert MovedDown(db, c, Abs());
      } else {
        var smallest := if snapshots == [] then lastSequence else snapshots[0];
        ghost var m;
        var outputs, levels';
        m, outputs, levels' := MergeAndInstall(levels, nextFileNumber, c, smallest, stopBefore, fileSize, maxOutput,
            db);
        step := Compact(c, m, outputs);
        levels, nextFileNumber := levels', nextFileNumber + |outputs|;
        InvisibleIffNoResurrection(db, c, m, outputs, Abs());
      }
      hide Structured, Next;
      NextKeeps(db, step, Abs());
    }

    /** Pin the current sequence number for later reads. */
    method GetSnapshot() returns (s: nat)
      requires Valid()
      modifies this
      ensures Valid() && s == |history| && Snapped(old(Abs()), Abs())
      ensures old(ReadsAgree(Abs())) ==> ReadsAgree(Abs())
    {
      hide Structured, ReadsAgree;
      ghost var db := Abs();
      s := lastSequence;
      snapshots := snapshots + [s];
      NextKeeps(db, Snap, Abs());
    }

    method ReleaseSnapshot(i: nat)
      requires Valid() && i < |snapshots|
      modifies this
      ensures Valid() && Released(old(Abs()), i, Abs())
      ensures old(ReadsAgree(Abs())) ==> ReadsAgree(Abs())
    {
      hide Structured, ReadsAgree;
      ghost var db := Abs();
      snapshots := snapshots[..i] + snapshots[i + 1..];
      NextKeeps(db, Release(i), Abs());
    }
  }

  /** One upper input, no lower input, and not too much data two levels down. */
  method IsTrivialMove(levels: seq<seq<File>>, c: Inputs, grandLimit: nat) returns (r: bool)
    requires Searchable(levels) && Selected(levels, c)
    ensures r <==> |c.inputs0| == 1 && c.inputs1 == [] && GrandBytes(levels, c.level, c.lo, c.hi) <= grandLimit
  {
    hide Overlapping, SortedFiles, AllApart, BoundaryClosed, OverlapClosed;
    assert c.inputs1 == [] ==> c.inputs0 + c.inputs1 == c.inputs0;
    var grandparents: seq<File> := [];
    if c.level + 2 < NUM_LEVELS {
      SortedIsDistinct(levels[c.level + 2]);
      var allStart, allLimit := GetRange(c.inputs0 + c.inputs1);
      grandparents := GetOverlappingInputs(levels[c.level + 2], false, Some(allStart.user), Some(allLimit.user));
    }
    r := |c.inputs0| == 1 && |c.inputs1| == 0 && TotalFileSize(grandparents) <= grandLimit;
  }

  /** Merge the inputs, write the survivors to new tables and install them. */
  method MergeAndInstall(levels: seq<seq<File>>, nextFile: nat, c: Inputs, smallest: nat,
                         stopBefore: nat -> bool, fileSize: seq<Entry> -> nat, maxOutput: nat, ghost db: Db)
    returns (ghost m: seq<Entry>, outputs: seq<File>, levels': seq<seq<File>>)
    requires Structured(db) && db.levels == levels && db.nextFile == nextFile && db.SmallestSnapshot() == smallest
    requires Selected(levels, c)
    ensures Compacted(db, c, m, outputs, db.(levels := levels', nextFile := nextFile + |outputs|))
  {
    hide NewerFirst, Recorded, MemNewest, Selected, Searchable;
    OrderedIsSearchable(levels, nextFile);
    var input := MakeInput(db, c);
    m := input;
    var compaction := new Compaction(levels, c.level);
    outputs := DoCompactionWork(compaction, input, smallest, nextFile, stopBefore, fileSize, maxOutput);
    assert forall f :: f in outputs ==> f.number >= nextFile;
    levels' := InstallMove(levels, nextFile, c, outputs);
  }

  /** Delete the inputs and add the outputs in one edit. */
  method InstallMove(levels: seq<seq<File>>, ghost nextFile: nat, c: Inputs, outputs: seq<File>)
    returns (levels': seq<seq<File>>)
    requires ValidLevels(levels, nextFile) && OrderedLevels(levels) && Selected(levels, c)
    requires forall i, j :: 0 <= i < j < |outputs| ==> outputs[i].number != outputs[j].number
    requires forall f :: f in outputs ==> f.number >= nextFile || f in c.inputs0
    ensures Moved(levels, c, outputs, levels')
  {
    var deleted :=
      (set f | f in c.inputs0 :: (c.level as int, f.number)) + set f | f in c.inputs1 :: (c.level + 1 as int, f.number);
    var added := seq(|outputs|, i requires 0 <= i < |outputs| => (c.level + 1 as int, outputs[i]));
    MoveIsFresh(levels, nextFile, c, outputs, added);
    levels' := BuildNext(levels, Edit(deleted, added));
    ListingIsMoved(levels, nextFile, c, outputs, Edit(deleted, added), levels');
  }

  lemma MoveIsFresh(levels: seq<seq<File>>, nextFile: nat, c: Inputs, outputs: seq<File>, added: seq<(int, File)>)
    requires ValidLevels(levels, nextFile) && Selected(levels, c)
    requires forall i, j :: 0 <= i < j < |outputs| ==> outputs[i].number != outputs[j].number
    requires forall f :: f in outputs ==> f.number >= nextFile || f in c.inputs0
    requires |added| == |outputs| && forall i :: 0 <= i < |added| ==> added[i] == (c.level + 1 as int, outputs[i])
    ensures FreshIn(ListingOf(levels), added)
  {
    forall p, q | p in added && q in ListingOf(levels) && p.0 == q.0 ensures p.1.number != q.1.number {
      assert At(levels, q.0, q.1) && p.1 in outputs;
      if p.1 in c.inputs0 {
        InputAt(levels, c, c.level, p.1);
      }
    }
  }

  lemma ListingIsMoved(levels: seq<seq<File>>, nextFile: nat, c: Inputs, outputs: seq<File>, edit: Edit,
      levels': seq<seq<File>>)
    requires ValidLevels(levels, nextFile) && Selected(levels, c)
    requires |levels'| == NUM_LEVELS && forall i :: 0 <= i < NUM_LEVELS ==> SortedFiles(levels'[i])
    requires edit.deleted ==
      (set f | f in c.inputs0 :: (c.level as int, f.number)) + set f | f in c.inputs1 :: (c.level + 1 as int, f.number)
    requires |edit.added| == |outputs|
    requires forall i :: 0 <= i < |outputs| ==> edit.added[i] == (c.level + 1 as int, outputs[i])
    requires ListingOf(levels') == ApplyEdit(ListingOf(levels), edit)
    ensures Moved(levels, c, outputs, levels')
  {
    forall i, f
      ensures At(levels', i, f) <==> (At(levels, i, f) && !IsInput(c, i, f)) || (i == c.level + 1 && f in outputs)
    {
      AtIsListed(levels, i, f);
      AtIsListed(levels', i, f);
      if At(levels, i, f) && (i, f.number) in edit.deleted {
        var g :| IsInput(c, i, g) && g.number == f.number;
        InputAt(levels, c, i, g);
      }
      if i == c.level + 1 && f in outputs {
        var n :| 0 <= n < |outputs| && outputs[n] == f;
        assert edit.added[n] in edit.added;
      }
    }
  }

  lemma MemNumbers(db: Db)
    requires Structured(db)
    ensures SortedEntries(db.mem) && forall e :: e in db.mem ==> e.key.sn <= |db.history|
  {
    assert forall e :: e in db.mem ==> InTree(db, e);
  }

  lemma NumbersFit(db: Db)
    requires Recorded(db) && ValidSnapshots(db) && ValidLevels(db.levels, db.nextFile)
    ensures SmallNumbers(db.levels)
  {
    forall i, f | At(db.levels, i, f) ensures f.largest.sn <= MAX_SEQUENCE_NUMBER {
      assert InTree(db, f.entries[|f.entries| - 1]);
    }
  }

  lemma AddIsFresh(db: Db, level: nat, f: File)
    requires ValidLevels(db.levels, db.nextFile) && level < NUM_LEVELS && f.number >= db.nextFile
    ensures FreshIn(ListingOf(db.levels), [(level, f)])
  {
    forall q | q in ListingOf(db.levels) ensures q.1.number < db.nextFile {
      assert At(db.levels, q.0, q.1);
    }
  }

  lemma AtIsListed(levels: seq<seq<File>>, i: int, f: File)
    ensures At(levels, i, f) <==> (i, f) in ListingOf(levels)
  {
  }

  lemma ListingIsAdded(levels: seq<seq<File>>, level: nat, f: File, levels': seq<seq<File>>)
    requires |levels| == |levels'| == NUM_LEVELS && level < NUM_LEVELS
    requires forall i :: 0 <= i < NUM_LEVELS ==> SortedFiles(levels'[i])
    requires ListingOf(levels') == ApplyEdit(ListingOf(levels), Edit({}, [(level, f)]))
    ensures Added(levels, level, f, levels')
  {
    forall i, g ensures At(levels', i, g) <==> At(levels, i, g) || (i == level && g == f) {
      AtIsListed(levels, i, g);
      AtIsListed(levels', i, g);
    }
  }

  // ----- what a batch writes -----

  type Update = (UserKey, ValueType, string)

  /** Entry `e` is update `u` under sequence number `sn`. */
  predicate IsUpdate(e: Entry, sn: nat, u: Update) {
    e.key.user == u.0 && e.key.kind == u.1 && e.value == u.2 && e.key.sn == sn
  }

  /** The updates have become the next entries of the history, in order. */
  ghost predicate Appended(before: seq<Entry>, updates: seq<Update>, history: seq<Entry>) {
    && |history| == |before| + |updates| && before <= history
    && forall i :: 0 <= i < |updates| ==> IsUpdate(history[|before| + i], |before| + 1 + i, updates[i])
  }

  /** A read reports the last update of its key, and what it reported before if there is none. */
  ghost predicate ReadsShow(before: seq<Entry>, updates: seq<Update>, history: seq<Entry>) {
    && (forall i :: 0 <= i < |updates| && IsLastOfKey(updates, i) ==>
      Report(Lookup(history, updates[i].0, |history|)) == Wanted(updates[i]))
    && forall k :: (forall i :: 0 <= i < |updates| ==> updates[i].0 != k) ==>
      Lookup(history, k, |history|) == Lookup(before, k, |before|)
  }

  /** No later update is of the same user key. */
  ghost predicate IsLastOfKey(updates: seq<Update>, i: nat)
    requires i < |updates|
  {
    forall j :: i < j < |updates| ==> updates[j].0 != updates[i].0
  }

  /** What a read of the key of an update should report when the update is the newest. */
  function Wanted(u: Update): ReadResult {
    if u.1 == Value then Found(u.2) else NotFound
  }

  /** The entries a batch writes after `history`. */
  ghost function EntriesOf(history: seq<Entry>, updates: seq<Update>): (r: seq<Entry>)
    ensures |r| == |updates| && Numbering(history, r)
    ensures forall i :: 0 <= i < |updates| ==> IsUpdate(r[i], |history| + 1 + i, updates[i])
  {
    seq(|updates|, i requires 0 <= i < |updates| =>
      Entry(InternalKey(updates[i].0, |history| + 1 + i, updates[i].1), updates[i].2))
  }

  /** A read passes over entries of other user keys. */
  lemma {:induction false} LookupPasses(history: seq<Entry>, k: UserKey, m: nat, n: nat)
    requires m <= n <= |history| && forall i :: m <= i < n ==> history[i].key.user != k
    ensures Lookup(history, k, n) == Lookup(history, k, m)
  {
    if m < n {
      LookupPasses(history, k, m, n - 1);
    }
  }

  /** Right after a write, a read reports the last update of the key in the batch. */
  lemma ReadYourWrite(before: seq<Entry>, updates: seq<Update>, history: seq<Entry>, i: nat)
    requires Appended(before, updates, history) && i < |updates| && IsLastOfKey(updates, i)
    ensures Report(Lookup(history, updates[i].0, |history|)) == Wanted(updates[i])
  {
    var m := |before| + i + 1;
    forall j | m <= j < |history| ensures history[j].key.user != updates[i].0 {
      assert IsUpdate(history[|before| + (j - |before|)], j + 1, updates[j - |before|]);
    }
    LookupPasses(history, updates[i].0, m, |history|);
  }

  /** The write does not show at other keys. */
  lemma OthersUnchanged(before: seq<Entry>, updates: seq<Update>, history: seq<Entry>, k: UserKey)
    requires Appended(before, updates, history) && forall j :: 0 <= j < |updates| ==> updates[j].0 != k
    ensures Lookup(history, k, |history|) == Lookup(before, k, |before|)
  {
    forall j | |before| <= j < |history| ensures history[j].key.user != k {
      assert IsUpdate(history[|before| + (j - |before|)], j + 1, updates[j - |before|]);
    }
    LookupPasses(history, k, |before|, |history|);
    assert history == before + history[|before|..];
    LookupPrefix(before, history[|before|..], k, |before|);
  }

  lemma BatchShows(before: seq<Entry>, updates: seq<Update>, history: seq<Entry>)
    requires Appended(before, updates, history)
    ensures ReadsShow(before, updates, history)
  {
    hide Appended;
    forall i | 0 <= i < |updates| && IsLastOfKey(updates, i)
      ensures Report(Lookup(history, updates[i].0, |history|)) == Wanted(updates[i])
    {
      ReadYourWrite(before, updates, history, i);
    }
    forall k | forall i :: 0 <= i < |updates| ==> updates[i].0 != k
      ensures Lookup(history, k, |history|) == Lookup(before, k, |before|)
    {
      OthersUnchanged(before, updates, history, k);
    }
  }
}
