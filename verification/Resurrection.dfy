/**
  A run of the database after which a deleted key is found again: the selection of the last
  compaction leaves behind a file of the next level that starts with an older value of the user
  key whose deletion is compacted away.
 */
module Resurrection {
  import opened Basics
  import opened InternalKeys
  import opened LsmTree
  import opened CompactionInputs
  import opened CompactionWork
  import opened CompactionInvisible
  import opened Runs

  function Put(k: UserKey, sn: nat, v: string): Entry {
    Entry(InternalKey(k, sn, Value), v)
  }

  function Delete(k: UserKey, sn: nat): Entry {
    Entry(InternalKey(k, sn, Deletion), "")
  }

  function Table(number: nat, es: seq<Entry>): File
    requires |es| > 0
  {
    File(number, 0, es[0].key, es[|es| - 1].key, es)
  }

  // Key 1 is written and deleted, key 0 is written twice.
  function Old(): Entry { Put(1.0, 1, "old") }

  function Gone(): Entry { Delete(1.0, 2) }

  function X(): Entry { Put(0.0, 3, "x") }

  function Y(): Entry { Put(0.0, 4, "y") }

  // The tables of the first two memtables, the two they are merged and cut into, and the third table before and after.
  function Oldest(): File { Table(3, [Old()]) }

  function Younger(): File { Table(5, [X(), Gone()]) }

  function Lower(): File { Table(6, [X(), Gone()]) }

  function Rest(): File { Table(7, [Old()]) }

  function Upper(): File { Table(9, [Y()]) }

  function Final(): File { Table(10, [Y()]) }

  /** Levels of which only 1 and 2 hold files. */
  function TwoLevels(one: seq<File>, two: seq<File>): (r: seq<seq<File>>)
    ensures |r| == NUM_LEVELS
  {
    [[], one, two, [], [], [], []]
  }

  function Cut(): Inputs { Inputs(1, [Younger()], [Oldest()], 0.0, 1.0) }

  function Chosen(): Inputs { Inputs(1, [Upper()], [Lower()], 0.0, 0.0) }

  function All(): seq<Entry> { [X(), Gone(), Old()] }

  function Merged(): seq<Entry> { [Y(), X(), Gone()] }

  /**
    Write key 1, take a snapshot and flush, which puts the table into level 2; delete key 1, write
    key 0 and flush, which puts the table into level 1; compact, cutting between the two entries of
    key 1; release the snapshot; write key 0 again, flush and compact.
   */
  function Steps(): (r: seq<Step>)
    ensures |r| == 14
  {
    [Write([Old()]), Snap, Switch, Flush(2, Oldest()),
     Write([Gone()]), Write([X()]), Switch, Flush(1, Younger()),
     Compact(Cut(), All(), [Lower(), Rest()]), Release(0),
     Write([Y()]), Switch, Flush(1, Upper()), Compact(Chosen(), Merged(), [Final()])]
  }

  function States(): (r: seq<Db>)
    ensures |r| == 15
  {
    [EmptyDb(),
     Db([Old()], None, TwoLevels([], []), [], 2, [Old()]),
     Db([Old()], None, TwoLevels([], []), [1], 2, [Old()]),
     Db([], Some([Old()]), TwoLevels([], []), [1], 3, [Old()]),
     Db([], None, TwoLevels([], [Oldest()]), [1], 4, [Old()]),
     Db([Gone()], None, TwoLevels([], [Oldest()]), [1], 4, [Old(), Gone()]),
     Db([X(), Gone()], None, TwoLevels([], [Oldest()]), [1], 4, [Old(), Gone(), X()]),
     Db([], Some([X(), Gone()]), TwoLevels([], [Oldest()]), [1], 5, [Old(), Gone(), X()]),
     Db([], None, TwoLevels([Younger()], [Oldest()]), [1], 6, [Old(), Gone(), X()]),
     Db([], None, TwoLevels([], [Lower(), Rest()]), [1], 8, [Old(), Gone(), X()]),
     Db([], None, TwoLevels([], [Lower(), Rest()]), [], 8, [Old(), Gone(), X()]),
     Db([Y()], None, TwoLevels([], [Lower(), Rest()]), [], 8, [Old(), Gone(), X(), Y()]),
     Db([], Some([Y()]), TwoLevels([], [Lower(), Rest()]), [], 9, [Old(), Gone(), X(), Y()]),
     Witness(),
     Db([], None, TwoLevels([], [Final(), Rest()]), [], 11, [Old(), Gone(), X(), Y()])]
  }

  /** The state before the compaction that brings key 1 back. */
  function Witness(): Db {
    Db([], None, TwoLevels([Upper()], [Lower(), Rest()]), [], 10, [Old(), Gone(), X(), Y()])
  }

  // ----- the steps -----

  lemma FilesOf(one: seq<File>, two: seq<File>)
    ensures forall i, f :: At(TwoLevels(one, two), i, f) <==> (i == 1 && f in one) || (i == 2 && f in two)
  {
    var levels := TwoLevels(one, two);
    assert levels[0] == [] && forall i :: 3 <= i < NUM_LEVELS ==> levels[i] == [];
    assert levels[1] == one && levels[2] == two;
  }

  lemma SortedTwo(one: seq<File>, two: seq<File>)
    requires SortedFiles(one) && SortedFiles(two)
    ensures forall i :: 0 <= i < NUM_LEVELS ==> SortedFiles(TwoLevels(one, two)[i])
  {
  }

  lemma ValidTables()
    ensures ValidFile(Oldest()) && ValidFile(Younger()) && ValidFile(Lower())
    ensures ValidFile(Rest()) && ValidFile(Upper()) && ValidFile(Final())
  {
  }

  /** A write puts its entry in front of the memtable. */
  lemma WrittenInFront(db: Db, e: Entry)
    requires e.key.sn == |db.history| + 1 < MAX_SEQUENCE_NUMBER && SortedEntries([e] + db.mem)
    ensures Written(db, [e], db.(mem := [e] + db.mem, history := db.history + [e]))
  {
  }

  lemma FirstWrite()
    ensures Written(States()[0], [Old()], States()[1])
  {
    WrittenInFront(EmptyDb(), Old());
    assert EmptyDb().levels == TwoLevels([], []);
    hide Written, TwoLevels;
    assert [Old()] + [] == [Old()];
  }

  lemma SecondWrite()
    ensures Written(States()[4], [Gone()], States()[5])
  {
    hide TwoLevels;
    assert [Gone()] + [] == [Gone()] && [Old()] + [Gone()] == [Old(), Gone()];
    WrittenInFront(States()[4], Gone());
  }

  lemma ThirdWrite()
    ensures Written(States()[5], [X()], States()[6])
  {
    hide TwoLevels;
    assert [X()] + [Gone()] == [X(), Gone()] && [Old(), Gone()] + [X()] == [Old(), Gone(), X()];
    WrittenInFront(States()[5], X());
  }

  lemma LastWrite()
    ensures Written(States()[10], [Y()], States()[11])
  {
    hide TwoLevels;
    assert [Y()] + [] == [Y()] && [Old(), Gone(), X()] + [Y()] == [Old(), Gone(), X(), Y()];
    WrittenInFront(States()[10], Y());
  }

  /** Steps that only touch the memtables or the snapshots. */
  lemma SmallSteps()
    ensures Snapped(States()[1], States()[2])
    ensures Switched(States()[2], States()[3]) && Switched(States()[6], States()[7])
    ensures Released(States()[9], 0, States()[10]) && Switched(States()[11], States()[12])
  {
    hide TwoLevels;
    assert [1][..0] + [1][1..] == [];
  }

  /** The first table meets nothing, so it goes down to level 2. */
  lemma FirstFlush()
    ensures Flushed(States()[3], 2, Oldest(), States()[4])
  {
    ValidTables();
    FilesOf([], []);
    FilesOf([], [Oldest()]);
    SortedTwo([], [Oldest()]);
    hide TwoLevels, At, SortedFiles, ValidFile;
    assert Added(States()[3].levels, 2, Oldest(), States()[4].levels);
  }

  /** The second meets the first in level 2, so it stays in level 1. */
  lemma SecondFlush()
    ensures Flushed(States()[7], 1, Younger(), States()[8])
  {
    ValidTables();
    FilesOf([], [Oldest()]);
    FilesOf([Younger()], [Oldest()]);
    SortedTwo([Younger()], [Oldest()]);
    hide TwoLevels, At, SortedFiles, ValidFile;
    assert Added(States()[7].levels, 1, Younger(), States()[8].levels);
  }

  lemma ThirdFlush()
    ensures Flushed(States()[12], 1, Upper(), States()[13])
  {
    ValidTables();
    FilesOf([], [Lower(), Rest()]);
    FilesOf([Upper()], [Lower(), Rest()]);
    SortedTwo([Upper()], [Lower(), Rest()]);
    hide TwoLevels, At, SortedFiles, ValidFile;
    assert Added(States()[12].levels, 1, Upper(), States()[13].levels);
  }

  /** Entries of one upper and one lower input, merged. */
  lemma TwoInputs(c: Inputs, f: File, g: File, m: seq<Entry>)
    requires c.inputs0 == [f] && c.inputs1 == [g] && SortedEntries(m)
    requires forall e :: e in m <==> e in f.entries || e in g.entries
    ensures IsMerged(m, c)
  {
    hide SortedEntries;
    assert IsInput(c, c.level, f) && IsInput(c, c.level + 1, g);
  }

  lemma CutSelected()
    ensures Selected(States()[8].levels, Cut()) && IsMerged(All(), Cut())
  {
    var levels, c := States()[8].levels, Cut();
    assert levels[1] == [Younger()] && levels[2] == [Oldest()] && c.inputs0[0] == Younger();
    assert levels[2][..0] == [];
    assert Overlapping(levels[2], Some(0.0), Some(1.0)) == [Oldest()];
    TwoInputs(c, Younger(), Oldest(), All());
  }

  /** The snapshot keeps every entry, so all of them survive the first compaction. */
  lemma CutSurvivors()
    ensures Concat([Lower(), Rest()]) == Survivors(All(), 3, 1, States()[8].levels, 1)
  {
    var m, levels := All(), States()[8].levels;
    assert Kept(m, 0, 1, levels, 1) && Kept(m, 1, 1, levels, 1) && Kept(m, 2, 1, levels, 1);
    hide Kept, TwoLevels;
    assert Survivors(m, 0, 1, levels, 1) == [];
    assert Survivors(m, 1, 1, levels, 1) == [m[0]];
    assert Survivors(m, 2, 1, levels, 1) == [m[0], m[1]];
    assert Survivors(m, 3, 1, levels, 1) == m;
    ConcatTwo(Lower(), Rest());
  }

  lemma ConcatTwo(f: File, g: File)
    ensures Concat([f]) == f.entries && Concat([f, g]) == f.entries + g.entries
  {
    assert [f, g][..1] == [f] && [f][..0] == [];
    assert Concat([f]) == Concat([]) + f.entries;
  }

  lemma FirstCompaction()
    ensures Compacted(States()[8], Cut(), All(), [Lower(), Rest()], States()[9])
  {
    hide Selected, IsMerged, Survivors, Concat, SortedFiles, TwoLevels, At, ValidFile;
    CutSelected();
    CutSurvivors();
    ValidTables();
    FilesOf([Younger()], [Oldest()]);
    FilesOf([], [Lower(), Rest()]);
    LowerSorted();
    SortedTwo([], [Lower(), Rest()]);
    assert ValidOutputs([Lower(), Rest()], 6);
    assert Moved(States()[8].levels, Cut(), [Lower(), Rest()], States()[9].levels);
  }

  lemma LowerSorted()
    ensures SortedFiles([Lower(), Rest()]) && SortedFiles([Final(), Rest()]) && SortedFiles([])
  {
  }

  /** The file that continues the last user key of `Lower` is not chosen. */
  lemma ChoiceSelected()
    ensures Selected(Witness().levels, Chosen()) && IsMerged(Merged(), Chosen())
  {
    var levels, c := Witness().levels, Chosen();
    assert levels[1] == [Upper()] && levels[2] == [Lower(), Rest()] && c.inputs0[0] == Upper();
    assert levels[2][..1] == [Lower()] && levels[2][..1][..0] == [];
    assert Overlapping([Lower()], Some(0.0), Some(0.0)) == [Lower()];
    assert Overlapping(levels[2], Some(0.0), Some(0.0)) == [Lower()];
    TwoInputs(c, Upper(), Lower(), Merged());
  }

  /** No level below the next one has anything. */
  lemma BaseLevel(k: UserKey)
    ensures IsBaseLevel(Witness().levels, 1, k)
  {
    var levels := Witness().levels;
    assert forall i :: 3 <= i < NUM_LEVELS ==> levels[i] == [];
  }

  /** Without a snapshot the older write of key 0 and the deletion of key 1 are dropped. */
  lemma ChoiceSurvivors()
    ensures Concat([Final()]) == Survivors(Merged(), 3, 4, Witness().levels, 1)
  {
    var m, levels := Merged(), Witness().levels;
    BaseLevel(1.0);
    hide TwoLevels, IsBaseLevel;
    assert Kept(m, 0, 4, levels, 1) && !Kept(m, 1, 4, levels, 1) && !Kept(m, 2, 4, levels, 1);
    hide Kept;
    assert Survivors(m, 0, 4, levels, 1) == [];
    assert Survivors(m, 1, 4, levels, 1) == [m[0]];
    assert Survivors(m, 2, 4, levels, 1) == [m[0]];
    ConcatTwo(Final(), Final());
  }

  lemma LastCompaction()
    ensures Compacted(States()[13], Chosen(), Merged(), [Final()], States()[14])
  {
    hide Selected, IsMerged, Survivors, Concat, SortedFiles, TwoLevels, At, ValidFile;
    ChoiceSelected();
    ChoiceSurvivors();
    ValidTables();
    FilesOf([Upper()], [Lower(), Rest()]);
    FilesOf([], [Final(), Rest()]);
    LowerSorted();
    SortedTwo([], [Final(), Rest()]);
    assert ValidOutputs([Final()], 10);
    assert Moved(States()[13].levels, Chosen(), [Final()], States()[14].levels);
  }

  lemma AllSteps()
    ensures IsRun(States(), Steps())
  {
    hide Written, Flushed, Compacted, Snapped, Released, Switched;
    FirstWrite();
    SecondWrite();
    ThirdWrite();
    LastWrite();
    SmallSteps();
    FirstFlush();
    SecondFlush();
    ThirdFlush();
    FirstCompaction();
    LastCompaction();
    var states, steps := States(), Steps();
    forall i | 0 <= i < 14 ensures Next(states[i], steps[i], states[i + 1]) {
    }
  }

  // ----- what the last step does -----

  lemma WitnessEntries(e: Entry)
    ensures InTree(Witness(), e) <==> e in [Old(), Gone(), X(), Y()]
  {
    var db := Witness();
    FilesOf([Upper()], [Lower(), Rest()]);
    assert At(db.levels, 1, Upper()) && At(db.levels, 2, Lower()) && At(db.levels, 2, Rest());
    hide At, TwoLevels;
    assert e in Upper().entries <==> e == Y();
    assert e in Lower().entries <==> e == X() || e == Gone();
    assert e in Rest().entries <==> e == Old();
  }

  lemma OldValueUncovered()
    ensures Uncovers(Witness(), Chosen(), Merged(), 2, Old())
  {
    var db, c, m, w := Witness(), Chosen(), Merged(), Old();
    FilesOf([Upper()], [Lower(), Rest()]);
    assert At(db.levels, 2, Rest()) && w in Rest().entries;
    assert LeftBehind(db, c, w);
    BaseLevel(1.0);
    hide At, TwoLevels, IsBaseLevel;
    forall x | OlderLeftBehind(db, c, m[2], x) ensures x.key.sn <= 1 {
    }
    forall e ensures InTree(db, e) <==> e in [Old(), Gone(), X(), Y()] {
      WitnessEntries(e);
    }
    assert Visible(db, 1.0, 4, Some(m[2]));
  }

  /** Up to the last one, the steps are safe. */
  lemma OthersSafe()
    ensures AllSafe(States(), Steps(), 13)
  {
    hide States, NoResurrection;
    FirstIsSafe();
  }

  /** The snapshot is older than the deletion, so the first compaction drops none. */
  lemma FirstIsSafe()
    ensures NoResurrection(States()[8], Cut(), All())
  {
    hide TwoLevels, Visible, OlderLeftBehind;
  }

  /**
    A run in which every step but the last is safe, and after the last a read of key 1 at the newest
    sequence number finds the old value, although the key was deleted.
   */
  lemma DeletedKeyComesBack()
    ensures IsRun(States(), Steps()) && AllSafe(States(), Steps(), 13) && !Safe(States()[13], Steps()[13])
    ensures Inv(States()[13]) && !ReadsAgree(States()[14])
    ensures Visible(States()[14], 1.0, 4, Some(Old())) && Report(Some(Old())) == Found("old")
    ensures Report(Lookup(States()[14].history, 1.0, 4)) == NotFound
  {
    AllSteps();
    OthersSafe();
    OldValueUncovered();
    LastCompaction();
    DeletionIsNewest();
    hide Uncovers, Compacted, IsRun, AllSafe, TwoLevels, Structured, ReadsAgree, Lookup, Visible;
    RunsKeepInv(States(), Steps(), 13);
    UncoveredShows(Witness(), Chosen(), Merged(), [Final()], States()[14], 2, Old());
    UnsafeBreaks(Witness(), Chosen(), Merged(), [Final()], States()[14]);
  }

  lemma DeletionIsNewest()
    ensures Lookup([Old(), Gone(), X(), Y()], 1.0, 4) == Some(Gone())
  {
    var h := [Old(), Gone(), X(), Y()];
    assert Lookup(h, 1.0, 4) == Lookup(h, 1.0, 3) == Lookup(h, 1.0, 2);
  }
}
