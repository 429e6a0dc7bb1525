/**
  The database as a state machine: writes, memtable switch, flush, trivial move,
  compaction, and taking and releasing snapshots.  Every run keeps the shape of the tree
  and answers every read a client can still make as the history of writes says.
 */
module Runs {
  import opened Basics
  import opened InternalKeys
  import opened LsmTree
  import opened CompactionInputs
  import opened CompactionWork
  import opened CompactionInvisible

  // Steps

  /** Entries written under the next sequence numbers, in order. */
  ghost predicate Numbering(history: seq<Entry>, batch: seq<Entry>) {
    forall i :: 0 <= i < |batch| ==> batch[i].key.sn == |history| + 1 + i
  }

  /** A batch is recorded and inserted into the memtable, and becomes visible as a whole. */
  ghost predicate Written(db: Db, batch: seq<Entry>, db': Db) {
    && Numbering(db.history, batch) && |db.history| + |batch| < MAX_SEQUENCE_NUMBER
    && SortedEntries(db'.mem) && (forall e :: e in db'.mem <==> e in db.mem || e in batch)
    && db' == db.(mem := db'.mem, history := db.history + batch)
  }

  /** The full memtable becomes immutable; the new log takes a file number. */
  ghost predicate Switched(db: Db, db': Db) {
    db.imm.None? && db' == db.(mem := [], imm := Some(db.mem), nextFile := db.nextFile + 1)
  }

  /** File `f` enters level `lvl`. */
  ghost predicate Added(levels: seq<seq<File>>, lvl: nat, f: File, levels': seq<seq<File>>) {
    && |levels'| == |levels| > lvl
    && (forall i :: 0 <= i < |levels'| ==> SortedFiles(levels'[i]))
    && forall i, g {:trigger At(levels', i, g)} :: At(levels', i, g) <==> At(levels, i, g) || (i == lvl && g == f)
  }

  /** Below level 0 a flushed table may only go past levels whose files it does not meet. */
  ghost predicate MayEnter(levels: seq<seq<File>>, lvl: nat, lo: UserKey, hi: UserKey) {
    lvl > 0 ==> forall i, g :: At(levels, i, g) && i <= lvl ==> !Overlaps(g, lo, hi)
  }

  /** The immutable memtable becomes a table; an empty one just goes away. */
  ghost predicate Flushed(db: Db, lvl: nat, f: File, db': Db) {
    && db.imm.Some?
    && if db.imm.value == [] then db' == db.(imm := None, nextFile := db.nextFile + 1)
       else
         && ValidFile(f) && f.entries == db.imm.value && f.number == db.nextFile
         && MayEnter(db.levels, lvl, f.smallest.user, f.largest.user)
         && Added(db.levels, lvl, f, db'.levels)
         && db' == db.(imm := None, levels := db'.levels, nextFile := db.nextFile + 1)
  }

  /** A lone input with nothing to merge moves down as it is. */
  ghost predicate MovedDown(db: Db, c: Inputs, db': Db) {
    && Selected(db.levels, c) && |c.inputs0| == 1 && c.inputs1 == []
    && Moved(db.levels, c, c.inputs0, db'.levels)
    && db' == db.(levels := db'.levels)
  }

  ghost predicate Snapped(db: Db, db': Db) {
    db' == db.(snapshots := db.snapshots + [|db.history|])
  }

  ghost predicate Released(db: Db, i: nat, db': Db) {
    i < |db.snapshots| && db' == db.(snapshots := db.snapshots[..i] + db.snapshots[i + 1..])
  }

  datatype Step =
    | Write(batch: seq<Entry>)
    | Switch
    | Flush(lvl: nat, f: File)
    | MoveDown(c: Inputs)
    | Compact(c: Inputs, m: seq<Entry>, outputs: seq<File>)
    | Snap
    | Release(i: nat)

  ghost predicate Next(db: Db, step: Step, db': Db) {
    match step
    case Write(batch) => Written(db, batch, db')
    case Switch => Switched(db, db')
    case Flush(lvl, f) => Flushed(db, lvl, f, db')
    case MoveDown(c) => MovedDown(db, c, db')
    case Compact(c, m, outputs) => Compacted(db, c, m, outputs, db')
    case Snap => Snapped(db, db')
    case Release(i) => Released(db, i, db')
  }

  /** The condition under which a step loses nothing: only a compaction has one. */
  ghost predicate Safe(db: Db, step: Step) {
    step.Compact? ==> NoResurrection(db, step.c, step.m)
  }

  // Reads

  /** Same entries, same history, no older reads: reads still agree. */
  lemma SameContents(db: Db, db': Db)
    requires forall e :: InTree(db', e) <==> InTree(db, e)
    requires db'.history == db.history && db'.SmallestSnapshot() >= db.SmallestSnapshot()
    ensures ReadsAgree(db) ==> ReadsAgree(db')
  {
    forall k, s, o | ReadsAgree(db) && db'.SmallestSnapshot() <= s <= |db'.history| && Visible(db', k, s, o)
      ensures Report(o) == Report(Lookup(db'.history, k, s))
    {
      assert Visible(db, k, s, o);
    }
  }

  lemma SameReadsAgree(db: Db, db': Db)
    requires Recorded(db) && ReadsAgree(db) && SameReads(db, db')
    requires db'.history == db.history && db'.snapshots == db.snapshots
    ensures ReadsAgree(db')
  {
    forall k, s, o' | db'.SmallestSnapshot() <= s <= |db'.history| && Visible(db', k, s, o')
      ensures Report(o') == Report(Lookup(db'.history, k, s))
    {
      var o := SomeVisible(db, k, s);
    }
  }

  lemma {:induction false} LookupSkips(history: seq<Entry>, k: UserKey, a: nat, b: nat)
    requires a <= b <= |history|
    requires forall i :: a <= i < b ==> history[i].key.user != k
    ensures Lookup(history, k, b) == Lookup(history, k, a)
  {
    if a < b {
      LookupSkips(history, k, a, b - 1);
    }
  }

  // Writes

  lemma WrittenContents(db: Db, batch: seq<Entry>, db': Db, e: Entry)
    requires Written(db, batch, db')
    ensures InTree(db', e) <==> InTree(db, e) || e in batch
  {
  }

  lemma WrittenKeepsRecorded(db: Db, batch: seq<Entry>, db': Db)
    requires Recorded(db) && Written(db, batch, db')
    ensures Recorded(db')
  {
    forall e | InTree(db', e)
      ensures 1 <= e.key.sn <= |db'.history| && db'.history[e.key.sn - 1] == e
    {
      WrittenContents(db, batch, db', e);
      if e in batch {
        var i :| 0 <= i < |batch| && batch[i] == e;
      }
    }
  }

  lemma WrittenKeepsMemNewest(db: Db, batch: seq<Entry>, db': Db)
    requires Recorded(db) && MemNewest(db) && Written(db, batch, db')
    ensures MemNewest(db')
  {
    forall x, y | x in batch && InTree(db, y) ensures x.key.sn > y.key.sn {
    }
    forall y | y in db.ImmEntries() ensures InTree(db, y) {
    }
    forall i, f, y | At(db.levels, i, f) && y in f.entries ensures InTree(db, y) {
    }
  }

  /** A read after a batch: what the batch wrote, and otherwise what was there before. */
  lemma WrittenRead(db: Db, batch: seq<Entry>, db': Db, k: UserKey, s: nat, o: Option<Entry>)
    requires Recorded(db) && ReadsAgree(db) && Written(db, batch, db') && Recorded(db')
    requires db'.SmallestSnapshot() <= s <= |db'.history| && Visible(db', k, s, o)
    requires db.SmallestSnapshot() <= |db.history|
    ensures Report(o) == Report(Lookup(db'.history, k, s))
  {
    var n := |db.history|;
    if s > n && o.Some? && o.value in batch {
      forall i | o.value.key.sn <= i < s ensures db'.history[i].key.user != k {
        var e := batch[i - n];
        assert e in batch && db'.history[i] == e;
        WrittenContents(db, batch, db', e);
      }
      LookupSkips(db'.history, k, o.value.key.sn, s);
    } else {
      var t := if s > n then n else s;
      BatchNotSeen(db, batch, db', k, s, t, o);
      LookupPrefix(db.history, batch, k, t);
    }
  }

  /** If the batch does not show, the read is one that was possible before. */
  lemma BatchNotSeen(db: Db, batch: seq<Entry>, db': Db, k: UserKey, s: nat, t: nat, o: Option<Entry>)
    requires Recorded(db) && Written(db, batch, db') && s <= |db'.history| && Visible(db', k, s, o)
    requires t == if s > |db.history| then |db.history| else s
    requires s > |db.history| && o.Some? ==> o.value !in batch
    ensures Visible(db, k, t, o)
    ensures Lookup(db'.history, k, s) == Lookup(db'.history, k, t)
  {
    var n := |db.history|;
    forall e | InTree(db, e) ensures InTree(db', e) && e.key.sn <= n {
      WrittenContents(db, batch, db', e);
    }
    if o.Some? {
      WrittenContents(db, batch, db', o.value);
    }
    forall i | t <= i < s ensures db'.history[i].key.user != k {
      var e := batch[i - n];
      assert e in batch && db'.history[i] == e;
      WrittenContents(db, batch, db', e);
      assert e.key.user == k ==> Matches(e, k, s);
    }
    LookupSkips(db'.history, k, t, s);
  }

  lemma WrittenKeeps(db: Db, batch: seq<Entry>, db': Db)
    requires Structured(db) && Written(db, batch, db')
    ensures Structured(db') && (ReadsAgree(db) ==> ReadsAgree(db'))
  {
    hide Visible, OrderedLevels, ValidLevels, NewerFirst;
    WrittenKeepsRecorded(db, batch, db');
    WrittenKeepsMemNewest(db, batch, db');
    forall k, s, o | ReadsAgree(db) && db'.SmallestSnapshot() <= s <= |db'.history| && Visible(db', k, s, o)
      ensures Report(o) == Report(Lookup(db'.history, k, s))
    {
      WrittenRead(db, batch, db', k, s, o);
    }
  }

  // Memtable switch and flush

  lemma SwitchedKeeps(db: Db, db': Db)
    requires Structured(db) && Switched(db, db')
    ensures Structured(db') && (ReadsAgree(db) ==> ReadsAgree(db'))
  {
    hide ReadsAgree, OrderedLevels, NewerFirst;
    assert forall e :: InTree(db', e) <==> InTree(db, e);
    SameContents(db, db');
  }

  lemma FlushedKeepsLevels(db: Db, lvl: nat, f: File, db': Db)
    requires Structured(db) && Flushed(db, lvl, f, db') && db.imm.value != []
    ensures ValidLevels(db'.levels, db'.nextFile) && OrderedLevels(db'.levels)
  {
    hide NewerFirst, MemNewest, Recorded, ValidSnapshots, SortedFiles;
    BoundsOrder(f);
    forall i, g | At(db.levels, i, g) && i == lvl >= 1 ensures Apart(f, g) {
      BoundsOrder(g);
    }
  }

  lemma FlushedKeepsNewerFirst(db: Db, lvl: nat, f: File, db': Db)
    requires Structured(db) && Flushed(db, lvl, f, db') && db.imm.value != []
    ensures NewerFirst(db'.levels)
  {
    hide OrderedLevels, Recorded, ValidSnapshots, SortedFiles;
    forall i, g | At(db.levels, i, g)
      ensures Newer(f.entries, g.entries)
      ensures i < lvl ==> Newer(g.entries, f.entries)
    {
      assert Newer(db.ImmEntries(), g.entries);
      if i < lvl {
        forall x, y | x in g.entries && y in f.entries ensures x.key.user != y.key.user {
          BoundsOf(g, x);
          BoundsOf(f, y);
        }
      }
    }
  }

  lemma FlushedKeepsRest(db: Db, lvl: nat, f: File, db': Db)
    requires Structured(db) && Flushed(db, lvl, f, db') && db.imm.value != []
    ensures MemNewest(db') && forall e :: InTree(db', e) <==> InTree(db, e)
  {
    hide OrderedLevels, ValidLevels, Recorded, ValidSnapshots, SortedFiles, NewerFirst;
    assert At(db'.levels, lvl, f);
    forall e | InTree(db, e) ensures InTree(db', e) {
      if i, g :| At(db.levels, i, g) && e in g.entries {
        assert At(db'.levels, i, g);
      }
    }
  }

  lemma FlushedKeeps(db: Db, lvl: nat, f: File, db': Db)
    requires Structured(db) && Flushed(db, lvl, f, db')
    ensures Structured(db') && (ReadsAgree(db) ==> ReadsAgree(db'))
  {
    hide ReadsAgree, Flushed, NewerFirst, OrderedLevels, SortedFiles;
    FlushedFrame(db, lvl, f, db');
    if db.imm == Some([]) {
      FlushedEmpty(db, lvl, f, db');
    } else {
      FlushedKeepsLevels(db, lvl, f, db');
      FlushedKeepsNewerFirst(db, lvl, f, db');
      FlushedKeepsRest(db, lvl, f, db');
      SameContents(db, db');
    }
  }

  lemma FlushedFrame(db: Db, lvl: nat, f: File, db': Db)
    requires Flushed(db, lvl, f, db')
    ensures db'.history == db.history && db'.snapshots == db.snapshots && db.imm.Some? && db'.imm.None?
  {
  }

  lemma FlushedEmpty(db: Db, lvl: nat, f: File, db': Db)
    requires Structured(db) && Flushed(db, lvl, f, db') && db.imm == Some([])
    ensures Structured(db') && (ReadsAgree(db) ==> ReadsAgree(db'))
  {
    hide ReadsAgree, OrderedLevels, NewerFirst;
    assert forall e :: InTree(db', e) <==> InTree(db, e);
    SameContents(db, db');
  }

  // Trivial move and compaction

  lemma MovedDownKeeps(db: Db, c: Inputs, db': Db)
    requires Structured(db) && MovedDown(db, c, db')
    ensures Structured(db') && (ReadsAgree(db) ==> ReadsAgree(db'))
  {
    hide ReadsAgree, OrderedLevels, NewerFirst, MemNewest, ValidSnapshots, SortedFiles, BoundaryClosed, SpanOf,
      Recorded, OverlapClosed, Distinct;
    var f := c.inputs0[0];
    assert c.inputs0 == [f] && At(db.levels, c.level, f);
    assert Fitting(c, c.inputs0) by {
      forall e | e in f.entries ensures FromInput(c, e) {
        assert IsInput(c, c.level, f);
      }
    }
    MovedKeepsStructure(db, c, c.inputs0, db');
    assert At(db'.levels, c.level + 1, f);
    forall e ensures InTree(db', e) <==> InTree(db, e) {
      if InTree(db', e) {
        MovedAddsNothing(db, c, c.inputs0, db', e);
      }
      if i, g :| At(db.levels, i, g) && e in g.entries {
        assert At(db'.levels, i, g) || g == f;
      }
    }
    SameContents(db, db');
  }

  lemma CompactedKeeps(db: Db, c: Inputs, m: seq<Entry>, outputs: seq<File>, db': Db)
    requires Structured(db) && Compacted(db, c, m, outputs, db')
    ensures Structured(db') && (ReadsAgree(db) && NoResurrection(db, c, m) ==> ReadsAgree(db'))
  {
    hide ReadsAgree, OrderedLevels, NewerFirst, MemNewest, ValidLevels, Selected, Moved;
    CompactedFits(db, c, m, outputs, db');
    InvisibleIffNoResurrection(db, c, m, outputs, db');
    if ReadsAgree(db) && NoResurrection(db, c, m) {
      SameReadsAgree(db, db');
    }
  }

  // Snapshots

  lemma SnappedKeeps(db: Db, db': Db)
    requires Structured(db) && Snapped(db, db')
    ensures Structured(db') && (ReadsAgree(db) ==> ReadsAgree(db'))
  {
    hide ReadsAgree, OrderedLevels, NewerFirst, ValidLevels;
    assert forall e :: InTree(db', e) <==> InTree(db, e);
    SameContents(db, db');
  }

  lemma ReleasedKeeps(db: Db, i: nat, db': Db)
    requires Structured(db) && Released(db, i, db')
    ensures Structured(db') && (ReadsAgree(db) ==> ReadsAgree(db'))
  {
    hide ReadsAgree, OrderedLevels, NewerFirst, ValidLevels;
    assert forall e :: InTree(db', e) <==> InTree(db, e);
    assert forall j :: 0 <= j < |db'.snapshots| ==> db'.snapshots[j] == db.snapshots[if j < i then j else j + 1];
    SameContents(db, db');
  }

  // Runs

  /** Every step keeps the shape of the tree, and a safe one keeps every possible read. */
  lemma NextKeeps(db: Db, step: Step, db': Db)
    requires Structured(db) && Next(db, step, db')
    ensures Structured(db') && (ReadsAgree(db) && Safe(db, step) ==> ReadsAgree(db'))
  {
    hide Structured, ReadsAgree;
    match step
    case Write(batch) => WrittenKeeps(db, batch, db');
    case Switch => SwitchedKeeps(db, db');
    case Flush(lvl, f) => FlushedKeeps(db, lvl, f, db');
    case MoveDown(c) => MovedDownKeeps(db, c, db');
    case Compact(c, m, outputs) => CompactedKeeps(db, c, m, outputs, db');
    case Snap => SnappedKeeps(db, db');
    case Release(i) => ReleasedKeeps(db, i, db');
  }

  /** States and the steps between them, from the empty database. */
  ghost predicate IsRun(states: seq<Db>, steps: seq<Step>) {
    && |states| == |steps| + 1 && states[0] == EmptyDb()
    && forall i :: 0 <= i < |steps| ==> Next(states[i], steps[i], states[i + 1])
  }

  ghost predicate AllSafe(states: seq<Db>, steps: seq<Step>, n: nat)
    requires n <= |steps| < |states|
  {
    forall i :: 0 <= i < n ==> Safe(states[i], steps[i])
  }

  /** The shape of the tree is kept in every run, whatever compactions drop. */
  lemma {:induction false} RunsKeepStructure(states: seq<Db>, steps: seq<Step>, n: nat)
    requires IsRun(states, steps) && n < |states|
    ensures Structured(states[n])
  {
    hide Structured, ReadsAgree, Next;
    if n == 0 {
      EmptyDbInv();
    } else {
      RunsKeepStructure(states, steps, n - 1);
      NextKeeps(states[n - 1], steps[n - 1], states[n]);
    }
  }

  /**
    Every run of safe steps keeps the invariant.  With `Reads.TreeGet`, a read at any snapshot
    that is still possible, in any state of the run, reports what the history of writes says.
   */
  lemma {:induction false} RunsKeepInv(states: seq<Db>, steps: seq<Step>, n: nat)
    requires IsRun(states, steps) && n < |states| && AllSafe(states, steps, n)
    ensures Inv(states[n])
  {
    hide Structured, ReadsAgree, Next;
    if n == 0 {
      EmptyDbInv();
    } else {
      RunsKeepInv(states, steps, n - 1);
      NextKeeps(states[n - 1], steps[n - 1], states[n]);
    }
  }

  /** After a compaction that uncovers a value, a read no longer agrees with the history. */
  lemma UnsafeBreaks(db: Db, c: Inputs, m: seq<Entry>, outputs: seq<File>, db': Db)
    requires Inv(db) && Compacted(db, c, m, outputs, db') && !NoResurrection(db, c, m)
    ensures !ReadsAgree(db')
  {
    hide Compacted, Structured, Visible, Lookup;
    var i: nat, w :| Uncovers(db, c, m, i, w);
    UncoveredShows(db, c, m, outputs, db', i, w);
    OldestIsPossible(db, c, m, outputs, db');
    var k, s := m[i].key.user, db.SmallestSnapshot();
    assert Report(Some(m[i])) == Report(Lookup(db.history, k, s));
    assert Report(Some(w)) != Report(Some(m[i]));
  }

  lemma OldestIsPossible(db: Db, c: Inputs, m: seq<Entry>, outputs: seq<File>, db': Db)
    requires Structured(db) && Compacted(db, c, m, outputs, db')
    ensures db.SmallestSnapshot() <= |db.history| && db'.history == db.history
    ensures db'.SmallestSnapshot() == db.SmallestSnapshot()
  {
  }

  /** Reads agree with the history in every state of a run if and only if every step of it was safe. */
  lemma RunsCorrectIffSafe(states: seq<Db>, steps: seq<Step>)
    requires IsRun(states, steps)
    ensures (forall n :: 0 <= n < |states| ==> Inv(states[n])) <==> AllSafe(states, steps, |steps|)
  {
    hide Structured, ReadsAgree, NoResurrection, Compacted;
    if AllSafe(states, steps, |steps|) {
      forall n | 0 <= n < |states| ensures Inv(states[n]) {
        RunsKeepInv(states, steps, n);
      }
    }
    if forall n :: 0 <= n < |states| ==> Inv(states[n]) {
      forall i | 0 <= i < |steps| ensures Safe(states[i], steps[i]) {
        assert Inv(states[i]) && Inv(states[i + 1]) && Next(states[i], steps[i], states[i + 1]);
        if !Safe(states[i], steps[i]) {
          UnsafeBreaks(states[i], steps[i].c, steps[i].m, steps[i].outputs, states[i + 1]);
        }
      }
    }
  }

  /** In any state of a run of safe steps, what a still possible read finds is the newest write it may see. */
  lemma RunsReadCorrectly(states: seq<Db>, steps: seq<Step>, n: nat, k: UserKey, s: nat, o: Option<Entry>)
    requires IsRun(states, steps) && n < |states| && AllSafe(states, steps, n)
    requires states[n].SmallestSnapshot() <= s <= |states[n].history| && Visible(states[n], k, s, o)
    ensures Report(o) == Report(Lookup(states[n].history, k, s))
  {
    hide Visible, Next;
    RunsKeepInv(states, steps, n);
  }
}
