/**
  A compaction keeps the shape of the tree, and it changes no read a client can still make
  exactly when no deletion it drops uncovers an older value left behind in the next level.
 */
module CompactionInvisible {
  import opened Basics
  import opened InternalKeys
  import opened LsmTree
  import opened CompactionInputs
  import opened CompactionWork

  // The step

  /** The compaction reads file `f` of level `i`. */
  predicate IsInput(c: Inputs, i: int, f: File) {
    (i == c.level && f in c.inputs0) || (i == c.level + 1 && f in c.inputs1)
  }

  ghost predicate FromInput(c: Inputs, e: Entry) {
    exists i, g :: IsInput(c, i, g) && e in g.entries
  }

  /** `m` is the sorted merge of all input files. */
  ghost predicate IsMerged(m: seq<Entry>, c: Inputs) {
    SortedEntries(m) && forall e :: e in m <==> FromInput(c, e)
  }

  /** The inputs of `c` leave and `outputs` enter the next level. */
  ghost predicate Moved(levels: seq<seq<File>>, c: Inputs, outputs: seq<File>, levels': seq<seq<File>>) {
    && |levels'| == |levels| > c.level + 1
    && (forall i :: 0 <= i < |levels'| ==> SortedFiles(levels'[i]))
    && forall i, f {:trigger At(levels', i, f)} ::
         At(levels', i, f) <==> (At(levels, i, f) && !IsInput(c, i, f)) || (i == c.level + 1 && f in outputs)
  }

  /** The outputs are disjoint valid tables whose entries all come from the inputs. */
  ghost predicate Fitting(c: Inputs, outputs: seq<File>) {
    && ValidFiles(outputs) && AllApart(outputs)
    && forall f :: f in outputs ==> AllFromInputs(c, f)
  }

  ghost predicate AllFromInputs(c: Inputs, f: File) {
    forall e :: e in f.entries ==> FromInput(c, e)
  }

  /** Output numbers are new, or numbers of files that leave. */
  ghost predicate Numbered(c: Inputs, outputs: seq<File>, nextFile: nat, nextFile': nat) {
    && nextFile <= nextFile'
    && (forall f :: f in outputs ==> f.number < nextFile' && (f.number >= nextFile || f in c.inputs0))
    && forall f, g :: f in outputs && g in outputs && f.number == g.number ==> f == g
  }

  lemma InputAt(levels: seq<seq<File>>, c: Inputs, i: int, f: File)
    requires Selected(levels, c) && IsInput(c, i, f)
    ensures At(levels, i, f)
  {
  }

  // Shape

  /** Two entries of one user key in two files apart: the earlier file holds the newer one. */
  lemma EarlierFileIsNewer(db: Db, i: nat, f: File, g: File, x: Entry, y: Entry)
    requires Recorded(db) && At(db.levels, i, f) && At(db.levels, i, g)
    requires ValidFile(f) && ValidFile(g) && x in f.entries && y in g.entries
    requires Before(f.largest, g.smallest) && x.key.user == y.key.user
    ensures x.key.sn > y.key.sn
  {
    BoundsOf(f, x);
    BoundsOf(g, y);
    if x.key.sn == y.key.sn {
      SameSequence(db, x, y);
    }
  }

  /** A file that stays in the level is newer than the inputs taken from it. */
  lemma StayingIsNewer(db: Db, c: Inputs, f: File, g: File)
    requires Recorded(db) && ValidLevels(db.levels, db.nextFile) && OrderedLevels(db.levels) && Selected(db.levels, c)
    requires At(db.levels, c.level, f) && f !in c.inputs0 && g in c.inputs0
    ensures Newer(f.entries, g.entries)
  {
    hide SortedFiles, SpanOf, Distinct;
    assert At(db.levels, c.level, g);
    forall x, y | x in f.entries && y in g.entries && x.key.user == y.key.user
      ensures x.key.sn > y.key.sn
    {
      BoundsOf(f, x);
      BoundsOf(g, y);
      if c.level == 0 {
        assert false;
      } else {
        assert Apart(f, g) && !Continues(f, g);
        EarlierFileIsNewer(db, c.level, f, g, x, y);
      }
    }
  }

  /** A file of the next level that is not an input lies wholly before or after all inputs. */
  lemma LeftBehindIsApart(levels: seq<seq<File>>, nextFile: nat, c: Inputs, x: File, f: File)
    requires ValidLevels(levels, nextFile) && OrderedLevels(levels) && Selected(levels, c)
    requires At(levels, c.level + 1, x) && x !in c.inputs1
    requires ValidFile(f) && AllFromInputs(c, f)
    ensures Apart(x, f)
  {
    hide ValidLevels, OrderedLevels, Selected;
    forall e | e in f.entries
      ensures if x.largest.user < c.lo then Before(x.largest, e.key) else Before(e.key, x.smallest)
    {
      assert FromInput(c, e);
      var i, g :| IsInput(c, i, g) && e in g.entries;
      InputOnOneSide(levels, nextFile, c, x, i, g, e);
    }
    assert f.entries[0] in f.entries && f.entries[|f.entries| - 1] in f.entries;
  }

  lemma InputOnOneSide(levels: seq<seq<File>>, nextFile: nat, c: Inputs, x: File, i: int, g: File, e: Entry)
    requires ValidLevels(levels, nextFile) && OrderedLevels(levels) && Selected(levels, c)
    requires At(levels, c.level + 1, x) && x !in c.inputs1 && IsInput(c, i, g) && e in g.entries
    ensures if x.largest.user < c.lo then Before(x.largest, e.key) else Before(e.key, x.smallest)
  {
    hide SortedFiles, Distinct, BoundaryClosed, OverlapClosed;
    InputAt(levels, c, i, g);
    BoundsOrder(x);
    BoundsOf(g, e);
    assert !InRange(x, Some(c.lo), Some(c.hi));
    if i == c.level + 1 {
      assert InRange(g, Some(c.lo), Some(c.hi)) && Apart(x, g);
    } else {
      assert c.lo <= g.smallest.user && g.largest.user <= c.hi;
    }
  }

  lemma MovedKeepsLevelsValid(db: Db, c: Inputs, outputs: seq<File>, levels': seq<seq<File>>, nextFile': nat)
    requires ValidLevels(db.levels, db.nextFile) && Selected(db.levels, c)
    requires ValidFiles(outputs) && Numbered(c, outputs, db.nextFile, nextFile')
    requires Moved(db.levels, c, outputs, levels')
    ensures ValidLevels(levels', nextFile')
  {
    forall i, j, f, g | At(levels', i, f) && At(levels', j, g) && f.number == g.number
      ensures i == j && f == g
    {
      assert f in c.inputs0 ==> At(db.levels, c.level, f);
      assert g in c.inputs0 ==> At(db.levels, c.level, g);
    }
  }

  lemma MovedKeepsOrder(db: Db, c: Inputs, outputs: seq<File>, levels': seq<seq<File>>)
    requires ValidLevels(db.levels, db.nextFile) && OrderedLevels(db.levels) && Selected(db.levels, c)
    requires Fitting(c, outputs) && Moved(db.levels, c, outputs, levels')
    ensures OrderedLevels(levels')
  {
    forall i, f, g | At(levels', i, f) && At(levels', i, g) && i >= 1 && f != g ensures Apart(f, g) {
      if i == c.level + 1 && f in outputs && g !in outputs {
        LeftBehindIsApart(db.levels, db.nextFile, c, g, f);
      } else if i == c.level + 1 && g in outputs && f !in outputs {
        LeftBehindIsApart(db.levels, db.nextFile, c, f, g);
      }
    }
  }

  lemma NewerThanMoved(db: Db, c: Inputs, i: nat, f: File, g: File)
    requires Recorded(db) && ValidLevels(db.levels, db.nextFile) && OrderedLevels(db.levels) && NewerFirst(db.levels)
    requires Selected(db.levels, c)
    requires i <= c.level && At(db.levels, i, f) && !IsInput(c, i, f) && AllFromInputs(c, g)
    ensures Newer(f.entries, g.entries)
  {
    forall x, y | x in f.entries && y in g.entries && x.key.user == y.key.user ensures x.key.sn > y.key.sn {
      assert FromInput(c, y);
      var j, h :| IsInput(c, j, h) && y in h.entries;
      InputAt(db.levels, c, j, h);
      if j == i {
        StayingIsNewer(db, c, f, h);
      }
      assert Newer(f.entries, h.entries);
    }
  }

  lemma MovedNewerThan(db: Db, c: Inputs, j: nat, f: File, g: File)
    requires NewerFirst(db.levels) && Selected(db.levels, c)
    requires c.level + 1 < j && At(db.levels, j, g) && AllFromInputs(c, f)
    ensures Newer(f.entries, g.entries)
  {
    forall x, y | x in f.entries && y in g.entries && x.key.user == y.key.user ensures x.key.sn > y.key.sn {
      assert FromInput(c, x);
      var i, h :| IsInput(c, i, h) && x in h.entries;
      InputAt(db.levels, c, i, h);
      assert Newer(h.entries, g.entries);
    }
  }

  /** Shallower files stay newer than everything that moved down, and that than deeper files. */
  lemma MovedKeepsNewerFirst(db: Db, c: Inputs, outputs: seq<File>, levels': seq<seq<File>>)
    requires Recorded(db) && ValidLevels(db.levels, db.nextFile) && OrderedLevels(db.levels) && NewerFirst(db.levels)
    requires Selected(db.levels, c)
    requires Fitting(c, outputs) && Moved(db.levels, c, outputs, levels')
    ensures NewerFirst(levels')
  {
    forall i, j, f, g | At(levels', i, f) && At(levels', j, g) && i < j
      ensures Newer(f.entries, g.entries)
    {
      if j == c.level + 1 && g in outputs {
        NewerThanMoved(db, c, i, f, g);
      } else if i == c.level + 1 && f in outputs {
        MovedNewerThan(db, c, j, f, g);
      }
    }
  }

  lemma InputsInTree(db: Db, c: Inputs, e: Entry)
    requires Selected(db.levels, c) && FromInput(c, e)
    ensures InTree(db, e)
  {
    var i, g :| IsInput(c, i, g) && e in g.entries;
    InputAt(db.levels, c, i, g);
  }

  /** A move brings no entry into the tree. */
  lemma MovedAddsNothing(db: Db, c: Inputs, outputs: seq<File>, db': Db, e: Entry)
    requires Selected(db.levels, c) && Fitting(c, outputs) && Moved(db.levels, c, outputs, db'.levels)
    requires db'.mem == db.mem && db'.imm == db.imm && InTree(db', e)
    ensures InTree(db, e)
  {
    if e !in db.mem && e !in db.ImmEntries() {
      var i, f :| At(db'.levels, i, f) && e in f.entries;
      if !At(db.levels, i, f) {
        InputsInTree(db, c, e);
      }
    }
  }

  lemma MovedKeepsMemNewest(db: Db, c: Inputs, outputs: seq<File>, db': Db)
    requires Selected(db.levels, c) && MemNewest(db)
    requires Fitting(c, outputs) && Moved(db.levels, c, outputs, db'.levels)
    requires db'.mem == db.mem && db'.imm == db.imm
    ensures MemNewest(db')
  {
    forall i, f | At(db'.levels, i, f)
      ensures Newer(db.mem, f.entries) && Newer(db.ImmEntries(), f.entries)
    {
      if !At(db.levels, i, f) {
        MemNewerThanMoved(db, c, f);
      }
    }
  }

  lemma MemNewerThanMoved(db: Db, c: Inputs, f: File)
    requires Selected(db.levels, c) && MemNewest(db) && AllFromInputs(c, f)
    ensures Newer(db.mem, f.entries) && Newer(db.ImmEntries(), f.entries)
  {
    forall y | y in f.entries
      ensures forall x :: (x in db.mem || x in db.ImmEntries()) && x.key.user == y.key.user ==> x.key.sn > y.key.sn
    {
      assert FromInput(c, y);
      var i, h :| IsInput(c, i, h) && y in h.entries;
      InputAt(db.levels, c, i, h);
      assert Newer(db.mem, h.entries) && Newer(db.ImmEntries(), h.entries);
    }
  }

  /** Moving selected inputs down one level keeps the whole shape of the tree. */
  lemma MovedKeepsStructure(db: Db, c: Inputs, outputs: seq<File>, db': Db)
    requires Structured(db) && Selected(db.levels, c)
    requires Fitting(c, outputs) && Numbered(c, outputs, db.nextFile, db'.nextFile)
    requires Moved(db.levels, c, outputs, db'.levels)
    requires db' == db.(levels := db'.levels, nextFile := db'.nextFile)
    ensures Structured(db')
  {
    MovedKeepsLevelsValid(db, c, outputs, db'.levels, db'.nextFile);
    MovedKeepsOrder(db, c, outputs, db'.levels);
    MovedKeepsNewerFirst(db, c, outputs, db'.levels);
    MovedKeepsMemNewest(db, c, outputs, db');
    assert Recorded(db') by {
      forall e | InTree(db', e) ensures InTree(db, e) {
        MovedAddsNothing(db, c, outputs, db', e);
      }
    }
  }

  // Reads

  /** An entry in a file of the next level that the compaction does not read. */
  ghost predicate LeftBehind(db: Db, c: Inputs, e: Entry) {
    exists f :: At(db.levels, c.level + 1, f) && f !in c.inputs1 && e in f.entries
  }

  /** Some place that the compaction does not touch holds `e`. */
  ghost predicate Untouched(db: Db, c: Inputs, e: Entry) {
    || e in db.mem || e in db.ImmEntries()
    || exists i, f :: At(db.levels, i, f) && !IsInput(c, i, f) && e in f.entries
  }

  /** In a file the compaction does not read, an entry no newer than an input one lies deeper. */
  lemma OlderFile(db: Db, c: Inputs, j: int, g: File, v: Entry, i: int, f: File, w: Entry)
    requires Recorded(db) && ValidLevels(db.levels, db.nextFile) && OrderedLevels(db.levels) && NewerFirst(db.levels)
    requires Selected(db.levels, c)
    requires IsInput(c, j, g) && At(db.levels, j, g) && v in g.entries
    requires At(db.levels, i, f) && !IsInput(c, i, f) && w in f.entries
    requires w.key.user == v.key.user && w.key.sn <= v.key.sn
    ensures w != v && i >= c.level + 1
  {
    hide Selected, SortedFiles, Recorded;
    if i < j {
      assert false;
    } else if i == j == c.level {
      StayingIsNewer(db, c, f, g);
      assert false;
    } else if i == j {
      assert Apart(f, g);
      BoundsOf(f, w);
      BoundsOf(g, v);
    } else {
      assert Newer(g.entries, f.entries);
    }
  }

  /** Below an input entry, untouched entries of its user key are left behind or deeper. */
  lemma OlderUntouched(db: Db, c: Inputs, v: Entry, w: Entry)
    requires Structured(db) && Selected(db.levels, c)
    requires FromInput(c, v) && Untouched(db, c, w) && w.key.user == v.key.user && w.key.sn <= v.key.sn
    ensures w != v
    ensures LeftBehind(db, c, w) || exists i, f :: At(db.levels, i, f) && i >= c.level + 2 && w in f.entries
  {
    hide ValidLevels, OrderedLevels, NewerFirst, Recorded, ValidSnapshots, Selected;
    var j, g :| IsInput(c, j, g) && v in g.entries;
    InputAt(db.levels, c, j, g);
    assert w !in db.mem && w !in db.ImmEntries() by {
      assert Newer(db.mem, g.entries) && Newer(db.ImmEntries(), g.entries);
    }
    var i, f :| At(db.levels, i, f) && !IsInput(c, i, f) && w in f.entries;
    OlderFile(db, c, j, g, v, i, f, w);
    assert i == c.level + 1 ==> LeftBehind(db, c, w);
  }

  /** What a compaction that merges `m` at the oldest snapshot does to the tree. */
  ghost predicate Compacted(db: Db, c: Inputs, m: seq<Entry>, outputs: seq<File>, db': Db) {
    && Selected(db.levels, c) && IsMerged(m, c)
    && ValidOutputs(outputs, db.nextFile)
    && Concat(outputs) == Survivors(m, |m|, db.SmallestSnapshot(), db.levels, c.level)
    && Moved(db.levels, c, outputs, db'.levels)
    && db' == db.(levels := db'.levels, nextFile := db.nextFile + |outputs|)
  }

  ghost predicate DropsDeletion(db: Db, c: Inputs, m: seq<Entry>, i: nat) {
    i < |m| && ObsoleteDeletion(m, i, db.SmallestSnapshot(), db.levels, c.level)
  }

  /**
    Dropping deletion `m[i]` uncovers the value `w`: reads at the oldest snapshot see the
    deletion, and `w` is the newest older entry of the key that is left behind.
   */
  ghost predicate Uncovers(db: Db, c: Inputs, m: seq<Entry>, i: nat, w: Entry) {
    && DropsDeletion(db, c, m, i)
    && Visible(db, m[i].key.user, db.SmallestSnapshot(), Some(m[i]))
    && OlderLeftBehind(db, c, m[i], w) && w.key.kind == Value
    && forall x :: OlderLeftBehind(db, c, m[i], x) ==> x.key.sn <= w.key.sn
  }

  ghost predicate OlderLeftBehind(db: Db, c: Inputs, v: Entry, w: Entry) {
    LeftBehind(db, c, w) && w.key.user == v.key.user && w.key.sn < v.key.sn
  }

  ghost predicate NoResurrection(db: Db, c: Inputs, m: seq<Entry>) {
    forall i: nat, w :: !Uncovers(db, c, m, i, w)
  }

  /** Every read at the oldest snapshot or later reports the same before and after. */
  ghost predicate SameReads(db: Db, db': Db) {
    forall k, s, o, o' :: s >= db.SmallestSnapshot() && Visible(db, k, s, o) && Visible(db', k, s, o') ==>
      Report(o) == Report(o')
  }

  lemma CompactedFits(db: Db, c: Inputs, m: seq<Entry>, outputs: seq<File>, db': Db)
    requires Structured(db) && Compacted(db, c, m, outputs, db')
    ensures Fitting(c, outputs) && Numbered(c, outputs, db.nextFile, db'.nextFile)
    ensures Structured(db')
  {
    hide Structured, Selected, Moved, Kept;
    SurvivorsSorted(m, |m|, db.SmallestSnapshot(), db.levels, c.level);
    SurvivorsAreKept(m, |m|, db.SmallestSnapshot(), db.levels, c.level);
    OutputsOrdered(outputs, db.nextFile);
    ConcatContents(outputs);
    forall f | f in outputs ensures AllFromInputs(c, f) {
      forall e | e in f.entries ensures FromInput(c, e) {
        assert e in Concat(outputs);
      }
    }
    MovedKeepsStructure(db, c, outputs, db');
  }

  /** The tree after a compaction: what it did not touch, and the survivors. */
  lemma CompactedContents(db: Db, c: Inputs, m: seq<Entry>, outputs: seq<File>, db': Db, e: Entry)
    requires Compacted(db, c, m, outputs, db')
    ensures InTree(db', e) <==>
              || Untouched(db, c, e)
              || exists i :: 0 <= i < |m| && m[i] == e && Kept(m, i, db.SmallestSnapshot(), db.levels, c.level)
  {
    SurvivorsAreKept(m, |m|, db.SmallestSnapshot(), db.levels, c.level);
    ConcatContents(outputs);
    if InTree(db', e) && e !in db.mem && e !in db.ImmEntries() {
      var i, f :| At(db'.levels, i, f) && e in f.entries;
    }
    if e in Concat(outputs) {
      var f :| f in outputs && e in f.entries;
      assert At(db'.levels, c.level + 1, f);
    }
    if i, f :| At(db.levels, i, f) && !IsInput(c, i, f) && e in f.entries {
      assert At(db'.levels, i, f);
    }
  }

  /** Older merged entries of a key whose deletion every read sees are hidden. */
  lemma OlderMergedIsHidden(m: seq<Entry>, i: nat, j: nat, smallest: nat)
    requires SortedEntries(m) && i < |m| && j < |m|
    requires m[i].key.user == m[j].key.user && m[i].key.sn <= smallest && m[j].key.sn < m[i].key.sn
    ensures Hidden(m, j, smallest)
  {
    if i < j - 1 {
      assert Before(m[i].key, m[j - 1].key) && Before(m[j - 1].key, m[j].key);
    }
  }

  /** A deletion that was dropped, and an older visible entry: it must have been left behind. */
  lemma OlderMustBeLeftBehind(db: Db, c: Inputs, m: seq<Entry>, outputs: seq<File>, db': Db, i: nat, w: Entry)
    requires Structured(db) && Compacted(db, c, m, outputs, db') && DropsDeletion(db, c, m, i)
    requires InTree(db', w) && w.key.user == m[i].key.user && w.key.sn <= m[i].key.sn
    ensures OlderLeftBehind(db, c, m[i], w)
  {
    hide NewerFirst, OrderedLevels, MemNewest, ValidSnapshots, Moved, Selected;
    var smallest := db.SmallestSnapshot();
    CompactedContents(db, c, m, outputs, db', w);
    assert m[i] in m && FromInput(c, m[i]);
    InputsInTree(db, c, m[i]);
    MovedAddsNothingAfter(db, c, m, outputs, db', w);
    if w.key.sn == m[i].key.sn {
      SameSequence(db, w, m[i]);
    }
    assert Untouched(db, c, w) by {
      if j :| 0 <= j < |m| && m[j] == w && Kept(m, j, smallest, db.levels, c.level) {
        NotKept(m, i, j, smallest, db.levels, c.level);
      }
    }
    OlderUntouched(db, c, m[i], w);
    if j, f :| At(db.levels, j, f) && j >= c.level + 2 && w in f.entries {
      BoundsOf(f, w);
      assert false;
    }
  }

  /** Neither an obsolete deletion nor an older entry of its user key survives the merge. */
  lemma NotKept(m: seq<Entry>, i: nat, j: nat, smallest: nat, levels: seq<seq<File>>, level: nat)
    requires SortedEntries(m) && i < |m| && j < |m| && ObsoleteDeletion(m, i, smallest, levels, level)
    requires m[i] == m[j] || (m[i].key.user == m[j].key.user && m[j].key.sn < m[i].key.sn)
    ensures !Kept(m, j, smallest, levels, level)
  {
    if m[i] != m[j] {
      OlderMergedIsHidden(m, i, j, smallest);
    }
  }

  lemma MovedAddsNothingAfter(db: Db, c: Inputs, m: seq<Entry>, outputs: seq<File>, db': Db, e: Entry)
    requires Structured(db) && Compacted(db, c, m, outputs, db') && InTree(db', e)
    ensures InTree(db, e)
  {
    CompactedFits(db, c, m, outputs, db');
    MovedAddsNothing(db, c, outputs, db', e);
  }

  /** If a visible entry is gone after the compaction, it was an obsolete deletion. */
  lemma VisibleEntryGone(db: Db, c: Inputs, m: seq<Entry>, outputs: seq<File>, db': Db, k: UserKey, s: nat, v: Entry)
    returns (i: nat)
    requires Structured(db) && Compacted(db, c, m, outputs, db') && s >= db.SmallestSnapshot()
    requires Visible(db, k, s, Some(v)) && !InTree(db', v)
    ensures i < |m| && m[i] == v && DropsDeletion(db, c, m, i)
  {
    CompactedContents(db, c, m, outputs, db', v);
    assert FromInput(c, v) by {
      var j, f :| At(db.levels, j, f) && v in f.entries;
      assert IsInput(c, j, f);
    }
    assert v in m;
    i :| 0 <= i < |m| && m[i] == v;
    HiddenIsNotVisible(db, c, m, i, k, s);
  }

  /** An entry hidden by a newer one is seen by no read at the oldest snapshot or later. */
  lemma HiddenIsNotVisible(db: Db, c: Inputs, m: seq<Entry>, i: nat, k: UserKey, s: nat)
    requires Recorded(db) && Selected(db.levels, c) && IsMerged(m, c)
    requires i < |m| && s >= db.SmallestSnapshot() && Visible(db, k, s, Some(m[i]))
    ensures !Hidden(m, i, db.SmallestSnapshot())
  {
    if Hidden(m, i, db.SmallestSnapshot()) {
      var p, v := m[i - 1], m[i];
      assert p in m && v in m && Before(p.key, v.key);
      InputsInTree(db, c, p);
      InputsInTree(db, c, v);
      if p.key.sn == v.key.sn {
        SameSequence(db, p, v);
      }
    }
  }

  /** If a read sees an entry where a dropped deletion was, that entry was uncovered. */
  lemma ReadSeesUncovered(db: Db, c: Inputs, m: seq<Entry>, outputs: seq<File>, db': Db, k: UserKey, s: nat, i: nat,
      w: Entry)
    requires Structured(db) && Compacted(db, c, m, outputs, db') && DropsDeletion(db, c, m, i)
    requires s >= db.SmallestSnapshot() && Visible(db, k, s, Some(m[i])) && Visible(db', k, s, Some(w))
    ensures w.key.kind == Value ==> Uncovers(db, c, m, i, w)
  {
    hide Structured, Compacted;
    MovedAddsNothingAfter(db, c, m, outputs, db', w);
    OlderMustBeLeftBehind(db, c, m, outputs, db', i, w);
    forall x | OlderLeftBehind(db, c, m[i], x) ensures x.key.sn <= w.key.sn {
      LeftBehindStays(db, c, m, outputs, db', x);
      assert Matches(x, k, s);
    }
  }

  lemma LeftBehindStays(db: Db, c: Inputs, m: seq<Entry>, outputs: seq<File>, db': Db, e: Entry)
    requires Compacted(db, c, m, outputs, db') && LeftBehind(db, c, e)
    ensures InTree(db', e)
  {
    var f :| At(db.levels, c.level + 1, f) && f !in c.inputs1 && e in f.entries;
    assert !IsInput(c, c.level + 1, f);
    CompactedContents(db, c, m, outputs, db', e);
  }

  /** One read: without resurrection it reports the same before and after. */
  lemma SameRead(db: Db, c: Inputs, m: seq<Entry>, outputs: seq<File>, db': Db, k: UserKey, s: nat, o: Option<Entry>,
      o': Option<Entry>)
    requires Structured(db) && Compacted(db, c, m, outputs, db') && NoResurrection(db, c, m)
    requires s >= db.SmallestSnapshot() && Visible(db, k, s, o) && Visible(db', k, s, o')
    ensures Report(o) == Report(o')
  {
    if o'.Some? {
      MovedAddsNothingAfter(db, c, m, outputs, db', o'.value);
    }
    if o.Some? {
      if InTree(db', o.value) {
        SameSequence(db, o.value, o'.value);
      } else {
        var i := VisibleEntryGone(db, c, m, outputs, db', k, s, o.value);
        if o'.Some? {
          ReadSeesUncovered(db, c, m, outputs, db', k, s, i, o'.value);
        }
      }
    }
  }

  /** An uncovered value shows at the oldest snapshot, where the deletion showed before. */
  lemma UncoveredShows(db: Db, c: Inputs, m: seq<Entry>, outputs: seq<File>, db': Db, i: nat, w: Entry)
    requires Structured(db) && Compacted(db, c, m, outputs, db') && Uncovers(db, c, m, i, w)
    ensures Visible(db', m[i].key.user, db.SmallestSnapshot(), Some(w))
  {
    var k, s := m[i].key.user, db.SmallestSnapshot();
    LeftBehindStays(db, c, m, outputs, db', w);
    forall x | InTree(db', x) && Matches(x, k, s) ensures x.key.sn <= w.key.sn {
      MovedAddsNothingAfter(db, c, m, outputs, db', x);
      OlderMustBeLeftBehind(db, c, m, outputs, db', i, x);
    }
  }

  /**
    Main theorem: a compaction is invisible to every read that is still possible if and only
    if no deletion it drops uncovers a value left behind in the next level.
   */
  lemma InvisibleIffNoResurrection(db: Db, c: Inputs, m: seq<Entry>, outputs: seq<File>, db': Db)
    requires Structured(db) && Compacted(db, c, m, outputs, db')
    ensures SameReads(db, db') <==> NoResurrection(db, c, m)
  {
    hide Structured, Compacted, Visible;
    if NoResurrection(db, c, m) {
      forall k, s, o, o' | s >= db.SmallestSnapshot() && Visible(db, k, s, o) && Visible(db', k, s, o')
        ensures Report(o) == Report(o')
      {
        SameRead(db, c, m, outputs, db', k, s, o, o');
      }
    } else {
      var i: nat, w :| Uncovers(db, c, m, i, w);
      UncoveredShows(db, c, m, outputs, db', i, w);
      assert Report(Some(m[i])) != Report(Some(w));
    }
  }

  /**
    The missing step: had the selection also closed its lower inputs under continuation, as
    it does for the upper ones, nothing could be uncovered.
   */
  lemma ClosedLowerInputsSuffice(db: Db, c: Inputs, m: seq<Entry>)
    requires Structured(db) && Selected(db.levels, c) && IsMerged(m, c)
    requires BoundaryClosed(db.levels[c.level + 1], c.inputs1)
    ensures NoResurrection(db, c, m)
  {
    hide Structured, Visible, ObsoleteDeletion, Selected;
    forall i: nat, w | Uncovers(db, c, m, i, w) ensures false {
      assert m[i] in m;
      NothingLeftBehind(db, c, m[i], w);
    }
  }

  lemma NothingLeftBehind(db: Db, c: Inputs, v: Entry, w: Entry)
    requires Structured(db) && Selected(db.levels, c) && FromInput(c, v)
    requires BoundaryClosed(db.levels[c.level + 1], c.inputs1)
    ensures !OlderLeftBehind(db, c, v, w)
  {
    hide NewerFirst, MemNewest, ValidSnapshots, BoundaryClosed, OrderedLevels, Recorded, Selected;
    if OlderLeftBehind(db, c, v, w) {
      var f :| At(db.levels, c.level + 1, f) && f !in c.inputs1 && w in f.entries;
      var j, g :| IsInput(c, j, g) && v in g.entries;
      InputAt(db.levels, c, j, g);
      if j == c.level {
        SharedKeyIsInput(db.levels, c, f, g, w, v);
      } else {
        ContinuationIsInput(db, c, f, g, w, v);
      }
    }
  }

  /** A file of the next level that shares a user key with an upper input is an input. */
  lemma SharedKeyIsInput(levels: seq<seq<File>>, c: Inputs, f: File, g: File, w: Entry, v: Entry)
    requires Selected(levels, c) && ValidFile(f) && ValidFile(g)
    requires At(levels, c.level + 1, f) && g in c.inputs0
    requires w in f.entries && v in g.entries && w.key.user == v.key.user
    ensures f in c.inputs1
  {
    BoundsOf(f, w);
    BoundsOf(g, v);
    assert InRange(f, Some(c.lo), Some(c.hi));
  }

  /** With closed lower inputs, a file with an older entry of a lower input's user key is one of them. */
  lemma ContinuationIsInput(db: Db, c: Inputs, f: File, g: File, w: Entry, v: Entry)
    requires Recorded(db) && ValidLevels(db.levels, db.nextFile) && OrderedLevels(db.levels)
    requires At(db.levels, c.level + 1, f) && At(db.levels, c.level + 1, g) && g in c.inputs1
    requires BoundaryClosed(db.levels[c.level + 1], c.inputs1)
    requires w in f.entries && v in g.entries && w.key.user == v.key.user && w.key.sn < v.key.sn
    ensures f in c.inputs1
  {
    if f !in c.inputs1 {
      BoundsOf(f, w);
      BoundsOf(g, v);
      assert Apart(f, g) && !Continues(f, g);
      EarlierFileIsNewer(db, c.level + 1, f, g, w, v);
    }
  }
}
