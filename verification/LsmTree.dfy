/**
  The log-structured merge tree as a value: memtables, table files in seven levels,
  live snapshots, and the history of writes the tree has to answer for.
 */
module LsmTree {
  import opened Basics
  import opened InternalKeys

  const NUM_LEVELS := 7
  const MAX_MEM_COMPACT_LEVEL := 2

  // Table files

  datatype File = File(number: nat, size: nat, smallest: InternalKey, largest: InternalKey, entries: seq<Entry>)

  /** File metadata describes a nonempty sorted table. */
  predicate ValidFile(f: File) {
    && |f.entries| > 0 && SortedEntries(f.entries)
    && f.smallest == f.entries[0].key
    && f.largest == f.entries[|f.entries| - 1].key
  }

  ghost predicate ValidFiles(fs: seq<File>) {
    forall f :: f in fs ==> ValidFile(f)
  }

  /** Every key of a file lies between its bounds. */
  lemma BoundsOf(f: File, e: Entry)
    requires ValidFile(f) && e in f.entries
    ensures e.key == f.smallest || Before(f.smallest, e.key)
    ensures e.key == f.largest || Before(e.key, f.largest)
    ensures f.smallest.user <= e.key.user <= f.largest.user
  {
    var i :| 0 <= i < |f.entries| && f.entries[i] == e;
    assert i > 0 ==> Before(f.entries[0].key, f.entries[i].key);
    assert i < |f.entries| - 1 ==> Before(f.entries[i].key, f.entries[|f.entries| - 1].key);
  }

  lemma BoundsOrder(f: File)
    requires ValidFile(f)
    ensures f.smallest.user <= f.largest.user
    ensures f.smallest == f.largest || Before(f.smallest, f.largest)
  {
    BoundsOf(f, f.entries[0]);
  }

  /** The order of files inside a level. */
  predicate FileBefore(f: File, g: File) {
    Before(f.smallest, g.smallest) || (f.smallest == g.smallest && f.number < g.number)
  }

  ghost predicate SortedFiles(fs: seq<File>) {
    forall i, j :: 0 <= i < j < |fs| ==> FileBefore(fs[i], fs[j])
  }

  /** The key ranges of the two files do not meet. */
  predicate Apart(f: File, g: File) {
    Before(f.largest, g.smallest) || Before(g.largest, f.smallest)
  }

  ghost predicate AllApart(fs: seq<File>) {
    forall f, g :: f in fs && g in fs && f != g ==> Apart(f, g)
  }

  /** In a sorted list of files with disjoint ranges, each file ends before the next starts. */
  lemma DisjointInOrder(fs: seq<File>, i: nat, j: nat)
    requires ValidFiles(fs) && SortedFiles(fs) && AllApart(fs)
    requires i < j < |fs|
    ensures Before(fs[i].largest, fs[j].smallest)
    ensures Before(fs[i].largest, fs[j].largest)
  {
    assert FileBefore(fs[i], fs[j]);
    assert fs[i] in fs && fs[j] in fs;
    BoundsOrder(fs[i]);
    BoundsOrder(fs[j]);
  }

  /** The user-key range of `f` meets [lo, hi]. */
  predicate Overlaps(f: File, lo: UserKey, hi: UserKey) {
    f.largest.user >= lo && f.smallest.user <= hi
  }

  /** Every entry of `a` is newer than every entry of `b` with the same user key. */
  ghost predicate Newer(a: seq<Entry>, b: seq<Entry>) {
    forall x, y :: x in a && y in b && x.key.user == y.key.user ==> x.key.sn > y.key.sn
  }

  // The database

  datatype Db = Db(
    mem: seq<Entry>,
    imm: Option<seq<Entry>>,
    levels: seq<seq<File>>,
    snapshots: seq<nat>,
    nextFile: nat,
    history: seq<Entry>)
  {
    /** Sequence number of the last write. */
    function LastSequence(): nat {
      |history|
    }

    /** Reads below this sequence number are no longer possible. */
    function SmallestSnapshot(): nat {
      if snapshots == [] then |history| else snapshots[0]
    }

    function ImmEntries(): seq<Entry> {
      if imm.Some? then imm.value else []
    }
  }

  /** Level `i` lists file `f`. */
  ghost predicate At(levels: seq<seq<File>>, i: int, f: File) {
    0 <= i < |levels| && f in levels[i]
  }

  /** Some place of the tree holds `e`. */
  ghost predicate InTree(db: Db, e: Entry) {
    || e in db.mem
    || e in db.ImmEntries()
    || exists i, f :: At(db.levels, i, f) && e in f.entries
  }

  /**
    Reference semantics of a read: the newest write of `k` among the first `s` writes.
   */
  function Lookup(history: seq<Entry>, k: UserKey, s: nat): (r: Option<Entry>)
    requires s <= |history|
  {
    if s == 0 then None
    else if history[s - 1].key.user == k then Some(history[s - 1])
    else Lookup(history, k, s - 1)
  }

  /** `o` is what a read of `k` at `s` finds when it looks at the whole tree. */
  ghost predicate Visible(db: Db, k: UserKey, s: nat, o: Option<Entry>) {
    && (o.None? ==> forall e :: InTree(db, e) ==> !Matches(e, k, s))
    && (o.Some? ==>
          && InTree(db, o.value) && Matches(o.value, k, s)
          && forall e :: InTree(db, e) && Matches(e, k, s) ==> e.key.sn <= o.value.key.sn)
  }

  /** The writes a tree holds are writes that happened, each under its own sequence number. */
  ghost predicate Recorded(db: Db) {
    && (forall i :: 0 <= i < |db.history| ==> db.history[i].key.sn == i + 1)
    && forall e :: InTree(db, e) ==> 1 <= e.key.sn <= |db.history| && db.history[e.key.sn - 1] == e
  }

  ghost predicate ValidSnapshots(db: Db) {
    && |db.history| < MAX_SEQUENCE_NUMBER
    && (forall i :: 0 <= i < |db.snapshots| ==> db.snapshots[i] <= |db.history|)
    && forall i, j :: 0 <= i < j < |db.snapshots| ==> db.snapshots[i] <= db.snapshots[j]
  }

  /** Files are valid tables with distinct numbers below the next one to be given out. */
  ghost predicate ValidLevels(levels: seq<seq<File>>, nextFile: nat) {
    && |levels| == NUM_LEVELS
    && (forall i, f :: At(levels, i, f) ==> ValidFile(f) && f.number < nextFile)
    && forall i, j, f, g :: At(levels, i, f) && At(levels, j, g) && f.number == g.number ==> i == j && f == g
  }

  /** Each level is listed in key order, and below level 0 files have disjoint key ranges. */
  ghost predicate OrderedLevels(levels: seq<seq<File>>) {
    && (forall i :: 0 <= i < |levels| ==> SortedFiles(levels[i]))
    && forall i, f, g :: At(levels, i, f) && At(levels, i, g) && i >= 1 && f != g ==> Apart(f, g)
  }

  /** Shallower places hold newer entries of a user key than deeper ones. */
  ghost predicate NewerFirst(levels: seq<seq<File>>) {
    && (forall i, j, f, g :: At(levels, i, f) && At(levels, j, g) && i < j ==> Newer(f.entries, g.entries))
    && forall f, g :: At(levels, 0, f) && At(levels, 0, g) && f.number > g.number ==> Newer(f.entries, g.entries)
  }

  ghost predicate MemNewest(db: Db) {
    && SortedEntries(db.mem) && SortedEntries(db.ImmEntries())
    && Newer(db.mem, db.ImmEntries())
    && forall i, f :: At(db.levels, i, f) ==> Newer(db.mem, f.entries) && Newer(db.ImmEntries(), f.entries)
  }

  /** Every read a client can still make reports what the history of writes says. */
  ghost predicate ReadsAgree(db: Db) {
    forall k, s, o :: db.SmallestSnapshot() <= s <= |db.history| && Visible(db, k, s, o) ==>
      Report(o) == Report(Lookup(db.history, k, s))
  }

  ghost predicate Structured(db: Db) {
    && ValidSnapshots(db)
    && Recorded(db)
    && ValidLevels(db.levels, db.nextFile)
    && OrderedLevels(db.levels)
    && NewerFirst(db.levels)
    && MemNewest(db)
  }

  /** What every reachable database satisfies. */
  ghost predicate Inv(db: Db) {
    Structured(db) && ReadsAgree(db)
  }

  function EmptyDb(): (db: Db) {
    Db([], None, seq(NUM_LEVELS, i => []), [], 2, [])
  }

  lemma EmptyDbInv()
    ensures Inv(EmptyDb())
  {
    var db := EmptyDb();
    assert forall i :: 0 <= i < NUM_LEVELS ==> db.levels[i] == [];
    assert forall e :: !InTree(db, e);
    forall k, s, o | db.SmallestSnapshot() <= s <= |db.history| && Visible(db, k, s, o)
      ensures Report(o) == Report(Lookup(db.history, k, s))
    {
      assert o.None? && s == 0;
    }
  }

  /** The files of one level, as the searches need them. */
  lemma LevelOf(levels: seq<seq<File>>, nextFile: nat, i: nat)
    requires ValidLevels(levels, nextFile) && OrderedLevels(levels) && i < NUM_LEVELS
    ensures ValidFiles(levels[i]) && SortedFiles(levels[i]) && (i >= 1 ==> AllApart(levels[i]))
    ensures forall f, g :: f in levels[i] && g in levels[i] && f.number == g.number ==> f == g
  {
    assert forall f :: f in levels[i] ==> At(levels, i, f);
  }

  // Facts about reads

  /** The reference lookup returns a recorded write of `k` and skips no newer one. */
  lemma {:induction false} LookupNewest(history: seq<Entry>, k: UserKey, s: nat)
    requires s <= |history|
    requires forall i :: 0 <= i < |history| ==> history[i].key.sn == i + 1
    ensures match Lookup(history, k, s)
      case None => forall i :: 0 <= i < s ==> history[i].key.user != k
      case Some(e) => && e.key.user == k && 1 <= e.key.sn <= s && history[e.key.sn - 1] == e
                      && forall i :: e.key.sn <= i < s ==> history[i].key.user != k
  {
    if s > 0 && history[s - 1].key.user != k {
      LookupNewest(history, k, s - 1);
    }
  }

  /** The number of writes in a run does not change what an earlier read means. */
  lemma {:induction false} LookupPrefix(history: seq<Entry>, more: seq<Entry>, k: UserKey, s: nat)
    requires s <= |history|
    ensures Lookup(history + more, k, s) == Lookup(history, k, s)
  {
    if s > 0 {
      LookupPrefix(history, more, k, s - 1);
    }
  }

  /** Two entries of the tree with one sequence number are the same entry. */
  lemma SameSequence(db: Db, a: Entry, b: Entry)
    requires Recorded(db) && InTree(db, a) && InTree(db, b) && a.key.sn == b.key.sn
    ensures a == b
  {
  }

  /** Some read result exists: search the sequence numbers from `s` down. */
  lemma {:induction false} SomeVisible(db: Db, k: UserKey, s: nat) returns (o: Option<Entry>)
    requires Recorded(db)
    ensures Visible(db, k, s, o)
  {
    if s == 0 {
      o := None;
    } else if e: Entry :| InTree(db, e) && e.key.user == k && e.key.sn == s {
      o := Some(e);
    } else {
      o := SomeVisible(db, k, s - 1);
    }
  }
}
