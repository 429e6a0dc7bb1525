/**
  The merge loop of a compaction: which entries of the merged inputs survive, and how the
  survivors are cut into output tables.
 */
module CompactionWork {
  import opened Basics
  import opened InternalKeys
  import opened LsmTree
  import opened CompactionInputs

  // The drop rules, stated on the merged input

  /** No file at least two levels below `level` covers the user key. */
  ghost predicate IsBaseLevel(levels: seq<seq<File>>, level: nat, k: UserKey) {
    forall i, f :: level + 2 <= i < |levels| && f in levels[i] ==> !(f.smallest.user <= k <= f.largest.user)
  }

  /** Entry `i` is hidden from every possible read by the newer entry just before it. */
  predicate Hidden(m: seq<Entry>, i: nat, smallest: nat)
    requires i < |m|
  {
    i > 0 && m[i - 1].key.user == m[i].key.user && m[i - 1].key.sn <= smallest
  }

  /** Entry `i` is a deletion that every possible read sees and that seems to hide nothing. */
  ghost predicate ObsoleteDeletion(m: seq<Entry>, i: nat, smallest: nat, levels: seq<seq<File>>, level: nat)
    requires i < |m|
  {
    && !Hidden(m, i, smallest)
    && m[i].key.kind == Deletion && m[i].key.sn <= smallest
    && IsBaseLevel(levels, level, m[i].key.user)
  }

  ghost predicate Kept(m: seq<Entry>, i: nat, smallest: nat, levels: seq<seq<File>>, level: nat)
    requires i < |m|
  {
    !Hidden(m, i, smallest) && !ObsoleteDeletion(m, i, smallest, levels, level)
  }

  /** The entries among the first `n` that the drop rules keep. */
  ghost function Survivors(m: seq<Entry>, n: nat, smallest: nat, levels: seq<seq<File>>, level: nat): (r: seq<Entry>)
    requires n <= |m|
  {
    if n == 0 then []
    else
      var last := if Kept(m, n - 1, smallest, levels, level) then [m[n - 1]] else [];
      Survivors(m, n - 1, smallest, levels, level) + last
  }

  /** Exactly the kept entries survive. */
  lemma {:induction false} SurvivorsAreKept(m: seq<Entry>, n: nat, smallest: nat, levels: seq<seq<File>>, level: nat)
    requires n <= |m|
    ensures forall i :: 0 <= i < n && Kept(m, i, smallest, levels, level) ==>
      m[i] in Survivors(m, n, smallest, levels, level)
    ensures forall e :: e in Survivors(m, n, smallest, levels, level) ==>
      exists i :: 0 <= i < n && m[i] == e && Kept(m, i, smallest, levels, level)
  {
    if n > 0 {
      SurvivorsAreKept(m, n - 1, smallest, levels, level);
    }
  }

  /** Some newer entry of the user key is visible at the oldest snapshot. */
  ghost predicate Shadowed(m: seq<Entry>, e: Entry, smallest: nat) {
    exists d :: d in m && d.key.user == e.key.user && Before(d.key, e.key) && d.key.sn <= smallest
  }

  lemma HiddenIsShadowed(m: seq<Entry>, i: nat, smallest: nat)
    requires SortedEntries(m) && i < |m|
    ensures Hidden(m, i, smallest) <==> Shadowed(m, m[i], smallest)
  {
    if Hidden(m, i, smallest) {
      assert m[i - 1] in m && Before(m[i - 1].key, m[i].key);
    }
    if Shadowed(m, m[i], smallest) {
      var d :| d in m && d.key.user == m[i].key.user && Before(d.key, m[i].key) && d.key.sn <= smallest;
      var j :| 0 <= j < |m| && m[j] == d;
      assert j > i ==> Before(m[i].key, m[j].key);
      assert j < i - 1 ==> Before(m[j].key, m[i - 1].key);
      assert Before(m[i - 1].key, m[i].key);
    }
  }

  /**
    An entry of the input is left out exactly if a newer entry of its key is visible at the oldest
    snapshot, or it is a deletion visible there and no deeper file covers its key.
   */
  lemma DropsExactly(m: seq<Entry>, smallest: nat, levels: seq<seq<File>>, level: nat, e: Entry)
    requires SortedEntries(m) && e in m
    ensures e !in Survivors(m, |m|, smallest, levels, level) <==>
      || Shadowed(m, e, smallest)
      || (&& e.key.kind == Deletion && e.key.sn <= smallest
          && forall i, f :: level + 2 <= i < |levels| && f in levels[i] ==>
               !(f.smallest.user <= e.key.user <= f.largest.user))
  {
    var i :| 0 <= i < |m| && m[i] == e;
    SurvivorsAreKept(m, |m|, smallest, levels, level);
    HiddenIsShadowed(m, i, smallest);
    hide Shadowed, Hidden, Survivors;
    if e in Survivors(m, |m|, smallest, levels, level) {
      var j :| 0 <= j < |m| && m[j] == e && Kept(m, j, smallest, levels, level);
      OnePlace(m, i, j);
    }
  }

  lemma OnePlace(m: seq<Entry>, i: nat, j: nat)
    requires SortedEntries(m) && i < |m| && j < |m| && m[i] == m[j]
    ensures i == j
  {
  }

  /** Of one user key at most one entry that the oldest snapshot sees is written out. */
  lemma OneOldEntryStays(m: seq<Entry>, smallest: nat, levels: seq<seq<File>>, level: nat, d: Entry, e: Entry)
    requires SortedEntries(m) && d in m && e in m && d.key.user == e.key.user
    requires d.key.sn <= smallest && e.key.sn <= smallest
    requires d in Survivors(m, |m|, smallest, levels, level) && e in Survivors(m, |m|, smallest, levels, level)
    ensures d == e
  {
    DropsExactly(m, smallest, levels, level, d);
    DropsExactly(m, smallest, levels, level, e);
    InSomeOrder(m, d, e);
  }

  lemma InSomeOrder(m: seq<Entry>, d: Entry, e: Entry)
    requires SortedEntries(m) && d in m && e in m
    ensures d == e || Before(d.key, e.key) || Before(e.key, d.key)
  {
    var i :| 0 <= i < |m| && m[i] == d;
    var j :| 0 <= j < |m| && m[j] == e;
    assert i < j ==> Before(m[i].key, m[j].key);
    assert j < i ==> Before(m[j].key, m[i].key);
  }

  lemma {:induction false} SurvivorsSorted(m: seq<Entry>, n: nat, smallest: nat, levels: seq<seq<File>>, level: nat)
    requires n <= |m| && SortedEntries(m)
    ensures SortedEntries(Survivors(m, n, smallest, levels, level))
  {
    if n > 0 {
      SurvivorsSorted(m, n - 1, smallest, levels, level);
      SurvivorsAreKept(m, n - 1, smallest, levels, level);
      var r := Survivors(m, n - 1, smallest, levels, level);
      forall j | 0 <= j < |r| ensures Before(r[j].key, m[n - 1].key) {
        assert r[j] in r;
      }
    }
  }

  // The amortised base-level test

  /** Files behind pointer `p` end below every key still to come. */
  ghost predicate Passed(files: seq<File>, p: nat, floor: Option<UserKey>) {
    p <= |files| && forall j :: 0 <= j < p ==> floor.Some? && files[j].largest.user < floor.value
  }

  class Compaction {
    const levels: seq<seq<File>>
    const level: nat
    var levelPtrs: seq<nat>
    ghost var floor: Option<UserKey>

    ghost predicate Valid()
      reads this
    {
      && Searchable(levels) && |levelPtrs| == NUM_LEVELS
      && forall i :: 0 <= i < NUM_LEVELS ==> Passed(levels[i], levelPtrs[i], floor)
    }

    constructor (levels: seq<seq<File>>, level: nat)
      requires Searchable(levels)
      ensures Valid() && this.levels == levels && this.level == level && floor == None
    {
      this.levels, this.level, levelPtrs, floor := levels, level, seq(NUM_LEVELS, _ => 0), None;
    }

    /**
      The base-level test with one pointer a level that only moves forward.  On user keys
      that never decrease it gives the answer of a full search.
     */
    method IsBaseLevelForKey(k: UserKey) returns (r: bool)
      requires Valid() && (floor.Some? ==> floor.value <= k)
      modifies this
      ensures Valid() && floor == Some(k)
      ensures r == IsBaseLevel(levels, level, k)
    {
      assert forall i :: 0 <= i < NUM_LEVELS ==>
        Passed(levels[i], levelPtrs[i], floor) && Passed(levels[i], levelPtrs[i], Some(k));
      floor := Some(k);
      var lvl := level + 2;
      while lvl < NUM_LEVELS
        invariant Valid() && floor == Some(k) && lvl >= level + 2
        invariant forall i, f :: level + 2 <= i < lvl && i < NUM_LEVELS && f in levels[i] ==>
          !(f.smallest.user <= k <= f.largest.user)
      {
        var p, covered := Advance(levels[lvl], levelPtrs[lvl], k);
        levelPtrs := levelPtrs[lvl := p];
        if covered {
          return false;
        }
        lvl := lvl + 1;
      }
      return true;
    }
  }

  /** Move one level's pointer up to `k` and say whether a file there covers it. */
  method Advance(files: seq<File>, start: nat, k: UserKey) returns (p: nat, covered: bool)
    requires ValidFiles(files) && SortedFiles(files) && AllApart(files) && Passed(files, start, Some(k))
    ensures Passed(files, p, Some(k))
    ensures covered <==> exists f :: f in files && f.smallest.user <= k <= f.largest.user
  {
    p := start;
    while p < |files|
      invariant Passed(files, p, Some(k))
    {
      var f := files[p];
      assert f in files;
      if k <= f.largest.user {
        covered := k >= f.smallest.user;
        if !covered {
          LaterFilesAreAbove(files, p, k);
        }
        return;
      }
      p := p + 1;
    }
    return p, false;
  }

  lemma LaterFilesAreAbove(files: seq<File>, p: nat, k: UserKey)
    requires ValidFiles(files) && SortedFiles(files) && AllApart(files)
    requires p < |files| && k < files[p].smallest.user
    ensures forall j :: p <= j < |files| ==> k < files[j].smallest.user
  {
    forall j | p < j < |files| ensures k < files[j].smallest.user {
      assert files[p] in files;
      BoundsOrder(files[p]);
      DisjointInOrder(files, p, j);
    }
  }

  // Output tables

  /** All entries of a list of files, file after file. */
  function Concat(fs: seq<File>): (r: seq<Entry>)
  {
    if fs == [] then [] else Concat(fs[..|fs| - 1]) + fs[|fs| - 1].entries
  }

  lemma {:induction false} ConcatContents(fs: seq<File>)
    ensures forall f, e :: f in fs && e in f.entries ==> e in Concat(fs)
    ensures forall e :: e in Concat(fs) ==> exists f :: f in fs && e in f.entries
  {
    if fs != [] {
      var n := |fs| - 1;
      assert fs == fs[..n] + [fs[n]];
      ConcatContents(fs[..n]);
    }
  }

  /** Outputs are valid tables numbered upwards from `first`. */
  ghost predicate ValidOutputs(fs: seq<File>, first: nat) {
    ValidFiles(fs) && forall i :: 0 <= i < |fs| ==> fs[i].number == first + i
  }

  /** Close the open table, which ends the survivors of the first `n` entries, and add it to the outputs. */
  method FinishOutput(outputs: seq<File>, open: seq<Entry>, first: nat, fileSize: seq<Entry> -> nat,
                      ghost m: seq<Entry>, ghost n: nat, ghost smallest: nat,
                      ghost levels: seq<seq<File>>, ghost level: nat)
    returns (r: seq<File>)
    requires |open| > 0 && ValidOutputs(outputs, first) && SortedEntries(m) && n <= |m|
    requires Concat(outputs) + open == Survivors(m, n, smallest, levels, level)
    ensures ValidOutputs(r, first) && Concat(r) == Concat(outputs) + open
    ensures Concat(r) + [] == Survivors(m, n, smallest, levels, level)
  {
    SurvivorsSorted(m, n, smallest, levels, level);
    ghost var all, k := Concat(outputs) + open, |Concat(outputs)|;
    assert SortedEntries(open) by {
      forall i, j | 0 <= i < j < |open| ensures Before(open[i].key, open[j].key) {
        assert all[k + i] == open[i] && all[k + j] == open[j];
      }
    }
    r := outputs + [File(first + |outputs|, fileSize(open), open[0].key, open[|open| - 1].key, open)];
    assert r[..|r| - 1] == outputs;
  }

  /** The drop decision for entry `i`, given the sequence number of the entry before it. */
  method ShouldDrop(compaction: Compaction, m: seq<Entry>, i: nat, smallest: nat, lastSequenceForKey: nat)
    returns (drop: bool)
    requires i < |m| && compaction.Valid()
    requires compaction.floor.Some? ==> compaction.floor.value <= m[i].key.user
    requires lastSequenceForKey <= smallest <==> Hidden(m, i, smallest)
    modifies compaction
    ensures compaction.Valid() && (compaction.floor == old(compaction.floor) || compaction.floor == Some(m[i].key.user))
    ensures drop == !Kept(m, i, smallest, compaction.levels, compaction.level)
  {
    drop := false;
    if lastSequenceForKey <= smallest {
      drop := true;
    } else if m[i].key.kind == Deletion && m[i].key.sn <= smallest {
      drop := compaction.IsBaseLevelForKey(m[i].key.user);
    }
  }

  /**
    The compaction loop over the merged inputs `m`.  Where tables are cut is left open:
    `stopBefore` decides before an entry, `fileSize` and `maxOutput` after one.
   */
  method DoCompactionWork(compaction: Compaction, m: seq<Entry>, smallest: nat, first: nat,
                          stopBefore: nat -> bool, fileSize: seq<Entry> -> nat, maxOutput: nat)
    returns (outputs: seq<File>)
    requires compaction.Valid() && compaction.floor == None
    requires SortedEntries(m) && smallest < MAX_SEQUENCE_NUMBER
    modifies compaction
    ensures ValidOutputs(outputs, first)
    ensures Concat(outputs) == Survivors(m, |m|, smallest, compaction.levels, compaction.level)
  {
    hide IsBaseLevel, ObsoleteDeletion, Searchable, Passed, Kept;
    var open: seq<Entry> := [];
    outputs := [];
    var hasCurrentUserKey, currentUserKey, lastSequenceForKey := false, 0.0, MAX_SEQUENCE_NUMBER;
    for i := 0 to |m|
      invariant compaction.Valid()
      invariant i < |m| && compaction.floor.Some? ==> compaction.floor.value <= m[i].key.user
      invariant hasCurrentUserKey == (i > 0)
      invariant i > 0 ==> currentUserKey == m[i - 1].key.user && lastSequenceForKey == m[i - 1].key.sn
      invariant ValidOutputs(outputs, first)
      invariant Concat(outputs) + open == Survivors(m, i, smallest, compaction.levels, compaction.level)
    {
      if stopBefore(i) && open != [] {
        outputs := FinishOutput(outputs, open, first, fileSize, m, i, smallest, compaction.levels, compaction.level);
        open := [];
      }
      if !hasCurrentUserKey || m[i].key.user != currentUserKey {
        currentUserKey, hasCurrentUserKey, lastSequenceForKey := m[i].key.user, true, MAX_SEQUENCE_NUMBER;
      }
      var drop := ShouldDrop(compaction, m, i, smallest, lastSequenceForKey);
      assert i + 1 < |m| ==> Before(m[i].key, m[i + 1].key);
      lastSequenceForKey := m[i].key.sn;
      if !drop {
        assert Concat(outputs) + (open + [m[i]]) == (Concat(outputs) + open) + [m[i]];
        open := open + [m[i]];
        if fileSize(open) >= maxOutput {
          outputs := FinishOutput(outputs, open, first, fileSize, m, i + 1, smallest, compaction.levels,
              compaction.level);
          open := [];
        }
      }
    }
    if open != [] {
      outputs := FinishOutput(outputs, open, first, fileSize, m, |m|, smallest, compaction.levels, compaction.level);
    }
  }

  /** Tables cut from one sorted run are sorted files with disjoint ranges. */
  lemma {:induction false} OutputsOrdered(fs: seq<File>, first: nat)
    requires ValidOutputs(fs, first) && SortedEntries(Concat(fs))
    ensures forall i, j :: 0 <= i < j < |fs| ==>
      Before(fs[i].largest, fs[j].smallest) && Before(fs[i].smallest, fs[j].smallest)
    ensures SortedFiles(fs) && AllApart(fs)
  {
    if fs != [] {
      var n := |fs| - 1;
      var all, front := Concat(fs), Concat(fs[..n]);
      assert SortedEntries(front) by {
        forall i, j | 0 <= i < j < |front| ensures Before(front[i].key, front[j].key) {
          assert all[i] == front[i] && all[j] == front[j];
        }
      }
      OutputsOrdered(fs[..n], first);
      forall i | 0 <= i < n ensures Before(fs[i].largest, fs[n].smallest) && Before(fs[i].smallest, fs[n].smallest) {
        assert fs[i] in fs && fs[n] in fs && fs[i] in fs[..n];
        ConcatContents(fs[..n]);
        BoundsOrder(fs[i]);
        var last := fs[i].entries[|fs[i].entries| - 1];
        assert last in front;
        var p :| 0 <= p < |front| && front[p] == last;
        assert all[p] == last && all[|front|] == fs[n].entries[0];
      }
      assert forall i, j :: 0 <= i < j < n ==> fs[..n][i] == fs[i] && fs[..n][j] == fs[j];
    }
  }
}
