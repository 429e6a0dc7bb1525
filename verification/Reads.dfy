/**
  Point reads: the newest entry of a user key at a sequence number, found by looking in
  the memtables first and then level by level, stopping at the first hit.
 */
module Reads {
  import opened Basics
  import opened InternalKeys
  import opened LsmTree

  // One sorted run

  /** Position of the first entry not before `key`: the seek of a sorted run. */
  function SeekIndex(es: seq<Entry>, key: InternalKey): (i: nat)
    ensures i <= |es|
    ensures forall j :: 0 <= j < i ==> Before(es[j].key, key)
    ensures i < |es| ==> !Before(es[i].key, key)
  {
    if es == [] || !Before(es[0].key, key) then 0 else 1 + SeekIndex(es[1..], key)
  }

  /** Seek to the lookup key and keep the entry if it has the user key asked for. */
  function PointGet(es: seq<Entry>, k: UserKey, s: nat): (o: Option<Entry>) {
    var i := SeekIndex(es, LookupKey(k, s));
    if i < |es| && es[i].key.user == k then Some(es[i]) else None
  }

  /** A seek to the lookup key lands on the newest entry the read may see. */
  lemma PointGetNewest(es: seq<Entry>, k: UserKey, s: nat)
    requires SortedEntries(es)
    ensures match PointGet(es, k, s)
      case None => forall e :: e in es ==> !Matches(e, k, s)
      case Some(e) => IsNewest(e, es, k, s)
  {
    var i := SeekIndex(es, LookupKey(k, s));
    forall e | e in es && Matches(e, k, s)
      ensures i < |es| && es[i].key.user == k && e.key.sn <= es[i].key.sn
    {
      var j :| 0 <= j < |es| && es[j] == e;
      assert j >= i;
      assert j > i ==> Before(es[i].key, es[j].key);
    }
  }

  // A level

  ghost predicate NoMatch(fs: seq<File>, k: UserKey, s: nat) {
    forall f, e :: f in fs && e in f.entries ==> !Matches(e, k, s)
  }

  /** `e` is the newest entry of the files `fs` that the read may see. */
  ghost predicate NewestIn(e: Entry, fs: seq<File>, k: UserKey, s: nat) {
    && Matches(e, k, s) && (exists f :: f in fs && e in f.entries)
    && forall g, d :: g in fs && d in g.entries && Matches(d, k, s) ==> d.key.sn <= e.key.sn
  }

  /** Index of the first file whose largest key is not before `key`, by binary search. */
  method FindFile(files: seq<File>, key: InternalKey) returns (right: nat)
    requires ValidFiles(files) && SortedFiles(files) && AllApart(files)
    ensures right <= |files|
    ensures forall i :: 0 <= i < right ==> Before(files[i].largest, key)
    ensures forall i :: right <= i < |files| ==> !Before(files[i].largest, key)
  {
    var left := 0;
    right := |files|;
    while left < right
      invariant 0 <= left <= right <= |files|
      invariant forall i :: 0 <= i < left ==> Before(files[i].largest, key)
      invariant forall i :: right <= i < |files| ==> !Before(files[i].largest, key)
    {
      var mid := (left + right) / 2;
      forall i, j | 0 <= i < j < |files|
        ensures Before(files[i].largest, files[j].largest)
      {
        DisjointInOrder(files, i, j);
      }
      if Before(files[mid].largest, key) {
        left := mid + 1;
      } else {
        right := mid;
      }
    }
  }

  /** A level with disjoint files is searched in at most one file. */
  method LevelGet(files: seq<File>, k: UserKey, s: nat) returns (o: Option<Entry>)
    requires ValidFiles(files) && SortedFiles(files) && AllApart(files)
    ensures o.None? ==> NoMatch(files, k, s)
    ensures o.Some? ==> NewestIn(o.value, files, k, s)
  {
    var index := FindFile(files, LookupKey(k, s));
    OnlyFileAtIndex(files, index, k, s);
    if index >= |files| || k < files[index].smallest.user {
      return None;
    }
    assert files[index] in files;
    PointGetNewest(files[index].entries, k, s);
    o := PointGet(files[index].entries, k, s);
  }

  /** If a level holds an entry the read may see, its newest is in the file the search finds. */
  lemma OnlyFileAtIndex(files: seq<File>, index: nat, k: UserKey, s: nat)
    requires ValidFiles(files) && SortedFiles(files) && AllApart(files)
    requires index <= |files|
    requires forall i :: 0 <= i < index ==> Before(files[i].largest, LookupKey(k, s))
    requires forall i :: index <= i < |files| ==> !Before(files[i].largest, LookupKey(k, s))
    ensures forall f, e :: f in files && e in f.entries && Matches(e, k, s) ==>
              && index < |files| && files[index].smallest.user <= k
              && PointGet(files[index].entries, k, s).Some?
              && e.key.sn <= PointGet(files[index].entries, k, s).value.key.sn
  {
    forall f, e | f in files && e in f.entries && Matches(e, k, s)
      ensures index < |files| && files[index].smallest.user <= k
      ensures PointGet(files[index].entries, k, s).Some?
      ensures e.key.sn <= PointGet(files[index].entries, k, s).value.key.sn
    {
      var i :| 0 <= i < |files| && files[i] == f;
      BoundsOf(f, e);
      assert i >= index;
      var g := files[index];
      assert g in files;
      PointGetNewest(g.entries, k, s);
      var last := g.entries[|g.entries| - 1];
      assert last in g.entries;
      BoundsOf(g, last);
      if i > index {
        DisjointInOrder(files, index, i);
      }
    }
  }

  // Level 0

  function InsertNewestFirst(fs: seq<File>, f: File): (r: seq<File>)
    ensures forall g :: g in r <==> g in fs || g == f
  {
    if fs == [] || f.number > fs[0].number then [f] + fs
    else
      assert fs == [fs[0]] + fs[1..];
      [fs[0]] + InsertNewestFirst(fs[1..], f)
  }

  ghost predicate NewestFirst(fs: seq<File>) {
    forall i, j :: 0 <= i < j < |fs| ==> fs[i].number >= fs[j].number
  }

  lemma {:induction false} InsertKeepsNewestFirst(fs: seq<File>, f: File)
    requires NewestFirst(fs)
    ensures NewestFirst(InsertNewestFirst(fs, f))
  {
    if fs != [] && f.number <= fs[0].number {
      InsertKeepsNewestFirst(fs[1..], f);
      var r := InsertNewestFirst(fs[1..], f);
      forall j | 0 <= j < |r| ensures fs[0].number >= r[j].number {
        assert r[j] in r;
      }
    }
  }

  /** Level-0 files may overlap: search those whose range holds `k`, newest file first. */
  method LevelZeroGet(files: seq<File>, k: UserKey, s: nat) returns (o: Option<Entry>)
    requires ValidFiles(files)
    requires forall f, g :: f in files && g in files && f.number == g.number ==> f == g
    requires forall f, g :: f in files && g in files && f.number > g.number ==> Newer(f.entries, g.entries)
    ensures o.None? ==> NoMatch(files, k, s)
    ensures o.Some? ==> NewestIn(o.value, files, k, s)
  {
    var tmp: seq<File> := [];
    for i := 0 to |files|
      invariant NewestFirst(tmp)
      invariant forall f :: f in tmp <==> f in files[..i] && f.smallest.user <= k <= f.largest.user
    {
      if k >= files[i].smallest.user && k <= files[i].largest.user {
        InsertKeepsNewestFirst(tmp, files[i]);
        tmp := InsertNewestFirst(tmp, files[i]);
      }
      assert files[..i + 1] == files[..i] + [files[i]];
    }
    assert files[..|files|] == files;
    forall f, e | f in files && e in f.entries && Matches(e, k, s) ensures f in tmp {
      BoundsOf(f, e);
    }
    for i := 0 to |tmp|
      invariant forall j :: 0 <= j < i ==> forall e :: e in tmp[j].entries ==> !Matches(e, k, s)
    {
      PointGetNewest(tmp[i].entries, k, s);
      o := PointGet(tmp[i].entries, k, s);
      if o.Some? {
        assert NewestIn(o.value, files, k, s) by {
          FirstHitIsNewest(files, tmp, i, o.value, k, s);
        }
        return;
      }
    }
    return None;
  }

  lemma FirstHitIsNewest(files: seq<File>, tmp: seq<File>, i: nat, e: Entry, k: UserKey, s: nat)
    requires i < |tmp| && NewestFirst(tmp) && IsNewest(e, tmp[i].entries, k, s)
    requires forall f :: f in tmp ==> f in files
    requires forall f, d :: f in files && d in f.entries && Matches(d, k, s) ==> f in tmp
    requires forall f, g :: f in files && g in files && f.number == g.number ==> f == g
    requires forall f, g :: f in files && g in files && f.number > g.number ==> Newer(f.entries, g.entries)
    requires forall j :: 0 <= j < i ==> forall d :: d in tmp[j].entries ==> !Matches(d, k, s)
    ensures NewestIn(e, files, k, s)
  {
    assert tmp[i] in files;
    forall g, d | g in files && d in g.entries && Matches(d, k, s) ensures d.key.sn <= e.key.sn {
      var j :| 0 <= j < |tmp| && tmp[j] == g;
      assert j >= i;
      if tmp[i] != g {
        assert Newer(tmp[i].entries, g.entries);
      }
    }
  }

  // All levels

  ghost predicate NoMatchInLevels(levels: seq<seq<File>>, k: UserKey, s: nat) {
    forall i :: 0 <= i < |levels| ==> NoMatch(levels[i], k, s)
  }

  ghost predicate NewestInLevels(e: Entry, levels: seq<seq<File>>, k: UserKey, s: nat) {
    && Matches(e, k, s) && (exists i, f :: At(levels, i, f) && e in f.entries)
    && forall i, g, d :: At(levels, i, g) && d in g.entries && Matches(d, k, s) ==> d.key.sn <= e.key.sn
  }

  /** The version read: level 0 first, then each deeper level, stopping at the first hit. */
  method VersionGet(levels: seq<seq<File>>, ghost nextFile: nat, k: UserKey, s: nat) returns (o: Option<Entry>)
    requires ValidLevels(levels, nextFile) && OrderedLevels(levels) && NewerFirst(levels)
    ensures o.None? ==> NoMatchInLevels(levels, k, s)
    ensures o.Some? ==> NewestInLevels(o.value, levels, k, s)
  {
    for level := 0 to NUM_LEVELS
      invariant forall i :: 0 <= i < level ==> NoMatch(levels[i], k, s)
    {
      LevelOf(levels, nextFile, level);
      if level == 0 {
        assert forall f :: f in levels[0] ==> At(levels, 0, f);
        o := LevelZeroGet(levels[0], k, s);
      } else {
        o := LevelGet(levels[level], k, s);
      }
      if o.Some? {
        ShallowestIsNewest(levels, level, o.value, k, s);
        return;
      }
    }
    return None;
  }

  lemma ShallowestIsNewest(levels: seq<seq<File>>, level: nat, e: Entry, k: UserKey, s: nat)
    requires level < |levels| && NewerFirst(levels)
    requires forall i :: 0 <= i < level ==> NoMatch(levels[i], k, s)
    requires NewestIn(e, levels[level], k, s)
    ensures NewestInLevels(e, levels, k, s)
  {
    var f :| f in levels[level] && e in f.entries;
    assert At(levels, level, f);
    forall i, g, d | At(levels, i, g) && d in g.entries && Matches(d, k, s)
      ensures d.key.sn <= e.key.sn
    {
      if i > level {
        assert Newer(f.entries, g.entries);
      }
    }
  }

  /**
    A read of `k` at sequence number `s`: memtable, immutable memtable, then the version.
    It stops at the first hit, and that hit is the newest visible entry of the whole tree.
   */
  method TreeGet(mem: seq<Entry>, imm: Option<seq<Entry>>, levels: seq<seq<File>>, k: UserKey, s: nat, ghost db: Db)
    returns (o: Option<Entry>)
    requires Structured(db) && db.mem == mem && db.imm == imm && db.levels == levels
    ensures Visible(db, k, s, o)
  {
    hide ValidLevels, OrderedLevels, NewerFirst, Recorded, ValidSnapshots, SortedEntries;
    PointGetNewest(mem, k, s);
    o := PointGet(mem, k, s);
    if o.Some? {
      return;
    }
    if imm.Some? {
      PointGetNewest(imm.value, k, s);
      o := PointGet(imm.value, k, s);
      if o.Some? {
        return;
      }
    }
    o := VersionGet(levels, db.nextFile, k, s);
    assert forall i, f :: At(levels, i, f) ==> f in levels[i];
  }
}
