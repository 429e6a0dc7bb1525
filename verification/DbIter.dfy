/**
  The database iterator: a cursor that moves both ways over the user entries visible at one
  sequence number, on top of the merging iterator over all internal entries.
 */
module DbIter {
  import opened InternalKeys
  import opened LsmTree
  import opened Reads
  import opened MergingIter

  // What there is to see

  /** Entry `i` is old enough for a reader at `s`. */
  predicate OldEnough(es: seq<Entry>, s: nat, i: int) {
    0 <= i < |es| && es[i].key.sn <= s
  }

  /** Entry `i` is shown: the first old enough of its user key, and a value. */
  ghost predicate Shown(es: seq<Entry>, s: nat, i: int) {
    && OldEnough(es, s, i) && es[i].key.kind == Value
    && forall j :: 0 <= j < i && OldEnough(es, s, j) ==> es[j].key.user != es[i].key.user
  }

  /** The positions shown among the first `n`, in order. */
  ghost function View(es: seq<Entry>, s: nat, n: nat): (r: seq<nat>)
    requires n <= |es|
  {
    if n == 0 then [] else View(es, s, n - 1) + if Shown(es, s, n - 1) then [n - 1] else []
  }

  lemma {:induction false} ViewContents(es: seq<Entry>, s: nat, n: nat)
    requires n <= |es|
    ensures forall a, b :: 0 <= a < b < |View(es, s, n)| ==> View(es, s, n)[a] < View(es, s, n)[b]
    ensures forall i: nat :: i in View(es, s, n) <==> i < n && Shown(es, s, i)
  {
    if n > 0 {
      ViewContents(es, s, n - 1);
      var r := View(es, s, n - 1);
      forall a | 0 <= a < |r| ensures r[a] < n - 1 {
        assert r[a] in r;
      }
    }
  }

  /** The view lists user keys in increasing order, each once. */
  lemma ViewSorted(es: seq<Entry>, s: nat, a: nat, b: nat)
    requires SortedEntries(es) && a < b < |View(es, s, |es|)|
    ensures View(es, s, |es|)[a] < |es| && View(es, s, |es|)[b] < |es|
    ensures es[View(es, s, |es|)[a]].key.user < es[View(es, s, |es|)[b]].key.user
  {
    ViewContents(es, s, |es|);
    var v := View(es, s, |es|);
    assert v[a] in v && v[b] in v && v[a] < v[b];
    assert Before(es[v[a]].key, es[v[b]].key);
  }

  /** The view lists user key `k` with value `v`. */
  ghost predicate Lists(es: seq<Entry>, s: nat, k: UserKey, v: string) {
    exists i: nat :: i in View(es, s, |es|) && i < |es| && es[i].key.user == k && es[i].value == v
  }

  /** A user key is in the view with a value exactly when a point read at `s` finds that value. */
  lemma ViewAgreesWithGet(es: seq<Entry>, s: nat, k: UserKey, v: string)
    requires SortedEntries(es)
    ensures Lists(es, s, k, v) <==>
            Report(PointGet(es, k, s)) == Found(v)
  {
    var i := SeekIndex(es, LookupKey(k, s));
    ShownAtSeek(es, s, k);
    ViewContents(es, s, |es|);
    hide View, Shown, SeekIndex, SortedEntries;
    if i < |es| && es[i].key.user == k && es[i].key.kind == Value {
      assert i in View(es, s, |es|);
    }
  }

  /** The only entry of `k` that can be shown is the one a seek for it lands on. */
  lemma ShownAtSeek(es: seq<Entry>, s: nat, k: UserKey)
    requires SortedEntries(es)
    ensures var p := SeekIndex(es, LookupKey(k, s));
            forall i :: 0 <= i < |es| && es[i].key.user == k ==>
              (Shown(es, s, i) <==> i == p && es[i].key.kind == Value)
  {
    var p := SeekIndex(es, LookupKey(k, s));
    forall i | 0 <= i < |es| && es[i].key.user == k
      ensures Shown(es, s, i) <==> i == p && es[i].key.kind == Value
    {
      if i > p {
        assert Before(es[p].key, es[i].key);
      }
    }
  }

  /**
    Over all entries of a database, the view at a snapshot that is still possible is the map
    from user keys to values that the history of writes defines.
   */
  lemma ViewIsHistory(db: Db, es: seq<Entry>, s: nat, k: UserKey, v: string)
    requires Inv(db) && SortedEntries(es) && forall e :: e in es <==> InTree(db, e)
    requires db.SmallestSnapshot() <= s <= |db.history|
    ensures Lists(es, s, k, v) <==>
            Report(Lookup(db.history, k, s)) == Found(v)
  {
    hide Structured, InTree, View, PointGet;
    PointGetNewest(es, k, s);
    assert Visible(db, k, s, PointGet(es, k, s));
    ViewAgreesWithGet(es, s, k, v);
  }

  // Positions in the view

  /** Being shown at `n` with nothing shown between is being next in the view. */
  lemma NextInView(es: seq<Entry>, s: nat, a: int, n: nat)
    requires var v := View(es, s, |es|); -1 <= a < |v|
    requires n <= |es| && (n < |es| ==> Shown(es, s, n))
    requires var v := View(es, s, |es|);
             (a >= 0 ==> v[a] < n) && forall j :: (if a >= 0 then v[a] else -1) < j < n ==> !Shown(es, s, j)
    ensures var v := View(es, s, |es|); if n < |es| then a + 1 < |v| && v[a + 1] == n else a + 1 == |v|
  {
    ViewContents(es, s, |es|);
    var v := View(es, s, |es|);
    if a + 1 < |v| {
      assert v[a + 1] in v;
      assert a >= 0 ==> v[a] < v[a + 1];
    }
    if n < |es| {
      assert n in v;
      var b :| 0 <= b < |v| && v[b] == n;
    }
  }

  lemma PrevInView(es: seq<Entry>, s: nat, a: nat, n: int)
    requires var v := View(es, s, |es|); a <= |v|
    requires -1 <= n < |es| && (n >= 0 ==> Shown(es, s, n))
    requires var v := View(es, s, |es|);
             (a < |v| ==> n < v[a]) && forall j :: n < j < (if a < |v| then v[a] else |es|) ==> !Shown(es, s, j)
    ensures var v := View(es, s, |es|); if n >= 0 then a > 0 && v[a - 1] == n else a == 0
  {
    ViewContents(es, s, |es|);
    var v := View(es, s, |es|);
    if a > 0 {
      assert v[a - 1] in v;
      assert a < |v| ==> v[a - 1] < v[a];
    }
    if n >= 0 {
      assert n in v;
      var b :| 0 <= b < |v| && v[b] == n;
    }
  }

  // Forward scan

  /**
    State of a forward scan at `pos` for the first entry shown at or after `lo`: user keys
    with a visible entry behind the scan are to be skipped, and nothing shown was passed.
   */
  ghost predicate Scanning(es: seq<Entry>, s: nat, lo: nat, pos: nat, skipping: bool, skip: UserKey) {
    && pos <= |es|
    && (forall i, j :: pos <= i < |es| && 0 <= j < pos && OldEnough(es, s, j) && es[j].key.user == es[i].key.user ==>
          skipping && es[i].key.user <= skip)
    && (skipping ==> forall i :: pos <= i < |es| && OldEnough(es, s, i) ==> es[i].key.user >= skip)
    && (skipping ==> forall j :: lo <= j < |es| && Shown(es, s, j) ==> es[j].key.user > skip)
    && (forall j :: lo <= j < pos ==> !Shown(es, s, j))
    && forall i :: pos <= i < lo && OldEnough(es, s, i) ==> skipping && es[i].key.user <= skip
  }

  lemma ScanPast(es: seq<Entry>, s: nat, lo: nat, pos: nat, skipping: bool, skip: UserKey)
    requires SortedEntries(es) && pos < |es| && Scanning(es, s, lo, pos, skipping, skip)
    requires OldEnough(es, s, pos) ==> skipping && es[pos].key.user <= skip
    ensures Scanning(es, s, lo, pos + 1, skipping, skip)
  {
  }

  lemma ScanDeletion(es: seq<Entry>, s: nat, lo: nat, pos: nat, skipping: bool, skip: UserKey)
    requires SortedEntries(es) && pos < |es| && Scanning(es, s, lo, pos, skipping, skip)
    requires OldEnough(es, s, pos) && es[pos].key.kind == Deletion
    ensures Scanning(es, s, lo, pos + 1, true, es[pos].key.user)
  {
    var d := es[pos].key.user;
    forall i | pos < i < |es| ensures es[i].key.user >= d {
      assert Before(es[pos].key, es[i].key);
    }
    forall i, j | pos < i < |es| && 0 <= j <= pos && OldEnough(es, s, j) && es[j].key.user == es[i].key.user
      ensures es[i].key.user <= d
    {
      assert j < pos ==> Before(es[j].key, es[pos].key);
    }
    forall i | pos < i < lo && OldEnough(es, s, i) ensures es[i].key.user <= d {
    }
  }

  lemma ScanFound(es: seq<Entry>, s: nat, lo: nat, pos: nat, skipping: bool, skip: UserKey)
    requires pos < |es| && Scanning(es, s, lo, pos, skipping, skip)
    requires OldEnough(es, s, pos) && es[pos].key.kind == Value && !(skipping && es[pos].key.user <= skip)
    ensures Shown(es, s, pos) && lo <= pos
  {
  }

  lemma ScanMissesNothing(es: seq<Entry>, s: nat, lo: nat, pos: nat, skipping: bool, skip: UserKey)
    requires Scanning(es, s, lo, pos, skipping, skip)
    ensures forall j :: lo <= j < pos ==> !Shown(es, s, j)
  {
  }

  // Backward scan

  /**
    State of a backward scan before `hi` that has come down to `p`: with no candidate (`c` is
    -1) nothing shown was passed; else `c` is the lowest visible entry passed, and a value.
   */
  ghost predicate Backing(es: seq<Entry>, s: nat, hi: nat, p: int, c: int) {
    && -1 <= p < hi <= |es| && (c == -1 || p < c < hi)
    && (forall j :: p < j < hi && j > c ==> !Shown(es, s, j))
    && (c >= 0 ==> OldEnough(es, s, c) && es[c].key.kind == Value && forall j :: p < j < c ==> !OldEnough(es, s, j))
  }

  lemma BackStep(es: seq<Entry>, s: nat, hi: nat, p: nat, c: int)
    requires SortedEntries(es) && Backing(es, s, hi, p, c) && p < hi
    requires OldEnough(es, s, p) ==> c == -1 || es[p].key.user >= es[c].key.user
    ensures Backing(es, s, hi, p - 1, if !OldEnough(es, s, p) then c else if es[p].key.kind == Value then p else -1)
  {
    if OldEnough(es, s, p) && c >= 0 {
      assert Before(es[p].key, es[c].key);
      assert !Shown(es, s, c);
    }
  }

  lemma BackDone(es: seq<Entry>, s: nat, hi: nat, p: int, c: nat)
    requires SortedEntries(es) && Backing(es, s, hi, p, c) && (p >= 0 ==> es[p].key.user < es[c].key.user)
    ensures Shown(es, s, c) && ClearBetween(es, s, p, c)
  {
    forall j | 0 <= j < c && OldEnough(es, s, j) ensures es[j].key.user != es[c].key.user {
      assert j < p ==> Before(es[j].key, es[p].key);
    }
  }

  datatype Direction = Forward | Reverse

  class DBIter {
    const iter: MergingIterator
    const sequence: nat

    var savedKey: UserKey
    var savedValue: string
    var direction: Direction
    var valid: bool

    /** Position in the view; its length when there is no current entry. */
    ghost var at: nat

    /** All internal entries, in order. */
    ghost function Entries(): (es: seq<Entry>) {
      iter.all
    }

    ghost function Seen(): (r: seq<nat>) {
      View(Entries(), sequence, |Entries()|)
    }

    /** Position of the internal iterator; the number of entries when it is not at one. */
    ghost function Pos(): (pos: nat)
      reads iter
      ensures pos <= |Entries()|
    {
      if 0 <= iter.at < |Entries()| then iter.at else |Entries()|
    }

    /** Where the internal iterator is, with -1 for before the first entry. */
    ghost function Place(): (p: int)
      reads iter
    {
      if Pos() < |Entries()| then Pos() else -1
    }

    /**
      Moving forward, the internal iterator is at the entry shown.  Moving backward, the entry
      shown is saved and the iterator is before it, with nothing visible in between.
     */
    ghost predicate Valid()
      reads this, iter
    {
      && iter.Valid() && SortedEntries(Entries()) && at <= |Seen()| && valid == (at < |Seen()|)
      && (valid ==> Seen()[at] < |Entries()| && Shown(Entries(), sequence, Seen()[at]))
      && (valid && direction == Forward ==> Pos() == Seen()[at])
      && (valid && direction == Reverse ==>
            var c := Seen()[at];
            && savedKey == Entries()[c].key.user && savedValue == Entries()[c].value
            && ClearBetween(Entries(), sequence, Place(), c))
    }

    constructor (iter: MergingIterator, sequence: nat)
      requires iter.Valid()
      ensures Valid() && !valid && this.iter == iter && this.sequence == sequence
    {
      this.iter, this.sequence, direction, valid := iter, sequence, Forward, false;
      savedKey, savedValue, at := 0.0, "", |View(iter.all, sequence, |iter.all|)|;
    }

    /** The current user key and value are those of the entry shown. */
    method Current() returns (k: UserKey, v: string)
      requires Valid() && valid
      ensures k == Entries()[Seen()[at]].key.user && v == Entries()[Seen()[at]].value
    {
      if direction == Forward {
        var e := iter.Current();
        k, v := e.key.user, e.value;
      } else {
        k, v := savedKey, savedValue;
      }
    }

    /** Scan forward from the internal iterator to the first entry shown at or after `lo`. */
    method FindNextUserEntry(skipFirst: bool, ghost lo: nat)
      requires iter.Valid() && SortedEntries(Entries()) && Pos() < |Entries()|
      requires Scanning(Entries(), sequence, lo, Pos(), skipFirst, savedKey)
      modifies this`savedKey, this`valid, iter
      ensures iter.Valid() && valid == (Pos() < |Entries()|)
      ensures valid ==> lo <= Pos() && Shown(Entries(), sequence, Pos())
      ensures forall j :: lo <= j < Pos() ==> !Shown(Entries(), sequence, j)
    {
      hide SortedEntries, Shown, Scanning, MergingIterator.Valid;
      var skipping := skipFirst;
      ghost var es := Entries();
      while true
        invariant iter.Valid() && Pos() < |es| && Scanning(es, sequence, lo, Pos(), skipping, savedKey)
        decreases |es| - Pos()
      {
        AtEntry(iter);
        ghost var pos := Pos();
        var e := iter.Current();
        if e.key.sn <= sequence {
          if e.key.kind == Deletion {
            ScanDeletion(es, sequence, lo, pos, skipping, savedKey);
            savedKey := e.key.user;
            skipping := true;
          } else if skipping && e.key.user <= savedKey {
            ScanPast(es, sequence, lo, pos, skipping, savedKey);
          } else {
            ScanFound(es, sequence, lo, pos, skipping, savedKey);
            ScanMissesNothing(es, sequence, lo, pos, skipping, savedKey);
            valid := true;
            return;
          }
        } else {
          ScanPast(es, sequence, lo, pos, skipping, savedKey);
        }
        iter.Next();
        AtEntry(iter);
        if iter.current < 0 {
          ScanMissesNothing(es, sequence, lo, Pos(), skipping, savedKey);
          break;
        }
      }
      valid := false;
    }

    /** Go to the first entry of the view. */
    method SeekToFirst()
      requires Valid()
      modifies this, iter
      ensures Valid() && at == 0
    {
      hide MergingIterator.Valid;
      direction, savedValue := Forward, "";
      iter.SeekToFirst();
      AtEntry(iter);
      if iter.current >= 0 {
        FindNextUserEntry(false, 0);
      } else {
        valid := false;
      }
      NextInView(Entries(), sequence, -1, Pos());
      at := 0;
    }

    /** Go to the first entry of the view whose user key is not below `target`. */
    method Seek(target: UserKey)
      requires Valid()
      modifies this, iter
      ensures Valid()
      ensures forall a :: 0 <= a < |Seen()| && Seen()[a] < |Entries()| ==>
                (a >= at <==> Entries()[Seen()[a]].key.user >= target)
    {
      hide MergingIterator.Valid, Shown, SortedEntries, Scanning, View;
      direction, savedValue, savedKey := Forward, "", target;
      iter.Seek(LookupKey(target, sequence));
      AtEntry(iter);
      SeekStartsScan(Entries(), sequence, target);
      ghost var lo := Pos();
      if iter.current >= 0 {
        FindNextUserEntry(false, lo);
      } else {
        valid := false;
      }
      at := SeekInView(Entries(), sequence, target, lo, Pos());
    }

    /** Step to the next entry of the view. */
    method Next()
      requires Valid() && valid
      modifies this, iter
      ensures Valid() && at == old(at) + 1
    {
      hide SortedEntries, Shown, Scanning, View, MergingIterator.Valid;
      ghost var c := Seen()[at];
      AtEntry(iter);
      if direction == Reverse {
        direction := Forward;
        ReverseStartsScan(Entries(), sequence, Place(), c);
        if iter.current < 0 {
          iter.SeekToFirst();
        } else {
          iter.Next();
        }
        assert Pos() < |Entries()|;
      } else {
        var e := iter.Current();
        savedKey := e.key.user;
        ForwardStartsScan(Entries(), sequence, Pos());
      }
      FindNextUserEntry(true, c + 1);
      NextInView(Entries(), sequence, at, Pos());
      at := at + 1;
    }

    /** Scan backward from the internal iterator to the last entry shown before `hi`. */
    method FindPrevUserEntry(ghost hi: nat) returns (ghost c: int)
      requires iter.Valid() && SortedEntries(Entries()) && direction == Reverse
      requires Backing(Entries(), sequence, hi, Place(), -1)
      modifies this`savedKey, this`savedValue, this`valid, this`direction, iter
      ensures iter.Valid() && -1 <= c < hi && valid == (c >= 0)
      ensures forall j :: c < j < hi ==> !Shown(Entries(), sequence, j)
      ensures valid ==> && Shown(Entries(), sequence, c)
                        && savedKey == Entries()[c].key.user && savedValue == Entries()[c].value
                        && ClearBetween(Entries(), sequence, Place(), c) && direction == Reverse
      ensures !valid ==> direction == Forward
    {
      hide SortedEntries, Shown, ClearBetween, MergingIterator.Valid;
      ghost var es := Entries();
      c := -1;
      var valueType := Deletion;
      AtEntry(iter);
      while iter.current >= 0
        invariant iter.Valid() && Backing(es, sequence, hi, Place(), c) && (iter.current >= 0 <==> Pos() < |es|)
        invariant (valueType == Value) == (c >= 0) && direction == Reverse
        invariant c >= 0 ==> savedKey == es[c].key.user && savedValue == es[c].value
        decreases Place()
      {
        ghost var pos := Pos();
        var e := iter.Current();
        if e.key.sn <= sequence {
          if valueType != Deletion && e.key.user < savedKey {
            break;
          }
          BackStep(es, sequence, hi, pos, c);
          valueType := e.key.kind;
          if valueType == Deletion {
            savedKey, savedValue := 0.0, "";
            c := -1;
          } else {
            savedKey, savedValue := e.key.user, e.value;
            c := pos;
          }
        } else {
          BackStep(es, sequence, hi, pos, c);
        }
        iter.Prev();
        AtEntry(iter);
      }
      if valueType == Deletion {
        valid, savedKey, savedValue, direction := false, 0.0, "", Forward;
      } else {
        BackDone(es, sequence, hi, Place(), c);
        valid := true;
      }
    }

    /** Go to the last entry of the view. */
    method SeekToLast()
      requires Valid()
      modifies this, iter
      ensures Valid() && at == if |Seen()| > 0 then |Seen()| - 1 else 0
    {
      hide MergingIterator.Valid;
      direction, savedValue := Reverse, "";
      iter.SeekToLast();
      ghost var c := FindPrevUserEntry(|Entries()|);
      PrevInView(Entries(), sequence, |Seen()|, c);
      at := if c >= 0 then |Seen()| - 1 else 0;
    }

    /** Step to the previous entry of the view, or off its front. */
    method Prev()
      requires Valid() && valid
      modifies this, iter
      ensures Valid() && at == if old(at) > 0 then old(at) - 1 else |Seen()|
    {
      hide SortedEntries, View, MergingIterator.Valid;
      ghost var es := Entries();
      ghost var hi := Seen()[at];
      if direction == Forward {
        AtEntry(iter);
        var e := iter.Current();
        savedKey := e.key.user;
        while true
          invariant iter.Valid() && iter.current >= 0 && Pos() <= hi && Pos() == iter.at
          invariant forall j :: Pos() <= j < hi ==> es[j].key.user == savedKey
          invariant savedKey == es[hi].key.user && Shown(es, sequence, hi)
          invariant direction == Forward && at == old(at) < |Seen()| && hi == Seen()[at]
          decreases Pos()
        {
          iter.Prev();
          AtEntry(iter);
          if iter.current < 0 {
            SameUserNotShown(es, sequence, -1, hi);
            PrevInView(es, sequence, at, -1);
            valid, savedKey, savedValue := false, 0.0, "";
            at := |Seen()|;
            return;
          }
          UsersInOrder(es, Pos(), hi);
          e := iter.Current();
          if e.key.user < savedKey {
            break;
          }
        }
        direction := Reverse;
        SameUserNotShown(es, sequence, Pos(), hi);
      }
      ghost var c := FindPrevUserEntry(hi);
      PrevInView(es, sequence, at, c);
      at := if c >= 0 then at - 1 else |Seen()|;
    }
  }

  /** The internal iterator has a current run exactly when it is at an entry. */
  lemma AtEntry(iter: MergingIterator)
    requires iter.Valid()
    ensures -1 <= iter.at <= |iter.all|
    ensures iter.current >= 0 <==> 0 <= iter.at < |iter.all|
  {
  }

  lemma UsersInOrder(es: seq<Entry>, i: nat, j: nat)
    requires SortedEntries(es) && i < j < |es|
    ensures es[i].key.user <= es[j].key.user
  {
    assert Before(es[i].key, es[j].key);
  }

  /** Entries of the user key of a shown entry that come before it are too new to see. */
  lemma SameUserNotShown(es: seq<Entry>, s: nat, p: int, hi: nat)
    requires -1 <= p < hi < |es| && Shown(es, s, hi) && forall j :: p < j < hi ==> es[j].key.user == es[hi].key.user
    ensures forall j :: p < j < hi ==> !OldEnough(es, s, j) && !Shown(es, s, j)
    ensures Backing(es, s, hi, p, -1)
  {
  }

  lemma SeekStartsScan(es: seq<Entry>, s: nat, target: UserKey)
    requires SortedEntries(es)
    ensures var i := SeekIndex(es, LookupKey(target, s)); Scanning(es, s, i, i, false, target)
  {
    var p := SeekIndex(es, LookupKey(target, s));
    forall i, j | p <= i < |es| && 0 <= j < p && OldEnough(es, s, j) ensures es[j].key.user != es[i].key.user {
      assert p < i ==> Before(es[p].key, es[i].key);
    }
  }

  lemma ForwardStartsScan(es: seq<Entry>, s: nat, c: nat)
    requires SortedEntries(es) && c < |es| && Shown(es, s, c)
    ensures Scanning(es, s, c + 1, c, true, es[c].key.user)
  {
    forall i | c < i < |es| ensures es[i].key.user >= es[c].key.user {
      assert Before(es[c].key, es[i].key);
    }
    forall j | 0 <= j < c ensures es[j].key.user <= es[c].key.user {
      assert Before(es[j].key, es[c].key);
    }
  }

  lemma ReverseStartsScan(es: seq<Entry>, s: nat, p: int, c: nat)
    requires SortedEntries(es) && Shown(es, s, c) && ClearBetween(es, s, p, c)
    ensures Scanning(es, s, c + 1, p + 1, true, es[c].key.user)
  {
    forall i | c < i < |es| ensures es[i].key.user >= es[c].key.user {
      assert Before(es[c].key, es[i].key);
    }
    forall j | 0 <= j < c ensures es[j].key.user <= es[c].key.user {
      assert Before(es[j].key, es[c].key);
    }
  }

  /** The entry a seek ends at is the first of the view not below the target. */
  lemma SeekInView(es: seq<Entry>, s: nat, target: UserKey, lo: nat, n: nat) returns (a: nat)
    requires SortedEntries(es) && lo == SeekIndex(es, LookupKey(target, s)) <= n <= |es|
    requires (n < |es| ==> Shown(es, s, n)) && forall j :: lo <= j < n ==> !Shown(es, s, j)
    ensures a <= |View(es, s, |es|)| && (a < |View(es, s, |es|)| <==> n < |es|)
    ensures n < |es| ==> View(es, s, |es|)[a] == n
    ensures forall b :: 0 <= b < |View(es, s, |es|)| && View(es, s, |es|)[b] < |es| ==>
              (b >= a <==> es[View(es, s, |es|)[b]].key.user >= target)
  {
    ViewContents(es, s, |es|);
    var v := View(es, s, |es|);
    if n < |es| {
      assert n in v;
      a :| 0 <= a < |v| && v[a] == n;
    } else {
      a := |v|;
    }
    forall b | 0 <= b < |v| && v[b] < |es| ensures b >= a <==> es[v[b]].key.user >= target {
      assert v[b] in v;
      assert v[b] > lo ==> Before(es[lo].key, es[v[b]].key);
      if n < |es| {
        assert b < a ==> v[b] < n;
        assert b > a ==> v[b] > n;
      }
    }
  }

  /** From after `p` up to `c` nothing is visible, and `p` belongs to a smaller user key. */
  ghost predicate ClearBetween(es: seq<Entry>, s: nat, p: int, c: nat) {
    && -1 <= p < c < |es| && (p >= 0 ==> es[p].key.user < es[c].key.user)
    && forall j :: p < j < c ==> !OldEnough(es, s, j)
  }
}
