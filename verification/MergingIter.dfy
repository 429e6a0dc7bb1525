/**
  The merging iterator: several sorted runs behind one cursor that moves both ways over their
  sorted union, although the runs themselves are only repositioned when the direction changes.
 */
module MergingIter {
  import opened InternalKeys
  import opened Reads

  /** `all` holds the entries of the runs, in key order; no key occurs in two runs. */
  ghost predicate Union(runs: seq<seq<Entry>>, all: seq<Entry>) {
    && SortedEntries(all)
    && (forall i :: 0 <= i < |runs| ==> SortedEntries(runs[i]))
    && (forall i, j :: 0 <= i < |runs| && 0 <= j < |runs[i]| ==> runs[i][j] in all)
    && (forall e :: e in all ==> exists i :: Holds(runs, i, e))
    && forall i, j, k, l :: 0 <= i < j < |runs| && 0 <= k < |runs[i]| && 0 <= l < |runs[j]| ==>
      runs[i][k].key != runs[j][l].key
  }

  ghost predicate Holds(runs: seq<seq<Entry>>, i: int, e: Entry) {
    0 <= i < |runs| && e in runs[i]
  }

  /** `e` comes before position `t` of `all`. */
  ghost predicate Below(all: seq<Entry>, t: int, e: Entry)
    requires 0 <= t <= |all|
  {
    t == |all| || Before(e.key, all[t].key)
  }

  /** Each run is split at `cut[i]` into what comes before position `t` of the union and what does not. */
  ghost predicate Cut(runs: seq<seq<Entry>>, all: seq<Entry>, cut: seq<int>, t: int) {
    && 0 <= t <= |all| && |cut| == |runs|
    && (forall i :: 0 <= i < |runs| ==> 0 <= cut[i] <= |runs[i]|)
    && forall i, j :: 0 <= i < |runs| && 0 <= j < |runs[i]| ==> (j < cut[i] <==> Below(all, t, runs[i][j]))
  }

  predicate InRun(runs: seq<seq<Entry>>, pos: seq<int>, i: int)
    requires |pos| == |runs|
  {
    0 <= i < |runs| && 0 <= pos[i] < |runs[i]|
  }

  function KeyAt(runs: seq<seq<Entry>>, pos: seq<int>, i: int): InternalKey
    requires |pos| == |runs| && InRun(runs, pos, i)
  {
    runs[i][pos[i]].key
  }

  /** A run whose entry is the first among those that have one, or -1. */
  method FindSmallest(runs: seq<seq<Entry>>, pos: seq<int>) returns (smallest: int)
    requires |pos| == |runs|
    ensures smallest == -1 || InRun(runs, pos, smallest)
    ensures forall i :: InRun(runs, pos, i) ==>
      smallest >= 0 && !Before(KeyAt(runs, pos, i), KeyAt(runs, pos, smallest))
  {
    smallest := -1;
    for i := 0 to |runs|
      invariant smallest == -1 || (InRun(runs, pos, smallest) && smallest < i)
      invariant forall k :: 0 <= k < i && InRun(runs, pos, k) ==>
        smallest >= 0 && !Before(KeyAt(runs, pos, k), KeyAt(runs, pos, smallest))
    {
      if InRun(runs, pos, i) {
        if smallest == -1 || Before(KeyAt(runs, pos, i), KeyAt(runs, pos, smallest)) {
          smallest := i;
        }
      }
    }
  }

  method FindLargest(runs: seq<seq<Entry>>, pos: seq<int>) returns (largest: int)
    requires |pos| == |runs|
    ensures largest == -1 || InRun(runs, pos, largest)
    ensures forall i :: InRun(runs, pos, i) ==> largest >= 0 && !Before(KeyAt(runs, pos, largest), KeyAt(runs, pos, i))
  {
    largest := -1;
    for i := |runs| downto 0
      invariant largest == -1 || (InRun(runs, pos, largest) && largest >= i)
      invariant forall k :: i <= k < |runs| && InRun(runs, pos, k) ==>
        largest >= 0 && !Before(KeyAt(runs, pos, largest), KeyAt(runs, pos, k))
    {
      if InRun(runs, pos, i) {
        if largest == -1 || Before(KeyAt(runs, pos, largest), KeyAt(runs, pos, i)) {
          largest := i;
        }
      }
    }
  }

  /** Where an entry of a run is in the union, and on which side of `t`. */
  lemma PlaceOf(runs: seq<seq<Entry>>, all: seq<Entry>, t: int, i: int, j: int) returns (p: int)
    requires Union(runs, all) && 0 <= i < |runs| && 0 <= j < |runs[i]| && 0 <= t <= |all|
    ensures 0 <= p < |all| && all[p] == runs[i][j]
    ensures Below(all, t, runs[i][j]) <==> p < t
  {
    assert runs[i][j] in all;
    p :| 0 <= p < |all| && all[p] == runs[i][j];
    assert t < |all| && p < t ==> Before(all[p].key, all[t].key);
    assert t < p ==> Before(all[t].key, all[p].key);
  }

  lemma RunOf(runs: seq<seq<Entry>>, all: seq<Entry>, t: int) returns (i: int, j: int)
    requires Union(runs, all) && 0 <= t < |all|
    ensures 0 <= i < |runs| && 0 <= j < |runs[i]| && runs[i][j] == all[t]
  {
    assert all[t] in all;
    i :| Holds(runs, i, all[t]);
    j :| 0 <= j < |runs[i]| && runs[i][j] == all[t];
  }

  /** The order of the union is the order of positions. */
  lemma InOrder(all: seq<Entry>, p: int, q: int)
    requires SortedEntries(all) && 0 <= p < |all| && 0 <= q < |all|
    ensures Before(all[p].key, all[q].key) <==> p < q
  {
    assert p < q ==> Before(all[p].key, all[q].key);
    assert q < p ==> Before(all[q].key, all[p].key);
  }

  /** With every run at its cut, the smallest entry is the one of the union at the cut. */
  lemma SmallestIsNext(runs: seq<seq<Entry>>, all: seq<Entry>, pos: seq<int>, t: int, c: int)
    requires Union(runs, all) && Cut(runs, all, pos, t)
    requires c == -1 || InRun(runs, pos, c)
    requires forall i :: InRun(runs, pos, i) ==> c >= 0 && !Before(KeyAt(runs, pos, i), KeyAt(runs, pos, c))
    ensures c == -1 <==> t == |all|
    ensures c >= 0 ==> runs[c][pos[c]] == all[t]
  {
    if t < |all| {
      var i, j := RunOf(runs, all, t);
      var q := PlaceOf(runs, all, t, i, j);
      InOrder(all, q, t);
      InOrder(all, t, q);
      assert pos[i] <= j;
      var r := PlaceOf(runs, all, t, i, pos[i]);
      InOrder(all, r, q);
      assert InRun(runs, pos, i);
      var p := PlaceOf(runs, all, t, c, pos[c]);
      InOrder(all, r, p);
    } else if c >= 0 {
      var p := PlaceOf(runs, all, t, c, pos[c]);
    }
  }

  /** With every run just before its cut, the largest entry is the one of the union before the cut. */
  lemma LargestIsPrevious(runs: seq<seq<Entry>>, all: seq<Entry>, pos: seq<int>, cut: seq<int>, t: int, c: int)
    requires Union(runs, all) && Cut(runs, all, cut, t) && |pos| == |runs|
    requires forall i :: 0 <= i < |runs| ==> cut[i] == pos[i] + 1
    requires c == -1 || InRun(runs, pos, c)
    requires forall i :: InRun(runs, pos, i) ==> c >= 0 && !Before(KeyAt(runs, pos, c), KeyAt(runs, pos, i))
    ensures c == -1 <==> t == 0
    ensures c >= 0 ==> t >= 1 && runs[c][pos[c]] == all[t - 1]
  {
    if t > 0 {
      var i, j := RunOf(runs, all, t - 1);
      var q := PlaceOf(runs, all, t, i, j);
      InOrder(all, q, t - 1);
      InOrder(all, t - 1, q);
      assert j <= pos[i] && InRun(runs, pos, i);
      var r := PlaceOf(runs, all, t, i, pos[i]);
      assert j < pos[i] ==> Before(runs[i][j].key, runs[i][pos[i]].key);
      InOrder(all, q, r);
      var p := PlaceOf(runs, all, t, c, pos[c]);
      InOrder(all, p, r);
    } else if c >= 0 {
      var p := PlaceOf(runs, all, t, c, pos[c]);
    }
  }

  class MergingIterator {
    const runs: seq<seq<Entry>>
    var pos: seq<int>
    var current: int
    var forward: bool
    ghost const all: seq<Entry>
    ghost var at: int

    /**
      The iterator is a cursor on `all` at position `at`, which is outside exactly when there is
      no current run.  Going forward, every run is at its first entry from there on; going
      backward, at its last entry up to there.
     */
    ghost predicate Valid()
      reads this
    {
      && Union(runs, all) && |pos| == |runs| && -1 <= at <= |all| && -1 <= current < |runs|
      && (current == -1 <==> at == -1 || at == |all|)
      && (current >= 0 ==> InRun(runs, pos, current) && runs[current][pos[current]] == all[at])
      && (current >= 0 ==> if forward then Cut(runs, all, pos, at) else Cut(runs, all, Stepped(pos), at + 1))
    }

    constructor (runs: seq<seq<Entry>>, ghost all: seq<Entry>)
      requires Union(runs, all)
      ensures Valid() && this.runs == runs && this.all == all && current == -1
    {
      this.runs, this.all := runs, all;
      pos := seq(|runs|, _ => 0);
      current, forward, at := -1, true, -1;
    }

    method SeekToFirst()
      requires Valid()
      modifies this
      ensures Valid() && at == 0
    {
      var ps: seq<int> := [];
      for i := 0 to |runs|
        invariant |ps| == i && forall k :: 0 <= k < i ==> ps[k] == 0
      {
        ps := ps + [0];
      }
      FirstCut(runs, all, ps);
      Forward(ps, 0);
    }

    method SeekToLast()
      requires Valid()
      modifies this
      ensures Valid() && at == |all| - 1
    {
      var ps: seq<int> := [];
      for i := 0 to |runs|
        invariant |ps| == i && forall k :: 0 <= k < i ==> ps[k] == |runs[k]| - 1
      {
        ps := ps + [|runs[i]| - 1];
      }
      LastCut(runs, all, Stepped(ps));
      Backward(ps, |all|);
    }

    method Seek(target: InternalKey)
      requires Valid()
      modifies this
      ensures Valid() && at == SeekIndex(all, target)
    {
      var ps: seq<int> := [];
      for i := 0 to |runs|
        invariant |ps| == i && forall k :: 0 <= k < i ==> ps[k] == SeekIndex(runs[k], target)
      {
        ps := ps + [SeekIndex(runs[i], target)];
      }
      SeekCut(runs, all, ps, target);
      Forward(ps, SeekIndex(all, target));
    }

    /** Choose the smallest of the runs, which are all at the cut `t`. */
    method Forward(ps: seq<int>, ghost t: int)
      requires Union(runs, all) && Cut(runs, all, ps, t)
      modifies this
      ensures Valid() && at == t && forward
    {
      pos, forward := ps, true;
      current := FindSmallest(runs, pos);
      SmallestIsNext(runs, all, pos, t, current);
      at := t;
    }

    method Backward(ps: seq<int>, ghost t: int)
      requires Union(runs, all) && |ps| == |runs| && Cut(runs, all, Stepped(ps), t)
      modifies this
      ensures Valid() && at == t - 1 && !forward
    {
      hide Union, Before;
      pos, forward := ps, false;
      current := FindLargest(runs, pos);
      LargestIsPrevious(runs, all, pos, Stepped(pos), t, current);
      at := t - 1;
    }

    /** Move every run but the current one past the current key, if they are behind it; then advance. */
    method Next()
      requires Valid() && current >= 0
      modifies this
      ensures Valid() && at == old(at) + 1
    {
      hide Cut, Union, Before, SeekIndex;
      var ps, here := pos, pos[current];
      if !forward {
        var key := runs[current][here].key;
        NoSameKey(runs, all, current, here);
        for i := 0 to |runs|
          invariant |ps| == |runs| && ps[current] == here
          invariant forall k :: 0 <= k < i && k != current ==> ps[k] == SeekIndex(runs[k], key)
        {
          if i != current {
            var p := SeekIndex(runs[i], key);
            var same := p < |runs[i]| && runs[i][p].key == key;
            ps := ps[i := if same then p + 1 else p];
          }
        }
        TurnedForward(runs, all, ps, at, current);
      }
      AdvancedCut(runs, all, ps, at, current);
      Forward(ps[current := ps[current] + 1], at + 1);
    }

    /** Move every run but the current one before the current key, if they are beyond it; then step back. */
    method Prev()
      requires Valid() && current >= 0
      modifies this
      ensures Valid() && at == old(at) - 1
    {
      hide Cut, Union, Before, SeekIndex;
      var ps, here := pos, pos[current];
      if forward {
        var key := runs[current][here].key;
        for i := 0 to |runs|
          invariant |ps| == |runs| && ps[current] == here
          invariant forall k :: 0 <= k < i && k != current ==> ps[k] == SeekIndex(runs[k], key) - 1
        {
          if i != current {
            var p := SeekIndex(runs[i], key);
            if p < |runs[i]| {
              ps := ps[i := p - 1];
            } else {
              ps := ps[i := |runs[i]| - 1];
            }
          }
        }
        TurnedBackward(runs, all, ps, at, current);
      }
      RetreatedCut(runs, all, ps, at, current);
      Backward(ps[current := ps[current] - 1], at);
    }

    method Current() returns (e: Entry)
      requires Valid() && current >= 0
      ensures 0 <= at < |all| && e == all[at]
    {
      e := runs[current][pos[current]];
    }
  }

  /** One further in every run. */
  function Stepped(pos: seq<int>): (r: seq<int>)
    ensures |r| == |pos| && forall i :: 0 <= i < |pos| ==> r[i] == pos[i] + 1
  {
    seq(|pos|, (i: int) requires 0 <= i < |pos| => pos[i] + 1)
  }

  lemma FirstCut(runs: seq<seq<Entry>>, all: seq<Entry>, ps: seq<int>)
    requires Union(runs, all) && |ps| == |runs| && forall i :: 0 <= i < |runs| ==> ps[i] == 0
    ensures Cut(runs, all, ps, 0)
  {
    forall i, j | 0 <= i < |runs| && 0 <= j < |runs[i]| ensures !Below(all, 0, runs[i][j]) {
      var p := PlaceOf(runs, all, 0, i, j);
    }
  }

  lemma LastCut(runs: seq<seq<Entry>>, all: seq<Entry>, ps: seq<int>)
    requires Union(runs, all) && |ps| == |runs| && forall i :: 0 <= i < |runs| ==> ps[i] == |runs[i]|
    ensures Cut(runs, all, ps, |all|)
  {
  }

  lemma SeekCut(runs: seq<seq<Entry>>, all: seq<Entry>, ps: seq<int>, key: InternalKey)
    requires Union(runs, all) && |ps| == |runs| && forall i :: 0 <= i < |runs| ==> ps[i] == SeekIndex(runs[i], key)
    ensures Cut(runs, all, ps, SeekIndex(all, key))
  {
    var t := SeekIndex(all, key);
    forall i, j | 0 <= i < |runs| && 0 <= j < |runs[i]| ensures j < ps[i] <==> Below(all, t, runs[i][j]) {
      var p := PlaceOf(runs, all, t, i, j);
      SeekSplits(runs[i], key, j);
      SeekSplits(all, key, p);
    }
  }

  lemma SeekSplits(es: seq<Entry>, key: InternalKey, j: int)
    requires SortedEntries(es) && 0 <= j < |es|
    ensures j < SeekIndex(es, key) <==> Before(es[j].key, key)
  {
    var i := SeekIndex(es, key);
    assert i < j ==> Before(es[i].key, es[j].key);
  }

  lemma NoSameKey(runs: seq<seq<Entry>>, all: seq<Entry>, c: int, p: int)
    requires Union(runs, all) && 0 <= c < |runs| && 0 <= p < |runs[c]|
    ensures forall i, q :: 0 <= i < |runs| && i != c && 0 <= q < |runs[i]| ==> runs[c][p].key != runs[i][q].key
  {
  }

  lemma TurnedForward(runs: seq<seq<Entry>>, all: seq<Entry>, ps: seq<int>, at: int, c: int)
    requires Union(runs, all) && |ps| == |runs| && 0 <= at < |all| && InRun(runs, ps, c) && runs[c][ps[c]] == all[at]
    requires forall k :: 0 <= k < |runs| && k != c ==> ps[k] == SeekIndex(runs[k], all[at].key)
    ensures Cut(runs, all, ps, at)
  {
    forall i, j | 0 <= i < |runs| && 0 <= j < |runs[i]| ensures j < ps[i] <==> Below(all, at, runs[i][j]) {
      SeekSplits(runs[i], all[at].key, j);
      SeekSplits(runs[c], all[at].key, ps[c]);
      assert i == c && j < ps[c] ==> Before(runs[c][j].key, runs[c][ps[c]].key);
      assert i == c && ps[c] < j ==> Before(runs[c][ps[c]].key, runs[c][j].key);
    }
  }

  lemma AdvancedCut(runs: seq<seq<Entry>>, all: seq<Entry>, ps: seq<int>, at: int, c: int)
    requires Union(runs, all) && Cut(runs, all, ps, at) && at < |all| && InRun(runs, ps, c) && runs[c][ps[c]] == all[at]
    ensures Cut(runs, all, ps[c := ps[c] + 1], at + 1)
  {
    forall i, j | 0 <= i < |runs| && 0 <= j < |runs[i]|
      ensures j < ps[c := ps[c] + 1][i] <==> Below(all, at + 1, runs[i][j])
    {
      var p := PlaceOf(runs, all, at, i, j);
      var q := PlaceOf(runs, all, at + 1, i, j);
      InOrder(all, p, q);
      InOrder(all, q, p);
      OnlyHere(runs, all, at, c, ps[c], i, j);
    }
  }

  /** The entry at a place of the union is in one run, at one position. */
  lemma OnlyHere(runs: seq<seq<Entry>>, all: seq<Entry>, at: int, c: int, p: int, i: int, j: int)
    requires Union(runs, all) && 0 <= at < |all| && 0 <= c < |runs| && 0 <= p < |runs[c]| && runs[c][p] == all[at]
    requires 0 <= i < |runs| && 0 <= j < |runs[i]|
    ensures runs[i][j] == all[at] <==> i == c && j == p
  {
    if i == c {
      assert j < p ==> Before(runs[c][j].key, runs[c][p].key);
      assert p < j ==> Before(runs[c][p].key, runs[c][j].key);
    }
  }

  lemma TurnedBackward(runs: seq<seq<Entry>>, all: seq<Entry>, ps: seq<int>, at: int, c: int)
    requires Union(runs, all) && |ps| == |runs| && 0 <= at < |all| && InRun(runs, ps, c) && runs[c][ps[c]] == all[at]
    requires forall k :: 0 <= k < |runs| && k != c ==> ps[k] == SeekIndex(runs[k], all[at].key) - 1
    ensures Cut(runs, all, Stepped(ps), at + 1)
  {
    var turned := Stepped(ps)[c := ps[c]];
    TurnedForward(runs, all, turned, at, c);
    AdvancedCut(runs, all, turned, at, c);
    assert turned[c := ps[c] + 1] == Stepped(ps);
  }

  lemma RetreatedCut(runs: seq<seq<Entry>>, all: seq<Entry>, ps: seq<int>, at: int, c: int)
    requires Union(runs, all) && |ps| == |runs| && 0 <= at < |all| && Cut(runs, all, Stepped(ps), at + 1)
    requires InRun(runs, ps, c) && runs[c][ps[c]] == all[at]
    ensures Cut(runs, all, Stepped(ps[c := ps[c] - 1]), at)
  {
    forall i, j | 0 <= i < |runs| && 0 <= j < |runs[i]|
      ensures j < Stepped(ps[c := ps[c] - 1])[i] <==> Below(all, at, runs[i][j])
    {
      var p := PlaceOf(runs, all, at, i, j);
      var q := PlaceOf(runs, all, at + 1, i, j);
      InOrder(all, p, q);
      InOrder(all, q, p);
      OnlyHere(runs, all, at, c, ps[c], i, j);
    }
  }

  // The union as a value

  /** Two sorted runs in one. */
  function MergeEntries(a: seq<Entry>, b: seq<Entry>): (r: seq<Entry>)
    ensures forall e :: e in r <==> e in a || e in b
    decreases |a| + |b|
  {
    if a == [] then b
    else if b == [] then a
    else
      assert a == [a[0]] + a[1..] && b == [b[0]] + b[1..];
      if Before(a[0].key, b[0].key) then [a[0]] + MergeEntries(a[1..], b) else [b[0]] + MergeEntries(a, b[1..])
  }

  lemma {:induction false} MergeSorted(a: seq<Entry>, b: seq<Entry>)
    requires SortedEntries(a) && SortedEntries(b)
    requires forall x, y :: x in a && y in b ==> x.key != y.key
    ensures SortedEntries(MergeEntries(a, b))
    decreases |a| + |b|
  {
    if a != [] && b != [] {
      HeadIsLeast(a);
      HeadIsLeast(b);
      assert a[0] in a && b[0] in b;
      if Before(a[0].key, b[0].key) {
        MergeSorted(a[1..], b);
        Prepend(a[0], MergeEntries(a[1..], b));
      } else {
        MergeSorted(a, b[1..]);
        Prepend(b[0], MergeEntries(a, b[1..]));
      }
    }
  }

  lemma Prepend(h: Entry, r: seq<Entry>)
    requires SortedEntries(r) && forall e :: e in r ==> Before(h.key, e.key)
    ensures SortedEntries([h] + r)
  {
  }

  lemma HeadIsLeast(a: seq<Entry>)
    requires SortedEntries(a) && a != []
    ensures forall e :: e in a ==> e == a[0] || Before(a[0].key, e.key)
    ensures forall e :: e in a[1..] ==> e in a && Before(a[0].key, e.key)
  {
  }

  lemma EmptyUnion()
    ensures Union([], [])
  {
  }

  /** One more run without a key of the others. */
  lemma UnionGrows(runs: seq<seq<Entry>>, all: seq<Entry>, run: seq<Entry>)
    requires Union(runs, all) && SortedEntries(run) && forall x, y :: x in all && y in run ==> x.key != y.key
    ensures Union(runs + [run], MergeEntries(all, run))
  {
    hide SortedEntries, Before, MergeEntries;
    MergeSorted(all, run);
    var more := runs + [run];
    forall e | e in MergeEntries(all, run) ensures exists i :: Holds(more, i, e) {
      if e in run {
        assert Holds(more, |runs|, e);
      } else {
        var i :| Holds(runs, i, e);
        assert Holds(more, i, e);
      }
    }
    forall i, j, k, l | 0 <= i < j < |more| && 0 <= k < |more[i]| && 0 <= l < |more[j]|
      ensures more[i][k].key != more[j][l].key
    {
      assert more[i][k] in all;
    }
  }
}
