/**
  Tables as values: data blocks, an index with shortened keys, and filters.  The one block that the
  index leads to, unless its filter rules the key out, has the answer of a scan of the whole table.
 */
module Tables {
  import opened Basics
  import opened InternalKeys
  import opened Reads
  import opened Separators
  import opened FilterBlock
  import Bloom

  datatype StoredEntry = StoredEntry(key: StoredKey, value: seq<Byte>)

  /** An entry with its user key replaced by its place in the order. */
  function Place(e: StoredEntry): Entry {
    Entry(Ranked(e.key), Text(e.value))
  }

  /** Entries with their user keys replaced by their places in the order. */
  function Placed(es: seq<StoredEntry>): (r: seq<Entry>)
    ensures |r| == |es| && forall i :: 0 <= i < |es| ==> r[i] == Place(es[i])
  {
    seq(|es|, (i: int) requires 0 <= i < |es| => Place(es[i]))
  }

  predicate Less(a: StoredKey, b: StoredKey) {
    Before(Ranked(a), Ranked(b))
  }

  /** An index key with the offset of its data block. */
  datatype IndexEntry = IndexEntry(key: StoredKey, offset: nat)

  /** A finished table; blocks are found by their offsets in the file. */
  datatype Table = Table(file: map<nat, seq<StoredEntry>>, index: seq<IndexEntry>, filter: Option<seq<Byte>>)

  lemma {:induction false} InFlat(blocks: seq<seq<StoredEntry>>, e: StoredEntry)
    ensures e in Flat(blocks) <==> exists i :: InBlock(blocks, i, e)
  {
    if blocks != [] {
      var n := |blocks| - 1;
      InFlat(blocks[..n], e);
      if e in Flat(blocks[..n]) {
        var i :| InBlock(blocks[..n], i, e);
        assert InBlock(blocks, i, e);
      }
      if e in blocks[n] {
        assert InBlock(blocks, n, e);
      }
      if i :| InBlock(blocks, i, e) {
        assert i < n ==> InBlock(blocks[..n], i, e);
      }
    }
  }

  ghost predicate InBlock(blocks: seq<seq<StoredEntry>>, i: int, e: StoredEntry) {
    0 <= i < |blocks| && e in blocks[i]
  }

  /** Within and across blocks, keys increase. */
  ghost predicate Increasing(blocks: seq<seq<StoredEntry>>) {
    && (forall i :: 0 <= i < |blocks| ==> blocks[i] != [] && SortedEntries(Placed(blocks[i])))
    && forall i, j, d, e :: 0 <= i < j < |blocks| && d in blocks[i] && e in blocks[j] ==> Less(d.key, e.key)
  }

  function First(b: seq<StoredEntry>): StoredKey
    requires b != []
  {
    b[0].key
  }

  function Last(b: seq<StoredEntry>): StoredKey
    requires b != []
  {
    b[|b| - 1].key
  }

  /** The index key of a block is not before the block, and before the next one. */
  ghost predicate IndexOk(blocks: seq<seq<StoredEntry>>, index: seq<IndexEntry>, i: int)
    requires 0 <= i < |blocks| && |index| == |blocks| && forall j :: 0 <= j < |blocks| ==> blocks[j] != []
  {
    if i + 1 < |blocks| then Separates(Ranked(Last(blocks[i])), Ranked(index[i].key), Ranked(First(blocks[i + 1])))
    else Succeeds(Ranked(Last(blocks[i])), Ranked(index[i].key))
  }

  ghost predicate Represents(t: Table, hash: Bloom.Hash, blocks: seq<seq<StoredEntry>>) {
    && Increasing(blocks) && |t.index| == |blocks|
    && (forall i :: 0 <= i < |blocks| ==> t.index[i].offset in t.file && t.file[t.index[i].offset] == blocks[i])
    && (forall i :: 0 <= i < |blocks| ==> IndexOk(blocks, t.index, i))
    && (t.filter.Some? ==>
      forall i, e :: InBlock(blocks, i, e) ==> MayMatch(hash, t.filter.value, t.index[i].offset, e.key.user))
  }

  // ----- point lookup -----

  /** Position of the first index key not before `k`. */
  function IndexSeek(index: seq<IndexEntry>, k: InternalKey): (i: nat)
    ensures i <= |index|
    ensures forall j :: 0 <= j < i ==> Before(Ranked(index[j].key), k)
    ensures i < |index| ==> !Before(Ranked(index[i].key), k)
  {
    if index == [] || !Before(Ranked(index[0].key), k) then 0 else 1 + IndexSeek(index[1..], k)
  }

  /** An entry of the block is not after its index key. */
  lemma NotAfterIndex(blocks: seq<seq<StoredEntry>>, index: seq<IndexEntry>, i: nat, e: StoredEntry)
    requires Increasing(blocks) && |index| == |blocks| && InBlock(blocks, i, e) && IndexOk(blocks, index, i)
    ensures !Before(Ranked(index[i].key), Ranked(e.key))
  {
    var b := blocks[i];
    var p :| 0 <= p < |b| && b[p] == e;
    assert p < |b| - 1 ==> Before(Placed(b)[p].key, Placed(b)[|b| - 1].key);
  }

  lemma NotBeforeLookup(k: UserKey, s: nat, e: InternalKey)
    requires e.user == k && e.sn <= s
    ensures !Before(e, LookupKey(k, s))
  {
  }

  /** Keys between the block that the index leads to and the next one. */
  lemma LastIsNewer(k: UserKey, s: nat, index: InternalKey, last: InternalKey, first: InternalKey, e: InternalKey)
    requires Separates(last, index, first) && !Before(index, LookupKey(k, s))
    requires Before(last, e) && !Before(e, first) && e.user == k
    ensures last.user == k && last.sn <= s
  {
  }

  /** An entry that a lookup may see is in the block that the index leads to, or that block has one before it. */
  lemma RightBlock(t: Table, hash: Bloom.Hash, blocks: seq<seq<StoredEntry>>, user: seq<Byte>, s: nat, e: StoredEntry,
      j: nat)
    requires Represents(t, hash, blocks) && InBlock(blocks, j, e) && Matches(Place(e), Rank(user), s)
    ensures var i := IndexSeek(t.index, LookupKey(Rank(user), s));
      i < j ==>
        var last := blocks[i][|blocks[i]| - 1];
        last.key.user == user && Matches(Place(last), Rank(user), s) && Before(Ranked(last.key), Ranked(e.key))
    ensures IndexSeek(t.index, LookupKey(Rank(user), s)) <= j
  {
    hide *;
    var k := LookupKey(Rank(user), s);
    var i := IndexSeek(t.index, k);
    Parts(t, hash, blocks, j, e);
    NotAfterIndex(blocks, t.index, j, e);
    MatchMeans(e, Rank(user), s);
    NotBeforeLookup(Rank(user), s, Ranked(e.key));
    if j < i {
      BeforeTransitive(Ranked(t.index[j].key), k, Ranked(e.key));
    }
    if i < j {
      var last := LastOf(blocks, i, j, e);
      Parts(t, hash, blocks, i, last);
      FirstIsLeast(blocks, i + 1, j, e);
      SeparatedAt(blocks, t.index, i);
      LastIsNewer(Rank(user), s, Ranked(t.index[i].key), Ranked(last.key), Ranked(blocks[i + 1][0].key), Ranked(e.key));
      RankOrder(last.key.user, user);
      MatchMeans(last, Rank(user), s);
    }
  }

  lemma Parts(t: Table, hash: Bloom.Hash, blocks: seq<seq<StoredEntry>>, i: nat, e: StoredEntry)
    requires Represents(t, hash, blocks) && InBlock(blocks, i, e)
    ensures Increasing(blocks) && |t.index| == |blocks| && i < |blocks| && IndexOk(blocks, t.index, i)
  {
  }

  lemma MatchMeans(e: StoredEntry, k: UserKey, s: nat)
    ensures Matches(Place(e), k, s) <==> Ranked(e.key).user == k && e.key.sn <= s
    ensures Ranked(e.key).sn == e.key.sn && Ranked(e.key).user == Rank(e.key.user)
  {
  }

  lemma LastOf(blocks: seq<seq<StoredEntry>>, i: nat, j: nat, e: StoredEntry) returns (last: StoredEntry)
    requires Increasing(blocks) && i < j && InBlock(blocks, j, e)
    ensures blocks[i] != [] && last == blocks[i][|blocks[i]| - 1] && InBlock(blocks, i, last)
    ensures Before(Ranked(last.key), Ranked(e.key)) && last.key == Last(blocks[i])
  {
    last := blocks[i][|blocks[i]| - 1];
    assert Less(last.key, e.key);
  }

  lemma BeforeTransitive(a: InternalKey, k: InternalKey, e: InternalKey)
    requires Before(a, k) && !Before(e, k)
    ensures Before(a, e)
  {
  }

  lemma SeparatedAt(blocks: seq<seq<StoredEntry>>, index: seq<IndexEntry>, i: nat)
    requires Increasing(blocks) && |index| == |blocks| && i + 1 < |blocks| && IndexOk(blocks, index, i)
    ensures Separates(Ranked(Last(blocks[i])), Ranked(index[i].key), Ranked(blocks[i + 1][0].key))
  {
  }

  lemma FirstIsLeast(blocks: seq<seq<StoredEntry>>, i: nat, j: nat, e: StoredEntry)
    requires Increasing(blocks) && i <= j && InBlock(blocks, j, e)
    ensures !Before(Ranked(e.key), Ranked(blocks[i][0].key))
  {
    var first := blocks[i][0];
    assert first in blocks[i];
    if i == j {
      var p :| 0 <= p < |blocks[j]| && blocks[j][p] == e;
      assert p > 0 ==> Before(Placed(blocks[j])[0].key, Placed(blocks[j])[p].key);
    } else {
      assert Less(first.key, e.key);
    }
  }

  /** A seek to the lookup key finds the first of the entries it may see. */
  lemma PointGetFirst(es: seq<Entry>, k: UserKey, s: nat)
    requires SortedEntries(es)
    ensures match PointGet(es, k, s)
      case None => forall e :: e in es ==> !Matches(e, k, s)
      case Some(d) =>
        && d in es && Matches(d, k, s)
        && forall e :: e in es && Matches(e, k, s) ==> e == d || Before(d.key, e.key)
  {
    PointGetNewest(es, k, s);
    var i := SeekIndex(es, LookupKey(k, s));
    forall e | e in es && Matches(e, k, s) ensures i < |es| && (e == es[i] || Before(es[i].key, e.key)) {
      var j :| 0 <= j < |es| && es[j] == e;
      assert j >= i;
    }
  }

  /** The first of the entries that a lookup may see is unique. */
  lemma OnlyFirst(es: seq<Entry>, k: UserKey, s: nat, r: Option<Entry>)
    requires SortedEntries(es)
    requires r.None? ==> forall e :: e in es ==> !Matches(e, k, s)
    requires r.Some? ==> r.value in es && Matches(r.value, k, s)
    requires r.Some? ==> forall e :: e in es && Matches(e, k, s) ==> e == r.value || Before(r.value.key, e.key)
    ensures r == PointGet(es, k, s)
  {
    PointGetFirst(es, k, s);
    hide PointGet;
  }

  lemma {:induction false} FlatSorted(blocks: seq<seq<StoredEntry>>)
    requires Increasing(blocks)
    ensures SortedEntries(Placed(Flat(blocks)))
  {
    if blocks != [] {
      var n := |blocks| - 1;
      var before, last := blocks[..n], blocks[n];
      FlatSorted(before);
      forall d | d in Flat(before) ensures exists i :: InBlock(before, i, d) {
        InFlat(before, d);
      }
      hide Before;
      var all := Flat(before) + last;
      forall p, q | 0 <= p < q < |all| ensures Before(Placed(all)[p].key, Placed(all)[q].key) {
        if q < |Flat(before)| {
          assert Before(Placed(Flat(before))[p].key, Placed(Flat(before))[q].key);
        } else if p >= |Flat(before)| {
          assert Before(Placed(last)[p - |Flat(before)|].key, Placed(last)[q - |Flat(before)|].key);
        } else {
          assert Flat(before)[p] in Flat(before);
          var i :| InBlock(before, i, Flat(before)[p]);
          assert Less(all[p].key, all[q].key);
        }
      }
    }
  }

  /** What the lookup looks at: one block, unless its filter rules the key out. */
  ghost predicate LooksInto(t: Table, hash: Bloom.Hash, user: seq<Byte>, s: nat) {
    var i := IndexSeek(t.index, LookupKey(Rank(user), s));
    i < |t.index| && (t.filter.Some? ==> MayMatch(hash, t.filter.value, t.index[i].offset, user))
  }

  /** A match anywhere in the table is a match in the block looked into, no later than it. */
  lemma FoundInBlock(t: Table, hash: Bloom.Hash, blocks: seq<seq<StoredEntry>>, user: seq<Byte>, s: nat, e: StoredEntry)
    returns (d: StoredEntry)
    requires Represents(t, hash, blocks) && e in Flat(blocks) && Matches(Place(e), Rank(user), s)
    ensures LooksInto(t, hash, user, s)
    ensures InBlock(blocks, IndexSeek(t.index, LookupKey(Rank(user), s)), d) && Matches(Place(d), Rank(user), s)
    ensures d == e || Before(Place(d).key, Place(e).key)
  {
    InFlat(blocks, e);
    var j :| InBlock(blocks, j, e);
    RightBlock(t, hash, blocks, user, s, e, j);
    var i := IndexSeek(t.index, LookupKey(Rank(user), s));
    d := if i < j then blocks[i][|blocks[i]| - 1] else e;
    RankOrder(d.key.user, user);
    hide Before, MayMatch, Rank, IndexSeek;
    assert InBlock(blocks, i, d);
  }

  /** The block looked into gives the same answer as the whole table. */
  lemma BlockAnswers(t: Table, hash: Bloom.Hash, blocks: seq<seq<StoredEntry>>, user: seq<Byte>, s: nat)
    requires Represents(t, hash, blocks)
    ensures var i := IndexSeek(t.index, LookupKey(Rank(user), s));
      PointGet(Placed(Flat(blocks)), Rank(user), s) ==
        if LooksInto(t, hash, user, s) then PointGet(Placed(blocks[i]), Rank(user), s) else None
  {
    var i, all := IndexSeek(t.index, LookupKey(Rank(user), s)), Placed(Flat(blocks));
    var looks := LooksInto(t, hash, user, s);
    assert |t.index| == |blocks| && (looks ==> i < |blocks| && SortedEntries(Placed(blocks[i])));
    FlatSorted(blocks);
    hide Represents, LooksInto, SortedEntries, Before, Matches, Place, Rank, IndexSeek, Flat, PointGet, InBlock;
    var r := if looks then PointGet(Placed(blocks[i]), Rank(user), s) else None;
    if looks {
      PointGetFirst(Placed(blocks[i]), Rank(user), s);
    }
    forall e | e in all && Matches(e, Rank(user), s)
      ensures r.Some? && (e == r.value || Before(r.value.key, e.key))
    {
      var p :| 0 <= p < |all| && all[p] == e;
      var d := FoundInBlock(t, hash, blocks, user, s, Flat(blocks)[p]);
      ThroughFound(blocks, i, d, r.value, Rank(user), s, e);
    }
    if r.Some? {
      FromBlock(blocks, i, r.value);
    }
    OnlyFirst(all, Rank(user), s, r);
  }

  lemma ThroughFound(blocks: seq<seq<StoredEntry>>, i: int, d: StoredEntry, r: Entry, k: UserKey, s: nat, e: Entry)
    requires InBlock(blocks, i, d) && Matches(Place(d), k, s) && (Place(d) == e || Before(Place(d).key, e.key))
    requires forall x :: x in Placed(blocks[i]) && Matches(x, k, s) ==> x == r || Before(r.key, x.key)
    ensures e == r || Before(r.key, e.key)
  {
    PlaceIn(blocks[i], d);
    hide Place;
  }

  lemma PlaceIn(b: seq<StoredEntry>, d: StoredEntry)
    requires d in b
    ensures Place(d) in Placed(b)
  {
    var p :| 0 <= p < |b| && b[p] == d;
    assert Placed(b)[p] == Place(d);
  }

  lemma FromBlock(blocks: seq<seq<StoredEntry>>, i: nat, e: Entry)
    requires i < |blocks| && e in Placed(blocks[i])
    ensures e in Placed(Flat(blocks))
  {
    var p :| 0 <= p < |blocks[i]| && Placed(blocks[i])[p] == e;
    var d := blocks[i][p];
    assert InBlock(blocks, i, d);
    InFlat(blocks, d);
    PlaceIn(Flat(blocks), d);
  }
}
