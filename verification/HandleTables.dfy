/** The hash table of the cache: chained buckets that double in number as entries are added. */
module HandleTables {
  import opened Basics

  type Key = seq<Byte>
  type Id = nat

  /** An entry of a chain: which handle it is, and what it is found by. */
  datatype Item = Item(id: Id, key: Key, hash: Word)

  datatype Name = Name(key: Key, hash: Word)

  function NameOf(i: Item): Name {
    Name(i.key, i.hash)
  }

  /** The bucket of a hash value.  Lengths are powers of two, so the remainder is the masked value. */
  function Bucket(hash: Word, length: nat): (b: nat)
    requires length > 0
    ensures b < length
  {
    hash % length
  }

  ghost predicate At(list: seq<seq<Item>>, b: int, k: int) {
    0 <= b < |list| && 0 <= k < |list[b]|
  }

  /** Every item is in its bucket, and `index` is the map from names to handles that the chains stand for. */
  ghost predicate Stands(list: seq<seq<Item>>, index: map<Name, Id>) {
    && |list| > 0
    && (forall b, k :: At(list, b, k) ==> ItemOk(list, index, b, k))
    && forall n :: n in index ==> exists b, k :: At(list, b, k) && list[b][k] == Item(index[n], n.key, n.hash)
  }

  ghost predicate ItemOk(list: seq<seq<Item>>, index: map<Name, Id>, b: int, k: int)
    requires At(list, b, k)
  {
    var i := list[b][k];
    && Bucket(i.hash, |list|) == b && NameOf(i) in index && index[NameOf(i)] == i.id
    && forall l :: 0 <= l < |list[b]| && l != k ==> NameOf(list[b][l]) != NameOf(i)
  }

  /** The number of items in all chains. */
  function Count(list: seq<seq<Item>>): (n: nat) {
    if list == [] then 0 else Count(list[..|list| - 1]) + |list[|list| - 1]|
  }

  lemma {:induction false} CountUpdate(list: seq<seq<Item>>, b: nat, chain: seq<Item>)
    requires b < |list|
    ensures Count(list[b := chain]) == Count(list) - |list[b]| + |chain|
  {
    var n := |list| - 1;
    if b < n {
      CountUpdate(list[..n], b, chain);
      assert list[b := chain][..n] == list[..n][b := chain];
    } else {
      assert list[b := chain][..n] == list[..n];
    }
  }

  /** `list` with an item put into its chain before position `p`. */
  function Put(list: seq<seq<Item>>, item: Item, p: nat): (r: seq<seq<Item>>)
    requires |list| > 0 && p <= |list[Bucket(item.hash, |list|)]|
    ensures |r| == |list|
  {
    var b := Bucket(item.hash, |list|);
    list[b := list[b][..p] + [item] + list[b][p..]]
  }

  /** Where an item of the grown chain was before. */
  function Earlier(k: int, p: nat): int {
    if k < p then k else k - 1
  }

  lemma PutStands(list: seq<seq<Item>>, index: map<Name, Id>, item: Item, p: nat)
    requires Stands(list, index) && NameOf(item) !in index && p <= |list[Bucket(item.hash, |list|)]|
    ensures Stands(Put(list, item, p), index[NameOf(item) := item.id])
  {
    var b := Bucket(item.hash, |list|);
    var list', index' := Put(list, item, p), index[NameOf(item) := item.id];
    forall c, k | At(list', c, k) ensures ItemOk(list', index', c, k) {
      PutItem(list, index, item, p, c, k);
    }
    forall n | n in index' ensures exists c, k :: At(list', c, k) && list'[c][k] == Item(index'[n], n.key, n.hash) {
      if n == NameOf(item) {
        assert At(list', b, p) && list'[b][p] == item;
      } else {
        var c, k :| At(list, c, k) && list[c][k] == Item(index[n], n.key, n.hash);
        var k' := if c == b && k >= p then k + 1 else k;
        assert At(list', c, k') && list'[c][k'] == list[c][k];
      }
    }
  }

  lemma PutItem(list: seq<seq<Item>>, index: map<Name, Id>, item: Item, p: nat, c: int, k: int)
    requires Stands(list, index) && NameOf(item) !in index && p <= |list[Bucket(item.hash, |list|)]|
    requires At(Put(list, item, p), c, k)
    ensures ItemOk(Put(list, item, p), index[NameOf(item) := item.id], c, k)
  {
    var b := Bucket(item.hash, |list|);
    var list' := Put(list, item, p);
    if c != b {
      assert ItemOk(list, index, c, k);
    } else {
      forall l | 0 <= l < |list'[b]| && l != p
        ensures list'[b][l] == list[b][Earlier(l, p)] && NameOf(list'[b][l]) != NameOf(item)
      {
        assert ItemOk(list, index, b, Earlier(l, p));
      }
      if k != p {
        assert ItemOk(list, index, b, Earlier(k, p));
      }
    }
  }

  /** An item replaced by one of the same name. */
  lemma ReplaceStands(list: seq<seq<Item>>, index: map<Name, Id>, b: nat, k: nat, item: Item)
    requires Stands(list, index) && At(list, b, k) && NameOf(item) == NameOf(list[b][k])
    ensures Stands(list[b := list[b][k := item]], index[NameOf(item) := item.id])
  {
    var list', index' := list[b := list[b][k := item]], index[NameOf(item) := item.id];
    assert ItemOk(list, index, b, k);
    forall c, l | At(list', c, l) ensures ItemOk(list', index', c, l) {
      assert ItemOk(list, index, c, l);
      SameNameSamePlace(list, index, b, k, c, l);
    }
    forall n | n in index' ensures exists c, l :: At(list', c, l) && list'[c][l] == Item(index'[n], n.key, n.hash) {
      if n == NameOf(item) {
        assert At(list', b, k) && list'[b][k] == item;
      } else {
        var c, l :| At(list, c, l) && list[c][l] == Item(index[n], n.key, n.hash);
        assert At(list', c, l) && list'[c][l] == list[c][l];
      }
    }
  }

  lemma SameNameSamePlace(list: seq<seq<Item>>, index: map<Name, Id>, b: int, k: int, c: int, l: int)
    requires Stands(list, index) && At(list, b, k) && At(list, c, l)
    ensures NameOf(list[b][k]) == NameOf(list[c][l]) ==> b == c && k == l
  {
    assert ItemOk(list, index, b, k) && ItemOk(list, index, c, l);
  }

  lemma AbsentFromChain(list: seq<seq<Item>>, index: map<Name, Id>, n: Name)
    requires Stands(list, index)
    requires var b := Bucket(n.hash, |list|); forall l :: 0 <= l < |list[b]| ==> NameOf(list[b][l]) != n
    ensures n !in index
  {
    forall c, l | At(list, c, l) ensures NameOf(list[c][l]) != n {
      assert ItemOk(list, index, c, l);
    }
  }

  /** A chain without one of its items. */
  function Cut(chain: seq<Item>, k: nat): (r: seq<Item>)
    requires k < |chain|
    ensures |r| == |chain| - 1
    ensures forall l :: 0 <= l < |r| ==> r[l] == chain[if l < k then l else l + 1]
  {
    chain[..k] + chain[k + 1..]
  }

  lemma CutStands(list: seq<seq<Item>>, index: map<Name, Id>, b: nat, k: nat)
    requires Stands(list, index) && At(list, b, k)
    ensures Stands(list[b := Cut(list[b], k)], index - {NameOf(list[b][k])})
  {
    var list', index' := list[b := Cut(list[b], k)], index - {NameOf(list[b][k])};
    forall c, l | At(list', c, l) ensures ItemOk(list', index', c, l) {
      var l0 := if c == b && l >= k then l + 1 else l;
      assert ItemOk(list, index, c, l0);
      SameNameSamePlace(list, index, b, k, c, l0);
    }
    forall n | n in index' ensures exists c, l :: At(list', c, l) && list'[c][l] == Item(index'[n], n.key, n.hash) {
      var c, l :| At(list, c, l) && list[c][l] == Item(index[n], n.key, n.hash);
      var l' := if c == b && l > k then l - 1 else l;
      assert At(list', c, l') && list'[c][l'] == list[c][l];
    }
  }

  class HandleTable {
    var list: seq<seq<Item>>
    var elems: nat
    ghost var index: map<Name, Id>

    ghost predicate Counted()
      reads this
    {
      Stands(list, index) && elems == Count(list)
    }

    /** The chains stand for `index`, and there are at least as many chains as items. */
    ghost predicate Valid()
      reads this
    {
      Counted() && elems <= |list|
    }

    constructor ()
      ensures Valid() && index == map[]
    {
      list, elems, index := Empty(4), 0, map[];
      CountEmpty(4);
    }

    /** The place of the item with a name, or the end of its chain. */
    method FindPointer(key: Key, hash: Word) returns (b: nat, k: nat)
      requires Valid()
      ensures b < |list| && k <= |list[b]| && b == Bucket(hash, |list|)
      ensures k < |list[b]| <==> Name(key, hash) in index
      ensures k < |list[b]| ==> list[b][k] == Item(index[Name(key, hash)], key, hash)
    {
      b, k := Bucket(hash, |list|), 0;
      while k < |list[b]| && (list[b][k].hash != hash || key != list[b][k].key)
        invariant k <= |list[b]| && forall l :: 0 <= l < k ==> NameOf(list[b][l]) != Name(key, hash)
      {
        k := k + 1;
      }
      if k < |list[b]| {
        assert At(list, b, k) && ItemOk(list, index, b, k);
      } else {
        AbsentFromChain(list, index, Name(key, hash));
      }
    }

    method Lookup(key: Key, hash: Word) returns (r: Option<Id>)
      requires Valid()
      ensures r == if Name(key, hash) in index then Some(index[Name(key, hash)]) else None
    {
      var b, k := FindPointer(key, hash);
      r := if k < |list[b]| then Some(list[b][k].id) else None;
    }

    /** Add a handle under its name; one that had the name before is returned. */
    method Insert(item: Item) returns (old_: Option<Id>)
      requires Valid()
      modifies this
      ensures Valid() && index == old(index)[NameOf(item) := item.id]
      ensures old_ == if NameOf(item) in old(index) then Some(old(index)[NameOf(item)]) else None
    {
      hide Stands, Count;
      var b, k := FindPointer(item.key, item.hash);
      if k < |list[b]| {
        old_ := Some(list[b][k].id);
        ReplaceStands(list, index, b, k, item);
        CountUpdate(list, b, list[b][k := item]);
        list := list[b := list[b][k := item]];
        index := index[NameOf(item) := item.id];
      } else {
        old_ := None;
        PutStands(list, index, item, k);
        assert list[b][..k] + [item] + list[b][k..] == list[b] + [item];
        CountUpdate(list, b, list[b] + [item]);
        list := list[b := list[b] + [item]];
        index := index[NameOf(item) := item.id];
        elems := elems + 1;
        if elems > |list| {
          Resize();
        }
      }
    }

    method Remove(key: Key, hash: Word) returns (r: Option<Id>)
      requires Valid()
      modifies this
      ensures Valid() && index == old(index) - {Name(key, hash)}
      ensures r == if Name(key, hash) in old(index) then Some(old(index)[Name(key, hash)]) else None
    {
      hide Stands, Count;
      var b, k := FindPointer(key, hash);
      if k < |list[b]| {
        r := Some(list[b][k].id);
        CutStands(list, index, b, k);
        CountUpdate(list, b, Cut(list[b], k));
        list := list[b := Cut(list[b], k)];
        index := index - {Name(key, hash)};
        elems := elems - 1;
      } else {
        r := None;
        assert index - {Name(key, hash)} == index;
      }
    }

    /** Spread the items over at least as many buckets as there are items. */
    method Resize()
      requires Counted()
      modifies this
      ensures Valid() && index == old(index) && elems == old(elems)
    {
      var length := 4;
      while length < elems
        invariant length >= 4
        decreases elems - length
      {
        length := length * 2;
      }
      list := Rehash(list, length, index);
    }
  }

  function Empty(n: nat): (r: seq<seq<Item>>)
    ensures |r| == n && forall b :: 0 <= b < n ==> r[b] == []
  {
    seq(n, _ => [])
  }

  lemma {:induction false} CountEmpty(n: nat)
    ensures Count(Empty(n)) == 0
  {
    if n > 0 {
      CountEmpty(n - 1);
      assert Empty(n)[..n - 1] == Empty(n - 1);
    }
  }

  /** The items before place (`i`, `j`), chain by chain. */
  ghost predicate Visited(i: nat, j: nat, b: int, k: int) {
    b < i || (b == i && k < j)
  }

  /** `moved` holds exactly the items visited so far. */
  ghost predicate HasMoved(list: seq<seq<Item>>, i: nat, j: nat, moved: map<Name, Id>) {
    && (forall b, k :: At(list, b, k) && Visited(i, j, b, k) ==>
      NameOf(list[b][k]) in moved && moved[NameOf(list[b][k])] == list[b][k].id)
    && forall n :: n in moved ==> exists b, k :: At(list, b, k) && Visited(i, j, b, k) && NameOf(list[b][k]) == n
  }

  /** Move all items into `length` new chains. */
  method Rehash(list: seq<seq<Item>>, length: nat, ghost index: map<Name, Id>) returns (r: seq<seq<Item>>)
    requires length > 0 && Stands(list, index)
    ensures |r| == length && Stands(r, index) && Count(r) == Count(list)
  {
    hide Stands, Count, HasMoved;
    r := Empty(length);
    ghost var moved: map<Name, Id> := map[];
    StartMoving(list, length);
    for i := 0 to |list|
      invariant |r| == length && Stands(r, moved) && HasMoved(list, i, 0, moved) && Count(r) == Count(list[..i])
    {
      for j := 0 to |list[i]|
        invariant |r| == length && Stands(r, moved) && HasMoved(list, i, j, moved) && Count(r) == Count(list[..i]) + j
      {
        var item := list[i][j];
        MoveOne(list, index, i, j, moved);
        PutStands(r, moved, item, 0);
        PutCount(r, item);
        r := Put(r, item, 0);
        moved := moved[NameOf(item) := item.id];
      }
      NextChain(list, i, moved);
    }
    AllMoved(list, index, moved);
    assert list[..|list|] == list;
  }

  lemma StartMoving(list: seq<seq<Item>>, length: nat)
    requires length > 0
    ensures Stands(Empty(length), map[]) && HasMoved(list, 0, 0, map[]) && Count(Empty(length)) == Count(list[..0]) == 0
  {
    CountEmpty(length);
  }

  lemma MoveOne(list: seq<seq<Item>>, index: map<Name, Id>, i: nat, j: nat, moved: map<Name, Id>)
    requires Stands(list, index) && At(list, i, j) && HasMoved(list, i, j, moved)
    ensures NameOf(list[i][j]) !in moved
    ensures HasMoved(list, i, j + 1, moved[NameOf(list[i][j]) := list[i][j].id])
  {
    forall b, k | At(list, b, k) && Visited(i, j, b, k) ensures NameOf(list[b][k]) != NameOf(list[i][j]) {
      SameNameSamePlace(list, index, b, k, i, j);
    }
    var moved' := moved[NameOf(list[i][j]) := list[i][j].id];
    forall n | n in moved' ensures exists b, k :: At(list, b, k) && Visited(i, j + 1, b, k) && NameOf(list[b][k]) == n {
      if n == NameOf(list[i][j]) {
        assert At(list, i, j) && Visited(i, j + 1, i, j);
      } else {
        var b, k :| At(list, b, k) && Visited(i, j, b, k) && NameOf(list[b][k]) == n;
        assert Visited(i, j + 1, b, k);
      }
    }
  }

  lemma PutCount(list: seq<seq<Item>>, item: Item)
    requires |list| > 0
    ensures Count(Put(list, item, 0)) == Count(list) + 1
  {
    var b := Bucket(item.hash, |list|);
    CountUpdate(list, b, list[b][..0] + [item] + list[b][0..]);
  }

  lemma NextChain(list: seq<seq<Item>>, i: nat, moved: map<Name, Id>)
    requires i < |list| && HasMoved(list, i, |list[i]|, moved)
    ensures HasMoved(list, i + 1, 0, moved) && Count(list[..i + 1]) == Count(list[..i]) + |list[i]|
  {
    assert list[..i + 1][..i] == list[..i];
    forall n | n in moved ensures exists b, k :: At(list, b, k) && Visited(i + 1, 0, b, k) && NameOf(list[b][k]) == n {
      var b, k :| At(list, b, k) && Visited(i, |list[i]|, b, k) && NameOf(list[b][k]) == n;
      assert Visited(i + 1, 0, b, k);
    }
  }

  lemma AllMoved(list: seq<seq<Item>>, index: map<Name, Id>, moved: map<Name, Id>)
    requires Stands(list, index) && HasMoved(list, |list|, 0, moved)
    ensures moved == index
  {
    forall n | n in index ensures n in moved && moved[n] == index[n] {
      var b, k :| At(list, b, k) && list[b][k] == Item(index[n], n.key, n.hash);
      assert Visited(|list|, 0, b, k);
    }
    forall n | n in moved ensures n in index {
      var b, k :| At(list, b, k) && Visited(|list|, 0, b, k) && NameOf(list[b][k]) == n;
      assert ItemOk(list, index, b, k);
    }
  }
}
