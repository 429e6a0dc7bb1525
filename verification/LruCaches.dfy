/**
  One shard of the cache: handles counted by references, kept in two lists and found through a
  hash table; what no client holds is evicted oldest first.
 */
module LruCaches {
  import opened Basics
  import opened HandleTables

  datatype Handle = Handle(name: Name, charge: nat, inCache: bool, refs: nat)

  /** The live handles, the two lists of those in the cache, and the total charge. */
  datatype Shard = Shard(handles: map<Id, Handle>, lru: seq<Id>, inUse: seq<Id>, usage: int)

  // ----- lists of handles -----

  ghost predicate Distinct(ids: seq<Id>) {
    forall i, j :: 0 <= i < j < |ids| ==> ids[i] != ids[j]
  }

  function Without(ids: seq<Id>, id: Id): (r: seq<Id>)
    ensures forall x: Id :: x in r <==> x in ids && x != id
  {
    if ids == [] then [] else if ids[0] == id then Without(ids[1..], id) else [ids[0]] + Without(ids[1..], id)
  }

  lemma {:induction false} WithoutDistinct(ids: seq<Id>, id: Id)
    requires Distinct(ids)
    ensures Distinct(Without(ids, id))
    ensures id !in ids ==> Without(ids, id) == ids
  {
    if ids != [] {
      TailDistinct(ids);
      WithoutDistinct(ids[1..], id);
      if ids[0] != id {
        PrependDistinct(Without(ids[1..], id), ids[0]);
        assert id !in ids ==> id !in ids[1..];
      }
    }
  }

  lemma TailDistinct(ids: seq<Id>)
    requires Distinct(ids) && ids != []
    ensures Distinct(ids[1..]) && ids[0] !in ids[1..]
  {
    assert forall i :: 0 <= i < |ids| - 1 ==> ids[1..][i] == ids[i + 1];
  }

  lemma PrependDistinct(ids: seq<Id>, id: Id)
    requires Distinct(ids) && id !in ids
    ensures Distinct([id] + ids)
  {
  }

  lemma AppendDistinct(ids: seq<Id>, id: Id)
    requires Distinct(ids) && id !in ids
    ensures Distinct(ids + [id])
  {
  }

  function ChargeOf(handles: map<Id, Handle>, id: Id): nat {
    if id in handles then handles[id].charge else 0
  }

  function Charges(handles: map<Id, Handle>, ids: seq<Id>): (n: nat) {
    if ids == [] then 0 else ChargeOf(handles, ids[0]) + Charges(handles, ids[1..])
  }

  lemma {:induction false} ChargesWithout(handles: map<Id, Handle>, ids: seq<Id>, id: Id)
    requires Distinct(ids) && id in ids
    ensures Charges(handles, Without(ids, id)) == Charges(handles, ids) - ChargeOf(handles, id)
  {
    TailDistinct(ids);
    if ids[0] == id {
      WithoutDistinct(ids[1..], id);
    } else {
      ChargesWithout(handles, ids[1..], id);
      assert Without(ids, id)[1..] == Without(ids[1..], id);
    }
  }

  lemma {:induction false} ChargesAppend(handles: map<Id, Handle>, ids: seq<Id>, id: Id)
    ensures Charges(handles, ids + [id]) == Charges(handles, ids) + ChargeOf(handles, id)
  {
    if ids != [] {
      ChargesAppend(handles, ids[1..], id);
      assert (ids + [id])[1..] == ids[1..] + [id];
    }
  }

  lemma {:induction false} SameCharges(handles: map<Id, Handle>, handles': map<Id, Handle>, ids: seq<Id>)
    requires forall id :: id in ids ==> ChargeOf(handles', id) == ChargeOf(handles, id)
    ensures Charges(handles', ids) == Charges(handles, ids)
  {
    if ids != [] {
      SameCharges(handles, handles', ids[1..]);
    }
  }

  // ----- what always holds -----

  /** Handles in the cache are in one list: `lru` if only the cache refers to them, `inUse` otherwise. */
  ghost predicate Listed(s: Shard) {
    && Distinct(s.lru) && Distinct(s.inUse)
    && (forall id: Id :: id in s.lru <==> id in s.handles && s.handles[id].inCache && s.handles[id].refs == 1)
    && forall id: Id :: id in s.inUse <==> id in s.handles && s.handles[id].inCache && s.handles[id].refs >= 2
  }

  ghost predicate Charged(s: Shard) {
    s.usage == Charges(s.handles, s.lru) + Charges(s.handles, s.inUse)
  }

  /** References are those of clients and that of the cache, apart from one that is about to be dropped. */
  ghost predicate Counted(s: Shard, clients: multiset<Id>, dropping: Option<Id>) {
    && (forall id :: id in s.handles ==> s.handles[id].refs > 0)
    && (forall id :: id in s.handles ==>
          s.handles[id].refs ==
          clients[id] + (if s.handles[id].inCache then 1 else 0) + (if dropping == Some(id) then 1 else 0))
    && forall id :: id in clients ==> id in s.handles
  }

  /** The table finds exactly the handles in the cache, apart from one that has just been taken out of it. */
  ghost predicate Indexed(s: Shard, index: map<Name, Id>, leaving: Option<Id>) {
    && (forall n :: n in index ==>
          && index[n] in s.handles && s.handles[index[n]].inCache && s.handles[index[n]].name == n
          && leaving != Some(index[n]))
    && forall id :: id in s.handles && s.handles[id].inCache && leaving != Some(id) ==>
         s.handles[id].name in index && index[s.handles[id].name] == id
  }

  // ----- counting references -----

  function SetHandle(s: Shard, id: Id, h: Handle): Shard {
    s.(handles := s.handles[id := h])
  }

  function Gained(s: Shard, id: Id): (r: Shard)
    requires id in s.handles
  {
    var h := s.handles[id];
    var moved := if h.refs == 1 && h.inCache then s.(lru := Without(s.lru, id), inUse := s.inUse + [id]) else s;
    SetHandle(moved, id, h.(refs := h.refs + 1))
  }

  /** Drop a reference: the last one frees the handle, the last but one in the cache makes it evictable. */
  function Dropped(s: Shard, id: Id): (r: Shard)
    requires id in s.handles && s.handles[id].refs > 0
  {
    var h := s.handles[id];
    if h.refs == 1 then s.(handles := s.handles - {id})
    else
      var moved := if h.inCache && h.refs == 2 then s.(lru := s.lru + [id], inUse := Without(s.inUse, id)) else s;
      SetHandle(moved, id, h.(refs := h.refs - 1))
  }

  /** Take a handle out of its list and its charge off the total. */
  function Detached(s: Shard, id: Id): (r: Shard)
    requires id in s.handles
  {
    SetHandle(s.(lru := Without(s.lru, id), inUse := Without(s.inUse, id), usage := s.usage - s.handles[id].charge),
              id, s.handles[id].(inCache := false))
  }

  lemma RefKeeps(s: Shard, id: Id)
    requires Listed(s) && Charged(s) && id in s.handles && s.handles[id].refs > 0
    ensures Listed(Gained(s, id)) && Charged(Gained(s, id))
  {
    var r := Gained(s, id);
    WithoutDistinct(s.lru, id);
    SameCharges(s.handles, r.handles, s.lru);
    SameCharges(s.handles, r.handles, s.inUse);
    if s.handles[id].refs == 1 && s.handles[id].inCache {
      AppendDistinct(s.inUse, id);
      ChargesWithout(r.handles, s.lru, id);
      ChargesAppend(r.handles, s.inUse, id);
    }
  }

  lemma UnrefKeeps(s: Shard, id: Id)
    requires Listed(s) && Charged(s) && id in s.handles && s.handles[id].refs > 0
    requires s.handles[id].refs == 1 ==> !s.handles[id].inCache
    ensures Listed(Dropped(s, id)) && Charged(Dropped(s, id))
  {
    var r := Dropped(s, id);
    WithoutDistinct(s.inUse, id);
    SameCharges(s.handles, r.handles, s.lru);
    SameCharges(s.handles, r.handles, s.inUse);
    if s.handles[id].inCache && s.handles[id].refs == 2 {
      AppendDistinct(s.lru, id);
      ChargesAppend(r.handles, s.lru, id);
      ChargesWithout(r.handles, s.inUse, id);
    }
  }

  lemma DetachKeeps(s: Shard, id: Id)
    requires Listed(s) && Charged(s) && id in s.handles && s.handles[id].inCache && s.handles[id].refs > 0
    ensures Listed(Detached(s, id)) && Charged(Detached(s, id))
  {
    var r := Detached(s, id);
    WithoutDistinct(s.lru, id);
    WithoutDistinct(s.inUse, id);
    SameCharges(s.handles, r.handles, r.lru);
    SameCharges(s.handles, r.handles, r.inUse);
    if id in s.lru {
      ChargesWithout(s.handles, s.lru, id);
    } else {
      ChargesWithout(s.handles, s.inUse, id);
    }
  }

  /** Every handle ever made is live, or its deleter has run, once. */
  ghost predicate Accounted(handles: map<Id, Handle>, deleted: seq<Id>, nextId: Id) {
    && Distinct(deleted)
    && (forall id: Id :: id < nextId <==> id in handles || id in deleted)
    && forall id :: id in handles ==> id !in deleted
  }

  lemma CountedDrop(s: Shard, id: Id, clients: multiset<Id>)
    requires id in s.handles && Counted(s, clients, Some(id))
    ensures s.handles[id].refs > 0 && (s.handles[id].refs == 1 ==> !s.handles[id].inCache)
    ensures Counted(Dropped(s, id), clients, None)
  {
  }

  lemma IndexedDrop(s: Shard, id: Id, index: map<Name, Id>)
    requires id in s.handles && s.handles[id].refs > 0 && (s.handles[id].refs == 1 ==> !s.handles[id].inCache)
    requires Indexed(s, index, None)
    ensures Indexed(Dropped(s, id), index, None)
  {
  }

  /** The deleter of a handle runs exactly when its last reference goes. */
  function Deleters(s: Shard, id: Id, deleted: seq<Id>): seq<Id>
    requires id in s.handles
  {
    if s.handles[id].refs == 1 then deleted + [id] else deleted
  }

  lemma AccountedDrop(s: Shard, id: Id, deleted: seq<Id>, nextId: Id)
    requires id in s.handles && s.handles[id].refs > 0 && Accounted(s.handles, deleted, nextId)
    ensures Accounted(Dropped(s, id).handles, Deleters(s, id, deleted), nextId)
  {
    if s.handles[id].refs == 1 {
      AppendDistinct(deleted, id);
    }
  }

  /** Everything that holds of a shard between calls; `leaving` is out of the table but not yet erased. */
  ghost predicate Ok(s: Shard, clients: multiset<Id>, index: map<Name, Id>, leaving: Option<Id>, deleted: seq<Id>,
      nextId: Id) {
    && Listed(s) && Charged(s) && Counted(s, clients, None) && Indexed(s, index, leaving)
    && Accounted(s.handles, deleted, nextId)
  }

  lemma GainedOk(s: Shard, id: Id, clients: multiset<Id>, index: map<Name, Id>, deleted: seq<Id>, nextId: Id)
    requires Ok(s, clients, index, None, deleted, nextId) && id in s.handles
    ensures Ok(Gained(s, id), clients + multiset{id}, index, None, deleted, nextId)
  {
    hide Listed, Charged, Counted, Indexed, Accounted;
    GainedFacts(s, id, clients, index, deleted, nextId);
    RefKeeps(s, id);
  }

  lemma GainedFacts(s: Shard, id: Id, clients: multiset<Id>, index: map<Name, Id>, deleted: seq<Id>, nextId: Id)
    requires Counted(s, clients, None) && Indexed(s, index, None) && Accounted(s.handles, deleted, nextId)
    requires id in s.handles
    ensures s.handles[id].refs > 0 && Counted(Gained(s, id), clients + multiset{id}, None)
    ensures Indexed(Gained(s, id), index, None) && Accounted(Gained(s, id).handles, deleted, nextId)
  {
    hide Counted, Indexed;
    GainedCounted(s, id, clients);
    GainedIndexed(s, id, index);
  }

  lemma GainedCounted(s: Shard, id: Id, clients: multiset<Id>)
    requires Counted(s, clients, None) && id in s.handles
    ensures s.handles[id].refs > 0 && Counted(Gained(s, id), clients + multiset{id}, None)
  {
  }

  lemma GainedIndexed(s: Shard, id: Id, index: map<Name, Id>)
    requires Indexed(s, index, None) && id in s.handles
    ensures Indexed(Gained(s, id), index, None)
  {
  }

  lemma ReleasedOk(s: Shard, id: Id, clients: multiset<Id>, index: map<Name, Id>, deleted: seq<Id>, nextId: Id)
    requires Ok(s, clients, index, None, deleted, nextId) && id in clients
    ensures id in s.handles && s.handles[id].refs > 0
    ensures Ok(Dropped(s, id), clients - multiset{id}, index, None, Deleters(s, id, deleted), nextId)
  {
    assert Counted(s, clients - multiset{id}, Some(id));
    hide Counted, Listed, Charged, Indexed, Accounted;
    CountedDrop(s, id, clients - multiset{id});
    IndexedDrop(s, id, index);
    AccountedDrop(s, id, deleted, nextId);
    UnrefKeeps(s, id);
  }

  lemma DetachedFacts(s: Shard, id: Id, clients: multiset<Id>, index: map<Name, Id>)
    requires id in s.handles && s.handles[id].inCache && Counted(s, clients, None) && Indexed(s, index, Some(id))
    ensures Counted(Detached(s, id), clients, Some(id)) && Indexed(Detached(s, id), index, None)
  {
  }

  /** Out of the table, out of the lists, and the reference of the cache dropped. */
  function Erased(s: Shard, id: Id): (r: Shard)
    requires id in s.handles && s.handles[id].refs > 0
  {
    Dropped(Detached(s, id), id)
  }

  lemma ErasedOk(s: Shard, id: Id, clients: multiset<Id>, index: map<Name, Id>, deleted: seq<Id>, nextId: Id)
    requires id in s.handles && s.handles[id].inCache && Ok(s, clients, index, Some(id), deleted, nextId)
    ensures s.handles[id].refs > 0
    ensures Ok(Erased(s, id), clients, index, None, Deleters(s, id, deleted), nextId)
  {
    assert s.handles[id].refs > 0;
    var d := Detached(s, id);
    DetachKeeps(s, id);
    DetachedFacts(s, id, clients, index);
    assert Accounted(d.handles, deleted, nextId);
    hide Counted, Listed, Charged, Indexed, Accounted;
    CountedDrop(d, id, clients);
    IndexedDrop(d, id, index);
    AccountedDrop(d, id, deleted, nextId);
    UnrefKeeps(d, id);
  }

  lemma InTable(s: Shard, clients: multiset<Id>, index: map<Name, Id>, deleted: seq<Id>, nextId: Id, n: Name)
    requires Ok(s, clients, index, None, deleted, nextId) && n in index
    ensures index[n] in s.handles && s.handles[index[n]].inCache && s.handles[index[n]].name == n
    ensures s.handles[index[n]].refs > 0
  {
  }

  /** A new handle that both its client and the cache refer to. */
  function Cached(s: Shard, id: Id, name: Name, charge: nat): (r: Shard) {
    s.(handles := s.handles[id := Handle(name, charge, true, 2)], inUse := s.inUse + [id], usage := s.usage + charge)
  }

  function AtName(index: map<Name, Id>, n: Name): Option<Id> {
    if n in index then Some(index[n]) else None
  }

  lemma CachedLists(s: Shard, id: Id, name: Name, charge: nat)
    requires Listed(s) && Charged(s) && id !in s.handles
    ensures Listed(Cached(s, id, name, charge)) && Charged(Cached(s, id, name, charge))
  {
    var r := Cached(s, id, name, charge);
    AppendDistinct(s.inUse, id);
    SameCharges(s.handles, r.handles, s.lru);
    SameCharges(s.handles, r.handles, s.inUse);
    ChargesAppend(r.handles, s.inUse, id);
  }

  lemma CachedFacts(s: Shard, id: Id, name: Name, charge: nat, clients: multiset<Id>, index: map<Name, Id>,
      deleted: seq<Id>)
    requires Counted(s, clients, None) && Indexed(s, index, None) && Accounted(s.handles, deleted, id)
    ensures id !in s.handles && Counted(Cached(s, id, name, charge), clients + multiset{id}, None)
    ensures Indexed(Cached(s, id, name, charge), index[name := id], AtName(index, name))
    ensures Accounted(Cached(s, id, name, charge).handles, deleted, id + 1)
  {
    hide Counted, Indexed, Accounted;
    NewId(s.handles, deleted, id);
    CachedCounted(s, id, name, charge, clients);
    CachedIndex(s, id, name, charge, index);
    OneMoreId(s.handles, deleted, id, Handle(name, charge, true, 2));
  }

  lemma CachedCounted(s: Shard, id: Id, name: Name, charge: nat, clients: multiset<Id>)
    requires Counted(s, clients, None) && id !in s.handles
    ensures Counted(Cached(s, id, name, charge), clients + multiset{id}, None)
  {
    assert id !in clients;
  }

  lemma CachedIndex(s: Shard, id: Id, name: Name, charge: nat, index: map<Name, Id>)
    requires Indexed(s, index, None) && id !in s.handles
    ensures Indexed(Cached(s, id, name, charge), index[name := id], AtName(index, name))
  {
  }

  lemma CachedOk(s: Shard, id: Id, name: Name, charge: nat, clients: multiset<Id>, index: map<Name, Id>,
      deleted: seq<Id>)
    requires Ok(s, clients, index, None, deleted, id)
    ensures Ok(Cached(s, id, name, charge), clients + multiset{id}, index[name := id], AtName(index, name), deleted,
        id + 1)
    ensures name in index ==>
      index[name] in s.handles && index[name] != id && s.handles[index[name]].inCache && s.handles[index[name]].refs > 0
  {
    CachedFacts(s, id, name, charge, clients, index, deleted);
    if name in index {
      InTable(s, clients, index, deleted, id, name);
    }
    hide Listed, Charged, Counted, Indexed, Accounted;
    CachedLists(s, id, name, charge);
  }

  /** A handle that the cache does not keep, because it has no capacity. */
  function Loose(s: Shard, id: Id, name: Name, charge: nat): (r: Shard) {
    s.(handles := s.handles[id := Handle(name, charge, false, 1)])
  }

  lemma LooseLists(s: Shard, id: Id, name: Name, charge: nat)
    requires Listed(s) && Charged(s) && id !in s.handles
    ensures Listed(Loose(s, id, name, charge)) && Charged(Loose(s, id, name, charge))
  {
    var r := Loose(s, id, name, charge);
    SameCharges(s.handles, r.handles, s.lru);
    SameCharges(s.handles, r.handles, s.inUse);
    hide Distinct, Charges;
  }

  lemma LooseFacts(s: Shard, id: Id, name: Name, charge: nat, clients: multiset<Id>, index: map<Name, Id>,
      deleted: seq<Id>)
    requires Counted(s, clients, None) && Indexed(s, index, None) && Accounted(s.handles, deleted, id)
    ensures id !in s.handles && Counted(Loose(s, id, name, charge), clients + multiset{id}, None)
    ensures Indexed(Loose(s, id, name, charge), index, None)
    ensures Accounted(Loose(s, id, name, charge).handles, deleted, id + 1)
  {
    hide Counted, Indexed, Accounted;
    NewId(s.handles, deleted, id);
    LooseCounted(s, id, name, charge, clients);
    LooseIndexed(s, id, name, charge, index);
    OneMoreId(s.handles, deleted, id, Handle(name, charge, false, 1));
  }

  lemma LooseCounted(s: Shard, id: Id, name: Name, charge: nat, clients: multiset<Id>)
    requires Counted(s, clients, None) && id !in s.handles
    ensures Counted(Loose(s, id, name, charge), clients + multiset{id}, None)
  {
    assert id !in clients;
  }

  lemma LooseIndexed(s: Shard, id: Id, name: Name, charge: nat, index: map<Name, Id>)
    requires Indexed(s, index, None) && id !in s.handles
    ensures Indexed(Loose(s, id, name, charge), index, None)
  {
  }

  lemma NewId(handles: map<Id, Handle>, deleted: seq<Id>, id: Id)
    requires Accounted(handles, deleted, id)
    ensures id !in handles
  {
  }

  lemma OneMoreId(handles: map<Id, Handle>, deleted: seq<Id>, id: Id, h: Handle)
    requires Accounted(handles, deleted, id)
    ensures Accounted(handles[id := h], deleted, id + 1)
  {
    hide Distinct;
  }

  lemma LooseOk(s: Shard, id: Id, name: Name, charge: nat, clients: multiset<Id>, index: map<Name, Id>,
      deleted: seq<Id>)
    requires Ok(s, clients, index, None, deleted, id)
    ensures Ok(Loose(s, id, name, charge), clients + multiset{id}, index, None, deleted, id + 1)
  {
    hide Listed, Charged, Counted, Indexed, Accounted;
    LooseFacts(s, id, name, charge, clients, index, deleted);
    LooseLists(s, id, name, charge);
  }

  lemma RemovedOk(s: Shard, n: Name, clients: multiset<Id>, index: map<Name, Id>, deleted: seq<Id>, nextId: Id)
    requires Ok(s, clients, index, None, deleted, nextId) && n in index
    ensures Ok(s, clients, index - {n}, Some(index[n]), deleted, nextId)
    ensures index[n] in s.handles && s.handles[index[n]].inCache && s.handles[index[n]].refs > 0
  {
    InTable(s, clients, index, deleted, nextId, n);
    hide Listed, Charged, Accounted;
  }

  /** The oldest handle that no client holds: the table finds it, and erasing it frees it. */
  lemma OldestFacts(s: Shard, clients: multiset<Id>, index: map<Name, Id>, deleted: seq<Id>, nextId: Id)
    requires Ok(s, clients, index, None, deleted, nextId) && s.lru != []
    ensures var id := s.lru[0];
      && id in s.handles && s.handles[id].refs == 1 && s.handles[id].name in index && index[s.handles[id].name] == id
      && Erased(s, id).lru == s.lru[1..] && Erased(s, id).inUse == s.inUse
      && id !in s.inUse
  {
    var id := s.lru[0];
    assert id in s.lru;
    hide Charged, Counted, Accounted;
    TailDistinct(s.lru);
    WithoutDistinct(s.lru[1..], id);
    WithoutDistinct(s.inUse, id);
  }

  class LRUCache {
    var capacity: nat
    var handles: map<Id, Handle>
    var lru: seq<Id>
    var inUse: seq<Id>
    var usage: int
    const table: HandleTable
    var nextId: Id
    var deleted: seq<Id>
    ghost var clients: multiset<Id>

    ghost function Now(): Shard
      reads this
    {
      Shard(handles, lru, inUse, usage)
    }

    ghost predicate Valid()
      reads this, table
    {
      table.Valid() && Ok(Now(), clients, table.index, None, deleted, nextId)
    }

    constructor (capacity: nat)
      ensures Valid() && fresh(table) && this.capacity == capacity && table.index == map[] && clients == multiset{}
      ensures deleted == []
    {
      this.capacity := capacity;
      handles, lru, inUse, usage := map[], [], [], 0;
      table := new HandleTable();
      nextId, deleted, clients := 0, [], multiset{};
    }

    /** Drop a reference to a handle; the last one runs its deleter. */
    method Unref(id: Id)
      requires id in handles && handles[id].refs > 0
      modifies this`handles, this`lru, this`inUse, this`deleted
      ensures Now() == Dropped(old(Now()), id)
      ensures deleted == if old(handles)[id].refs == 1 then old(deleted) + [id] else old(deleted)
    {
      var h := handles[id].(refs := handles[id].refs - 1);
      handles := handles[id := h];
      if h.refs == 0 {
        deleted := deleted + [id];
        handles := handles - {id};
      } else if h.inCache && h.refs == 1 {
        inUse := Without(inUse, id);
        lru := lru + [id];
      }
    }

    method Ref(id: Id)
      requires id in handles
      modifies this`handles, this`lru, this`inUse
      ensures Now() == Gained(old(Now()), id)
    {
      var h := handles[id];
      if h.refs == 1 && h.inCache {
        lru := Without(lru, id);
        inUse := inUse + [id];
      }
      handles := handles[id := h.(refs := h.refs + 1)];
    }

    method Lookup(key: Key, hash: Word) returns (r: Option<Id>)
      requires Valid()
      modifies this
      ensures Valid() && table.index == old(table.index) && deleted == old(deleted)
      ensures r == if Name(key, hash) in table.index then Some(table.index[Name(key, hash)]) else None
      ensures clients == if r.Some? then old(clients) + multiset{r.value} else old(clients)
      ensures r.Some? ==> r.value in old(handles) && Now() == Gained(old(Now()), r.value)
      ensures r.None? ==> Now() == old(Now())
    {
      hide Ok, table.Valid;
      r := table.Lookup(key, hash);
      if r.Some? {
        InTable(Now(), clients, table.index, deleted, nextId, Name(key, hash));
        GainedOk(Now(), r.value, clients, table.index, deleted, nextId);
        Ref(r.value);
        clients := clients + multiset{r.value};
      }
    }

    /** A client gives back a handle. */
    method Release(id: Id)
      requires Valid() && id in clients
      modifies this
      ensures Valid() && table.index == old(table.index) && clients == old(clients) - multiset{id}
      ensures id in old(handles) && old(handles)[id].refs > 0 && Now() == Dropped(old(Now()), id)
      ensures deleted == if old(handles)[id].refs == 1 then old(deleted) + [id] else old(deleted)
    {
      hide Ok, table.Valid;
      ReleasedOk(Now(), id, clients, table.index, deleted, nextId);
      clients := clients - multiset{id};
      Unref(id);
    }

    /** Finish removing from the cache a handle that has been taken out of the table. */
    method FinishErase(e: Option<Id>) returns (erased: bool)
      requires table.Valid() && Ok(Now(), clients, table.index, e, deleted, nextId)
      requires e.Some? ==> e.value in handles && handles[e.value].inCache && handles[e.value].refs > 0
      modifies this`handles, this`lru, this`inUse, this`usage, this`deleted
      ensures Valid() && erased == e.Some?
      ensures e.None? ==> Now() == old(Now()) && deleted == old(deleted)
      ensures e.Some? ==> Now() == Erased(old(Now()), e.value) && deleted == Deleters(old(Now()), e.value, old(deleted))
    {
      hide Ok, table.Valid;
      if e.Some? {
        var id := e.value;
        ErasedOk(Now(), id, clients, table.index, deleted, nextId);
        lru, inUse := Without(lru, id), Without(inUse, id);
        usage := usage - handles[id].charge;
        handles := handles[id := handles[id].(inCache := false)];
        Unref(id);
      }
      return e.Some?;
    }

    /** Erase the oldest handle that no client holds. */
    method EvictOldest()
      requires Valid() && lru != []
      modifies this`handles, this`lru, this`inUse, this`usage, this`deleted, table
      ensures Valid() && lru == old(lru)[1..] && inUse == old(inUse) && deleted == old(deleted) + [old(lru)[0]]
      ensures forall n :: n in old(table.index) && old(table.index)[n] != old(lru)[0] ==>
        n in table.index && table.index[n] == old(table.index)[n]
      ensures forall n :: n in table.index ==>
        n in old(table.index) && table.index[n] == old(table.index)[n] && table.index[n] != old(lru)[0]
    {
      hide Ok, table.Valid, Erased;
      var oldest := lru[0];
      OldestFacts(Now(), clients, table.index, deleted, nextId);
      var h := handles[oldest];
      RemovedOk(Now(), h.name, clients, table.index, deleted, nextId);
      OnlyName(Now(), clients, table.index, deleted, nextId, h.name);
      var e := table.Remove(h.name.key, h.name.hash);
      assert Name(h.name.key, h.name.hash) == h.name;
      var _ := FinishErase(e);
    }

    /**
      Add an entry and hand it to the client.  An entry of the same name leaves the cache; then
      entries that no client holds are evicted, the oldest first, until the charge fits.
     */
    method Insert(key: Key, hash: Word, charge: nat)
      returns (id: Id, ghost gone: seq<Id>, ghost base: seq<Id>, ghost evicted: nat)
      requires Valid()
      modifies this, table
      ensures Valid() && id == old(nextId) && nextId == id + 1 && clients == old(clients) + multiset{id}
      ensures capacity == old(capacity)
      ensures capacity > 0 ==> Name(key, hash) in table.index && table.index[Name(key, hash)] == id
      ensures usage <= capacity || lru == []
      ensures base ==
        if capacity > 0 && Name(key, hash) in old(table.index) then Without(old(lru), old(table.index)[Name(key, hash)])
        else old(lru)
      ensures evicted <= |base| && lru == base[evicted..]
      ensures deleted == old(deleted) + gone + base[..evicted]
      ensures gone == if capacity > 0 && Name(key, hash) in old(table.index)
        && old(table.index)[Name(key, hash)] in old(lru)
        then [old(table.index)[Name(key, hash)]] else []
    {
      hide Ok, table.Valid;
      gone := [];
      if capacity > 0 {
        id := AddCached(key, hash, charge);
        base := lru;
        gone := deleted[|old(deleted)|..];
        evicted := EvictTo(id, Name(key, hash));
      } else {
        id := AddLoose(key, hash, charge);
        base := lru;
        evicted := EvictTo(id, Name(key, hash));
      }
    }

    method AddCached(key: Key, hash: Word, charge: nat) returns (id: Id)
      requires Valid()
      modifies this`nextId, this`handles, this`lru, this`inUse, this`usage, this`deleted, this`clients, table
      ensures Valid() && id == old(nextId) && nextId == id + 1 && clients == old(clients) + multiset{id}
      ensures table.index == old(table.index)[Name(key, hash) := id] && id in inUse
      ensures lru ==
        if Name(key, hash) in old(table.index) then Without(old(lru), old(table.index)[Name(key, hash)]) else old(lru)
      ensures Name(key, hash) in old(table.index) && old(table.index)[Name(key, hash)] in old(lru) ==>
        deleted == old(deleted) + [old(table.index)[Name(key, hash)]]
      ensures !(Name(key, hash) in old(table.index) && old(table.index)[Name(key, hash)] in old(lru)) ==>
        deleted == old(deleted)
    {
      hide Ok, table.Valid, Erased;
      ghost var name := Name(key, hash);
      id := nextId;
      CachedOk(Now(), id, name, charge, clients, table.index, deleted);
      nextId := nextId + 1;
      handles := handles[id := Handle(Name(key, hash), charge, true, 2)];
      inUse := inUse + [id];
      usage := usage + charge;
      clients := clients + multiset{id};
      ghost var s, index0 := Now(), table.index;
      var before := table.Insert(Item(id, key, hash));
      assert before == AtName(index0, name);
      var _ := FinishErase(before);
      if before.Some? {
        ErasedMeans(s, before.value);
        assert before.value in old(lru) <==> old(handles)[before.value].refs == 1 by {
          InOneList(old(Now()), old(clients), index0, old(deleted), old(nextId), before.value);
        }
      }
    }

    method AddLoose(key: Key, hash: Word, charge: nat) returns (id: Id)
      requires Valid()
      modifies this`nextId, this`handles, this`clients
      ensures Valid() && id == old(nextId) && nextId == id + 1 && clients == old(clients) + multiset{id}
    {
      hide Ok, table.Valid;
      id := nextId;
      LooseOk(Now(), id, Name(key, hash), charge, clients, table.index, deleted);
      nextId := nextId + 1;
      handles := handles[id := Handle(Name(key, hash), charge, false, 1)];
      clients := clients + multiset{id};
    }

    /** Evict until the charge fits or nothing is left to evict; what is in use stays. */
    method EvictTo(ghost id: Id, ghost name: Name) returns (ghost evicted: nat)
      requires Valid()
      modifies this`handles, this`lru, this`inUse, this`usage, this`deleted, table
      ensures Valid() && (usage <= capacity || lru == []) && inUse == old(inUse)
      ensures evicted <= |old(lru)| && lru == old(lru)[evicted..] && deleted == old(deleted) + old(lru)[..evicted]
      ensures old(name in table.index && table.index[name] == id && id in inUse) ==>
        name in table.index && table.index[name] == id
    {
      hide Ok, table.Valid;
      evicted := 0;
      while usage > capacity && lru != []
        invariant Valid() && inUse == old(inUse) && evicted <= |old(lru)| && lru == old(lru)[evicted..]
        invariant deleted == old(deleted) + old(lru)[..evicted]
        invariant old(name in table.index && table.index[name] == id && id in inUse) ==>
          name in table.index && table.index[name] == id
        decreases |lru|
      {
        OldestFacts(Now(), clients, table.index, deleted, nextId);
        assert old(lru)[..evicted + 1] == old(lru)[..evicted] + [lru[0]];
        EvictOldest();
        evicted := evicted + 1;
      }
    }

    /** Remove an entry; clients that hold it keep it. */
    method Erase(key: Key, hash: Word)
      requires Valid()
      modifies this`handles, this`lru, this`inUse, this`usage, this`deleted, table
      ensures Valid() && table.index == old(table.index) - {Name(key, hash)}
      ensures Name(key, hash) !in old(table.index) ==> Now() == old(Now()) && deleted == old(deleted)
      ensures Name(key, hash) in old(table.index) ==>
        var id := old(table.index)[Name(key, hash)];
        && lru == Without(old(lru), id) && inUse == Without(old(inUse), id)
        && id in old(handles) && usage == old(usage) - old(handles)[id].charge
        && (id in old(lru) ==> handles == old(handles) - {id} && deleted == old(deleted) + [id])
        && (id in old(inUse) ==> deleted == old(deleted) && old(handles)[id].refs > 1)
        && (id in old(inUse) ==>
          handles == old(handles)[id := old(handles)[id].(inCache := false, refs := old(handles)[id].refs - 1)])
        && (id in old(lru) || id in old(inUse))
    {
      hide Ok, table.Valid, Erased;
      RemovableAt(Name(key, hash));
      ghost var s, index0 := Now(), table.index;
      var e := table.Remove(key, hash);
      var _ := FinishErase(e);
      if e.Some? {
        ErasedMeans(s, e.value);
        InOneList(s, old(clients), index0, old(deleted), old(nextId), e.value);
      }
    }

    lemma RemovableAt(n: Name)
      requires Valid()
      ensures n in table.index ==> Ok(Now(), clients, table.index - {n}, Some(table.index[n]), deleted, nextId)
      ensures n in table.index ==>
        table.index[n] in handles && handles[table.index[n]].inCache && handles[table.index[n]].refs > 0
      ensures n !in table.index ==> table.index - {n} == table.index
    {
      hide Ok, table.Valid;
      if n in table.index {
        RemovedOk(Now(), n, clients, table.index, deleted, nextId);
      }
    }

    /** Erase everything that no client holds. */
    method Prune()
      requires Valid()
      modifies this`handles, this`lru, this`inUse, this`usage, this`deleted, table
      ensures Valid() && lru == [] && inUse == old(inUse) && deleted == old(deleted) + old(lru)
    {
      hide Ok, table.Valid;
      ghost var evicted := 0;
      while lru != []
        invariant Valid() && inUse == old(inUse) && 0 <= evicted <= |old(lru)| && lru == old(lru)[evicted..]
        invariant deleted == old(deleted) + old(lru)[..evicted]
        decreases |lru|
      {
        assert old(lru)[..evicted + 1] == old(lru)[..evicted] + [lru[0]];
        EvictOldest();
        evicted := evicted + 1;
      }
      assert old(lru)[..evicted] == old(lru);
    }
  }

  /** What erasing leaves of a handle: nothing if only the cache referred to it, the clients' references otherwise. */
  lemma ErasedMeans(s: Shard, id: Id)
    requires id in s.handles && s.handles[id].refs > 0
    ensures Erased(s, id).lru == Without(s.lru, id) && Erased(s, id).inUse == Without(s.inUse, id)
    ensures Erased(s, id).usage == s.usage - s.handles[id].charge
    ensures Erased(s, id).handles ==
      if s.handles[id].refs == 1 then s.handles - {id}
      else s.handles[id := s.handles[id].(inCache := false, refs := s.handles[id].refs - 1)]
  {
    assert s.handles[id := s.handles[id].(inCache := false)] - {id} == s.handles - {id};
  }

  lemma InOneList(s: Shard, clients: multiset<Id>, index: map<Name, Id>, deleted: seq<Id>, nextId: Id, id: Id)
    requires Ok(s, clients, index, None, deleted, nextId) && id in s.handles && s.handles[id].inCache
    ensures (id in s.lru <==> s.handles[id].refs == 1) && (id in s.inUse <==> s.handles[id].refs > 1)
  {
    hide Charged, Accounted, Indexed;
  }

  /** The deleter of a handle has run exactly if neither a client nor the cache refers to it any more. */
  lemma DeletedExactly(s: Shard, clients: multiset<Id>, index: map<Name, Id>, deleted: seq<Id>, nextId: Id, id: Id)
    requires Ok(s, clients, index, None, deleted, nextId) && id < nextId
    ensures id in deleted <==> id !in clients && forall n :: n in index ==> index[n] != id
  {
    hide Listed, Charged, Distinct;
    if id in s.handles && id !in clients {
      assert s.handles[id].inCache;
      assert index[s.handles[id].name] == id;
    }
  }

  lemma OnlyName(s: Shard, clients: multiset<Id>, index: map<Name, Id>, deleted: seq<Id>, nextId: Id, n: Name)
    requires Ok(s, clients, index, None, deleted, nextId) && n in index
    ensures forall m :: m in index && index[m] == index[n] ==> m == n
  {
    hide Listed, Charged, Counted, Accounted;
  }
}
