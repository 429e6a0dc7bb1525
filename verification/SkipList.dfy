/**
  The memtable's skip list under one inserter and any number of lock-free readers.  Each
  load or store of a link is one step, and the steps of all threads interleave freely.
 */
module SkipList {
  import opened Basics

  type Key = real

  const MAX_HEIGHT := 12

  /** A link of a node: not yet written, null, or another node. */
  datatype Link = Uninit | Null | To(node: nat)

  datatype Node = Node(key: Key, next: seq<Link>)

  /**
    Shared memory.  Node 0 is the head.  `lists[i]` records which nodes are linked at level
    `i`, in order; no step looks at it.
   */
  datatype Memory = Memory(nodes: seq<Node>, maxHeight: nat, lists: seq<seq<nat>>)

  /** A search at node `x` of `level`, looking for the place of `bound`; no bound is past all keys. */
  datatype Search = Search(bound: Option<Key>, x: nat, level: nat)

  /** The inserter: idle, looking for the place, or linking the new node at level `i`. */
  datatype Inserter =
    | Idle
    | Finding(key: Key, search: Search, prev: seq<nat>)
    | Linking(key: Key, node: nat, height: nat, prev: seq<nat>, i: nat, copied: bool)

  /**
    A reader: searching, or done with the two neighbours `x` and `next` of its bound.
    `present` records the nodes linked at level 0 when its search began.
   */
  datatype Reader =
    | Reading(search: Search, present: seq<nat>)
    | Finished(bound: Option<Key>, x: nat, next: Link, present: seq<nat>)

  datatype State = State(mem: Memory, inserter: Inserter, readers: map<nat, Reader>)

  function ListOf(m: Memory, i: int): (r: seq<nat>) {
    if 0 <= i < |m.lists| then m.lists[i] else []
  }

  /** Node `n` is linked at level `i`. */
  ghost predicate Linked(m: Memory, i: int, n: nat) {
    n in ListOf(m, i)
  }

  function Load(nodes: seq<Node>, x: nat, level: nat): Link {
    if x < |nodes| && level < |nodes[x].next| then nodes[x].next[level] else Uninit
  }

  function Store(nodes: seq<Node>, x: nat, level: nat, v: Link): seq<Node>
    requires x < |nodes| && level < |nodes[x].next|
  {
    nodes[x := nodes[x].(next := nodes[x].next[level := v])]
  }

  /** The bound of a search lies after the node `n` points to; null is past all keys. */
  predicate IsAfter(nodes: seq<Node>, bound: Option<Key>, n: Link) {
    n.To? && n.node < |nodes| && (bound.None? || nodes[n.node].key < bound.value)
  }

  // Reader steps

  /** A reader begins at the head, at a possibly stale height of the list. */
  ghost predicate Begin(s: State, r: nat, bound: Option<Key>, height: nat, s': State) {
    && r !in s.readers && 1 <= height <= s.mem.maxHeight
    && s' == s.(readers := s.readers[r := Reading(Search(bound, 0, height - 1), ListOf(s.mem, 0))])
  }

  /** A reader loads one link and moves right, down, or stops. */
  ghost predicate Read(s: State, r: nat, s': State) {
    && r in s.readers && s.readers[r].Reading?
    && s' == s.(readers := s.readers[r := AfterLoad(s.mem.nodes, s.readers[r].search, s.readers[r].present)])
  }

  function AfterLoad(nodes: seq<Node>, q: Search, present: seq<nat>): (r: Reader) {
    var next := Load(nodes, q.x, q.level);
    if IsAfter(nodes, q.bound, next) then Reading(q.(x := next.node), present)
    else if q.level == 0 then Finished(q.bound, q.x, next, present)
    else Reading(q.(level := q.level - 1), present)
  }

  // Inserter steps

  ghost predicate NotLinked(m: Memory, key: Key) {
    forall n: nat :: Linked(m, 0, n) && n < |m.nodes| ==> m.nodes[n].key != key
  }

  /** The inserter begins to look for the place of a key that is not in the list. */
  ghost predicate InsertBegin(s: State, key: Key, s': State) {
    && s.inserter.Idle? && s.mem.maxHeight > 0 && NotLinked(s.mem, key)
    && s' == s.(inserter := Finding(key, Search(Some(key), 0, s.mem.maxHeight - 1), seq(MAX_HEIGHT, _ => 0)))
  }

  /** The inserter loads one link and moves right, or down recording where it turned. */
  ghost predicate InsertFind(s: State, s': State) {
    && s.inserter.Finding?
    && var Finding(key, q, prev) := s.inserter;
       var next := Load(s.mem.nodes, q.x, q.level);
       && (IsAfter(s.mem.nodes, q.bound, next) || q.level > 0) && q.level < |prev|
       && s' == s.(inserter :=
            if IsAfter(s.mem.nodes, q.bound, next) then Finding(key, q.(x := next.node), prev)
            else Finding(key, q.(level := q.level - 1), prev[q.level := q.x]))
  }

  /** Found: raise the height of the list if needed and allocate the node, links unwritten. */
  ghost predicate InsertAllocate(s: State, height: nat, s': State) {
    && s.inserter.Finding? && 1 <= height <= MAX_HEIGHT
    && var Finding(key, q, prev) := s.inserter;
       && q.level == 0 && |prev| == MAX_HEIGHT && !IsAfter(s.mem.nodes, q.bound, Load(s.mem.nodes, q.x, 0))
       && s' == s.(inserter :=
                     Linking(key, |s.mem.nodes|, height, RaisePrev(prev[0 := q.x], s.mem.maxHeight, height), 0, false),
                   mem := s.mem.(maxHeight := if height > s.mem.maxHeight then height else s.mem.maxHeight,
                                 nodes := s.mem.nodes + [Node(key, seq(height, _ => Uninit))]))
  }

  /** Above the old height of the list, the head precedes the new node. */
  function RaisePrev(prev: seq<nat>, maxHeight: nat, height: nat): (r: seq<nat>)
    ensures |r| == |prev|
    ensures forall i :: 0 <= i < |prev| ==> r[i] == if maxHeight <= i < height then 0 else prev[i]
  {
    seq(|prev|, i requires 0 <= i < |prev| => if maxHeight <= i < height then 0 else prev[i])
  }

  /** Copy the predecessor's link of level `i` into the new node, not yet visible there. */
  ghost predicate InsertCopy(s: State, s': State) {
    && s.inserter.Linking? && !s.inserter.copied
    && var Linking(key, node, height, prev, i, _) := s.inserter;
       && i < height && node < |s.mem.nodes| && i < |s.mem.nodes[node].next| && i < |prev|
       && s' == s.(inserter := s.inserter.(copied := true),
                   mem := s.mem.(nodes := Store(s.mem.nodes, node, i, Load(s.mem.nodes, prev[i], i))))
  }

  /** Publish the new node at level `i`. */
  ghost predicate InsertPublish(s: State, s': State) {
    && s.inserter.Linking? && s.inserter.copied
    && var Linking(key, node, height, prev, i, _) := s.inserter;
       && i < height && i < |prev| && prev[i] < |s.mem.nodes| && i < |s.mem.nodes[prev[i]].next| && i < |s.mem.lists|
       && s' == s.(inserter := if i + 1 == height then Idle else Linking(key, node, height, prev, i + 1, false),
                   mem := Publish(s.mem, prev[i], i, node))
  }

  function Publish(m: Memory, p: nat, i: nat, node: nat): (r: Memory)
    requires p < |m.nodes| && i < |m.nodes[p].next| && i < |m.lists|
  {
    m.(nodes := Store(m.nodes, p, i, To(node)), lists := m.lists[i := InsertAfter(m.lists[i], p, node)])
  }

  /** `list` with `x` put after `p`, or in front if `p` is not in it. */
  function InsertAfter(list: seq<nat>, p: nat, x: nat): (r: seq<nat>) {
    if p !in list then [x] + list
    else if list[0] == p then [p, x] + list[1..]
    else [list[0]] + InsertAfter(list[1..], p, x)
  }

  // Invariant

  /** Position -1 is the head. */
  function NodeAt(list: seq<nat>, j: int): nat
    requires -1 <= j < |list|
  {
    if j < 0 then 0 else list[j]
  }

  function LinkAt(list: seq<nat>, j: int): Link
    requires 0 <= j <= |list|
  {
    if j < |list| then To(list[j]) else Null
  }

  /** Following the links of level `i` from the head visits exactly `list`. */
  ghost predicate Chained(nodes: seq<Node>, i: nat, list: seq<nat>) {
    && (forall j :: 0 <= j < |list| ==> 0 < list[j] < |nodes|)
    && forall j :: -1 <= j < |list| ==> Load(nodes, NodeAt(list, j), i) == LinkAt(list, j + 1)
  }

  function KeyAt(nodes: seq<Node>, list: seq<nat>, j: int): Key {
    if 0 <= j < |list| && list[j] < |nodes| then nodes[list[j]].key else 0.0
  }

  ghost predicate SortedKeys(nodes: seq<Node>, list: seq<nat>) {
    forall j, k :: 0 <= j < k < |list| ==> KeyAt(nodes, list, j) < KeyAt(nodes, list, k)
  }

  /** Every level is a sorted list of nodes that are also on all levels below. */
  ghost predicate Levels(m: Memory) {
    && |m.lists| == MAX_HEIGHT && 1 <= m.maxHeight <= MAX_HEIGHT && |m.nodes| > 0
    && (forall i :: 0 <= i < MAX_HEIGHT ==> Chained(m.nodes, i, m.lists[i]) && SortedKeys(m.nodes, m.lists[i]))
    && (forall i, k, n: nat :: 0 <= k <= i && Linked(m, i, n) && k < MAX_HEIGHT ==> Linked(m, k, n))
    && forall i :: m.maxHeight <= i < MAX_HEIGHT ==> m.lists[i] == []
  }

  ghost predicate OnLevel(m: Memory, i: nat, x: nat) {
    i < |m.lists| && (x == 0 || Linked(m, i, x))
  }

  ghost predicate KeyBelow(nodes: seq<Node>, x: nat, bound: Option<Key>) {
    x == 0 || (x < |nodes| && (bound.None? || nodes[x].key < bound.value))
  }

  ghost predicate ValidSearch(m: Memory, q: Search) {
    OnLevel(m, q.level, q.x) && KeyBelow(m.nodes, q.x, q.bound)
  }

  /** `p` is linked at level `i`, before `key`, and its successor there is not. */
  ghost predicate IsPrev(m: Memory, i: nat, p: nat, key: Key) {
    && OnLevel(m, i, p) && KeyBelow(m.nodes, p, Some(key))
    && !IsAfter(m.nodes, Some(key), Load(m.nodes, p, i))
  }

  ghost predicate ValidInserter(m: Memory, ins: Inserter) {
    match ins
    case Idle => true
    case Finding(key, q, prev) =>
      && NotLinked(m, key) && q.bound == Some(key) && ValidSearch(m, q) && |prev| == MAX_HEIGHT
      && q.level < m.maxHeight <= MAX_HEIGHT
      && forall i :: q.level < i < m.maxHeight ==> IsPrev(m, i, prev[i], key)
    case Linking(key, node, height, prev, i, copied) =>
      && 0 < node < |m.nodes| && m.nodes[node].key == key && |m.nodes[node].next| == height
      && i < height <= m.maxHeight <= MAX_HEIGHT && |prev| == MAX_HEIGHT
      && (forall k :: i <= k < height ==> IsPrev(m, k, prev[k], key))
      && (forall k, n: nat :: i <= k && Linked(m, k, n) && n < |m.nodes| ==> m.nodes[n].key != key)
      && (forall k :: 0 <= k < i ==> Linked(m, k, node))
      && (copied ==> m.nodes[node].next[i] == Load(m.nodes, prev[i], i))
  }

  ghost predicate ValidReader(m: Memory, r: Reader) {
    match r
    case Reading(q, present) => ValidSearch(m, q) && forall n :: n in present ==> Linked(m, 0, n)
    case Finished(bound, x, next, present) => Neighbours(m.nodes, bound, x, next, present)
  }

  /** Node `n` is no closer to the bound than the neighbours found. */
  ghost predicate Outside(nodes: seq<Node>, bound: Option<Key>, x: nat, next: Link, n: nat) {
    && n < |nodes|
    && if IsAfter(nodes, bound, To(n)) then 0 < x < |nodes| && nodes[n].key <= nodes[x].key
       else next.To? && next.node < |nodes| && nodes[next.node].key <= nodes[n].key
  }

  /** The bound lies between `x` and `next`, and no node of `present` lies closer to it. */
  ghost predicate Neighbours(nodes: seq<Node>, bound: Option<Key>, x: nat, next: Link, present: seq<nat>) {
    && KeyBelow(nodes, x, bound)
    && !next.Uninit? && (next.To? ==> next.node < |nodes|) && !IsAfter(nodes, bound, next)
    && forall n :: n in present ==> Outside(nodes, bound, x, next, n)
  }

  ghost predicate ValidReaders(m: Memory, readers: map<nat, Reader>) {
    forall r :: r in readers ==> ValidReader(m, readers[r])
  }

  ghost predicate Inv(s: State) {
    Levels(s.mem) && ValidInserter(s.mem, s.inserter) && ValidReaders(s.mem, s.readers)
  }

  // Frames

  lemma LoadStore(nodes: seq<Node>, x: nat, level: nat, v: Link, y: nat, k: nat)
    requires x < |nodes| && level < |nodes[x].next|
    ensures Load(Store(nodes, x, level, v), y, k) == if y == x && k == level then v else Load(nodes, y, k)
  {
  }

  /** Nodes keep their keys, and nothing is unlinked. */
  ghost predicate Grows(m: Memory, m': Memory) {
    && |m.nodes| <= |m'.nodes| && (forall n :: 0 <= n < |m.nodes| ==> m'.nodes[n].key == m.nodes[n].key)
    && |m'.lists| == |m.lists| && forall i, n: nat :: Linked(m, i, n) ==> Linked(m', i, n)
  }

  /** A search already made, and one under way, are not disturbed by what an inserter does. */
  lemma ReadersFrame(m: Memory, m': Memory, readers: map<nat, Reader>)
    requires Grows(m, m') && ValidReaders(m, readers)
    ensures ValidReaders(m', readers)
  {
    forall r | r in readers ensures ValidReader(m', readers[r]) {
      assert ValidReader(m, readers[r]);
    }
  }

  /** Where a node linked at a level, or the head, stands in its list. */
  lemma Position(m: Memory, i: nat, x: nat) returns (j: int)
    requires Levels(m) && OnLevel(m, i, x)
    ensures -1 <= j < |m.lists[i]| && NodeAt(m.lists[i], j) == x
    ensures Load(m.nodes, x, i) == LinkAt(m.lists[i], j + 1)
    ensures x < |m.nodes|
  {
    assert Chained(m.nodes, i, m.lists[i]);
    if x == 0 {
      j := -1;
    } else {
      j :| 0 <= j < |m.lists[i]| && m.lists[i][j] == x;
    }
  }

  // Readers

  /** The node a search moves right to is linked at its level. */
  lemma MoveRight(m: Memory, q: Search)
    requires Levels(m) && ValidSearch(m, q) && IsAfter(m.nodes, q.bound, Load(m.nodes, q.x, q.level))
    ensures ValidSearch(m, q.(x := Load(m.nodes, q.x, q.level).node))
  {
    var j := Position(m, q.level, q.x);
    assert Linked(m, q.level, m.lists[q.level][j + 1]);
  }

  lemma MoveDown(m: Memory, q: Search)
    requires Levels(m) && ValidSearch(m, q) && q.level > 0
    ensures ValidSearch(m, q.(level := q.level - 1))
  {
    if q.x != 0 {
      assert Linked(m, q.level, q.x) && Linked(m, q.level - 1, q.x);
    }
  }

  /**
    The last load of a search at level 0 finds the two nodes, adjacent in the list at that
    moment, between which the bound lies.
   */
  lemma LastLoad(m: Memory, q: Search)
    requires Levels(m) && ValidSearch(m, q) && q.level == 0
    requires !IsAfter(m.nodes, q.bound, Load(m.nodes, q.x, 0))
    ensures Neighbours(m.nodes, q.bound, q.x, Load(m.nodes, q.x, 0), m.lists[0])
  {
    var j := Position(m, 0, q.x);
    var list := m.lists[0];
    assert Chained(m.nodes, 0, list) && SortedKeys(m.nodes, list);
    forall n | n in list ensures Outside(m.nodes, q.bound, q.x, LinkAt(list, j + 1), n) {
      var k :| 0 <= k < |list| && list[k] == n;
      assert k < j ==> KeyAt(m.nodes, list, k) < KeyAt(m.nodes, list, j);
      assert k > j + 1 ==> KeyAt(m.nodes, list, j + 1) < KeyAt(m.nodes, list, k);
    }
  }

  lemma AfterLoadValid(m: Memory, q: Search, present: seq<nat>)
    requires Levels(m) && ValidReader(m, Reading(q, present))
    ensures ValidReader(m, AfterLoad(m.nodes, q, present))
  {
    if IsAfter(m.nodes, q.bound, Load(m.nodes, q.x, q.level)) {
      MoveRight(m, q);
    } else if q.level == 0 {
      LastLoad(m, q);
      forall n | n in present ensures n in m.lists[0] {
        assert Linked(m, 0, n);
      }
    } else {
      MoveDown(m, q);
    }
  }

  lemma BeginKeeps(s: State, r: nat, bound: Option<Key>, height: nat, s': State)
    requires Inv(s) && Begin(s, r, bound, height, s')
    ensures Inv(s')
  {
    assert ValidReader(s.mem, s'.readers[r]);
  }

  lemma ReadKeeps(s: State, r: nat, s': State)
    requires Inv(s) && Read(s, r, s')
    ensures Inv(s')
  {
    assert ValidReader(s.mem, s.readers[r]);
    AfterLoadValid(s.mem, s.readers[r].search, s.readers[r].present);
    hide Levels, ValidInserter, ValidReader;
  }

  // The inserter

  lemma InsertBeginKeeps(s: State, key: Key, s': State)
    requires Inv(s) && InsertBegin(s, key, s')
    ensures Inv(s')
  {
  }

  lemma InsertFindKeeps(s: State, s': State)
    requires Inv(s) && InsertFind(s, s')
    ensures Inv(s')
  {
    hide ValidReaders;
    var q := s.inserter.search;
    if IsAfter(s.mem.nodes, q.bound, Load(s.mem.nodes, q.x, q.level)) {
      MoveRight(s.mem, q);
    } else {
      MoveDown(s.mem, q);
    }
    hide Levels, ValidSearch, NotLinked;
  }

  lemma AllocateKeepsLevels(m: Memory, node: Node, maxHeight: nat)
    requires Levels(m) && m.maxHeight <= maxHeight <= MAX_HEIGHT
    ensures Levels(m.(nodes := m.nodes + [node], maxHeight := maxHeight))
  {
    var m' := m.(nodes := m.nodes + [node], maxHeight := maxHeight);
    forall i, n: nat ensures Linked(m', i, n) <==> Linked(m, i, n) {
    }
    forall i | 0 <= i < MAX_HEIGHT ensures Chained(m'.nodes, i, m.lists[i]) && SortedKeys(m'.nodes, m.lists[i]) {
      var list := m.lists[i];
      assert Chained(m.nodes, i, list) && SortedKeys(m.nodes, list);
      forall j | 0 <= j < |list| ensures KeyAt(m'.nodes, list, j) == KeyAt(m.nodes, list, j) {
      }
    }
  }

  lemma AllocateKeeps(s: State, height: nat, s': State)
    requires Inv(s) && InsertAllocate(s, height, s')
    ensures Inv(s')
  {
    hide Levels, ValidReaders, IsPrev, ValidSearch;
    var Finding(key, q, prev) := s.inserter;
    var m, m', p := s.mem, s'.mem, s'.inserter.prev;
    MaxHeightBound(m);
    AllocateKeepsLevels(m, Node(key, seq(height, _ => Uninit)), m'.maxHeight);
    forall i, n: nat ensures Linked(m', i, n) <==> Linked(m, i, n) {
    }
    ReadersFrame(m, m', s.readers);
    FoundPlace(m, q, key);
    forall k | 0 <= k < height ensures IsPrev(m', k, p[k], key) {
      if k >= m.maxHeight {
        EmptyLevelPrev(m, k, key);
      }
      PrevAllocFrame(m, m', k, p[k], key);
    }
    forall k, n: nat | 0 <= k && Linked(m', k, n) && n < |m'.nodes| ensures m'.nodes[n].key != key {
      LinkedBelow(m, k, n);
    }
  }

  lemma MaxHeightBound(m: Memory)
    requires Levels(m)
    ensures m.maxHeight <= MAX_HEIGHT && |m.nodes| > 0
  {
  }

  lemma LinkedBelow(m: Memory, k: int, n: nat)
    requires Levels(m) && Linked(m, k, n)
    ensures Linked(m, 0, n) && n < |m.nodes|
  {
    assert Linked(m, 0, n);
    var j := Position(m, 0, n);
  }

  lemma FoundPlace(m: Memory, q: Search, key: Key)
    requires Levels(m) && ValidSearch(m, q) && q.level == 0 && q.bound == Some(key)
    requires !IsAfter(m.nodes, q.bound, Load(m.nodes, q.x, 0))
    ensures IsPrev(m, 0, q.x, key)
  {
  }

  lemma EmptyLevelPrev(m: Memory, k: nat, key: Key)
    requires Levels(m) && m.maxHeight <= k < MAX_HEIGHT
    ensures IsPrev(m, k, 0, key)
  {
    assert Chained(m.nodes, k, m.lists[k]) && m.lists[k] == [];
    assert Load(m.nodes, NodeAt(m.lists[k], -1), k) == LinkAt(m.lists[k], 0);
  }

  /** A place found stays one when a node is allocated. */
  lemma PrevAllocFrame(m: Memory, m': Memory, k: nat, p: nat, key: Key)
    requires Levels(m) && IsPrev(m, k, p, key) && Grows(m, m') && m.nodes <= m'.nodes
    ensures IsPrev(m', k, p, key)
  {
    var j := Position(m, k, p);
    assert Chained(m.nodes, k, m.lists[k]);
    assert m'.nodes[p] == m.nodes[p];
  }

  /** A node not linked at level `i` can have its link there written unseen. */
  lemma CopyKeepsLevels(m: Memory, node: nat, i: nat, v: Link)
    requires Levels(m) && 0 < node < |m.nodes| && i < |m.nodes[node].next| && !Linked(m, i, node)
    ensures Levels(m.(nodes := Store(m.nodes, node, i, v)))
  {
    var m' := m.(nodes := Store(m.nodes, node, i, v));
    forall k, n: nat ensures Linked(m', k, n) <==> Linked(m, k, n) {
    }
    forall k | 0 <= k < MAX_HEIGHT ensures Chained(m'.nodes, k, m.lists[k]) && SortedKeys(m'.nodes, m.lists[k]) {
      var list := m.lists[k];
      assert Chained(m.nodes, k, list) && SortedKeys(m.nodes, list);
      KeysOfStore(m.nodes, node, i, v, list);
      forall j | -1 <= j < |list| ensures Load(m'.nodes, NodeAt(list, j), k) == LinkAt(list, j + 1) {
        assert k == i && j >= 0 ==> Linked(m, i, list[j]);
        LoadStore(m.nodes, node, i, v, NodeAt(list, j), k);
      }
    }
  }

  lemma PrevIsLinked(m: Memory, k: nat, p: nat, key: Key)
    requires IsPrev(m, k, p, key)
    ensures p == 0 || (Linked(m, k, p) && p < |m.nodes|)
  {
  }

  lemma CopyKeeps(s: State, s': State)
    requires Inv(s) && InsertCopy(s, s')
    ensures Inv(s')
  {
    var Linking(key, node, height, prev, i, _) := s.inserter;
    var m, m' := s.mem, s'.mem;
    var v := Load(m.nodes, prev[i], i);
    CopyKeepsLevels(m, node, i, v);
    forall k, n: nat ensures Linked(m', k, n) <==> Linked(m, k, n) {
    }
    ReadersFrame(m, m', s.readers);
    hide Levels, ValidReaders, IsPrev;
    forall k | i <= k < height ensures IsPrev(m', k, prev[k], key) {
      PrevIsLinked(m, k, prev[k], key);
      PrevFrame(m, m', k, prev[k], key, node, i, v);
    }
    LoadStore(m.nodes, node, i, v, prev[i], i);
  }

  /** `list` with `x` put in after position `j`. */
  function Spliced(list: seq<nat>, j: int, x: nat): (r: seq<nat>)
    requires -1 <= j < |list|
    ensures |r| == |list| + 1
    ensures forall a :: 0 <= a < |r| ==> r[a] == if a <= j then list[a] else if a == j + 1 then x else list[a - 1]
  {
    list[..j + 1] + [x] + list[j + 1..]
  }

  lemma {:induction false} InsertAfterAt(list: seq<nat>, j: int, x: nat)
    requires -1 <= j < |list| && (forall a, b :: 0 <= a < b < |list| ==> list[a] != list[b])
    requires forall a :: 0 <= a < |list| ==> list[a] > 0
    ensures InsertAfter(list, NodeAt(list, j), x) == Spliced(list, j, x)
  {
    if j > 0 {
      InsertAfterAt(list[1..], j - 1, x);
    }
  }

  lemma SortedDistinct(nodes: seq<Node>, i: nat, list: seq<nat>)
    requires Chained(nodes, i, list) && SortedKeys(nodes, list)
    ensures forall a, b :: 0 <= a < b < |list| ==> list[a] != list[b]
  {
    forall a, b | 0 <= a < b < |list| ensures list[a] != list[b] {
      assert KeyAt(nodes, list, a) < KeyAt(nodes, list, b);
    }
  }

  /** Linking a prepared node after its predecessor makes it the next element of the chain. */
  lemma PublishChains(nodes: seq<Node>, i: nat, list: seq<nat>, j: int, x: nat)
    requires Chained(nodes, i, list) && -1 <= j < |list| && 0 < x < |nodes| && x !in list
    requires NodeAt(list, j) < |nodes| && i < |nodes[NodeAt(list, j)].next| && i < |nodes[x].next|
    requires forall a, b :: 0 <= a < b < |list| ==> list[a] != list[b]
    requires nodes[x].next[i] == LinkAt(list, j + 1)
    ensures Chained(Store(nodes, NodeAt(list, j), i, To(x)), i, Spliced(list, j, x))
  {
    var p := NodeAt(list, j);
    var nodes', list' := Store(nodes, p, i, To(x)), Spliced(list, j, x);
    forall k | -1 <= k < |list'| ensures Load(nodes', NodeAt(list', k), i) == LinkAt(list', k + 1) {
      LoadStore(nodes, p, i, To(x), NodeAt(list', k), i);
      if k <= j {
        assert NodeAt(list', k) == NodeAt(list, k);
      } else if k > j + 1 {
        assert list'[k] == list[k - 1];
        assert NodeAt(list, k - 1) == list'[k];
      }
    }
  }

  lemma PublishSorts(nodes: seq<Node>, list: seq<nat>, j: int, x: nat)
    requires SortedKeys(nodes, list) && -1 <= j < |list| && x < |nodes|
    requires j >= 0 ==> KeyAt(nodes, list, j) < nodes[x].key
    requires j + 1 < |list| ==> nodes[x].key < KeyAt(nodes, list, j + 1)
    ensures SortedKeys(nodes, Spliced(list, j, x))
  {
    hide Spliced;
    var list' := Spliced(list, j, x);
    forall a, b | 0 <= a < b < |list'| ensures KeyAt(nodes, list', a) < KeyAt(nodes, list', b) {
      SplicedKey(nodes, list, j, x, a);
      SplicedKey(nodes, list, j, x, b);
      assert b > j + 2 ==> KeyAt(nodes, list, j + 1) < KeyAt(nodes, list, b - 1);
      assert a < j ==> KeyAt(nodes, list, a) < KeyAt(nodes, list, j);
    }
  }

  lemma SplicedKey(nodes: seq<Node>, list: seq<nat>, j: int, x: nat, a: nat)
    requires -1 <= j < |list| && x < |nodes| && a <= |list|
    ensures KeyAt(nodes, Spliced(list, j, x), a) ==
            if a <= j then KeyAt(nodes, list, a) else if a == j + 1 then nodes[x].key else KeyAt(nodes, list, a - 1)
  {
    assert Spliced(list, j, x)[a] == if a <= j then list[a] else if a == j + 1 then x else list[a - 1];
  }

  lemma KeysOfStore(nodes: seq<Node>, x: nat, level: nat, v: Link, list: seq<nat>)
    requires x < |nodes| && level < |nodes[x].next| && SortedKeys(nodes, list)
    ensures SortedKeys(Store(nodes, x, level, v), list)
  {
    forall j ensures KeyAt(Store(nodes, x, level, v), list, j) == KeyAt(nodes, list, j) {
    }
  }

  /** The memory after publishing at one level, when everything is prepared for it. */
  lemma PublishLevel(m: Memory, key: Key, p: nat, i: nat, node: nat)
    requires Levels(m) && i < MAX_HEIGHT && IsPrev(m, i, p, key)
    requires 0 < node < |m.nodes| && m.nodes[node].key == key && i < |m.nodes[node].next|
    requires m.nodes[node].next[i] == Load(m.nodes, p, i)
    requires forall n: nat :: Linked(m, i, n) && n < |m.nodes| ==> m.nodes[n].key != key
    ensures p < |m.nodes| && i < |m.nodes[p].next| && i < |m.lists|
    ensures var m' := Publish(m, p, i, node);
            && Chained(m'.nodes, i, m'.lists[i]) && SortedKeys(m'.nodes, m'.lists[i])
            && forall n: nat :: n in m'.lists[i] <==> n in m.lists[i] || n == node
  {
    hide Levels, Linked, SortedKeys, Chained, Spliced, IsPrev;
    var j := PlaceOf(m, key, p, i, node);
    var list := m.lists[i];
    SortedDistinct(m.nodes, i, list);
    InsertAfterAt(list, j, node);
    PublishChains(m.nodes, i, list, j, node);
    PublishSorts(m.nodes, list, j, node);
    KeysOfStore(m.nodes, p, i, To(node), Spliced(list, j, node));
    SplicedMembers(list, j, node);
  }

  /** The position of a found predecessor, with the keys around it. */
  lemma PlaceOf(m: Memory, key: Key, p: nat, i: nat, node: nat) returns (j: int)
    requires Levels(m) && i < MAX_HEIGHT && IsPrev(m, i, p, key) && node < |m.nodes| && m.nodes[node].key == key
    requires forall n: nat :: Linked(m, i, n) && n < |m.nodes| ==> m.nodes[n].key != key
    ensures i < |m.lists| && -1 <= j < |m.lists[i]| && NodeAt(m.lists[i], j) == p && p < |m.nodes|
    ensures i < |m.nodes[p].next|
    ensures Chained(m.nodes, i, m.lists[i]) && SortedKeys(m.nodes, m.lists[i]) && node !in m.lists[i]
    ensures Load(m.nodes, p, i) == LinkAt(m.lists[i], j + 1) && forall a :: 0 <= a < |m.lists[i]| ==> m.lists[i][a] > 0
    ensures j >= 0 ==> KeyAt(m.nodes, m.lists[i], j) < key
    ensures j + 1 < |m.lists[i]| ==> key < KeyAt(m.nodes, m.lists[i], j + 1)
  {
    var list := m.lists[i];
    assert Chained(m.nodes, i, list) && SortedKeys(m.nodes, list);
    j := Position(m, i, p);
    assert Linked(m, i, node) <==> node in list;
    if j + 1 < |list| {
      assert Linked(m, i, list[j + 1]) && 0 < list[j + 1] < |m.nodes|;
    }
  }

  lemma SplicedMembers(list: seq<nat>, j: int, x: nat)
    requires -1 <= j < |list|
    ensures forall n: nat :: n in Spliced(list, j, x) <==> n in list || n == x
  {
    assert list == list[..j + 1] + list[j + 1..];
  }

  lemma PublishKeepsLevels(m: Memory, key: Key, p: nat, i: nat, node: nat)
    requires Levels(m) && i < m.maxHeight && IsPrev(m, i, p, key)
    requires 0 < node < |m.nodes| && m.nodes[node].key == key && i < |m.nodes[node].next|
    requires m.nodes[node].next[i] == Load(m.nodes, p, i)
    requires forall k, n: nat :: i <= k && Linked(m, k, n) && n < |m.nodes| ==> m.nodes[n].key != key
    requires forall k :: 0 <= k < i ==> Linked(m, k, node)
    ensures p < |m.nodes| && i < |m.nodes[p].next| && i < |m.lists|
    ensures Levels(Publish(m, p, i, node)) && Grows(m, Publish(m, p, i, node))
    ensures forall k, n: nat :: Linked(Publish(m, p, i, node), k, n) <==> Linked(m, k, n) || (k == i && n == node)
  {
    PublishLevel(m, key, p, i, node);
    var m' := Publish(m, p, i, node);
    forall k, n: nat ensures Linked(m', k, n) <==> Linked(m, k, n) || (k == i && n == node) {
    }
    forall k | 0 <= k < MAX_HEIGHT ensures Chained(m'.nodes, k, m'.lists[k]) && SortedKeys(m'.nodes, m'.lists[k]) {
      if k != i {
        OtherLevel(m, p, i, node, k);
      }
    }
    forall a, b, n: nat | 0 <= b <= a && Linked(m', a, n) && b < MAX_HEIGHT ensures Linked(m', b, n) {
      assert Linked(m, a, n) ==> Linked(m, b, n);
    }
  }

  lemma OtherLevel(m: Memory, p: nat, i: nat, node: nat, k: nat)
    requires Levels(m) && p < |m.nodes| && i < |m.nodes[p].next| && i < |m.lists| && k < MAX_HEIGHT && k != i
    ensures var m' := Publish(m, p, i, node); Chained(m'.nodes, k, m'.lists[k]) && SortedKeys(m'.nodes, m'.lists[k])
  {
    var m', list := Publish(m, p, i, node), m.lists[k];
    assert Chained(m.nodes, k, list) && SortedKeys(m.nodes, list);
    KeysOfStore(m.nodes, p, i, To(node), list);
    forall j | -1 <= j < |list| ensures Load(m'.nodes, NodeAt(list, j), k) == LinkAt(list, j + 1) {
      LoadStore(m.nodes, p, i, To(node), NodeAt(list, j), k);
    }
  }

  lemma PublishKeeps(s: State, s': State)
    requires Inv(s) && InsertPublish(s, s')
    ensures Inv(s')
  {
    hide Levels, ValidReaders, IsPrev;
    var Linking(key, node, height, prev, i, _) := s.inserter;
    var m, m' := s.mem, s'.mem;
    PublishKeepsLevels(m, key, prev[i], i, node);
    ReadersFrame(m, m', s.readers);
    if i + 1 < height {
      forall k | i + 1 <= k < height ensures IsPrev(m', k, prev[k], key) {
        PrevFrame(m, m', k, prev[k], key, prev[i], i, To(node));
      }
    }
  }

  /** Writing a link of one level leaves the place found at another as it was. */
  lemma PrevFrame(m: Memory, m': Memory, k: nat, p: nat, key: Key, x: nat, i: nat, v: Link)
    requires IsPrev(m, k, p, key) && Grows(m, m') && x < |m.nodes| && i < |m.nodes[x].next|
    requires m'.nodes == Store(m.nodes, x, i, v) && (k != i || x != p)
    ensures IsPrev(m', k, p, key)
  {
    LoadStore(m.nodes, x, i, v, p, k);
  }

  // Runs

  datatype Step =
    | BeginStep(r: nat, bound: Option<Key>, height: nat)
    | ReadStep(r: nat)
    | InsertBeginStep(key: Key)
    | InsertFindStep
    | AllocateStep(height: nat)
    | CopyStep
    | PublishStep

  ghost predicate Next(s: State, step: Step, s': State) {
    match step
    case BeginStep(r, bound, height) => Begin(s, r, bound, height, s')
    case ReadStep(r) => Read(s, r, s')
    case InsertBeginStep(key) => InsertBegin(s, key, s')
    case InsertFindStep => InsertFind(s, s')
    case AllocateStep(height) => InsertAllocate(s, height, s')
    case CopyStep => InsertCopy(s, s')
    case PublishStep => InsertPublish(s, s')
  }

  lemma NextKeeps(s: State, step: Step, s': State)
    requires Inv(s) && Next(s, step, s')
    ensures Inv(s')
  {
    hide Inv;
    match step
    case BeginStep(r, bound, height) => BeginKeeps(s, r, bound, height, s');
    case ReadStep(r) => ReadKeeps(s, r, s');
    case InsertBeginStep(key) => InsertBeginKeeps(s, key, s');
    case InsertFindStep => InsertFindKeeps(s, s');
    case AllocateStep(height) => AllocateKeeps(s, height, s');
    case CopyStep => CopyKeeps(s, s');
    case PublishStep => PublishKeeps(s, s');
  }

  /** An empty list: all links of the head are null. */
  function Empty(): State {
    State(Memory([Node(0.0, seq(MAX_HEIGHT, _ => Null))], 1, seq(MAX_HEIGHT, _ => [])), Idle, map[])
  }

  lemma EmptyInv()
    ensures Inv(Empty())
  {
    var m := Empty().mem;
    forall i | 0 <= i < MAX_HEIGHT ensures Chained(m.nodes, i, m.lists[i]) && SortedKeys(m.nodes, m.lists[i]) {
      assert m.lists[i] == [] && NodeAt(m.lists[i], -1) == 0;
    }
    forall i, n: nat ensures !Linked(m, i, n) {
    }
    hide Chained, SortedKeys, Linked;
  }

  ghost predicate IsRun(states: seq<State>, steps: seq<Step>) {
    && |states| == |steps| + 1 && states[0] == Empty()
    && forall i :: 0 <= i < |steps| ==> Next(states[i], steps[i], states[i + 1])
  }

  /** Every interleaving keeps every level a sorted list contained in the one below. */
  lemma {:induction false} RunsKeepInv(states: seq<State>, steps: seq<Step>, n: nat)
    requires IsRun(states, steps) && n < |states|
    ensures Inv(states[n])
  {
    hide Inv, Next;
    if n == 0 {
      EmptyInv();
    } else {
      RunsKeepInv(states, steps, n - 1);
      NextKeeps(states[n - 1], steps[n - 1], states[n]);
    }
  }

  /** Steps `b` and `e` are the first and the last of reader `r`'s search for `bound`. */
  ghost predicate IsSearch(states: seq<State>, steps: seq<Step>, b: nat, e: nat, r: nat, bound: Option<Key>) {
    && IsRun(states, steps) && b <= e < |steps|
    && steps[b].BeginStep? && steps[b].r == r && steps[b].bound == bound
    && steps[e] == ReadStep(r) && r in states[e + 1].readers && states[e + 1].readers[r].Finished?
  }

  lemma SearchEnds(states: seq<State>, steps: seq<Step>, b: nat, e: nat, r: nat, bound: Option<Key>)
    requires IsSearch(states, steps, b, e, r, bound)
    ensures var m, f := states[e].mem, states[e + 1].readers[r];
            && OnLevel(m, 0, f.x) && (f.next.To? ==> Linked(m, 0, f.next.node))
            && Neighbours(m.nodes, bound, f.x, f.next, m.lists[0])
            && forall n: nat :: Linked(states[b].mem, 0, n) ==> Linked(m, 0, n)
  {
    RunsKeepInv(states, steps, e);
    BoundStays(states, steps, b + 1, e, r, bound);
    NothingUnlinked(states, steps, b, e);
    var s := states[e];
    assert Next(s, steps[e], states[e + 1]);
    assert ValidReader(s.mem, s.readers[r]);
    LastLoad(s.mem, s.readers[r].search);
    var j := Position(s.mem, 0, s.readers[r].search.x);
  }

  /**
    Main theorem.  A search for `k` returns the least key at or after `k` that is linked at
    the moment of its last load, or null if there is none.  So it misses no node that was
    linked when it began, and it never follows an unwritten link.
   */
  lemma FindGreaterOrEqualIsLinearizable(states: seq<State>, steps: seq<Step>, b: nat, e: nat, r: nat, k: Key)
    requires IsSearch(states, steps, b, e, r, Some(k))
    ensures var m, found := states[e].mem, states[e + 1].readers[r].next;
            && (forall n: nat :: Linked(m, 0, n) ==> n < |m.nodes|) && !found.Uninit?
            && (found.To? ==> Linked(m, 0, found.node) && m.nodes[found.node].key >= k)
            && (forall n: nat :: Linked(m, 0, n) && m.nodes[n].key >= k ==>
              found.To? && m.nodes[found.node].key <= m.nodes[n].key)
            && forall n: nat :: Linked(states[b].mem, 0, n) ==> Linked(m, 0, n)
  {
    hide Next, OnLevel;
    SearchEnds(states, steps, b, e, r, Some(k));
    var m, f := states[e].mem, states[e + 1].readers[r];
    forall n: nat | Linked(m, 0, n) ensures Outside(m.nodes, Some(k), f.x, f.next, n) {
      assert n in m.lists[0];
    }
  }

  /** The mirror image: the greatest key before `k`, or the head; without a bound, the last node. */
  lemma FindLessThanIsLinearizable(states: seq<State>, steps: seq<Step>, b: nat, e: nat, r: nat, bound: Option<Key>)
    requires IsSearch(states, steps, b, e, r, bound)
    ensures var m, x := states[e].mem, states[e + 1].readers[r].x;
            && (forall n: nat :: Linked(m, 0, n) ==> n < |m.nodes|)
            && (x != 0 ==> Linked(m, 0, x) && (bound.Some? ==> m.nodes[x].key < bound.value))
            && forall n: nat :: Linked(m, 0, n) && (bound.Some? ==> m.nodes[n].key < bound.value) ==>
              Linked(m, 0, x) && m.nodes[n].key <= m.nodes[x].key
  {
    hide Next;
    SearchEnds(states, steps, b, e, r, bound);
    var m, f := states[e].mem, states[e + 1].readers[r];
    forall n: nat | Linked(m, 0, n) ensures Outside(m.nodes, bound, f.x, f.next, n) {
      assert n in m.lists[0];
    }
  }

  /** A reader keeps its bound until it is done. */
  lemma {:induction false} BoundStays(states: seq<State>, steps: seq<Step>, b: nat, e: nat, r: nat, bound: Option<Key>)
    requires IsRun(states, steps) && 0 < b <= e + 1 && e < |states| && b <= |steps|
    requires steps[b - 1].BeginStep? && steps[b - 1].r == r && steps[b - 1].bound == bound
    requires b <= e ==> r in states[e].readers
    ensures b <= e && states[e].readers[r].Reading? ==> states[e].readers[r].search.bound == bound
  {
    if b <= e {
      assert Next(states[e - 1], steps[e - 1], states[e]);
      if b < e {
        ReaderStays(states, steps, b, e - 1, r);
        BoundStays(states, steps, b, e - 1, r, bound);
      }
    }
  }

  lemma {:induction false} ReaderStays(states: seq<State>, steps: seq<Step>, b: nat, e: nat, r: nat)
    requires IsRun(states, steps) && 0 < b <= e < |states| && steps[b - 1].BeginStep? && steps[b - 1].r == r
    ensures r in states[e].readers
  {
    assert Next(states[e - 1], steps[e - 1], states[e]);
    if b < e {
      ReaderStays(states, steps, b, e - 1, r);
    }
  }

  /** Nothing that is linked is ever unlinked. */
  lemma {:induction false} NothingUnlinked(states: seq<State>, steps: seq<Step>, b: nat, e: nat)
    requires IsRun(states, steps) && b <= e < |states|
    ensures forall i, n: nat :: Linked(states[b].mem, i, n) ==> Linked(states[e].mem, i, n)
  {
    hide Inv, Next, Linked;
    if b < e {
      NothingUnlinked(states, steps, b, e - 1);
      RunsKeepInv(states, steps, e - 1);
      StepUnlinksNothing(states[e - 1], steps[e - 1], states[e]);
    }
  }

  lemma StepUnlinksNothing(s: State, step: Step, s': State)
    requires Inv(s) && Next(s, step, s')
    ensures forall i, n: nat :: Linked(s.mem, i, n) ==> Linked(s'.mem, i, n)
  {
    if step.PublishStep? {
      var Linking(key, node, height, prev, i, _) := s.inserter;
      PublishKeepsLevels(s.mem, key, prev[i], i, node);
    }
  }

  // Finished insertions

  /** Step `b` begins an insertion of `k`, and step `e` is the one at which the inserter becomes idle again. */
  ghost predicate IsInsertion(states: seq<State>, steps: seq<Step>, b: nat, e: nat, k: Key) {
    && IsRun(states, steps) && b < e < |steps| && steps[b] == InsertBeginStep(k)
    && (forall j :: b < j <= e ==> !states[j].inserter.Idle?) && states[e + 1].inserter.Idle?
  }

  /** How far an insertion of `k` into `m` has come: one node more at level 0, or none yet. */
  ghost predicate Underway(m: Memory, s: State, k: Key) {
    match s.inserter
    case Idle => false
    case Finding(key, _, _) => key == k && forall n: nat :: Linked(s.mem, 0, n) <==> Linked(m, 0, n)
    case Linking(key, node, _, _, i, _) =>
      && key == k && (forall n: nat :: Linked(s.mem, 0, n) <==> Linked(m, 0, n) || (i > 0 && n == node))
      && !Linked(m, 0, node)
  }

  lemma UnderwayBegins(s: State, s': State, k: Key)
    requires InsertBegin(s, k, s')
    ensures Underway(s.mem, s', k) && s'.inserter.Finding?
  {
  }

  lemma UnderwayStep(m: Memory, s: State, step: Step, s': State, k: Key)
    requires Inv(s) && Next(s, step, s') && Underway(m, s, k) && !s'.inserter.Idle?
    ensures Underway(m, s', k)
    ensures s.inserter.Linking? ==> s'.inserter.Linking? && s'.inserter.height == s.inserter.height
    ensures s.inserter.Finding? && s'.inserter.Linking? <==> step.AllocateStep?
    ensures step.AllocateStep? ==> s'.inserter.height == step.height
  {
    hide ValidReaders, IsPrev, IsAfter;
    if step.AllocateStep? {
      assert Chained(s.mem.nodes, 0, s.mem.lists[0]);
    } else if step.PublishStep? {
      var Linking(key, node, height, prev, i, _) := s.inserter;
      PublishKeepsLevels(s.mem, key, prev[i], i, node);
      hide Levels, Publish;
    }
  }

  /** During an insertion, the height of the node is the one it was allocated with. */
  lemma {:induction false} InsertionGoesOn(states: seq<State>, steps: seq<Step>, b: nat, n: nat, k: Key)
    requires IsRun(states, steps) && b < n < |states| && steps[b] == InsertBeginStep(k)
    requires forall j :: b < j <= n ==> !states[j].inserter.Idle?
    ensures Inv(states[n]) && Underway(states[b].mem, states[n], k)
    ensures states[n].inserter.Finding? ==> forall a :: b < a < n ==> !steps[a].AllocateStep?
    ensures states[n].inserter.Linking? ==>
      forall a :: b < a < n && steps[a].AllocateStep? ==> steps[a].height == states[n].inserter.height
  {
    hide Inv, Underway;
    RunsKeepInv(states, steps, n);
    assert Next(states[n - 1], steps[n - 1], states[n]);
    if b == n - 1 {
      UnderwayBegins(states[b], states[n], k);
    } else {
      InsertionGoesOn(states, steps, b, n - 1, k);
      hide Next;
      UnderwayStep(states[b].mem, states[n - 1], steps[n - 1], states[n], k);
    }
  }

  /** Node `n` with key `k` is the one node more at level 0, and it is on exactly the levels of its height. */
  ghost predicate Lands(m: Memory, m': Memory, n: nat, k: Key) {
    && 0 < n < |m'.nodes| && m'.nodes[n].key == k && 1 <= |m'.nodes[n].next| <= m'.maxHeight
    && (forall i :: Linked(m', i, n) <==> 0 <= i < |m'.nodes[n].next|)
    && !Linked(m, 0, n) && forall x: nat :: Linked(m', 0, x) <==> Linked(m, 0, x) || x == n
  }

  lemma LastStepLands(m: Memory, s: State, step: Step, s': State, k: Key)
    requires Inv(s) && Next(s, step, s') && Underway(m, s, k) && s'.inserter.Idle?
    ensures s.inserter.Linking? && step.PublishStep? && Lands(m, s'.mem, s.inserter.node, k)
    ensures |s'.mem.nodes[s.inserter.node].next| == s.inserter.height
  {
    hide ValidReaders, IsPrev, IsAfter;
    var Linking(key, node, height, prev, i, _) := s.inserter;
    PublishKeepsLevels(s.mem, key, prev[i], i, node);
    assert |s'.mem.nodes[node].next| == height;
    hide Levels, Publish;
  }

  /**
    A finished insertion of `k` has put one node with key `k` into the list, on as many levels as it
    was allocated with, and has changed nothing else at level 0.
   */
  lemma InsertionLands(states: seq<State>, steps: seq<Step>, b: nat, e: nat, k: Key) returns (n: nat)
    requires IsInsertion(states, steps, b, e, k)
    ensures Lands(states[b].mem, states[e + 1].mem, n, k)
    ensures forall a :: b < a <= e && steps[a].AllocateStep? ==>
      steps[a].height == |states[e + 1].mem.nodes[n].next|
  {
    hide Inv, Underway, Next, Lands;
    InsertionGoesOn(states, steps, b, e, k);
    LastStepLands(states[b].mem, states[e], steps[e], states[e + 1], k);
    n := states[e].inserter.node;
  }

  /** Nodes keep their keys. */
  lemma {:induction false} KeysStay(states: seq<State>, steps: seq<Step>, b: nat, e: nat, n: nat)
    requires IsRun(states, steps) && b <= e < |states| && n < |states[b].mem.nodes|
    ensures n < |states[e].mem.nodes| && states[e].mem.nodes[n].key == states[b].mem.nodes[n].key
  {
    if b < e {
      KeysStay(states, steps, b, e - 1, n);
      assert Next(states[e - 1], steps[e - 1], states[e]);
    }
  }

  /** A search for `k` that begins after an insertion of `k` has finished returns a node with key `k`. */
  lemma InsertedIsFound(states: seq<State>, steps: seq<Step>, b: nat, e: nat, k: Key, b': nat, e': nat, r: nat)
    requires IsInsertion(states, steps, b, e, k) && IsSearch(states, steps, b', e', r, Some(k)) && e < b'
    ensures var found := states[e' + 1].readers[r].next;
      && found.To? && Linked(states[e'].mem, 0, found.node)
      && found.node < |states[e'].mem.nodes| && states[e'].mem.nodes[found.node].key == k
  {
    var n := InsertionLands(states, steps, b, e, k);
    NothingUnlinked(states, steps, e + 1, e');
    KeysStay(states, steps, e + 1, e', n);
    hide IsRun, Next;
    FindGreaterOrEqualIsLinearizable(states, steps, b', e', r, k);
    assert Linked(states[e'].mem, 0, n);
  }

  // Insertions finish

  /** How many nodes of a list come behind `x`. */
  function Behind(list: seq<nat>, x: nat): (n: nat) {
    if x !in list then |list| else if list[0] == x then |list| - 1 else Behind(list[1..], x)
  }

  lemma {:induction false} BehindAt(list: seq<nat>, j: nat)
    requires j < |list| && forall a, b :: 0 <= a < b < |list| ==> list[a] != list[b]
    ensures Behind(list, list[j]) == |list| - 1 - j
  {
    if j > 0 {
      assert list[0] != list[j] && list[1..][j - 1] == list[j];
      BehindAt(list[1..], j - 1);
    }
  }

  /** Moving right leaves fewer nodes behind. */
  lemma RightIsCloser(m: Memory, q: Search)
    requires Levels(m) && ValidSearch(m, q) && IsAfter(m.nodes, q.bound, Load(m.nodes, q.x, q.level))
    ensures Behind(m.lists[q.level], Load(m.nodes, q.x, q.level).node) < Behind(m.lists[q.level], q.x)
  {
    var list := m.lists[q.level];
    var j := Position(m, q.level, q.x);
    assert Chained(m.nodes, q.level, list) && SortedKeys(m.nodes, list);
    SortedDistinct(m.nodes, q.level, list);
    hide Behind;
    BehindAt(list, j + 1);
    if j >= 0 {
      BehindAt(list, j);
    } else {
      HeadIsFirst(list);
    }
  }

  lemma HeadIsFirst(list: seq<nat>)
    requires forall a :: 0 <= a < |list| ==> list[a] > 0
    ensures Behind(list, 0) == |list|
  {
  }

  predicate OfInserter(step: Step) {
    step.InsertFindStep? || step.AllocateStep? || step.CopyStep? || step.PublishStep?
  }

  /** Steps of the inserter alone that lead from `s` to the end of its insertion. */
  ghost predicate Finishes(s: State, states: seq<State>, steps: seq<Step>) {
    && |states| == |steps| + 1 && states[0] == s && states[|steps|].inserter.Idle?
    && forall i :: 0 <= i < |steps| ==> OfInserter(steps[i]) && Next(states[i], steps[i], states[i + 1])
  }

  /** A step closer to the place: down a level, or right on the same one. */
  ghost predicate Nearer(s: State, s': State)
    requires s.inserter.Finding? && s'.inserter.Finding?
  {
    var q, q' := s.inserter.search, s'.inserter.search;
    || q'.level < q.level
    || (q'.level == q.level && s'.mem == s.mem
        && Behind(ListOf(s.mem, q.level), q'.x) < Behind(ListOf(s.mem, q.level), q.x))
  }

  /** The step that looking for the place can make, whatever readers do. */
  lemma FindingGoesOn(s: State, height: nat) returns (step: Step, s': State)
    requires Inv(s) && s.inserter.Finding? && 1 <= height <= MAX_HEIGHT
    ensures OfInserter(step) && Next(s, step, s')
    ensures s'.inserter.Linking? || (s'.inserter.Finding? && Nearer(s, s'))
  {
    hide ValidReaders, Behind, IsPrev, NotLinked, Levels, ValidSearch;
    var Finding(key, q, prev) := s.inserter;
    var next := Load(s.mem.nodes, q.x, q.level);
    if IsAfter(s.mem.nodes, q.bound, next) {
      InListRange(s.mem, q);
      RightIsCloser(s.mem, q);
      step, s' := InsertFindStep, s.(inserter := Finding(key, q.(x := next.node), prev));
    } else if q.level > 0 {
      step, s' := InsertFindStep, s.(inserter := Finding(key, q.(level := q.level - 1), prev[q.level := q.x]));
    } else {
      step := AllocateStep(height);
      s' := s.(inserter :=
          Linking(key, |s.mem.nodes|, height, RaisePrev(prev[0 := q.x], s.mem.maxHeight, height), 0, false),
        mem := s.mem.(maxHeight := if height > s.mem.maxHeight then height else s.mem.maxHeight,
                      nodes := s.mem.nodes + [Node(key, seq(height, _ => Uninit))]));
    }
  }

  lemma InListRange(m: Memory, q: Search)
    requires ValidSearch(m, q)
    ensures q.level < |m.lists|
  {
  }

  /** The step that linking can make, whatever readers do. */
  lemma LinkingGoesOn(s: State) returns (step: Step, s': State)
    requires Inv(s) && s.inserter.Linking?
    ensures OfInserter(step) && Next(s, step, s')
    ensures s'.inserter.Idle? || (s'.inserter.Linking? && ToLink(s') < ToLink(s))
  {
    hide ValidReaders, Levels, IsPrev, Publish;
    var Linking(key, node, height, prev, i, copied) := s.inserter;
    if copied {
      PublishKeepsLevels(s.mem, key, prev[i], i, node);
      step := PublishStep;
      s' := s.(inserter := if i + 1 == height then Idle else Linking(key, node, height, prev, i + 1, false),
               mem := Publish(s.mem, prev[i], i, node));
    } else {
      step := CopyStep;
      s' := s.(inserter := s.inserter.(copied := true),
               mem := s.mem.(nodes := Store(s.mem.nodes, node, i, Load(s.mem.nodes, prev[i], i))));
    }
  }

  /** Loads and stores that linking still takes. */
  function ToLink(s: State): (n: nat) {
    if s.inserter.Linking? && s.inserter.i < s.inserter.height then
      2 * (s.inserter.height - s.inserter.i) - if s.inserter.copied then 1 else 0
    else 0
  }

  function Stage(ins: Inserter): nat {
    match ins
    case Idle => 0
    case Linking(_, _, _, _, _, _) => 1
    case Finding(_, _, _) => 2
  }

  /** From every state of a run the inserter can finish what it has begun. */
  lemma {:induction false} InsertionCanFinish(s: State, height: nat) returns (states: seq<State>, steps: seq<Step>)
    requires Inv(s) && 1 <= height <= MAX_HEIGHT
    ensures Finishes(s, states, steps)
    decreases Stage(s.inserter), ToLink(s), if s.inserter.Finding? then s.inserter.search.level else 0,
      if s.inserter.Finding? then Behind(ListOf(s.mem, s.inserter.search.level), s.inserter.search.x) else 0
  {
    hide Inv, Next, Behind;
    if s.inserter.Idle? {
      return [s], [];
    }
    var step, s';
    if s.inserter.Finding? {
      step, s' := FindingGoesOn(s, height);
    } else {
      step, s' := LinkingGoesOn(s);
    }
    NextKeeps(s, step, s');
    var more, rest := InsertionCanFinish(s', height);
    states, steps := [s] + more, [step] + rest;
  }
}
