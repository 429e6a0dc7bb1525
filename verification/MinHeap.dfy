/**
  The pointer-linked binary min heap: a complete tree in which every node knows its parent
  and children, with insertion and removal of an arbitrary node.
 */
module MinHeap {

  /** What timers are ordered by: timeout first, then the number given at start. */
  datatype Key = Rank(timeout: nat, startId: nat)

  predicate Less(a: Key, b: Key) {
    a.timeout < b.timeout || (a.timeout == b.timeout && a.startId < b.startId)
  }

  /** A heap node together with the timer handle it is embedded in. */
  class Node {
    var left: Node?
    var right: Node?
    var parent: Node?

    var timeout: nat
    var startId: nat
    var repeat: nat
    var active: bool
    var hasCallback: bool
    var closing: bool

    function Key(): Key
      reads this`timeout, this`startId
    {
      Rank(timeout, startId)
    }

    constructor ()
      ensures !active && !hasCallback && !closing && repeat == 0
    {
      left, right, parent := null, null, null;
      timeout, startId, repeat := 0, 0, 0;
      active, hasCallback, closing := false, false, false;
    }
  }

  /** The node at position `i`, counting the root as 1 and the children of `i` as 2i and 2i+1. */
  function At(s: seq<Node>, i: int): Node? {
    if 1 <= i <= |s| then s[i - 1] else null
  }

  ghost predicate Distinct(s: seq<Node>) {
    forall i, j :: 0 <= i < j < |s| ==> s[i] != s[j]
  }

  /** The links of the node at position `i` are those of a complete tree. */
  ghost predicate LinkedAt(s: seq<Node>, i: int)
    requires 1 <= i <= |s|
    reads s`left, s`right, s`parent
  {
    At(s, i).left == At(s, 2 * i) && At(s, i).right == At(s, 2 * i + 1) && At(s, i).parent == At(s, i / 2)
  }

  ghost predicate AllLinked(s: seq<Node>)
    reads s`left, s`right, s`parent
  {
    forall i :: 1 <= i <= |s| ==> LinkedAt(s, i)
  }

  /** The nodes form the complete tree whose positions 1, 2, ... hold `s` in order. */
  ghost predicate Linked(s: seq<Node>)
    reads s`left, s`right, s`parent
  {
    Distinct(s) && AllLinked(s)
  }

  /** `s` with the nodes at positions `i` and `j` exchanged. */
  function Swapped(s: seq<Node>, i: int, j: int): (r: seq<Node>)
    requires 1 <= i <= |s| && 1 <= j <= |s|
    ensures |r| == |s|
    ensures forall k :: At(r, k) == if k == i then At(s, j) else if k == j then At(s, i) else At(s, k)
  {
    s[i - 1 := s[j - 1]][j - 1 := s[i - 1]]
  }

  /** The links of position `k` of `s` after those around positions `i` and `j` were exchanged. */
  ghost predicate Relinked(s: seq<Node>, i: int, j: int, k: int)
    requires 1 <= i <= |s| && 1 <= j <= |s| && 1 <= k <= |s|
    reads s`left, s`right, s`parent
  {
    var n := At(s, k);
    if k == i then n.left == At(s, 2 * j) && n.right == At(s, 2 * j + 1) && n.parent == At(s, j)
    else if k == j then
      && n.parent == At(s, i / 2)
      && n.left == (if j == 2 * i then At(s, i) else At(s, 2 * i))
      && n.right == (if j == 2 * i then At(s, 2 * i + 1) else At(s, i))
    else
      && n.left == (if 2 * k == i then At(s, j) else At(s, 2 * k))
      && n.right == (if 2 * k + 1 == i then At(s, j) else At(s, 2 * k + 1))
      && n.parent == (if k / 2 == i then At(s, j) else if k / 2 == j then At(s, i) else At(s, k / 2))
  }

  lemma RelinkedIsLinked(s: seq<Node>, i: int, j: int)
    requires Distinct(s) && 1 <= i < j <= |s| && i == j / 2
    requires forall k :: 1 <= k <= |s| ==> Relinked(s, i, j, k)
    ensures Linked(Swapped(s, i, j))
  {
    var r := Swapped(s, i, j);
    forall k | 1 <= k <= |s| ensures LinkedAt(r, k) {
      var m := if k == i then j else if k == j then i else k;
      assert At(r, k) == At(s, m) && Relinked(s, i, j, m);
    }
    forall a, b | 0 <= a < b < |r| ensures r[a] != r[b] {
      assert At(r, a + 1) == r[a] && At(r, b + 1) == r[b];
    }
  }

  // ----- finding a position from its number -----

  /** A place that holds a link: the root link of the heap or a child link of a node. */
  datatype Slot = Root | LeftOf(owner: Node) | RightOf(owner: Node)

  /** The place that links to position `i`. */
  ghost function SlotAt(s: seq<Node>, i: int): Slot
    requires 1 <= i <= |s| + 1
  {
    if i == 1 then Root
    else if i % 2 == 0 then LeftOf(At(s, i / 2))
    else RightOf(At(s, i / 2))
  }

  /** The position reached from `i` by `k` turns, taken from the lowest bits of `path` upwards. */
  ghost function Descend(i: nat, path: nat, k: nat): nat
    decreases k
  {
    if k == 0 then i else Descend(2 * i + path % 2, path / 2, k - 1)
  }

  lemma {:induction false} DescendGrows(i: nat, path: nat, k: nat)
    requires i >= 1
    ensures Descend(i, path, k) >= i + k
    decreases k
  {
    if k > 0 {
      DescendGrows(2 * i + path % 2, path / 2, k - 1);
    }
  }

  /** The turns that lead from the root to position `target`. */
  method PathTo(target: nat) returns (path: nat, k: nat)
    requires target >= 1
    ensures Descend(1, path, k) == target
  {
    path, k := 0, 0;
    var n := target;
    while n >= 2
      invariant n >= 1 && Descend(n, path, k) == target
    {
      assert Descend(n / 2, 2 * path + n % 2, k + 1) == Descend(n, path, k) by {
        assert (2 * path + n % 2) / 2 == path && (2 * path + n % 2) % 2 == n % 2;
      }
      path, n, k := 2 * path + n % 2, n / 2, k + 1;
    }
  }

  // ----- heap order, on the keys by position -----

  function Keys(s: seq<Node>): (ks: seq<Key>)
    reads s`timeout, s`startId
    ensures |ks| == |s|
    ensures forall i :: 0 <= i < |s| ==> ks[i] == s[i].Key()
  {
    if s == [] then [] else Keys(s[..|s| - 1]) + [s[|s| - 1].Key()]
  }

  function K(ks: seq<Key>, i: int): Key
    requires 1 <= i <= |ks|
  {
    ks[i - 1]
  }

  predicate InOrder(ks: seq<Key>, i: int)
    requires 2 <= i <= |ks|
  {
    !Less(K(ks, i), K(ks, i / 2))
  }

  /** No child comes before its parent. */
  predicate Ordered(ks: seq<Key>) {
    forall i :: 2 <= i <= |ks| ==> InOrder(ks, i)
  }

  /** The children of `pos` could take their grandparent for a parent. */
  predicate Spanned(ks: seq<Key>, pos: int)
    requires 1 <= pos <= |ks|
  {
    pos >= 2 ==> forall i :: 2 <= i <= |ks| && i / 2 == pos ==> !Less(K(ks, i), K(ks, pos / 2))
  }

  /** In order everywhere except perhaps between `pos` and its parent. */
  predicate Rising(ks: seq<Key>, pos: int)
    requires 1 <= pos <= |ks|
  {
    Spanned(ks, pos) && forall i :: 2 <= i <= |ks| && i != pos ==> InOrder(ks, i)
  }

  /** In order everywhere except perhaps around `pos`. */
  predicate Sinking(ks: seq<Key>, pos: int)
    requires 1 <= pos <= |ks|
  {
    Spanned(ks, pos) && forall i :: 2 <= i <= |ks| && i != pos && i / 2 != pos ==> InOrder(ks, i)
  }

  function SwappedKeys(ks: seq<Key>, i: int, j: int): (r: seq<Key>)
    requires 1 <= i <= |ks| && 1 <= j <= |ks|
    ensures |r| == |ks|
    ensures forall k :: 1 <= k <= |ks| ==> K(r, k) == if k == i then K(ks, j) else if k == j then K(ks, i) else K(ks, k)
  {
    ks[i - 1 := ks[j - 1]][j - 1 := ks[i - 1]]
  }

  lemma RiseStep(ks: seq<Key>, pos: int)
    requires 2 <= pos <= |ks| && Rising(ks, pos) && Less(K(ks, pos), K(ks, pos / 2))
    ensures Rising(SwappedKeys(ks, pos / 2, pos), pos / 2)
  {
    var up := pos / 2;
    var r := SwappedKeys(ks, up, pos);
    forall i | 2 <= i <= |ks| && i != up ensures InOrder(r, i) {
      assert i != pos ==> InOrder(ks, i);
    }
    if up >= 2 {
      assert InOrder(ks, up);
      forall i | 2 <= i <= |ks| && i / 2 == up ensures !Less(K(r, i), K(r, up / 2)) {
        assert i != pos ==> InOrder(ks, i);
      }
    }
  }

  /** `c` is a child of `pos` that comes before `pos`, and no sibling comes before it. */
  predicate FirstChild(ks: seq<Key>, pos: int, c: int)
    requires 1 <= pos <= |ks|
  {
    && 2 <= c <= |ks| && c / 2 == pos && Less(K(ks, c), K(ks, pos))
    && forall i :: 2 <= i <= |ks| && i / 2 == pos ==> !Less(K(ks, i), K(ks, c))
  }

  lemma SinkStep(ks: seq<Key>, pos: int, c: int)
    requires 1 <= pos <= |ks| && Sinking(ks, pos) && FirstChild(ks, pos, c)
    ensures Sinking(SwappedKeys(ks, pos, c), c)
  {
    var r := SwappedKeys(ks, pos, c);
    forall i | 2 <= i <= |ks| && i != c && i / 2 != c ensures InOrder(r, i) {
      assert i != pos && i / 2 != pos ==> InOrder(ks, i);
    }
    forall i | 2 <= i <= |ks| && i / 2 == c ensures !Less(K(r, i), K(r, pos)) {
      assert InOrder(ks, i);
    }
  }

  /** Nothing comes before the root. */
  lemma {:induction false} RootIsLeast(ks: seq<Key>, i: int)
    requires Ordered(ks) && 1 <= i <= |ks|
    ensures !Less(K(ks, i), K(ks, 1))
  {
    if i > 1 {
      RootIsLeast(ks, i / 2);
      assert InOrder(ks, i);
    }
  }

  lemma RisenIsOrdered(ks: seq<Key>, pos: int)
    requires 1 <= pos <= |ks| && Rising(ks, pos)
    requires pos >= 2 ==> !Less(K(ks, pos), K(ks, pos / 2))
    ensures Ordered(ks)
  {
  }

  /** With both children in order, only the link upwards is left to settle. */
  lemma SunkIsRising(ks: seq<Key>, pos: int)
    requires 1 <= pos <= |ks| && Sinking(ks, pos)
    requires 2 * pos <= |ks| ==> !Less(K(ks, 2 * pos), K(ks, pos))
    requires 2 * pos + 1 <= |ks| ==> !Less(K(ks, 2 * pos + 1), K(ks, pos))
    ensures Rising(ks, pos)
  {
    forall i | 2 <= i <= |ks| && i != pos ensures InOrder(ks, i) {
      assert i / 2 == pos ==> i == 2 * pos || i == 2 * pos + 1;
    }
  }

  lemma PickedIsFirst(ks: seq<Key>, pos: int, c: int)
    requires 1 <= pos <= |ks| && (c == 2 * pos || c == 2 * pos + 1) && c <= |ks| && Less(K(ks, c), K(ks, pos))
    requires c == 2 * pos ==> (2 * pos + 1 <= |ks| ==> !Less(K(ks, 2 * pos + 1), K(ks, c)))
    requires c == 2 * pos + 1 ==> !Less(K(ks, 2 * pos), K(ks, pos)) || Less(K(ks, c), K(ks, 2 * pos))
    ensures FirstChild(ks, pos, c)
  {
    forall i | 2 <= i <= |ks| && i / 2 == pos ensures !Less(K(ks, i), K(ks, c)) {
      assert i == 2 * pos || i == 2 * pos + 1;
    }
  }

  /** `all` is the set of the nodes of `s`. */
  ghost predicate Holds(s: seq<Node>, all: set<Node>) {
    (forall n :: n in s ==> n in all) && (forall n :: n in all ==> n in s)
  }

  lemma KeysAt(s: seq<Node>, i: int)
    ensures |Keys(s)| == |s|
    ensures 1 <= i <= |s| ==> At(s, i).Key() == K(Keys(s), i)
  {
  }

  lemma KeysAppend(s: seq<Node>, node: Node)
    ensures Keys(s + [node]) == Keys(s) + [node.Key()]
  {
    assert (s + [node])[..|s|] == s;
  }

  lemma AppendedRises(ks: seq<Key>, key: Key)
    requires Ordered(ks)
    ensures Rising(ks + [key], |ks| + 1)
  {
    var r := ks + [key];
    forall i | 2 <= i <= |ks| ensures InOrder(r, i) {
      assert InOrder(ks, i);
    }
  }

  lemma KeysPrefix(s: seq<Node>, n: int)
    requires 0 <= n <= |s|
    ensures Keys(s[..n]) == Keys(s)[..n]
  {
  }

  lemma KeysUpdate(s: seq<Node>, pos: int, node: Node)
    requires 1 <= pos <= |s|
    ensures Keys(s[pos - 1 := node]) == Keys(s)[pos - 1 := node.Key()]
  {
  }

  lemma PrefixOrdered(ks: seq<Key>, n: int)
    requires Ordered(ks) && 0 <= n <= |ks|
    ensures Ordered(ks[..n])
  {
    forall i | 2 <= i <= n ensures InOrder(ks[..n], i) {
      assert InOrder(ks, i);
    }
  }

  lemma ReplacedSinks(ks: seq<Key>, n: int, pos: int, key: Key)
    requires Ordered(ks) && 1 <= pos <= n <= |ks|
    ensures Sinking(ks[..n][pos - 1 := key], pos)
  {
    var r := ks[..n][pos - 1 := key];
    forall i | 2 <= i <= n && i != pos && i / 2 != pos ensures InOrder(r, i) {
      assert InOrder(ks, i);
    }
    if pos >= 2 {
      assert InOrder(ks, pos);
      forall i | 2 <= i <= n && i / 2 == pos ensures !Less(K(r, i), K(r, pos / 2)) {
        assert InOrder(ks, i);
      }
    }
  }

  lemma RemovedSinks(s: seq<Node>, n: int, pos: int, node: Node)
    requires Ordered(Keys(s)) && 1 <= pos <= n <= |s|
    ensures Sinking(Keys(s[..n][pos - 1 := node]), pos)
  {
    KeysPrefix(s, n);
    KeysUpdate(s[..n], pos, node);
    ReplacedSinks(Keys(s), n, pos, node.Key());
  }

  lemma Apart(s: seq<Node>, all: set<Node>, node: Node)
    requires Holds(s, all) && node !in all
    ensures forall i :: At(s, i) != node
    ensures forall i :: 1 <= i <= |s| ==> At(s, i) in all
  {
  }

  ghost function PositionOf(s: seq<Node>, all: set<Node>, node: Node): (i: int)
    requires Holds(s, all) && node in all
    ensures 1 <= i <= |s| && At(s, i) == node
  {
    var i :| 0 <= i < |s| && s[i] == node; i + 1
  }

  lemma KeysSwapped(s: seq<Node>, i: int, j: int)
    requires 1 <= i <= |s| && 1 <= j <= |s|
    ensures Keys(Swapped(s, i, j)) == SwappedKeys(Keys(s), i, j)
  {
    var r := Swapped(s, i, j);
    forall k | 0 <= k < |s| ensures Keys(r)[k] == SwappedKeys(Keys(s), i, j)[k] {
      assert r[k] == At(r, k + 1);
    }
  }

  lemma ParentAt(s: seq<Node>, i: int)
    requires Linked(s) && 1 <= i <= |s|
    ensures At(s, i).parent == At(s, i / 2)
  {
    assert LinkedAt(s, i);
  }

  lemma ChildrenAt(s: seq<Node>, i: int)
    requires Linked(s) && 1 <= i <= |s|
    ensures At(s, i).left == At(s, 2 * i) && At(s, i).right == At(s, 2 * i + 1)
    ensures At(s, 2 * i) != At(s, i) && At(s, 2 * i + 1) != At(s, i)
  {
    assert LinkedAt(s, i);
  }

  class Heap {
    var min: Node?
    var nelts: nat
    ghost var s: seq<Node>
    ghost var all: set<Node>

    ghost predicate Shape()
      reads this, s`left, s`right, s`parent
    {
      nelts == |s| && min == At(s, 1) && Linked(s) && Holds(s, all)
    }

    /** A complete, consistently linked tree of the nodes in `all`, in heap order. */
    ghost predicate Sound()
      reads this, all`left, all`right, all`parent, all`timeout, all`startId
    {
      Holds(s, all) && Shape() && Ordered(Keys(s))
    }

    constructor ()
      ensures Sound() && all == {}
    {
      min, nelts, s, all := null, 0, [], {};
    }

    function Load(slot: Slot): Node?
      reads this, match slot { case Root => {} case LeftOf(n) => {n} case RightOf(n) => {n} }
    {
      match slot
      case Root => min
      case LeftOf(n) => n.left
      case RightOf(n) => n.right
    }

    method Store(slot: Slot, node: Node?)
      modifies this`min, (match slot { case Root => {} case LeftOf(n) => {n} case RightOf(n) => {n} })`left
      modifies (match slot { case Root => {} case LeftOf(n) => {n} case RightOf(n) => {n} })`right
      ensures min == if slot.Root? then node else old(min)
      ensures slot.LeftOf? ==> slot.owner.left == node && slot.owner.right == old(slot.owner.right)
      ensures slot.RightOf? ==> slot.owner.right == node && slot.owner.left == old(slot.owner.left)
    {
      match slot
      case Root => min := node;
      case LeftOf(n) => n.left := node;
      case RightOf(n) => n.right := node;
    }

    /** Follow the path to position `target`: the slot that links to it, and the slot before that. */
    method Traverse(target: nat) returns (before: Slot, slot: Slot)
      requires Shape() && 1 <= target <= |s| + 1
      ensures slot == SlotAt(s, target)
      ensures Load(before) == if target == 1 then At(s, 1) else At(s, target / 2)
    {
      var path, k := PathTo(target);
      before, slot := Root, Root;
      ghost var p := 1;
      while k > 0
        invariant 1 <= p <= target && Descend(p, path, k) == target
        invariant slot == SlotAt(s, p) && Load(before) == if p == 1 then At(s, 1) else At(s, p / 2)
      {
        DescendGrows(p, path, k);
        DescendGrows(2 * p + path % 2, path / 2, k - 1);
        LoadSlot(p);
        before := slot;
        if path % 2 == 1 {
          slot := RightOf(Load(slot));
        } else {
          slot := LeftOf(Load(slot));
        }
        p := 2 * p + path % 2;
        path, k := path / 2, k - 1;
      }
    }

    lemma LoadSlot(p: int)
      requires Shape() && 1 <= p <= |s| + 1
      ensures Load(SlotAt(s, p)) == At(s, p)
    {
      if p > 1 {
        assert LinkedAt(s, p / 2);
      }
    }

    /** Hang a new node into the first free position and let it rise. */
    method Insert(node: Node)
      requires Sound() && node !in all
      modifies this, all`left, all`right, all`parent, node`left, node`right, node`parent
      ensures Sound() && all == old(all) + {node}
    {
      hide Keys, LinkedAt, Linked, Ordered, Rising, SlotAt, Less;
      node.left, node.right, node.parent := null, null, null;
      var before, slot := Traverse(1 + nelts);
      Append(node, before, slot);
      AppendedRises(Keys(old(s)), node.Key());
      KeysAppend(old(s), node);
      SiftUp(node, |s|);
    }

    method Append(node: Node, before: Slot, slot: Slot)
      requires Shape() && node !in all && node.left == null && node.right == null
      requires slot == SlotAt(s, |s| + 1) && Load(before) == if |s| == 0 then At(s, 1) else At(s, (|s| + 1) / 2)
      modifies this, all`left, all`right, node`parent
      ensures Shape() && s == old(s) + [node] && all == old(all) + {node}
    {
      node.parent := Load(before);
      Store(slot, node);
      nelts := nelts + 1;
      ghost var was := s;
      s, all := s + [node], all + {node};
      forall i | 1 <= i <= |s| ensures LinkedAt(s, i) {
        if i < |s| {
          assert old(LinkedAt(s, i));
        }
      }
    }

    /** No node of the heap comes before this one. */
    ghost predicate IsMin(node: Node)
      reads this, all, node
    {
      node in all && forall n :: n in all ==> !Less(n.Key(), node.Key())
    }

    method Min() returns (node: Node?)
      requires Sound()
      ensures if node == null then all == {} else IsMin(node)
    {
      node := min;
      if node != null {
        assert s[0] in all;
        forall n | n in all ensures !Less(n.Key(), node.Key()) {
          var i := PositionOf(s, all, n);
          KeysAt(s, i);
          KeysAt(s, 1);
          RootIsLeast(Keys(s), i);
        }
      }
    }

    /** Take a node out: the last node takes its place and settles. */
    method Remove(node: Node)
      requires Sound() && (nelts > 0 ==> node in all)
      modifies this, all`left, all`right, all`parent
      ensures Sound() && all == old(all) - {node}
    {
      hide Keys, LinkedAt, Linked, Ordered, Sinking, Rising, SlotAt, Less, Distinct;
      if nelts == 0 {
        assert all == {};
        return;
      }
      ghost var pos := PositionOf(s, all, node);
      var _, slot := Traverse(nelts);
      var child := Unlink(slot);
      if child == node {
        KeysPrefix(old(s), |s|);
        PrefixOrdered(Keys(old(s)), |s|);
        assert child != min; // so the test for removing the root at this point never succeeds
        return;
      }
      Replace(node, child, pos);
      RemovedSinks(old(s), |s|, pos, child);
      Settle(child, pos);
    }

    method Settle(node: Node, ghost pos: int)
      requires Shape() && At(s, pos) == node && Sinking(Keys(s), pos)
      modifies this`min, this`s, all`left, all`right, all`parent
      ensures Sound()
    {
      hide Keys, Linked, Sinking, Rising, Ordered;
      ghost var at := SiftDown(node, pos);
      SiftUp(node, at);
    }

    /** Cut off the node at the last position. */
    method Unlink(slot: Slot) returns (child: Node)
      requires Shape() && |s| > 0 && slot == SlotAt(s, |s|)
      modifies this, all`left, all`right
      ensures Shape() && |s| == |old(s)| - 1 && s == old(s)[..|s|]
      ensures child == At(old(s), |s| + 1) && all == old(all) - {child}
    {
      LoadSlot(|s|);
      nelts := nelts - 1;
      child := Load(slot);
      Store(slot, null);
      s, all := s[..|s| - 1], all - {child};
      forall i | 1 <= i <= |s| ensures LinkedAt(s, i) {
        assert old(LinkedAt(s, i));
      }
    }

    /** Put `child` where `node` is. */
    method Replace(node: Node, child: Node, ghost pos: int)
      requires Shape() && At(s, pos) == node && child !in all
      modifies this, all`left, all`right, all`parent, child`left, child`right, child`parent
      ensures Shape() && s == old(s)[pos - 1 := child] && all == old(all) - {node} + {child}
    {
      hide AllLinked, Distinct, Holds;
      HoldsAt(s, all);
      ReplacedNodes(s, all, pos, child);
      ReplaceLinks(node, child, pos);
      s, all := s[pos - 1 := child], all - {node} + {child};
    }

    method ReplaceLinks(node: Node, child: Node, ghost pos: int)
      requires Linked(s) && Holds(s, all) && At(s, pos) == node && child !in all
      modifies this`min, all`left, all`right, all`parent, child`left, child`right, child`parent
      ensures min == if pos == 1 then child else old(min)
      ensures AllLinked(s[pos - 1 := child])
    {
      hide Holds, Distinct;
      Surroundings(s, pos);
      Apart(s, all, child);
      child.left := node.left;
      child.right := node.right;
      child.parent := node.parent;
      Adopt(child, child.left, child.right);
      Replant(node, child, node.parent);
      ghost var t := s[pos - 1 := child];
      forall i | 1 <= i <= |s| ensures LinkedAt(t, i) {
        assert old(LinkedAt(s, i));
        FarFrom(s, pos, pos, i);
      }
    }

    /** Move `node` towards the root while it comes before its parent. */
    method SiftUp(node: Node, ghost start: int)
      requires Shape() && At(s, start) == node && Rising(Keys(s), start)
      modifies this`min, this`s, all`left, all`right, all`parent
      ensures Shape() && Ordered(Keys(s))
    {
      hide Less, Linked, Keys, Rising, Swapped, Holds, SwappedKeys;
      ghost var pos := start;
      ParentAt(s, pos);
      while node.parent != null && Less(node.Key(), node.parent.Key())
        invariant Shape() && 1 <= pos <= |s| && At(s, pos) == node && Rising(Keys(s), pos)
        invariant node.parent == At(s, pos / 2)
        decreases pos
      {
        KeysAt(s, pos);
        KeysAt(s, pos / 2);
        RiseStep(Keys(s), pos);
        Swap(node.parent, node, pos / 2, pos);
        pos := pos / 2;
        ParentAt(s, pos);
      }
      KeysAt(s, pos);
      KeysAt(s, pos / 2);
      RisenIsOrdered(Keys(s), pos);
    }

    /** Move `node` away from the root while one of its children comes before it. */
    method SiftDown(node: Node, ghost start: int) returns (ghost pos: int)
      requires Shape() && At(s, start) == node && Sinking(Keys(s), start)
      modifies this`min, this`s, all`left, all`right, all`parent
      ensures Shape()
      ensures At(s, pos) == node && Rising(Keys(s), pos)
    {
      hide Less, Linked, Keys, Sinking, Rising, FirstChild, Swapped, Holds, SwappedKeys;
      pos := start;
      while true
        invariant Shape() && 1 <= pos <= |s| && At(s, pos) == node && Sinking(Keys(s), pos)
        decreases |s| - pos
      {
        var smallest, c := Smallest(node, pos);
        if smallest == node {
          break;
        }
        SinkStep(Keys(s), pos, c);
        Swap(node, smallest, pos, c);
        pos := c;
      }
    }

    /** The node or the child of it that should be on top of the three. */
    method Smallest(node: Node, ghost pos: int) returns (smallest: Node, ghost c: int)
      requires Shape() && At(s, pos) == node && Sinking(Keys(s), pos)
      ensures smallest == node ==> Rising(Keys(s), pos)
      ensures smallest != node ==> FirstChild(Keys(s), pos, c) && At(s, c) == smallest && pos < c <= |s| && pos == c / 2
    {
      hide Spanned, Linked, Keys;
      ChildrenAt(s, pos);
      KeysAt(s, pos);
      KeysAt(s, 2 * pos);
      KeysAt(s, 2 * pos + 1);
      smallest, c := node, pos;
      if node.left != null && Less(node.left.Key(), smallest.Key()) {
        smallest, c := node.left, 2 * pos;
      }
      if node.right != null && Less(node.right.Key(), smallest.Key()) {
        smallest, c := node.right, 2 * pos + 1;
      }
      if smallest == node {
        SunkIsRising(Keys(s), pos);
      } else {
        PickedIsFirst(Keys(s), pos, c);
      }
    }

    /** Exchange a parent with one of its children by rewriting the links around them. */
    method Swap(parent: Node, child: Node, ghost i: int, ghost j: int)
      requires Shape() && 1 <= i < j <= |s| && i == j / 2 && At(s, i) == parent && At(s, j) == child
      modifies this`min, this`s, all`left, all`right, all`parent
      ensures Shape() && s == Swapped(old(s), i, j) && |s| == |old(s)| && At(s, i) == child && At(s, j) == parent
      ensures Keys(s) == SwappedKeys(old(Keys(s)), i, j)
    {
      hide LinkedAt, Relinked, Keys, Distinct, Holds, SwappedKeys;
      assert Linked(s);
      SwapLinks(parent, child, i, j);
      RelinkedIsLinked(s, i, j);
      KeysSwapped(s, i, j);
      SwappedHolds(s, i, j, all);
      s := Swapped(s, i, j);
    }

    method SwapLinks(parent: Node, child: Node, ghost i: int, ghost j: int)
      requires Linked(s) && Holds(s, all) && 1 <= i < j <= |s| && i == j / 2 && At(s, i) == parent && At(s, j) == child
      modifies this`min, all`left, all`right, all`parent
      ensures min == if i == 1 then child else old(min)
      ensures forall k :: 1 <= k <= |s| ==> Relinked(s, i, j, k)
    {
      ghost var u, l, r, cl, cr := At(s, i / 2), At(s, 2 * i), At(s, 2 * i + 1), At(s, 2 * j), At(s, 2 * j + 1);
      Neighbourhood(s, i, j);
      Exchange(parent, child, u, l, r, cl, cr);
      forall k | 1 <= k <= |s| ensures Relinked(s, i, j, k) {
        assert old(LinkedAt(s, k));
        FarFrom(s, i, j, k);
      }
    }

    /** The pointer work of a swap, for a parent and a child with the nodes around them. */
    method Exchange(parent: Node, child: Node, ghost u: Node?, ghost l: Node?, ghost r: Node?, ghost cl: Node?,
        ghost cr: Node?)
      requires Around(parent, child, u, l, r, cl, cr)
      modifies this`min, ({parent, child, u} - {null})`left, ({parent, child, u} - {null})`right
      modifies ({parent, child, l, r, cl, cr} - {null})`parent
      ensures min == if u == null then child else old(min)
      ensures parent.left == cl && parent.right == cr && parent.parent == child
      ensures child.left == (if l == child then parent else l) && child.right == (if r == child then parent else r)
      ensures child.parent == u
      ensures u != null ==> u.left == (if old(u.left) == parent then child else old(u.left))
      ensures u != null ==> u.right == (if old(u.right) == parent then child else old(u.right))
      ensures l != null && l != child ==> l.parent == child
      ensures r != null && r != child ==> r.parent == child
      ensures cl != null ==> cl.parent == parent
      ensures cr != null ==> cr.parent == parent
    {
      Trade(parent, child, l, r);
      Adopt(parent, parent.left, parent.right);
      Replant(parent, child, child.parent);
    }

    /** Parent and child exchange their links; the child becomes the parent of the old parent and of its other child. */
    method Trade(parent: Node, child: Node, ghost l: Node?, ghost r: Node?)
      requires parent != child && parent.left == l && parent.right == r && (l == child) != (r == child) && l != parent
      requires r != parent
      modifies {parent, child}`left, {parent, child}`right, ({parent, child, l, r} - {null})`parent
      ensures parent.left == old(child.left) && parent.right == old(child.right) && parent.parent == child
      ensures child.left == (if l == child then parent else l) && child.right == (if r == child then parent else r)
      ensures child.parent == old(parent.parent)
      ensures l != null && l != child ==> l.parent == child
      ensures r != null && r != child ==> r.parent == child
    {
      var left, right, up := parent.left, parent.right, parent.parent;
      parent.left, parent.right, parent.parent := child.left, child.right, child.parent;
      child.left, child.right, child.parent := left, right, up;

      parent.parent := child;
      var sibling;
      if child.left == child {
        child.left := parent;
        sibling := child.right;
      } else {
        child.right := parent;
        sibling := child.left;
      }
      if sibling != null {
        sibling.parent := child;
      }
    }

    /** A node becomes the parent of its children. */
    method Adopt(n: Node, left: Node?, right: Node?)
      requires n != left && n != right && n.left == left && n.right == right
      modifies ({left, right} - {null})`parent
      ensures left != null ==> left.parent == n
      ensures right != null ==> right.parent == n
    {
      if n.left != null {
        n.left.parent := n;
      }
      if n.right != null {
        n.right.parent := n;
      }
    }

    /** `to` takes the place of `from` below the node `up`, or as the root. */
    method Replant(from: Node, to: Node, up: Node?)
      requires up != null ==> (up.left == from) != (up.right == from)
      modifies this`min, ({up} - {null})`left, ({up} - {null})`right
      ensures min == if up == null then to else old(min)
      ensures up != null ==> up.left == (if old(up.left) == from then to else old(up.left))
      ensures up != null ==> up.right == (if old(up.right) == from then to else old(up.right))
    {
      if up == null {
        min := to;
      } else if up.left == from {
        up.left := to;
      } else {
        up.right := to;
      }
    }
  }

  /** The nodes linked to a parent and its child are different ones, as far as they exist. */
  ghost predicate Around(parent: Node, child: Node, u: Node?, l: Node?, r: Node?, cl: Node?, cr: Node?)
    reads parent, u, child
  {
    && parent.parent == u && parent.left == l && parent.right == r && child.left == cl && child.right == cr
    && parent != child && child.parent == parent && (l == child) != (r == child)
    && u != parent && u != child && l != parent && r != parent
    && cl != parent && cl != child && cr != parent && cr != child
    && (u != null ==> u != l && u != r && u != cl && u != cr && (u.left == parent) != (u.right == parent))
    && (l != null ==> l != cl && l != cr) && (r != null ==> r != cl && r != cr) && (cl != null ==> cl != cr)
  }

  lemma Neighbourhood(s: seq<Node>, i: int, j: int)
    requires Linked(s) && 1 <= i < j <= |s| && i == j / 2
    ensures Around(At(s, i), At(s, j), At(s, i / 2), At(s, 2 * i), At(s, 2 * i + 1), At(s, 2 * j), At(s, 2 * j + 1))
  {
    assert LinkedAt(s, i) && LinkedAt(s, j);
    if i > 1 {
      assert LinkedAt(s, i / 2);
    }
  }

  /** A node, its children and its parent are linked both ways and are different nodes. */
  lemma Surroundings(s: seq<Node>, i: int)
    requires Linked(s) && 1 <= i <= |s|
    ensures LinkedAt(s, i)
    ensures i > 1 ==> (At(s, i / 2).left == At(s, i)) != (At(s, i / 2).right == At(s, i))
    ensures At(s, i / 2) != At(s, i) && At(s, 2 * i) != At(s, i) && At(s, 2 * i + 1) != At(s, i)
  {
    assert LinkedAt(s, i);
    if i > 1 {
      assert LinkedAt(s, i / 2);
    }
  }

  lemma HoldsAt(s: seq<Node>, all: set<Node>)
    requires Holds(s, all)
    ensures forall n :: n in s <==> n in all
  {
  }

  lemma ReplacedNodes(s: seq<Node>, all: set<Node>, pos: int, child: Node)
    requires Distinct(s) && Holds(s, all) && 1 <= pos <= |s| && child !in all
    ensures Distinct(s[pos - 1 := child]) && Holds(s[pos - 1 := child], all - {At(s, pos)} + {child})
  {
    var r := s[pos - 1 := child];
    assert child in r by {
      assert r[pos - 1] == child;
    }
    forall n | n in all && n != At(s, pos) ensures n in r {
      var i := PositionOf(s, all, n);
      assert r[i - 1] == n;
    }
  }

  /** A node at none of the positions around a swap is none of the nodes around it. */
  lemma FarFrom(s: seq<Node>, i: int, j: int, k: int)
    requires Distinct(s) && 1 <= k <= |s|
    ensures k != i ==> At(s, k) != At(s, i)
    ensures k != j ==> At(s, k) != At(s, j)
    ensures k != i / 2 ==> At(s, k) != At(s, i / 2)
    ensures k != 2 * i ==> At(s, k) != At(s, 2 * i)
    ensures k != 2 * i + 1 ==> At(s, k) != At(s, 2 * i + 1)
    ensures k != 2 * j ==> At(s, k) != At(s, 2 * j)
    ensures k != 2 * j + 1 ==> At(s, k) != At(s, 2 * j + 1)
  {
  }

  lemma SwappedHolds(s: seq<Node>, i: int, j: int, all: set<Node>)
    requires 1 <= i <= |s| && 1 <= j <= |s| && Holds(s, all)
    ensures Holds(Swapped(s, i, j), all)
  {
    var r := Swapped(s, i, j);
    forall k | 0 <= k < |s| ensures r[k] in s && s[k] in r {
      assert r[j - 1] == s[i - 1] && r[i - 1] == s[j - 1];
      assert k != i - 1 && k != j - 1 ==> r[k] == s[k];
    }
  }
}
