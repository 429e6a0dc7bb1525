/**
  The iterator over a finished block: a cursor that decodes entries forward, finds its way back
  through restart points, and seeks by binary search over them.
 */
module BlockIters {
  import opened Basics
  import opened Coding
  import opened BlockFormat
  import opened BlockBuilders

  type Order = (seq<Byte>, seq<Byte>) -> bool

  ghost predicate Transitive(less: Order) {
    forall a, b, c :: less(a, b) && less(b, c) ==> less(a, c)
  }

  ghost predicate SortedKeys(less: Order, es: seq<KeyValue>) {
    forall i, j :: 0 <= i < j < |es| ==> less(es[i].key, es[j].key)
  }

  /** Position of the first entry whose key is not before `target`. */
  ghost function FirstNotBefore(less: Order, es: seq<KeyValue>, target: seq<Byte>): (i: nat)
    ensures i <= |es|
    ensures forall j :: 0 <= j < i ==> less(es[j].key, target)
    ensures i < |es| ==> !less(es[i].key, target)
  {
    if es == [] || !less(es[0].key, target) then 0 else 1 + FirstNotBefore(less, es[1..], target)
  }

  lemma FoundFirst(less: Order, es: seq<KeyValue>, target: seq<Byte>, i: nat)
    requires Transitive(less) && SortedKeys(less, es) && i <= |es|
    requires i > 0 ==> less(es[i - 1].key, target)
    requires i < |es| ==> !less(es[i].key, target)
    ensures i == FirstNotBefore(less, es, target)
  {
    var j := FirstNotBefore(less, es, target);
  }

  /** What the reader of a block relies on. */
  ghost predicate IsBlock(contents: seq<Byte>, data: seq<Byte>, p: Plan, restarts: seq<nat>) {
    contents == Contents(data, restarts) && |contents| < TwoTo32 && Layout(data, p, restarts)
  }

  lemma RestartWord(contents: seq<Byte>, data: seq<Byte>, p: Plan, restarts: seq<nat>, r: nat)
    requires IsBlock(contents, data, p, restarts) && r <= |restarts|
    ensures WordOf(contents, |data| + 4 * r) == if r < |restarts| then restarts[r] else |restarts|
  {
    hide Words, EncodeFixed32, DecodeFixed32, EntryBytes;
    var ws, o := restarts + [|restarts|], |data| + 4 * r;
    WordAt(ws, r);
    assert contents[o..o + 4] == Words(ws)[4 * r..4 * r + 4];
    if r < |restarts| {
      RestartInData(data, p, restarts, r);
    }
    Fixed32RoundTrip(ws[r]);
  }

  lemma RestartInData(data: seq<Byte>, p: Plan, restarts: seq<nat>, r: nat)
    requires Layout(data, p, restarts) && r < |restarts|
    ensures restarts[r] <= |data| && p.firsts[r] <= |p.entries| && restarts[r] == OffsetOf(data, p, p.firsts[r])
    ensures p.firsts[r] < |p.entries| ==> p.shared[p.firsts[r]] == 0
    ensures r == 0 ==> p.firsts[r] == 0
    ensures r > 0 ==> p.firsts[r] < |p.entries|
  {
    assert RestartOk(data, p, restarts, r);
    if p.firsts[r] < |p.entries| {
      assert EntryOk(data, p, p.firsts[r]);
    }
  }

  /** Decoding at the offset of an entry finds that entry, given the key before it. */
  lemma DecodesEntry(contents: seq<Byte>, data: seq<Byte>, p: Plan, restarts: seq<nat>, i: nat)
    requires IsBlock(contents, data, p, restarts) && i < |p.entries|
    ensures p.offsets[i] < OffsetOf(data, p, i + 1) <= |data| && p.shared[i] <= |p.entries[i].key|
    ensures var h := DecodeEntry(contents[p.offsets[i]..|data|]); var e := p.entries[i];
      && h.Some? && h.value.shared == p.shared[i] && h.value.nonShared == |e.key| - p.shared[i]
      && h.value.valueLength == |e.value|
      && h.value.nonShared + h.value.valueLength <= |h.value.rest|
      && h.value.rest[..h.value.nonShared] == e.key[p.shared[i]..]
      && h.value.rest[h.value.nonShared..h.value.nonShared + h.value.valueLength] == e.value
      && |data| - |h.value.rest| + h.value.nonShared + h.value.valueLength == OffsetOf(data, p, i + 1)
  {
    assert EntryOk(data, p, i);
    var a, b, e := p.offsets[i], OffsetOf(data, p, i + 1), p.entries[i];
    var rest := data[b..];
    EntryLength(p.shared[i], e);
    assert |data[a..b]| == b - a;
    assert contents[a..|data|] == data[a..b] + rest;
    KeyFits(data, p, restarts, i);
    hide EntryBytes, DecodeEntry;
    EntryReads(p.shared[i], e, rest);
    var all := e.key[p.shared[i]..] + e.value + rest;
    assert all[..|e.key| - p.shared[i]] == e.key[p.shared[i]..];
    assert all[|e.key| - p.shared[i]..|e.key| - p.shared[i] + |e.value|] == e.value;
  }

  /** A key is no longer than the data up to it, however much of it is shared. */
  lemma {:induction false} KeyFits(data: seq<Byte>, p: Plan, restarts: seq<nat>, i: nat)
    requires Layout(data, p, restarts) && i < |p.entries|
    ensures |p.entries[i].key| <= OffsetOf(data, p, i + 1) <= |data|
  {
    hide EntryBytes;
    assert EntryOk(data, p, i);
    EntryLength(p.shared[i], p.entries[i]);
    assert |data[OffsetOf(data, p, i)..OffsetOf(data, p, i + 1)]| == OffsetOf(data, p, i + 1) - OffsetOf(data, p, i);
    if p.shared[i] > 0 {
      KeyFits(data, p, restarts, i - 1);
    }
  }

  lemma EntryLength(shared: nat, e: KeyValue)
    requires shared <= |e.key|
    ensures |EntryBytes(shared, e)| >= |e.key| - shared + |e.value| + 3
  {
  }

  /** The number of entries that begin before an offset grows with the offset. */
  lemma {:induction false} OffsetsIncrease(data: seq<Byte>, p: Plan, restarts: seq<nat>, i: nat, j: nat)
    requires Layout(data, p, restarts) && i < j <= |p.entries|
    ensures OffsetOf(data, p, i) < OffsetOf(data, p, j)
    decreases j - i
  {
    assert EntryOk(data, p, j - 1);
    if i < j - 1 {
      OffsetsIncrease(data, p, restarts, i, j - 1);
    }
  }

  class BlockIter {
    const less: Order
    const contents: seq<Byte>
    const restartsAt: nat
    const numRestarts: nat
    var current: nat
    var restartIndex: nat
    var nextOffset: nat
    var key: seq<Byte>
    var value: seq<Byte>
    ghost const p: Plan
    ghost const restarts: seq<nat>
    ghost var at: nat

    ghost function Data(): seq<Byte>
      requires restartsAt <= |contents|
    {
      contents[..restartsAt]
    }

    ghost predicate Opened() {
      && restartsAt <= |contents| && IsBlock(contents, Data(), p, restarts) && numRestarts == |restarts|
      && Transitive(less) && SortedKeys(less, p.entries)
    }

    /** The cursor is at entry `at`, or at none when that is the number of entries. */
    ghost predicate Valid()
      reads this
    {
      && Opened() && at <= |p.entries|
      && (at == |p.entries| ==> current == restartsAt)
      && (at < |p.entries| ==>
            && restartIndex < numRestarts && current == p.offsets[at] && nextOffset == OffsetOf(Data(), p, at + 1)
            && key == p.entries[at].key && value == p.entries[at].value)
    }

    /** The next entry to be decoded is entry `i`, and the part of its key that is shared is known. */
    ghost predicate Ready(i: nat)
      reads this
    {
      && Opened() && i <= |p.entries| && restartIndex < numRestarts && nextOffset == OffsetOf(Data(), p, i)
      && (i < |p.entries| ==>
        p.shared[i] <= |key| && p.shared[i] <= |p.entries[i].key|
          && key[..p.shared[i]] == p.entries[i].key[..p.shared[i]])
    }

    /** Open a finished block: the number of restart points is its last word. */
    constructor (less: Order, contents: seq<Byte>, ghost data: seq<Byte>, ghost p: Plan, ghost restarts: seq<nat>)
      requires IsBlock(contents, data, p, restarts) && Transitive(less) && SortedKeys(less, p.entries)
      ensures Valid() && this.p == p && at == |p.entries| && this.less == less
    {
      RestartWord(contents, data, p, restarts, |restarts|);
      assert |contents| == |data| + 4 * |restarts| + 4;
      assert contents[..|data|] == data;
      var num := WordOf(contents, |contents| - 4);
      this.less, this.contents := less, contents;
      numRestarts, restartsAt := num, |contents| - 4 * (1 + num);
      current, restartIndex, nextOffset := |contents| - 4 * (1 + num), num, 0;
      key, value := [], [];
      this.p, this.restarts, at := p, restarts, |p.entries|;
    }

    method GetRestartPoint(r: nat) returns (o: nat)
      requires Opened() && r < numRestarts
      ensures o == restarts[r]
    {
      RestartWord(contents, Data(), p, restarts, r);
      o := WordOf(contents, restartsAt + 4 * r);
    }

    method SeekToRestartPoint(r: nat)
      requires Opened() && r < numRestarts
      modifies this
      ensures r < |p.firsts| && Ready(p.firsts[r]) && restartIndex == r
    {
      key := [];
      restartIndex := r;
      nextOffset := GetRestartPoint(r);
      RestartInData(Data(), p, restarts, r);
    }

    /** Decode the next entry, if there is one. */
    method ParseNextKey(ghost i: nat) returns (more: bool)
      requires Ready(i)
      modifies this
      ensures Valid() && at == i && more == (i < |p.entries|)
      ensures more ==> Ready(i + 1)
    {
      at := i;
      current := nextOffset;
      NotPastEnd(Data(), p, restarts, i);
      if current >= restartsAt {
        current := restartsAt;
        restartIndex := numRestarts;
        return false;
      }
      DecodesEntry(contents, Data(), p, restarts, i);
      var h := DecodeEntry(contents[current..restartsAt]);
      assert h.Some? && h.value.shared <= |key|; // so the block is not reported as corrupt
      var header := h.value;
      assert p.entries[i].key == p.entries[i].key[..p.shared[i]] + p.entries[i].key[p.shared[i]..];
      key := key[..header.shared] + header.rest[..header.nonShared];
      value := header.rest[header.nonShared..header.nonShared + header.valueLength];
      nextOffset := restartsAt - |header.rest| + header.nonShared + header.valueLength;
      SharesWithPrevious(Data(), p, restarts, i);
      AdvanceRestartIndex();
      return true;
    }

    method AdvanceRestartIndex()
      requires Opened() && restartIndex < numRestarts
      modifies this`restartIndex
      ensures restartIndex < numRestarts
    {
      while restartIndex + 1 < numRestarts
        invariant restartIndex < numRestarts
        decreases numRestarts - restartIndex
      {
        var o := GetRestartPoint(restartIndex + 1);
        if o >= current {
          break;
        }
        restartIndex := restartIndex + 1;
      }
    }

    method SeekToFirst()
      requires Valid()
      modifies this
      ensures Valid() && at == 0
    {
      HasRestart();
      SeekToRestartPoint(0);
      RestartInData(Data(), p, restarts, 0);
      var _ := ParseNextKey(0);
    }

    method Next()
      requires Valid() && at < |p.entries|
      modifies this
      ensures Valid() && at == old(at) + 1
    {
      SharesWithPrevious(Data(), p, restarts, at);
      var _ := ParseNextKey(at + 1);
    }

    method SeekToLast()
      requires Valid()
      modifies this
      ensures Valid() && at == if |p.entries| == 0 then 0 else |p.entries| - 1
    {
      HasRestart();
      SeekToRestartPoint(numRestarts - 1);
      RestartInData(Data(), p, restarts, numRestarts - 1);
      ghost var i := p.firsts[numRestarts - 1];
      var more := ParseNextKey(i);
      while more && nextOffset < restartsAt
        invariant Valid() && at == i && i <= |p.entries| && more == (i < |p.entries|) && (more ==> Ready(i + 1))
        invariant i == |p.entries| ==> i == 0
        decreases |p.entries| - i
      {
        NotPastEnd(Data(), p, restarts, i + 1);
        i := i + 1;
        more := ParseNextKey(i);
      }
      if more {
        NotPastEnd(Data(), p, restarts, i + 1);
      }
    }

    /** Back to a restart point before the current entry, and forward to the entry before it. */
    method Prev()
      requires Valid() && at < |p.entries|
      modifies this
      ensures Valid() && at == if old(at) == 0 then |p.entries| else old(at) - 1
    {
      hide Layout;
      OpenedMeans();
      var original := current;
      ghost var was := at;
      var found := BackToRestart(original, was);
      if !found {
        current := restartsAt;
        restartIndex := numRestarts;
        at := |p.entries|;
        return;
      }
      ghost var i := p.firsts[restartIndex];
      SeekToRestartPoint(restartIndex);
      var more := ParseNextKey(i);
      while more && nextOffset < original
        invariant Valid() && at == i < was < |p.entries| && more && Ready(i + 1)
        decreases was - i
      {
        SameOrder(Data(), p, restarts, i + 1, was);
        i := i + 1;
        more := ParseNextKey(i);
      }
      SameOrder(Data(), p, restarts, i + 1, was);
    }

    /** Go back to the last restart point before an offset; there is none only for the first entry. */
    method BackToRestart(original: nat, ghost was: nat) returns (found: bool)
      requires Opened() && was < |p.entries| && was < |p.offsets| && original == p.offsets[was]
      requires restartIndex < numRestarts
      modifies this`restartIndex
      ensures found == (was > 0) && restartIndex < numRestarts && restartIndex < |p.firsts|
      ensures found ==> p.firsts[restartIndex] < was
    {
      hide Layout;
      HasRestart();
      var o := GetRestartPoint(restartIndex);
      while o >= original
        invariant restartIndex < numRestarts && o == restarts[restartIndex]
        decreases restartIndex
      {
        if restartIndex == 0 {
          OffsetsIncreaseFrom0(Data(), p, restarts, was);
          return false;
        }
        restartIndex := restartIndex - 1;
        o := GetRestartPoint(restartIndex);
      }
      RestartInData(Data(), p, restarts, restartIndex);
      SameOrder(Data(), p, restarts, p.firsts[restartIndex], was);
      return true;
    }

    lemma OpenedMeans()
      requires Opened()
      ensures |p.offsets| == |p.entries| && |p.firsts| == numRestarts
    {
    }

    /** The key at a restart point, decoded on its own. */
    method RestartKey(r: nat) returns (k: seq<Byte>)
      requires Opened() && r < numRestarts && r < |p.firsts| && p.firsts[r] < |p.entries|
      ensures k == p.entries[p.firsts[r]].key
    {
      var o := GetRestartPoint(r);
      RestartInData(Data(), p, restarts, r);
      DecodesEntry(contents, Data(), p, restarts, p.firsts[r]);
      var h := DecodeEntry(contents[o..restartsAt]);
      assert h.Some? && h.value.shared == 0; // so the block is not reported as corrupt
      k := h.value.rest[..h.value.nonShared];
    }

    /** The last restart point before the target, by binary search, or the first restart point. */
    method FindRestart(target: seq<Byte>) returns (left: nat)
      requires Opened()
      ensures left < numRestarts && left < |p.firsts| && p.firsts[left] <= |p.entries|
      ensures p.firsts[left] > 0 ==> p.firsts[left] < |p.entries| && less(p.entries[p.firsts[left]].key, target)
      ensures left == 0 ==> p.firsts[left] == 0
    {
      HasRestart();
      left := 0;
      var right := numRestarts - 1;
      RestartInData(Data(), p, restarts, 0);
      while left < right
        invariant left <= right < numRestarts == |p.firsts|
        invariant left > 0 ==> p.firsts[left] < |p.entries| && less(p.entries[p.firsts[left]].key, target)
      {
        var mid := (left + right + 1) / 2;
        RestartInData(Data(), p, restarts, mid);
        var k := RestartKey(mid);
        if less(k, target) {
          left := mid;
        } else {
          right := mid - 1;
        }
      }
    }

    /** To the first entry whose key is not before the target. */
    method Seek(target: seq<Byte>)
      requires Valid()
      modifies this
      ensures Valid() && at == FirstNotBefore(less, p.entries, target)
    {
      hide IsBlock;
      var left := FindRestart(target);
      ghost var i := p.firsts[left];
      SeekToRestartPoint(left);
      ghost var first := i;
      while true
        invariant Ready(i) && first <= i <= |p.entries|
        invariant i > first ==> less(p.entries[i - 1].key, target)
        invariant first > 0 ==> first < |p.entries| && less(p.entries[first].key, target)
        decreases |p.entries| - i
      {
        var more := ParseNextKey(i);
        if !more || !less(key, target) {
          if 0 < i == first {
            assert false;
          }
          FoundFirst(less, p.entries, target, i);
          return;
        }
        i := i + 1;
      }
    }

    lemma HasRestart()
      requires Opened()
      ensures numRestarts > 0 && numRestarts == |p.firsts|
    {
    }
  }

  lemma OffsetsIncreaseFrom0(data: seq<Byte>, p: Plan, restarts: seq<nat>, i: nat)
    requires Layout(data, p, restarts) && i < |p.entries| && i < |p.offsets| && |restarts| > 0
    requires restarts[0] >= p.offsets[i]
    ensures i == 0
  {
    RestartInData(data, p, restarts, 0);
    if i > 0 {
      OffsetsIncrease(data, p, restarts, 0, i);
    }
  }

  /** Entries and their offsets are in the same order. */
  lemma SameOrder(data: seq<Byte>, p: Plan, restarts: seq<nat>, i: nat, j: nat)
    requires Layout(data, p, restarts) && i <= |p.entries| && j <= |p.entries|
    ensures |p.offsets| == |p.entries|
    ensures OffsetOf(data, p, i) < OffsetOf(data, p, j) <==> i < j
  {
    if i < j {
      OffsetsIncrease(data, p, restarts, i, j);
    } else if j < i {
      OffsetsIncrease(data, p, restarts, j, i);
    }
  }

  lemma NotPastEnd(data: seq<Byte>, p: Plan, restarts: seq<nat>, i: nat)
    requires Layout(data, p, restarts) && i <= |p.entries|
    ensures OffsetOf(data, p, i) < |data| <==> i < |p.entries|
    ensures OffsetOf(data, p, i) <= |data|
  {
    if i < |p.entries| {
      assert EntryOk(data, p, i);
    }
  }

  /** Entry `i + 1` shares its prefix with entry `i`. */
  lemma SharesWithPrevious(data: seq<Byte>, p: Plan, restarts: seq<nat>, i: nat)
    requires Layout(data, p, restarts) && i < |p.entries|
    ensures i + 1 < |p.entries| ==>
      && p.shared[i + 1] <= |p.entries[i].key| && p.shared[i + 1] <= |p.entries[i + 1].key|
      && p.entries[i].key[..p.shared[i + 1]] == p.entries[i + 1].key[..p.shared[i + 1]]
  {
    if i + 1 < |p.entries| {
      assert EntryOk(data, p, i + 1);
    }
  }
}
