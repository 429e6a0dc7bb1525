/** Building a block. */
module BlockBuilders {
  import opened Basics
  import opened Coding
  import opened BlockFormat

  /** The data, the restart points, and how many there are. */
  function Contents(data: seq<Byte>, restarts: seq<nat>): (r: seq<Byte>) {
    data + Words(restarts + [|restarts|])
  }

  /** Contents that the builder makes of some entries. */
  ghost predicate HoldsBlock(contents: seq<Byte>, es: seq<KeyValue>) {
    exists data, p, restarts :: IsMade(contents, data, p, restarts) && p.entries == es
  }

  ghost predicate IsMade(contents: seq<Byte>, data: seq<Byte>, p: Plan, restarts: seq<nat>) {
    contents == Contents(data, restarts) && Layout(data, p, restarts)
  }

  class BlockBuilder {
    const interval: nat
    var buffer: seq<Byte>
    var restarts: seq<nat>
    var counter: nat
    var lastKey: seq<Byte>
    ghost var plan: Plan

    /** Restart points are exactly `interval` entries apart. */
    ghost predicate Valid()
      reads this
    {
      && interval >= 1 && Layout(buffer, plan, restarts)
      && counter <= interval && plan.firsts[|plan.firsts| - 1] + counter == |plan.entries|
      && (forall r :: 0 < r < |plan.firsts| ==> plan.firsts[r] == plan.firsts[r - 1] + interval)
      && lastKey == if plan.entries == [] then [] else plan.entries[|plan.entries| - 1].key
    }

    constructor (interval: nat)
      requires interval >= 1
      ensures Valid() && this.interval == interval && plan.entries == []
    {
      this.interval := interval;
      buffer, restarts, counter, lastKey := [], [0], 0, [];
      plan := Plan([], [], [], [0]);
    }

    method Reset()
      requires Valid()
      modifies this
      ensures Valid() && plan.entries == []
    {
      buffer, restarts, counter, lastKey := [], [0], 0, [];
      plan := Plan([], [], [], [0]);
    }

    /** How long the block would be if it were finished now. */
    function CurrentSizeEstimate(): (r: nat)
      reads this
      ensures r == |Contents(buffer, restarts)|
    {
      |buffer| + 4 * |restarts| + 4
    }

    predicate Empty()
      requires Valid()
      reads this
      ensures Empty() <==> plan.entries == []
    {
      EmptyData(buffer, plan, restarts);
      buffer == []
    }

    method Add(key: seq<Byte>, value: seq<Byte>)
      requires Valid()
      modifies this
      ensures Valid() && plan.entries == old(plan.entries) + [KeyValue(key, value)]
      ensures |plan.shared| == |old(plan.shared)| + 1 && old(plan.shared) <= plan.shared
      ensures var shared := plan.shared[|old(plan.shared)|];
        if old(counter) < interval then IsCommonPrefix(old(lastKey), key, shared) else shared == 0
    {
      hide Layout, EntryBytes;
      SameCount(buffer, plan, restarts);
      var shared := 0;
      var restart := counter >= interval;
      assert restart ==> plan.entries != [];
      ghost var restarts0 := restarts;
      if !restart {
        shared := CommonPrefix(lastKey, key);
      } else {
        restarts := restarts + [|buffer|];
        counter := 0;
      }
      var e := KeyValue(key, value);
      GrownLayout(buffer, plan, restarts0, shared, e, restart);
      plan := Grown(plan, buffer, shared, e, restart);
      buffer := buffer + EntryBytes(shared, e);
      assert lastKey[..shared] + key[shared..] == key;
      lastKey := lastKey[..shared] + key[shared..];
      counter := counter + 1;
    }

    method Finish() returns (contents: seq<Byte>)
      requires Valid()
      ensures contents == Contents(buffer, restarts) && HoldsBlock(contents, plan.entries)
    {
      contents := buffer;
      for i := 0 to |restarts|
        invariant contents == buffer + Words(restarts[..i])
      {
        assert restarts[..i + 1][..i] == restarts[..i];
        contents := contents + EncodeFixed32(restarts[i] % TwoTo32);
      }
      assert (restarts + [|restarts|])[..|restarts|] == restarts == restarts[..|restarts|];
      contents := contents + EncodeFixed32(|restarts| % TwoTo32);
      assert IsMade(contents, buffer, plan, restarts);
    }
  }

  /** The keys agree in the first `n` bytes and no further. */
  predicate IsCommonPrefix(a: seq<Byte>, b: seq<Byte>, n: nat) {
    && n <= |a| && n <= |b| && a[..n] == b[..n]
    && (n < |a| && n < |b| ==> a[n] != b[n])
  }

  /** How far two keys agree. */
  method CommonPrefix(a: seq<Byte>, b: seq<Byte>) returns (shared: nat)
    ensures IsCommonPrefix(a, b, shared)
  {
    var minLength := if |a| < |b| then |a| else |b|;
    shared := 0;
    while shared < minLength && a[shared] == b[shared]
      invariant shared <= minLength && a[..shared] == b[..shared]
    {
      shared := shared + 1;
    }
  }

  lemma EmptyData(data: seq<Byte>, p: Plan, restarts: seq<nat>)
    requires Layout(data, p, restarts)
    ensures data == [] <==> p.entries == []
  {
    if p.entries != [] {
      assert EntryOk(data, p, 0);
    }
  }

  lemma SameCount(data: seq<Byte>, p: Plan, restarts: seq<nat>)
    requires Layout(data, p, restarts)
    ensures |p.firsts| == |restarts| > 0
  {
  }
}
