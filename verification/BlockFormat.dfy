/**
  The bytes of a block: entries whose keys share a prefix with the key before, restart points
  where they do not, and the array of restart points at the end.
 */
module BlockFormat {
  import opened Basics
  import opened Coding

  datatype KeyValue = KeyValue(key: seq<Byte>, value: seq<Byte>)

  // ----- one entry -----

  function EntryBytes(shared: nat, e: KeyValue): (r: seq<Byte>)
    requires shared <= |e.key|
  {
    Varint(shared) + Varint(|e.key| - shared) + Varint(|e.value|) + e.key[shared..] + e.value
  }

  /** The three lengths in front of an entry, and the bytes after them. */
  datatype Header = Header(shared: nat, nonShared: nat, valueLength: nat, rest: seq<Byte>)

  /**
    Decode the header of the entry at the start of `s`, with a short cut when all lengths take one
    byte.  Whether key and value are inside `s` is decided in 32-bit arithmetic.
   */
  function DecodeEntry(s: seq<Byte>): (r: Option<Header>)
    ensures r.Some? ==> |r.value.rest| < |s|
  {
    if |s| < 3 then None
    else
      var h :=
        if s[0] < 128 && s[1] < 128 && s[2] < 128 then Some(Header(s[0], s[1], s[2], s[3..]))
        else SlowHeader(s);
      if h.None? || !Enough(h.value) then None else h
  }

  /** The test for key and value being inside, in 32-bit arithmetic. */
  predicate Enough(h: Header) {
    |h.rest| % TwoTo32 >= (h.nonShared + h.valueLength) % TwoTo32
  }

  lemma EnoughBytes(h: Header)
    requires h.nonShared + h.valueLength <= |h.rest| < TwoTo32
    ensures Enough(h)
  {
  }

  /** In a block below 4 GB, whatever its bytes, an accepted entry is inside exactly if its two lengths do not wrap. */
  lemma InsideIffNoWrap(s: seq<Byte>)
    requires |s| < TwoTo32 && DecodeEntry(s).Some?
    ensures var h := DecodeEntry(s).value;
      h.nonShared + h.valueLength <= |h.rest| <==> h.nonShared + h.valueLength < TwoTo32
  {
  }

  /** Seven bytes that are accepted as an entry with a key of almost 4 GB. */
  lemma WrappedEntry()
    ensures var s := Varint(0) + Varint(0xffff_ffff) + Varint(1);
      |s| == 7 && DecodeEntry(s) == Some(Header(0, 0xffff_ffff, 1, []))
  {
    var s := Varint(0) + Varint(0xffff_ffff) + Varint(1);
    SlowHeaderReads(0, 0xffff_ffff, 1, []);
    assert s + [] == s;
    assert Varint(0) == [0] && Varint(1) == [1];
    FiveBytes();
    hide Varint, SlowHeader;
    assert s[1] == Varint(0xffff_ffff)[0];
  }

  lemma FiveBytes()
    ensures Varint(0xffff_ffff) == [255, 255, 255, 255, 15]
  {
    assert Varint(15) == [15] && Varint(2047) == [255] + Varint(15);
    assert Varint(0x3_ffff) == [255] + Varint(2047) && Varint(0x1ff_ffff) == [255] + Varint(0x3_ffff);
    assert Varint(0xffff_ffff) == [255] + Varint(0x1ff_ffff);
  }

  function SlowHeader(s: seq<Byte>): (r: Option<Header>)
    ensures r.Some? ==> |r.value.rest| < |s|
  {
    var a := GetVarint32(s, 0, 0);
    if a.Fail? then None
    else
      var b := GetVarint32(a.rest, 0, 0);
      if b.Fail? then None
      else
        var c := GetVarint32(b.rest, 0, 0);
        if c.Fail? then None else Some(Header(a.value, b.value, c.value, c.rest))
  }

  lemma SlowHeaderReads(a: nat, b: nat, c: nat, rest: seq<Byte>)
    requires a < TwoTo32 && b < TwoTo32 && c < TwoTo32
    ensures SlowHeader(Varint(a) + Varint(b) + Varint(c) + rest) == Some(Header(a, b, c, rest))
  {
    hide GetVarint32, Varint;
    var s := Varint(a) + Varint(b) + Varint(c) + rest;
    assert s == Varint(a) + (Varint(b) + (Varint(c) + rest));
    GetVarint32RoundTrip(a, Varint(b) + (Varint(c) + rest));
    GetVarint32RoundTrip(b, Varint(c) + rest);
    GetVarint32RoundTrip(c, rest);
  }

  lemma OneByte(v: nat)
    ensures v < 128 ==> Varint(v) == [v]
    ensures v >= 128 ==> Varint(v)[0] >= 128 && |Varint(v)| >= 2
  {
  }

  /** Either way of decoding reads back what was encoded. */
  lemma HeaderReads(a: nat, b: nat, c: nat, rest: seq<Byte>)
    requires a < TwoTo32 && b < TwoTo32 && c < TwoTo32 && b + c <= |rest| < TwoTo32
    ensures DecodeEntry(Varint(a) + Varint(b) + Varint(c) + rest) == Some(Header(a, b, c, rest))
  {
    hide Varint, SlowHeader, Enough;
    EnoughBytes(Header(a, b, c, rest));
    var s := Varint(a) + Varint(b) + Varint(c) + rest;
    SlowHeaderReads(a, b, c, rest);
    OneByte(a);
    OneByte(b);
    OneByte(c);
    if a < 128 && b < 128 && c < 128 {
      assert s == [a, b, c] + rest;
      assert s[3..] == rest;
    } else if a < 128 && b < 128 {
      assert s[2] == Varint(c)[0];
    } else if a < 128 {
      assert s[1] == Varint(b)[0];
    } else {
      assert s[0] == Varint(a)[0];
    }
  }

  lemma EntryReads(shared: nat, e: KeyValue, rest: seq<Byte>)
    requires shared <= |e.key| < TwoTo32 && |e.key| - shared + |e.value| + |rest| < TwoTo32
    ensures DecodeEntry(EntryBytes(shared, e) + rest) ==
      Some(Header(shared, |e.key| - shared, |e.value|, e.key[shared..] + e.value + rest))
  {
    hide Varint, DecodeEntry;
    var a, b, c := Varint(shared), Varint(|e.key| - shared), Varint(|e.value|);
    assert EntryBytes(shared, e) + rest == a + b + c + (e.key[shared..] + e.value + rest);
    HeaderReads(shared, |e.key| - shared, |e.value|, e.key[shared..] + e.value + rest);
  }

  // ----- a whole block -----

  /**
    How the data of a block is made up: where each entry begins, how much of its key it shares
    with the entry before, and which entries are restart points.
   */
  datatype Plan = Plan(entries: seq<KeyValue>, offsets: seq<nat>, shared: seq<nat>, firsts: seq<nat>)

  /** Where entry `i` begins, and where the data ends. */
  function OffsetOf(data: seq<Byte>, p: Plan, i: nat): (r: nat)
    requires i <= |p.offsets|
  {
    if i < |p.offsets| then p.offsets[i] else |data|
  }

  predicate EntryOk(data: seq<Byte>, p: Plan, i: nat)
    requires i < |p.entries| == |p.offsets| == |p.shared|
  {
    && OffsetOf(data, p, i) < OffsetOf(data, p, i + 1) <= |data|
    && p.shared[i] <= |p.entries[i].key|
    && data[OffsetOf(data, p, i)..OffsetOf(data, p, i + 1)] == EntryBytes(p.shared[i], p.entries[i])
    && (p.shared[i] > 0 ==>
          i > 0 && p.shared[i] <= |p.entries[i - 1].key|
            && p.entries[i - 1].key[..p.shared[i]] == p.entries[i].key[..p.shared[i]])
  }

  /** A restart point is the first entry, or an entry that shares nothing. */
  predicate RestartOk(data: seq<Byte>, p: Plan, restarts: seq<nat>, r: nat)
    requires r < |restarts| == |p.firsts| && |p.entries| == |p.offsets| == |p.shared|
  {
    && p.firsts[r] <= |p.entries| && (r > 0 ==> p.firsts[r - 1] < p.firsts[r] < |p.entries|)
    && (r == 0 ==> p.firsts[r] == 0)
    && restarts[r] == OffsetOf(data, p, p.firsts[r])
    && (p.firsts[r] < |p.entries| ==> p.shared[p.firsts[r]] == 0)
  }

  ghost predicate Layout(data: seq<Byte>, p: Plan, restarts: seq<nat>) {
    && |p.entries| == |p.offsets| == |p.shared| && |restarts| == |p.firsts| > 0
    && OffsetOf(data, p, 0) == 0
    && (forall i :: 0 <= i < |p.entries| ==> EntryOk(data, p, i))
    && forall r :: 0 <= r < |restarts| ==> RestartOk(data, p, restarts, r)
  }

  /** One more entry, at a new restart point or sharing a prefix with the last entry. */
  function Grown(p: Plan, data: seq<Byte>, shared: nat, e: KeyValue, restart: bool): (r: Plan) {
    Plan(p.entries + [e], p.offsets + [|data|], p.shared + [shared],
        if restart then p.firsts + [|p.entries|] else p.firsts)
  }

  lemma GrownLayout(data: seq<Byte>, p: Plan, restarts: seq<nat>, shared: nat, e: KeyValue, restart: bool)
    requires Layout(data, p, restarts) && shared <= |e.key| && (restart ==> shared == 0 && p.entries != [])
    requires shared > 0 ==> p.entries != [] && shared <= |p.entries[|p.entries| - 1].key|
                            && p.entries[|p.entries| - 1].key[..shared] == e.key[..shared]
    ensures Layout(data + EntryBytes(shared, e), Grown(p, data, shared, e, restart),
                   if restart then restarts + [|data|] else restarts)
  {
    hide EntryBytes;
    var data', p' := data + EntryBytes(shared, e), Grown(p, data, shared, e, restart);
    var restarts' := if restart then restarts + [|data|] else restarts;
    EntryNotEmpty(shared, e);
    forall i | 0 <= i < |p'.entries| ensures EntryOk(data', p', i) {
      if i < |p.entries| {
        assert EntryOk(data, p, i);
        assert OffsetOf(data', p', i + 1) == OffsetOf(data, p, i + 1);
        var a, b := OffsetOf(data, p, i), OffsetOf(data, p, i + 1);
        assert data'[a..b] == data[a..b];
      } else {
        assert data'[|data|..] == EntryBytes(shared, e);
      }
    }
    forall r | 0 <= r < |restarts'| ensures RestartOk(data', p', restarts', r) {
      if r < |restarts| {
        assert RestartOk(data, p, restarts, r);
        FirstSharesNothing(data, p, restarts);
      } else {
        assert RestartOk(data, p, restarts, r - 1);
        LastBeforeEnd(data, p, restarts, r - 1);
      }
    }
  }

  lemma EntryNotEmpty(shared: nat, e: KeyValue)
    requires shared <= |e.key|
    ensures |EntryBytes(shared, e)| >= 3
  {
  }

  lemma FirstSharesNothing(data: seq<Byte>, p: Plan, restarts: seq<nat>)
    requires Layout(data, p, restarts)
    ensures p.entries == [] ==> |p.firsts| == 1
  {
    if |p.firsts| > 1 {
      assert RestartOk(data, p, restarts, 1);
    }
  }

  lemma LastBeforeEnd(data: seq<Byte>, p: Plan, restarts: seq<nat>, r: nat)
    requires Layout(data, p, restarts) && p.entries != [] && r < |restarts|
    ensures p.firsts[r] < |p.entries|
  {
    assert RestartOk(data, p, restarts, r);
  }
}
