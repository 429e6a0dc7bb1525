/**
  Reading back any byte prefix of a log gives exactly the records that lie wholly inside the
  prefix, in order, with nothing reported as corrupt.
 */
module LogRoundTrip {
  import opened Basics
  import opened Coding
  import opened LogFormat
  import LogReader

  /** From offset `o` on, `log` holds the bytes `s`. */
  ghost predicate HoldsAt(log: seq<Byte>, o: nat, s: seq<Byte>) {
    o + |s| <= |log| && log[o..o + |s|] == s
  }

  lemma HoldsSplit(log: seq<Byte>, o: nat, s: seq<Byte>, t: seq<Byte>)
    requires HoldsAt(log, o, s + t)
    ensures HoldsAt(log, o, s) && HoldsAt(log, o + |s|, t)
  {
    var all := log[o..o + |s + t|];
    assert all[..|s|] == s && all[|s|..] == t;
    assert all[..|s|] == log[o..o + |s|] && all[|s|..] == log[o + |s|..o + |s| + |t|];
  }

  /** An intact physical record parses back from a buffer that starts with it, whatever its type byte. */
  lemma FramedParses(step: CrcStep, checksum: bool, buffer: seq<Byte>, short: bool, t: Byte, data: seq<Byte>)
    requires |data| <= 0xffff && Framed(step, t, data) <= buffer && (t > 0 || data != [])
    ensures LogReader.ParseBuffer(step, checksum, buffer, short) == LogReader.Piece(t, data)
  {
    var crc := EncodeFixed32(Mask(Extend(step, Value(step, [t]), data)));
    var rest: seq<Byte> := [|data| % 256, |data| / 256, t];
    var p := crc + rest + data;
    assert p == Framed(step, t, data) && p == buffer[..|p|];
    assert buffer[4] == rest[0] && buffer[5] == rest[1] && buffer[6] == rest[2];
    assert buffer[..4] == crc;
    assert buffer[6..HEADER_SIZE + |data|] == [t] + data;
    assert buffer[HEADER_SIZE..HEADER_SIZE + |data|] == data;
    ExtendValue(step, [t], data);
    UnmaskMask(Value(step, [t] + data));
    Fixed32RoundTrip(Mask(Value(step, [t] + data)));
  }

  lemma PhysicalParses(step: CrcStep, checksum: bool, buffer: seq<Byte>, short: bool, t: RecordType, data: seq<Byte>)
    requires |data| <= 0xffff && Physical(step, t, data) <= buffer
    ensures LogReader.ParseBuffer(step, checksum, buffer, short) == LogReader.Piece(TypeByte(t), data)
  {
    hide Framed, LogReader.ParseBuffer;
    FramedParses(step, checksum, buffer, short, TypeByte(t), data);
  }

  /** A physical record cut off after its header shows the length it should have had. */
  lemma TruncatedParses(step: CrcStep, checksum: bool, buffer: seq<Byte>, t: RecordType, data: seq<Byte>)
    requires |data| <= 0xffff && HEADER_SIZE <= |buffer| < HEADER_SIZE + |data| && buffer <= Physical(step, t, data)
    ensures LogReader.ParseBuffer(step, checksum, buffer, true) == LogReader.Unfinished
  {
    var p := Physical(step, t, data);
    assert buffer == p[..|buffer|];
    assert buffer[4] == p[4] && buffer[5] == p[5];
  }

  /** A physical record of at most one block lies inside the block of its offset. */
  lemma InsideBlock(file: seq<Byte>, a: nat, n: nat)
    requires a % BLOCK_SIZE <= BLOCK_SIZE - HEADER_SIZE && n <= Avail(a)
    ensures a + HEADER_SIZE + n <= a - a % BLOCK_SIZE + BLOCK_SIZE
    ensures a + HEADER_SIZE + n <= |file| ==> a + HEADER_SIZE + n <= LogReader.Limit(file, a)
    ensures |file| < a + HEADER_SIZE + n ==> LogReader.Limit(file, a) == |file| < a - a % BLOCK_SIZE + BLOCK_SIZE
  {
  }

  lemma SliceOfPrefix(log: seq<Byte>, cut: nat, a: nat, end: nat)
    requires a <= end <= cut <= |log|
    ensures log[..cut][a..end] == log[a..end]
  {
  }

  /** In a cut log, a fragment reads back if it lies before the cut; otherwise the file ends. */
  lemma FragmentRead(step: CrcStep, checksum: bool, log: seq<Byte>, cut: nat, o: nat, data: seq<Byte>, begin: bool)
    requires o <= cut <= |log| && HoldsAt(log, o, Fragment(step, o, data, begin))
    ensures var n := FragmentLength(Aligned(o), data);
            var next := o + |Fragment(step, o, data, begin)|;
            LogReader.PhysicalAt(step, checksum, log[..cut], o) ==
              if next <= cut then LogReader.Good(TypeByte(FragmentType(begin, n == |data|)), data[..n], next)
              else LogReader.Eof
  {
    var a := Aligned(o);
    var n := FragmentLength(a, data);
    var t, file := FragmentType(begin, n == |data|), log[..cut];
    var p := Physical(step, t, data[..n]);
    HoldsSplit(log, o, Zeros(a - o), p);
    InsideBlock(file, a, n);
    hide Aligned, FragmentLength, LogReader.ParseBuffer, Physical, Zeros, HoldsAt, LogReader.Limit, Fragment;
    if a + HEADER_SIZE <= cut {
      CutParses(step, checksum, log, cut, a, LogReader.Limit(file, a), a - a % BLOCK_SIZE + BLOCK_SIZE, t, data[..n]);
    }
  }

  /** What the rest of a block parses to when the log is cut. */
  lemma CutParses(step: CrcStep, checksum: bool, log: seq<Byte>, cut: nat, a: nat, end: nat, blockEnd: nat,
      t: RecordType, data: seq<Byte>)
    requires |data| <= 0xffff && HoldsAt(log, a, Physical(step, t, data)) && a + HEADER_SIZE <= end <= cut <= |log|
    requires a + HEADER_SIZE + |data| <= cut ==> a + HEADER_SIZE + |data| <= end
    requires cut < a + HEADER_SIZE + |data| ==> end == cut < blockEnd
    ensures LogReader.ParseBuffer(step, checksum, log[..cut][a..end], end < blockEnd) ==
            if a + HEADER_SIZE + |data| <= cut then LogReader.Piece(TypeByte(t), data) else LogReader.Unfinished
  {
    hide LogReader.ParseBuffer;
    var p, buffer := Physical(step, t, data), log[..cut][a..end];
    SliceOfPrefix(log, cut, a, end);
    if a + HEADER_SIZE + |data| <= cut {
      assert log[a..end][..|p|] == log[a..a + |p|];
      PhysicalParses(step, checksum, buffer, end < blockEnd, t, data);
    } else {
      assert log[a..end] == log[a..a + |p|][..|buffer|];
      TruncatedParses(step, checksum, buffer, t, data);
    }
  }

  /** In a cut log, a record reads back if it lies before the cut; otherwise nothing more does. */
  lemma {:induction false} RecordRead(step: CrcStep, checksum: bool, log: seq<Byte>, cut: nat, o: nat, data: seq<Byte>,
      begin: bool, scratch: seq<Byte>)
    requires o <= cut <= |log| && HoldsAt(log, o, Layout(step, o, data, begin)) && (begin ==> scratch == [])
    ensures LogReader.RecordAt(step, checksum, log[..cut], o, !begin, scratch) ==
              var next := o + |Layout(step, o, data, begin)|;
              if next <= cut then LogReader.Outcome(Some(scratch + data), next, 0)
              else LogReader.Outcome(None, cut, 0)
    decreases |data|, if Avail(Aligned(o)) == 0 then 1 else 0
  {
    hide Fragment, Layout, LogReader.PhysicalAt, LogReader.RecordAt, Aligned, Avail, FragmentLength, HoldsAt;
    var n := FragmentLength(Aligned(o), data);
    var head, file, t := Fragment(step, o, data, begin), log[..cut], FragmentType(begin, n == |data|);
    LayoutUnfold(step, o, data, begin);
    if n < |data| {
      HoldsSplit(log, o, head, Layout(step, o + |head|, data[n..], false));
    }
    FragmentRead(step, checksum, log, cut, o, data, begin);
    if o + |head| > cut {
      LogReader.EofStep(step, checksum, file, o, !begin, scratch);
    } else {
      LogReader.GoodStep(step, checksum, file, o, !begin, scratch, t, data[..n], o + |head|);
      assert scratch + data[..n] + data[n..] == scratch + data;
      if n < |data| {
        FragmentIsAll(o, data);
        RecordRead(step, checksum, log, cut, o + |head|, data[n..], false, scratch + data[..n]);
      } else {
        assert data[..n] == data;
      }
    }
  }

  lemma FragmentIsAll(o: nat, data: seq<Byte>)
    requires FragmentLength(Aligned(o), data) < |data|
    ensures FragmentLength(Aligned(o), data) == 0 ==> Avail(Aligned(o)) == 0
  {
  }

  /** How many of the records that start at offset `o` lie wholly before `cut`. */
  function Complete(step: CrcStep, o: nat, records: seq<seq<Byte>>, cut: nat): (n: nat)
    ensures n <= |records|
    decreases |records|
  {
    if records == [] then 0
    else
      var next := o + |Layout(step, o, records[0], true)|;
      if next <= cut then 1 + Complete(step, next, records[1..], cut) else 0
  }

  /** A record is complete exactly when the log up to and including it ends before the cut. */
  lemma {:induction false} CompleteMeans(step: CrcStep, o: nat, records: seq<seq<Byte>>, cut: nat, i: nat)
    requires i < |records|
    ensures i < Complete(step, o, records, cut) <==> o + |LogFrom(step, o, records[..i + 1])| <= cut
    decreases |records|
  {
    hide Layout;
    var next := o + |Layout(step, o, records[0], true)|;
    assert records[..i + 1][0] == records[0] && records[..i + 1][1..] == records[1..][..i];
    if i == 0 {
      assert LogFrom(step, o, records[..1]) == Layout(step, o, records[0], true) + [];
    } else {
      CompleteMeans(step, next, records[1..], cut, i - 1);
    }
  }

  lemma {:induction false} AllRead(step: CrcStep, checksum: bool, log: seq<Byte>, cut: nat, o: nat,
      records: seq<seq<Byte>>)
    requires o <= cut <= |log| && |log| == o + |LogFrom(step, o, records)| && HoldsAt(log, o, LogFrom(step, o, records))
    ensures LogReader.AllRecords(step, checksum, log[..cut], o).0 == records[..Complete(step, o, records, cut)]
    ensures LogReader.AllRecords(step, checksum, log[..cut], o).1 == 0
    decreases |records|
  {
    hide Layout, HoldsAt, LogReader.RecordAt;
    if records == [] {
      LogReader.EofStep(step, checksum, log[..cut], o, false, []);
    } else {
      var first := Layout(step, o, records[0], true);
      HoldsSplit(log, o, first, LogFrom(step, o + |first|, records[1..]));
      RecordRead(step, checksum, log, cut, o, records[0], true, []);
      if o + |first| <= cut {
        AllRead(step, checksum, log, cut, o + |first|, records[1..]);
        var n := Complete(step, o + |first|, records[1..], cut);
        assert records[..n + 1] == [records[0]] + records[1..][..n];
        assert [] + records[0] == records[0];
      }
    }
  }

  /**
    Main theorem: cut a log anywhere, as a crash does, and reading it returns exactly the
    records that were written completely, in order, without a report of corruption.
   */
  lemma CrashSafe(step: CrcStep, checksum: bool, records: seq<seq<Byte>>, cut: nat)
    requires cut <= |LogFrom(step, 0, records)|
    ensures var r := LogReader.AllRecords(step, checksum, LogFrom(step, 0, records)[..cut], 0);
            r.0 == records[..Complete(step, 0, records, cut)] && r.1 == 0
    ensures forall j :: 1 <= j <= |records| ==>
              (j <= Complete(step, 0, records, cut) <==> |LogFrom(step, 0, records[..j])| <= cut)
  {
    hide LogFrom, Complete, LogReader.AllRecords;
    var log := LogFrom(step, 0, records);
    assert log[0..|log|] == log;
    AllRead(step, checksum, log, cut, 0, records);
    forall j | 1 <= j <= |records|
      ensures j <= Complete(step, 0, records, cut) <==> |LogFrom(step, 0, records[..j])| <= cut
    {
      CompleteMeans(step, 0, records, cut, j - 1);
    }
  }

  // ----- records that the reader takes for something else -----

  /** A file of two intact records: one with type byte `t` and no payload, and a whole record behind it. */
  function Hiding(step: CrcStep, t: Byte, data: seq<Byte>): (r: seq<Byte>)
    requires |data| <= BLOCK_SIZE - 2 * HEADER_SIZE
  {
    Framed(step, t, []) + Framed(step, 1, data)
  }

  lemma HidingReads(step: CrcStep, checksum: bool, t: Byte, data: seq<Byte>)
    requires t > 0 && |data| <= BLOCK_SIZE - 2 * HEADER_SIZE
    ensures var file := Hiding(step, t, data); var n := |file|;
      && n == 2 * HEADER_SIZE + |data|
      && LogReader.PhysicalAt(step, checksum, file, 0) == LogReader.Good(t, [], HEADER_SIZE)
      && LogReader.PhysicalAt(step, checksum, file, HEADER_SIZE) == LogReader.Good(1, data, n)
      && LogReader.PhysicalAt(step, checksum, file, n) == LogReader.Eof
  {
    hide Framed, LogReader.ParseBuffer;
    var file, a, b := Hiding(step, t, data), Framed(step, t, []), Framed(step, 1, data);
    assert file[0..|file|] == a + b && file[HEADER_SIZE..|file|] == b;
    var short := |file| < BLOCK_SIZE;
    FramedParses(step, checksum, a + b, short, t, []);
    FramedParses(step, checksum, b, short, 1, data);
  }

  /**
    With type byte 5 in front of it, an intact record is not read and nothing is reported; with
    type byte 6 it is read, but the record of that type is not reported as unknown.
   */
  lemma RecordsHidden(step: CrcStep, checksum: bool, t: Byte, data: seq<Byte>)
    requires (t == 5 || t == 6) && |data| <= BLOCK_SIZE - 2 * HEADER_SIZE
    ensures var file := Hiding(step, t, data); var ps := LogReader.PhysicalFrom(step, checksum, file, 0);
      && LogReader.AllRecords(step, checksum, file, 0) == (if t == 5 then [] else [data], 0)
      && LogReader.Assembled(ps, false, [], {}) == ([data], 1)
      && !LogReader.TypesTold(ps, false)
  {
    hide LogReader.PhysicalAt, Hiding;
    HidingReads(step, checksum, t, data);
    var file := Hiding(step, t, data);
    var n := |file|;
    var first, second := LogReader.Good(t, [], HEADER_SIZE), LogReader.Good(1, data, n);
    assert LogReader.PhysicalFrom(step, checksum, file, n) == [];
    assert LogReader.PhysicalFrom(step, checksum, file, HEADER_SIZE) == [second];
    var ps := LogReader.PhysicalFrom(step, checksum, file, 0);
    assert ps == [first, second] && ps[1..] == [second];
    WholeAssembles(data, n, {});
    WholeAssembles(data, n, LogReader.Confused);
    LogReader.LogIsAssembled(step, checksum, file, 0);
  }

  lemma WholeAssembles(data: seq<Byte>, n: nat, known: set<int>)
    ensures LogReader.Assembled([LogReader.Good(1, data, n)], false, [], known) == ([data], 0)
  {
    var ps := [LogReader.Good(1, data, n)];
    assert ps[1..] == [] && LogReader.Assembled(ps[1..], false, [], known) == ([], 0);
    assert LogReader.TurnOf(ps[0], false, [], known) == LogReader.Turn(0, Some(data), false, []);
    assert !LogReader.Ends(ps[0], known) && [data] + [] == [data];
  }
}
