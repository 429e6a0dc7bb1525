/**
  The log reader: reads the file block by block, checks and reassembles fragments, reports
  what it has to drop, and takes a truncated tail for the trace of a crash.
 */
module LogReader {
  import opened Basics
  import opened Coding
  import opened LogFormat

  // What reading means, for any file

  /** End of the block that holds offset `o`, or of the file. */
  function Limit(file: seq<Byte>, o: nat): (r: nat)
    ensures r <= |file|
  {
    var end := o - o % BLOCK_SIZE + BLOCK_SIZE;
    if end <= |file| then end else |file|
  }

  /** A physical record: end of file, one that is dropped with or without a report, or a good one. */
  datatype Physical = Eof | Bad(report: bool, next: nat) | Good(t: Byte, data: seq<Byte>, next: nat)

  function LengthField(buffer: seq<Byte>): (n: nat)
    requires |buffer| >= HEADER_SIZE
    ensures n <= 0xffff
  {
    var lo: int, hi: int := buffer[4], buffer[5];
    lo + 256 * hi
  }

  predicate ChecksumOk(step: CrcStep, buffer: seq<Byte>)
    requires |buffer| >= HEADER_SIZE && |buffer| >= HEADER_SIZE + LengthField(buffer)
  {
    Unmask(DecodeFixed32(buffer[..4])) == Value(step, buffer[6..HEADER_SIZE + LengthField(buffer)])
  }

  /** What the front of a buffer holds: an unfinished record, one to drop, or a good one. */
  datatype Parsed = Unfinished | Drop(report: bool) | Piece(t: Byte, data: seq<Byte>)

  /** Parse the record at the front of the rest of a block; `short` says that the file ends in it. */
  function ParseBuffer(step: CrcStep, checksum: bool, buffer: seq<Byte>, short: bool): (r: Parsed)
    requires |buffer| >= HEADER_SIZE
    ensures r.Piece? ==> HEADER_SIZE + |r.data| <= |buffer|
  {
    var n := LengthField(buffer);
    if HEADER_SIZE + n > |buffer| then if short then Unfinished else Drop(true)
    else if buffer[6] == 0 && n == 0 then Drop(false)
    else if checksum && !ChecksumOk(step, buffer) then Drop(true)
    else Piece(buffer[6], buffer[HEADER_SIZE..HEADER_SIZE + n])
  }

  /** The physical record found from offset `o` on. */
  function PhysicalAt(step: CrcStep, checksum: bool, file: seq<Byte>, o: nat): (r: Physical)
    requires o <= |file|
    ensures r.Bad? || r.Good? ==> o < r.next <= |file|
  {
    var a := Aligned(o);
    if a + HEADER_SIZE > |file| then Eof
    else
      var end := Limit(file, a);
      match ParseBuffer(step, checksum, file[a..end], end < a - a % BLOCK_SIZE + BLOCK_SIZE)
      case Unfinished => Eof
      case Drop(report) => Bad(report, end)
      case Piece(t, data) => Good(t, data, a + HEADER_SIZE + |data|)
  }

  /** The outcome of a read: a record or none, where it stopped, and the number of reports. */
  datatype Outcome = Outcome(record: Option<seq<Byte>>, next: nat, reports: nat)

  function Reported(n: nat, r: Outcome): Outcome {
    r.(reports := r.reports + n)
  }

  // The values that stand for the end of the file and for a bad record are also type bytes.
  const EOF_TYPE := 5
  const BAD_RECORD_TYPE := 6

  /** The next logical record from offset `o` on, when `scratch` holds what was collected of it. */
  function RecordAt(step: CrcStep, checksum: bool, file: seq<Byte>, o: nat, inFragment: bool,
      scratch: seq<Byte>): (r: Outcome)
    requires o <= |file|
    ensures o <= r.next <= |file| && (r.record.Some? ==> o < r.next)
    decreases |file| - o
  {
    match PhysicalAt(step, checksum, file, o)
    case Eof => Outcome(None, |file|, 0)
    case Bad(report, next) =>
      Reported((if report then 1 else 0) + (if inFragment then 1 else 0),
               RecordAt(step, checksum, file, next, false, if inFragment then [] else scratch))
    case Good(t, data, next) =>
      var unfinished := if inFragment && scratch != [] then 1 else 0;
      if t == 1 then Outcome(Some(data), next, unfinished)
      else if t == 2 then Reported(unfinished, RecordAt(step, checksum, file, next, true, data))
      else if t == 3 then
        if inFragment then RecordAt(step, checksum, file, next, true, scratch + data)
        else Reported(1, RecordAt(step, checksum, file, next, false, scratch))
      else if t == 4 then
        if inFragment then Outcome(Some(scratch + data), next, 0)
        else Reported(1, RecordAt(step, checksum, file, next, false, scratch))
      else if t == EOF_TYPE then Outcome(None, next, 0)
      else if t == BAD_RECORD_TYPE then
        Reported(if inFragment then 1 else 0,
            RecordAt(step, checksum, file, next, false, if inFragment then [] else scratch))
      else Reported(1, RecordAt(step, checksum, file, next, false, []))
  }

  /** A fragment that continues what was collected extends it, or completes the record. */
  lemma GoodStep(step: CrcStep, checksum: bool, file: seq<Byte>, o: nat, inFragment: bool, scratch: seq<Byte>,
      t: RecordType, data: seq<Byte>, next: nat)
    requires o <= |file| && PhysicalAt(step, checksum, file, o) == Good(TypeByte(t), data, next)
    requires inFragment == (t == Middle || t == Last) && (!inFragment ==> scratch == [])
    ensures RecordAt(step, checksum, file, o, inFragment, scratch) ==
            if t == Full || t == Last then Outcome(Some(scratch + data), next, 0)
            else RecordAt(step, checksum, file, next, true, scratch + data)
  {
    assert !inFragment ==> scratch + data == data;
  }

  lemma EofStep(step: CrcStep, checksum: bool, file: seq<Byte>, o: nat, inFragment: bool, scratch: seq<Byte>)
    requires o <= |file| && PhysicalAt(step, checksum, file, o) == Eof
    ensures RecordAt(step, checksum, file, o, inFragment, scratch) == Outcome(None, |file|, 0)
  {
  }

  /** All records from offset `o` on, and the number of reports. */
  function AllRecords(step: CrcStep, checksum: bool, file: seq<Byte>, o: nat): (r: (seq<seq<Byte>>, nat))
    requires o <= |file|
    decreases |file| - o
  {
    var first := RecordAt(step, checksum, file, o, false, []);
    if first.record.None? then ([], first.reports)
    else
      var rest := AllRecords(step, checksum, file, first.next);
      ([first.record.value] + rest.0, first.reports + rest.1)
  }

  // What a physical record is in the file

  /** The four bytes at `a`, lowest first. */
  function WordAt(file: seq<Byte>, a: nat): (w: nat)
    requires a + 4 <= |file|
  {
    var b0: int, b1: int, b2: int, b3: int := file[a], file[a + 1], file[a + 2], file[a + 3];
    b0 + 256 * b1 + 65536 * b2 + 16777216 * b3
  }

  function LengthAt(file: seq<Byte>, a: nat): (n: nat)
    requires a + HEADER_SIZE <= |file|
  {
    var lo: int, hi: int := file[a + 4], file[a + 5];
    lo + 256 * hi
  }

  /** A header and its payload stand at `a`, inside one block and inside the file. */
  predicate Whole(file: seq<Byte>, a: nat) {
    && a + HEADER_SIZE <= |file|
    && a + HEADER_SIZE + LengthAt(file, a) <= |file|
    && a % BLOCK_SIZE + HEADER_SIZE + LengthAt(file, a) <= BLOCK_SIZE
  }

  /** The stored word is the masked checksum of type byte and payload. */
  predicate Intact(step: CrcStep, file: seq<Byte>, a: nat)
    requires Whole(file, a)
  {
    var stored := WordAt(file, a);
    0 <= stored < 0x1_0000_0000 && Unmask(stored) == Value(step, file[a + 6..a + HEADER_SIZE + LengthAt(file, a)])
  }

  /** Space that was allocated but never written. */
  predicate Blank(file: seq<Byte>, a: nat)
    requires a + HEADER_SIZE <= |file|
  {
    file[a + 6] == 0 && LengthAt(file, a) == 0
  }

  function PayloadAt(file: seq<Byte>, a: nat): (data: seq<Byte>)
    requires Whole(file, a)
  {
    file[a + HEADER_SIZE..a + HEADER_SIZE + LengthAt(file, a)]
  }

  lemma SliceOfSlice(s: seq<Byte>, a: nat, end: nat, i: nat, j: nat)
    requires i <= j && a + j <= end <= |s|
    ensures s[a..end][i..j] == s[a + i..a + j]
  {
    assert forall k :: 0 <= k < j - i ==> s[a..end][i..j][k] == s[a + i..a + j][k];
  }

  /** A record is intact exactly if it stands in the file as the writer puts it. */
  lemma IntactIffFramed(step: CrcStep, file: seq<Byte>, a: nat)
    requires Whole(file, a)
    ensures |PayloadAt(file, a)| <= 0xffff
    ensures Intact(step, file, a) <==>
      file[a..a + HEADER_SIZE + LengthAt(file, a)] == Framed(step, file[a + 6], PayloadAt(file, a))
  {
    var t, data := file[a + 6], PayloadAt(file, a);
    hide EncodeFixed32, Mask, Unmask, Value, Extend;
    assert DecodeFixed32(file[a..a + 4]) == WordAt(file, a);
    assert file[a + 6..a + HEADER_SIZE + LengthAt(file, a)] == [t] + data;
    hide DecodeFixed32, WordAt;
    ExtendValue(step, [t], data);
    WordIsMasked(file[a..a + 4], Value(step, [t] + data));
    SplitHeader(file, a);
    SameFront(file[a..a + 4], EncodeFixed32(Mask(Value(step, [t] + data))), [|data| % 256, |data| / 256, t] + data);
  }

  lemma SplitHeader(file: seq<Byte>, a: nat)
    requires Whole(file, a)
    ensures var n := LengthAt(file, a);
      && |PayloadAt(file, a)| == n <= 0xffff
      && file[a..a + HEADER_SIZE + n] == file[a..a + 4] + ([n % 256, n / 256, file[a + 6]] + PayloadAt(file, a))
  {
    var n := LengthAt(file, a);
    assert file[a + 4] == n % 256 && file[a + 5] == n / 256;
    assert file[a + 4..a + HEADER_SIZE] == [n % 256, n / 256, file[a + 6]];
    assert file[a..a + HEADER_SIZE + n] ==
      file[a..a + 4] + (file[a + 4..a + HEADER_SIZE] + file[a + HEADER_SIZE..a + HEADER_SIZE + n]);
  }

  lemma SameFront(a: seq<Byte>, b: seq<Byte>, rest: seq<Byte>)
    requires |a| == |b|
    ensures a + rest == b + rest <==> a == b
  {
    assert (a + rest)[..|a|] == a && (b + rest)[..|b|] == b;
  }

  /** With checksums, exactly the whole and intact records that are not blank are returned, as they stand. */
  lemma GoodIsIntact(step: CrcStep, file: seq<Byte>, o: nat)
    requires o <= |file|
    ensures var a, p := Aligned(o), PhysicalAt(step, true, file, o);
      && (p.Good? <==> Whole(file, a) && !Blank(file, a) && Intact(step, file, a))
      && (p.Good? ==>
           p.t == file[a + 6] && p.data == PayloadAt(file, a) && p.next == a + HEADER_SIZE + LengthAt(file, a))
  {
    var a := Aligned(o);
    hide Aligned, Unmask, Value;
    if a + HEADER_SIZE <= |file| {
      var end := Limit(file, a);
      var buffer := file[a..end];
      assert buffer[4] == file[a + 4] && buffer[5] == file[a + 5] && buffer[6] == file[a + 6];
      if HEADER_SIZE + LengthField(buffer) <= |buffer| {
        SliceOfSlice(file, a, end, 0, 4);
        SliceOfSlice(file, a, end, 6, HEADER_SIZE + LengthField(buffer));
      }
    }
  }

  function BlockEnd(a: nat): (end: nat) {
    a - a % BLOCK_SIZE + BLOCK_SIZE
  }

  /** A record that runs over the end of a block which the file has in full, or one with a wrong word. */
  ghost predicate Damaged(step: CrcStep, file: seq<Byte>, a: nat) {
    && a + HEADER_SIZE <= |file|
    && if Whole(file, a) then !Blank(file, a) && !Intact(step, file, a) else BlockEnd(a) <= |file|
  }

  /** The trace of a crash: the file ends inside the record. */
  predicate Torn(file: seq<Byte>, a: nat) {
    a + HEADER_SIZE > |file| || (!Whole(file, a) && BlockEnd(a) > |file|)
  }

  /** What becomes of anything else than an intact record. */
  lemma RefusedMeans(step: CrcStep, file: seq<Byte>, o: nat)
    requires o <= |file|
    ensures var a, p := Aligned(o), PhysicalAt(step, true, file, o);
      && (p.Eof? <==> Torn(file, a))
      && (p.Bad? && p.report <==> Damaged(step, file, a))
      && (p.Bad? ==> p.next == if BlockEnd(a) <= |file| then BlockEnd(a) else |file|)
  {
    GoodIsIntact(step, file, o);
    var a := Aligned(o);
    hide Aligned, Unmask, Value, Intact, ChecksumOk;
    if a + HEADER_SIZE <= |file| {
      var buffer := file[a..Limit(file, a)];
      assert buffer[4] == file[a + 4] && buffer[5] == file[a + 5] && buffer[6] == file[a + 6];
    }
  }

  lemma BadIsPassed(step: CrcStep, file: seq<Byte>, o: nat, end: nat)
    requires o <= |file| && PhysicalAt(step, true, file, o) == Bad(true, end)
    ensures end <= |file|
    ensures var rest := AllRecords(step, true, file, end); AllRecords(step, true, file, o) == (rest.0, rest.1 + 1)
  {
    hide PhysicalAt;
    assert RecordAt(step, true, file, o, false, []) == Reported(1, RecordAt(step, true, file, end, false, []));
    hide RecordAt;
  }

  /** Damage is reported once, and the rest of its block is passed over. */
  lemma DamageIsReported(step: CrcStep, file: seq<Byte>, o: nat)
    requires o <= |file| && Aligned(o) == o && Damaged(step, file, o)
    ensures var rest := AllRecords(step, true, file, if BlockEnd(o) <= |file| then BlockEnd(o) else |file|);
      AllRecords(step, true, file, o) == (rest.0, rest.1 + 1)
  {
    hide Damaged, AllRecords, PhysicalAt;
    RefusedMeans(step, file, o);
    BadIsPassed(step, file, o, PhysicalAt(step, true, file, o).next);
  }

  /** A torn record ends the log without a report. */
  lemma TornIsSilent(step: CrcStep, file: seq<Byte>, o: nat)
    requires o <= |file| && Torn(file, Aligned(o))
    ensures AllRecords(step, true, file, o) == ([], 0)
  {
    hide Torn, PhysicalAt, Damaged;
    RefusedMeans(step, file, o);
    assert RecordAt(step, true, file, o, false, []) == Outcome(None, |file|, 0);
  }

  class Reader {
    const step: CrcStep
    const checksum: bool
    const file: seq<Byte>
    var filePos: nat          // bytes of the file read so far
    var buffer: seq<Byte>     // unconsumed bytes of the last block read
    var eof: bool             // the last read was short
    var reports: nat

    ghost function Offset(): int
      reads this
    {
      filePos - |buffer|
    }

    /** The buffer is the unread end of the block just read; only a short block is the last. */
    ghost predicate Valid()
      reads this
    {
      && filePos <= |file| && |buffer| <= filePos && buffer == file[Offset()..filePos]
      && (!eof ==> filePos % BLOCK_SIZE == 0)
      && (eof ==> filePos == |file|)
      && (buffer != [] ==> Offset() - Offset() % BLOCK_SIZE + BLOCK_SIZE >= filePos)
      && (eof && buffer != [] ==> Offset() - Offset() % BLOCK_SIZE + BLOCK_SIZE > filePos)
    }

    constructor (step: CrcStep, checksum: bool, file: seq<Byte>)
      ensures Valid() && Offset() == 0 && reports == 0
      ensures this.step == step && this.checksum == checksum && this.file == file
    {
      this.step, this.checksum, this.file := step, checksum, file;
      filePos, buffer, eof, reports := 0, [], false, 0;
    }

    /** Read the next block of the file into the buffer. */
    method ReadBlock()
      requires Valid() && !eof && |buffer| < HEADER_SIZE
      modifies this
      ensures Valid() && reports == old(reports) && Offset() == old(filePos)
      ensures eof == (|buffer| < BLOCK_SIZE) && |buffer| <= BLOCK_SIZE
      ensures old(filePos) % BLOCK_SIZE == 0
    {
      var n := if |file| - filePos < BLOCK_SIZE then |file| - filePos else BLOCK_SIZE;
      buffer := file[filePos..filePos + n];
      filePos := filePos + n;
      eof := n < BLOCK_SIZE;
    }

    /** Read on until the buffer holds a header, or the file ends. */
    method FillBuffer() returns (more: bool)
      requires Valid()
      modifies this
      ensures Valid() && reports == old(reports)
      ensures more ==> |buffer| >= HEADER_SIZE && Offset() == Aligned(old(Offset())) && Limit(file, Offset()) == filePos
      ensures more ==> (eof <==> filePos < Offset() - Offset() % BLOCK_SIZE + BLOCK_SIZE)
      ensures !more ==> Offset() == |file| && Aligned(old(Offset())) + HEADER_SIZE > |file|
    {
      hide Aligned;
      ghost var o := Offset();
      while |buffer| < HEADER_SIZE
        invariant Valid() && reports == old(reports)
        invariant || Offset() == o
                  || (Offset() == Aligned(o) && Offset() % BLOCK_SIZE == 0 && (eof || |buffer| == BLOCK_SIZE))
        decreases if eof then 0 else 1, |file| - filePos
      {
        if eof {
          buffer := [];
          return false;
        }
        BlockIsRead(o, Offset(), filePos);
        ReadBlock();
      }
      StillAligned(o, Offset(), filePos);
      return true;
    }

    /** The next physical record; what it returns is given by `PhysicalAt`. */
    method ReadPhysicalRecord() returns (r: Physical)
      requires Valid()
      modifies this
      ensures Valid() && r == PhysicalAt(step, checksum, file, old(Offset()))
      ensures Offset() == if r.Eof? then |file| else r.next
      ensures reports == old(reports) + if r.Bad? && r.report then 1 else 0
    {
      hide Aligned, Limit, Value, Unmask, DecodeFixed32;
      var more := FillBuffer();
      if !more {
        return Eof;
      }
      var lo: int, hi: int := buffer[4], buffer[5];
      var t, length := buffer[6], lo + 256 * hi;
      if HEADER_SIZE + length > |buffer| {
        buffer := [];
        if !eof {
          reports := reports + 1;
          return Bad(true, filePos);
        }
        return Eof;
      }
      if t == 0 && length == 0 {
        buffer := [];
        return Bad(false, filePos);
      }
      if checksum {
        var expected := Unmask(DecodeFixed32(buffer[..4]));
        var actual := Value(step, buffer[6..HEADER_SIZE + length]);
        if actual != expected {
          buffer := [];
          reports := reports + 1;
          return Bad(true, filePos);
        }
      }
      r := Good(t, buffer[HEADER_SIZE..HEADER_SIZE + length], filePos - |buffer| + HEADER_SIZE + length);
      Consume(HEADER_SIZE + length);
    }

    method Consume(n: nat)
      requires Valid() && 0 < n <= |buffer|
      modifies this
      ensures Valid() && Offset() == old(Offset()) + n && reports == old(reports)
    {
      buffer := buffer[n..];
      SameBlock(old(Offset()), Offset(), filePos);
    }

    /** The next logical record; what it returns and reports is given by `RecordAt`. */
    method ReadRecord() returns (record: Option<seq<Byte>>)
      requires Valid()
      modifies this
      ensures Valid()
      ensures var r := RecordAt(step, checksum, file, old(Offset()), false, []);
              record == r.record && Offset() == r.next && reports == old(reports) + r.reports
    {
      hide PhysicalAt;
      var scratch: seq<Byte> := [];
      var inFragment := false;
      ghost var goal := RecordAt(step, checksum, file, Offset(), false, []);
      while true
        invariant Valid() && 0 <= Offset() <= |file|
        invariant var r := RecordAt(step, checksum, file, Offset(), inFragment, scratch);
                  goal.record == r.record && goal.next == r.next && old(reports) + goal.reports == reports + r.reports
        decreases |file| - Offset()
      {
        var fragment := ReadPhysicalRecord();
        match fragment
        case Eof =>
          return None;
        case Bad(_, _) =>
          if inFragment {
            reports := reports + 1;
            inFragment, scratch := false, [];
          }
        case Good(t, data, _) =>
          if t == 1 || t == 2 {
            if inFragment && scratch != [] {
              reports := reports + 1;
            }
            if t == 1 {
              return Some(data);
            }
            scratch, inFragment := data, true;
          } else if t == 3 || t == 4 {
            if !inFragment {
              reports := reports + 1;
            } else {
              scratch := scratch + data;
              if t == 4 {
                return Some(scratch);
              }
            }
          } else if t == EOF_TYPE {
            return None;
          } else if t == BAD_RECORD_TYPE {
            if inFragment {
              reports := reports + 1;
              inFragment, scratch := false, [];
            }
          } else {
            reports := reports + 1;
            inFragment, scratch := false, [];
          }
      }
    }
  }

  lemma BlockIsRead(o: int, p: int, end: int)
    requires 0 <= o && end % BLOCK_SIZE == 0 && p <= end < p + HEADER_SIZE && 0 <= p
    requires p < end ==> p - p % BLOCK_SIZE + BLOCK_SIZE >= end
    requires p == o || (p == Aligned(o) && p % BLOCK_SIZE == 0)
    ensures Aligned(o) == end
  {
  }

  lemma StillAligned(o: int, p: int, end: int)
    requires 0 <= o && 0 <= p && p + HEADER_SIZE <= end <= p - p % BLOCK_SIZE + BLOCK_SIZE
    requires p == o || p == Aligned(o)
    ensures p == Aligned(o)
  {
  }

  /** Two offsets before a block end that is at most one block away from the first are in one block. */
  lemma SameBlock(o: int, p: int, end: int)
    requires 0 <= o <= p <= end && o - o % BLOCK_SIZE + BLOCK_SIZE >= end
    ensures p < end ==> p - p % BLOCK_SIZE == o - o % BLOCK_SIZE
  {
    var b := o - o % BLOCK_SIZE;
    if p < end {
      assert b <= p < b + BLOCK_SIZE;
      assert (p - b) % BLOCK_SIZE == p - b;
    }
  }

  /** Read a whole log. */
  method ReadLog(step: CrcStep, checksum: bool, file: seq<Byte>) returns (records: seq<seq<Byte>>, reports: nat)
    ensures records == AllRecords(step, checksum, file, 0).0 && reports == AllRecords(step, checksum, file, 0).1
    ensures checksum ==> forall data :: data in records ==> exists at :: IsRecord(step, file, at, data)
  {
    hide RecordAt, IsRecord;
    var reader := new Reader(step, checksum, file);
    records := [];
    while true
      invariant fresh(reader) && reader.Valid() && reader.step == step && reader.checksum == checksum
      invariant reader.file == file
      invariant 0 <= reader.Offset() <= |file|
      invariant var all, rest := AllRecords(step, checksum, file, 0), AllRecords(step, checksum, file, reader.Offset());
                all.0 == records + rest.0 && all.1 == reader.reports + rest.1
      decreases |file| - reader.Offset()
    {
      ghost var o := reader.Offset();
      var record := reader.ReadRecord();
      if record.None? {
        assert AllRecords(step, checksum, file, o).0 == [];
        break;
      }
      ghost var rest := AllRecords(step, checksum, file, reader.Offset());
      assert records + ([record.value] + rest.0) == (records + [record.value]) + rest.0;
      records := records + [record.value];
    }
    reports := reader.reports;
    forall data | checksum && data in records ensures exists at :: IsRecord(step, file, at, data) {
      RecordsAreIntact(step, file, 0, data);
    }
  }

  // What the format promises, and when reading keeps to it

  /** All physical records from offset `o` on, up to the real end of the file. */
  function PhysicalFrom(step: CrcStep, checksum: bool, file: seq<Byte>, o: nat): (ps: seq<Physical>)
    requires o <= |file|
    ensures forall i :: 0 <= i < |ps| ==> !ps[i].Eof?
    decreases |file| - o
  {
    var p := PhysicalAt(step, checksum, file, o);
    if p.Eof? then [] else [p] + PhysicalFrom(step, checksum, file, p.next)
  }

  function One(b: bool): nat {
    if b then 1 else 0
  }

  /** What one physical record does: reports, a record that it completes, and what is collected behind it. */
  datatype Turn = Turn(reports: nat, record: Option<seq<Byte>>, inFragment: bool, scratch: seq<Byte>)

  /** `known` says which type bytes above 4 are not reported as unknown. */
  function TurnOf(p: Physical, inFragment: bool, scratch: seq<Byte>, known: set<int>): (r: Turn)
    requires !p.Eof?
  {
    match p
    case Bad(report, _) => Turn(One(report) + One(inFragment), None, false, [])
    case Good(t, data, _) =>
      if t == 1 then Turn(One(inFragment && scratch != []), Some(data), false, [])
      else if t == 2 then Turn(One(inFragment && scratch != []), None, true, data)
      else if t == 3 && inFragment then Turn(0, None, true, scratch + data)
      else if t == 4 && inFragment then Turn(0, Some(scratch + data), false, [])
      else if t == BAD_RECORD_TYPE && BAD_RECORD_TYPE in known then Turn(One(inFragment), None, false, [])
      else Turn(1, None, false, [])
  }

  predicate Ends(p: Physical, known: set<int>) {
    p.Good? && p.t == EOF_TYPE && EOF_TYPE in known
  }

  /** Records and reports of physical records. */
  function Assembled(ps: seq<Physical>, inFragment: bool, scratch: seq<Byte>,
      known: set<int>): (r: (seq<seq<Byte>>, nat))
    requires forall i :: 0 <= i < |ps| ==> !ps[i].Eof?
    decreases |ps|
  {
    if ps == [] || Ends(ps[0], known) then ([], 0)
    else
      var turn := TurnOf(ps[0], inFragment, scratch, known);
      var r := Assembled(ps[1..], turn.inFragment, turn.scratch, known);
      (if turn.record.Some? then [turn.record.value] + r.0 else r.0, r.1 + turn.reports)
  }

  /** Not type byte 5, and type byte 6 only where it breaks off a fragmented record. */
  predicate Told(p: Physical, inFragment: bool) {
    p.Good? ==> p.t != EOF_TYPE && (p.t == BAD_RECORD_TYPE ==> inFragment)
  }

  predicate TypesTold(ps: seq<Physical>, inFragment: bool)
    decreases |ps|
  {
    ps == [] ||
    (&& Told(ps[0], inFragment)
     && TypesTold(ps[1..], ps[0].Good? && (ps[0].t == 2 || (ps[0].t == 3 && inFragment))))
  }

  const Confused := {EOF_TYPE, BAD_RECORD_TYPE}

  /** Reading on from a physical record takes its turn. */
  lemma RecordTurn(step: CrcStep, checksum: bool, file: seq<Byte>, o: nat, inFragment: bool, scratch: seq<Byte>)
    requires o <= |file| && (!inFragment ==> scratch == []) && !PhysicalAt(step, checksum, file, o).Eof?
    ensures var p := PhysicalAt(step, checksum, file, o);
            var turn := TurnOf(p, inFragment, scratch, Confused);
            && (!turn.inFragment ==> turn.scratch == [])
            && RecordAt(step, checksum, file, o, inFragment, scratch) ==
               if Ends(p, Confused) then Outcome(None, p.next, 0)
               else if turn.record.Some? then Outcome(turn.record, p.next, turn.reports)
               else Reported(turn.reports, RecordAt(step, checksum, file, p.next, turn.inFragment, turn.scratch))
  {
    hide PhysicalAt;
  }

  /** One logical record is the first of those assembled from the physical ones. */
  lemma {:induction false} RecordIsAssembled(step: CrcStep, checksum: bool, file: seq<Byte>, o: nat, inFragment: bool,
      scratch: seq<Byte>)
    requires o <= |file| && (!inFragment ==> scratch == [])
    ensures var r := RecordAt(step, checksum, file, o, inFragment, scratch);
            var rest := Assembled(PhysicalFrom(step, checksum, file, r.next), false, [], Confused);
            Assembled(PhysicalFrom(step, checksum, file, o), inFragment, scratch, Confused) ==
            if r.record.None? then ([], r.reports) else ([r.record.value] + rest.0, rest.1 + r.reports)
    decreases |file| - o
  {
    hide PhysicalAt, TurnOf, RecordAt, PhysicalFrom, Assembled, Ends;
    AssembledTurn(step, checksum, file, o, inFragment, scratch);
    var p := PhysicalAt(step, checksum, file, o);
    if p.Eof? {
      EofStep(step, checksum, file, o, inFragment, scratch);
    } else {
      RecordTurn(step, checksum, file, o, inFragment, scratch);
      var turn := TurnOf(p, inFragment, scratch, Confused);
      if turn.record.None? {
        RecordIsAssembled(step, checksum, file, p.next, turn.inFragment, turn.scratch);
      } else {
        CompletesClear(p, inFragment, scratch);
      }
    }
  }

  lemma AssembledTurn(step: CrcStep, checksum: bool, file: seq<Byte>, o: nat, inFragment: bool, scratch: seq<Byte>)
    requires o <= |file|
    ensures var p := PhysicalAt(step, checksum, file, o);
            Assembled(PhysicalFrom(step, checksum, file, o), inFragment, scratch, Confused) ==
            if p.Eof? || Ends(p, Confused) then ([], 0)
            else
              var turn := TurnOf(p, inFragment, scratch, Confused);
              var r := Assembled(PhysicalFrom(step, checksum, file, p.next), turn.inFragment, turn.scratch, Confused);
              (if turn.record.Some? then [turn.record.value] + r.0 else r.0, r.1 + turn.reports)
  {
    hide PhysicalAt, TurnOf, Ends;
    var p, ps := PhysicalAt(step, checksum, file, o), PhysicalFrom(step, checksum, file, o);
    if !p.Eof? {
      assert ps[0] == p && ps[1..] == PhysicalFrom(step, checksum, file, p.next);
    }
  }

  lemma CompletesClear(p: Physical, inFragment: bool, scratch: seq<Byte>)
    requires !p.Eof? && TurnOf(p, inFragment, scratch, Confused).record.Some?
    ensures var turn := TurnOf(p, inFragment, scratch, Confused); !turn.inFragment && turn.scratch == []
  {
  }

  lemma {:induction false} LogIsAssembled(step: CrcStep, checksum: bool, file: seq<Byte>, o: nat)
    requires o <= |file|
    ensures AllRecords(step, checksum, file, o) == Assembled(PhysicalFrom(step, checksum, file, o), false, [], Confused)
    decreases |file| - o
  {
    hide RecordAt, PhysicalFrom, Assembled;
    RecordIsAssembled(step, checksum, file, o, false, []);
    var r := RecordAt(step, checksum, file, o, false, []);
    if r.record.Some? {
      LogIsAssembled(step, checksum, file, r.next);
    }
  }

  lemma TurnsDiffer(p: Physical, inFragment: bool, scratch: seq<Byte>)
    requires !p.Eof?
    ensures var read, promised := TurnOf(p, inFragment, scratch, Confused), TurnOf(p, inFragment, scratch, {});
            && promised.inFragment == (p.Good? && (p.t == 2 || (p.t == 3 && inFragment)))
            && read == promised.(reports := read.reports)
            && (Told(p, inFragment) ==> !Ends(p, Confused) && read == promised)
            && (!Told(p, inFragment) ==> promised.reports == 1 && (Ends(p, Confused) || read.reports == 0))
  {
  }

  lemma {:induction false} ConfusionLosesReports(ps: seq<Physical>, inFragment: bool, scratch: seq<Byte>)
    requires forall i :: 0 <= i < |ps| ==> !ps[i].Eof?
    ensures var read, promised := Assembled(ps, inFragment, scratch, Confused), Assembled(ps, inFragment, scratch, {});
            && (TypesTold(ps, inFragment) ==> read == promised)
            && (!TypesTold(ps, inFragment) ==> read.1 < promised.1)
    decreases |ps|
  {
    if ps != [] {
      assert !Ends(ps[0], {});
      TurnsDiffer(ps[0], inFragment, scratch);
      var turn := TurnOf(ps[0], inFragment, scratch, {});
      hide TurnOf, Ends, Told;
      ConfusionLosesReports(ps[1..], turn.inFragment, turn.scratch);
    }
  }

  /**
    Damage that the format promises to report is reported exactly if no intact physical record
    has type byte 5, which silently ends the log, or type byte 6 outside a fragmented record,
    which is silently skipped; otherwise fewer reports are made.
   */
  lemma ReportsIffTypesTold(step: CrcStep, checksum: bool, file: seq<Byte>)
    ensures var ps := PhysicalFrom(step, checksum, file, 0);
            && (AllRecords(step, checksum, file, 0) == Assembled(ps, false, [], {}) <==> TypesTold(ps, false))
            && (!TypesTold(ps, false) ==> AllRecords(step, checksum, file, 0).1 < Assembled(ps, false, [], {}).1)
  {
    LogIsAssembled(step, checksum, file, 0);
    ConfusionLosesReports(PhysicalFrom(step, checksum, file, 0), false, []);
  }

  /** Nothing behind an intact record with type byte 5 is read. */
  lemma {:induction false} EndsAtTypeFive(ps: seq<Physical>, k: nat, inFragment: bool, scratch: seq<Byte>)
    requires (forall i :: 0 <= i < |ps| ==> !ps[i].Eof?) && k < |ps| && ps[k].Good? && ps[k].t == EOF_TYPE
    ensures Assembled(ps, inFragment, scratch, Confused) == Assembled(ps[..k], inFragment, scratch, Confused)
    decreases |ps|
  {
    hide TurnOf;
    if k > 0 {
      assert ps[..k][1..] == ps[1..][..k - 1] && ps[..k][0] == ps[0];
      var turn := TurnOf(ps[0], inFragment, scratch, Confused);
      EndsAtTypeFive(ps[1..], k - 1, turn.inFragment, turn.scratch);
    }
  }

  // Where the bytes of a record come from

  function TypeAt(file: seq<Byte>, a: nat): (t: Byte)
    requires Whole(file, a)
  {
    file[a + 6]
  }

  function EndAt(file: seq<Byte>, a: nat): (end: nat)
    requires Whole(file, a)
  {
    a + HEADER_SIZE + LengthAt(file, a)
  }

  /** Whole and intact records stand at `at`, one behind the other, and `data` is their payloads in order. */
  ghost predicate Gathered(step: CrcStep, file: seq<Byte>, at: seq<nat>, data: seq<Byte>) {
    && at != [] && (forall i :: 0 <= i < |at| ==> Whole(file, at[i]) && Intact(step, file, at[i]))
    && (forall i :: 0 <= i < |at| - 1 ==>
         at[i + 1] == Aligned(EndAt(file, at[i])))
    && data == Flat(Payloads(file, at))
  }

  ghost function Payloads(file: seq<Byte>, at: seq<nat>): (r: seq<seq<Byte>>)
    requires forall i :: 0 <= i < |at| ==> Whole(file, at[i])
    ensures |r| == |at| && forall i :: 0 <= i < |at| ==> r[i] == PayloadAt(file, at[i])
  {
    seq(|at|, (i: int) requires 0 <= i < |at| => PayloadAt(file, at[i]))
  }

  /** The type bytes of a record: that of a whole one, or those of a first piece, middle ones and a last. */
  ghost predicate Framing(file: seq<Byte>, at: seq<nat>)
    requires forall i :: 0 <= i < |at| ==> Whole(file, at[i])
  {
    && at != []
    && if |at| == 1 then TypeAt(file, at[0]) == 1
       else && TypeAt(file, at[0]) == 2 && TypeAt(file, at[|at| - 1]) == 4
            && forall i :: 1 <= i < |at| - 1 ==> TypeAt(file, at[i]) == 3
  }

  /** `data` is a record of the file, each piece of it under a checksum that matches. */
  ghost predicate IsRecord(step: CrcStep, file: seq<Byte>, at: seq<nat>, data: seq<Byte>) {
    Gathered(step, file, at, data) && Framing(file, at)
  }

  /** The front of a record, which goes on at `o`. */
  ghost predicate IsFront(step: CrcStep, file: seq<Byte>, at: seq<nat>, data: seq<Byte>, o: nat) {
    && Gathered(step, file, at, data) && o == EndAt(file, at[|at| - 1])
    && TypeAt(file, at[0]) == 2 && forall i :: 1 <= i < |at| ==> TypeAt(file, at[i]) == 3
  }

  lemma GatherOne(step: CrcStep, file: seq<Byte>, a: nat)
    requires Whole(file, a) && Intact(step, file, a)
    ensures TypeAt(file, a) == 1 ==> IsRecord(step, file, [a], PayloadAt(file, a))
    ensures TypeAt(file, a) == 2 ==> IsFront(step, file, [a], PayloadAt(file, a), EndAt(file, a))
  {
    hide Intact, Whole;
    var ps := Payloads(file, [a]);
    assert ps[..0] == [] && Flat(ps) == Flat(ps[..0]) + ps[0];
  }

  lemma GatherMore(step: CrcStep, file: seq<Byte>, at: seq<nat>, data: seq<Byte>, o: nat, a: nat)
    requires IsFront(step, file, at, data, o) && a == Aligned(o) && Whole(file, a) && Intact(step, file, a)
    ensures TypeAt(file, a) == 3 ==> IsFront(step, file, at + [a], data + PayloadAt(file, a), EndAt(file, a))
    ensures TypeAt(file, a) == 4 ==> IsRecord(step, file, at + [a], data + PayloadAt(file, a))
  {
    hide Intact, Whole, Aligned;
    var more := at + [a];
    var ps := Payloads(file, more);
    assert ps[..|at|] == Payloads(file, at);
  }

  /** What is returned from `o` on, with `scratch` collected from the pieces at `at`, is a record of the file. */
  lemma {:induction false} RecordIsGathered(step: CrcStep, file: seq<Byte>, o: nat, inFragment: bool,
      scratch: seq<Byte>, at: seq<nat>)
    returns (at': seq<nat>)
    requires o <= |file| && (inFragment ==> IsFront(step, file, at, scratch, o))
    ensures var r := RecordAt(step, true, file, o, inFragment, scratch);
      r.record.Some? ==> IsRecord(step, file, at', r.record.value)
    decreases |file| - o
  {
    hide PhysicalAt, Intact, Whole, IsFront, IsRecord, Aligned;
    at' := [];
    var a, p := Aligned(o), PhysicalAt(step, true, file, o);
    if p.Bad? {
      at' := RecordIsGathered(step, file, p.next, false, if inFragment then [] else scratch, []);
    } else if p.Good? {
      GoodIsIntact(step, file, o);
      if p.t == 1 {
        GatherOne(step, file, a);
        at' := [a];
      } else if p.t == 2 {
        GatherOne(step, file, a);
        at' := RecordIsGathered(step, file, p.next, true, p.data, [a]);
      } else if (p.t == 3 || p.t == 4) && inFragment {
        GatherMore(step, file, at, scratch, o, a);
        at' := at + [a];
        if p.t == 3 {
          at' := RecordIsGathered(step, file, p.next, true, scratch + p.data, at + [a]);
        }
      } else if p.t == 3 || p.t == 4 {
        at' := RecordIsGathered(step, file, p.next, false, scratch, []);
      } else if p.t == BAD_RECORD_TYPE {
        at' := RecordIsGathered(step, file, p.next, false, if inFragment then [] else scratch, []);
      } else if p.t != EOF_TYPE {
        at' := RecordIsGathered(step, file, p.next, false, [], []);
      }
    }
  }

  /** With checksums, every record that is read consists of pieces whose checksums match. */
  lemma {:induction false} RecordsAreIntact(step: CrcStep, file: seq<Byte>, o: nat, data: seq<Byte>)
    requires o <= |file| && data in AllRecords(step, true, file, o).0
    ensures exists at :: IsRecord(step, file, at, data)
    decreases |file| - o
  {
    hide RecordAt, IsRecord;
    var first := RecordAt(step, true, file, o, false, []);
    var at := RecordIsGathered(step, file, o, false, [], []);
    if data != first.record.value {
      RecordsAreIntact(step, file, first.next, data);
    }
  }

  /** A whole and intact record stands at `a`. */
  ghost predicate Sound(step: CrcStep, file: seq<Byte>, a: nat) {
    Whole(file, a) && !Blank(file, a) && Intact(step, file, a)
  }

  lemma SoundIsRead(step: CrcStep, file: seq<Byte>, o: nat)
    requires o <= |file| && Sound(step, file, Aligned(o))
    ensures var a := Aligned(o);
      PhysicalAt(step, true, file, o) == Good(TypeAt(file, a), PayloadAt(file, a), EndAt(file, a))
  {
    GoodIsIntact(step, file, o);
  }

  /** A middle or last piece without a first one, or an unknown type, is reported and left out. */
  lemma MisplacedIsReported(step: CrcStep, file: seq<Byte>, a: nat)
    requires Aligned(a) == a && Sound(step, file, a) && TypeAt(file, a) !in {1, 2, 5, 6}
    ensures a <= |file| && EndAt(file, a) <= |file|
    ensures var rest := AllRecords(step, true, file, EndAt(file, a));
      AllRecords(step, true, file, a) == (rest.0, rest.1 + 1)
  {
    hide PhysicalAt, Intact;
    SoundIsRead(step, file, a);
    var end := EndAt(file, a);
    assert RecordAt(step, true, file, a, false, []) == Reported(1, RecordAt(step, true, file, end, false, []));
    hide RecordAt;
  }

  /** A first piece that another record follows instead of its continuation is reported and left out. */
  lemma UnfinishedIsReported(step: CrcStep, file: seq<Byte>, a: nat)
    requires Aligned(a) == a && Sound(step, file, a) && TypeAt(file, a) == 2 && PayloadAt(file, a) != []
    requires var b := Aligned(EndAt(file, a)); Sound(step, file, b) && TypeAt(file, b) in {1, 2}
    ensures a <= |file| && EndAt(file, a) <= |file|
    ensures var rest := AllRecords(step, true, file, EndAt(file, a));
      AllRecords(step, true, file, a) == (rest.0, rest.1 + 1)
  {
    hide PhysicalAt, Intact, Aligned;
    SoundIsRead(step, file, a);
    var end := EndAt(file, a);
    SoundIsRead(step, file, end);
    assert RecordAt(step, true, file, a, false, []) == RecordAt(step, true, file, end, true, PayloadAt(file, a));
    assert RecordAt(step, true, file, a, false, []) == Reported(1, RecordAt(step, true, file, end, false, []));
    hide RecordAt;
  }
}
