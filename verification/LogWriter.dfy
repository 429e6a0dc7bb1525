/**
  The log writer: splits a record into fragments that never cross a block boundary.
 */
module LogWriter {
  import opened Basics
  import opened Coding
  import opened LogFormat

  class Writer {
    const step: CrcStep
    var dest: seq<Byte>
    var blockOffset: nat

    /** The block offset is that of the end of the file; a full block counts as its own end. */
    ghost predicate Valid()
      reads this
    {
      blockOffset <= BLOCK_SIZE && blockOffset % BLOCK_SIZE == |dest| % BLOCK_SIZE
    }

    /** Open a file for appending, possibly one that earlier writers have filled. */
    constructor (step: CrcStep, existing: seq<Byte>)
      ensures Valid() && dest == existing && this.step == step
    {
      this.step, dest, blockOffset := step, existing, |existing| % BLOCK_SIZE;
    }

    method EmitPhysicalRecord(t: RecordType, data: seq<Byte>)
      requires blockOffset + HEADER_SIZE + |data| <= BLOCK_SIZE
      modifies this
      ensures dest == old(dest) + Physical(step, t, data)
      ensures blockOffset == old(blockOffset) + HEADER_SIZE + |data|
    {
      var crc := Extend(step, Value(step, [TypeByte(t)]), data);
      var header := EncodeFixed32(Mask(crc)) + [|data| % 256, |data| / 256, TypeByte(t)];
      ghost var before := dest;
      dest := dest + header;
      dest := dest + data;
      assert before + header + data == before + (header + data);
      blockOffset := blockOffset + HEADER_SIZE + |data|;
    }

    /** Start a new block if the current one has no room for a header. */
    method SkipTrailer()
      requires Valid()
      modifies this
      ensures Valid() && blockOffset <= BLOCK_SIZE - HEADER_SIZE
      ensures |dest| == Aligned(|old(dest)|) && dest == old(dest) + Zeros(|dest| - |old(dest)|)
      ensures blockOffset == |dest| % BLOCK_SIZE
    {
      var leftover := BLOCK_SIZE - blockOffset;
      if leftover < HEADER_SIZE {
        if leftover > 0 {
          dest := dest + Zeros(leftover);
        }
        blockOffset := 0;
      }
      assert dest == old(dest) + Zeros(|dest| - |old(dest)|);
    }

    /** Write the next fragment of a record. */
    method AddFragment(left: seq<Byte>, begin: bool) returns (n: nat)
      requires Valid()
      modifies this
      ensures Valid() && n == FragmentLength(Aligned(|old(dest)|), left)
      ensures dest == old(dest) + Fragment(step, |old(dest)|, left, begin)
    {
      hide Physical, Zeros;
      SkipTrailer();
      var avail := BLOCK_SIZE - blockOffset - HEADER_SIZE;
      n := if |left| < avail then |left| else avail;
      var end := |left| == n;
      var t := if begin && end then Full else if begin then First else if end then Last else Middle;
      ghost var filler := Zeros(|dest| - |old(dest)|);
      EmitPhysicalRecord(t, left[..n]);
      assert old(dest) + filler + Physical(step, t, left[..n]) == old(dest) + (filler + Physical(step, t, left[..n]));
    }

    /** Append a record; the bytes added depend only on the record and the length of the file. */
    method AddRecord(record: seq<Byte>)
      requires Valid()
      modifies this
      ensures Valid() && dest == old(dest) + Layout(step, |old(dest)|, record, true)
    {
      hide Fragment, Layout, Aligned, Avail, Zeros;
      var left := record;
      var begin := true;
      ghost var done: seq<Byte> := [];
      while true
        invariant Valid() && dest == old(dest) + done
        invariant Layout(step, |old(dest)|, record, true) == done + Layout(step, |dest|, left, begin)
        decreases |left|, if Avail(Aligned(|dest|)) == 0 then 1 else 0
      {
        ghost var head := Fragment(step, |dest|, left, begin);
        LayoutUnfold(step, |dest|, left, begin);
        var n := AddFragment(left, begin);
        assert old(dest) + done + head == old(dest) + (done + head);
        if n == |left| {
          break;
        }
        ghost var rest := Layout(step, |dest|, left[n..], false);
        assert done + (head + rest) == (done + head) + rest;
        done := done + head;
        left := left[n..];
        begin := false;
      }
    }
  }

  /** Append records in one session to a file that may already hold a log. */
  method WriteSession(step: CrcStep, existing: seq<Byte>, ghost before: seq<seq<Byte>>, records: seq<seq<Byte>>)
    returns (file: seq<Byte>)
    requires existing == LogFrom(step, 0, before)
    ensures file == LogFrom(step, 0, before + records)
  {
    hide Layout, LogFrom;
    var w := new Writer(step, existing);
    assert before + records[..0] == before;
    for i := 0 to |records|
      invariant fresh(w) && w.Valid() && w.step == step && w.dest == LogFrom(step, 0, before + records[..i])
    {
      LogAppend(step, 0, before + records[..i], records[i]);
      assert before + records[..i + 1] == before + records[..i] + [records[i]];
      w.AddRecord(records[i]);
    }
    assert records[..|records|] == records;
    file := w.dest;
  }
}
