/**
  The write-ahead log on disk: checksums, physical records inside 32 KB blocks, and the bytes
  that a record becomes when it is appended at some offset of the file.
 */
module LogFormat {
  import opened Basics
  import opened Coding

  const BLOCK_SIZE := 32768
  const HEADER_SIZE := 7
  const MASK_DELTA := 0xa282ead8

  // Checksums.  The table lookup of one byte is a parameter; what matters is that a checksum
  // is a left fold of it.

  type CrcStep = (Word, Byte) -> Word

  function Fold(step: CrcStep, l: Word, data: seq<Byte>): (r: Word)
    decreases |data|
  {
    if data == [] then l else Fold(step, step(l, data[0]), data[1..])
  }

  /** Complementing before and after is exclusive or with 0xffffffff. */
  function Extend(step: CrcStep, crc: Word, data: seq<Byte>): (r: Word) {
    0xffff_ffff - Fold(step, 0xffff_ffff - crc, data)
  }

  function Value(step: CrcStep, data: seq<Byte>): (r: Word) {
    Extend(step, 0, data)
  }

  lemma {:induction false} FoldConcat(step: CrcStep, l: Word, a: seq<Byte>, b: seq<Byte>)
    ensures Fold(step, l, a + b) == Fold(step, Fold(step, l, a), b)
    decreases |a|
  {
    if a == [] {
      assert a + b == b;
    } else {
      assert (a + b)[1..] == a[1..] + b;
      FoldConcat(step, step(l, a[0]), a[1..], b);
    }
  }

  /** The checksum of a type byte can be extended by the payload. */
  lemma ExtendValue(step: CrcStep, a: seq<Byte>, b: seq<Byte>)
    ensures Extend(step, Value(step, a), b) == Value(step, a + b)
  {
    FoldConcat(step, 0xffff_ffff, a, b);
  }

  /** Rotate right by 15 bits and add a constant. */
  function Mask(crc: Word): (r: Word) {
    (crc / 0x8000 + (crc % 0x8000) * 0x2_0000 + MASK_DELTA) % 0x1_0000_0000
  }

  function Unmask(masked: Word): (r: Word) {
    var rot := (masked - MASK_DELTA) % 0x1_0000_0000;
    rot / 0x2_0000 + (rot % 0x2_0000) * 0x8000
  }

  lemma UnmaskMask(crc: Word)
    ensures Unmask(Mask(crc)) == crc
  {
    var a, b := crc / 0x8000, crc % 0x8000;
    assert crc == a * 0x8000 + b && 0 <= a < 0x2_0000 && 0 <= b < 0x8000;
    var rot := a + b * 0x2_0000;
    assert (Mask(crc) - MASK_DELTA) % 0x1_0000_0000 == rot;
    assert rot / 0x2_0000 == b && rot % 0x2_0000 == a;
  }

  lemma MaskUnmask(masked: Word)
    ensures Mask(Unmask(masked)) == masked
  {
    var rot := (masked - MASK_DELTA) % 0x1_0000_0000;
    var a, b := rot % 0x2_0000, rot / 0x2_0000;
    assert rot == b * 0x2_0000 + a && 0 <= a < 0x2_0000 && 0 <= b < 0x8000;
    var crc := b + a * 0x8000;
    assert crc / 0x8000 == a && crc % 0x8000 == b;
    assert (rot + MASK_DELTA) % 0x1_0000_0000 == masked;
  }

  /** Four bytes unmask to a checksum exactly if they are its masked form. */
  lemma WordIsMasked(s: seq<Byte>, crc: Word)
    requires |s| == 4
    ensures Unmask(DecodeFixed32(s)) == crc <==> s == EncodeFixed32(Mask(crc))
  {
    hide EncodeFixed32, DecodeFixed32, Mask, Unmask;
    Fixed32Back(s);
    Fixed32RoundTrip(Mask(crc));
    MaskUnmask(DecodeFixed32(s));
    UnmaskMask(crc);
  }

  // Physical records

  datatype RecordType = Full | First | Middle | Last

  function TypeByte(t: RecordType): (b: Byte) {
    match t
    case Full => 1
    case First => 2
    case Middle => 3
    case Last => 4
  }

  /** Header and payload of a physical record with any type byte. */
  function Framed(step: CrcStep, t: Byte, data: seq<Byte>): (r: seq<Byte>)
    requires |data| <= 0xffff
    ensures |r| == HEADER_SIZE + |data|
  {
    EncodeFixed32(Mask(Extend(step, Value(step, [t]), data))) + [|data| % 256, |data| / 256, t] + data
  }

  /** One physical record as it is written. */
  function Physical(step: CrcStep, t: RecordType, data: seq<Byte>): (r: seq<Byte>)
    requires |data| <= 0xffff
    ensures |r| == HEADER_SIZE + |data|
  {
    Framed(step, TypeByte(t), data)
  }

  // Layout

  /** Where the next physical record starts: a block tail too short for a header is skipped. */
  function Aligned(o: nat): (r: nat)
    ensures o <= r < o + HEADER_SIZE && r % BLOCK_SIZE <= BLOCK_SIZE - HEADER_SIZE
    ensures r != o ==> r % BLOCK_SIZE == 0
  {
    if BLOCK_SIZE - o % BLOCK_SIZE < HEADER_SIZE then o + (BLOCK_SIZE - o % BLOCK_SIZE) else o
  }

  /** Payload that still fits into the block of an aligned offset. */
  function Avail(o: nat): (n: nat)
    requires o % BLOCK_SIZE <= BLOCK_SIZE - HEADER_SIZE
    ensures n <= 0xffff
  {
    BLOCK_SIZE - o % BLOCK_SIZE - HEADER_SIZE
  }

  function FragmentLength(o: nat, data: seq<Byte>): (n: nat)
    requires o % BLOCK_SIZE <= BLOCK_SIZE - HEADER_SIZE
    ensures n <= |data| && n <= 0xffff
  {
    if |data| < Avail(o) then |data| else Avail(o)
  }

  function FragmentType(begin: bool, end: bool): RecordType {
    if begin && end then Full else if begin then First else if end then Last else Middle
  }

  /** The first fragment of `data` at offset `o`, with the filler before it. */
  function Fragment(step: CrcStep, o: nat, data: seq<Byte>, begin: bool): (r: seq<Byte>)
    ensures |r| == Aligned(o) - o + HEADER_SIZE + FragmentLength(Aligned(o), data)
  {
    var a := Aligned(o);
    var n := FragmentLength(a, data);
    Zeros(a - o) + Physical(step, FragmentType(begin, n == |data|), data[..n])
  }

  /** The bytes that appending `data` at offset `o` of the file adds. */
  function Layout(step: CrcStep, o: nat, data: seq<Byte>, begin: bool): (r: seq<Byte>)
    ensures |r| >= HEADER_SIZE
    decreases |data|, if Avail(Aligned(o)) == 0 then 1 else 0
  {
    var n := FragmentLength(Aligned(o), data);
    var head := Fragment(step, o, data, begin);
    if n == |data| then head
    else
      FullBlockIsAligned(Aligned(o), n);
      head + Layout(step, o + |head|, data[n..], false)
  }

  /** After a fragment that fills its block, the next one starts a fresh block. */
  lemma FullBlockIsAligned(a: nat, n: nat)
    requires a % BLOCK_SIZE <= BLOCK_SIZE - HEADER_SIZE && n == Avail(a)
    ensures (a + HEADER_SIZE + n) % BLOCK_SIZE == 0
    ensures Aligned(a + HEADER_SIZE + n) == a + HEADER_SIZE + n && Avail(a + HEADER_SIZE + n) > 0
  {
    var q := a / BLOCK_SIZE;
    assert a + HEADER_SIZE + n == (q + 1) * BLOCK_SIZE;
  }

  /** A record is its first fragment, followed by the layout of what is left, in a fresh block. */
  lemma LayoutUnfold(step: CrcStep, o: nat, data: seq<Byte>, begin: bool)
    ensures var n, head := FragmentLength(Aligned(o), data), Fragment(step, o, data, begin);
            if n == |data| then Layout(step, o, data, begin) == head
            else && n == Avail(Aligned(o)) && Avail(Aligned(o + |head|)) > 0
                 && Layout(step, o, data, begin) == head + Layout(step, o + |head|, data[n..], false)
  {
    var n := FragmentLength(Aligned(o), data);
    if n < |data| {
      FullBlockIsAligned(Aligned(o), n);
    }
  }

  /** The bytes of a log that holds `records`, starting at offset `o`. */
  function LogFrom(step: CrcStep, o: nat, records: seq<seq<Byte>>): (r: seq<Byte>)
    decreases |records|
  {
    if records == [] then []
    else
      var first := Layout(step, o, records[0], true);
      first + LogFrom(step, o + |first|, records[1..])
  }

  lemma {:induction false} LogAppend(step: CrcStep, o: nat, records: seq<seq<Byte>>, r: seq<Byte>)
    ensures LogFrom(step, o, records + [r]) ==
            LogFrom(step, o, records) + Layout(step, o + |LogFrom(step, o, records)|, r, true)
    decreases |records|
  {
    hide Layout;
    if records == [] {
      assert [r][1..] == [];
      assert LogFrom(step, o, [r]) == Layout(step, o, r, true) + [];
    } else {
      var first := Layout(step, o, records[0], true);
      assert (records + [r])[1..] == records[1..] + [r];
      LogAppend(step, o + |first|, records[1..], r);
    }
  }
}
