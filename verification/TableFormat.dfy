/**
  The bytes of a table file: internal keys and their order, block handles, blocks with a type
  and a checksum behind them, and the footer that leads to the index.
 */
module TableFormat {
  import opened Basics
  import opened Coding
  import opened InternalKeys
  import opened KeyCodec
  import opened Separators
  import opened BlockFormat
  import opened BlockIters
  import LogFormat

  // ----- internal keys -----

  function TagOf(k: StoredKey): (r: nat) {
    256 * k.sn + if k.kind == Value then 1 else 0
  }

  function KeyBytes(k: StoredKey): (r: seq<Byte>)
    ensures |r| == |k.user| + 8
  {
    PackKey(k.user, TagOf(k))
  }

  /** The order of internal keys as bytes: increasing user key, then decreasing tag. */
  predicate KeyLess(a: seq<Byte>, b: seq<Byte>) {
    && |a| >= 8 && |b| >= 8
    && (BytesLess(UserPart(a), UserPart(b)) || (UserPart(a) == UserPart(b) && TagPart(a) > TagPart(b)))
  }

  function ParseKey(b: seq<Byte>): (r: Option<StoredKey>) {
    if |b| < 8 || TagPart(b) % 256 > 1 then None
    else Some(StoredKey(UserPart(b), TagPart(b) / 256, if TagPart(b) % 256 == 1 then Value else Deletion))
  }

  lemma PartsOf(k: StoredKey)
    requires k.sn <= MAX_SEQUENCE_NUMBER
    ensures UserPart(KeyBytes(k)) == k.user && TagPart(KeyBytes(k)) == TagOf(k)
  {
    Unpacks(k.user, TagOf(k));
  }

  lemma ParsesBack(k: StoredKey)
    requires k.sn <= MAX_SEQUENCE_NUMBER
    ensures ParseKey(KeyBytes(k)) == Some(k)
  {
    PartsOf(k);
    hide KeyBytes, UserPart, TagPart;
  }

  lemma KeyLessTransitive()
    ensures Transitive(KeyLess)
  {
    forall a, b, c | KeyLess(a, b) && KeyLess(b, c) ensures KeyLess(a, c) {
      RankOrder(UserPart(a), UserPart(b));
      RankOrder(UserPart(b), UserPart(c));
      RankOrder(UserPart(a), UserPart(c));
    }
  }

  lemma BytesLessTransitive()
    ensures Transitive(BytesLess)
  {
    forall a, b, c | BytesLess(a, b) && BytesLess(b, c) ensures BytesLess(a, c) {
      RankOrder(a, b);
      RankOrder(b, c);
      RankOrder(a, c);
    }
  }

  /** The order of the bytes is the order of internal keys. */
  lemma KeyLessIsBefore(a: StoredKey, b: StoredKey)
    requires a.sn <= MAX_SEQUENCE_NUMBER && b.sn <= MAX_SEQUENCE_NUMBER
    ensures KeyLess(KeyBytes(a), KeyBytes(b)) <==> Before(Ranked(a), Ranked(b))
  {
    PartsOf(a);
    PartsOf(b);
    RankOrder(a.user, b.user);
    hide KeyBytes, UserPart, TagPart, BytesLess, Rank;
  }

  // ----- handles -----

  datatype Handle = Handle(offset: nat, size: nat)

  function HandleBytes(h: Handle): (r: seq<Byte>) {
    Varint(h.offset) + Varint(h.size)
  }

  function ReadHandle(s: seq<Byte>): (r: Read<Handle>) {
    var offset := ReadVarint(s, 0, 0);
    if offset.Fail? then Fail
    else
      var size := ReadVarint(offset.rest, 0, 0);
      if size.Fail? then Fail else Got(Handle(offset.value, size.value), size.rest)
  }

  predicate HandleOk(h: Handle) {
    h.offset < TwoTo64 && h.size < TwoTo64
  }

  lemma HandleReads(h: Handle, rest: seq<Byte>)
    requires HandleOk(h)
    ensures ReadHandle(HandleBytes(h) + rest) == Got(h, rest)
  {
    hide ReadVarint, Varint;
    assert HandleBytes(h) + rest == Varint(h.offset) + (Varint(h.size) + rest);
    VarintRoundTrip(h.offset, Varint(h.size) + rest);
    VarintRoundTrip(h.size, rest);
  }

  lemma HandleAlone(h: Handle)
    requires HandleOk(h)
    ensures ReadHandle(HandleBytes(h)) == Got(h, [])
  {
    hide ReadHandle, HandleBytes;
    HandleReads(h, []);
    assert HandleBytes(h) + [] == HandleBytes(h);
  }

  lemma {:induction false} VarintLength(v: nat, n: nat)
    requires n >= 1 && v < Pow2(7 * n)
    ensures |Varint(v)| <= n
  {
    if v >= 128 {
      assert Pow2(7) == 128;
      assert n > 1;
      assert Pow2(7 * n) == 128 * Pow2(7 * (n - 1)) by {
        Pow2Seven(7 * (n - 1));
      }
      VarintLength(v / 128, n - 1);
    }
  }

  lemma HandleLength(h: Handle)
    requires HandleOk(h)
    ensures |HandleBytes(h)| <= 20
  {
    hide Varint;
    SeventyBits();
    VarintLength(h.offset, 10);
    VarintLength(h.size, 10);
  }

  lemma SeventyBits()
    ensures Pow2(70) >= TwoTo64
  {
    Pow2Values();
    Pow2Monotone(64, 70);
  }

  // ----- blocks in the file -----

  const TRAILER_SIZE := 5

  /** The type byte of a block that is not compressed, and the masked checksum of the block and the type. */
  function Trailer(step: LogFormat.CrcStep, contents: seq<Byte>): (r: seq<Byte>)
    ensures |r| == TRAILER_SIZE
  {
    [0] + EncodeFixed32(LogFormat.Mask(LogFormat.Extend(step, LogFormat.Value(step, contents), [0])))
  }

  ghost predicate Stored(step: LogFormat.CrcStep, file: seq<Byte>, h: Handle, contents: seq<Byte>) {
    && |contents| == h.size && h.offset + h.size + TRAILER_SIZE <= |file|
    && file[h.offset..h.offset + h.size] == contents
    && file[h.offset + h.size..h.offset + h.size + TRAILER_SIZE] == Trailer(step, contents)
  }

  /** Read the block at a handle; compressed blocks are refused. */
  function ReadBlock(step: LogFormat.CrcStep, verify: bool, file: seq<Byte>, h: Handle): (r: Option<seq<Byte>>) {
    var n := h.size;
    if h.offset + n + TRAILER_SIZE > |file| then None
    else
      var data := file[h.offset..h.offset + n + TRAILER_SIZE];
      if verify && LogFormat.Unmask(DecodeFixed32(data[n + 1..n + 5])) != LogFormat.Value(step, data[..n + 1]) then None
      else if data[n] == 0 then Some(data[..n])
      else None
  }

  lemma StoredReads(step: LogFormat.CrcStep, verify: bool, file: seq<Byte>, h: Handle, contents: seq<Byte>)
    requires Stored(step, file, h, contents)
    ensures ReadBlock(step, verify, file, h) == Some(contents)
  {
    hide EncodeFixed32, DecodeFixed32, LogFormat.Mask, LogFormat.Unmask;
    var n, data := h.size, file[h.offset..h.offset + h.size + TRAILER_SIZE];
    var crc := LogFormat.Mask(LogFormat.Extend(step, LogFormat.Value(step, contents), [0]));
    var trailer := Trailer(step, contents);
    assert data == contents + trailer;
    assert trailer[1..5] == EncodeFixed32(crc) && trailer[0] == 0;
    assert data[n + 1..n + 5] == trailer[1..5] && data[..n] == contents && data[..n + 1] == contents + [0];
    Fixed32RoundTrip(crc);
    LogFormat.ExtendValue(step, contents, [0]);
    LogFormat.UnmaskMask(LogFormat.Value(step, contents + [0]));
  }

  /** With checksums verified, exactly what was stored is read: a block that was damaged is refused. */
  lemma VerifiedIffStored(step: LogFormat.CrcStep, file: seq<Byte>, h: Handle, contents: seq<Byte>)
    ensures ReadBlock(step, true, file, h) == Some(contents) <==> Stored(step, file, h, contents)
  {
    if Stored(step, file, h, contents) {
      StoredReads(step, true, file, h, contents);
    }
    if ReadBlock(step, true, file, h) == Some(contents) {
      hide EncodeFixed32, DecodeFixed32, LogFormat.Mask, LogFormat.Unmask, LogFormat.Extend, LogFormat.Value;
      var n, data := h.size, file[h.offset..h.offset + h.size + TRAILER_SIZE];
      assert data[..n] == contents && data[..n + 1] == contents + [0];
      LogFormat.WordIsMasked(data[n + 1..n + 5], LogFormat.Value(step, contents + [0]));
      LogFormat.ExtendValue(step, contents, [0]);
      assert data[n..] == [0] + data[n + 1..n + 5];
      assert file[h.offset + n..h.offset + n + TRAILER_SIZE] == data[n..];
      assert file[h.offset..h.offset + n] == contents;
    }
  }

  lemma StoredStays(step: LogFormat.CrcStep, file: seq<Byte>, more: seq<Byte>, h: Handle, contents: seq<Byte>)
    requires Stored(step, file, h, contents)
    ensures Stored(step, file + more, h, contents)
  {
    hide Trailer;
    var all, a, b := file + more, h.offset, h.offset + h.size;
    assert all[a..b] == file[a..b] && all[b..b + TRAILER_SIZE] == file[b..b + TRAILER_SIZE];
  }

  lemma StoredAtEnd(step: LogFormat.CrcStep, file: seq<Byte>, contents: seq<Byte>)
    ensures Stored(step, file + contents + Trailer(step, contents), Handle(|file|, |contents|), contents)
  {
    hide Trailer;
    var trailer := Trailer(step, contents);
    var all, a, b := file + contents + trailer, |file|, |file| + |contents|;
    assert all[a..b] == contents && all[b..b + TRAILER_SIZE] == trailer;
  }

  // ----- footer -----

  const FOOTER_SIZE := 48
  const MAGIC_LOW: Word := 0x8b80_fb57
  const MAGIC_HIGH: Word := 0xdb47_7524

  function Resized(s: seq<Byte>, n: nat): (r: seq<Byte>)
    ensures |r| == n
  {
    if |s| < n then s + Zeros(n - |s|) else s[..n]
  }

  /** Two handles, padded to their greatest length, and the magic number. */
  function FooterBytes(meta: Handle, index: Handle): (r: seq<Byte>)
    ensures |r| == FOOTER_SIZE
  {
    Resized(HandleBytes(meta) + HandleBytes(index), 40) + EncodeFixed32(MAGIC_LOW) + EncodeFixed32(MAGIC_HIGH)
  }

  datatype Footer = Footer(meta: Handle, index: Handle)

  function ReadFooter(s: seq<Byte>): (r: Option<Footer>)
    requires |s| == FOOTER_SIZE
  {
    if DecodeFixed32(s[40..44]) != MAGIC_LOW || DecodeFixed32(s[44..48]) != MAGIC_HIGH then None
    else
      var meta := ReadHandle(s);
      if meta.Fail? then None
      else
        var index := ReadHandle(meta.rest);
        if index.Fail? then None else Some(Footer(meta.value, index.value))
  }

  /** A file without the magic number at its end is refused. */
  lemma FooterHasMagic(s: seq<Byte>)
    requires |s| == FOOTER_SIZE && ReadFooter(s).Some?
    ensures s[40..] == [0x57, 0xfb, 0x80, 0x8b, 0x24, 0x75, 0x47, 0xdb]
  {
    hide ReadHandle, DecodeFixed32;
    assert EncodeFixed32(MAGIC_LOW) == [0x57, 0xfb, 0x80, 0x8b];
    assert EncodeFixed32(MAGIC_HIGH) == [0x24, 0x75, 0x47, 0xdb];
    hide EncodeFixed32;
    Fixed32Back(s[40..44]);
    Fixed32Back(s[44..48]);
    assert s[40..] == s[40..44] + s[44..48];
  }

  lemma FooterReads(meta: Handle, index: Handle)
    requires HandleOk(meta) && HandleOk(index)
    ensures ReadFooter(FooterBytes(meta, index)) == Some(Footer(meta, index))
  {
    hide HandleBytes, ReadHandle, EncodeFixed32, DecodeFixed32;
    HandleLength(meta);
    HandleLength(index);
    var a, b := HandleBytes(meta), HandleBytes(index);
    var pad := Zeros(40 - |a + b|);
    var low, high := EncodeFixed32(MAGIC_LOW), EncodeFixed32(MAGIC_HIGH);
    var s := a + b + pad + low + high;
    assert |a + b + pad| == 40 && Resized(a + b, 40) == a + b + pad;
    assert s[40..44] == low && s[44..48] == high;
    Fixed32RoundTrip(MAGIC_LOW);
    Fixed32RoundTrip(MAGIC_HIGH);
    assert s == a + (b + (pad + low + high));
    HandleReads(meta, b + (pad + low + high));
    HandleReads(index, pad + low + high);
  }
}
