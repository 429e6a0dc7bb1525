/** Number encodings shared by the storage engine and the message codec: varints and little-endian words. */
module Coding {
  import opened Basics

  const TwoTo32 := 0x1_0000_0000
  const TwoTo64 := 0x1_0000_0000_0000_0000

  // ----- fixed width -----

  function EncodeFixed32(w: Word): (r: seq<Byte>)
    ensures |r| == 4
  {
    [w % 256, w / 256 % 256, w / 0x1_0000 % 256, w / 0x100_0000]
  }

  function DecodeFixed32(s: seq<Byte>): (w: Word)
    requires |s| == 4
  {
    var b0: int, b1: int, b2: int, b3: int := s[0], s[1], s[2], s[3];
    b0 + 256 * b1 + 0x1_0000 * b2 + 0x100_0000 * b3
  }

  lemma LowByte(low: Byte, high: nat)
    ensures (low + 256 * high) % 256 == low && (low + 256 * high) / 256 == high
  {
  }

  lemma Fixed32Back(s: seq<Byte>)
    requires |s| == 4
    ensures EncodeFixed32(DecodeFixed32(s)) == s
  {
    var b0: int, b1: int, b2: int, b3: int := s[0], s[1], s[2], s[3];
    LowByte(b0, b1 + 256 * (b2 + 256 * b3));
    LowByte(b1, b2 + 256 * b3);
    var w := DecodeFixed32(s);
    assert w == b0 + 256 * (b1 + 256 * (b2 + 256 * b3));
    assert w / 0x1_0000 == w / 256 / 256 && w / 0x100_0000 == w / 0x1_0000 / 256;
  }

  lemma Fixed32RoundTrip(w: Word)
    ensures DecodeFixed32(EncodeFixed32(w)) == w
  {
    assert w / 0x1_0000 == w / 256 / 256 && w / 0x100_0000 == w / 256 / 256 / 256;
  }

  function EncodeFixed64(v: nat): (r: seq<Byte>)
    requires v < TwoTo64
    ensures |r| == 8
  {
    EncodeFixed32(v % TwoTo32) + EncodeFixed32(v / TwoTo32)
  }

  function DecodeFixed64(s: seq<Byte>): (v: nat)
    requires |s| == 8
    ensures v < TwoTo64
  {
    DecodeFixed32(s[..4]) + TwoTo32 * DecodeFixed32(s[4..])
  }

  lemma Fixed64RoundTrip(v: nat)
    requires v < TwoTo64
    ensures DecodeFixed64(EncodeFixed64(v)) == v
  {
    hide EncodeFixed32, DecodeFixed32;
    var lo, hi := EncodeFixed32(v % TwoTo32), EncodeFixed32(v / TwoTo32);
    assert (lo + hi)[..4] == lo && (lo + hi)[4..] == hi;
    Fixed32RoundTrip(v % TwoTo32);
    Fixed32RoundTrip(v / TwoTo32);
  }

  /** Numbers as 32-bit little-endian words. */
  function Words(ws: seq<nat>): (r: seq<Byte>)
    ensures |r| == 4 * |ws|
  {
    if ws == [] then [] else Words(ws[..|ws| - 1]) + EncodeFixed32(ws[|ws| - 1] % TwoTo32)
  }

  lemma {:induction false} WordAt(ws: seq<nat>, i: nat)
    requires i < |ws|
    ensures Words(ws)[4 * i..4 * i + 4] == EncodeFixed32(ws[i] % TwoTo32)
  {
    var n := |ws| - 1;
    if i < n {
      WordAt(ws[..n], i);
      assert Words(ws)[4 * i..4 * i + 4] == Words(ws[..n])[4 * i..4 * i + 4];
    }
  }

  /** The word at an offset. */
  function WordOf(contents: seq<Byte>, o: nat): (r: Word)
    requires o + 4 <= |contents|
  {
    DecodeFixed32(contents[o..o + 4])
  }

  // ----- base 128 -----

  /** `v << n` in unbounded arithmetic. */
  function Shift(v: nat, n: nat): (r: nat) {
    v * Pow2(n)
  }

  lemma Pow2Seven(n: nat)
    ensures Pow2(n + 7) == 128 * Pow2(n)
  {
    assert Pow2(n + 3) == 8 * Pow2(n) by {
      assert Pow2(n + 3) == 2 * Pow2(n + 2) && Pow2(n + 2) == 2 * Pow2(n + 1);
    }
    assert Pow2(n + 7) == 16 * Pow2(n + 3) by {
      assert Pow2(n + 7) == 2 * Pow2(n + 6) && Pow2(n + 6) == 2 * Pow2(n + 5) && Pow2(n + 5) == 2 * Pow2(n + 4);
    }
  }

  /** Groups of seven bits, the lowest first, with the top bit set on all bytes but the last. */
  function Varint(v: nat): (r: seq<Byte>)
    ensures |r| >= 1
  {
    if v < 128 then [v] else [v % 128 + 128] + Varint(v / 128)
  }

  lemma Distribute(lo: nat, hi: nat, p: nat)
    ensures (lo + 128 * hi) * p == lo * p + hi * (128 * p)
    ensures hi >= 1 ==> hi * (128 * p) >= 128 * p
  {
  }

  /** The lowest seven bits and the others, each shifted into place. */
  lemma ShiftSplits(v: nat, n: nat)
    ensures Shift(v, n) == Shift(v % 128, n) + Shift(v / 128, n + 7)
    ensures v >= 128 ==> Shift(v, n) >= Pow2(n + 7)
  {
    hide Pow2;
    Pow2Seven(n);
    Distribute(v % 128, v / 128, Pow2(n));
  }

  lemma FirstByte(v: nat, rest: seq<Byte>)
    ensures |Varint(v) + rest| > 0
    ensures v < 128 ==> (Varint(v) + rest)[0] == v && (Varint(v) + rest)[1..] == rest
    ensures v >= 128 ==> (Varint(v) + rest)[0] == v % 128 + 128 && (Varint(v) + rest)[1..] == Varint(v / 128) + rest
  {
    if v >= 128 {
      assert (Varint(v) + rest)[1..] == Varint(v)[1..] + rest;
    }
  }

  lemma {:induction false} Pow2Monotone(m: nat, n: nat)
    requires m <= n
    ensures Pow2(m) <= Pow2(n)
  {
    if m < n {
      Pow2Monotone(m, n - 1);
    }
  }

  lemma Pow2Values()
    ensures Pow2(28) == 0x1000_0000 && Pow2(32) == TwoTo32 && Pow2(64) == TwoTo64
  {
    assert Pow2(0) == 1;
    hide Pow2;
    Pow2Seven(0);
    Pow2Seven(7);
    Pow2Seven(14);
    Pow2Seven(21);
    Pow2Sixteen(0);
    Pow2Sixteen(16);
    Pow2Sixteen(32);
    Pow2Sixteen(48);
  }

  lemma Pow2Sixteen(n: nat)
    ensures Pow2(n + 16) == 0x1_0000 * Pow2(n)
  {
    Pow2Seven(n);
    Pow2Seven(n + 7);
    assert Pow2(n + 16) == 2 * Pow2(n + 15);
  }

  lemma SmallPow2(n: nat)
    ensures Pow2(n) < TwoTo64 ==> n < 64
    ensures Pow2(n) < TwoTo32 ==> n < 32
  {
    Pow2Values();
    if n >= 64 {
      Pow2Monotone(64, n);
    }
    if n >= 32 {
      Pow2Monotone(32, n);
    }
  }

  // ----- reading varints -----

  /** What reading a stream yields: a value with the bytes that are left, or an error. */
  datatype Read<T> = Got(value: T, rest: seq<Byte>) | Fail

  /** Reading up to ten bytes into 64 bits; bits that do not fit are lost. */
  function ReadVarint(input: seq<Byte>, bitpos: nat, result: nat): (r: Read<nat>)
    ensures r.Got? ==> |r.rest| < |input|
    decreases |input|
  {
    if bitpos >= 64 || input == [] then Fail
    else
      var next := (result + Shift(input[0] % 128, bitpos)) % TwoTo64;
      if input[0] >= 128 then ReadVarint(input[1..], bitpos + 7, next) else Got(next, input[1..])
  }

  lemma {:induction false} ReadVarintInverts(v: nat, bitpos: nat, result: nat, rest: seq<Byte>)
    requires bitpos < 64 && result + Shift(v, bitpos) < TwoTo64
    ensures ReadVarint(Varint(v) + rest, bitpos, result) == Got(result + Shift(v, bitpos), rest)
    decreases v
  {
    hide Shift, Varint;
    FirstByte(v, rest);
    if v >= 128 {
      ShiftSplits(v, bitpos);
      SmallPow2(bitpos + 7);
      ReadVarintInverts(v / 128, bitpos + 7, result + Shift(v % 128, bitpos), rest);
    }
  }

  /** A varint of a 64-bit number reads back as that number, and leaves what follows it. */
  lemma VarintRoundTrip(v: nat, rest: seq<Byte>)
    requires v < TwoTo64
    ensures ReadVarint(Varint(v) + rest, 0, 0) == Got(v, rest)
  {
    hide ReadVarint, Varint;
    assert Pow2(0) == 1;
    ReadVarintInverts(v, 0, 0, rest);
  }

  /** A 32-bit varint of at most five bytes; bits beyond 32 are lost. */
  function GetVarint32(s: seq<Byte>, shift: nat, result: nat): (r: Read<nat>)
    ensures r.Got? ==> |r.rest| < |s|
    decreases |s|
  {
    if shift > 28 || s == [] then Fail
    else
      var next := (result + Shift(s[0] % 128, shift)) % TwoTo32;
      if s[0] >= 128 then GetVarint32(s[1..], shift + 7, next) else Got(next, s[1..])
  }

  lemma {:induction false} GetVarint32Inverts(v: nat, shift: nat, result: nat, rest: seq<Byte>)
    requires shift <= 28 && shift % 7 == 0 && result + Shift(v, shift) < TwoTo32
    ensures GetVarint32(Varint(v) + rest, shift, result) == Got(result + Shift(v, shift), rest)
    decreases v
  {
    hide Shift, Varint;
    FirstByte(v, rest);
    if v >= 128 {
      ShiftSplits(v, shift);
      SmallPow2(shift + 7);
      GetVarint32Inverts(v / 128, shift + 7, result + Shift(v % 128, shift), rest);
    }
  }

  lemma GetVarint32RoundTrip(v: nat, rest: seq<Byte>)
    requires v < TwoTo32
    ensures GetVarint32(Varint(v) + rest, 0, 0) == Got(v, rest)
  {
    hide GetVarint32, Varint;
    assert Pow2(0) == 1;
    GetVarint32Inverts(v, 0, 0, rest);
  }

  // ----- strings with their length in front -----

  function Slice(s: seq<Byte>): (r: seq<Byte>) {
    Varint(|s|) + s
  }

  function GetSlice(s: seq<Byte>): (r: Read<seq<Byte>>)
    ensures r.Got? ==> |r.rest| < |s|
  {
    var len := GetVarint32(s, 0, 0);
    if len.Fail? || |len.rest| < len.value then Fail else Got(len.rest[..len.value], len.rest[len.value..])
  }

  lemma SliceReads(s: seq<Byte>, rest: seq<Byte>)
    requires |s| < TwoTo32
    ensures GetSlice(Slice(s) + rest) == Got(s, rest)
  {
    hide GetVarint32, Varint;
    assert Slice(s) + rest == Varint(|s|) + (s + rest);
    GetVarint32RoundTrip(|s|, s + rest);
    assert (s + rest)[..|s|] == s && (s + rest)[|s|..] == rest;
  }
}
