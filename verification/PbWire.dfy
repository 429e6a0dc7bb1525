/**
  The Protocol Buffers wire format below fields: base-128 varints, zigzag integers, fixed-width
  integers, and the two ways the decoder reads a varint.
 */
module PbWire {
  import opened Basics
  import opened Coding

  method EncodeVarint(value: nat) returns (buffer: seq<Byte>)
    ensures buffer == Varint(value)
  {
    VarintIs(value);
    if value <= 0x7F {
      return [value];
    }
    hide Varint;
    buffer := [];
    var v: nat := value;
    assert [] + Varint(value) == Varint(value);
    while v > 0
      invariant v > 0 ==> Varint(value) == buffer + Varint(v)
      invariant v == 0 ==> |buffer| > 0 && buffer[|buffer| - 1] >= 128
      invariant v == 0 ==> Varint(value) == buffer[..|buffer| - 1] + [buffer[|buffer| - 1] - 128]
    {
      VarintIs(v);
      var byte := v % 128 + 128;
      assert v >= 128 ==> buffer + ([byte] + Varint(v / 128)) == (buffer + [byte]) + Varint(v / 128);
      assert (buffer + [byte])[..|buffer|] == buffer;
      buffer := buffer + [byte];
      v := v / 128;
    }
    buffer := buffer[|buffer| - 1 := buffer[|buffer| - 1] - 128];
  }

  lemma VarintIs(v: nat)
    ensures Varint(v) == if v < 128 then [v] else [v % 128 + 128] + Varint(v / 128)
  {
  }

  method DecodeVarint(input: seq<Byte>) returns (r: Read<nat>)
    ensures r == ReadVarint(input, 0, 0)
  {
    var rest, bitpos, result: nat := input, 0, 0;
    while true
      invariant ReadVarint(input, 0, 0) == ReadVarint(rest, bitpos, result)
      decreases |rest|
    {
      if bitpos >= 64 || rest == [] {
        return Fail;
      }
      var byte := rest[0];
      result := (result + Shift(byte % 128, bitpos)) % TwoTo64;
      bitpos := bitpos + 7;
      rest := rest[1..];
      if byte < 128 {
        return Got(result, rest);
      }
    }
  }

  /** Reading into 32 bits after a first byte: further bytes may only repeat the sign of the result. */
  function ReadMore32(input: seq<Byte>, bitpos: nat, result: nat): (r: Read<nat>)
    ensures r.Got? ==> |r.rest| < |input|
    decreases |input|
  {
    if input == [] then Fail
    else
      var byte := input[0];
      var extension := if bitpos < 63 then 0xFF else 0x01;
      if bitpos >= 32 && byte % 128 != 0 && (result < 0x8000_0000 || byte != extension) then Fail
      else
        var next := if bitpos >= 32 then result else (result + Shift(byte % 128, bitpos)) % TwoTo32;
        if byte >= 128 then ReadMore32(input[1..], bitpos + 7, next)
        else if bitpos == 28 && byte / 16 % 8 != 0 then Fail
        else Got(next, input[1..])
  }

  function ReadVarint32(input: seq<Byte>): (r: Read<nat>)
    ensures r.Got? ==> |r.rest| < |input|
  {
    if input == [] then Fail
    else if input[0] < 128 then Got(input[0], input[1..])
    else ReadMore32(input[1..], 7, input[0] % 128)
  }

  method DecodeVarint32(input: seq<Byte>) returns (r: Read<nat>)
    ensures r == ReadVarint32(input)
  {
    if input == [] {
      return Fail;
    }
    var byte, rest := input[0], input[1..];
    if byte < 128 {
      return Got(byte, rest);
    }
    var bitpos, result: nat := 7, byte % 128;
    while byte >= 128
      invariant byte >= 128 ==> ReadVarint32(input) == ReadMore32(rest, bitpos, result)
      invariant byte < 128 ==>
        ReadVarint32(input) == if bitpos == 35 && byte / 16 % 8 != 0 then Fail else Got(result, rest)
      decreases |rest|, byte
    {
      if rest == [] {
        return Fail;
      }
      byte, rest := rest[0], rest[1..];
      if bitpos >= 32 {
        var extension := if bitpos < 63 then 0xFF else 0x01;
        if byte % 128 != 0 && (result < 0x8000_0000 || byte != extension) {
          return Fail;
        }
      } else {
        result := (result + Shift(byte % 128, bitpos)) % TwoTo32;
      }
      bitpos := bitpos + 7;
    }
    if bitpos == 35 && byte / 16 % 8 != 0 {
      return Fail;
    }
    return Got(result, rest);
  }

  lemma {:induction false} ReadMore32Inverts(v: nat, bitpos: nat, result: nat, rest: seq<Byte>)
    requires bitpos < 32 && result + Shift(v, bitpos) < TwoTo32
    ensures ReadMore32(Varint(v) + rest, bitpos, result) == Got(result + Shift(v, bitpos), rest)
    decreases v
  {
    hide Shift, Varint;
    FirstByte(v, rest);
    if v < 128 {
      assert bitpos == 28 ==> v < 16 by {
        Shift28(v);
      }
    } else {
      ShiftSplits(v, bitpos);
      SmallPow2(bitpos + 7);
      ReadMore32Inverts(v / 128, bitpos + 7, result + Shift(v % 128, bitpos), rest);
    }
  }

  lemma Shift28(v: nat)
    ensures Shift(v, 28) == v * 0x1000_0000
  {
    Pow2Values();
  }

  /** A varint of a 32-bit number reads back as that number; this reader is used for tags, lengths and booleans. */
  lemma Varint32RoundTrip(v: nat, rest: seq<Byte>)
    requires v < TwoTo32
    ensures ReadVarint32(Varint(v) + rest) == Got(v, rest)
  {
    hide ReadMore32, Varint;
    FirstByte(v, rest);
    if v >= 128 {
      assert Pow2(7) == 128 by {
        Pow2Seven(0);
      }
      hide Pow2;
      ReadMore32Inverts(v / 128, 7, v % 128, rest);
    }
  }

  // ----- fixed-width and signed integers -----

  /** The lowest `n` bytes of `v`, the lowest first. */
  function Fixed(v: nat, n: nat): (r: seq<Byte>)
    ensures |r| == n
    decreases n
  {
    if n == 0 then [] else [v % 256] + Fixed(v / 256, n - 1)
  }

  function FromFixed(s: seq<Byte>): (r: nat) {
    if s == [] then 0 else s[0] + 256 * FromFixed(s[1..])
  }

  lemma {:induction false} FixedRoundTrip(v: nat, n: nat)
    requires v < Pow2(8 * n)
    ensures FromFixed(Fixed(v, n)) == v
    decreases n
  {
    if n > 0 {
      assert Pow2(8 * n) == 2 * Pow2(8 * n - 1);
      Pow2Seven(8 * n - 8);
      FixedRoundTrip(v / 256, n - 1);
    }
  }

  /** Small absolute values become small numbers: 0, -1, 1, -2, ... */
  function Zigzag(v: int): (r: nat)
    ensures r < TwoTo64
  {
    if v < 0 then TwoTo64 - 1 - 2 * v % TwoTo64 else 2 * v % TwoTo64
  }

  /** The lowest `span` of a number read as two's complement. */
  function Signed(v: int, span: nat): (r: int)
    requires span > 0
    ensures 0 <= 2 * r + span < 2 * span
  {
    var w := v % span;
    if 2 * w < span then w else w - span
  }

  function Unzigzag(v: nat): (r: int) {
    if v % 2 == 1 then Signed(TwoTo64 - 1 - v / 2, TwoTo64) else Signed(v / 2, TwoTo64)
  }

  lemma ZigzagRoundTrip(v: int)
    requires -TwoTo64 <= 2 * v < TwoTo64
    ensures Unzigzag(Zigzag(v)) == v
  {
    if v < 0 {
      NegativeWraps(2 * v);
      OddHalf(-v - 1);
      SignedBack(v);
    } else {
      EvenHalf(v);
      SignedBack(v);
    }
  }

  lemma NegativeWraps(n: int)
    requires -TwoTo64 <= n < 0
    ensures n % TwoTo64 == n + TwoTo64
  {
  }

  lemma OddHalf(n: nat)
    ensures (2 * n + 1) % 2 == 1 && (2 * n + 1) / 2 == n
  {
  }

  lemma EvenHalf(n: nat)
    ensures 2 * n % 2 == 0 && 2 * n / 2 == n
  {
  }

  lemma SignedBack(v: int)
    requires -TwoTo64 <= 2 * v < TwoTo64
    ensures v >= 0 ==> Signed(v, TwoTo64) == v
    ensures v < 0 ==> Signed(v + TwoTo64, TwoTo64) == v
  {
  }
}
