/**
  Decoding a message: what a byte string means for a given description, and the decoder that
  reads it field by field in whatever order the fields come.
 */
module PbDecode {
  import opened Basics
  import opened Coding
  import opened PbWire
  import opened PbSchema
  import PbEncode

  const MAX_REQUIRED_FIELDS := 64

  // ----- what the bytes mean -----

  function Take(input: seq<Byte>, n: nat): (r: Read<seq<Byte>>)
    ensures r.Got? ==> |r.rest| <= |input|
  {
    if |input| < n then Fail else Got(input[..n], input[n..])
  }

  /** A length and that many bytes. */
  function TakeString(input: seq<Byte>): (r: Read<seq<Byte>>)
    ensures r.Got? ==> |r.rest| < |input| && |r.value| < |input|
  {
    var size := ReadVarint32(input);
    if size.Got? then Take(size.rest, size.value) else Fail
  }

  function Clamped(n: int, clamped: int, rest: seq<Byte>): (r: Read<Value>) {
    if n == clamped then Got(VInt(clamped), rest) else Fail
  }

  /** Signed numbers of less than 64 bits are first cut to 32 bits, as some writers leave out the sign bits. */
  function ReadSigned(size: nat, input: seq<Byte>): (r: Read<Value>)
    ensures r.Got? ==> IntSize(size) && r.value.VInt? && SignedIn(r.value.n, size) && |r.rest| < |input|
  {
    var v := ReadVarint(input, 0, 0);
    if v.Fail? || !IntSize(size) then Fail
    else
      var n := if size == 8 then Signed(v.value, TwoTo64) else Signed(v.value, TwoTo32);
      Clamped(n, Signed(n, Span(size)), v.rest)
  }

  function ReadUnsigned(size: nat, input: seq<Byte>): (r: Read<Value>)
    ensures r.Got? ==> IntSize(size) && r.value.VInt? && 0 <= r.value.n < Span(size) && |r.rest| < |input|
  {
    var v := ReadVarint(input, 0, 0);
    if v.Fail? || !IntSize(size) then Fail else Clamped(v.value, v.value % Span(size), v.rest)
  }

  function ReadZigzag(size: nat, input: seq<Byte>): (r: Read<Value>)
    ensures r.Got? ==> IntSize(size) && r.value.VInt? && SignedIn(r.value.n, size) && |r.rest| < |input|
  {
    var v := ReadVarint(input, 0, 0);
    if v.Fail? || !IntSize(size) then Fail
    else
      var n := Unzigzag(v.value);
      Clamped(n, Signed(n, Span(size)), v.rest)
  }

  function ReadBool(input: seq<Byte>): (r: Read<Value>)
    ensures r.Got? ==> r.value.VBool? && |r.rest| < |input|
  {
    var v := ReadVarint32(input);
    if v.Got? then Got(VBool(v.value != 0), v.rest) else Fail
  }

  function ReadScalar(t: LType, input: seq<Byte>): (r: Read<Value>)
    requires Packable(t)
    ensures r.Got? ==> Typed(t, r.value) && |r.rest| < |input|
  {
    match t
    case LBool => ReadBool(input)
    case LVarint(size) => ReadSigned(size, input)
    case LUvarint(size) => ReadUnsigned(size, input)
    case LSvarint(size) => ReadZigzag(size, input)
    case LFixed32 => ReadFixed(input, 4)
    case LFixed64 => ReadFixed(input, 8)
  }

  function ReadFixed(input: seq<Byte>, n: nat): (r: Read<Value>)
    requires n == 4 || n == 8
    ensures r.Got? ==> |r.rest| < |input| && r.value.VInt? && 0 <= r.value.n < Span(n)
  {
    if |input| < n then Fail
    else
      FromFixedBound(input[..n]);
      SpanIsPow2(n);
      Got(VInt(FromFixed(input[..n])), input[n..])
  }

  lemma SpanIsPow2(n: nat)
    requires n == 4 || n == 8
    ensures Span(n) == Pow2(8 * n)
  {
    Pow2Values();
  }

  lemma {:induction false} FromFixedBound(s: seq<Byte>)
    ensures FromFixed(s) < Pow2(8 * |s|)
  {
    if s != [] {
      FromFixedBound(s[1..]);
      assert Pow2(8 * |s|) == 2 * Pow2(8 * |s| - 1);
      Pow2Seven(8 * |s| - 8);
    }
  }

  /** The text of a C string. */
  function UpToNul(s: seq<Byte>): (r: seq<Byte>)
    ensures |r| <= |s| && 0 !in r
    ensures 0 !in s ==> r == s
  {
    if s == [] || s[0] == 0 then [] else [s[0]] + UpToNul(s[1..])
  }

  /** A value of type `t`; a submessage is read into what the struct already holds. */
  function ReadValue(t: LType, input: seq<Byte>, held: Value): (r: Read<Value>)
    requires WellFormedType(t) && (t.LSubmessage? ==> Typed(t, held))
    ensures r.Got? ==> Typed(t, r.value) && |r.rest| < |input|
    decreases t
  {
    if Packable(t) then ReadScalar(t, input)
    else
      var s := TakeString(input);
      match t
      case LBytes(max) => if s.Fail? || |s.value| > max then Fail else Got(VBytes(s.value), s.rest)
      case LString(size) => if s.Fail? || |s.value| + 1 > size then Fail else Got(VBytes(UpToNul(s.value)), s.rest)
      case LFixedBytes(size) =>
        if s.Fail? then Fail
        else if |s.value| == 0 then Got(VBytes(Zeros(size)), s.rest)
        else if |s.value| != size then Fail
        else Got(VBytes(s.value), s.rest)
      case LSubmessage(schema) =>
        if s.Fail? then Fail
        else
          var m := ReadMessage(schema, s.value, held.slots, {});
          if m.Some? then Got(VMessage(m.value), s.rest) else Fail
  }

  /** The elements of a packed array, as long as there is room in the struct. */
  function ReadPacked(t: LType, input: seq<Byte>, vs: seq<Value>, max: nat): (r: Option<seq<Value>>)
    requires Packable(t) && |vs| <= max && forall k :: 0 <= k < |vs| ==> Typed(t, vs[k])
    ensures r.Some? ==> |r.value| <= max && forall k :: 0 <= k < |r.value| ==> Typed(t, r.value[k])
    decreases |input|
  {
    if input == [] then Some(vs)
    else if |vs| >= max then None
    else
      var v := ReadScalar(t, input);
      if v.Got? then ReadPacked(t, v.rest, vs + [v.value], max) else None
  }

  function ReadSlot(f: Field, wiretype: nat, input: seq<Byte>, slot: Slot): (r: Read<Slot>)
    requires WellFormedField(f) && TypedSlot(f, slot)
    ensures r.Got? ==> TypedSlot(f, r.value) && !r.value.Absent? && |r.rest| < |input|
    decreases f
  {
    DefaultValueTyped(f);
    match f.htype
    case Required =>
      var v := ReadValue(f.ltype, input, slot.v);
      if v.Got? then Got(Single(v.value), v.rest) else Fail
    case Optional(flag) =>
      var v := ReadValue(f.ltype, input, if slot.Absent? then DefaultValue(f.ltype, f.initial) else slot.v);
      if v.Fail? then Fail else if flag then Got(Present(v.value), v.rest) else Got(Single(v.value), v.rest)
    case Oneof(_) =>
      var v := ReadValue(f.ltype, input, if slot.Absent? then DefaultValue(f.ltype, f.initial) else slot.v);
      if v.Got? then Got(Present(v.value), v.rest) else Fail
    case Repeated(_) => ReadArray(f, wiretype, input, slot.vs)
  }

  /** A whole packed array or one more element; either way the count may not pass the size of the array. */
  function ReadArray(f: Field, wiretype: nat, input: seq<Byte>, vs: seq<Value>): (r: Read<Slot>)
    requires WellFormedField(f) && f.htype.Repeated? && TypedSlot(f, Items(vs))
    ensures r.Got? ==> r.value.Items? && TypedSlot(f, r.value) && |r.rest| < |input|
    decreases f, 0
  {
    if wiretype == PbEncode.WT_STRING && Packable(f.ltype) then
      var s := TakeString(input);
      if s.Fail? then Fail
      else
        var read := ReadPacked(f.ltype, s.value, vs, f.htype.max);
        if read.Some? then Got(Items(read.value), s.rest) else Fail
    else if |vs| >= f.htype.max then Fail
    else
      DefaultValueTyped(f);
      var v := ReadValue(f.ltype, input, DefaultValue(f.ltype, f.initial));
      if v.Got? then Got(Items(vs + [v.value]), v.rest) else Fail
  }

  /** The position of the field with a tag, or -1. */
  function Find(schema: Schema, tag: nat): (r: int)
    requires WellFormed(schema)
    ensures -1 <= r < |schema.fields|
    ensures r >= 0 ==> schema.fields[r].tag == tag
    ensures r == -1 ==> forall i :: 0 <= i < |schema.fields| ==> schema.fields[i].tag != tag
  {
    if i :| 0 <= i < |schema.fields| && schema.fields[i].tag == tag then i else -1
  }

  function Skip(wiretype: nat, input: seq<Byte>): (r: Read<seq<Byte>>)
    ensures r.Got? ==> |r.rest| <= |input|
  {
    if wiretype == PbEncode.WT_VARINT then SkipVarint(input)
    else if wiretype == PbEncode.WT_64BIT then Take(input, 8)
    else if wiretype == PbEncode.WT_STRING then TakeString(input)
    else if wiretype == PbEncode.WT_32BIT then Take(input, 4)
    else Fail
  }

  function SkipVarint(input: seq<Byte>): (r: Read<seq<Byte>>)
    ensures r.Got? ==> |r.rest| <= |input|
  {
    if input == [] then Fail
    else if input[0] >= 128 then SkipVarint(input[1..])
    else Got([], input[1..])
  }

  /** Store a slot; selecting a member of a union deselects the others. */
  function Store(schema: Schema, slots: seq<Slot>, i: nat, slot: Slot): (r: seq<Slot>)
    requires i < |slots| == |schema.fields|
    ensures |r| == |slots| && r[i] == slot
    ensures forall j :: 0 <= j < |slots| && j != i ==>
      r[j] == if SameUnion(schema.fields[i], schema.fields[j]) then Absent else slots[j]
  {
    seq(|slots|, (j: int) requires 0 <= j < |slots| =>
      if j == i then slot else if SameUnion(schema.fields[i], schema.fields[j]) then Absent else slots[j])
  }

  lemma StoreTyped(schema: Schema, slots: seq<Slot>, i: nat, slot: Slot)
    requires TypedMessage(schema, slots) && i < |slots| && TypedSlot(schema.fields[i], slot)
    ensures TypedMessage(schema, Store(schema, slots, i, slot))
  {
    var r := Store(schema, slots, i, slot);
    forall j | 0 <= j < |r| ensures TypedSlot(schema.fields[j], r[j]) {
      assert TypedSlot(schema.fields[j], slots[j]);
    }
    forall j, k | 0 <= j < k < |r| && SameUnion(schema.fields[j], schema.fields[k])
      ensures r[j].Absent? || r[k].Absent?
    {
      assert slots[j].Absent? || slots[k].Absent?;
    }
  }

  /** How many required fields come before the `i`-th field. */
  function RequiredBefore(schema: Schema, i: nat): (r: nat)
    requires i <= |schema.fields|
  {
    if i == 0 then 0
    else RequiredBefore(schema, i - 1) + if schema.fields[i - 1].htype.Required? then 1 else 0
  }

  /** The first required fields, as many as the decoder keeps track of, were all in the message. */
  predicate NoneMissing(schema: Schema, seen: set<nat>) {
    forall i :: 0 <= i < |schema.fields| && schema.fields[i].htype.Required? ==>
      RequiredBefore(schema, i) < MAX_REQUIRED_FIELDS ==> i in seen
  }

  /** Read fields into `slots` until the input or a zero tag ends the message. */
  function ReadMessage(schema: Schema, input: seq<Byte>, slots: seq<Slot>, seen: set<nat>): (r: Option<seq<Slot>>)
    requires WellFormed(schema) && TypedMessage(schema, slots)
    ensures r.Some? ==> TypedMessage(schema, r.value)
    decreases schema, |input|
  {
    var head := ReadVarint32(input);
    if input == [] || (head.Got? && head.value == 0) then
      if NoneMissing(schema, seen) then Some(slots) else None
    else if head.Fail? then None
    else
      var i := Find(schema, head.value / 8);
      if i < 0 then
        var skipped := Skip(head.value % 8, head.rest);
        if skipped.Got? then ReadMessage(schema, skipped.rest, slots, seen) else None
      else
        var slot := ReadSlot(schema.fields[i], head.value % 8, head.rest, slots[i]);
        if slot.Fail? then None
        else
          StoreTyped(schema, slots, i, slot.value);
          ReadMessage(schema, slot.rest, Store(schema, slots, i, slot.value), seen + {i})
  }

  /** The meaning of a byte string: what decoding it into an initialised struct gives. */
  function Meaning(schema: Schema, input: seq<Byte>): (r: Option<seq<Slot>>)
    requires WellFormed(schema)
    ensures r.Some? ==> TypedMessage(schema, r.value)
  {
    DefaultSlotsTyped(schema);
    ReadMessage(schema, input, DefaultSlots(schema), {})
  }
}
