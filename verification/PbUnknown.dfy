/**
  Fields that the description of a message does not have: wherever they stand between two fields, the
  decoder passes over them and reads the rest as if they were not there.
 */
module PbUnknown {
  import opened Basics
  import opened Coding
  import opened PbWire
  import opened PbSchema
  import opened PbEncode
  import opened PbDecode
  import opened PbRoundTrip

  // ----- the bytes of a field -----

  /** What may follow a tag: a varint, eight bytes, a length with as many bytes, or four bytes. */
  datatype Body =
    | Base128(bytes: seq<Byte>)
    | Eight(bytes: seq<Byte>)
    | Delimited(payload: seq<Byte>)
    | Four(bytes: seq<Byte>)

  function Kind(b: Body): (wiretype: nat)
    ensures wiretype < 8
  {
    match b
    case Base128(_) => 0
    case Eight(_) => 1
    case Delimited(_) => 2
    case Four(_) => 5
  }

  function BodyBytes(b: Body): (r: seq<Byte>) {
    match b
    case Delimited(payload) => Varint(|payload|) + payload
    case _ => b.bytes
  }

  /** The last byte of a varint, of whatever length, is the only one below 128. */
  predicate WellFormedBody(b: Body) {
    match b
    case Base128(bytes) =>
      && bytes != [] && bytes[|bytes| - 1] < 128
      && forall i :: 0 <= i < |bytes| - 1 ==> bytes[i] >= 128
    case Eight(bytes) => |bytes| == 8
    case Delimited(payload) => |payload| < TwoTo32
    case Four(bytes) => |bytes| == 4
  }

  function FieldBytes(tag: nat, b: Body): (r: seq<Byte>) {
    Varint(8 * tag + Kind(b)) + BodyBytes(b)
  }

  ghost predicate Unknown(schema: Schema, tag: nat) {
    1 <= tag < 0x2000_0000 && forall i :: 0 <= i < |schema.fields| ==> schema.fields[i].tag != tag
  }

  // ----- passing over one field -----

  lemma {:induction false} SkipsVarint(bytes: seq<Byte>, rest: seq<Byte>)
    requires WellFormedBody(Base128(bytes))
    ensures SkipVarint(bytes + rest) == Got([], rest)
    decreases |bytes|
  {
    assert (bytes + rest)[0] == bytes[0] && (bytes + rest)[1..] == bytes[1..] + rest;
    if |bytes| > 1 {
      SkipsVarint(bytes[1..], rest);
    }
  }

  lemma SkipsBody(b: Body, rest: seq<Byte>)
    requires WellFormedBody(b)
    ensures Skip(Kind(b), BodyBytes(b) + rest).Got? && Skip(Kind(b), BodyBytes(b) + rest).rest == rest
  {
    match b
    case Base128(bytes) => SkipsVarint(bytes, rest);
    case Delimited(payload) =>
      assert BodyBytes(b) + rest == Varint(|payload|) + (payload + rest);
      Varint32RoundTrip(|payload|, payload + rest);
      assert (payload + rest)[|payload|..] == rest;
    case Eight(bytes) => assert (bytes + rest)[8..] == rest;
    case Four(bytes) => assert (bytes + rest)[4..] == rest;
  }

  /** A field with an unknown tag in front changes nothing. */
  lemma UnknownInFront(schema: Schema, tag: nat, b: Body, rest: seq<Byte>, slots: seq<Slot>, seen: set<nat>)
    requires WellFormed(schema) && TypedMessage(schema, slots) && Unknown(schema, tag) && WellFormedBody(b)
    ensures ReadMessage(schema, FieldBytes(tag, b) + rest, slots, seen) == ReadMessage(schema, rest, slots, seen)
  {
    hide Varint, Skip, WellFormedBody, BodyBytes;
    var head, body := 8 * tag + Kind(b), BodyBytes(b) + rest;
    assert FieldBytes(tag, b) + rest == Varint(head) + body;
    Varint32RoundTrip(head, body);
    FirstByte(head, body);
    assert head / 8 == tag && head % 8 == Kind(b);
    SkipsBody(b, rest);
  }

  /** An unknown field of a wire type that does not exist is refused, and so is one that is cut short. */
  lemma MalformedIsRefused(schema: Schema, tag: nat, wiretype: nat, rest: seq<Byte>, slots: seq<Slot>, seen: set<nat>)
    requires WellFormed(schema) && TypedMessage(schema, slots) && Unknown(schema, tag) && wiretype < 8
    requires wiretype !in {0, 1, 2, 5} || (wiretype == 1 && |rest| < 8) || (wiretype == 5 && |rest| < 4)
    ensures ReadMessage(schema, Varint(8 * tag + wiretype) + rest, slots, seen) == None
  {
    hide Varint;
    var head := 8 * tag + wiretype;
    Varint32RoundTrip(head, rest);
    FirstByte(head, rest);
    assert head / 8 == tag && head % 8 == wiretype;
  }

  // ----- readers take what they take whatever follows -----

  /** `r` was read from the front of `input`. */
  ghost predicate Took<T>(input: seq<Byte>, r: Read<T>) {
    r.Got? && |r.rest| <= |input| && r.rest == input[|input| - |r.rest|..]
  }

  function Front<T>(input: seq<Byte>, r: Read<T>): (a: seq<Byte>)
    requires r.Got? && |r.rest| <= |input|
  {
    input[..|input| - |r.rest|]
  }

  lemma {:induction false} VarintTakes(input: seq<Byte>, bitpos: nat, result: nat, rest: seq<Byte>)
    requires ReadVarint(input, bitpos, result).Got?
    ensures var r := ReadVarint(input, bitpos, result);
      Took(input, r) && ReadVarint(Front(input, r) + rest, bitpos, result) == Got(r.value, rest)
    decreases |input|
  {
    var r := ReadVarint(input, bitpos, result);
    var next := (result + Shift(input[0] % 128, bitpos)) % TwoTo64;
    hide Shift;
    if input[0] >= 128 {
      VarintTakes(input[1..], bitpos + 7, next, rest);
    }
    StepTakes(input, r, rest);
  }

  /** Front and rest behind the first byte. */
  lemma StepTakes<T>(input: seq<Byte>, r: Read<T>, rest: seq<Byte>)
    requires input != [] && Took(input[1..], r)
    ensures Took(input, r) && |Front(input, r) + rest| > 0 && (Front(input, r) + rest)[0] == input[0]
    ensures (Front(input, r) + rest)[1..] == Front(input[1..], r) + rest
  {
    assert Front(input, r)[1..] == Front(input[1..], r);
  }

  /** A further byte of a 32-bit varint does not fit. */
  predicate Misfits(byte: Byte, bitpos: nat, result: nat) {
    || (bitpos >= 32 && byte % 128 != 0 && (result < 0x8000_0000 || byte != if bitpos < 63 then 0xFF else 0x01))
    || (bitpos == 28 && byte < 128 && byte / 16 % 8 != 0)
  }

  function Joined(byte: Byte, bitpos: nat, result: nat): (r: nat) {
    if bitpos >= 32 then result else (result + Shift(byte % 128, bitpos)) % TwoTo32
  }

  lemma More32Is(input: seq<Byte>, bitpos: nat, result: nat)
    requires input != []
    ensures ReadMore32(input, bitpos, result) ==
      if Misfits(input[0], bitpos, result) then Fail
      else if input[0] >= 128 then ReadMore32(input[1..], bitpos + 7, Joined(input[0], bitpos, result))
      else Got(Joined(input[0], bitpos, result), input[1..])
  {
    hide Shift;
  }

  lemma {:induction false} More32Takes(input: seq<Byte>, bitpos: nat, result: nat, rest: seq<Byte>)
    requires input != [] && ReadMore32(input, bitpos, result).Got?
    ensures var r := ReadMore32(input, bitpos, result);
      Took(input, r) && ReadMore32(Front(input, r) + rest, bitpos, result) == Got(r.value, rest)
    decreases |input|
  {
    hide ReadMore32, Misfits, Joined, Took, Front;
    More32Is(input, bitpos, result);
    var r := ReadMore32(input, bitpos, result);
    if input[0] >= 128 {
      NotEmpty(input[1..], bitpos + 7, Joined(input[0], bitpos, result));
      More32Takes(input[1..], bitpos + 7, Joined(input[0], bitpos, result), rest);
    } else {
      AllTaken(input[1..], r, rest);
    }
    StepTakes(input, r, rest);
    More32Is(Front(input, r) + rest, bitpos, result);
  }

  lemma NotEmpty(input: seq<Byte>, bitpos: nat, result: nat)
    requires ReadMore32(input, bitpos, result).Got?
    ensures input != []
  {
  }

  lemma AllTaken<T>(input: seq<Byte>, r: Read<T>, rest: seq<Byte>)
    requires r.Got? && r.rest == input
    ensures Took(input, r) && Front(input, r) + rest == rest
  {
  }

  lemma Varint32Takes(input: seq<Byte>, rest: seq<Byte>)
    requires ReadVarint32(input).Got?
    ensures var r := ReadVarint32(input); Took(input, r) && ReadVarint32(Front(input, r) + rest) == Got(r.value, rest)
  {
    hide ReadMore32;
    if input[0] >= 128 {
      NotEmpty(input[1..], 7, input[0] % 128);
      More32Takes(input[1..], 7, input[0] % 128, rest);
    }
    StepTakes(input, ReadVarint32(input), rest);
  }

  lemma {:induction false} SkipVarintTakes(input: seq<Byte>, rest: seq<Byte>)
    requires SkipVarint(input).Got?
    ensures var r := SkipVarint(input); Took(input, r) && SkipVarint(Front(input, r) + rest) == Got(r.value, rest)
    decreases |input|
  {
    if input[0] >= 128 {
      SkipVarintTakes(input[1..], rest);
    }
    StepTakes(input, SkipVarint(input), rest);
  }

  lemma TakeTakes(input: seq<Byte>, n: nat, rest: seq<Byte>)
    requires n <= |input|
    ensures Took(input, Take(input, n)) && Take(Front(input, Take(input, n)) + rest, n) == Got(input[..n], rest)
  {
    assert (input[..n] + rest)[..n] == input[..n] && (input[..n] + rest)[n..] == rest;
  }

  /** Two readers, one behind the other: what the second took lies behind what the first took. */
  lemma ThenTakes<S, T>(input: seq<Byte>, r: Read<S>, q: Read<T>, rest: seq<Byte>)
    requires Took(input, r) && Took(r.rest, q)
    ensures Took(input, q) && Front(input, q) + rest == Front(input, r) + (Front(r.rest, q) + rest)
  {
    assert Front(input, q) == Front(input, r) + Front(r.rest, q);
  }

  lemma StringTakes(input: seq<Byte>, rest: seq<Byte>)
    requires TakeString(input).Got?
    ensures var r := TakeString(input); Took(input, r) && TakeString(Front(input, r) + rest) == Got(r.value, rest)
  {
    hide ReadVarint32;
    var size := ReadVarint32(input);
    var q := Take(size.rest, size.value);
    TakeTakes(size.rest, size.value, rest);
    Varint32Takes(input, Front(size.rest, q) + rest);
    ThenTakes(input, size, q, rest);
  }

  lemma SkipTakes(wiretype: nat, input: seq<Byte>, rest: seq<Byte>)
    requires Skip(wiretype, input).Got?
    ensures var r := Skip(wiretype, input);
      Took(input, r) && Skip(wiretype, Front(input, r) + rest) == Got(r.value, rest)
  {
    hide SkipVarint, TakeString, Took, Front;
    if wiretype == WT_VARINT {
      SkipVarintTakes(input, rest);
    } else if wiretype == WT_64BIT {
      TakeTakes(input, 8, rest);
    } else if wiretype == WT_STRING {
      StringTakes(input, rest);
    } else {
      TakeTakes(input, 4, rest);
    }
  }

  lemma FixedTakes(input: seq<Byte>, n: nat, rest: seq<Byte>)
    requires (n == 4 || n == 8) && ReadFixed(input, n).Got?
    ensures var r := ReadFixed(input, n); Took(input, r) && ReadFixed(Front(input, r) + rest, n) == Got(r.value, rest)
  {
    hide FromFixed;
    assert (input[..n] + rest)[..n] == input[..n] && (input[..n] + rest)[n..] == rest;
  }

  lemma ScalarTakes(t: LType, input: seq<Byte>, rest: seq<Byte>)
    requires Packable(t) && ReadScalar(t, input).Got?
    ensures var r := ReadScalar(t, input);
      Took(input, r) && ReadScalar(t, Front(input, r) + rest) == Got(r.value, rest)
  {
    hide ReadVarint, ReadVarint32, Unzigzag, Signed;
    match t
    case LBool => Varint32Takes(input, rest);
    case LFixed32 => FixedTakes(input, 4, rest);
    case LFixed64 => FixedTakes(input, 8, rest);
    case LVarint(_) => VarintTakes(input, 0, 0, rest);
    case LUvarint(_) => VarintTakes(input, 0, 0, rest);
    case LSvarint(_) => VarintTakes(input, 0, 0, rest);
  }

  lemma ValueTakes(t: LType, input: seq<Byte>, held: Value, rest: seq<Byte>)
    requires WellFormedType(t) && (t.LSubmessage? ==> Typed(t, held)) && ReadValue(t, input, held).Got?
    ensures var r := ReadValue(t, input, held);
      Took(input, r) && ReadValue(t, Front(input, r) + rest, held) == Got(r.value, rest)
  {
    hide ReadScalar, TakeString, ReadMessage, Typed, WellFormedType;
    if Packable(t) {
      ScalarTakes(t, input, rest);
    } else {
      StringTakes(input, rest);
    }
  }

  lemma ArrayTakes(f: Field, wiretype: nat, input: seq<Byte>, vs: seq<Value>, rest: seq<Byte>)
    requires WellFormedField(f) && f.htype.Repeated? && TypedSlot(f, Items(vs))
    requires ReadArray(f, wiretype, input, vs).Got?
    ensures var r := ReadArray(f, wiretype, input, vs);
      Took(input, r) && ReadArray(f, wiretype, Front(input, r) + rest, vs) == Got(r.value, rest)
  {
    hide ReadValue, TakeString, ReadPacked, DefaultValue, Took, Front;
    DefaultValueTyped(f);
    if wiretype == WT_STRING && Packable(f.ltype) {
      StringTakes(input, rest);
      SameRest(input, TakeString(input), ReadArray(f, wiretype, input, vs));
    } else {
      var held := DefaultValue(f.ltype, f.initial);
      ValueTakes(f.ltype, input, held, rest);
      SameRest(input, ReadValue(f.ltype, input, held), ReadArray(f, wiretype, input, vs));
    }
  }

  lemma SameRest<S, T>(input: seq<Byte>, r: Read<S>, q: Read<T>)
    requires Took(input, r) && q.Got? && q.rest == r.rest
    ensures Took(input, q) && Front(input, q) == Front(input, r)
  {
  }

  lemma SlotTakes(f: Field, wiretype: nat, input: seq<Byte>, slot: Slot, rest: seq<Byte>)
    requires WellFormedField(f) && TypedSlot(f, slot) && ReadSlot(f, wiretype, input, slot).Got?
    ensures var r := ReadSlot(f, wiretype, input, slot);
      Took(input, r) && ReadSlot(f, wiretype, Front(input, r) + rest, slot) == Got(r.value, rest)
  {
    hide ReadValue, ReadArray, DefaultValue, Took, Front;
    DefaultValueTyped(f);
    if f.htype.Repeated? {
      ArrayTakes(f, wiretype, input, slot.vs, rest);
    } else {
      var held := if slot.Absent? then DefaultValue(f.ltype, f.initial) else slot.v;
      ValueTakes(f.ltype, input, held, rest);
      SameRest(input, ReadValue(f.ltype, input, held), ReadSlot(f, wiretype, input, slot));
    }
  }

  // ----- passing over a field anywhere -----

  /** Where reading stands after one field: the fields stored, those seen, and what is left. */
  datatype Standing = Standing(slots: seq<Slot>, seen: set<nat>)

  /** Read one field, known or not; at the end of the message there is none. */
  function NextField(schema: Schema, input: seq<Byte>, slots: seq<Slot>, seen: set<nat>): (r: Read<Standing>)
    requires WellFormed(schema) && TypedMessage(schema, slots)
    ensures r.Got? ==> TypedMessage(schema, r.value.slots) && |r.rest| < |input|
  {
    var head := ReadVarint32(input);
    if head.Fail? || head.value == 0 then Fail
    else
      var i := Find(schema, head.value / 8);
      if i < 0 then
        var skipped := Skip(head.value % 8, head.rest);
        if skipped.Got? then Got(Standing(slots, seen), skipped.rest) else Fail
      else
        var slot := ReadSlot(schema.fields[i], head.value % 8, head.rest, slots[i]);
        if slot.Fail? then Fail
        else
          StoreTyped(schema, slots, i, slot.value);
          Got(Standing(Store(schema, slots, i, slot.value), seen + {i}), slot.rest)
  }

  lemma FieldTakes(schema: Schema, input: seq<Byte>, slots: seq<Slot>, seen: set<nat>, rest: seq<Byte>)
    requires WellFormed(schema) && TypedMessage(schema, slots) && NextField(schema, input, slots, seen).Got?
    ensures var r := NextField(schema, input, slots, seen);
      Took(input, r) && NextField(schema, Front(input, r) + rest, slots, seen) == Got(r.value, rest)
  {
    hide ReadVarint32, Skip, ReadSlot, Took, Front, WellFormedField, Store;
    var r, head := NextField(schema, input, slots, seen), ReadVarint32(input);
    var i := Find(schema, head.value / 8);
    if i < 0 {
      var skipped := Skip(head.value % 8, head.rest);
      SkipTakes(head.value % 8, head.rest, rest);
      Varint32Takes(input, Front(head.rest, skipped) + rest);
      ThenTakes(input, head, skipped, rest);
      SameRest(input, skipped, r);
    } else {
      var slot := ReadSlot(schema.fields[i], head.value % 8, head.rest, slots[i]);
      SlotTakes(schema.fields[i], head.value % 8, head.rest, slots[i], rest);
      Varint32Takes(input, Front(head.rest, slot) + rest);
      ThenTakes(input, head, slot, rest);
      SameRest(input, slot, r);
    }
  }

  /** Reading goes on behind the first field. */
  lemma ReadsOn(schema: Schema, input: seq<Byte>, slots: seq<Slot>, seen: set<nat>)
    requires WellFormed(schema) && TypedMessage(schema, slots) && NextField(schema, input, slots, seen).Got?
    ensures var r := NextField(schema, input, slots, seen);
      ReadMessage(schema, input, slots, seen) == ReadMessage(schema, r.rest, r.value.slots, r.value.seen)
  {
    hide ReadVarint32, Skip, ReadSlot, WellFormedField, TypedSlot, Store;
    assert input != [];
  }

  /** Reading `input` from the front comes to a place between two fields after `k` bytes. */
  ghost predicate Boundary(schema: Schema, input: seq<Byte>, slots: seq<Slot>, seen: set<nat>, k: nat)
    requires WellFormed(schema) && TypedMessage(schema, slots)
    decreases |input|
  {
    k == 0 ||
    (var r := NextField(schema, input, slots, seen);
     && r.Got? && |input| - |r.rest| <= k
     && Boundary(schema, r.rest, r.value.slots, r.value.seen, k - (|input| - |r.rest|)))
  }

  /** Inserting behind what was taken is inserting into what was left. */
  lemma InsertBehind<T>(input: seq<Byte>, r: Read<T>, field: seq<Byte>, k: nat)
    requires Took(input, r) && |input| - |r.rest| <= k <= |input|
    ensures var n := |input| - |r.rest|;
      input[..k] + field + input[k..] == Front(input, r) + (r.rest[..k - n] + field + r.rest[k - n..])
  {
    var n := |input| - |r.rest|;
    assert input[..k] == Front(input, r) + r.rest[..k - n] && input[k..] == r.rest[k - n..];
  }

  /** A field with an unknown tag, put between any two fields, changes nothing. */
  lemma {:induction false} UnknownBetween(schema: Schema, input: seq<Byte>, slots: seq<Slot>, seen: set<nat>, k: nat,
      tag: nat, b: Body)
    requires WellFormed(schema) && TypedMessage(schema, slots) && Boundary(schema, input, slots, seen, k)
    requires Unknown(schema, tag) && WellFormedBody(b)
    ensures k <= |input|
    ensures ReadMessage(schema, input[..k] + FieldBytes(tag, b) + input[k..], slots, seen) ==
      ReadMessage(schema, input, slots, seen)
    decreases |input|
  {
    var field := FieldBytes(tag, b);
    hide NextField, ReadMessage, FieldBytes, WellFormedBody, Unknown, WellFormed, Front;
    if k == 0 {
      assert input[..0] + field + input[0..] == field + input;
      UnknownInFront(schema, tag, b, input, slots, seen);
    } else {
      var r := NextField(schema, input, slots, seen);
      var n := |input| - |r.rest|;
      UnknownBetween(schema, r.rest, r.value.slots, r.value.seen, k - n, tag, b);
      var more := r.rest[..k - n] + field + r.rest[k - n..];
      FieldTakes(schema, input, slots, seen, more);
      ReadsOn(schema, input, slots, seen);
      ReadsOn(schema, Front(input, r) + more, slots, seen);
      InsertBehind(input, r, field, k);
    }
  }

  /** The meaning of an input is the same with and without a field that the description does not have. */
  lemma UnknownIsIgnored(schema: Schema, input: seq<Byte>, k: nat, tag: nat, b: Body)
    requires WellFormed(schema) && Unknown(schema, tag) && WellFormedBody(b)
    requires TypedMessage(schema, DefaultSlots(schema)) && Boundary(schema, input, DefaultSlots(schema), {}, k)
    ensures k <= |input|
    ensures Meaning(schema, input[..k] + FieldBytes(tag, b) + input[k..]) == Meaning(schema, input)
  {
    UnknownBetween(schema, input, DefaultSlots(schema), {}, k, tag, b);
  }

  // ----- what the encoder writes can be passed over -----

  lemma {:induction false} VarintIsBody(v: nat)
    ensures WellFormedBody(Base128(Varint(v)))
    decreases v
  {
    VarintIs(v);
    if v >= 128 {
      VarintIsBody(v / 128);
      var more := Varint(v / 128);
      hide Varint;
      assert forall i :: 1 <= i <= |more| ==> Varint(v)[i] == more[i - 1];
    }
  }

  /** The encoding of a value has the form that the wire type of its tag announces. */
  lemma ValueIsBody(t: LType, v: Value) returns (b: Body)
    requires Fits(t, v) && ValueBytes(t, v).Some? && Short(t, v)
    ensures WellFormedBody(b) && Kind(b) == WireType(t) && BodyBytes(b) == ValueBytes(t, v).value
  {
    var bytes := ValueBytes(t, v).value;
    match t
    case LBool =>
      VarintIsBody(if v.b then 1 else 0);
      b := Base128(bytes);
    case LVarint(_) =>
      VarintIsBody(v.n % TwoTo64);
      b := Base128(bytes);
    case LUvarint(_) =>
      VarintIsBody(v.n);
      b := Base128(bytes);
    case LSvarint(_) =>
      VarintIsBody(Zigzag(v.n));
      b := Base128(bytes);
    case LFixed32 => b := Four(bytes);
    case LFixed64 => b := Eight(bytes);
    case LSubmessage(schema) => b := Delimited(MessageBytes(schema, v.slots, 0).value);
    case _ => b := Delimited(v.s);
  }

  lemma TaggedIsPassed(schema: Schema, f: Field, v: Value, rest: seq<Byte>, slots: seq<Slot>, seen: set<nat>)
    requires WellFormed(schema) && TypedMessage(schema, slots) && Unknown(schema, f.tag)
    requires Fits(f.ltype, v) && TaggedBytes(f, v).Some? && Short(f.ltype, v)
    ensures ReadMessage(schema, TaggedBytes(f, v).value + rest, slots, seen) == ReadMessage(schema, rest, slots, seen)
  {
    var b := ValueIsBody(f.ltype, v);
    hide ReadMessage, WellFormedBody, Unknown, Short, ValueBytes, BodyBytes, Varint, Fits, TypedMessage, WellFormed;
    assert TaggedBytes(f, v).value == FieldBytes(f.tag, b);
    UnknownInFront(schema, f.tag, b, rest, slots, seen);
  }

  lemma {:induction false} ElementsArePassed(schema: Schema, f: Field, vs: seq<Value>, k: nat, rest: seq<Byte>,
      slots: seq<Slot>, seen: set<nat>)
    requires WellFormed(schema) && TypedMessage(schema, slots) && Unknown(schema, f.tag)
    requires k <= |vs| && (forall j :: 0 <= j < |vs| ==> Fits(f.ltype, vs[j]) && Short(f.ltype, vs[j]))
    requires UnpackedBytes(f, vs, k).Some?
    ensures ReadMessage(schema, UnpackedBytes(f, vs, k).value + rest, slots, seen) ==
      ReadMessage(schema, rest, slots, seen)
    decreases |vs| - k
  {
    hide ReadMessage, Unknown, Short, TaggedBytes, Fits, TypedMessage, WellFormed;
    if k == |vs| {
      assert UnpackedBytes(f, vs, k).value + rest == rest;
    } else {
      var first, more := TaggedBytes(f, vs[k]).value, UnpackedBytes(f, vs, k + 1).value;
      assert UnpackedBytes(f, vs, k).value + rest == first + (more + rest);
      TaggedIsPassed(schema, f, vs[k], more + rest, slots, seen);
      ElementsArePassed(schema, f, vs, k + 1, rest, slots, seen);
    }
  }

  lemma SlotIsPassed(schema: Schema, f: Field, slot: Slot, rest: seq<Byte>, slots: seq<Slot>, seen: set<nat>)
    requires WellFormed(schema) && TypedMessage(schema, slots) && Unknown(schema, f.tag)
    requires FitsSlot(f, slot) && SlotBytes(f, slot).Some? && ShortSlot(f, slot)
    ensures ReadMessage(schema, SlotBytes(f, slot).value + rest, slots, seen) == ReadMessage(schema, rest, slots, seen)
  {
    hide ReadMessage, Unknown, TaggedBytes, UnpackedBytes, PackedBytes, Short, TypedMessage, WellFormed, IsDefault;
    if SlotBytes(f, slot) == Some([]) {
      assert [] + rest == rest;
    } else {
      match slot
      case Items(vs) =>
        if Packable(f.ltype) {
          var b := Delimited(PackedBytes(f.ltype, vs, 0).value);
          assert SlotBytes(f, slot).value == FieldBytes(f.tag, b);
          UnknownInFront(schema, f.tag, b, rest, slots, seen);
        } else {
          ElementsArePassed(schema, f, vs, 0, rest, slots, seen);
        }
      case Single(v) => TaggedIsPassed(schema, f, v, rest, slots, seen);
      case Present(v) => TaggedIsPassed(schema, f, v, rest, slots, seen);
    }
  }

  /** The encoding of any message, read with a description that has none of its tags, changes nothing. */
  lemma {:induction false} MessageIsPassed(schema: Schema, other: Schema, message: seq<Slot>, i: nat, rest: seq<Byte>,
      slots: seq<Slot>, seen: set<nat>)
    requires WellFormed(schema) && TypedMessage(schema, slots) && FitsMessage(other, message) && i <= |message|
    requires forall j :: 0 <= j < |other.fields| ==> Unknown(schema, other.fields[j].tag)
    requires MessageBytes(other, message, i).Some? && ShortMessage(other, message)
    ensures ReadMessage(schema, MessageBytes(other, message, i).value + rest, slots, seen) ==
      ReadMessage(schema, rest, slots, seen)
    decreases |message| - i
  {
    hide ReadMessage, Unknown, SlotBytes, ShortSlot, TypedMessage, WellFormed;
    if i == |message| {
      assert MessageBytes(other, message, i).value + rest == rest;
    } else {
      var f := other.fields[i];
      var first, more := SlotBytes(f, message[i]).value, MessageBytes(other, message, i + 1).value;
      assert MessageBytes(other, message, i).value + rest == first + (more + rest);
      SlotIsPassed(schema, f, message[i], more + rest, slots, seen);
      MessageIsPassed(schema, other, message, i + 1, rest, slots, seen);
    }
  }
}
