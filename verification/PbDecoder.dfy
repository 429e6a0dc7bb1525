/** The decoder: a loop over tags with a cyclic search for the field, and readers for each type. */
module PbDecoder {
  import opened Basics
  import opened Coding
  import opened PbWire
  import opened PbSchema
  import opened PbDecode
  import PbEncode

  /** A position in the field table that is only ever advanced, and wraps around. */
  class FieldIter {
    const schema: Schema
    var pos: nat
    var requiredIndex: nat

    ghost predicate Valid()
      reads this
    {
      && (if schema.fields == [] then pos == 0 else pos < |schema.fields|)
      && requiredIndex == RequiredBefore(schema, pos)
    }

    constructor (schema: Schema)
      ensures Valid() && this.schema == schema && pos == 0
    {
      this.schema := schema;
      pos, requiredIndex := 0, 0;
    }

    /** Advance; false when that wraps around. */
    method Next() returns (more: bool)
      requires Valid()
      modifies this
      ensures Valid()
      ensures more == (old(pos) + 1 < |schema.fields|)
      ensures pos == if more then old(pos) + 1 else 0
    {
      if schema.fields == [] {
        return false;
      }
      var previous := schema.fields[pos];
      pos := pos + 1;
      if pos == |schema.fields| {
        pos, requiredIndex := 0, 0;
        return false;
      }
      if previous.htype.Required? {
        requiredIndex := requiredIndex + 1;
      }
      return true;
    }

    /** Search from the current position once around. */
    method Seek(tag: nat) returns (found: bool)
      requires Valid() && WellFormed(schema)
      modifies this
      ensures Valid() && found == (Find(schema, tag) >= 0)
      ensures found ==> pos == Find(schema, tag)
    {
      if schema.fields == [] {
        return false;
      }
      var start := pos;
      ghost var wrapped := false;
      while true
        invariant Valid() && (if wrapped then pos < start else start <= pos)
        invariant forall i :: start <= i < |schema.fields| && (i < pos || wrapped) ==> schema.fields[i].tag != tag
        invariant forall i :: 0 <= i < pos && wrapped ==> schema.fields[i].tag != tag
        decreases !wrapped, |schema.fields| - pos
      {
        if schema.fields[pos].tag == tag {
          return true;
        }
        var more := Next();
        if !more {
          wrapped := true;
        }
        if pos == start {
          return false;
        }
      }
    }
  }

  // ----- the check for required fields -----

  lemma {:induction false} OrdinalsGrow(schema: Schema, i: nat, j: nat)
    requires i <= j <= |schema.fields|
    ensures RequiredBefore(schema, i) <= RequiredBefore(schema, j)
    ensures i < j && schema.fields[i].htype.Required? ==> RequiredBefore(schema, i) < RequiredBefore(schema, j)
    decreases j - i
  {
    if i < j {
      OrdinalsGrow(schema, i, j - 1);
    }
  }

  lemma {:induction false} OrdinalTaken(schema: Schema, n: nat, o: nat) returns (i: nat)
    requires n <= |schema.fields| && o < RequiredBefore(schema, n)
    ensures i < n && schema.fields[i].htype.Required? && RequiredBefore(schema, i) == o
    decreases n
  {
    if schema.fields[n - 1].htype.Required? && RequiredBefore(schema, n - 1) == o {
      i := n - 1;
    } else {
      i := OrdinalTaken(schema, n - 1, o);
    }
  }

  /** `bits` are the ordinals of the required fields in `seen`, as far as they are kept. */
  ghost predicate Tracks(schema: Schema, bits: set<nat>, seen: set<nat>) {
    forall i :: 0 <= i < |schema.fields| && schema.fields[i].htype.Required? ==>
      RequiredBefore(schema, i) < MAX_REQUIRED_FIELDS ==> (RequiredBefore(schema, i) in bits <==> i in seen)
  }

  lemma TracksMore(schema: Schema, bits: set<nat>, seen: set<nat>, i: nat)
    requires Tracks(schema, bits, seen) && i < |schema.fields|
    ensures !schema.fields[i].htype.Required? || RequiredBefore(schema, i) >= MAX_REQUIRED_FIELDS ==>
      Tracks(schema, bits, seen + {i})
    ensures schema.fields[i].htype.Required? ==> Tracks(schema, bits + {RequiredBefore(schema, i)}, seen + {i})
  {
    forall j |
      0 <= j < |schema.fields| && j != i && schema.fields[i].htype.Required? && schema.fields[j].htype.Required?
      ensures RequiredBefore(schema, j) != RequiredBefore(schema, i)
    {
      if i < j {
        OrdinalsGrow(schema, i, j);
      } else {
        OrdinalsGrow(schema, j, i);
      }
    }
  }

  lemma AllBitsMeans(schema: Schema, bits: set<nat>, seen: set<nat>)
    requires Tracks(schema, bits, seen)
    ensures NoneMissing(schema, seen) <==>
      forall o :: 0 <= o < MAX_REQUIRED_FIELDS && o < RequiredBefore(schema, |schema.fields|) ==> o in bits
  {
    var n := |schema.fields|;
    if NoneMissing(schema, seen) {
      forall o | 0 <= o < MAX_REQUIRED_FIELDS && o < RequiredBefore(schema, n) ensures o in bits {
        var i := OrdinalTaken(schema, n, o);
      }
    } else {
      var i :|
        0 <= i < n && schema.fields[i].htype.Required? && RequiredBefore(schema, i) < MAX_REQUIRED_FIELDS && i !in seen;
      OrdinalsGrow(schema, i, n);
    }
  }

  /** Count the required fields by advancing to the end, and see that all of them were read. */
  method CheckRequired(iter: FieldIter, bits: set<nat>, ghost seen: set<nat>) returns (ok: bool)
    requires iter.Valid() && Tracks(iter.schema, bits, seen)
    modifies iter
    ensures ok == NoneMissing(iter.schema, seen)
  {
    var n := |iter.schema.fields|;
    var count, last := iter.requiredIndex, iter.pos;
    var more := iter.Next();
    while more
      invariant iter.Valid() && last <= n
      invariant if more then last + 1 == iter.pos < n else last == if n == 0 then 0 else n - 1
      invariant count == RequiredBefore(iter.schema, last)
      decreases more, n - last
    {
      count, last := iter.requiredIndex, iter.pos;
      more := iter.Next();
    }
    if n > 0 && iter.schema.fields[last].htype.Required? {
      count := count + 1;
    }
    assert count == RequiredBefore(iter.schema, n);
    if count > MAX_REQUIRED_FIELDS {
      count := MAX_REQUIRED_FIELDS;
    }
    AllBitsMeans(iter.schema, bits, seen);
    for i := 0 to count
      invariant forall o :: 0 <= o < i ==> o in bits
    {
      if i !in bits {
        return false;
      }
    }
    return true;
  }

  // ----- reading values, fields and messages -----

  method DecodeString(input: seq<Byte>) returns (r: Read<seq<Byte>>)
    ensures r == TakeString(input)
  {
    var size := DecodeVarint32(input);
    if size.Fail? || |size.rest| < size.value {
      return Fail;
    }
    return Got(size.rest[..size.value], size.rest[size.value..]);
  }

  method DecodeScalar(t: LType, input: seq<Byte>) returns (r: Read<Value>)
    requires Packable(t)
    ensures r == ReadScalar(t, input)
  {
    match t {
      case LBool =>
        var v := DecodeVarint32(input);
        return if v.Got? then Got(VBool(v.value != 0), v.rest) else Fail;
      case LFixed32 => return ReadFixed(input, 4);
      case LFixed64 => return ReadFixed(input, 8);
      case _ =>
    }
    var v := DecodeVarint(input);
    if v.Fail? || !IntSize(t.size) {
      return Fail;
    }
    var n, clamped;
    if t.LUvarint? {
      n := v.value;
      clamped := n % Span(t.size);
    } else {
      n :=
        if t.LSvarint? then Unzigzag(v.value)
        else if t.size == 8 then Signed(v.value, TwoTo64)
        else Signed(v.value, TwoTo32);
      clamped := Signed(n, Span(t.size));
    }
    if clamped != n {
      return Fail;
    }
    return Got(VInt(n), v.rest);
  }

  method DecodeValue(t: LType, input: seq<Byte>, held: Value) returns (r: Read<Value>)
    requires WellFormedType(t) && (t.LSubmessage? ==> Typed(t, held))
    ensures r == ReadValue(t, input, held)
    decreases t
  {
    if Packable(t) {
      r := DecodeScalar(t, input);
      return;
    }
    var s := DecodeString(input);
    if s.Fail? {
      return Fail;
    }
    match t {
      case LBytes(max) => r := if |s.value| > max then Fail else Got(VBytes(s.value), s.rest);
      case LString(size) => r := if |s.value| + 1 > size then Fail else Got(VBytes(UpToNul(s.value)), s.rest);
      case LFixedBytes(size) =>
        if |s.value| == 0 {
          r := Got(VBytes(Zeros(size)), s.rest);
        } else {
          r := if |s.value| != size then Fail else Got(VBytes(s.value), s.rest);
        }
      case LSubmessage(schema) =>
        var m := DecodeNoinit(schema, s.value, held.slots);
        r := if m.Some? then Got(VMessage(m.value), s.rest) else Fail;
    }
  }

  method DecodePacked(t: LType, input: seq<Byte>, held: seq<Value>, max: nat) returns (r: Option<seq<Value>>)
    requires Packable(t) && |held| <= max && forall k :: 0 <= k < |held| ==> Typed(t, held[k])
    ensures r == ReadPacked(t, input, held, max)
  {
    var rest, vs := input, held;
    while rest != [] && |vs| < max
      invariant |vs| <= max && forall k :: 0 <= k < |vs| ==> Typed(t, vs[k])
      invariant ReadPacked(t, input, held, max) == ReadPacked(t, rest, vs, max)
      decreases |rest|
    {
      var v := DecodeScalar(t, rest);
      if v.Fail? {
        return None;
      }
      vs, rest := vs + [v.value], v.rest;
    }
    return if rest != [] then None else Some(vs);
  }

  method DecodeField(f: Field, wiretype: nat, input: seq<Byte>, slot: Slot) returns (r: Read<Slot>)
    requires WellFormedField(f) && TypedSlot(f, slot)
    ensures r == ReadSlot(f, wiretype, input, slot)
    decreases f, 1
  {
    DefaultValueTyped(f);
    match f.htype {
      case Required =>
        var v := DecodeValue(f.ltype, input, slot.v);
        r := if v.Got? then Got(Single(v.value), v.rest) else Fail;
      case Optional(flag) =>
        var v := DecodeValue(f.ltype, input, if slot.Absent? then DefaultValue(f.ltype, f.initial) else slot.v);
        r := if v.Fail? then Fail else Got(if flag then Present(v.value) else Single(v.value), v.rest);
      case Oneof(_) =>
        var v := DecodeValue(f.ltype, input, if slot.Absent? then DefaultValue(f.ltype, f.initial) else slot.v);
        r := if v.Got? then Got(Present(v.value), v.rest) else Fail;
      case Repeated(_) => r := DecodeArray(f, wiretype, input, slot.vs);
    }
  }

  method DecodeArray(f: Field, wiretype: nat, input: seq<Byte>, vs: seq<Value>) returns (r: Read<Slot>)
    requires WellFormedField(f) && f.htype.Repeated? && TypedSlot(f, Items(vs))
    ensures r == ReadArray(f, wiretype, input, vs)
    decreases f, 0
  {
    if wiretype == PbEncode.WT_STRING && Packable(f.ltype) {
      var s := DecodeString(input);
      if s.Fail? {
        return Fail;
      }
      var read := DecodePacked(f.ltype, s.value, vs, f.htype.max);
      r := if read.Some? then Got(Items(read.value), s.rest) else Fail;
    } else {
      if |vs| >= f.htype.max {
        return Fail;
      }
      DefaultValueTyped(f);
      var v := DecodeValue(f.ltype, input, DefaultValue(f.ltype, f.initial));
      r := if v.Got? then Got(Items(vs + [v.value]), v.rest) else Fail;
    }
  }

  /** Read fields in the order in which they come, until the input or a zero tag ends the message. */
  method DecodeNoinit(schema: Schema, input: seq<Byte>, held: seq<Slot>) returns (r: Option<seq<Slot>>)
    requires WellFormed(schema) && TypedMessage(schema, held)
    ensures r == ReadMessage(schema, input, held, {})
    decreases schema
  {
    hide FitsMessage, InBoundsMessage, WellFormed, ReadSlot, ReadVarint32, TypedSlot;
    var iter := new FieldIter(schema);
    var rest, slots, bits: set<nat> := input, held, {};
    ghost var seen: set<nat> := {};
    while rest != []
      invariant iter.Valid() && iter.schema == schema && TypedMessage(schema, slots) && Tracks(schema, bits, seen)
      invariant ReadMessage(schema, input, held, {}) == ReadMessage(schema, rest, slots, seen)
      decreases |rest|
    {
      var head := DecodeVarint32(rest);
      if head.Fail? {
        return None;
      }
      if head.value == 0 {
        break;
      }
      var tag, wiretype := head.value / 8, head.value % 8;
      var found := iter.Seek(tag);
      if !found {
        var skipped := Skip(wiretype, head.rest);
        if skipped.Fail? {
          return None;
        }
        rest := skipped.rest;
      } else {
        FieldAt(schema, slots, iter.pos);
        var f := schema.fields[iter.pos];
        TracksMore(schema, bits, seen, iter.pos);
        if f.htype.Required? && iter.requiredIndex < MAX_REQUIRED_FIELDS {
          bits := bits + {iter.requiredIndex};
        }
        var slot := DecodeField(f, wiretype, head.rest, slots[iter.pos]);
        if slot.Fail? {
          return None;
        }
        StoreTyped(schema, slots, iter.pos, slot.value);
        slots, rest, seen := Store(schema, slots, iter.pos, slot.value), slot.rest, seen + {iter.pos};
      }
    }
    var ok := CheckRequired(iter, bits, seen);
    return if ok then Some(slots) else None;
  }

  lemma FieldAt(schema: Schema, slots: seq<Slot>, i: nat)
    requires WellFormed(schema) && TypedMessage(schema, slots) && i < |schema.fields|
    ensures |slots| == |schema.fields| && WellFormedField(schema.fields[i]) && TypedSlot(schema.fields[i], slots[i])
  {
  }

  /** Initialise a message and read into it: what comes out is typed, and is what the bytes mean. */
  method Decode(schema: Schema, input: seq<Byte>) returns (r: Option<seq<Slot>>)
    requires WellFormed(schema)
    ensures r == Meaning(schema, input)
    ensures r.Some? ==> TypedMessage(schema, r.value)
  {
    DefaultSlotsTyped(schema);
    r := DecodeNoinit(schema, input, DefaultSlots(schema));
  }
}
