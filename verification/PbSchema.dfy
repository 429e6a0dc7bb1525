/**
  Message descriptions and message values: what a generated field table says about a struct, which
  values the struct can hold, and what initialising it to defaults stores.
 */
module PbSchema {
  import opened Basics
  import opened Coding

  /** The data type of a field; sizes are those of the C variable in bytes. */
  datatype LType =
    | LBool
    | LVarint(size: nat)
    | LUvarint(size: nat)
    | LSvarint(size: nat)
    | LFixed32
    | LFixed64
    | LBytes(max: nat)
    | LString(size: nat)
    | LFixedBytes(size: nat)
    | LSubmessage(schema: Schema)

  /** How often a field occurs.  An optional field without a presence flag is present unless it is zero. */
  datatype HType = Required | Optional(flag: bool) | Repeated(max: nat) | Oneof(union: nat)

  datatype Field = Field(tag: nat, htype: HType, ltype: LType, initial: Option<Value>)

  datatype Schema = Schema(fields: seq<Field>)

  datatype Value = VBool(b: bool) | VInt(n: int) | VBytes(s: seq<Byte>) | VMessage(slots: seq<Slot>)

  /**
    What a struct holds for a field: a plain value, a value with a presence flag (or selected
    in its union), or an array with its count.
   */
  datatype Slot = Single(v: Value) | Absent | Present(v: Value) | Items(vs: seq<Value>)

  predicate Packable(t: LType) {
    t.LBool? || t.LVarint? || t.LUvarint? || t.LSvarint? || t.LFixed32? || t.LFixed64?
  }

  predicate IntSize(n: nat) {
    n == 1 || n == 2 || n == 4 || n == 8
  }

  /** The number of values of an integer variable of `size` bytes. */
  function Span(size: nat): (r: nat)
    requires IntSize(size)
    ensures r > 0 && r % 2 == 0
  {
    if size == 1 then 0x100 else if size == 2 then 0x1_0000 else if size == 4 then TwoTo32 else TwoTo64
  }

  predicate SignedIn(n: int, size: nat) {
    IntSize(size) ==> 0 <= 2 * n + Span(size) < 2 * Span(size)
  }

  // ----- values that a struct of a given type can hold -----

  predicate Fits(t: LType, v: Value)
    decreases t
  {
    match t
    case LBool => v.VBool?
    case LVarint(size) => v.VInt? && SignedIn(v.n, size)
    case LSvarint(size) => v.VInt? && SignedIn(v.n, size)
    case LUvarint(size) => v.VInt? && 0 <= v.n && (IntSize(size) ==> v.n < Span(size))
    case LFixed32 => v.VInt? && 0 <= v.n < TwoTo32
    case LFixed64 => v.VInt? && 0 <= v.n < TwoTo64
    case LBytes(_) => v.VBytes?
    case LString(size) => v.VBytes? && |v.s| <= size && 0 !in v.s
    case LFixedBytes(size) => v.VBytes? && |v.s| == size
    case LSubmessage(schema) => v.VMessage? && FitsMessage(schema, v.slots)
  }

  predicate FitsSlot(f: Field, slot: Slot)
    decreases f
  {
    match f.htype
    case Required => slot.Single? && Fits(f.ltype, slot.v)
    case Optional(flag) =>
      if flag then slot.Absent? || (slot.Present? && Fits(f.ltype, slot.v))
      else slot.Single? && Fits(f.ltype, slot.v)
    case Repeated(_) => slot.Items? && forall k :: 0 <= k < |slot.vs| ==> Fits(f.ltype, slot.vs[k])
    case Oneof(_) => slot.Absent? || (slot.Present? && Fits(f.ltype, slot.v))
  }

  predicate FitsMessage(schema: Schema, slots: seq<Slot>)
    decreases schema
  {
    && |slots| == |schema.fields|
    && forall i :: 0 <= i < |slots| ==> FitsSlot(schema.fields[i], slots[i])
  }

  // ----- defaults -----

  function DefaultValue(t: LType, initial: Option<Value>): (r: Value)
    decreases t
  {
    match t
    case LSubmessage(schema) => VMessage(DefaultSlots(schema))
    case _ => if initial.Some? then initial.value else ZeroValue(t)
  }

  function ZeroValue(t: LType): (r: Value) {
    match t
    case LBool => VBool(false)
    case LBytes(_) => VBytes([])
    case LString(_) => VBytes([])
    case LFixedBytes(size) => VBytes(Zeros(size))
    case _ => VInt(0)
  }

  function DefaultSlot(f: Field): (r: Slot)
    decreases f
  {
    match f.htype
    case Required => Single(DefaultValue(f.ltype, f.initial))
    case Optional(flag) => if flag then Absent else Single(DefaultValue(f.ltype, f.initial))
    case Repeated(_) => Items([])
    case Oneof(_) => Absent
  }

  function DefaultSlots(schema: Schema): (r: seq<Slot>)
    ensures |r| == |schema.fields|
    ensures forall i :: 0 <= i < |r| ==> r[i] == DefaultSlot(schema.fields[i])
    decreases schema
  {
    seq(|schema.fields|, (i: int) requires 0 <= i < |schema.fields| => DefaultSlot(schema.fields[i]))
  }

  /** The test that lets an optional field without a presence flag be left out. */
  predicate IsDefault(f: Field, slot: Slot)
    requires FitsSlot(f, slot)
    decreases f
  {
    match f.htype
    case Required => false
    case Repeated(_) => slot.vs == []
    case Oneof(_) => slot.Absent?
    case Optional(flag) =>
      if flag then slot.Absent?
      else
        match f.ltype
        case LBytes(_) => slot.v == VBytes([])
        case LString(_) => slot.v == VBytes([])
        case LFixedBytes(size) => size == 0
        case LSubmessage(schema) =>
          assert Fits(f.ltype, slot.v) && FitsMessage(schema, slot.v.slots);
          forall i :: 0 <= i < |schema.fields| ==> IsDefault(schema.fields[i], slot.v.slots[i])
        case LBool => slot.v == VBool(false)
        case _ => slot.v == VInt(0)
  }

  // ----- well-formed descriptions, and values that there is room for -----

  /** Lengths and counts that the struct has room for; a string needs its terminator. */
  predicate InBounds(t: LType, v: Value)
    requires Fits(t, v)
    decreases t
  {
    match t
    case LBytes(max) => |v.s| <= max
    case LString(size) => |v.s| < size
    case LSubmessage(schema) => InBoundsMessage(schema, v.slots)
    case _ => true
  }

  predicate InBoundsSlot(f: Field, slot: Slot)
    requires FitsSlot(f, slot)
    decreases f
  {
    match slot
    case Absent => true
    case Items(vs) => |vs| <= f.htype.max && forall k :: 0 <= k < |vs| ==> InBounds(f.ltype, vs[k])
    case Single(v) => InBounds(f.ltype, v)
    case Present(v) => InBounds(f.ltype, v)
  }

  /** Every field in bounds, and at most one member of each union selected. */
  predicate InBoundsMessage(schema: Schema, slots: seq<Slot>)
    requires FitsMessage(schema, slots)
    decreases schema
  {
    && (forall i :: 0 <= i < |slots| ==> InBoundsSlot(schema.fields[i], slots[i]))
    && forall i, j :: 0 <= i < j < |slots| && SameUnion(schema.fields[i], schema.fields[j]) ==>
      slots[i].Absent? || slots[j].Absent?
  }

  predicate SameUnion(f: Field, g: Field) {
    f.htype.Oneof? && f.htype == g.htype
  }

  /** A field as the generator emits it: a tag number, an integer size, a default that fits. */
  predicate WellFormedField(f: Field)
    decreases f
  {
    && 1 <= f.tag < 0x2000_0000
    && (f.initial.Some? ==> Fits(f.ltype, f.initial.value) && InBounds(f.ltype, f.initial.value))
    && (f.htype.Optional? && !f.htype.flag ==> f.initial.None?)
    && WellFormedType(f.ltype)
  }

  predicate WellFormedType(t: LType)
    decreases t
  {
    match t
    case LVarint(size) => IntSize(size)
    case LUvarint(size) => IntSize(size)
    case LSvarint(size) => IntSize(size)
    case LString(size) => size > 0
    case LSubmessage(schema) => WellFormed(schema)
    case _ => true
  }

  predicate WellFormed(schema: Schema)
    decreases schema
  {
    && (forall i :: 0 <= i < |schema.fields| ==> WellFormedField(schema.fields[i]))
    && forall i, j :: 0 <= i < j < |schema.fields| ==> schema.fields[i].tag != schema.fields[j].tag
  }

  predicate Typed(t: LType, v: Value) {
    Fits(t, v) && InBounds(t, v)
  }

  predicate TypedSlot(f: Field, slot: Slot) {
    FitsSlot(f, slot) && InBoundsSlot(f, slot)
  }

  predicate TypedMessage(schema: Schema, slots: seq<Slot>) {
    FitsMessage(schema, slots) && InBoundsMessage(schema, slots)
  }

  lemma DefaultValueTyped(f: Field)
    requires WellFormedField(f)
    ensures Typed(f.ltype, DefaultValue(f.ltype, f.initial))
    ensures f.ltype.LSubmessage? ==> DefaultValue(f.ltype, None) == DefaultValue(f.ltype, f.initial)
    decreases f, 0
  {
    match f.ltype
    case LSubmessage(schema) => DefaultSlotsTyped(schema);
    case _ =>
  }

  /** Initialising a message gives a typed message. */
  lemma {:induction false} DefaultSlotsTyped(schema: Schema)
    requires WellFormed(schema)
    ensures TypedMessage(schema, DefaultSlots(schema))
    decreases schema
  {
    var slots := DefaultSlots(schema);
    forall i | 0 <= i < |slots| ensures TypedSlot(schema.fields[i], slots[i]) {
      DefaultValueTyped(schema.fields[i]);
    }
  }

  /** A message that the zero test lets pass is what initialisation stores. */
  lemma {:induction false} DefaultIsInitial(f: Field, slot: Slot)
    requires FitsSlot(f, slot) && WellFormedField(f) && IsDefault(f, slot)
    ensures slot == DefaultSlot(f)
    decreases f
  {
    if f.htype.Optional? && !f.htype.flag && f.ltype.LSubmessage? {
      var schema := f.ltype.schema;
      assert Fits(f.ltype, slot.v) && FitsMessage(schema, slot.v.slots);
      assert WellFormedType(f.ltype) && WellFormed(schema);
      forall i | 0 <= i < |schema.fields| ensures slot.v.slots[i] == DefaultSlots(schema)[i] {
        DefaultIsInitial(schema.fields[i], slot.v.slots[i]);
      }
      assert slot.v.slots == DefaultSlots(schema);
    }
  }
}
