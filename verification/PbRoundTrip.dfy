/** Decoding what was encoded gives the message back, for every description and every value in bounds. */
module PbRoundTrip {
  import opened Basics
  import opened Coding
  import opened PbWire
  import opened PbSchema
  import opened PbEncode
  import opened PbDecode

  lemma SignedOfWrapped(n: int, size: nat)
    requires IntSize(size) && SignedIn(n, size)
    ensures Signed(n % TwoTo64, TwoTo64) == n
    ensures size != 8 ==> Signed(n % TwoTo64, TwoTo32) == n
    ensures Signed(n, Span(size)) == n
  {
    Wrap(n, Span(size));
    Wrap(n, TwoTo64);
    if size != 8 {
      assert 0 <= 2 * n + TwoTo32 < 2 * TwoTo32;
      Wrap32(n);
    }
  }

  lemma Wrap(n: int, span: nat)
    requires span > 0 && span % 2 == 0 && 0 <= 2 * n + span < 2 * span
    ensures n % span == if n >= 0 then n else n + span
  {
    var q := n / span;
    assert n == q * span + n % span;
    Multiples(q, span);
    assert q == if n >= 0 then 0 else -1;
  }

  lemma Multiples(q: int, m: nat)
    ensures q >= 0 ==> q * m >= 0
    ensures q >= 1 ==> q * m >= m
    ensures q <= -1 ==> q * m + m <= 0
    ensures q <= -2 ==> q * m + 2 * m <= 0
  {
  }

  lemma Wrap32(n: int)
    requires 0 <= 2 * n + TwoTo32 < 2 * TwoTo32
    ensures n % TwoTo64 % TwoTo32 == if n >= 0 then n else n + TwoTo32
  {
    Wrap(n, TwoTo64);
    if n < 0 {
      assert n + TwoTo64 == (n + TwoTo32) + 0xffff_ffff * TwoTo32;
    }
  }

  lemma SignedReads(n: int, size: nat, rest: seq<Byte>)
    requires IntSize(size) && SignedIn(n, size)
    ensures ReadSigned(size, Varint(n % TwoTo64) + rest) == Got(VInt(n), rest)
  {
    hide ReadVarint, Varint, Signed;
    VarintRoundTrip(n % TwoTo64, rest);
    SignedOfWrapped(n, size);
  }

  lemma UnsignedReads(n: nat, size: nat, rest: seq<Byte>)
    requires IntSize(size) && n < Span(size)
    ensures ReadUnsigned(size, Varint(n) + rest) == Got(VInt(n), rest)
  {
    hide ReadVarint, Varint;
    VarintRoundTrip(n, rest);
  }

  lemma ZigzagReads(n: int, size: nat, rest: seq<Byte>)
    requires IntSize(size) && SignedIn(n, size)
    ensures ReadZigzag(size, Varint(Zigzag(n)) + rest) == Got(VInt(n), rest)
  {
    hide ReadVarint, Varint, Signed, Zigzag, Unzigzag;
    VarintRoundTrip(Zigzag(n), rest);
    ZigzagRoundTrip(n);
    SignedOfWrapped(n, size);
  }

  lemma BoolReads(b: bool, rest: seq<Byte>)
    ensures ReadBool(Varint(if b then 1 else 0) + rest) == Got(VBool(b), rest)
  {
    hide ReadVarint32, Varint;
    Varint32RoundTrip(if b then 1 else 0, rest);
  }

  lemma ScalarRoundTrip(t: LType, v: Value, rest: seq<Byte>)
    requires Packable(t) && Fits(t, v)
    requires WellFormedType(t)
    ensures ScalarBytes(t, v).Some? && |ScalarBytes(t, v).value| >= 1
    ensures ReadScalar(t, ScalarBytes(t, v).value + rest) == Got(v, rest)
  {
    hide ReadSigned, ReadUnsigned, ReadZigzag, ReadBool, ReadFixed, Varint, Fixed, Zigzag;
    match t {
      case LBool => BoolReads(v.b, rest);
      case LVarint(size) => SignedReads(v.n, size, rest);
      case LUvarint(size) => UnsignedReads(v.n, size, rest);
      case LSvarint(size) => ZigzagReads(v.n, size, rest);
      case LFixed32 => FixedReads(v.n, 4, rest);
      case LFixed64 => FixedReads(v.n, 8, rest);
    }
  }

  lemma FixedReads(n: nat, size: nat, rest: seq<Byte>)
    requires (size == 4 || size == 8) && n < Span(size)
    ensures ReadFixed(Fixed(n, size) + rest, size) == Got(VInt(n), rest)
  {
    hide Fixed, FromFixed, Pow2;
    SpanIsPow2(size);
    FixedRoundTrip(n, size);
    assert (Fixed(n, size) + rest)[..size] == Fixed(n, size) && (Fixed(n, size) + rest)[size..] == rest;
  }

  lemma StringRoundTrip(s: seq<Byte>, rest: seq<Byte>)
    requires |s| < TwoTo32
    ensures TakeString(Varint(|s|) + s + rest) == Got(s, rest)
  {
    hide ReadVarint32, Varint;
    assert Varint(|s|) + s + rest == Varint(|s|) + (s + rest);
    Varint32RoundTrip(|s|, s + rest);
    assert (s + rest)[..|s|] == s && (s + rest)[|s|..] == rest;
  }

  lemma {:induction false} PackedRoundTrip(t: LType, vs: seq<Value>, k: nat, max: nat)
    requires Packable(t) && k <= |vs| <= max && AllTyped(t, vs)
    requires WellFormedType(t)
    ensures PackedBytes(t, vs, k).Some?
    ensures ReadPacked(t, PackedBytes(t, vs, k).value, vs[..k], max) == Some(vs)
    decreases |vs| - k
  {
    hide ReadScalar, ScalarBytes;
    if k == |vs| {
      assert vs[..k] == vs;
    } else {
      PackedRoundTrip(t, vs, k + 1, max);
      ScalarRoundTrip(t, vs[k], PackedBytes(t, vs, k + 1).value);
      assert vs[..k + 1] == vs[..k] + [vs[k]];
    }
  }

  predicate AllTyped(t: LType, vs: seq<Value>) {
    (forall j :: 0 <= j < |vs| ==> Fits(t, vs[j])) && forall j :: 0 <= j < |vs| ==> InBounds(t, vs[j])
  }

  // ----- every typed message has an encoding -----

  lemma {:induction false} ValueEncodes(t: LType, v: Value)
    requires WellFormedType(t) && Typed(t, v)
    ensures ValueBytes(t, v).Some? && |ValueBytes(t, v).value| >= 1
    decreases t
  {
    if Packable(t) {
      ScalarRoundTrip(t, v, []);
    } else if t.LSubmessage? {
      MessageEncodes(t.schema, v.slots, 0);
    }
  }

  lemma {:induction false} ArrayEncodes(f: Field, vs: seq<Value>, k: nat)
    requires WellFormedField(f) && AllTyped(f.ltype, vs) && k <= |vs|
    ensures UnpackedBytes(f, vs, k).Some?
    decreases f, |vs| - k
  {
    if k < |vs| {
      ValueEncodes(f.ltype, vs[k]);
      ArrayEncodes(f, vs, k + 1);
    }
  }

  lemma {:induction false} SlotEncodes(f: Field, slot: Slot)
    requires WellFormedField(f) && TypedSlot(f, slot)
    ensures SlotBytes(f, slot).Some?
    decreases f
  {
    match slot {
      case Absent =>
      case Items(vs) =>
        assert AllTyped(f.ltype, vs);
        if Packable(f.ltype) {
          PackedRoundTrip(f.ltype, vs, 0, |vs|);
        } else {
          ArrayEncodes(f, vs, 0);
        }
      case Single(v) => ValueEncodes(f.ltype, v);
      case Present(v) => ValueEncodes(f.ltype, v);
    }
  }

  lemma {:induction false} MessageEncodes(schema: Schema, slots: seq<Slot>, i: nat)
    requires WellFormed(schema) && TypedMessage(schema, slots) && i <= |slots|
    ensures MessageBytes(schema, slots, i).Some?
    decreases schema, |slots| - i
  {
    if i < |slots| {
      SlotEncodes(schema.fields[i], slots[i]);
      MessageEncodes(schema, slots, i + 1);
    }
  }

  // ----- parts that a 32-bit length can measure -----

  /** Every byte string, string, submessage and packed array in a value is shorter than 4 GB. */
  predicate Short(t: LType, v: Value)
    requires Fits(t, v)
    decreases t
  {
    match t
    case LBytes(_) => |v.s| < TwoTo32
    case LString(_) => |v.s| < TwoTo32
    case LFixedBytes(_) => |v.s| < TwoTo32
    case LSubmessage(schema) => ShortMessage(schema, v.slots) && ShortBytes(MessageBytes(schema, v.slots, 0))
    case _ => true
  }

  predicate ShortBytes(bytes: Option<seq<Byte>>) {
    bytes.Some? ==> |bytes.value| < TwoTo32
  }

  predicate ShortSlot(f: Field, slot: Slot)
    requires FitsSlot(f, slot)
    decreases f
  {
    match slot
    case Absent => true
    case Items(vs) =>
      if Packable(f.ltype) then ShortBytes(PackedBytes(f.ltype, vs, 0))
      else forall k :: 0 <= k < |vs| ==> Short(f.ltype, vs[k])
    case Single(v) => Short(f.ltype, v)
    case Present(v) => Short(f.ltype, v)
  }

  predicate ShortMessage(schema: Schema, slots: seq<Slot>)
    requires FitsMessage(schema, slots)
    decreases schema
  {
    forall i :: 0 <= i < |slots| ==> ShortSlot(schema.fields[i], slots[i])
  }

  // ----- reading the encoding -----

  /** What a struct holds for a submessage before it is read. */
  predicate Initial(t: LType, held: Value) {
    t.LSubmessage? ==> held == VMessage(DefaultSlots(t.schema))
  }

  lemma InitialTyped(t: LType, held: Value)
    requires WellFormedType(t) && Initial(t, held)
    ensures t.LSubmessage? ==> Typed(t, held)
  {
    if t.LSubmessage? {
      DefaultSlotsTyped(t.schema);
    }
  }

  lemma {:induction false} ValueRoundTrip(t: LType, v: Value, held: Value, rest: seq<Byte>)
    requires WellFormedType(t) && Typed(t, v) && Initial(t, held)
    requires ValueBytes(t, v).Some? && Short(t, v)
    ensures t.LSubmessage? ==> Typed(t, held)
    ensures ReadValue(t, ValueBytes(t, v).value + rest, held) == Got(v, rest)
    decreases t
  {
    InitialTyped(t, held);
    if Packable(t) {
      ScalarRoundTrip(t, v, rest);
    } else if t.LSubmessage? {
      var body := MessageBytes(t.schema, v.slots, 0).value;
      StringRoundTrip(body, rest);
      MessageRoundTrip(t.schema, v.slots, 0, DefaultSlots(t.schema), {});
    } else {
      StringRoundTrip(v.s, rest);
    }
  }

  /**
    The encoder accepts a string that fills its array without a terminator; the decoder then
    refuses it, and only then.
   */
  lemma StringNeedsTerminator(size: nat, v: Value, held: Value, rest: seq<Byte>)
    requires size > 0 && Fits(LString(size), v) && |v.s| < TwoTo32
    ensures ValueBytes(LString(size), v).Some?
    ensures ReadValue(LString(size), ValueBytes(LString(size), v).value + rest, held)
         == if |v.s| < size then Got(v, rest) else Fail
  {
    StringRoundTrip(v.s, rest);
  }

  /** The fields before the `i`-th have been read, the others are as initialised. */
  predicate ReadSoFar(schema: Schema, slots: seq<Slot>, i: nat, held: seq<Slot>)
    requires |slots| == |schema.fields|
  {
    && |held| == |slots|
    && (forall j :: 0 <= j < |slots| && j < i ==> held[j] == slots[j])
    && (forall j :: i <= j < |slots| ==> held[j] == DefaultSlot(schema.fields[j]))
  }

  lemma {:induction false} MessageRoundTrip(schema: Schema, slots: seq<Slot>, i: nat, held: seq<Slot>, seen: set<nat>)
    requires WellFormed(schema) && TypedMessage(schema, slots) && i <= |slots|
    requires TypedMessage(schema, held) && ReadSoFar(schema, slots, i, held)
    requires forall j :: 0 <= j < i && schema.fields[j].htype.Required? ==> j in seen
    requires MessageBytes(schema, slots, i).Some? && ShortMessage(schema, slots)
    ensures ReadMessage(schema, MessageBytes(schema, slots, i).value, held, seen) == Some(slots)
    decreases schema, |slots| - i
  {
    hide WellFormed, FitsMessage, InBoundsMessage, FitsSlot, InBoundsSlot, ReadMessage, SlotBytes, Store;
    if i == |slots| {
      AllRead(schema, slots, held, seen);
    } else {
      FieldOf(schema, slots, i);
      var f, rest := schema.fields[i], MessageBytes(schema, slots, i + 1).value;
      var bytes := SlotBytes(f, slots[i]).value;
      var next := held[i := slots[i]];
      NextHeld(schema, slots, i, held);
      if bytes == [] {
        EmptyIsInitial(f, slots[i]);
        assert next == held && bytes + rest == rest;
        MessageRoundTrip(schema, slots, i + 1, held, seen);
      } else {
        SlotStep(schema, slots, i, held, seen, rest);
        MessageRoundTrip(schema, slots, i + 1, next, seen + {i});
      }
    }
  }

  lemma AllRead(schema: Schema, slots: seq<Slot>, held: seq<Slot>, seen: set<nat>)
    requires WellFormed(schema) && TypedMessage(schema, slots) && TypedMessage(schema, held)
    requires ReadSoFar(schema, slots, |slots|, held)
    requires forall j :: 0 <= j < |slots| && schema.fields[j].htype.Required? ==> j in seen
    ensures ReadMessage(schema, [], held, seen) == Some(slots)
  {
    assert held == slots;
  }

  /** Only what initialisation stores anyway is encoded as nothing. */
  lemma EmptyIsInitial(f: Field, slot: Slot)
    requires WellFormedField(f) && TypedSlot(f, slot) && SlotBytes(f, slot) == Some([])
    ensures slot == DefaultSlot(f) && !f.htype.Required?
  {
    match slot {
      case Absent =>
      case Items(vs) =>
        assert vs != [] && !Packable(f.ltype) ==>
          UnpackedBytes(f, vs, 0) == Join(TaggedBytes(f, vs[0]), UnpackedBytes(f, vs, 1));
      case Single(v) =>
        if f.htype.Optional? && IsDefault(f, slot) {
          DefaultIsInitial(f, slot);
        }
      case Present(v) =>
    }
  }

  lemma NextHeld(schema: Schema, slots: seq<Slot>, i: nat, held: seq<Slot>)
    requires TypedMessage(schema, slots) && i < |slots|
    requires TypedMessage(schema, held) && ReadSoFar(schema, slots, i, held)
    ensures Store(schema, held, i, slots[i]) == held[i := slots[i]] || slots[i].Absent?
    ensures TypedMessage(schema, held[i := slots[i]]) && ReadSoFar(schema, slots, i + 1, held[i := slots[i]])
  {
    var next := held[i := slots[i]];
    if !slots[i].Absent? {
      forall j | 0 <= j < |slots| && j != i ensures Store(schema, held, i, slots[i])[j] == next[j] {
        if SameUnion(schema.fields[i], schema.fields[j]) {
          assert j < i ==> slots[j].Absent?;
        }
      }
      assert Store(schema, held, i, slots[i]) == next;
    }
    forall j | 0 <= j < |next| ensures TypedSlot(schema.fields[j], next[j]) {
      assert TypedSlot(schema.fields[j], held[j]) && TypedSlot(schema.fields[j], slots[j]);
    }
    forall j, k | 0 <= j < k < |next| && SameUnion(schema.fields[j], schema.fields[k])
      ensures next[j].Absent? || next[k].Absent?
    {
      assert slots[j].Absent? || slots[k].Absent?;
    }
  }

  /** One tagged value at the front of the input goes into its slot. */
  lemma OneField(schema: Schema, i: nat, wiretype: nat, input: seq<Byte>, held: seq<Slot>, seen: set<nat>)
    requires WellFormed(schema) && TypedMessage(schema, held) && i < |held| && wiretype < 8
    requires ReadSlot(schema.fields[i], wiretype, input, held[i]).Got?
    ensures var slot := ReadSlot(schema.fields[i], wiretype, input, held[i]);
      && TypedMessage(schema, Store(schema, held, i, slot.value))
      && ReadMessage(schema, Tag(wiretype, schema.fields[i].tag) + input, held, seen)
         == ReadMessage(schema, slot.rest, Store(schema, held, i, slot.value), seen + {i})
  {
    hide ReadVarint32, Varint, ReadSlot, WellFormed, FitsMessage, InBoundsMessage, TypedSlot, Store, NoneMissing, Skip,
      Find;
    FieldOf(schema, held, i);
    var f := schema.fields[i];
    Varint32RoundTrip(8 * f.tag + wiretype, input);
    assert (8 * f.tag + wiretype) / 8 == f.tag && (8 * f.tag + wiretype) % 8 == wiretype;
    FindsField(schema, i);
    StoreTyped(schema, held, i, ReadSlot(f, wiretype, input, held[i]).value);
  }

  lemma FieldOf(schema: Schema, slots: seq<Slot>, i: nat)
    requires WellFormed(schema) && TypedMessage(schema, slots) && i < |slots|
    ensures |slots| == |schema.fields| && WellFormedField(schema.fields[i]) && TypedSlot(schema.fields[i], slots[i])
    ensures 1 <= schema.fields[i].tag < 0x2000_0000
  {
  }

  lemma FindsField(schema: Schema, i: nat)
    requires WellFormed(schema) && i < |schema.fields|
    ensures Find(schema, schema.fields[i].tag) == i
  {
  }

  lemma HeldValue(f: Field, slot: Slot, v: Value)
    requires WellFormedField(f) && TypedSlot(f, slot) && (slot == Single(v) || slot == Present(v))
    ensures Typed(f.ltype, v) && Fits(f.ltype, v) && WellFormedType(f.ltype)
  {
  }

  lemma HeldItems(f: Field, vs: seq<Value>)
    requires WellFormedField(f) && TypedSlot(f, Items(vs))
    ensures f.htype.Repeated? && AllTyped(f.ltype, vs) && |vs| <= f.htype.max && WellFormedType(f.ltype)
  {
  }

  /** All the bytes of a field go into its slot. */
  lemma SlotStep(schema: Schema, slots: seq<Slot>, i: nat, held: seq<Slot>, seen: set<nat>, rest: seq<Byte>)
    requires WellFormed(schema) && TypedMessage(schema, slots) && i < |slots|
    requires TypedMessage(schema, held) && ReadSoFar(schema, slots, i, held)
    requires SlotBytes(schema.fields[i], slots[i]).Some? && SlotBytes(schema.fields[i], slots[i]).value != []
    requires ShortSlot(schema.fields[i], slots[i])
    ensures TypedMessage(schema, held[i := slots[i]])
    ensures ReadMessage(schema, SlotBytes(schema.fields[i], slots[i]).value + rest, held, seen)
         == ReadMessage(schema, rest, held[i := slots[i]], seen + {i})
    decreases schema.fields[i]
  {
    hide WellFormed, FitsMessage, InBoundsMessage, FitsSlot, InBoundsSlot, ReadMessage, ReadSlot, Store, AllTyped;
    FieldOf(schema, slots, i);
    var f, slot := schema.fields[i], slots[i];
    NextHeld(schema, slots, i, held);
    match slot {
      case Items(vs) =>
        HeldItems(f, vs);
        ArrayStep(schema, slots, i, vs, held, seen, rest);
      case Single(v) =>
        HeldValue(f, slot, v);
        TaggedStep(schema, slots, i, v, held, seen, rest);
      case Present(v) =>
        HeldValue(f, slot, v);
        TaggedStep(schema, slots, i, v, held, seen, rest);
    }
  }

  lemma ArrayStep(schema: Schema, slots: seq<Slot>, i: nat, vs: seq<Value>, held: seq<Slot>, seen: set<nat>,
      rest: seq<Byte>)
    requires WellFormed(schema) && TypedMessage(schema, slots) && i < |slots|
    requires TypedMessage(schema, held) && ReadSoFar(schema, slots, i, held)
    requires slots[i] == Items(vs) && schema.fields[i].htype.Repeated? && AllTyped(schema.fields[i].ltype, vs)
    requires |vs| <= schema.fields[i].htype.max
    requires ArrayBytes(schema.fields[i], vs).Some? && ArrayBytes(schema.fields[i], vs).value != []
    requires FitsSlot(schema.fields[i], slots[i]) && ShortSlot(schema.fields[i], slots[i])
    ensures TypedMessage(schema, held[i := slots[i]])
    ensures ReadMessage(schema, ArrayBytes(schema.fields[i], vs).value + rest, held, seen)
         == ReadMessage(schema, rest, held[i := slots[i]], seen + {i})
    decreases schema.fields[i], |vs| + 1
  {
    hide WellFormed, FitsMessage, InBoundsMessage, FitsSlot, InBoundsSlot, ReadMessage, ReadSlot, Store, Varint,
      PackedBytes, UnpackedBytes;
    FieldOf(schema, slots, i);
    var f := schema.fields[i];
    NextHeld(schema, slots, i, held);
    assert held[i] == Items([]);
    if Packable(f.ltype) {
      PackedReads(f, vs, rest);
      var body := Prefixed(PackedBytes(f.ltype, vs, 0)).value;
      assert ArrayBytes(f, vs).value + rest == Tag(WT_STRING, f.tag) + (body + rest);
      OneField(schema, i, WT_STRING, body + rest, held, seen);
    } else {
      assert vs[..0] == [];
      UnpackedSteps(schema, i, vs, 0, held, seen, rest);
    }
  }

  lemma TaggedStep(schema: Schema, slots: seq<Slot>, i: nat, v: Value, held: seq<Slot>, seen: set<nat>, rest: seq<Byte>)
    requires WellFormed(schema) && TypedMessage(schema, slots) && i < |slots|
    requires TypedMessage(schema, held) && ReadSoFar(schema, slots, i, held)
    requires (slots[i] == Single(v) || slots[i] == Present(v)) && Fits(schema.fields[i].ltype, v)
    requires TaggedBytes(schema.fields[i], v).Some? && Short(schema.fields[i].ltype, v)
    ensures TypedMessage(schema, held[i := slots[i]])
    ensures ReadMessage(schema, TaggedBytes(schema.fields[i], v).value + rest, held, seen)
         == ReadMessage(schema, rest, held[i := slots[i]], seen + {i})
    decreases schema.fields[i], 1
  {
    hide WellFormed, FitsMessage, InBoundsMessage, FitsSlot, InBoundsSlot, ReadMessage, ReadSlot, Store, Varint,
      ValueBytes;
    FieldOf(schema, slots, i);
    var f := schema.fields[i];
    NextHeld(schema, slots, i, held);
    var body := ValueBytes(f.ltype, v).value;
    TaggedReads(f, slots[i], v, rest);
    assert TaggedBytes(f, v).value + rest == TagFor(f) + (body + rest);
    OneField(schema, i, WireType(f.ltype), body + rest, held, seen);
  }

  /** The value of a field that is not an array goes into an initialised slot. */
  lemma TaggedReads(f: Field, slot: Slot, v: Value, rest: seq<Byte>)
    requires WellFormedField(f) && TypedSlot(f, slot) && (slot == Single(v) || slot == Present(v)) && Fits(f.ltype, v)
    requires ValueBytes(f.ltype, v).Some? && Short(f.ltype, v)
    ensures TypedSlot(f, DefaultSlot(f))
    ensures ReadSlot(f, WireType(f.ltype), ValueBytes(f.ltype, v).value + rest, DefaultSlot(f)) == Got(slot, rest)
    decreases f, 0
  {
    DefaultValueTyped(f);
    ValueRoundTrip(f.ltype, v, DefaultValue(f.ltype, f.initial), rest);
  }

  lemma PackedReads(f: Field, vs: seq<Value>, rest: seq<Byte>)
    requires WellFormedField(f) && f.htype.Repeated? && Packable(f.ltype) && AllTyped(f.ltype, vs)
    requires |vs| <= f.htype.max
    requires PackedBytes(f.ltype, vs, 0).Some? && |PackedBytes(f.ltype, vs, 0).value| < TwoTo32
    ensures ReadSlot(f, WT_STRING, Prefixed(PackedBytes(f.ltype, vs, 0)).value + rest, Items([])) ==
      Got(Items(vs), rest)
  {
    hide TakeString, ReadPacked, PackedBytes, DefaultValue;
    assert vs[..0] == [];
    PackedRoundTrip(f.ltype, vs, 0, f.htype.max);
    StringRoundTrip(PackedBytes(f.ltype, vs, 0).value, rest);
  }

  lemma {:induction false} UnpackedSteps(schema: Schema, i: nat, vs: seq<Value>, k: nat, held: seq<Slot>,
      seen: set<nat>, rest: seq<Byte>)
    requires WellFormed(schema) && TypedMessage(schema, held) && i < |held| && k < |vs|
    requires schema.fields[i].htype.Repeated? && !Packable(schema.fields[i].ltype)
    requires AllTyped(schema.fields[i].ltype, vs) && |vs| <= schema.fields[i].htype.max && held[i] == Items(vs[..k])
    requires UnpackedBytes(schema.fields[i], vs, k).Some?
    requires forall j :: 0 <= j < |vs| ==> Short(schema.fields[i].ltype, vs[j])
    ensures TypedMessage(schema, held[i := Items(vs)])
    ensures ReadMessage(schema, UnpackedBytes(schema.fields[i], vs, k).value + rest, held, seen)
         == ReadMessage(schema, rest, held[i := Items(vs)], seen + {i})
    decreases schema.fields[i], |vs| - k
  {
    hide WellFormed, FitsMessage, InBoundsMessage, FitsSlot, InBoundsSlot, ReadMessage, ReadSlot, Varint, ValueBytes;
    FieldOf(schema, held, i);
    var f := schema.fields[i];
    var body, more := ValueBytes(f.ltype, vs[k]).value, UnpackedBytes(f, vs, k + 1).value;
    ElementReads(f, vs, k, more + rest);
    assert UnpackedBytes(f, vs, k).value + rest == TagFor(f) + (body + (more + rest));
    OneField(schema, i, WireType(f.ltype), body + (more + rest), held, seen);
    var next := held[i := Items(vs[..k + 1])];
    assert Store(schema, held, i, Items(vs[..k + 1])) == next;
    if k + 1 < |vs| {
      UnpackedSteps(schema, i, vs, k + 1, next, seen + {i}, rest);
      assert next[i := Items(vs)] == held[i := Items(vs)] && seen + {i} + {i} == seen + {i};
    } else {
      assert vs[..k + 1] == vs && more + rest == rest;
    }
  }

  lemma ElementReads(f: Field, vs: seq<Value>, k: nat, rest: seq<Byte>)
    requires WellFormedField(f) && f.htype.Repeated? && !Packable(f.ltype) && AllTyped(f.ltype, vs)
    requires k < |vs| <= f.htype.max
    requires ValueBytes(f.ltype, vs[k]).Some? && Short(f.ltype, vs[k])
    ensures TypedSlot(f, Items(vs[..k]))
    ensures ReadSlot(f, WireType(f.ltype), ValueBytes(f.ltype, vs[k]).value + rest, Items(vs[..k])) ==
      Got(Items(vs[..k + 1]), rest)
    decreases f, 0
  {
    DefaultValueTyped(f);
    ValueRoundTrip(f.ltype, vs[k], DefaultValue(f.ltype, f.initial), rest);
    assert vs[..k + 1] == vs[..k] + [vs[k]];
  }

  /**
    For every well-formed description and every message in bounds: the message has an encoding,
    and if no part of it is too long for a 32-bit length, the encoding means the message.
   */
  lemma RoundTrip(schema: Schema, slots: seq<Slot>)
    requires WellFormed(schema) && TypedMessage(schema, slots)
    ensures MessageBytes(schema, slots, 0).Some?
    ensures ShortMessage(schema, slots) ==> Meaning(schema, MessageBytes(schema, slots, 0).value) == Some(slots)
  {
    MessageEncodes(schema, slots, 0);
    DefaultSlotsTyped(schema);
    if ShortMessage(schema, slots) {
      MessageRoundTrip(schema, slots, 0, DefaultSlots(schema), {});
    }
  }

  // ----- what other writers may write -----

  /** A negative number of 32 bits or less may come without its sign bits. */
  lemma SignBitsLeftOut(n: int, size: nat, rest: seq<Byte>)
    requires size in {1, 2, 4} && SignedIn(n, size)
    ensures ReadSigned(size, Varint(n % TwoTo32) + rest) == Got(VInt(n), rest)
  {
    hide Varint, ReadVarint, Signed;
    VarintRoundTrip(n % TwoTo32, rest);
    SignedOfLow(n);
    SignedOfWrapped(n, size);
  }

  lemma SignedOfLow(n: int)
    requires -TwoTo32 <= 2 * n < TwoTo32
    ensures Signed(n % TwoTo32, TwoTo32) == n
  {
    Wrap(n, TwoTo32);
  }

  /** A number that does not fit the struct is refused. */
  lemma TooLargeIsRefused(n: nat, size: nat, rest: seq<Byte>)
    requires IntSize(size) && n < TwoTo64
    ensures ReadUnsigned(size, Varint(n) + rest) == if n < Span(size) then Got(VInt(n), rest) else Fail
  {
    hide Varint, ReadVarint, Span;
    VarintRoundTrip(n, rest);
    LowPart(n, Span(size));
  }

  lemma LowPart(n: nat, span: nat)
    requires span > 0
    ensures n % span == n <==> n < span
  {
    if n < span {
      SmallMod(n, span);
    }
  }

  lemma SmallMod(n: nat, span: nat)
    requires n < span
    ensures n % span == n
  {
  }

  /** Any number but zero is true. */
  lemma NonzeroIsTrue(n: nat, rest: seq<Byte>)
    requires n < TwoTo32
    ensures ReadBool(Varint(n) + rest) == Got(VBool(n != 0), rest)
  {
    Varint32RoundTrip(n, rest);
    hide Varint, ReadVarint32;
  }

  /** An array that would be packed may come element by element; one element too many is refused. */
  lemma UnpackedElementReads(f: Field, wiretype: nat, vs: seq<Value>, v: Value, rest: seq<Byte>)
    requires WellFormedField(f) && f.htype.Repeated? && Packable(f.ltype) && wiretype != 2
    requires TypedSlot(f, Items(vs)) && Fits(f.ltype, v)
    ensures ScalarBytes(f.ltype, v).Some?
    ensures ReadSlot(f, wiretype, ScalarBytes(f.ltype, v).value + rest, Items(vs)) ==
      if |vs| < f.htype.max then Got(Items(vs + [v]), rest) else Fail
  {
    hide ReadScalar, ScalarBytes, DefaultValue;
    ScalarRoundTrip(f.ltype, v, rest);
    DefaultValueTyped(f);
    var input := ScalarBytes(f.ltype, v).value + rest;
    assert ReadValue(f.ltype, input, DefaultValue(f.ltype, f.initial)) == Got(v, rest);
    assert ReadSlot(f, wiretype, input, Items(vs)) == ReadArray(f, wiretype, input, vs);
  }
}
