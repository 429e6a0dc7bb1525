/**
  Encoding a message: the bytes it stands for, and the encoder that computes sizes in one pass
  and writes in another.
 */
module PbEncode {
  import opened Basics
  import opened Coding
  import opened PbWire
  import opened PbSchema

  const WT_VARINT := 0
  const WT_64BIT := 1
  const WT_STRING := 2
  const WT_32BIT := 5

  function WireType(t: LType): (r: nat)
    ensures r < 8
  {
    match t
    case LBool => WT_VARINT
    case LVarint(_) => WT_VARINT
    case LUvarint(_) => WT_VARINT
    case LSvarint(_) => WT_VARINT
    case LFixed32 => WT_32BIT
    case LFixed64 => WT_64BIT
    case _ => WT_STRING
  }

  function Tag(wiretype: nat, tag: nat): seq<Byte> {
    Varint(8 * tag + wiretype)
  }

  function TagFor(f: Field): seq<Byte> {
    Tag(WireType(f.ltype), f.tag)
  }

  function Join(a: Option<seq<Byte>>, b: Option<seq<Byte>>): (r: Option<seq<Byte>>) {
    if a.Some? && b.Some? then Some(a.value + b.value) else None
  }

  function Prefixed(body: Option<seq<Byte>>): (r: Option<seq<Byte>>) {
    if body.Some? then Some(Varint(|body.value|) + body.value) else None
  }

  // ----- the bytes that a message stands for -----

  function ScalarBytes(t: LType, v: Value): (r: Option<seq<Byte>>)
    requires Packable(t) && Fits(t, v)
  {
    match t
    case LBool => Some(Varint(if v.b then 1 else 0))
    case LVarint(size) => if IntSize(size) then Some(Varint(v.n % TwoTo64)) else None
    case LUvarint(size) => if IntSize(size) then Some(Varint(v.n)) else None
    case LSvarint(size) => if IntSize(size) then Some(Varint(Zigzag(v.n))) else None
    case LFixed32 => Some(Fixed(v.n, 4))
    case LFixed64 => Some(Fixed(v.n, 8))
  }

  function ValueBytes(t: LType, v: Value): (r: Option<seq<Byte>>)
    requires Fits(t, v)
    decreases t
  {
    match t
    case LBytes(max) => if |v.s| > max then None else Prefixed(Some(v.s))
    case LString(_) => Prefixed(Some(v.s))
    case LFixedBytes(_) => Prefixed(Some(v.s))
    case LSubmessage(schema) => Prefixed(MessageBytes(schema, v.slots, 0))
    case _ => ScalarBytes(t, v)
  }

  /** The elements of a packed array from the `k`-th on. */
  function PackedBytes(t: LType, vs: seq<Value>, k: nat): (r: Option<seq<Byte>>)
    requires Packable(t) && k <= |vs| && forall j :: 0 <= j < |vs| ==> Fits(t, vs[j])
    decreases |vs| - k
  {
    if k == |vs| then Some([]) else Join(ScalarBytes(t, vs[k]), PackedBytes(t, vs, k + 1))
  }

  /** The elements of an array that is not packed, from the `k`-th on, each with its tag. */
  function UnpackedBytes(f: Field, vs: seq<Value>, k: nat): (r: Option<seq<Byte>>)
    requires k <= |vs| && forall j :: 0 <= j < |vs| ==> Fits(f.ltype, vs[j])
    decreases f, |vs| - k
  {
    if k == |vs| then Some([])
    else Join(TaggedBytes(f, vs[k]), UnpackedBytes(f, vs, k + 1))
  }

  function TaggedBytes(f: Field, v: Value): (r: Option<seq<Byte>>)
    requires Fits(f.ltype, v)
    decreases f, 0
  {
    Join(Some(TagFor(f)), ValueBytes(f.ltype, v))
  }

  function ArrayBytes(f: Field, vs: seq<Value>): (r: Option<seq<Byte>>)
    requires f.htype.Repeated? && forall j :: 0 <= j < |vs| ==> Fits(f.ltype, vs[j])
    decreases f, |vs| + 1
  {
    if vs == [] then Some([])
    else if |vs| > f.htype.max then None
    else if Packable(f.ltype) then Join(Some(Tag(WT_STRING, f.tag)), Prefixed(PackedBytes(f.ltype, vs, 0)))
    else UnpackedBytes(f, vs, 0)
  }

  function SlotBytes(f: Field, slot: Slot): (r: Option<seq<Byte>>)
    requires FitsSlot(f, slot)
    decreases f
  {
    match slot
    case Absent => Some([])
    case Items(vs) => ArrayBytes(f, vs)
    case Present(v) => TaggedBytes(f, v)
    case Single(v) => if f.htype.Optional? && IsDefault(f, slot) then Some([]) else TaggedBytes(f, v)
  }

  /** The fields of a message from the `i`-th on. */
  function MessageBytes(schema: Schema, slots: seq<Slot>, i: nat): (r: Option<seq<Byte>>)
    requires FitsMessage(schema, slots) && i <= |slots|
    decreases schema, |slots| - i
  {
    if i == |slots| then Some([])
    else Join(SlotBytes(schema.fields[i], slots[i]), MessageBytes(schema, slots, i + 1))
  }

  // ----- the encoder -----

  /** How far an output stream has got: the number of bytes, and the bytes unless it only counts. */
  datatype Progress = Progress(written: nat, out: seq<Byte>)

  /**
    A call that was to produce `bytes` succeeded exactly if there are such bytes and there was
    room for them, and if so it produced them.
   */
  ghost predicate Produced(ok: bool, bytes: Option<seq<Byte>>, sizing: bool, max: nat, before: Progress,
      after: Progress) {
    && (ok <==> bytes.Some? && (sizing || before.written + |bytes.value| <= max))
    && (ok ==> after.written == before.written + |bytes.value|)
    && (ok ==> after.out == if sizing then before.out else before.out + bytes.value)
    && (sizing || after.written <= max)
  }

  lemma ProducedThen(ok: bool, a: Option<seq<Byte>>, b: Option<seq<Byte>>, sizing: bool, max: nat, p: Progress,
      q: Progress, r: Progress)
    requires Produced(true, a, sizing, max, p, q) && Produced(ok, b, sizing, max, q, r)
    ensures Produced(ok, Join(a, b), sizing, max, p, r)
  {
    if ok && !sizing {
      assert p.out + a.value + b.value == p.out + (a.value + b.value);
    }
  }

  lemma JoinAssociates(a: Option<seq<Byte>>, b: Option<seq<Byte>>, c: Option<seq<Byte>>)
    ensures Join(Join(a, b), c) == Join(a, Join(b, c))
    ensures Join(Some([]), a) == a == Join(a, Some([]))
  {
    if a.Some? && b.Some? && c.Some? {
      assert a.value + b.value + c.value == a.value + (b.value + c.value);
    }
    if a.Some? {
      assert [] + a.value == a.value == a.value + [];
    }
  }

  class OStream {
    const sizing: bool
    const maxSize: nat
    var written: nat
    var out: seq<Byte>

    ghost predicate Valid()
      reads this
    {
      sizing || written <= maxSize
    }

    ghost function Now(): Progress
      reads this
    {
      Progress(written, out)
    }

    /** A stream that counts, and one that writes at most `maxSize` bytes after `out`. */
    constructor (sizing: bool, maxSize: nat, out: seq<Byte>)
      ensures Valid() && this.sizing == sizing && this.maxSize == maxSize && Now() == Progress(0, out)
    {
      this.sizing, this.maxSize := sizing, maxSize;
      written, this.out := 0, out;
    }

    method Write(buf: seq<Byte>) returns (ok: bool)
      requires Valid()
      modifies this
      ensures Valid() && Produced(ok, Some(buf), sizing, maxSize, old(Now()), Now())
    {
      if |buf| > 0 && !sizing {
        if written + |buf| > maxSize {
          return false;
        }
        out := out + buf;
      }
      written := written + |buf|;
      return true;
    }

    /** Count bytes that are not there: only for a stream that counts. */
    method Count(n: nat) returns (ok: bool)
      requires Valid() && sizing
      modifies this
      ensures Valid() && ok && Now() == old(Now()).(written := old(written) + n)
    {
      written := written + n;
      return true;
    }

    method WriteVarint(v: nat) returns (ok: bool)
      requires Valid()
      modifies this
      ensures Valid() && Produced(ok, Some(Varint(v)), sizing, maxSize, old(Now()), Now())
    {
      var buffer := EncodeVarint(v);
      ok := Write(buffer);
    }

    /** A length and that many bytes. */
    method WriteString(s: seq<Byte>) returns (ok: bool)
      requires Valid()
      modifies this
      ensures Valid() && Produced(ok, Prefixed(Some(s)), sizing, maxSize, old(Now()), Now())
    {
      ok := WriteVarint(|s|);
      if ok {
        ghost var middle := Now();
        ok := Write(s);
        ProducedThen(ok, Some(Varint(|s|)), Some(s), sizing, maxSize, old(Now()), middle, Now());
      }
    }
  }

  method EncodeScalar(stream: OStream, t: LType, v: Value) returns (ok: bool)
    requires stream.Valid() && Packable(t) && Fits(t, v)
    modifies stream
    ensures stream.Valid()
    ensures Produced(ok, ScalarBytes(t, v), stream.sizing, stream.maxSize, old(stream.Now()), stream.Now())
  {
    match t {
      case LBool => ok := stream.WriteVarint(if v.b then 1 else 0);
      case LFixed32 => ok := stream.Write(Fixed(v.n, 4));
      case LFixed64 => ok := stream.Write(Fixed(v.n, 8));
      case LVarint(size) =>
        if !IntSize(size) {
          return false;
        }
        ok := stream.WriteVarint(v.n % TwoTo64);
      case LUvarint(size) =>
        if !IntSize(size) {
          return false;
        }
        ok := stream.WriteVarint(v.n);
      case LSvarint(size) =>
        if !IntSize(size) {
          return false;
        }
        ok := stream.WriteVarint(Zigzag(v.n));
    }
  }

  method EncodeValue(stream: OStream, t: LType, v: Value) returns (ok: bool)
    requires stream.Valid() && Fits(t, v)
    modifies stream
    ensures stream.Valid()
    ensures Produced(ok, ValueBytes(t, v), stream.sizing, stream.maxSize, old(stream.Now()), stream.Now())
    decreases t
  {
    match t {
      case LBytes(max) =>
        if |v.s| > max {
          return false;
        }
        ok := stream.WriteString(v.s);
      case LString(_) => ok := stream.WriteString(v.s);
      case LFixedBytes(_) => ok := stream.WriteString(v.s);
      case LSubmessage(schema) => ok := EncodeSubmessage(stream, schema, v.slots);
      case _ => ok := EncodeScalar(stream, t, v);
    }
  }

  /** Measure the message with a counting stream, write its length, then write it. */
  method EncodeSubmessage(stream: OStream, schema: Schema, slots: seq<Slot>) returns (ok: bool)
    requires stream.Valid() && FitsMessage(schema, slots)
    modifies stream
    ensures stream.Valid()
    ensures Produced(ok, Prefixed(MessageBytes(schema, slots, 0)), stream.sizing, stream.maxSize, old(stream.Now()),
        stream.Now())
    decreases schema, 1
  {
    var measure := new OStream(true, 0, []);
    ok := EncodeMessage(measure, schema, slots);
    if !ok {
      return false;
    }
    var size := measure.written;
    ghost var bytes := MessageBytes(schema, slots, 0).value;
    assert size == |bytes|;
    ok := stream.WriteVarint(size);
    if !ok {
      return false;
    }
    ghost var middle := stream.Now();
    if stream.sizing {
      ok := stream.Count(size);
    } else {
      if stream.written + size > stream.maxSize {
        return false;
      }
      var substream := new OStream(false, size, stream.out);
      var status := EncodeMessage(substream, schema, slots);
      stream.written := stream.written + substream.written;
      stream.out := substream.out;
      assert substream.written == size; // the error "submsg size changed" cannot arise
      ok := status;
    }
    ProducedThen(ok, Some(Varint(size)), Some(bytes), stream.sizing, stream.maxSize, old(stream.Now()), middle,
        stream.Now());
  }

  method EncodeMessage(stream: OStream, schema: Schema, slots: seq<Slot>) returns (ok: bool)
    requires stream.Valid() && FitsMessage(schema, slots)
    modifies stream
    ensures stream.Valid()
    ensures Produced(ok, MessageBytes(schema, slots, 0), stream.sizing, stream.maxSize, old(stream.Now()), stream.Now())
    decreases schema, 0
  {
    ghost var done: Option<seq<Byte>> := Some([]);
    JoinAssociates(MessageBytes(schema, slots, 0), None, None);
    for i := 0 to |slots|
      invariant stream.Valid()
      invariant Produced(true, done, stream.sizing, stream.maxSize, old(stream.Now()), stream.Now())
      invariant MessageBytes(schema, slots, 0) == Join(done, MessageBytes(schema, slots, i))
    {
      ghost var before := stream.Now();
      ghost var bytes := SlotBytes(schema.fields[i], slots[i]);
      JoinAssociates(done, bytes, MessageBytes(schema, slots, i + 1));
      ok := EncodeSlot(stream, schema.fields[i], slots[i]);
      ProducedThen(ok, done, bytes, stream.sizing, stream.maxSize, old(stream.Now()), before, stream.Now());
      done := Join(done, bytes);
      if !ok {
        return false;
      }
    }
    JoinAssociates(done, None, None);
    return true;
  }

  method EncodeSlot(stream: OStream, f: Field, slot: Slot) returns (ok: bool)
    requires stream.Valid() && FitsSlot(f, slot)
    modifies stream
    ensures stream.Valid()
    ensures Produced(ok, SlotBytes(f, slot), stream.sizing, stream.maxSize, old(stream.Now()), stream.Now())
    decreases f
  {
    match f.htype {
      case Required => ok := EncodeTagged(stream, f, slot.v);
      case Optional(flag) =>
        if (if flag then slot.Present? else !IsDefault(f, slot)) {
          ok := EncodeTagged(stream, f, slot.v);
        } else {
          ok := true;
        }
      case Repeated(_) => ok := EncodeArray(stream, f, slot.vs);
      case Oneof(_) =>
        if slot.Present? {
          ok := EncodeTagged(stream, f, slot.v);
        } else {
          ok := true;
        }
    }
  }

  method EncodeTagged(stream: OStream, f: Field, v: Value) returns (ok: bool)
    requires stream.Valid() && Fits(f.ltype, v)
    modifies stream
    ensures stream.Valid()
    ensures Produced(ok, TaggedBytes(f, v), stream.sizing, stream.maxSize, old(stream.Now()), stream.Now())
    decreases f, 0
  {
    ok := stream.WriteVarint(8 * f.tag + WireType(f.ltype));
    if ok {
      ghost var middle := stream.Now();
      ok := EncodeValue(stream, f.ltype, v);
      ProducedThen(ok, Some(TagFor(f)), ValueBytes(f.ltype, v), stream.sizing, stream.maxSize, old(stream.Now()),
          middle, stream.Now());
    }
  }

  method EncodeArray(stream: OStream, f: Field, vs: seq<Value>) returns (ok: bool)
    requires stream.Valid() && f.htype.Repeated? && forall j :: 0 <= j < |vs| ==> Fits(f.ltype, vs[j])
    modifies stream
    ensures stream.Valid()
    ensures Produced(ok, ArrayBytes(f, vs), stream.sizing, stream.maxSize, old(stream.Now()), stream.Now())
    decreases f, |vs| + 1
  {
    if |vs| == 0 {
      return true;
    }
    if |vs| > f.htype.max {
      return false;
    }
    if Packable(f.ltype) {
      ok := stream.WriteVarint(8 * f.tag + WT_STRING);
      if ok {
        ghost var middle := stream.Now();
        ok := EncodePacked(stream, f.ltype, vs);
        ProducedThen(ok, Some(Tag(WT_STRING, f.tag)), Prefixed(PackedBytes(f.ltype, vs, 0)),
                     stream.sizing, stream.maxSize, old(stream.Now()), middle, stream.Now());
      }
    } else {
      ghost var done: Option<seq<Byte>> := Some([]);
      JoinAssociates(UnpackedBytes(f, vs, 0), None, None);
      for k := 0 to |vs|
        invariant stream.Valid()
        invariant Produced(true, done, stream.sizing, stream.maxSize, old(stream.Now()), stream.Now())
        invariant UnpackedBytes(f, vs, 0) == Join(done, UnpackedBytes(f, vs, k))
      {
        ghost var before := stream.Now();
        ghost var bytes := TaggedBytes(f, vs[k]);
        JoinAssociates(done, bytes, UnpackedBytes(f, vs, k + 1));
        ok := EncodeTagged(stream, f, vs[k]);
        ProducedThen(ok, done, bytes, stream.sizing, stream.maxSize, old(stream.Now()), before, stream.Now());
        done := Join(done, bytes);
        if !ok {
          return false;
        }
      }
      JoinAssociates(done, None, None);
      return true;
    }
  }

  /** The length of a packed array, found by counting or by multiplication, and then its elements. */
  method EncodePacked(stream: OStream, t: LType, vs: seq<Value>) returns (ok: bool)
    requires stream.Valid() && Packable(t) && forall j :: 0 <= j < |vs| ==> Fits(t, vs[j])
    modifies stream
    ensures stream.Valid()
    ensures Produced(ok, Prefixed(PackedBytes(t, vs, 0)), stream.sizing, stream.maxSize, old(stream.Now()),
        stream.Now())
  {
    var size;
    if t.LFixed32? {
      size := 4 * |vs|;
      FixedArraySize(t, vs, 0, 4);
    } else if t.LFixed64? {
      size := 8 * |vs|;
      FixedArraySize(t, vs, 0, 8);
    } else {
      var measure := new OStream(true, 0, []);
      ok := EncodeElements(measure, t, vs);
      if !ok {
        return false;
      }
      size := measure.written;
    }
    ghost var bytes := PackedBytes(t, vs, 0).value;
    assert size == |bytes|;
    ok := stream.WriteVarint(size);
    if !ok {
      return false;
    }
    ghost var middle := stream.Now();
    if stream.sizing {
      ok := stream.Count(size);
    } else {
      ok := EncodeElements(stream, t, vs);
    }
    ProducedThen(ok, Some(Varint(size)), Some(bytes), stream.sizing, stream.maxSize, old(stream.Now()), middle,
        stream.Now());
  }

  method EncodeElements(stream: OStream, t: LType, vs: seq<Value>) returns (ok: bool)
    requires stream.Valid() && Packable(t) && forall j :: 0 <= j < |vs| ==> Fits(t, vs[j])
    modifies stream
    ensures stream.Valid()
    ensures Produced(ok, PackedBytes(t, vs, 0), stream.sizing, stream.maxSize, old(stream.Now()), stream.Now())
  {
    ghost var done: Option<seq<Byte>> := Some([]);
    JoinAssociates(PackedBytes(t, vs, 0), None, None);
    for k := 0 to |vs|
      invariant stream.Valid()
      invariant Produced(true, done, stream.sizing, stream.maxSize, old(stream.Now()), stream.Now())
      invariant PackedBytes(t, vs, 0) == Join(done, PackedBytes(t, vs, k))
    {
      ghost var before := stream.Now();
      ghost var bytes := ScalarBytes(t, vs[k]);
      JoinAssociates(done, bytes, PackedBytes(t, vs, k + 1));
      ok := EncodeScalar(stream, t, vs[k]);
      ProducedThen(ok, done, bytes, stream.sizing, stream.maxSize, old(stream.Now()), before, stream.Now());
      done := Join(done, bytes);
      if !ok {
        return false;
      }
    }
    JoinAssociates(done, None, None);
    return true;
  }

  lemma {:induction false} FixedArraySize(t: LType, vs: seq<Value>, k: nat, size: nat)
    requires Packable(t) && k <= |vs| && forall j :: 0 <= j < |vs| ==> Fits(t, vs[j])
    requires (t.LFixed32? && size == 4) || (t.LFixed64? && size == 8)
    ensures PackedBytes(t, vs, k).Some? && |PackedBytes(t, vs, k).value| == size * (|vs| - k)
    decreases |vs| - k
  {
    if k < |vs| {
      FixedArraySize(t, vs, k + 1, size);
    }
  }

  /** The size that a buffer must have: exactly what encoding into it will write. */
  method GetEncodedSize(schema: Schema, slots: seq<Slot>) returns (ok: bool, size: nat)
    requires FitsMessage(schema, slots)
    ensures ok == MessageBytes(schema, slots, 0).Some?
    ensures ok ==> size == |MessageBytes(schema, slots, 0).value|
  {
    var stream := new OStream(true, 0, []);
    ok := EncodeMessage(stream, schema, slots);
    size := stream.written;
  }
}
