/** The bytes of an internal key: the user key, and sequence number and type packed into eight bytes. */
module KeyCodec {
  import opened Basics
  import opened Coding
  import opened InternalKeys

  function PackKey(user: seq<Byte>, tag: nat): (r: seq<Byte>)
    ensures |r| == |user| + 8
  {
    user + EncodeFixed64(tag % TwoTo64)
  }

  function UserPart(b: seq<Byte>): (r: seq<Byte>)
    requires |b| >= 8
  {
    b[..|b| - 8]
  }

  function TagPart(b: seq<Byte>): (r: nat)
    requires |b| >= 8
  {
    DecodeFixed64(b[|b| - 8..])
  }

  lemma Unpacks(user: seq<Byte>, tag: nat)
    requires tag < TwoTo64
    ensures UserPart(PackKey(user, tag)) == user && TagPart(PackKey(user, tag)) == tag
  {
    hide EncodeFixed64, DecodeFixed64;
    var b := PackKey(user, tag);
    assert b[|b| - 8..] == EncodeFixed64(tag);
    Fixed64RoundTrip(tag);
  }

  /** Where a comparator places a byte string in its order, and the byte string at a place. */
  datatype Naming = Naming(place: seq<Byte> -> UserKey, name: UserKey -> seq<Byte>)

  function EncodeKey(names: Naming, k: InternalKey): (r: seq<Byte>)
    ensures |r| == |names.name(k.user)| + 8
  {
    PackKey(names.name(k.user), k.Tag())
  }

  /** A key that is too short has no user key and no number. */
  function DecodeKey(names: Naming, b: seq<Byte>): (k: InternalKey) {
    if |b| < 8 then InternalKey(names.place([]), 0, Deletion)
    else InternalKey(names.place(UserPart(b)), TagPart(b) / 256, if TagPart(b) % 256 == 0 then Deletion else Value)
  }

  predicate Nameable(names: Naming, k: InternalKey) {
    k.sn <= MAX_SEQUENCE_NUMBER && names.place(names.name(k.user)) == k.user
  }

  lemma KeyRoundTrip(names: Naming, k: InternalKey)
    requires Nameable(names, k)
    ensures DecodeKey(names, EncodeKey(names, k)) == k
  {
    Unpacks(names.name(k.user), k.Tag());
    hide PackKey, UserPart, TagPart;
  }
}
