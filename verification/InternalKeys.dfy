/**
  Keys of the storage engine: the user-key order, internal keys and entries.

  A user comparator is any total order on byte strings.  There are countably many
  byte strings, so such an order always embeds in the reals; the model represents a
  user key by its place in that order.  `RankOrder` proves the embedding for the
  built-in bytewise comparator, so nothing below is special to a numeric key.
 */
module InternalKeys {
  import opened Basics

  type UserKey = real

  // Byte strings and the built-in comparator

  /** The bytewise order on strings: a proper prefix comes first. */
  predicate BytesLess(a: seq<Byte>, b: seq<Byte>) {
    if b == [] then false
    else if a == [] then true
    else if a[0] != b[0] then a[0] < b[0]
    else BytesLess(a[1..], b[1..])
  }

  /** Place of a byte string in the bytewise order, as a number in [0, 1). */
  function Rank(s: seq<Byte>): (r: UserKey)
    ensures 0.0 <= r < 1.0
  {
    if s == [] then 0.0 else ((s[0] as int + 1) as real + Rank(s[1..])) / 257.0
  }

  /** `Rank` turns the bytewise order into the order of the reals, both ways. */
  lemma {:induction false} RankOrder(a: seq<Byte>, b: seq<Byte>)
    ensures BytesLess(a, b) <==> Rank(a) < Rank(b)
    ensures a == b <==> Rank(a) == Rank(b)
  {
    if a != [] && b != [] {
      RankOrder(a[1..], b[1..]);
      assert a == [a[0]] + a[1..] && b == [b[0]] + b[1..];
    }
  }

  // Internal keys

  datatype ValueType = Deletion | Value

  const MAX_SEQUENCE_NUMBER := 0xff_ffff_ffff_ffff

  /** A user key with the sequence number and type of the write that made it. */
  datatype InternalKey = InternalKey(user: UserKey, sn: nat, kind: ValueType) {
    /** Sequence number and type packed into one number, the type in the low byte. */
    function Tag(): nat {
      256 * sn + if kind == Value then 1 else 0
    }
  }

  /** Increasing user key, then decreasing sequence number, then decreasing type. */
  predicate Before(a: InternalKey, b: InternalKey) {
    a.user < b.user || (a.user == b.user && a.Tag() > b.Tag())
  }

  datatype Entry = Entry(key: InternalKey, value: string)

  /** The bytes of a value as a string. */
  function Text(value: seq<Byte>): string {
    seq(|value|, (i: int) requires 0 <= i < |value| => value[i] as char)
  }

  /** Strictly increasing internal keys: the content of a memtable or a table. */
  predicate SortedEntries(es: seq<Entry>) {
    forall i, j :: 0 <= i < j < |es| ==> Before(es[i].key, es[j].key)
  }

  /** The key a read of `k` at sequence number `s` looks for. */
  function LookupKey(k: UserKey, s: nat): (r: InternalKey) {
    InternalKey(k, s, Value)
  }

  /** An entry a read of `k` at sequence number `s` may see. */
  predicate Matches(e: Entry, k: UserKey, s: nat) {
    e.key.user == k && e.key.sn <= s
  }

  /** `e` is the newest entry of `es` that a read of `k` at `s` may see. */
  ghost predicate IsNewest(e: Entry, es: seq<Entry>, k: UserKey, s: nat) {
    && e in es && Matches(e, k, s)
    && forall d :: d in es && Matches(d, k, s) ==> d.key.sn <= e.key.sn
  }

  /** What a read reports to the client. */
  datatype ReadResult = NotFound | Found(value: string)

  function Report(o: Option<Entry>): (r: ReadResult) {
    if o.Some? && o.value.key.kind == Value then Found(o.value.value) else NotFound
  }
}
