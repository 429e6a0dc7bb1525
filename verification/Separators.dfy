/**
  Shortened keys for index blocks: a short string between two keys, or after one, in bytewise
  order, and the same for internal keys.
 */
module Separators {
  import opened Basics
  import opened InternalKeys

  /** Strings that agree up to `i` and differ there are ordered by the bytes at `i`. */
  lemma {:induction false} DifferAt(a: seq<Byte>, b: seq<Byte>, i: nat)
    requires i < |a| && i < |b| && a[..i] == b[..i] && a[i] < b[i]
    ensures BytesLess(a, b)
    decreases i
  {
    if i > 0 {
      assert a[0] == a[..i][0] == b[..i][0] == b[0];
      assert a[1..][..i - 1] == a[..i][1..] == b[..i][1..] == b[1..][..i - 1];
      DifferAt(a[1..], b[1..], i - 1);
    }
  }

  /** The strings first differ at `i`, by more than one. */
  ghost predicate LeavesRoom(start: seq<Byte>, limit: seq<Byte>, i: int) {
    0 <= i < |start| && i < |limit| && start[..i] == limit[..i] && limit[i] > 1 + (start[i] as int)
  }

  lemma OnlyThere(start: seq<Byte>, limit: seq<Byte>, diff: nat)
    requires diff <= |start| && diff <= |limit| && start[..diff] == limit[..diff]
    requires diff == |start| || diff == |limit| || start[diff] != limit[diff]
    ensures forall i :: LeavesRoom(start, limit, i) ==> i == diff
  {
    assert forall i :: 0 <= i < diff ==> start[..diff][i] == limit[..diff][i];
    forall i | LeavesRoom(start, limit, i) ensures i <= diff {
      assert forall j :: 0 <= j < i ==> start[..i][j] == limit[..i][j];
    }
  }

  /** The separator of two strings: the first itself, or a string that is no longer and strictly between them. */
  method FindShortestSeparator(start: seq<Byte>, limit: seq<Byte>) returns (r: seq<Byte>)
    ensures |r| <= |start|
    ensures r == start || (BytesLess(start, r) && BytesLess(r, limit))
    ensures r != start <==> exists i :: LeavesRoom(start, limit, i)
  {
    var minLength := if |start| < |limit| then |start| else |limit|;
    var diff := 0;
    while diff < minLength && start[diff] == limit[diff]
      invariant 0 <= diff <= minLength && start[..diff] == limit[..diff]
    {
      diff := diff + 1;
    }
    r := start;
    OnlyThere(start, limit, diff);
    if diff < minLength {
      var byte: int := start[diff];
      if byte < 0xff && byte + 1 < limit[diff] {
        r := start[..diff] + [byte + 1];
        assert r[..diff] == start[..diff];
        assert LeavesRoom(start, limit, diff);
        DifferAt(start, r, diff);
        DifferAt(r, limit, diff);
      }
    }
  }

  /** A string not before `key`: itself, or one that is no longer and strictly after it. */
  method FindShortSuccessor(key: seq<Byte>) returns (r: seq<Byte>)
    ensures |r| <= |key|
    ensures r == key || BytesLess(key, r)
    ensures r == key <==> forall b :: b in key ==> b == 0xff
  {
    for i := 0 to |key|
      invariant forall j :: 0 <= j < i ==> key[j] == 0xff
    {
      var byte: int := key[i];
      if byte != 0xff {
        r := key[..i] + [byte + 1];
        assert r[..i] == key[..i];
        DifferAt(key, r, i);
        assert key[i] in key && r[i] != key[i];
        return;
      }
    }
    r := key;
  }

  /** An internal key whose user key is a byte string. */
  datatype StoredKey = StoredKey(user: seq<Byte>, sn: nat, kind: ValueType)

  function Ranked(k: StoredKey): InternalKey {
    InternalKey(Rank(k.user), k.sn, k.kind)
  }

  /** `sep` separates `a` from `b`: it is `a`, or its user key lies strictly between theirs. */
  predicate Separates(a: InternalKey, sep: InternalKey, b: InternalKey) {
    sep == a || (a.user < sep.user < b.user)
  }

  predicate Succeeds(a: InternalKey, sep: InternalKey) {
    sep == a || a.user < sep.user
  }

  /** The key is replaced only if its user key gets both shorter and greater. */
  method InternalSeparator(start: StoredKey, limit: StoredKey) returns (r: StoredKey)
    ensures Separates(Ranked(start), Ranked(r), Ranked(limit))
    ensures r == start || r.sn == MAX_SEQUENCE_NUMBER
  {
    var tmp := FindShortestSeparator(start.user, limit.user);
    RankOrder(start.user, tmp);
    RankOrder(tmp, limit.user);
    r := start;
    if |tmp| < |start.user| && BytesLess(start.user, tmp) {
      r := StoredKey(tmp, MAX_SEQUENCE_NUMBER, Value);
    }
  }

  method InternalSuccessor(key: StoredKey) returns (r: StoredKey)
    ensures Succeeds(Ranked(key), Ranked(r))
    ensures r == key || r.sn == MAX_SEQUENCE_NUMBER
  {
    var tmp := FindShortSuccessor(key.user);
    RankOrder(key.user, tmp);
    r := key;
    if |tmp| < |key.user| && BytesLess(key.user, tmp) {
      r := StoredKey(tmp, MAX_SEQUENCE_NUMBER, Value);
    }
  }
}
