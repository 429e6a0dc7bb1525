/**
  Write batches as bytes: a sequence number, a count and tagged records.  Batches go into the
  write-ahead log one record each, and recovery after a crash puts exactly the complete ones back.
 */
module WriteBatches {
  import opened Basics
  import opened Coding
  import opened InternalKeys
  import LogFormat
  import LogReader
  import LogRoundTrip
  import GroupCommit

  const HEADER_SIZE := 12

  datatype Update = Put(key: seq<Byte>, value: seq<Byte>) | Delete(key: seq<Byte>)

  // ----- the bytes -----

  function Low32(n: nat): (r: Word) {
    n % TwoTo32
  }

  function Low64(n: nat): (r: nat)
    ensures r < TwoTo64
  {
    n % TwoTo64
  }

  function UpdateBytes(u: Update): (r: seq<Byte>) {
    match u
    case Put(key, value) => [1] + (Slice(key) + Slice(value))
    case Delete(key) => [0] + Slice(key)
  }

  function UpdatesBytes(us: seq<Update>): (r: seq<Byte>) {
    if us == [] then [] else UpdatesBytes(us[..|us| - 1]) + UpdateBytes(us[|us| - 1])
  }

  function BatchBytes(sequence: nat, us: seq<Update>): (r: seq<Byte>)
    ensures |r| >= HEADER_SIZE
  {
    EncodeFixed64(Low64(sequence)) + EncodeFixed32(Low32(|us|)) + UpdatesBytes(us)
  }

  predicate Fits(u: Update) {
    |u.key| < TwoTo32 && (u.Put? ==> |u.value| < TwoTo32)
  }

  /** The updates up to the end of the input or the first malformed one, and whether there was none. */
  function ReadUpdates(input: seq<Byte>): (r: (seq<Update>, bool))
    decreases |input|
  {
    if input == [] then ([], true)
    else
      var u := ReadUpdate(input);
      if u.Fail? then ([], false)
      else
        var more := ReadUpdates(u.rest);
        ([u.value] + more.0, more.1)
  }

  function ReadUpdate(input: seq<Byte>): (r: Read<Update>)
    requires input != []
    ensures r.Got? ==> |r.rest| < |input|
  {
    if input[0] == 1 then
      var key := GetSlice(input[1..]);
      if key.Fail? then Fail
      else
        var value := GetSlice(key.rest);
        if value.Fail? then Fail else Got(Put(key.value, value.value), value.rest)
    else if input[0] == 0 then
      var key := GetSlice(input[1..]);
      if key.Fail? then Fail else Got(Delete(key.value), key.rest)
    else Fail
  }

  lemma UpdateReads(u: Update, rest: seq<Byte>)
    requires Fits(u)
    ensures UpdateBytes(u) + rest != [] && ReadUpdate(UpdateBytes(u) + rest) == Got(u, rest)
  {
    hide GetSlice, Slice;
    var all := UpdateBytes(u) + rest;
    match u
    case Put(key, value) =>
      assert all[1..] == Slice(key) + (Slice(value) + rest);
      SliceReads(key, Slice(value) + rest);
      SliceReads(value, rest);
    case Delete(key) =>
      assert all[1..] == Slice(key) + rest;
      SliceReads(key, rest);
  }

  lemma {:induction false} UpdatesConcat(a: seq<Update>, b: seq<Update>)
    ensures UpdatesBytes(a + b) == UpdatesBytes(a) + UpdatesBytes(b)
    decreases |b|
  {
    hide UpdateBytes;
    if b == [] {
      assert a + b == a && UpdatesBytes(a) + [] == UpdatesBytes(a);
    } else {
      var n := |b| - 1;
      UpdatesConcat(a, b[..n]);
      assert (a + b)[..|a| + n] == a + b[..n] && (a + b)[|a| + n] == b[n];
    }
  }

  lemma {:induction false} UpdatesRoundTrip(us: seq<Update>)
    requires forall u :: u in us ==> Fits(u)
    ensures ReadUpdates(UpdatesBytes(us)) == (us, true)
    decreases |us|
  {
    hide UpdateBytes, ReadUpdate, Fits;
    if us != [] {
      var rest := UpdatesBytes(us[1..]);
      UpdatesConcat([us[0]], us[1..]);
      assert [us[0]] + us[1..] == us;
      assert UpdatesBytes([us[0]]) == UpdatesBytes([]) + UpdateBytes(us[0]) == UpdateBytes(us[0]);
      assert forall u :: u in us[1..] ==> u in us;
      UpdateReads(us[0], rest);
      UpdatesRoundTrip(us[1..]);
    }
  }

  // ----- batches -----

  function Sequence(rep: seq<Byte>): (r: nat)
    requires |rep| >= HEADER_SIZE
  {
    DecodeFixed64(rep[..8])
  }

  function Count(rep: seq<Byte>): (r: nat)
    requires |rep| >= HEADER_SIZE
  {
    DecodeFixed32(rep[8..12])
  }

  /** What applying a batch does: its updates up to the first malformed one, and whether all was well. */
  function Iterated(rep: seq<Byte>): (r: (seq<Update>, bool))
    requires |rep| >= HEADER_SIZE
  {
    var read := ReadUpdates(rep[HEADER_SIZE..]);
    (read.0, read.1 && Low32(|read.0|) == Count(rep))
  }

  lemma BatchParts(sequence: nat, us: seq<Update>)
    ensures var rep := BatchBytes(sequence, us);
      && Sequence(rep) == Low64(sequence) && Count(rep) == Low32(|us|) && rep[HEADER_SIZE..] == UpdatesBytes(us)
  {
    hide EncodeFixed64, EncodeFixed32, DecodeFixed64, DecodeFixed32, UpdatesBytes, Low32, Low64;
    var a, b, rep := EncodeFixed64(Low64(sequence)), EncodeFixed32(Low32(|us|)), BatchBytes(sequence, us);
    assert rep[..8] == a && rep[8..12] == b && rep[HEADER_SIZE..] == UpdatesBytes(us);
    Fixed64RoundTrip(Low64(sequence));
    Fixed32RoundTrip(Low32(|us|));
  }

  /** A batch is read back as what was put into it. */
  lemma BatchRoundTrip(sequence: nat, us: seq<Update>)
    requires forall u :: u in us ==> Fits(u)
    ensures Iterated(BatchBytes(sequence, us)) == (us, true) && Sequence(BatchBytes(sequence, us)) == Low64(sequence)
  {
    BatchParts(sequence, us);
    UpdatesRoundTrip(us);
    hide BatchBytes, ReadUpdates, Count, Sequence, Low32, Low64;
  }

  lemma CountsAdd(a: nat, n: nat, b: nat)
    requires Low32(n) == Low32(b)
    ensures Low32(Low32(a) + n) == Low32(a + b)
  {
  }

  /** Appending updates and counting them gives the batch of all updates. */
  lemma MoreUpdates(sequence: nat, us: seq<Update>, vs: seq<Update>, count: Word)
    requires count == Low32(|us + vs|)
    ensures var rep := BatchBytes(sequence, us);
      rep[..8] + EncodeFixed32(count) + rep[HEADER_SIZE..] + UpdatesBytes(vs) == BatchBytes(sequence, us + vs)
  {
    hide EncodeFixed64, EncodeFixed32, UpdatesBytes, Low32, Low64;
    UpdatesConcat(us, vs);
    var a, b, c := EncodeFixed64(Low64(sequence)), EncodeFixed32(count), EncodeFixed32(Low32(|us|));
    Spliced(a, c, UpdatesBytes(us), b, UpdatesBytes(vs));
  }

  lemma Spliced(a: seq<Byte>, c: seq<Byte>, x: seq<Byte>, b: seq<Byte>, y: seq<Byte>)
    requires |a| == 8 && |c| == 4
    ensures (a + c + x)[..8] + b + (a + c + x)[12..] + y == a + b + (x + y)
  {
    assert (a + c + x)[..8] == a && (a + c + x)[12..] == x;
  }

  class WriteBatch {
    var rep: seq<Byte>
    ghost var updates: seq<Update>
    ghost var sequence: nat

    ghost predicate Valid()
      reads this
    {
      rep == BatchBytes(sequence, updates)
    }

    constructor ()
      ensures Valid() && updates == [] && sequence == 0
    {
      rep := Zeros(HEADER_SIZE);
      updates, sequence := [], 0;
      new;
      EmptyBatch();
    }

    method SetCount(n: nat)
      requires |rep| >= HEADER_SIZE
      modifies this`rep
      ensures rep == old(rep)[..8] + EncodeFixed32(Low32(n)) + old(rep)[HEADER_SIZE..]
    {
      rep := rep[..8] + EncodeFixed32(Low32(n)) + rep[HEADER_SIZE..];
    }

    method SetSequence(n: nat)
      requires Valid()
      modifies this
      ensures Valid() && sequence == n && updates == old(updates)
    {
      hide EncodeFixed64, EncodeFixed32, UpdatesBytes, Low32, Low64;
      rep := EncodeFixed64(Low64(n)) + rep[8..];
      sequence := n;
    }

    method Add(u: Update)
      requires Valid()
      modifies this
      ensures Valid() && updates == old(updates) + [u] && sequence == old(sequence)
    {
      hide BatchBytes, EncodeFixed32, UpdatesBytes, UpdateBytes, Sequence, Count, Low32, Low64;
      OneUpdate(u);
      BatchParts(sequence, updates);
      CountsAdd(|updates|, 1, 1);
      MoreUpdates(sequence, updates, [u], Low32(|updates| + 1));
      SetCount(Count(rep) + 1);
      rep := rep + UpdateBytes(u);
      updates := updates + [u];
    }

    /** Append the updates of another batch; its sequence number is not looked at. */
    method Append(src: WriteBatch)
      requires Valid() && src.Valid() && src != this
      modifies this
      ensures Valid() && updates == old(updates) + src.updates && sequence == old(sequence)
    {
      hide BatchBytes, EncodeFixed32, UpdatesBytes, Sequence, Count, Low32, Low64;
      BatchParts(sequence, updates);
      BatchParts(src.sequence, src.updates);
      LowOfLow(|src.updates|);
      CountsAdd(|updates|, Low32(|src.updates|), |src.updates|);
      MoreUpdates(sequence, updates, src.updates, Low32(|updates| + |src.updates|));
      SetCount(Count(rep) + Count(src.rep));
      rep := rep + src.rep[HEADER_SIZE..];
      updates := updates + src.updates;
    }
  }

  lemma OneUpdate(u: Update)
    ensures UpdatesBytes([u]) == UpdateBytes(u)
  {
    assert UpdatesBytes([u]) == UpdatesBytes([]) + UpdateBytes(u);
  }

  lemma LowOfLow(n: nat)
    ensures Low32(Low32(n)) == Low32(n)
  {
  }

  lemma EmptyBatch()
    ensures Zeros(HEADER_SIZE) == BatchBytes(0, [])
  {
    assert BatchBytes(0, [])[..] == Zeros(HEADER_SIZE);
  }

  /** Apply a batch to a memtable under consecutive sequence numbers. */
  method InsertInto(rep: seq<Byte>, mem: seq<(nat, Update)>) returns (mem': seq<(nat, Update)>, ok: bool)
    requires |rep| >= HEADER_SIZE
    ensures mem' == mem + Numbered(Sequence(rep), Iterated(rep).0) && ok == Iterated(rep).1
  {
    hide ReadUpdate, Numbered, Sequence, Count, Low32;
    var input, found, sequence := rep[HEADER_SIZE..], 0, Sequence(rep);
    mem' := mem;
    ghost var done: seq<Update> := [];
    ghost var all := ReadUpdates(input);
    while input != []
      invariant found == |done| && mem' == mem + Numbered(sequence, done)
      invariant all.0 == done + ReadUpdates(input).0 && all.1 == ReadUpdates(input).1
      decreases |input|
    {
      var u := ReadUpdate(input);
      if u.Fail? {
        assert all.0 == done;
        return mem', false;
      }
      ghost var more := ReadUpdates(u.rest).0;
      assert done + ([u.value] + more) == done + [u.value] + more;
      OneMoreNumbered(mem, sequence, done, u.value);
      mem' := mem' + [(sequence + found, u.value)];
      done := done + [u.value];
      input, found := u.rest, found + 1;
    }
    assert all.0 == done;
    return mem', Low32(found) == Count(rep);
  }

  lemma OneMoreNumbered(mem: seq<(nat, Update)>, base: nat, us: seq<Update>, u: Update)
    ensures mem + Numbered(base, us + [u]) == mem + Numbered(base, us) + [(base + |us|, u)]
  {
    assert Numbered(base, us + [u]) == Numbered(base, us) + [(base + |us|, u)];
  }

  function Numbered(base: nat, us: seq<Update>): (r: seq<(nat, Update)>)
    ensures |r| == |us| && forall k :: 0 <= k < |us| ==> r[k] == (base + k, us[k])
  {
    seq(|us|, (k: int) requires 0 <= k < |us| => (base + k, us[k]))
  }

  // ----- recovery of the log -----

  /** A batch as it was logged: the number of its first update, and its updates. */
  datatype Logged = Logged(base: nat, updates: seq<Update>)

  ghost predicate LoggedOk(g: Logged) {
    g.base < TwoTo64 && forall u :: u in g.updates ==> Fits(u)
  }

  function LogRecords(gs: seq<Logged>): (r: seq<seq<Byte>>)
    ensures |r| == |gs| && forall i :: 0 <= i < |gs| ==> r[i] == BatchBytes(gs[i].base, gs[i].updates)
  {
    seq(|gs|, (i: int) requires 0 <= i < |gs| => BatchBytes(gs[i].base, gs[i].updates))
  }

  /** What a record contributes to the memtable; one that is too short is skipped. */
  function Replayed(record: seq<Byte>): (r: seq<(nat, Update)>) {
    if |record| < HEADER_SIZE then [] else Numbered(Sequence(record), Iterated(record).0)
  }

  function ReplayAll(records: seq<seq<Byte>>): (r: seq<(nat, Update)>) {
    if records == [] then [] else ReplayAll(records[..|records| - 1]) + Replayed(records[|records| - 1])
  }

  function EntriesOf(gs: seq<Logged>): (r: seq<(nat, Update)>) {
    if gs == [] then [] else EntriesOf(gs[..|gs| - 1]) + Numbered(gs[|gs| - 1].base, gs[|gs| - 1].updates)
  }

  /** Put the batches of a log back into a memtable; errors are passed over, as they are unless checks are paranoid. */
  method RecoverLogFile(step: LogFormat.CrcStep, file: seq<Byte>) returns (mem: seq<(nat, Update)>)
    ensures mem == ReplayAll(LogReader.AllRecords(step, true, file, 0).0)
  {
    hide LogReader.AllRecords, Sequence, Iterated, Numbered;
    var records, _ := LogReader.ReadLog(step, true, file);
    mem := [];
    for i := 0 to |records|
      invariant mem == ReplayAll(records[..i])
    {
      assert records[..i + 1][..i] == records[..i];
      if |records[i]| >= HEADER_SIZE {
        var more, ok := InsertInto(records[i], mem);
        mem := more;
      }
    }
    assert records[..|records|] == records;
  }

  lemma {:induction false} LogReplays(gs: seq<Logged>)
    requires forall g :: g in gs ==> LoggedOk(g)
    ensures ReplayAll(LogRecords(gs)) == EntriesOf(gs)
    decreases |gs|
  {
    hide BatchBytes, Replayed, Numbered, LoggedOk;
    if gs != [] {
      var n := |gs| - 1;
      assert gs[n] in gs && LoggedOk(gs[n]);
      assert forall g :: g in gs[..n] ==> g in gs;
      LogReplays(gs[..n]);
      assert LogRecords(gs)[..n] == LogRecords(gs[..n]);
      BatchReplays(gs[n]);
    }
  }

  lemma BatchReplays(g: Logged)
    requires LoggedOk(g)
    ensures Replayed(BatchBytes(g.base, g.updates)) == Numbered(g.base, g.updates)
  {
    hide Iterated, Sequence, Numbered, UpdatesBytes, EncodeFixed64, EncodeFixed32;
    BatchRoundTrip(g.base, g.updates);
    assert Low64(g.base) == g.base;
  }

  /** Whatever prefix of the log a crash leaves, recovery yields the complete batches under their numbers. */
  lemma CrashReplay(step: LogFormat.CrcStep, gs: seq<Logged>, cut: nat)
    requires (forall g :: g in gs ==> LoggedOk(g)) && cut <= |LogFormat.LogFrom(step, 0, LogRecords(gs))|
    ensures var log := LogFormat.LogFrom(step, 0, LogRecords(gs));
      var n := LogRoundTrip.Complete(step, 0, LogRecords(gs), cut);
      ReplayAll(LogReader.AllRecords(step, true, log[..cut], 0).0) == EntriesOf(gs[..n])
  {
    hide LogFormat.LogFrom, LogRoundTrip.Complete, LogReader.AllRecords, LogRecords, ReplayAll, LoggedOk;
    var n := LogRoundTrip.Complete(step, 0, LogRecords(gs), cut);
    LogRoundTrip.CrashSafe(step, true, LogRecords(gs), cut);
    assert LogRecords(gs)[..n] == LogRecords(gs[..n]);
    assert forall g :: g in gs[..n] ==> g in gs;
    LogReplays(gs[..n]);
  }

  // ----- group commit -----

  /** An update as group commit sees it. */
  function OpOf(u: Update): GroupCommit.Op {
    match u
    case Put(key, value) => GroupCommit.Op(Value, Rank(key), Text(value))
    case Delete(key) => GroupCommit.Op(Deletion, Rank(key), "")
  }

  function OpsOf(us: seq<Update>): (r: seq<GroupCommit.Op>)
    ensures |r| == |us| && forall k :: 0 <= k < |us| ==> r[k] == OpOf(us[k])
  {
    seq(|us|, (k: int) requires 0 <= k < |us| => OpOf(us[k]))
  }

  /** The log of a state as batches. */
  ghost predicate LogOf(log: seq<GroupCommit.Record>, gs: seq<Logged>) {
    && |gs| == |log| && (forall i :: 0 <= i < |gs| ==> LoggedOk(gs[i]))
    && forall i :: 0 <= i < |log| ==> log[i] == GroupCommit.Record(gs[i].base, OpsOf(gs[i].updates))
  }

  /** Operation `op` was recovered under number `sn`. */
  ghost predicate Recovered(mem: seq<(nat, Update)>, sn: nat, op: GroupCommit.Op) {
    exists u :: (sn, u) in mem && OpOf(u) == op
  }

  lemma {:induction false} InEntries(gs: seq<Logged>, i: nat, k: nat)
    requires i < |gs| && k < |gs[i].updates|
    ensures (gs[i].base + k, gs[i].updates[k]) in EntriesOf(gs)
    decreases |gs|
  {
    var n := |gs| - 1;
    if i == n {
      assert Numbered(gs[n].base, gs[n].updates)[k] == (gs[i].base + k, gs[i].updates[k]);
    } else {
      InEntries(gs[..n], i, k);
    }
  }

  /**
    If a crash keeps what was synced, every update of a synchronous write that was reported as done
    is recovered under its sequence number.
   */
  lemma SyncedSurvives(s: GroupCommit.State, step: LogFormat.CrcStep, gs: seq<Logged>, cut: nat, i: nat, k: nat)
    requires GroupCommit.Inv(s) && LogOf(s.log, gs) && cut <= |LogFormat.LogFrom(step, 0, LogRecords(gs))|
    requires s.synced <= |gs| && |LogFormat.LogFrom(step, 0, LogRecords(gs[..s.synced]))| <= cut
    requires i < |s.writers| && GroupCommit.Succeeded(s.writers[i]) && s.writers[i].sync
    requires k < |GroupCommit.Ops(s.writers[i])|
    ensures s.writers[i].first.Some?
    ensures var file := LogFormat.LogFrom(step, 0, LogRecords(gs))[..cut];
      var mem := ReplayAll(LogReader.AllRecords(step, true, file, 0).0);
      Recovered(mem, s.writers[i].first.value + k, GroupCommit.Ops(s.writers[i])[k])
  {
    hide *;
    GroupCommit.SyncedIsDurable(s, i);
    var w, n := s.writers[i], LogRoundTrip.Complete(step, 0, LogRecords(gs), cut);
    SyncedIsComplete(step, gs, cut, s.synced);
    LogIsOk(s.log, gs, w.record);
    CrashReplay(step, gs, cut);
    var r, j := w.record, w.first.value - s.log[w.record].base + k;
    LoggedAt(s.log[r], w.first.value, GroupCommit.Ops(w), k);
    InEntries(gs[..n], r, j);
    assert gs[..n][r] == gs[r];
    IsRecovered(EntriesOf(gs[..n]), w.first.value + k, gs[r].updates[j]);
  }

  lemma LogIsOk(log: seq<GroupCommit.Record>, gs: seq<Logged>, r: nat)
    requires LogOf(log, gs) && r < |log|
    ensures |gs| == |log| && log[r] == GroupCommit.Record(gs[r].base, OpsOf(gs[r].updates))
    ensures forall g :: g in gs ==> LoggedOk(g)
  {
  }

  lemma IsRecovered(mem: seq<(nat, Update)>, sn: nat, u: Update)
    requires (sn, u) in mem
    ensures Recovered(mem, sn, OpOf(u))
  {
  }

  lemma LoggedAt(r: GroupCommit.Record, first: nat, ops: seq<GroupCommit.Op>, k: nat)
    requires GroupCommit.Within(r, first, ops) && k < |ops|
    ensures 0 <= first - r.base + k < |r.ops| && r.ops[first - r.base + k] == ops[k]
  {
    assert r.ops[first - r.base..first - r.base + |ops|][k] == ops[k];
  }

  lemma SyncedIsComplete(step: LogFormat.CrcStep, gs: seq<Logged>, cut: nat, synced: nat)
    requires synced <= |gs| && |LogFormat.LogFrom(step, 0, LogRecords(gs[..synced]))| <= cut
    ensures synced <= LogRoundTrip.Complete(step, 0, LogRecords(gs), cut)
  {
    hide LogFormat.LogFrom, LogRoundTrip.Complete;
    if synced > 0 {
      assert LogRecords(gs)[..synced] == LogRecords(gs[..synced]);
      LogRoundTrip.CompleteMeans(step, 0, LogRecords(gs), cut, synced - 1);
    }
  }
}
