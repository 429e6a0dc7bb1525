/**
  Group commit: writers queue up, the one at the front commits for a prefix of the queue, and
  releases the lock while it logs, syncs and inserts.  Every critical section and every call to
  the log file is one step, and the steps of all writers interleave freely.
 */
module GroupCommit {
  import opened Basics
  import opened InternalKeys

  datatype Op = Op(kind: ValueType, user: UserKey, value: string)

  datatype Status = OK | Failed

  /** How far the leader of a group has got without the lock. */
  datatype Stage = Built | Logged(status: Status) | Synced(status: Status) | Inserted

  /**
    A writer in the queue sleeps, is about to look at the queue, or leads a group of
    `group` writers; outside it, its result is set and it will return, or has returned.
   */
  datatype Phase =
    | Asleep
    | Awake
    | Leading(group: nat, stage: Stage)
    | Notified(status: Status)
    | Returned(status: Status)

  /**
    `first` and `record` tell which sequence numbers and which log record the batch went to.  A writer
    without a batch asks for a new memtable; `switched` says that one was begun on its behalf.
   */
  datatype Writer = Writer(batch: Option<seq<Op>>, size: nat, sync: bool, phase: Phase, first: Option<nat>, record: nat,
                           switched: bool)

  datatype Record = Record(base: nat, ops: seq<Op>)

  /**
    The writers in order of arrival; those from `head` on are in the queue.  The first `sealed` of the
    entries inserted so far are in memtables that have become immutable.
   */
  datatype State = State(writers: seq<Writer>, head: nat, lastSequence: nat,
                         log: seq<Record>, synced: nat, mem: seq<(nat, Op)>, broken: bool, sealed: nat)

  const MAX_GROUP := 0x10_0000
  const SMALL := 0x2_0000

  function Ops(w: Writer): seq<Op> {
    if w.batch.Some? then w.batch.value else []
  }

  // ----- which writers form a group -----

  /** A small first batch takes at most 128 KB along; otherwise the group is limited to 1 MB. */
  function SizeLimit(first: nat): nat {
    if first <= SMALL then first + SMALL else MAX_GROUP
  }

  /** A writer may join a group of total size `size` led by `first`. */
  predicate MayJoin(first: Writer, w: Writer, size: nat) {
    (w.sync ==> first.sync) && (w.batch.Some? ==> size + w.size <= SizeLimit(first.size))
  }

  /** How many of the writers from `i` on join the group. */
  function Joining(ws: seq<Writer>, i: nat, size: nat): (n: nat)
    requires 1 <= i <= |ws|
    ensures n <= |ws| - i
    ensures forall j :: i <= j < i + n ==> (ws[j].sync ==> ws[0].sync)
    decreases |ws| - i
  {
    if i == |ws| || !MayJoin(ws[0], ws[i], size) then 0
    else 1 + Joining(ws, i + 1, if ws[i].batch.Some? then size + ws[i].size else size)
  }

  function GroupLength(ws: seq<Writer>): (n: nat)
    requires |ws| >= 1
    ensures 1 <= n <= |ws|
    ensures forall j :: 0 <= j < n ==> (ws[j].sync ==> ws[0].sync)
  {
    1 + Joining(ws, 1, ws[0].size)
  }

  function GroupOps(ws: seq<Writer>): (r: seq<Op>) {
    if ws == [] then [] else GroupOps(ws[..|ws| - 1]) + Ops(ws[|ws| - 1])
  }

  /** The total size of the batches of some writers. */
  function GroupSize(ws: seq<Writer>): (n: nat) {
    if ws == [] then 0
    else GroupSize(ws[..|ws| - 1]) + if ws[|ws| - 1].batch.Some? then ws[|ws| - 1].size else 0
  }

  /** Every writer up to the `n`-th may join those before it, and the next one may not. */
  ghost predicate IsGroup(ws: seq<Writer>, n: nat) {
    && 1 <= n <= |ws| && (forall j :: 1 <= j < n ==> MayJoin(ws[0], ws[j], GroupSize(ws[..j])))
    && (n < |ws| ==> !MayJoin(ws[0], ws[n], GroupSize(ws[..n])))
  }

  lemma {:induction false} JoiningIsGroup(ws: seq<Writer>, i: nat)
    requires 1 <= i <= |ws| && forall j :: 1 <= j < i ==> MayJoin(ws[0], ws[j], GroupSize(ws[..j]))
    ensures IsGroup(ws, i + Joining(ws, i, GroupSize(ws[..i])))
    decreases |ws| - i
  {
    hide MayJoin, GroupSize;
    if i < |ws| && MayJoin(ws[0], ws[i], GroupSize(ws[..i])) {
      SizeMore(ws, i);
      JoiningIsGroup(ws, i + 1);
    }
  }

  lemma SizeMore(ws: seq<Writer>, i: nat)
    requires i < |ws|
    ensures GroupSize(ws[..i + 1]) == GroupSize(ws[..i]) + if ws[i].batch.Some? then ws[i].size else 0
  {
    assert ws[..i + 1][..i] == ws[..i];
  }

  /** The group is the longest prefix of the queue of which each writer may join those before it. */
  lemma GroupIsLongest(ws: seq<Writer>)
    requires |ws| >= 1 && ws[0].batch.Some?
    ensures forall n :: IsGroup(ws, n) <==> n == GroupLength(ws)
  {
    hide MayJoin;
    assert ws[..1][..0] == [] && GroupSize(ws[..1]) == GroupSize([]) + ws[0].size;
    JoiningIsGroup(ws, 1);
    var m := GroupLength(ws);
    forall n | IsGroup(ws, n) ensures n == m {
    }
  }

  /** Collect the batches of the writers that join the first one. */
  method BuildBatchGroup(ws: seq<Writer>) returns (result: seq<Op>, last: nat)
    requires |ws| >= 1 && ws[0].batch.Some?
    ensures last == GroupLength(ws) - 1
    ensures forall j :: 1 <= j <= last ==> (ws[j].sync ==> ws[0].sync)
    ensures var limit := if ws[0].size <= 128 * 1024 then ws[0].size + 128 * 1024 else 1024 * 1024;
      && (forall j :: 1 <= j <= last && ws[j].batch.Some? ==> GroupSize(ws[..j + 1]) <= limit)
      && (last + 1 < |ws| ==>
        || (ws[last + 1].sync && !ws[0].sync)
        || (ws[last + 1].batch.Some? && GroupSize(ws[..last + 2]) > limit))
    ensures result == GroupOps(ws[..last + 1])
  {
    hide GroupSize, GroupLength, GroupOps;
    var first := ws[0];
    result := first.batch.value;
    var size: nat := first.size;
    var maxSize := MAX_GROUP;
    if size <= SMALL {
      maxSize := size + SMALL;
    }
    last := 0;
    var i := 1;
    FirstOfGroup(ws);
    while i < |ws|
      invariant 1 <= i <= |ws| && last == i - 1 && AllJoin(ws, i)
      invariant size == GroupSize(ws[..i]) && result == GroupOps(ws[..i])
    {
      var w := ws[i];
      if w.sync && !first.sync {
        break;
      }
      SizeMore(ws, i);
      OpsMore(ws, i);
      if w.batch.Some? {
        if size + w.size > maxSize {
          break;
        }
        size := size + w.size;
      }
      result := result + Ops(w);
      last := i;
      i := i + 1;
    }
    GroupIsLongest(ws);
    GroupLimits(ws, last + 1);
  }

  ghost predicate AllJoin(ws: seq<Writer>, n: nat) {
    1 <= n <= |ws| && forall j :: 1 <= j < n ==> MayJoin(ws[0], ws[j], GroupSize(ws[..j]))
  }

  lemma FirstOfGroup(ws: seq<Writer>)
    requires |ws| >= 1 && ws[0].batch.Some?
    ensures GroupSize(ws[..1]) == ws[0].size && GroupOps(ws[..1]) == ws[0].batch.value
  {
    assert ws[..1][..0] == [];
    assert GroupOps(ws[..1]) == GroupOps([]) + Ops(ws[0]);
  }

  lemma OpsMore(ws: seq<Writer>, i: nat)
    requires i < |ws|
    ensures GroupOps(ws[..i + 1]) == GroupOps(ws[..i]) + Ops(ws[i])
  {
    assert ws[..i + 1][..i] == ws[..i];
  }

  /** What it means to be such a prefix. */
  lemma GroupLimits(ws: seq<Writer>, n: nat)
    requires IsGroup(ws, n)
    ensures forall j :: 1 <= j < n ==> (ws[j].sync ==> ws[0].sync)
    ensures forall j :: 1 <= j < n && ws[j].batch.Some? ==> GroupSize(ws[..j + 1]) <= SizeLimit(ws[0].size)
    ensures n < |ws| ==>
      || (ws[n].sync && !ws[0].sync)
      || (ws[n].batch.Some? && GroupSize(ws[..n + 1]) > SizeLimit(ws[0].size))
  {
    forall j | 0 <= j < |ws|
      ensures GroupSize(ws[..j + 1]) == GroupSize(ws[..j]) + if ws[j].batch.Some? then ws[j].size else 0
    {
      SizeMore(ws, j);
    }
    hide GroupSize;
  }

  // ----- the steps -----

  function Numbered(base: nat, ops: seq<Op>): (r: seq<(nat, Op)>)
    ensures |r| == |ops| && forall k :: 0 <= k < |ops| ==> r[k] == (base + k, ops[k])
  {
    seq(|ops|, (k: int) requires 0 <= k < |ops| => (base + k, ops[k]))
  }

  predicate Leads(s: State) {
    s.head < |s.writers| && s.writers[s.head].phase.Leading?
  }

  predicate FrontAwake(s: State) {
    s.head < |s.writers| && s.writers[s.head].phase.Awake?
  }

  /** The writers that the leader commits for. */
  function Group(s: State): (ws: seq<Writer>)
    requires Leads(s) && s.head + s.writers[s.head].phase.group <= |s.writers|
  {
    s.writers[s.head..s.head + s.writers[s.head].phase.group]
  }

  function SetPhase(ws: seq<Writer>, i: nat, p: Phase): (r: seq<Writer>)
    requires i < |ws|
  {
    ws[i := ws[i].(phase := p)]
  }

  /** Signal the writer at the front of the queue. */
  function WakeFront(ws: seq<Writer>, head: nat): (r: seq<Writer>) {
    if head < |ws| && ws[head].phase.Asleep? then SetPhase(ws, head, Awake) else ws
  }

  datatype Step =
    | Arrive(batch: Option<seq<Op>>, size: nat, sync: bool)
    | Rouse(i: nat)
    | Look(i: nat)
    | Decline(status: Status)
    | Lead(full: bool)
    | AddRecord(status: Status)
    | SyncLog(status: Status)
    | Insert
    | Commit
    | Return(i: nat)

  /** What the leader's work comes to, once there is nothing more to do without the lock. */
  predicate ReadyToCommit(stage: Stage) {
    stage.Inserted? || stage == Logged(Failed) || stage == Synced(Failed)
  }

  predicate MayInsert(w: Writer) {
    w.phase.Leading? && (w.phase.stage == Synced(OK) || (w.phase.stage == Logged(OK) && !w.sync))
  }

  ghost predicate Enabled(s: State, step: Step) {
    match step
    case Arrive(_, _, _) => true
    case Rouse(i) => s.head <= i < |s.writers| && s.writers[i].phase.Asleep?
    case Look(i) => s.head < i < |s.writers| && s.writers[i].phase.Awake?
    case Decline(status) =>
      FrontAwake(s) && (s.writers[s.head].batch.None? || status == Failed) && (s.broken ==> status == Failed)
    case Lead(_) => FrontAwake(s) && s.writers[s.head].batch.Some? && !s.broken
    case AddRecord(_) =>
      && Leads(s) && s.writers[s.head].phase.stage.Built?
      && s.head + s.writers[s.head].phase.group <= |s.writers|
    case SyncLog(_) => Leads(s) && s.writers[s.head].phase.stage == Logged(OK) && s.writers[s.head].sync
    case Insert => Leads(s) && MayInsert(s.writers[s.head]) && s.head + s.writers[s.head].phase.group <= |s.writers|
    case Commit =>
      && Leads(s) && ReadyToCommit(s.writers[s.head].phase.stage)
      && s.head + s.writers[s.head].phase.group <= |s.writers|
    case Return(i) => i < |s.writers| && s.writers[i].phase.Notified?
  }

  function SetStage(s: State, stage: Stage): (r: State)
    requires Leads(s)
  {
    s.(writers := SetPhase(s.writers, s.head, s.writers[s.head].phase.(stage := stage)))
  }

  /** The writers of a group with their result; each is told which sequence numbers it got. */
  function Dismissed(ws: seq<Writer>, n: nat, base: nat, status: Status, record: nat): (r: seq<Writer>)
    requires n <= |ws|
    ensures |r| == n
    decreases n
  {
    if n == 0 then []
    else
      Dismissed(ws, n - 1, base, status, record)
      + [ws[n - 1].(phase := if n == 1 then Returned(status) else Notified(status),
                    first := Some(base + |GroupOps(ws[..n - 1])|), record := record)]
  }

  function CommitGroup(s: State): (r: State)
    requires Enabled(s, Commit)
  {
    var front, group := s.writers[s.head], Group(s);
    var status := if front.phase.stage.Inserted? then OK else Failed;
    var record := if |s.log| > 0 then |s.log| - 1 else 0;
    var next := s.head + front.phase.group;
    var ws := s.writers[..s.head] + Dismissed(group, |group|, s.lastSequence + 1, status, record) + s.writers[next..];
    s.(writers := WakeFront(ws, next), head := next,
       lastSequence := s.lastSequence + |GroupOps(group)|,
       broken := s.broken || front.phase.stage == Synced(Failed))
  }

  function Next(s: State, step: Step): (r: State)
    requires Enabled(s, step)
  {
    match step
    case Arrive(batch, size, sync) =>
      var phase := if s.head >= |s.writers| then Awake else Asleep;
      s.(writers := s.writers + [Writer(batch, size, sync, phase, None, 0, false)])
    case Rouse(i) => s.(writers := SetPhase(s.writers, i, Awake))
    case Look(i) => s.(writers := SetPhase(s.writers, i, Asleep))
    case Decline(status) =>
      var w := s.writers[s.head].(phase := Returned(status), switched := status == OK);
      s.(writers := WakeFront(s.writers[s.head := w], s.head + 1), head := s.head + 1,
         sealed := if status == OK then |s.mem| else s.sealed)
    case Lead(full) =>
      s.(writers := SetPhase(s.writers, s.head, Leading(GroupLength(s.writers[s.head..]), Built)),
         sealed := if full then |s.mem| else s.sealed)
    case AddRecord(status) =>
      var logged := SetStage(s, Logged(status));
      if status == OK then logged.(log := s.log + [Record(s.lastSequence + 1, GroupOps(Group(s)))]) else logged
    case SyncLog(status) =>
      var done := SetStage(s, Synced(status));
      if status == OK then done.(synced := |s.log|) else done
    case Insert =>
      SetStage(s, Inserted).(mem := s.mem + Numbered(s.lastSequence + 1, GroupOps(Group(s))))
    case Commit => CommitGroup(s)
    case Return(i) => s.(writers := SetPhase(s.writers, i, Returned(s.writers[i].phase.status)))
  }

  // ----- the invariant -----

  predicate InQueue(p: Phase) {
    p.Asleep? || p.Awake? || p.Leading?
  }

  /** Only the front can lead, and it is never left asleep. */
  ghost predicate QueueOk(ws: seq<Writer>, head: nat) {
    && head <= |ws|
    && (forall i :: 0 <= i < |ws| ==> (InQueue(ws[i].phase) <==> i >= head))
    && (forall i :: head < i < |ws| ==> !ws[i].phase.Leading?)
    && (head < |ws| ==> !ws[head].phase.Asleep?)
    && (forall i :: head <= i < |ws| ==> ws[i].first.None?)
  }

  /** The number of sequence numbers that went to these writers. */
  function Assigned(ws: seq<Writer>): (n: nat) {
    if ws == [] then 0
    else Assigned(ws[..|ws| - 1]) + if ws[|ws| - 1].first.Some? then |Ops(ws[|ws| - 1])| else 0
  }

  /** Sequence numbers are handed out in order of arrival, without gaps and never twice. */
  ghost predicate NumbersOk(ws: seq<Writer>, head: nat, lastSequence: nat)
    requires head <= |ws|
  {
    && lastSequence == Assigned(ws[..head])
    && forall i :: 0 <= i < head && ws[i].first.Some? ==> ws[i].first == Some(1 + Assigned(ws[..i]))
  }

  predicate Succeeded(w: Writer) {
    (w.phase.Notified? || w.phase.Returned?) && w.phase.status == OK && w.batch.Some?
  }

  /** The entries of the writers that succeeded, in order of arrival. */
  function MemOf(ws: seq<Writer>): (r: seq<(nat, Op)>) {
    if ws == [] then []
    else
      var w := ws[|ws| - 1];
      MemOf(ws[..|ws| - 1]) + Contribution(w)
  }

  function Contribution(w: Writer): (r: seq<(nat, Op)>) {
    if Succeeded(w) && w.first.Some? then Numbered(w.first.value, Ops(w)) else []
  }

  /** The record holds these operations under the sequence numbers from `first` on. */
  ghost predicate Within(r: Record, first: nat, ops: seq<Op>) {
    && r.base <= first && first + |ops| <= r.base + |r.ops|
    && r.ops[first - r.base..first - r.base + |ops|] == ops
  }

  /** A success was logged under its sequence numbers, and synced if that was asked for. */
  ghost predicate Durable(w: Writer, log: seq<Record>, synced: nat) {
    Succeeded(w) ==>
      && w.first.Some? && w.record < |log| && Within(log[w.record], w.first.value, Ops(w))
      && (w.sync ==> w.record < synced)
  }

  ghost predicate AllDurable(ws: seq<Writer>, head: nat, log: seq<Record>, synced: nat)
    requires head <= |ws|
  {
    synced <= |log| && forall i :: 0 <= i < head ==> Durable(ws[i], log, synced)
  }

  /** What the leader has done so far. */
  ghost predicate LeaderOk(s: State) {
    Leads(s) ==>
      var front := s.writers[s.head];
      && front.batch.Some? && 1 <= front.phase.group <= |s.writers| - s.head
      && (forall j :: s.head <= j < s.head + front.phase.group ==> (s.writers[j].sync ==> front.sync))
      && (front.phase.stage.Synced? || front.phase.stage.Inserted? || front.phase.stage == Logged(OK) ==>
            |s.log| > 0 && s.log[|s.log| - 1] == Record(s.lastSequence + 1, GroupOps(Group(s))))
      && (front.phase.stage == Synced(OK) || (front.phase.stage.Inserted? && front.sync) ==> s.synced == |s.log|)
  }

  ghost predicate MemOk(s: State)
    requires s.head <= |s.writers|
  {
    s.mem == MemOf(s.writers[..s.head]) +
      if Leads(s) && s.writers[s.head].phase.stage.Inserted? && s.head + s.writers[s.head].phase.group <= |s.writers|
      then Numbered(s.lastSequence + 1, GroupOps(Group(s))) else []
  }

  ghost predicate Inv(s: State) {
    && QueueOk(s.writers, s.head) && NumbersOk(s.writers, s.head, s.lastSequence)
    && AllDurable(s.writers, s.head, s.log, s.synced) && LeaderOk(s) && MemOk(s)
  }

  const Start := State([], 0, 0, [], 0, [], false, 0)

  lemma StartInv()
    ensures Inv(Start)
  {
  }

  // ----- lemmas about sequences of writers -----

  lemma PrefixKeeps(ws: seq<Writer>, ws': seq<Writer>, head: nat, lastSequence: nat, log: seq<Record>, synced: nat)
    requires head <= |ws| && head <= |ws'| && ws'[..head] == ws[..head]
    requires NumbersOk(ws, head, lastSequence) && AllDurable(ws, head, log, synced)
    ensures NumbersOk(ws', head, lastSequence) && AllDurable(ws', head, log, synced)
  {
    forall i | 0 <= i < head ensures ws'[i] == ws[i] && ws'[..i] == ws[..i] {
      assert ws'[..head][i] == ws[..head][i];
      assert ws'[..head][..i] == ws[..head][..i];
    }
  }

  /** The operations of a group do not depend on the phases of its writers. */
  lemma {:induction false} SameOps(ws: seq<Writer>, ws': seq<Writer>)
    requires |ws| == |ws'| && forall i :: 0 <= i < |ws| ==> ws'[i].batch == ws[i].batch
    ensures GroupOps(ws') == GroupOps(ws)
  {
    if ws != [] {
      SameOps(ws[..|ws| - 1], ws'[..|ws| - 1]);
    }
  }

  lemma {:induction false} GroupOpsAt(ws: seq<Writer>, k: nat)
    requires k < |ws|
    ensures |GroupOps(ws[..k])| + |Ops(ws[k])| <= |GroupOps(ws)|
    ensures GroupOps(ws)[|GroupOps(ws[..k])|..|GroupOps(ws[..k])| + |Ops(ws[k])|] == Ops(ws[k])
  {
    var n := |ws| - 1;
    if k < n {
      GroupOpsAt(ws[..n], k);
      assert ws[..n][..k] == ws[..k];
    } else {
      assert ws[..k] == ws[..n];
    }
  }

  lemma {:induction false} DismissedAt(ws: seq<Writer>, n: nat, base: nat, status: Status, record: nat, k: nat)
    requires k < n <= |ws|
    ensures var d := Dismissed(ws, n, base, status, record)[k];
      d == ws[k].(phase := if k == 0 then Returned(status) else Notified(status),
                  first := Some(base + |GroupOps(ws[..k])|), record := record)
  {
    if k < n - 1 {
      DismissedAt(ws, n - 1, base, status, record, k);
    }
  }

  lemma NumberedConcat(base: nat, a: seq<Op>, b: seq<Op>)
    ensures Numbered(base, a + b) == Numbered(base, a) + Numbered(base + |a|, b)
  {
  }

  lemma AppendMeans(ws: seq<Writer>, w: Writer)
    ensures Assigned(ws + [w]) == Assigned(ws) + if w.first.Some? then |Ops(w)| else 0
    ensures MemOf(ws + [w]) == MemOf(ws) + Contribution(w)
    ensures GroupOps(ws + [w]) == GroupOps(ws) + Ops(w)
  {
    assert (ws + [w])[..|ws|] == ws;
  }

  /** Dismissing a group hands out as many numbers as it has operations. */
  lemma {:induction false} DismissedAssigned(pre: seq<Writer>, ws: seq<Writer>, n: nat, base: nat, status: Status,
      record: nat)
    requires n <= |ws|
    ensures Assigned(pre + Dismissed(ws, n, base, status, record)) == Assigned(pre) + |GroupOps(ws[..n])|
  {
    if n == 0 {
      assert pre + Dismissed(ws, 0, base, status, record) == pre && ws[..n] == [];
    } else {
      hide Assigned, MemOf, GroupOps, Dismissed;
      DismissedAssigned(pre, ws, n - 1, base, status, record);
      var w := DismissedStep(pre, ws, n, base, status, record);
      AppendMeans(pre + Dismissed(ws, n - 1, base, status, record), w);
    }
  }

  /** What operations add to the memtable if they succeed. */
  function Added(status: Status, base: nat, ops: seq<Op>): (r: seq<(nat, Op)>) {
    if status == OK then Numbered(base, ops) else []
  }

  lemma AddedMore(mem: seq<(nat, Op)>, status: Status, base: nat, ops: seq<Op>, w: Writer)
    requires w.phase == Returned(status) || w.phase == Notified(status)
    requires w.first == Some(base + |ops|)
    ensures mem + Added(status, base, ops) + Contribution(w) == mem + Added(status, base, ops + Ops(w))
  {
    NumberedConcat(base, ops, Ops(w));
    assert Contribution(w) == Added(status, base + |ops|, Ops(w));
    assert Added(status, base, ops + Ops(w)) == Added(status, base, ops) + Contribution(w);
  }

  lemma DismissedStep(pre: seq<Writer>, ws: seq<Writer>, n: nat, base: nat, status: Status, record: nat)
    returns (w: Writer)
    requires 1 <= n <= |ws|
    ensures w.batch == ws[n - 1].batch && w.first == Some(base + |GroupOps(ws[..n - 1])|)
    ensures w.phase == Returned(status) || w.phase == Notified(status)
    ensures pre + Dismissed(ws, n, base, status, record) == (pre + Dismissed(ws, n - 1, base, status, record)) + [w]
    ensures GroupOps(ws[..n]) == GroupOps(ws[..n - 1]) + Ops(w)
  {
    hide GroupOps, Assigned, MemOf;
    w := Dismissed(ws, n, base, status, record)[n - 1];
    assert ws[..n] == ws[..n - 1] + [ws[n - 1]];
    AppendMeans(ws[..n - 1], ws[n - 1]);
  }

  /** A group that succeeded adds its operations to the memtable under consecutive numbers, one that failed none. */
  lemma {:induction false} DismissedMem(pre: seq<Writer>, ws: seq<Writer>, n: nat, base: nat, status: Status,
      record: nat)
    requires n <= |ws|
    ensures MemOf(pre + Dismissed(ws, n, base, status, record)) == MemOf(pre) + Added(status, base, GroupOps(ws[..n]))
  {
    hide *;
    if n == 0 {
      NothingDismissed(pre, ws, base, status, record);
    } else {
      DismissedMem(pre, ws, n - 1, base, status, record);
      var w := DismissedStep(pre, ws, n, base, status, record);
      AppendMeans(pre + Dismissed(ws, n - 1, base, status, record), w);
      AddedMore(MemOf(pre), status, base, GroupOps(ws[..n - 1]), w);
    }
  }

  lemma NothingDismissed(pre: seq<Writer>, ws: seq<Writer>, base: nat, status: Status, record: nat)
    ensures MemOf(pre + Dismissed(ws, 0, base, status, record)) == MemOf(pre) + Added(status, base, GroupOps(ws[..0]))
  {
    assert pre + Dismissed(ws, 0, base, status, record) == pre && ws[..0] == [];
    assert Added(status, base, []) == [];
  }

  // ----- every step keeps the invariant -----

  /** Changing only phases of writers in the queue keeps what is said about those that left it. */
  lemma QueueChangeKeeps(s: State, s': State)
    requires Inv(s) && s'.head == s.head && s'.lastSequence == s.lastSequence
    requires |s'.writers| >= |s.writers| && s'.writers[..s.head] == s.writers[..s.head]
    requires s'.log == s.log && s'.synced == s.synced
    ensures NumbersOk(s'.writers, s'.head, s'.lastSequence)
    ensures AllDurable(s'.writers, s'.head, s'.log, s'.synced)
  {
    PrefixKeeps(s.writers, s'.writers, s.head, s.lastSequence, s.log, s.synced);
  }

  /** The group of the leader is the same when other phases, or its stage, change. */
  lemma SameGroup(s: State, s': State)
    requires Leads(s) && Leads(s') && s'.head == s.head && |s'.writers| >= |s.writers|
    requires s'.writers[s.head].phase.group == s.writers[s.head].phase.group <= |s.writers| - s.head
    requires forall i :: s.head <= i < |s.writers| ==> s'.writers[i].batch == s.writers[i].batch
    ensures GroupOps(Group(s')) == GroupOps(Group(s))
  {
    SameOps(Group(s), Group(s'));
  }

  lemma ArriveKeeps(s: State, step: Step)
    requires Inv(s) && step.Arrive?
    ensures Inv(Next(s, step))
  {
    hide Assigned, MemOf, GroupOps, Numbered, NumbersOk, AllDurable, GroupLength;
    var s' := Next(s, step);
    assert s'.writers[..s.head] == s.writers[..s.head];
    QueueChangeKeeps(s, s');
    if Leads(s) {
      SameGroup(s, s');
    }
  }

  /** A writer in the queue, not the leader, falls asleep or wakes up. */
  lemma DozeKeeps(s: State, step: Step)
    requires Inv(s) && (step.Rouse? || step.Look?) && Enabled(s, step)
    ensures Inv(Next(s, step))
  {
    hide Assigned, MemOf, GroupOps, Numbered, NumbersOk, AllDurable, GroupLength;
    var s' := Next(s, step);
    assert s'.writers[..s.head] == s.writers[..s.head];
    QueueChangeKeeps(s, s');
    if Leads(s) {
      SameGroup(s, s');
    }
  }

  lemma LeadKeeps(s: State, full: bool)
    requires Inv(s) && Enabled(s, Lead(full))
    ensures Inv(Next(s, Lead(full)))
  {
    hide Assigned, MemOf, GroupOps, Numbered, NumbersOk, AllDurable;
    var s' := Next(s, Lead(full));
    assert s'.writers[..s.head] == s.writers[..s.head];
    QueueChangeKeeps(s, s');
    forall j | s.head <= j < s.head + s'.writers[s.head].phase.group
      ensures s'.writers[j].sync ==> s'.writers[s.head].sync
    {
      assert s.writers[s.head..][j - s.head] == s.writers[j];
    }
  }

  lemma AddRecordKeeps(s: State, status: Status)
    requires Inv(s) && Enabled(s, AddRecord(status))
    ensures Inv(Next(s, AddRecord(status)))
  {
    hide Assigned, MemOf, GroupOps, Numbered, NumbersOk, AllDurable, GroupLength;
    SyncedInLog(s);
    var s' := Next(s, AddRecord(status));
    StageKeeps(s, s');
  }

  lemma SyncLogKeeps(s: State, status: Status)
    requires Inv(s) && Enabled(s, SyncLog(status))
    ensures Inv(Next(s, SyncLog(status)))
  {
    hide Assigned, MemOf, GroupOps, Numbered, NumbersOk, AllDurable, GroupLength;
    SyncedInLog(s);
    var s' := Next(s, SyncLog(status));
    StageKeeps(s, s');
  }

  lemma InsertKeeps(s: State)
    requires Inv(s) && Enabled(s, Insert)
    ensures Inv(Next(s, Insert))
  {
    hide Assigned, MemOf, GroupOps, Numbered, NumbersOk, AllDurable, GroupLength;
    SyncedInLog(s);
    var s' := Next(s, Insert);
    StageKeeps(s, s');
  }

  lemma SyncedInLog(s: State)
    requires Inv(s)
    ensures s.synced <= |s.log|
  {
  }

  /** The leader goes on: its group is the same, and the log only grows. */
  lemma StageKeeps(s: State, s': State)
    requires Inv(s) && Leads(s) && Leads(s') && s'.head == s.head && s'.lastSequence == s.lastSequence
    requires |s'.writers| == |s.writers| && s'.writers[..s.head] == s.writers[..s.head]
    requires s'.writers[s.head].phase.group == s.writers[s.head].phase.group
    requires forall i :: s.head <= i < |s.writers| ==> s'.writers[i].batch == s.writers[i].batch
    requires |s.log| <= |s'.log| && s'.log[..|s.log|] == s.log && s.synced <= s'.synced <= |s'.log|
    ensures NumbersOk(s'.writers, s'.head, s'.lastSequence) && AllDurable(s'.writers, s'.head, s'.log, s'.synced)
    ensures GroupOps(Group(s')) == GroupOps(Group(s))
  {
    hide Assigned, MemOf, GroupOps, Numbered, Durable, MemOk;
    SameGroup(s, s');
    PrefixKeeps(s.writers, s'.writers, s.head, s.lastSequence, s.log, s.synced);
    LogGrows(s'.writers, s.head, s.log, s.synced, s'.log, s'.synced);
  }

  lemma LogGrows(ws: seq<Writer>, head: nat, log: seq<Record>, synced: nat, log': seq<Record>, synced': nat)
    requires head <= |ws| && AllDurable(ws, head, log, synced)
    requires |log| <= |log'| && log'[..|log|] == log && synced <= synced' <= |log'|
    ensures AllDurable(ws, head, log', synced')
  {
    forall i | 0 <= i < head ensures Durable(ws[i], log', synced') {
      assert Durable(ws[i], log, synced);
      assert Succeeded(ws[i]) ==> log'[..|log|][ws[i].record] == log[ws[i].record];
    }
  }

  /** Writers that left the queue mean the same when only the way they learn of their result changes. */
  lemma OutcomeKeeps(ws: seq<Writer>, ws': seq<Writer>, head: nat, lastSequence: nat, log: seq<Record>, synced: nat)
    requires head <= |ws| == |ws'|
    requires forall i :: 0 <= i < |ws| ==>
      ws'[i].batch == ws[i].batch && ws'[i].first == ws[i].first && ws'[i].record == ws[i].record
      && ws'[i].sync == ws[i].sync && (Succeeded(ws'[i]) <==> Succeeded(ws[i]))
    requires NumbersOk(ws, head, lastSequence) && AllDurable(ws, head, log, synced)
    ensures NumbersOk(ws', head, lastSequence) && AllDurable(ws', head, log, synced)
    ensures MemOf(ws'[..head]) == MemOf(ws[..head])
  {
    hide Assigned, MemOf, Succeeded, Within;
    forall j | 0 <= j <= head
      ensures Assigned(ws'[..j]) == Assigned(ws[..j]) && MemOf(ws'[..j]) == MemOf(ws[..j])
    {
      SameOutcome(ws[..j], ws'[..j]);
    }
    forall j | 0 <= j < head ensures Durable(ws'[j], log, synced) {
      assert Durable(ws[j], log, synced);
    }
  }

  lemma ReturnKeeps(s: State, i: nat)
    requires Inv(s) && Enabled(s, Return(i))
    ensures Inv(Next(s, Return(i)))
  {
    hide Assigned, MemOf, GroupOps, Numbered, NumbersOk, AllDurable;
    var s' := Next(s, Return(i));
    OutcomeKeeps(s.writers, s'.writers, s.head, s.lastSequence, s.log, s.synced);
    if Leads(s) {
      SameGroup(s, s');
    }
  }

  lemma {:induction false} SameOutcome(ws: seq<Writer>, ws': seq<Writer>)
    requires |ws| == |ws'|
    requires forall i :: 0 <= i < |ws| ==>
      ws'[i].batch == ws[i].batch && ws'[i].first == ws[i].first && (Succeeded(ws'[i]) <==> Succeeded(ws[i]))
    ensures Assigned(ws') == Assigned(ws) && MemOf(ws') == MemOf(ws)
  {
    if ws != [] {
      SameOutcome(ws[..|ws| - 1], ws'[..|ws| - 1]);
    }
  }

  /** One more writer has left the queue without being given anything. */
  lemma DeclinedPrefix(ws: seq<Writer>, ws': seq<Writer>, head: nat, lastSequence: nat, log: seq<Record>, synced: nat)
    requires head < |ws| && head < |ws'| && ws'[..head] == ws[..head] && ws'[head].first.None? && !Succeeded(ws'[head])
    requires NumbersOk(ws, head, lastSequence) && AllDurable(ws, head, log, synced)
    ensures NumbersOk(ws', head + 1, lastSequence) && AllDurable(ws', head + 1, log, synced)
    ensures MemOf(ws'[..head + 1]) == MemOf(ws[..head])
  {
    hide Assigned, MemOf, Within;
    PrefixKeeps(ws, ws', head, lastSequence, log, synced);
    assert ws'[..head + 1] == ws'[..head] + [ws'[head]];
    AppendMeans(ws'[..head], ws'[head]);
  }

  lemma DeclineKeeps(s: State, status: Status)
    requires Inv(s) && Enabled(s, Decline(status))
    ensures Inv(Next(s, Decline(status)))
  {
    hide Assigned, MemOf, GroupOps, Numbered, NumbersOk, AllDurable;
    var s' := Next(s, Decline(status));
    assert s'.writers[..s.head] == s.writers[..s.head];
    DeclinedPrefix(s.writers, s'.writers, s.head, s.lastSequence, s.log, s.synced);
  }

  /** The group has left the queue with its result. */
  lemma CommitPrefix(s: State, ws: seq<Writer>, next: nat, status: Status)
    requires Inv(s) && Enabled(s, Commit) && next == s.head + s.writers[s.head].phase.group <= |ws|
    requires status == if s.writers[s.head].phase.stage.Inserted? then OK else Failed
    requires ws[..next] == s.writers[..s.head] +
      Dismissed(Group(s), |Group(s)|, s.lastSequence + 1, status, if |s.log| > 0 then |s.log| - 1 else 0)
    ensures NumbersOk(ws, next, s.lastSequence + |GroupOps(Group(s))|)
    ensures AllDurable(ws, next, s.log, s.synced)
    ensures MemOf(ws[..next]) == s.mem
  {
    hide Assigned, MemOf, GroupOps, Numbered, Dismissed, Durable, QueueOk;
    var group, base, record := Group(s), s.lastSequence + 1, if |s.log| > 0 then |s.log| - 1 else 0;
    var pre, n := s.writers[..s.head], |group|;
    var d := Dismissed(group, n, base, status, record);
    assert group[..n] == group;
    DismissedAssigned(pre, group, n, base, status, record);
    DismissedMem(pre, group, n, base, status, record);
    forall i | 0 <= i < next
      ensures Durable(ws[i], s.log, s.synced)
      ensures ws[i].first.Some? ==> ws[i].first == Some(1 + Assigned(ws[..i]))
    {
      assert ws[i] == ws[..next][i] && ws[..i] == ws[..next][..i];
      if i < s.head {
        assert ws[i] == s.writers[i] && ws[..i] == s.writers[..i];
      } else {
        CommittedOne(s, status, i - s.head);
        assert ws[..i] == pre + d[..i - s.head];
      }
    }
  }

  /** What one writer of a group is told. */
  lemma CommittedOne(s: State, status: Status, k: nat)
    requires Inv(s) && Enabled(s, Commit) && k < s.writers[s.head].phase.group
    requires status == if s.writers[s.head].phase.stage.Inserted? then OK else Failed
    ensures var d := Dismissed(Group(s), |Group(s)|, s.lastSequence + 1, status,
        if |s.log| > 0 then |s.log| - 1 else 0);
      && Durable(d[k], s.log, s.synced)
      && d[k].first == Some(1 + Assigned(s.writers[..s.head] + d[..k]))
  {
    hide Assigned, MemOf, GroupOps, Numbered, Dismissed, QueueOk;
    var group, base, record := Group(s), s.lastSequence + 1, if |s.log| > 0 then |s.log| - 1 else 0;
    DismissedAt(group, |group|, base, status, record, k);
    DismissedFirst(group, |group|, base, status, record, k);
    DismissedAssigned(s.writers[..s.head], group, k, base, status, record);
    GroupOpsAt(group, k);
    assert group[k] == s.writers[s.head + k];
  }

  lemma {:induction false} DismissedFirst(ws: seq<Writer>, n: nat, base: nat, status: Status, record: nat, k: nat)
    requires k <= n <= |ws|
    ensures Dismissed(ws, n, base, status, record)[..k] == Dismissed(ws, k, base, status, record)
  {
    if k < n {
      DismissedFirst(ws, n - 1, base, status, record, k);
      assert Dismissed(ws, n, base, status, record)[..k] == Dismissed(ws, n - 1, base, status, record)[..k];
    }
  }

  lemma CommitKeeps(s: State)
    requires Inv(s) && Enabled(s, Commit)
    ensures Inv(Next(s, Commit))
  {
    hide Assigned, MemOf, GroupOps, Numbered, NumbersOk, AllDurable, Dismissed;
    var s' := Next(s, Commit);
    var status := if s.writers[s.head].phase.stage.Inserted? then OK else Failed;
    var d := Dismissed(Group(s), |Group(s)|, s.lastSequence + 1, status, if |s.log| > 0 then |s.log| - 1 else 0);
    assert s'.writers[..s'.head] == s.writers[..s.head] + d;
    CommitPrefix(s, s'.writers, s'.head, status);
    CommitQueue(s);
  }

  lemma CommitQueue(s: State)
    requires Inv(s) && Enabled(s, Commit)
    ensures var s' := Next(s, Commit); QueueOk(s'.writers, s'.head) && !Leads(s')
  {
    hide NumbersOk, AllDurable, MemOk, Next;
    CommitAt(s, s.head);
    var s' := Next(s, Commit);
    forall i | 0 <= i < |s'.writers|
      ensures InQueue(s'.writers[i].phase) <==> i >= s'.head
      ensures i >= s'.head ==> s'.writers[i].first.None? && !s'.writers[i].phase.Leading?
      ensures i == s'.head ==> !s'.writers[i].phase.Asleep?
    {
      CommitAt(s, i);
      if i >= s'.head {
        StillWaiting(s, i);
      }
    }
  }

  lemma StillWaiting(s: State, i: nat)
    requires QueueOk(s.writers, s.head) && Enabled(s, Commit)
    requires s.head + s.writers[s.head].phase.group <= i < |s.writers|
    requires s.writers[s.head].phase.group >= 1
    ensures var s' := Next(s, Commit);
      && i < |s'.writers| && InQueue(s'.writers[i].phase) && s'.writers[i].first.None? && !s'.writers[i].phase.Leading?
  {
    hide Dismissed, GroupOps;
    assert InQueue(s.writers[i].phase);
  }

  lemma NextKeeps(s: State, step: Step)
    requires Inv(s) && Enabled(s, step)
    ensures Inv(Next(s, step))
  {
    hide Inv, Next, Enabled;
    match step {
      case Arrive(_, _, _) => ArriveKeeps(s, step);
      case Rouse(_) => DozeKeeps(s, step);
      case Look(_) => DozeKeeps(s, step);
      case Decline(status) => DeclineKeeps(s, status);
      case Lead(full) => LeadKeeps(s, full);
      case AddRecord(status) => AddRecordKeeps(s, status);
      case SyncLog(status) => SyncLogKeeps(s, status);
      case Insert => InsertKeeps(s);
      case Commit => CommitKeeps(s);
      case Return(i) => ReturnKeeps(s, i);
    }
  }

  ghost predicate IsRun(states: seq<State>, steps: seq<Step>) {
    && |states| == |steps| + 1 && states[0] == Start
    && forall i :: 0 <= i < |steps| ==> Enabled(states[i], steps[i]) && states[i + 1] == Next(states[i], steps[i])
  }

  /** Every interleaving keeps the invariant. */
  lemma {:induction false} RunsKeepInv(states: seq<State>, steps: seq<Step>, n: nat)
    requires IsRun(states, steps) && n < |states|
    ensures Inv(states[n])
  {
    hide Inv, Next, Enabled;
    if n == 0 {
      StartInv();
    } else {
      RunsKeepInv(states, steps, n - 1);
      NextKeeps(states[n - 1], steps[n - 1]);
    }
  }

  // ----- what the invariant means for clients -----

  lemma {:induction false} AssignedGrows(ws: seq<Writer>, i: nat, j: nat)
    requires i < j <= |ws|
    ensures Assigned(ws[..i]) + (if ws[i].first.Some? then |Ops(ws[i])| else 0) <= Assigned(ws[..j])
  {
    hide Assigned, MemOf, GroupOps;
    assert ws[..j] == ws[..j - 1] + [ws[j - 1]];
    AppendMeans(ws[..j - 1], ws[j - 1]);
    if i < j - 1 {
      AssignedGrows(ws, i, j - 1);
    }
  }

  /** No sequence number is assigned twice, and an earlier arrival has the smaller ones. */
  lemma NumbersAreUnique(s: State, i: nat, j: nat)
    requires Inv(s) && i < j < |s.writers| && s.writers[i].first.Some? && s.writers[j].first.Some?
    ensures 1 <= s.writers[i].first.value
    ensures s.writers[i].first.value + |Ops(s.writers[i])| <= s.writers[j].first.value
    ensures s.writers[j].first.value + |Ops(s.writers[j])| <= s.lastSequence + 1
  {
    hide Assigned, LeaderOk, MemOk, AllDurable;
    AssignedGrows(s.writers, i, j);
    AssignedGrows(s.writers, j, s.head);
  }

  predicate Consecutive(mem: seq<(nat, Op)>, first: nat) {
    forall k :: 0 <= k < |mem| ==> mem[k].0 == first + k
  }

  lemma ConsecutiveConcat(a: seq<(nat, Op)>, b: seq<(nat, Op)>, first: nat)
    requires Consecutive(a, first) && Consecutive(b, first + |a|)
    ensures Consecutive(a + b, first)
  {
  }

  /** As long as no group fails, the memtable holds 1, 2, 3, ... without a gap. */
  lemma {:induction false} Gapless(s: State, n: nat)
    requires Inv(s) && n <= s.head
    requires forall i :: 0 <= i < n && s.writers[i].first.Some? ==> HasResult(s.writers[i].phase, OK)
    ensures |MemOf(s.writers[..n])| == Assigned(s.writers[..n]) && Consecutive(MemOf(s.writers[..n]), 1)
  {
    hide *;
    if n == 0 {
      assert s.writers[..0] == [];
      GaplessStart();
    } else {
      NumberOf(s, n - 1);
      Gapless(s, n - 1);
      GaplessStep(s.writers[..n - 1], s.writers[n - 1]);
      assert s.writers[..n] == s.writers[..n - 1] + [s.writers[n - 1]];
    }
  }

  lemma GaplessStart()
    ensures |MemOf([])| == Assigned([]) && Consecutive(MemOf([]), 1)
  {
  }

  lemma GaplessStep(ws: seq<Writer>, w: Writer)
    requires |MemOf(ws)| == Assigned(ws) && Consecutive(MemOf(ws), 1)
    requires w.first.Some? ==> HasResult(w.phase, OK) && w.first.value == 1 + Assigned(ws)
    ensures |MemOf(ws + [w])| == Assigned(ws + [w]) && Consecutive(MemOf(ws + [w]), 1)
  {
    hide *;
    AppendMeans(ws, w);
    ContributionNumbers(w, 1 + Assigned(ws));
    ConsecutiveConcat(MemOf(ws), Contribution(w), 1);
  }

  lemma NumberOf(s: State, i: nat)
    requires Inv(s) && i < s.head
    ensures i < |s.writers| && (s.writers[i].first.Some? ==> s.writers[i].first.value == 1 + Assigned(s.writers[..i]))
  {
    hide Assigned, MemOf, LeaderOk, MemOk, AllDurable;
  }

  lemma ContributionNumbers(w: Writer, first: nat)
    requires w.first.Some? ==> HasResult(w.phase, OK) && w.first.value == first
    ensures |Contribution(w)| == (if w.first.Some? then |Ops(w)| else 0) && Consecutive(Contribution(w), first)
  {
  }

  predicate HasResult(p: Phase, status: Status) {
    (p.Notified? || p.Returned?) && p.status == status
  }

  /** Once a writer has its result, nothing changes it any more. */
  lemma ResultIsFinal(s: State, step: Step, s': State, i: nat, status: Status)
    requires Inv(s) && Enabled(s, step) && s' == Next(s, step)
    requires i < |s.writers| && HasResult(s.writers[i].phase, status)
    ensures i < |s'.writers| && HasResult(s'.writers[i].phase, status)
    ensures s'.writers[i].(phase := s.writers[i].phase) == s.writers[i]
  {
    hide Assigned, MemOf, GroupOps, Numbered, NumbersOk, AllDurable, MemOk, Dismissed;
    assert !InQueue(s.writers[i].phase);
  }

  /** A synchronous write that was reported as done is in the part of the log that was synced. */
  lemma SyncedIsDurable(s: State, i: nat)
    requires Inv(s) && i < |s.writers| && Succeeded(s.writers[i])
    ensures i < s.head && s.writers[i].first.Some? && s.writers[i].record < |s.log|
    ensures Within(s.log[s.writers[i].record], s.writers[i].first.value, Ops(s.writers[i]))
    ensures s.writers[i].sync ==> s.writers[i].record < s.synced
  {
    hide Assigned, MemOf, LeaderOk, MemOk, NumbersOk, Within;
    assert !InQueue(s.writers[i].phase);
    assert Durable(s.writers[i], s.log, s.synced);
  }

  // ----- writers that ask for a new memtable -----

  /** With this step writer `i` joins the group of another writer. */
  ghost predicate Joins(s: State, step: Step, i: nat) {
    step.Lead? && s.head < i < |s.writers| && i - s.head < GroupLength(s.writers[s.head..])
  }

  /** Before state `n` of a run, writer `i` joined the group of another writer. */
  ghost predicate Grouped(states: seq<State>, steps: seq<Step>, n: nat, i: nat)
    requires n <= |steps| < |states|
  {
    exists j :: 0 <= j < n && Joins(states[j], steps[j], i)
  }

  /** How a writer without a batch stands; `grouped` says that it has joined the group of another. */
  ghost predicate Standing(s: State, i: nat, grouped: bool) {
    && (i >= |s.writers| ==> !grouped)
    && (i < |s.writers| && s.writers[i].batch.None? ==>
          var w := s.writers[i];
          if InQueue(w.phase) then
            && !w.switched
            && (grouped <==> Leads(s) && s.head < i && i - s.head < s.writers[s.head].phase.group)
          else (w.phase.status == OK ==> (w.switched <==> !grouped)))
  }

  lemma StandingStep(s: State, step: Step, i: nat, grouped: bool)
    requires Inv(s) && Enabled(s, step) && Standing(s, i, grouped)
    ensures Standing(Next(s, step), i, grouped || Joins(s, step, i))
  {
    hide Assigned, MemOf, GroupOps, Numbered, NumbersOk, AllDurable, MemOk, Dismissed, GroupLength, CommitGroup;
    match step {
      case Commit => CommitStanding(s, i, grouped);
      case Decline(status) => DeclineStanding(s, status, i, grouped);
      case _ =>
    }
  }

  lemma DeclineStanding(s: State, status: Status, i: nat, grouped: bool)
    requires Inv(s) && Enabled(s, Decline(status)) && Standing(s, i, grouped)
    ensures Standing(Next(s, Decline(status)), i, grouped)
  {
    hide NumbersOk, AllDurable, MemOk, LeaderOk, GroupLength, CommitGroup;
  }

  /** What a commit does to one writer. */
  lemma CommitAt(s: State, i: nat)
    requires Enabled(s, Commit) && i < |s.writers|
    ensures var s', next := Next(s, Commit), s.head + s.writers[s.head].phase.group;
      && s'.head == next && |s'.writers| == |s.writers|
      && (i < s.head ==> s'.writers[i] == s.writers[i] && s'.writers[..i] == s.writers[..i])
      && s'.writers[i].batch == s.writers[i].batch && s'.writers[i].switched == s.writers[i].switched
      && (s.head <= i < next ==> s'.writers[i].phase.Returned? || s'.writers[i].phase.Notified?)
      && (i >= next ==> s'.writers[i].phase == s.writers[i].phase || s'.writers[i].phase.Awake?)
      && (i >= next && s.writers[i].phase.Asleep? ==> InQueue(s'.writers[i].phase))
      && (i == next ==> !s'.writers[i].phase.Asleep?)
      && (i >= next && !s.writers[i].phase.Asleep? ==> s'.writers[i].phase == s.writers[i].phase)
  {
    hide GroupOps, Dismissed;
    var group, next := Group(s), s.head + s.writers[s.head].phase.group;
    var status := if s.writers[s.head].phase.stage.Inserted? then OK else Failed;
    var record := if |s.log| > 0 then |s.log| - 1 else 0;
    var d := Dismissed(group, |group|, s.lastSequence + 1, status, record);
    var ws := s.writers[..s.head] + d + s.writers[next..];
    assert |d| == next - s.head && |ws| == |s.writers|;
    if s.head <= i < next {
      DismissedAt(group, |group|, s.lastSequence + 1, status, record, i - s.head);
      assert ws[i] == d[i - s.head] && group[i - s.head] == s.writers[i];
    } else if i < s.head {
      assert ws[i] == s.writers[i] && ws[..i] == s.writers[..i];
    } else {
      assert ws[i] == s.writers[i];
    }
  }

  lemma CommitStanding(s: State, i: nat, grouped: bool)
    requires Inv(s) && Enabled(s, Commit) && Standing(s, i, grouped)
    ensures Standing(Next(s, Commit), i, grouped)
  {
    hide NumbersOk, AllDurable, MemOk, Next;
    CommitAt(s, s.head);
    if i < |s.writers| {
      CommitAt(s, i);
    }
    var next := s.head + s.writers[s.head].phase.group;
    if next < |s.writers| {
      CommitAt(s, next);
    }
  }

  lemma {:induction false} StandingHolds(states: seq<State>, steps: seq<Step>, n: nat, i: nat)
    requires IsRun(states, steps) && n < |states|
    ensures Standing(states[n], i, Grouped(states, steps, n, i))
  {
    hide Inv, Next, Enabled, Joins;
    if n == 0 {
      StartStands(i);
    } else {
      StandingHolds(states, steps, n - 1, i);
      RunsKeepInv(states, steps, n - 1);
      StandingStep(states[n - 1], steps[n - 1], i, Grouped(states, steps, n - 1, i));
      hide Standing;
      assert Grouped(states, steps, n, i) <==>
        Grouped(states, steps, n - 1, i) || Joins(states[n - 1], steps[n - 1], i);
    }
  }

  lemma StartStands(i: nat)
    ensures Standing(Start, i, false)
  {
  }

  /**
    A writer without a batch that is told that all went well has had a new memtable begun for it if
    and only if it never joined the group of another writer.
   */
  lemma SwitchedIffNotGrouped(states: seq<State>, steps: seq<Step>, n: nat, i: nat)
    requires IsRun(states, steps) && n < |states| && i < |states[n].writers|
    requires var w := states[n].writers[i]; w.batch.None? && !InQueue(w.phase) && w.phase.status == OK
    ensures states[n].writers[i].switched <==> !Grouped(states, steps, n, i)
  {
    StandingHolds(states, steps, n, i);
  }

  /** A switch made for a writer has sealed all that came before it; in the queue none has been made yet. */
  ghost predicate SealOk(s: State) {
    && s.sealed <= |s.mem| && s.head <= |s.writers|
    && (forall i :: s.head <= i < |s.writers| ==> !s.writers[i].switched)
    && forall i :: 0 <= i < s.head && s.writers[i].switched ==> |MemOf(s.writers[..i])| <= s.sealed
  }

  lemma SealStep(s: State, step: Step)
    requires Inv(s) && Enabled(s, step) && SealOk(s)
    ensures SealOk(Next(s, step))
  {
    hide Assigned, MemOf, GroupOps, Numbered, NumbersOk, AllDurable, Dismissed, GroupLength;
    var s' := Next(s, step);
    match step {
      case Commit => CommitSeals(s);
      case Decline(status) => DeclineSeals(s, status);
      case Return(k) =>
        forall i | 0 <= i < s.head ensures MemOf(s'.writers[..i]) == MemOf(s.writers[..i]) {
          SameOutcome(s.writers[..i], s'.writers[..i]);
        }
      case _ =>
        hide Inv;
        assert s'.writers[..s.head] == s.writers[..s.head];
        SameSeals(s, s');
    }
  }

  /** Nothing happens to the writers that have left the queue. */
  lemma SameSeals(s: State, s': State)
    requires SealOk(s) && s'.head == s.head <= |s'.writers| && s'.writers[..s.head] == s.writers[..s.head]
    requires s.sealed <= s'.sealed <= |s'.mem| && forall i :: s.head <= i < |s'.writers| ==> !s'.writers[i].switched
    ensures SealOk(s')
  {
    hide MemOf;
    forall i | 0 <= i < s.head ensures s'.writers[..i] == s.writers[..i] && s'.writers[i] == s.writers[i] {
      assert s'.writers[..s.head][..i] == s'.writers[..i] && s.writers[..s.head][..i] == s.writers[..i];
      assert s'.writers[..s.head][i] == s.writers[..s.head][i];
    }
  }

  lemma DeclineSeals(s: State, status: Status)
    requires Inv(s) && Enabled(s, Decline(status)) && SealOk(s)
    ensures SealOk(Next(s, Decline(status)))
  {
    hide Assigned, MemOf, GroupOps, Numbered, NumbersOk, AllDurable, LeaderOk, QueueOk;
    var s' := Next(s, Decline(status));
    forall i | 0 <= i <= s.head ensures s'.writers[..i] == s.writers[..i] {
    }
    forall i | 0 <= i < s.head ensures s'.writers[i] == s.writers[i] {
    }
  }

  lemma CommitSeals(s: State)
    requires Inv(s) && Enabled(s, Commit) && SealOk(s)
    ensures SealOk(Next(s, Commit))
  {
    CommitFrame(s);
    hide MemOf, NumbersOk, AllDurable, MemOk, Next, LeaderOk;
    CommitAt(s, s.head);
    forall i | 0 <= i < |s.writers|
      ensures i < s.head ==>
        Next(s, Commit).writers[i] == s.writers[i] && Next(s, Commit).writers[..i] == s.writers[..i]
      ensures i >= s.head ==> !Next(s, Commit).writers[i].switched
    {
      CommitAt(s, i);
    }
  }

  lemma CommitFrame(s: State)
    requires Enabled(s, Commit)
    ensures Next(s, Commit).mem == s.mem && Next(s, Commit).sealed == s.sealed
  {
  }

  lemma {:induction false} SealHolds(states: seq<State>, steps: seq<Step>, n: nat)
    requires IsRun(states, steps) && n < |states|
    ensures SealOk(states[n])
  {
    hide Inv, Next, Enabled, SealOk;
    if n == 0 {
      StartSealed();
    } else {
      SealHolds(states, steps, n - 1);
      RunsKeepInv(states, steps, n - 1);
      SealStep(states[n - 1], steps[n - 1]);
    }
  }

  lemma StartSealed()
    ensures SealOk(Start)
  {
  }

  lemma {:induction false} MemOfPrefix(ws: seq<Writer>, i: nat)
    requires i <= |ws|
    ensures MemOf(ws[..i]) <= MemOf(ws)
    decreases |ws|
  {
    if i < |ws| {
      MemOfPrefix(ws[..|ws| - 1], i);
      assert ws[..|ws| - 1][..i] == ws[..i];
    } else {
      assert ws[..i] == ws;
    }
  }

  /** Then everything that writers before it have written is in memtables that have become immutable. */
  lemma SwitchSealsEarlier(states: seq<State>, steps: seq<Step>, n: nat, i: nat)
    requires IsRun(states, steps) && n < |states| && i < |states[n].writers| && states[n].writers[i].switched
    ensures var s := states[n]; s.sealed <= |s.mem| && MemOf(s.writers[..i]) <= s.mem[..s.sealed]
  {
    hide Next, Enabled, NumbersOk, AllDurable, LeaderOk, QueueOk, MemOf, GroupOps, Numbered;
    RunsKeepInv(states, steps, n);
    SealHolds(states, steps, n);
    var s := states[n];
    MemOfPrefix(s.writers[..s.head], i);
    assert s.writers[..s.head][..i] == s.writers[..i];
  }

  // ----- a switch that is not made -----

  const Write := Op(Value, 0.0, "x")

  function Asking(phase: Phase, first: Option<nat>): Writer {
    Writer(None, 0, false, phase, first, 0, false)
  }

  function Writing(phase: Phase, first: Option<nat>): Writer {
    Writer(Some([Write]), 1, false, phase, first, 0, false)
  }

  /** One writer comes with a batch and one without; the first leads them both. */
  function SkippingSteps(): (r: seq<Step>)
    ensures |r| == 7
  {
    [Arrive(Some([Write]), 1, false), Arrive(None, 0, false), Lead(false), AddRecord(OK), Insert, Commit, Return(1)]
  }

  function SkippingStates(): (r: seq<State>)
    ensures |r| == 8
  {
    var log, mem := [Record(1, [Write])], [(1, Write)];
    [Start,
     State([Writing(Awake, None)], 0, 0, [], 0, [], false, 0),
     State([Writing(Awake, None), Asking(Asleep, None)], 0, 0, [], 0, [], false, 0),
     State([Writing(Leading(2, Built), None), Asking(Asleep, None)], 0, 0, [], 0, [], false, 0),
     State([Writing(Leading(2, Logged(OK)), None), Asking(Asleep, None)], 0, 0, log, 0, [], false, 0),
     State([Writing(Leading(2, Inserted), None), Asking(Asleep, None)], 0, 0, log, 0, mem, false, 0),
     State([Writing(Returned(OK), Some(1)), Asking(Notified(OK), Some(2))], 2, 1, log, 0, mem, false, 0),
     State([Writing(Returned(OK), Some(1)), Asking(Returned(OK), Some(2))], 2, 1, log, 0, mem, false, 0)]
  }

  lemma BothJoin(phase: Phase)
    ensures GroupLength([Writing(Awake, None), Asking(phase, None)]) == 2
  {
    var ws := [Writing(Awake, None), Asking(phase, None)];
    assert MayJoin(ws[0], ws[1], 1);
    assert Joining(ws, 2, 1) == 0;
  }

  lemma BothOps(a: Writer, b: Writer)
    requires Ops(a) == [Write] && Ops(b) == []
    ensures GroupOps([a, b]) == [Write] && GroupOps([a]) == [Write]
  {
    assert [a, b][..1] == [a] && [a][..0] == [];
    assert GroupOps([a]) == GroupOps([]) + [Write];
  }

  lemma NoOps()
    ensures GroupOps([]) == []
  {
  }

  /** A writer that asks for a new memtable is told that all went well, and the write before it is not sealed. */
  lemma SwitchIsSkipped()
    ensures IsRun(SkippingStates(), SkippingSteps())
    ensures var s := SkippingStates()[7];
      && s.writers[1].batch.None? && s.writers[1].phase == Returned(OK) && !s.writers[1].switched
      && MemOf(s.writers[..1]) == [(1, Write)] && s.sealed == 0
  {
    hide GroupLength, GroupOps, Dismissed, Numbered;
    var states, steps := SkippingStates(), SkippingSteps();
    SkippingStart();
    SkippingCommit();
    var s := states[7];
    assert s.writers[..1] == [s.writers[0]] && s.writers[..1][..0] == [];
    assert MemOf(s.writers[..1]) == MemOf([]) + Contribution(s.writers[0]);
    assert Numbered(1, [Write]) == [(1, Write)];
    forall i | 0 <= i < 7 ensures Enabled(states[i], steps[i]) && states[i + 1] == Next(states[i], steps[i]) {
    }
  }

  lemma SkippingStart()
    ensures var states, steps := SkippingStates(), SkippingSteps();
      forall i :: 0 <= i < 5 ==> Enabled(states[i], steps[i]) && states[i + 1] == Next(states[i], steps[i])
  {
    hide GroupLength, GroupOps, Numbered;
    var states, steps := SkippingStates(), SkippingSteps();
    BothJoin(Asleep);
    BothOps(states[3].writers[0], states[3].writers[1]);
    BothOps(states[4].writers[0], states[4].writers[1]);
    assert states[2].writers[0..] == states[2].writers;
    assert Group(states[3]) == states[3].writers && Group(states[4]) == states[4].writers;
    assert Numbered(1, [Write]) == [(1, Write)];
  }

  lemma SkippingCommit()
    ensures var states := SkippingStates();
      Enabled(states[5], Commit) && states[6] == Next(states[5], Commit)
  {
    hide GroupOps;
    var s := SkippingStates()[5];
    BothOps(s.writers[0], s.writers[1]);
    var g := Group(s);
    assert g == s.writers && g[..1] == [s.writers[0]] && g[..0] == [];
    NoOps();
    var d := Dismissed(g, 2, 1, OK, 0);
    DismissedAt(g, 2, 1, OK, 0, 0);
    DismissedAt(g, 2, 1, OK, 0, 1);
    assert d == [Writing(Returned(OK), Some(1)), Asking(Notified(OK), Some(2))];
  }

  // ----- every writer returns -----

  /** Steps that need nothing from outside: no new writer and no spurious wake-up. */
  ghost predicate Internal(s: State, step: Step) {
    Enabled(s, step) && !step.Arrive? && !step.Rouse?
  }

  function Weight(w: Writer, i: nat, head: nat): (n: nat) {
    match w.phase
    case Asleep => if i == head then 15 else 20
    case Awake => if i == head then 15 else 21
    case Leading(_, stage) =>
      (match stage case Built => 14 case Logged(_) => 13 case Synced(_) => 12 case Inserted => 11)
    case Notified(_) => 1
    case Returned(_) => 0
  }

  function TotalWeight(ws: seq<Writer>, head: nat): (n: nat) {
    if ws == [] then 0 else TotalWeight(ws[..|ws| - 1], head) + Weight(ws[|ws| - 1], |ws| - 1, head)
  }

  lemma {:induction false} LighterSum(ws: seq<Writer>, head: nat, ws': seq<Writer>, head': nat)
    requires |ws| == |ws'| && forall i :: 0 <= i < |ws| ==> Weight(ws'[i], i, head') <= Weight(ws[i], i, head)
    ensures TotalWeight(ws', head') <= TotalWeight(ws, head)
    ensures (exists i :: 0 <= i < |ws| && Weight(ws'[i], i, head') < Weight(ws[i], i, head)) ==>
      TotalWeight(ws', head') < TotalWeight(ws, head)
  {
    if ws != [] {
      LighterSum(ws[..|ws| - 1], head, ws'[..|ws| - 1], head');
    }
  }

  lemma StepIsLighter(s: State, step: Step) returns (k: nat)
    requires Inv(s) && Internal(s, step)
    ensures var s' := Next(s, step);
      && |s'.writers| == |s.writers| && k < |s.writers|
      && Weight(s'.writers[k], k, s'.head) < Weight(s.writers[k], k, s.head)
      && forall i :: 0 <= i < |s.writers| ==> Weight(s'.writers[i], i, s'.head) <= Weight(s.writers[i], i, s.head)
  {
    hide Assigned, MemOf, GroupOps, Numbered, NumbersOk, AllDurable, MemOk, Dismissed;
    match step {
      case Look(i) => k := i;
      case Return(i) => k := i;
      case Commit => k := s.head; CommitIsLighter(s);
      case _ => k := s.head;
    }
  }

  lemma CommitIsLighter(s: State)
    requires Inv(s) && Enabled(s, Commit)
    ensures var s' := Next(s, Commit);
      && |s'.writers| == |s.writers|
      && Weight(s'.writers[s.head], s.head, s'.head) < Weight(s.writers[s.head], s.head, s.head)
      && forall i :: 0 <= i < |s.writers| ==> Weight(s'.writers[i], i, s'.head) <= Weight(s.writers[i], i, s.head)
  {
    hide Assigned, MemOf, GroupOps, Numbered, NumbersOk, AllDurable, MemOk, Dismissed;
    var s' := Next(s, Commit);
    var status := if s.writers[s.head].phase.stage.Inserted? then OK else Failed;
    forall i | s.head <= i < s'.head
      ensures s'.writers[i].phase == if i == s.head then Returned(status) else Notified(status)
    {
      DismissedAt(Group(s), |Group(s)|, s.lastSequence + 1, status, if |s.log| > 0 then |s.log| - 1 else 0, i - s.head);
    }
  }

  /** Internal steps cannot go on for ever. */
  lemma InternalDecreases(s: State, step: Step)
    requires Inv(s) && Internal(s, step)
    ensures TotalWeight(Next(s, step).writers, Next(s, step).head) < TotalWeight(s.writers, s.head)
  {
    hide Inv, Next, Enabled, Weight, TotalWeight;
    var k := StepIsLighter(s, step);
    LighterSum(s.writers, s.head, Next(s, step).writers, Next(s, step).head);
  }

  lemma StageCases(stage: Stage)
    ensures stage.Built? || stage == Logged(OK) || stage == Synced(OK) || ReadyToCommit(stage)
  {
    match stage {
      case Logged(status) => assert status.OK? || status.Failed?;
      case Synced(status) => assert status.OK? || status.Failed?;
      case _ =>
    }
  }

  /** Unless every writer has returned, some internal step is possible: no wake-up is lost. */
  lemma NeverStuck(s: State) returns (step: Step)
    requires Inv(s) && exists i :: 0 <= i < |s.writers| && !s.writers[i].phase.Returned?
    ensures Internal(s, step)
  {
    hide Assigned, MemOf, GroupOps, Numbered, NumbersOk, AllDurable, MemOk;
    var i :| 0 <= i < |s.writers| && !s.writers[i].phase.Returned?;
    if i < s.head {
      assert !InQueue(s.writers[i].phase);
      step := Return(i);
    } else {
      var front := s.writers[s.head];
      assert InQueue(front.phase) && !front.phase.Asleep?;
      if front.phase.Awake? {
        step := Decline(Failed);
        if front.batch.Some? && !s.broken {
          step := Lead(false);
        }
      } else if front.phase.stage.Built? {
        step := AddRecord(OK);
      } else if MayInsert(front) {
        step := Insert;
      } else if front.phase.stage == Logged(OK) {
        step := SyncLog(OK);
      } else {
        StageCases(front.phase.stage);
        step := Commit;
      }
    }
  }

  /** A run of internal steps from any state. */
  ghost predicate InternalRun(states: seq<State>, steps: seq<Step>) {
    && |states| == |steps| + 1
    && forall k :: 0 <= k < |steps| ==> Internal(states[k], steps[k]) && states[k + 1] == Next(states[k], steps[k])
  }

  ghost predicate AllReturned(s: State) {
    forall i :: 0 <= i < |s.writers| ==> s.writers[i].phase.Returned?
  }

  /**
    However the writers interleave, a run of internal steps is no longer than the weight it
    started with, and it can stop only when every writer has returned.
   */
  lemma {:induction false} InternalRunsEnd(states: seq<State>, steps: seq<Step>)
    requires InternalRun(states, steps) && Inv(states[0])
    ensures var last := states[|steps|];
      && Inv(last) && |last.writers| == |states[0].writers|
      && |steps| + TotalWeight(last.writers, last.head) <= TotalWeight(states[0].writers, states[0].head)
      && (AllReturned(last) || exists step :: Internal(last, step))
    decreases |steps|
  {
    hide Inv, Next, Enabled, TotalWeight;
    if steps == [] {
      if !AllReturned(states[0]) {
        var step := NeverStuck(states[0]);
      }
    } else {
      assert Internal(states[0], steps[0]);
      NextKeeps(states[0], steps[0]);
      InternalDecreases(states[0], steps[0]);
      var k := StepIsLighter(states[0], steps[0]);
      InternalRunsEnd(states[1..], steps[1..]);
    }
  }

  /** From every reachable state, taking internal steps as long as there are any lets every writer return. */
  lemma {:induction false} EveryWriterReturns(s: State) returns (states: seq<State>, steps: seq<Step>)
    requires Inv(s)
    ensures InternalRun(states, steps) && states[0] == s
    ensures Inv(states[|steps|]) && |states[|steps|].writers| == |s.writers| && AllReturned(states[|steps|])
    decreases TotalWeight(s.writers, s.head)
  {
    hide Inv, Next, Enabled, TotalWeight;
    if exists i :: 0 <= i < |s.writers| && !s.writers[i].phase.Returned? {
      var step := NeverStuck(s);
      InternalDecreases(s, step);
      NextKeeps(s, step);
      var k := StepIsLighter(s, step);
      var later, rest := EveryWriterReturns(Next(s, step));
      states, steps := [s] + later, [step] + rest;
    } else {
      states, steps := [s], [];
    }
  }
}
