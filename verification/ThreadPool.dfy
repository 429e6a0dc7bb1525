/**
  The worker pool: workers share a queue of requests, slow I/O requests wait in a queue of
  their own and run on at most half of the workers, and a loop thread may cancel a request
  that no worker has taken yet.  Every critical section is one step, and the steps of all
  threads interleave freely.
 */
module ThreadPool {
  import opened Basics

  /** The shared queue holds requests and at most one marker that stands for slow work. */
  datatype Item = SlowMarker | Work(id: nat)

  /** Where a worker thread is between two critical sections. */
  datatype Worker =
    | Ready                             // about to look at the queue
    | Waiting(signalled: bool)          // inside the condition wait
    | Running(id: nat, slow: bool)      // executing a request
    | Finishing(slow: bool)             // request handed back, about to take the mutex

  /** The work pointer of a request: its callback, null once executed, or the cancel marker. */
  datatype WorkPtr = Callback | Null | Cancelled

  datatype Phase = Queued | Pending | Active(worker: nat) | Completed | Draining | Cancelling | Done

  /**
    A submitted request.  `linked` says that its queue links do not point to itself, which is
    what cancellation looks at; the rest below `work` records history for the proofs.
   */
  datatype Request = Request(loop: nat, slow: bool, linked: bool, work: WorkPtr,
                             phase: Phase, runs: nat, cancels: nat, dones: nat, status: Option<bool>)

  /** A loop thread: requests handed back to it, those it is draining, and a cancellation under way. */
  datatype Loop = Loop(completed: seq<nat>, draining: seq<nat>, cancelling: Option<nat>)

  datatype Pool = Pool(queue: seq<Item>, pending: seq<nat>, idle: int, slowRunning: int,
                       workers: seq<Worker>, loops: seq<Loop>, requests: map<nat, Request>)

  function Threshold(n: nat): nat { (n + 1) / 2 }

  /** A worker has to wait: nothing queued, or only slow work while at the threshold. */
  predicate Blocked(p: Pool) {
    p.queue == [] || (p.queue == [SlowMarker] && p.slowRunning >= Threshold(|p.workers|))
  }

  /** Signal the condition: worker `j` is the one that wakes, if any waits unsignalled. */
  function Signal(workers: seq<Worker>, j: nat): (r: seq<Worker>) {
    if j < |workers| && workers[j] == Waiting(false) then workers[j := Waiting(true)] else workers
  }

  ghost predicate CanWake(workers: seq<Worker>, j: nat) {
    (exists i :: 0 <= i < |workers| && workers[i] == Waiting(false)) ==> j < |workers| && workers[j] == Waiting(false)
  }

  function SignalIfIdle(p: Pool, j: nat): (r: Pool) {
    if p.idle > 0 then p.(workers := Signal(p.workers, j)) else p
  }

  function SetWorker(p: Pool, i: nat, w: Worker): Pool
    requires i < |p.workers|
  {
    p.(workers := p.workers[i := w])
  }

  function SetRequest(p: Pool, id: nat, r: Request): Pool {
    p.(requests := p.requests[id := r])
  }

  function SetLoop(p: Pool, l: nat, x: Loop): Pool
    requires l < |p.loops|
  {
    p.(loops := p.loops[l := x])
  }

  function Without<T(==,!new)>(s: seq<T>, x: T): (r: seq<T>)
    ensures forall y :: y in r <==> y in s && y != x
    ensures x !in s ==> r == s
  {
    if s == [] then []
    else
      assert s == [s[0]] + s[1..];
      if s[0] == x then Without(s[1..], x) else [s[0]] + Without(s[1..], x)
  }

  // Steps.  Where a step follows a pointer to a request, the invariant says that the request
  // exists; the functions are total so that runs can be stated without it.

  /** Submit request `id`: queue it, and signal if a worker idles. */
  function Post(p: Pool, id: nat, loop: nat, slow: bool, j: nat): (r: Pool) {
    var q := Request(loop, slow, true, Callback, if slow then Pending else Queued, 0, 0, 0, None);
    if slow then
      var p1 := SetRequest(p, id, q).(pending := p.pending + [id]);
      if SlowMarker in p.queue then p1 else SignalIfIdle(p1.(queue := p.queue + [SlowMarker]), j)
    else
      SignalIfIdle(SetRequest(p, id, q).(queue := p.queue + [Work(id)]), j)
  }

  function Start(p: Pool, i: nat, id: nat): (r: Pool)
    requires i < |p.workers|
  {
    if id !in p.requests then p else
    var q := p.requests[id];
    SetRequest(SetWorker(p, i, Running(id, q.slow)), id, q.(linked := false, phase := Active(i), runs := q.runs + 1))
  }

  /** Worker `i` takes the first slow request, and announces the rest if there is more. */
  function TakeSlow(p: Pool, i: nat, j: nat): (r: Pool)
    requires i < |p.workers| && p.pending != []
  {
    var r := Start(p.(pending := p.pending[1..], slowRunning := p.slowRunning + 1), i, p.pending[0]);
    if r.pending == [] then r else SignalIfIdle(r.(queue := r.queue + [SlowMarker]), j)
  }

  /** One pass of worker `i` through its loop, with the mutex held. */
  function Iterate(p: Pool, i: nat, j: nat): (r: Pool)
    requires i < |p.workers|
  {
    if Blocked(p) then SetWorker(p, i, Waiting(false)).(idle := p.idle + 1)
    else if p.queue[0] == SlowMarker then
      var p1 := p.(queue := p.queue[1..]);
      if p.slowRunning >= Threshold(|p.workers|) then p1.(queue := p.queue[1..] + [SlowMarker])
      else if p.pending == [] then p1
      else
        TakeSlow(p1, i, j)
    else
      Start(p.(queue := p.queue[1..]), i, p.queue[0].id)
  }

  /** Worker `i` leaves the condition wait, signalled or not. */
  function Wake(p: Pool, i: nat): (r: Pool)
    requires i < |p.workers|
  {
    SetWorker(p, i, Ready).(idle := p.idle - 1)
  }

  /** Worker `i` has executed its request and hands it back to the loop. */
  function Finish(p: Pool, i: nat): (r: Pool)
    requires i < |p.workers| && p.workers[i].Running?
  {
    var id := p.workers[i].id;
    if id !in p.requests || p.requests[id].loop >= |p.loops| then p else
    var q := p.requests[id];
    var x := p.loops[q.loop];
    SetLoop(SetRequest(SetWorker(p, i, Finishing(p.workers[i].slow)), id,
        q.(linked := true, work := Null, phase := Completed)),
            q.loop, x.(completed := x.completed + [id]))
  }

  /** Worker `i` takes the mutex again and gives its slow slot back. */
  function Relock(p: Pool, i: nat): (r: Pool)
    requires i < |p.workers| && p.workers[i].Finishing?
  {
    SetWorker(p, i, Ready).(slowRunning := if p.workers[i].slow then p.slowRunning - 1 else p.slowRunning)
  }

  /** What cancellation tests under both mutexes. */
  predicate Cancellable(q: Request) {
    q.linked && q.work != Null
  }

  /** First half of a cancellation: unlink the request from whatever queue it is in. */
  function TryCancel(p: Pool, id: nat): (r: Pool)
    requires id in p.requests
  {
    var q := p.requests[id];
    if !Cancellable(q) || q.loop >= |p.loops| then p
    else
      var x := p.loops[q.loop];
      SetLoop(SetRequest(p, id, q.(phase := Cancelling, cancels := q.cancels + 1)), q.loop,
              Loop(Without(x.completed, id), Without(x.draining, id), Some(id)))
        .(queue := Without(p.queue, Work(id)), pending := Without(p.pending, id))
  }

  /** Second half: mark it and hand it to the loop. */
  function FinishCancel(p: Pool, l: nat): (r: Pool)
    requires l < |p.loops| && p.loops[l].cancelling.Some?
  {
    var x := p.loops[l];
    var id := x.cancelling.value;
    if id !in p.requests then p else
    SetLoop(SetRequest(p, id, p.requests[id].(work := Cancelled, phase := Completed)), l,
            x.(completed := x.completed + [id], cancelling := None))
  }

  /** The loop takes all requests handed back to it. */
  function StartDrain(p: Pool, l: nat): (r: Pool)
    requires l < |p.loops|
  {
    var x := p.loops[l];
    SetLoop(p, l, x.(completed := [], draining := x.completed))
      .(requests := map id | id in p.requests ::
          if id in x.completed then p.requests[id].(phase := Draining) else p.requests[id])
  }

  /** The loop runs the done callback of the next drained request. */
  function RunDone(p: Pool, l: nat): (r: Pool)
    requires l < |p.loops| && p.loops[l].draining != []
  {
    var x := p.loops[l];
    var id := x.draining[0];
    if id !in p.requests then p else
    var q := p.requests[id];
    SetLoop(SetRequest(p, id, q.(phase := Done, dones := q.dones + 1, status := Some(q.work == Cancelled))), l,
            x.(draining := x.draining[1..]))
  }

  // Invariant

  function CountWaiting(ws: seq<Worker>): (n: nat) {
    if ws == [] then 0 else CountWaiting(ws[1..]) + if ws[0].Waiting? then 1 else 0
  }

  predicate HoldsSlowSlot(w: Worker) {
    (w.Running? && w.slow) || (w.Finishing? && w.slow)
  }

  function CountSlow(ws: seq<Worker>): (n: nat) {
    if ws == [] then 0 else CountSlow(ws[1..]) + if HoldsSlowSlot(ws[0]) then 1 else 0
  }

  ghost predicate Distinct<T>(s: seq<T>) {
    forall i, j :: 0 <= i < j < |s| ==> s[i] != s[j]
  }

  type Requests = map<nat, Request>

  ghost predicate InPhase(requests: Requests, id: nat, phase: Phase) {
    id in requests && requests[id].phase == phase
  }

  /** Queued requests are in exactly the queue their phase says, once, and slow work is announced. */
  ghost predicate QueueInv(queue: seq<Item>, pending: seq<nat>, requests: Requests) {
    && Distinct(queue) && Distinct(pending)
    && (forall id :: Work(id) in queue <==> InPhase(requests, id, Queued))
    && (forall id :: id in pending <==> InPhase(requests, id, Pending))
    && (pending != [] ==> SlowMarker in queue)
  }

  /** Idle and slow counters count what they should, and slow work keeps to its share. */
  ghost predicate CountInv(workers: seq<Worker>, idle: int, slowRunning: int) {
    && |workers| > 0 && idle == CountWaiting(workers)
    && slowRunning == CountSlow(workers) <= Threshold(|workers|)
  }

  /** A request being executed is so by exactly one worker. */
  ghost predicate WorkerInv(workers: seq<Worker>, requests: Requests) {
    && (forall i :: 0 <= i < |workers| && workers[i].Running? ==>
          InPhase(requests, workers[i].id, Active(i)) && requests[workers[i].id].slow == workers[i].slow)
    && forall id :: id in requests && requests[id].phase.Active? ==>
         var i := requests[id].phase.worker; i < |workers| && workers[i] == Running(id, requests[id].slow)
  }

  /** Requests handed back are with the loop they came from, once. */
  ghost predicate LoopInv(loops: seq<Loop>, requests: Requests) {
    && (forall id :: id in requests ==> requests[id].loop < |loops|)
    && forall l :: 0 <= l < |loops| ==> Holds(loops[l], l, requests)
  }

  ghost predicate Holds(x: Loop, l: nat, requests: Requests) {
    && Distinct(x.completed) && Distinct(x.draining)
    && (forall id :: id in x.completed <==> InPhase(requests, id, Completed) && requests[id].loop == l)
    && (forall id :: id in x.draining <==> InPhase(requests, id, Draining) && requests[id].loop == l)
    && forall id :: x.cancelling == Some(id) <==> InPhase(requests, id, Cancelling) && requests[id].loop == l
  }

  /** A request was executed, or cancelled instead. */
  predicate RanOrCancelled(q: Request) {
    (q.work == Null && q.runs == 1 && q.cancels == 0) || (q.work == Cancelled && q.runs == 0 && q.cancels > 0)
  }

  /** What a request has been through, by phase. */
  predicate ValidRequest(q: Request) {
    match q.phase
    case Queued => q.linked && q.work == Callback && !q.slow && q.runs == q.cancels == q.dones == 0
    case Pending => q.linked && q.work == Callback && q.slow && q.runs == q.cancels == q.dones == 0
    case Active(_) => !q.linked && q.work == Callback && q.runs == 1 && q.cancels == q.dones == 0
    case Completed => q.linked && RanOrCancelled(q) && q.dones == 0
    case Draining => q.linked && RanOrCancelled(q) && q.dones == 0
    case Cancelling => q.linked && q.work != Null && q.runs == 0 && q.cancels > 0 && q.dones == 0
    case Done => RanOrCancelled(q) && q.dones == 1 && q.status == Some(q.cancels > 0)
  }

  ghost predicate RequestInv(requests: Requests) {
    forall id :: id in requests ==> ValidRequest(requests[id])
  }

  /** When every worker waits unsignalled, nothing is queued. */
  ghost predicate NoLostWakeup(workers: seq<Worker>, queue: seq<Item>) {
    (forall i :: 0 <= i < |workers| ==> workers[i] == Waiting(false)) ==> queue == []
  }

  ghost predicate Inv(p: Pool) {
    && QueueInv(p.queue, p.pending, p.requests)
    && CountInv(p.workers, p.idle, p.slowRunning)
    && WorkerInv(p.workers, p.requests)
    && LoopInv(p.loops, p.requests)
    && RequestInv(p.requests)
    && NoLostWakeup(p.workers, p.queue)
  }

  // Counting

  lemma {:induction false} CountUpdate(ws: seq<Worker>, i: nat, w: Worker)
    requires i < |ws|
    ensures CountWaiting(ws[i := w]) ==
      CountWaiting(ws) - (if ws[i].Waiting? then 1 else 0) + if w.Waiting? then 1 else 0
    ensures CountSlow(ws[i := w]) ==
      CountSlow(ws) - (if HoldsSlowSlot(ws[i]) then 1 else 0) + if HoldsSlowSlot(w) then 1 else 0
  {
    if i > 0 {
      CountUpdate(ws[1..], i - 1, w);
      assert ws[i := w][1..] == ws[1..][i - 1 := w];
    } else {
      assert ws[i := w][1..] == ws[1..];
    }
  }

  lemma {:induction false} CountsWhenAllWait(ws: seq<Worker>)
    requires forall i :: 0 <= i < |ws| ==> ws[i] == Waiting(false)
    ensures CountWaiting(ws) == |ws| && CountSlow(ws) == 0
  {
    if ws != [] {
      CountsWhenAllWait(ws[1..]);
    }
  }

  lemma {:induction false} CountPositive(ws: seq<Worker>, i: nat)
    requires i < |ws|
    ensures ws[i].Waiting? ==> CountWaiting(ws) > 0
    ensures HoldsSlowSlot(ws[i]) ==> CountSlow(ws) > 0
  {
    if i > 0 {
      CountPositive(ws[1..], i - 1);
    }
  }

  lemma {:induction false} WithoutDistinct<T(!new)>(s: seq<T>, x: T)
    requires Distinct(s)
    ensures Distinct(Without(s, x))
  {
    if s != [] {
      WithoutDistinct(s[1..], x);
      assert s[0] !in s[1..];
    }
  }

  // Frames: which part of the invariant a change of one request leaves alone

  predicate QueuePhase(f: Phase) { f.Queued? || f.Pending? }

  predicate LoopPhase(f: Phase) { f.Completed? || f.Draining? || f.Cancelling? }

  lemma QueueFrame(queue: seq<Item>, pending: seq<nat>, requests: Requests, id: nat, q: Request)
    requires QueueInv(queue, pending, requests) && (id in requests ==> !QueuePhase(requests[id].phase))
    requires !QueuePhase(q.phase)
    ensures QueueInv(queue, pending, requests[id := q])
  {
    forall i ensures InPhase(requests[id := q], i, Queued) <==> InPhase(requests, i, Queued) {
    }
    forall i ensures InPhase(requests[id := q], i, Pending) <==> InPhase(requests, i, Pending) {
    }
  }

  lemma LoopFrame(loops: seq<Loop>, requests: Requests, id: nat, q: Request)
    requires LoopInv(loops, requests) && (id in requests ==> !LoopPhase(requests[id].phase)) && !LoopPhase(q.phase)
    requires q.loop < |loops|
    ensures LoopInv(loops, requests[id := q])
  {
    forall l | 0 <= l < |loops| ensures Holds(loops[l], l, requests[id := q]) {
      assert Holds(loops[l], l, requests);
    }
  }

  lemma WorkerFrame(workers: seq<Worker>, requests: Requests, id: nat, q: Request)
    requires WorkerInv(workers, requests) && (id in requests ==> !requests[id].phase.Active?) && !q.phase.Active?
    ensures WorkerInv(workers, requests[id := q])
  {
  }

  /** A loop and one of its requests change together. */
  lemma LoopChange(loops: seq<Loop>, requests: Requests, id: nat, q: Request, l: nat, x: Loop)
    requires LoopInv(loops, requests) && l < |loops| && q.loop == l && (id in requests ==> requests[id].loop == l)
    requires Holds(x, l, requests[id := q])
    ensures LoopInv(loops[l := x], requests[id := q])
  {
    forall k | 0 <= k < |loops| && k != l ensures Holds(loops[k], k, requests[id := q]) {
      assert Holds(loops[k], k, requests);
    }
  }

  // Steps keep the invariant

  lemma SignalKeeps(p: Pool, j: nat)
    requires WorkerInv(p.workers, p.requests) && CountInv(p.workers, p.idle, p.slowRunning) && CanWake(p.workers, j)
    ensures var r := SignalIfIdle(p, j);
            && r == p.(workers := r.workers) && WorkerInv(r.workers, r.requests)
            && CountInv(r.workers, r.idle, r.slowRunning) && NoLostWakeup(r.workers, r.queue)
  {
    var r := SignalIfIdle(p, j);
    if p.idle > 0 && j < |p.workers| && p.workers[j] == Waiting(false) {
      CountUpdate(p.workers, j, Waiting(true));
      assert r.workers[j] != Waiting(false);
    }
    if forall i :: 0 <= i < |p.workers| ==> p.workers[i] == Waiting(false) {
      CountsWhenAllWait(p.workers);
    }
  }

  lemma PostKeeps(p: Pool, id: nat, loop: nat, slow: bool, j: nat)
    requires Inv(p) && id !in p.requests && loop < |p.loops| && CanWake(p.workers, j)
    ensures Inv(Post(p, id, loop, slow, j))
  {
    var q := Request(loop, slow, true, Callback, if slow then Pending else Queued, 0, 0, 0, None);
    var queue, pending := p.queue, p.pending;
    if slow {
      pending := p.pending + [id];
      if SlowMarker !in p.queue {
        queue := p.queue + [SlowMarker];
      }
    } else {
      queue := p.queue + [Work(id)];
    }
    var p1 := SetRequest(p, id, q).(queue := queue, pending := pending);
    WorkerFrame(p.workers, p.requests, id, q);
    LoopFrame(p.loops, p.requests, id, q);
    QueueAfterPost(p, id, q, queue, pending);
    hide QueueInv, WorkerInv, LoopInv, CountInv;
    if slow && SlowMarker in p.queue {
      SomeoneAwake(p);
    } else {
      SignalKeeps(p1, j);
    }
  }

  lemma QueueAfterPost(p: Pool, id: nat, q: Request, queue: seq<Item>, pending: seq<nat>)
    requires QueueInv(p.queue, p.pending, p.requests) && id !in p.requests
    requires
      if q.phase.Pending? then
        pending == p.pending + [id] && queue == (if SlowMarker in p.queue then p.queue else p.queue + [SlowMarker])
      else q.phase.Queued? && pending == p.pending && queue == p.queue + [Work(id)]
    ensures QueueInv(queue, pending, p.requests[id := q])
  {
    var requests := p.requests[id := q];
    forall i ensures Work(i) in queue <==> InPhase(requests, i, Queued) {
      assert Work(i) in p.queue <==> InPhase(p.requests, i, Queued);
    }
    forall i ensures i in pending <==> InPhase(requests, i, Pending) {
      assert i in p.pending <==> InPhase(p.requests, i, Pending);
    }
    assert Work(id) !in p.queue && id !in p.pending;
  }

  /** With something queued, some worker is not asleep unsignalled. */
  lemma SomeoneAwake(p: Pool)
    requires Inv(p) && p.queue != []
    ensures exists i :: 0 <= i < |p.workers| && p.workers[i] != Waiting(false)
  {
  }

  lemma AwakeKeeps(ws: seq<Worker>, queue: seq<Item>, i: nat)
    requires i < |ws| && ws[i] != Waiting(false)
    ensures NoLostWakeup(ws, queue)
  {
  }

  lemma WaitKeeps(p: Pool, i: nat)
    requires Inv(p) && i < |p.workers| && p.workers[i] == Ready && Blocked(p)
    ensures Inv(SetWorker(p, i, Waiting(false)).(idle := p.idle + 1))
  {
    var ws := p.workers[i := Waiting(false)];
    CountUpdate(p.workers, i, Waiting(false));
    if forall k :: 0 <= k < |ws| ==> ws[k] == Waiting(false) {
      CountsWhenAllWait(ws);
    }
    hide LoopInv, QueueInv;
  }

  /** Worker `i` takes request `id`, which has just left its queue. */
  lemma StartKeeps(p: Pool, i: nat, id: nat)
    requires i < |p.workers| && p.workers[i] == Ready && id in p.requests && QueuePhase(p.requests[id].phase)
    requires WorkerInv(p.workers, p.requests) && LoopInv(p.loops, p.requests) && RequestInv(p.requests)
    ensures var r := Start(p, i, id);
            && WorkerInv(r.workers, r.requests) && LoopInv(r.loops, r.requests) && RequestInv(r.requests)
            && NoLostWakeup(r.workers, r.queue)
  {
    hide WorkerInv, LoopInv, NoLostWakeup;
    var q := p.requests[id];
    var q' := q.(linked := false, phase := Active(i), runs := q.runs + 1);
    assert ValidRequest(q);
    WorkerStarts(p.workers, p.requests, i, id, q');
    HasLoop(p.loops, p.requests, id);
    LoopFrame(p.loops, p.requests, id, q');
    AwakeKeeps(Start(p, i, id).workers, p.queue, i);
  }

  lemma HasLoop(loops: seq<Loop>, requests: Requests, id: nat)
    requires LoopInv(loops, requests) && id in requests
    ensures requests[id].loop < |loops|
  {
  }

  lemma WorkerStarts(workers: seq<Worker>, requests: Requests, i: nat, id: nat, q: Request)
    requires WorkerInv(workers, requests) && i < |workers| && workers[i] == Ready
    requires id in requests && !requests[id].phase.Active? && q.phase == Active(i)
    ensures WorkerInv(workers[i := Running(id, q.slow)], requests[id := q])
  {
  }

  lemma StartCounts(p: Pool, i: nat, id: nat, extra: int)
    requires i < |p.workers| && p.workers[i] == Ready && id in p.requests
    requires CountInv(p.workers, p.idle, p.slowRunning)
    requires p.requests[id].slow ==> p.slowRunning < Threshold(|p.workers|)
    requires extra == if p.requests[id].slow then 1 else 0
    ensures CountInv(Start(p, i, id).workers, p.idle, p.slowRunning + extra)
  {
    CountUpdate(p.workers, i, Running(id, p.requests[id].slow));
  }

  lemma TakeWorkKeeps(p: Pool, i: nat)
    requires Inv(p) && i < |p.workers| && p.workers[i] == Ready && p.queue != [] && p.queue[0].Work?
    ensures Inv(Start(p.(queue := p.queue[1..]), i, p.queue[0].id))
  {
    var id := p.queue[0].id;
    assert p.queue[0] == Work(id) && Work(id) in p.queue;
    var p1 := p.(queue := p.queue[1..]);
    var q := p.requests[id];
    QueueAfterTake(p.queue, p.pending, p.requests, id, q.(linked := false, phase := Active(i), runs := q.runs + 1));
    StartKeeps(p1, i, id);
    StartCounts(p1, i, id, 0);
  }

  lemma QueueAfterTake(queue: seq<Item>, pending: seq<nat>, requests: Requests, id: nat, q: Request)
    requires QueueInv(queue, pending, requests) && queue != [] && queue[0] == Work(id) && q.phase.Active?
    ensures QueueInv(queue[1..], pending, requests[id := q])
  {
    assert queue == [queue[0]] + queue[1..];
    assert Work(id) in queue && Work(id) !in queue[1..];
    forall k ensures Work(k) in queue[1..] <==> InPhase(requests[id := q], k, Queued) {
      assert Work(k) in queue <==> InPhase(requests, k, Queued);
    }
    forall k ensures k in pending <==> InPhase(requests[id := q], k, Pending) {
      assert k in pending <==> InPhase(requests, k, Pending);
    }
  }

  lemma QueueAfterTakeSlow(queue: seq<Item>, pending: seq<nat>, requests: Requests, q: Request)
    requires QueueInv(queue, pending, requests) && queue != [] && queue[0] == SlowMarker && pending != []
    requires q.phase.Active?
    ensures var rest := queue[1..] + (if pending[1..] == [] then [] else [SlowMarker]);
      QueueInv(rest, pending[1..], requests[pending[0] := q])
  {
    var id := pending[0];
    assert queue == [queue[0]] + queue[1..] && pending == [id] + pending[1..];
    assert id in pending && id !in pending[1..] && SlowMarker !in queue[1..];
    var queue' := queue[1..] + if pending[1..] == [] then [] else [SlowMarker];
    forall k ensures Work(k) in queue' <==> InPhase(requests[id := q], k, Queued) {
      assert Work(k) in queue <==> InPhase(requests, k, Queued);
    }
    forall k ensures k in pending[1..] <==> InPhase(requests[id := q], k, Pending) {
      assert k in pending <==> InPhase(requests, k, Pending);
    }
  }

  /** The state after a slow request is taken, before anyone is signalled. */
  function SlowTaken(p: Pool, i: nat): Pool
    requires i < |p.workers| && p.queue != [] && p.pending != []
  {
    var r := Start(p.(queue := p.queue[1..], pending := p.pending[1..], slowRunning := p.slowRunning + 1), i,
        p.pending[0]);
    r.(queue := r.queue + if r.pending == [] then [] else [SlowMarker])
  }

  lemma SlowTakenKeeps(p: Pool, i: nat)
    requires Inv(p) && i < |p.workers| && p.workers[i] == Ready && p.queue != [] && p.queue[0] == SlowMarker
    requires p.slowRunning < Threshold(|p.workers|) && p.pending != []
    ensures Inv(SlowTaken(p, i))
  {
    hide WorkerInv, LoopInv, CountInv, NoLostWakeup, QueueInv;
    var id := p.pending[0];
    TakesPending(p);
    var p0 := p.(queue := p.queue[1..], pending := p.pending[1..]);
    var p1 := p0.(slowRunning := p.slowRunning + 1);
    var q := p.requests[id];
    assert ValidRequest(q);
    QueueAfterTakeSlow(p.queue, p.pending, p.requests, q.(linked := false, phase := Active(i), runs := q.runs + 1));
    StartKeeps(p1, i, id);
    StartCounts(p0, i, id, 1);
    AwakeKeeps(SlowTaken(p, i).workers, SlowTaken(p, i).queue, i);
    Assemble(SlowTaken(p, i));
  }

  lemma TakeSlowKeeps(p: Pool, i: nat, j: nat)
    requires Inv(p) && i < |p.workers| && p.workers[i] == Ready && p.queue != [] && p.queue[0] == SlowMarker
    requires p.slowRunning < Threshold(|p.workers|) && p.pending != [] && CanWake(p.workers, j)
    ensures Inv(TakeSlow(p.(queue := p.queue[1..]), i, j))
  {
    hide WorkerInv, LoopInv, CountInv, NoLostWakeup, QueueInv, RequestInv;
    SlowTakenKeeps(p, i);
    var r := SlowTaken(p, i);
    if p.pending[1..] == [] {
      assert r.queue == p.queue[1..];
    } else {
      SignalKeeps(r, j);
    }
  }

  lemma Assemble(p: Pool)
    requires QueueInv(p.queue, p.pending, p.requests) && CountInv(p.workers, p.idle, p.slowRunning)
    requires WorkerInv(p.workers, p.requests) && LoopInv(p.loops, p.requests)
    requires RequestInv(p.requests) && NoLostWakeup(p.workers, p.queue)
    ensures Inv(p)
  {
  }

  lemma RequeueKeeps(p: Pool)
    requires QueueInv(p.queue, p.pending, p.requests) && p.queue != [] && p.queue[0] == SlowMarker
    ensures QueueInv(p.queue[1..] + [SlowMarker], p.pending, p.requests)
    ensures p.pending == [] ==> QueueInv(p.queue[1..], p.pending, p.requests)
  {
    assert p.queue == [p.queue[0]] + p.queue[1..];
    assert SlowMarker !in p.queue[1..];
    forall k ensures Work(k) in p.queue[1..] <==> InPhase(p.requests, k, Queued) {
      assert Work(k) in p.queue <==> InPhase(p.requests, k, Queued);
    }
  }

  lemma IterateKeeps(p: Pool, i: nat, j: nat)
    requires Inv(p) && i < |p.workers| && p.workers[i] == Ready && CanWake(p.workers, j)
    ensures Inv(Iterate(p, i, j))
  {
    if Blocked(p) {
      WaitKeeps(p, i);
    } else if p.queue[0] == SlowMarker {
      RequeueKeeps(p);
      if p.slowRunning < Threshold(|p.workers|) && p.pending != [] {
        TakeSlowKeeps(p, i, j);
      } else {
        AwakeKeeps(p.workers, Iterate(p, i, j).queue, i);
        hide QueueInv, WorkerInv, LoopInv, CountInv;
      }
    } else {
      TakeWorkKeeps(p, i);
    }
  }

  lemma WakeKeeps(p: Pool, i: nat)
    requires Inv(p) && i < |p.workers| && p.workers[i].Waiting?
    ensures Inv(Wake(p, i))
  {
    CountUpdate(p.workers, i, Ready);
    AwakeKeeps(Wake(p, i).workers, p.queue, i);
    hide LoopInv, QueueInv;
  }

  lemma FinishKeeps(p: Pool, i: nat)
    requires Inv(p) && i < |p.workers| && p.workers[i].Running?
    ensures Inv(Finish(p, i))
  {
    hide QueueInv, Holds;
    var id := p.workers[i].id;
    var q := p.requests[id];
    var q' := q.(linked := true, work := Null, phase := Completed);
    var x := p.loops[q.loop];
    CountUpdate(p.workers, i, Finishing(p.workers[i].slow));
    QueueFrame(p.queue, p.pending, p.requests, id, q');
    AwakeKeeps(Finish(p, i).workers, p.queue, i);
    CompletedGrows(x, q.loop, p.requests, id, q');
    LoopChange(p.loops, p.requests, id, q', q.loop, x.(completed := x.completed + [id]));
  }

  /** A request of the loop that no list of it held joins its completed ones. */
  lemma CompletedGrows(x: Loop, l: nat, requests: Requests, id: nat, q: Request)
    requires Holds(x, l, requests) && id in requests && (id in requests ==> !LoopPhase(requests[id].phase))
    requires requests[id].loop == l == q.loop && q.phase.Completed?
    ensures Holds(x.(completed := x.completed + [id]), l, requests[id := q])
  {
    assert id !in x.completed;
  }

  lemma RelockKeeps(p: Pool, i: nat)
    requires Inv(p) && i < |p.workers| && p.workers[i].Finishing?
    ensures Inv(Relock(p, i))
  {
    CountUpdate(p.workers, i, Ready);
    AwakeKeeps(Relock(p, i).workers, p.queue, i);
    hide LoopInv, QueueInv;
  }

  /** The loop of a request is free to work on it, and has not seen it done. */
  ghost predicate MayCancel(p: Pool, id: nat) {
    && id in p.requests && !p.requests[id].phase.Done? && p.requests[id].loop < |p.loops|
    && p.loops[p.requests[id].loop].cancelling.None?
  }

  /** Cancellation succeeds exactly for requests no worker has taken, or cancelled before. */
  lemma CancellableMeans(p: Pool, id: nat)
    requires Inv(p) && MayCancel(p, id)
    ensures Cancellable(p.requests[id]) <==> p.requests[id].runs == 0
  {
    assert Holds(p.loops[p.requests[id].loop], p.requests[id].loop, p.requests);
  }

  /** What the invariant says of a request in the hands of a loop. */
  lemma LoopFacts(p: Pool, l: nat, id: nat)
    requires Inv(p) && l < |p.loops|
    requires id in p.loops[l].completed || id in p.loops[l].draining || p.loops[l].cancelling == Some(id)
    ensures Holds(p.loops[l], l, p.requests) && id in p.requests && p.requests[id].loop == l
    ensures LoopPhase(p.requests[id].phase)
    ensures id in p.loops[l].completed ==> p.requests[id].phase.Completed?
    ensures id in p.loops[l].draining ==> p.requests[id].phase.Draining?
    ensures p.loops[l].cancelling == Some(id) ==> p.requests[id].phase.Cancelling?
  {
    hide QueueInv, WorkerInv, CountInv, NoLostWakeup, RequestInv;
    assert Holds(p.loops[l], l, p.requests);
  }

  lemma TryCancelKeeps(p: Pool, id: nat)
    requires Inv(p) && MayCancel(p, id)
    ensures Inv(TryCancel(p, id))
  {
    hide QueueInv, WorkerInv, CountInv, Holds, QueuePhase, LoopPhase;
    var q := p.requests[id];
    CancellableMeans(p, id);
    if Cancellable(q) {
      var q' := q.(phase := Cancelling, cancels := q.cancels + 1);
      var x := p.loops[q.loop];
      assert Holds(x, q.loop, p.requests);
      QueueAfterCancel(p.queue, p.pending, p.requests, id, q');
      WorkerFrame(p.workers, p.requests, id, q');
      LoopAfterCancel(x, q.loop, p.requests, id, q');
      LoopChange(p.loops, p.requests, id, q', q.loop,
          Loop(Without(x.completed, id), Without(x.draining, id), Some(id)));
    }
  }

  lemma QueueAfterCancel(queue: seq<Item>, pending: seq<nat>, requests: Requests, id: nat, q: Request)
    requires QueueInv(queue, pending, requests) && q.phase.Cancelling?
    ensures QueueInv(Without(queue, Work(id)), Without(pending, id), requests[id := q])
  {
    WithoutDistinct(queue, Work(id));
    WithoutDistinct(pending, id);
    forall k ensures Work(k) in Without(queue, Work(id)) <==> InPhase(requests[id := q], k, Queued) {
      assert Work(k) in queue <==> InPhase(requests, k, Queued);
    }
    forall k ensures k in Without(pending, id) <==> InPhase(requests[id := q], k, Pending) {
      assert k in pending <==> InPhase(requests, k, Pending);
    }
    if Without(pending, id) != [] {
      assert Without(pending, id)[0] in Without(pending, id);
    }
  }

  lemma LoopAfterCancel(x: Loop, l: nat, requests: Requests, id: nat, q: Request)
    requires Holds(x, l, requests) && id in requests && requests[id].loop == l == q.loop && q.phase.Cancelling?
    requires x.cancelling.None?
    ensures Holds(Loop(Without(x.completed, id), Without(x.draining, id), Some(id)), l, requests[id := q])
  {
    var r := requests[id := q];
    WithoutDistinct(x.completed, id);
    WithoutDistinct(x.draining, id);
    forall k ensures k in Without(x.completed, id) <==> InPhase(r, k, Completed) && r[k].loop == l {
      assert k in x.completed <==> InPhase(requests, k, Completed) && requests[k].loop == l;
    }
    forall k ensures k in Without(x.draining, id) <==> InPhase(r, k, Draining) && r[k].loop == l {
      assert k in x.draining <==> InPhase(requests, k, Draining) && requests[k].loop == l;
    }
    forall k ensures InPhase(r, k, Cancelling) && r[k].loop == l <==> k == id {
      assert x.cancelling == Some(k) <==> InPhase(requests, k, Cancelling) && requests[k].loop == l;
    }
  }

  lemma FinishCancelKeeps(p: Pool, l: nat)
    requires Inv(p) && l < |p.loops| && p.loops[l].cancelling.Some?
    ensures Inv(FinishCancel(p, l))
  {
    hide QueueInv, WorkerInv, CountInv, Holds, LoopInv;
    var x := p.loops[l];
    var id := x.cancelling.value;
    LoopFacts(p, l, id);
    var q := p.requests[id];
    var q' := q.(work := Cancelled, phase := Completed);
    QueueFrame(p.queue, p.pending, p.requests, id, q');
    WorkerFrame(p.workers, p.requests, id, q');
    LoopAfterFinishCancel(x, l, p.requests, id, q');
    LoopChange(p.loops, p.requests, id, q', l, x.(completed := x.completed + [id], cancelling := None));
  }

  lemma LoopAfterFinishCancel(x: Loop, l: nat, requests: Requests, id: nat, q: Request)
    requires Holds(x, l, requests) && x.cancelling == Some(id) && q.loop == l && q.phase.Completed?
    ensures Holds(x.(completed := x.completed + [id], cancelling := None), l, requests[id := q])
  {
    assert InPhase(requests, id, Cancelling) && id !in x.completed;
  }

  lemma StartDrainKeeps(p: Pool, l: nat)
    requires Inv(p) && l < |p.loops| && p.loops[l].draining == []
    ensures Inv(StartDrain(p, l))
  {
    hide Holds, CountInv, QueueInv, LoopInv;
    var x, r := p.loops[l], StartDrain(p, l);
    forall id | id in x.completed ensures InPhase(p.requests, id, Completed) {
      LoopFacts(p, l, id);
    }
    DrainQueueFrame(p.queue, p.pending, p.requests, r.requests);
    DrainLoops(p.loops, p.requests, l, r.requests);
  }

  lemma DrainLoops(loops: seq<Loop>, requests: Requests, l: nat, requests': Requests)
    requires LoopInv(loops, requests) && l < |loops| && loops[l].draining == []
    requires requests' ==
      map id | id in requests :: if id in loops[l].completed then requests[id].(phase := Draining) else requests[id]
    ensures LoopInv(loops[l := loops[l].(completed := [], draining := loops[l].completed)], requests')
  {
    var loops' := loops[l := loops[l].(completed := [], draining := loops[l].completed)];
    assert Holds(loops[l], l, requests);
    forall k | 0 <= k < |loops| ensures Holds(loops'[k], k, requests') {
      assert Holds(loops[k], k, requests);
    }
  }

  /** Requests that only change from completed to draining do not concern the queues. */
  lemma DrainQueueFrame(queue: seq<Item>, pending: seq<nat>, requests: Requests, requests': Requests)
    requires QueueInv(queue, pending, requests) && requests'.Keys == requests.Keys
    requires forall id :: id in requests ==>
      requests'[id] == requests[id] || (requests[id].phase.Completed? && requests'[id].phase.Draining?)
    ensures QueueInv(queue, pending, requests')
  {
    forall id ensures InPhase(requests', id, Queued) <==> InPhase(requests, id, Queued) {
    }
    forall id ensures InPhase(requests', id, Pending) <==> InPhase(requests, id, Pending) {
    }
  }

  lemma RunDoneKeeps(p: Pool, l: nat)
    requires Inv(p) && l < |p.loops| && p.loops[l].draining != []
    ensures Inv(RunDone(p, l))
  {
    hide QueueInv, WorkerInv, CountInv, Holds, LoopInv;
    var x := p.loops[l];
    var id := x.draining[0];
    LoopFacts(p, l, id);
    var q := p.requests[id];
    var q' := q.(phase := Done, dones := q.dones + 1, status := Some(q.work == Cancelled));
    QueueFrame(p.queue, p.pending, p.requests, id, q');
    WorkerFrame(p.workers, p.requests, id, q');
    LoopAfterDone(x, l, p.requests, id, q');
    LoopChange(p.loops, p.requests, id, q', l, x.(draining := x.draining[1..]));
  }

  lemma LoopAfterDone(x: Loop, l: nat, requests: Requests, id: nat, q: Request)
    requires Holds(x, l, requests) && x.draining != [] && x.draining[0] == id && q.loop == l && q.phase.Done?
    ensures Holds(x.(draining := x.draining[1..]), l, requests[id := q])
  {
    assert x.draining == [id] + x.draining[1..];
    assert id in x.draining && id !in x.draining[1..];
  }

  // Runs

  datatype Step =
    | DoPost(id: nat, loop: nat, slow: bool, j: nat)
    | DoIterate(i: nat, j: nat)
    | DoWake(i: nat)
    | DoFinish(i: nat)
    | DoRelock(i: nat)
    | DoTryCancel(id: nat)
    | DoFinishCancel(l: nat)
    | DoStartDrain(l: nat)
    | DoRunDone(l: nat)

  /** The step is possible in `p`. */
  ghost predicate Enabled(p: Pool, step: Step) {
    match step
    case DoPost(id, loop, _, j) => id !in p.requests && loop < |p.loops| && CanWake(p.workers, j)
    case DoIterate(i, j) => i < |p.workers| && p.workers[i] == Ready && CanWake(p.workers, j)
    case DoWake(i) => i < |p.workers| && p.workers[i].Waiting?
    case DoFinish(i) => i < |p.workers| && p.workers[i].Running?
    case DoRelock(i) => i < |p.workers| && p.workers[i].Finishing?
    case DoTryCancel(id) => MayCancel(p, id)
    case DoFinishCancel(l) => l < |p.loops| && p.loops[l].cancelling.Some?
    case DoStartDrain(l) => l < |p.loops| && p.loops[l].draining == [] && p.loops[l].cancelling.None?
    case DoRunDone(l) => l < |p.loops| && p.loops[l].draining != [] && p.loops[l].cancelling.None?
  }

  function Take(p: Pool, step: Step): (r: Pool)
    requires Enabled(p, step)
  {
    match step
    case DoPost(id, loop, slow, j) => Post(p, id, loop, slow, j)
    case DoIterate(i, j) => Iterate(p, i, j)
    case DoWake(i) => Wake(p, i)
    case DoFinish(i) => Finish(p, i)
    case DoRelock(i) => Relock(p, i)
    case DoTryCancel(id) => TryCancel(p, id)
    case DoFinishCancel(l) => FinishCancel(p, l)
    case DoStartDrain(l) => StartDrain(p, l)
    case DoRunDone(l) => RunDone(p, l)
  }

  /** Freshly started threads about to look at an empty queue. */
  function Initial(nthreads: nat, nloops: nat): Pool {
    Pool([], [], 0, 0, seq(nthreads, _ => Ready), seq(nloops, _ => Loop([], [], None)), map[])
  }

  lemma InitialInv(nthreads: nat, nloops: nat)
    requires nthreads > 0
    ensures Inv(Initial(nthreads, nloops))
  {
    NoneCounted(Initial(nthreads, nloops).workers);
  }

  lemma {:induction false} NoneCounted(ws: seq<Worker>)
    requires forall i :: 0 <= i < |ws| ==> ws[i] == Ready
    ensures CountWaiting(ws) == 0 && CountSlow(ws) == 0
  {
    if ws != [] {
      NoneCounted(ws[1..]);
    }
  }

  lemma TakeKeeps(p: Pool, step: Step)
    requires Inv(p) && Enabled(p, step)
    ensures Inv(Take(p, step))
  {
    hide Inv;
    match step
    case DoPost(id, loop, slow, j) => PostKeeps(p, id, loop, slow, j);
    case DoIterate(i, j) => IterateKeeps(p, i, j);
    case DoWake(i) => WakeKeeps(p, i);
    case DoFinish(i) => FinishKeeps(p, i);
    case DoRelock(i) => RelockKeeps(p, i);
    case DoTryCancel(id) => TryCancelKeeps(p, id);
    case DoFinishCancel(l) => FinishCancelKeeps(p, l);
    case DoStartDrain(l) => StartDrainKeeps(p, l);
    case DoRunDone(l) => RunDoneKeeps(p, l);
  }

  ghost predicate IsRun(states: seq<Pool>, steps: seq<Step>, nthreads: nat, nloops: nat) {
    && |states| == |steps| + 1 && states[0] == Initial(nthreads, nloops)
    && forall i :: 0 <= i < |steps| ==> Enabled(states[i], steps[i]) && states[i + 1] == Take(states[i], steps[i])
  }

  /** Every interleaving keeps the invariant. */
  lemma {:induction false} RunsKeepInv(states: seq<Pool>, steps: seq<Step>, nthreads: nat, nloops: nat, n: nat)
    requires nthreads > 0 && IsRun(states, steps, nthreads, nloops) && n < |states|
    ensures Inv(states[n])
  {
    hide Inv, Take;
    if n == 0 {
      InitialInv(nthreads, nloops);
    } else {
      RunsKeepInv(states, steps, nthreads, nloops, n - 1);
      TakeKeeps(states[n - 1], steps[n - 1]);
    }
  }

  /**
    In every state of every interleaving: slow work running is what the counter says and at
    most half of the threads rounded up; pending slow work is announced in the queue; a
    request is executed at most once, and never once a cancellation of it succeeded; its
    done callback runs at most once, after it ran or was cancelled and with the matching
    status; and the workers are never all asleep while something is queued.
   */
  lemma PoolIsSafe(states: seq<Pool>, steps: seq<Step>, nthreads: nat, nloops: nat, n: nat)
    requires nthreads > 0 && IsRun(states, steps, nthreads, nloops) && n < |states|
    ensures var p := states[n];
            && p.slowRunning == CountSlow(p.workers) <= (|p.workers| + 1) / 2
            && (p.pending != [] ==> SlowMarker in p.queue)
            && (forall id :: id in p.requests ==>
                  var q := p.requests[id];
                  && q.runs <= 1 && q.dones <= 1 && (q.cancels > 0 ==> q.runs == 0)
                  && (q.dones == 1 ==> q.runs == (if q.cancels > 0 then 0 else 1) && q.status == Some(q.cancels > 0)))
            && ((forall i :: 0 <= i < |p.workers| ==> p.workers[i] == Waiting(false)) ==>
              p.queue == [] && p.pending == [])
  {
    RunsKeepInv(states, steps, nthreads, nloops, n);
    var p := states[n];
    assert forall id :: id in p.requests ==> ValidRequest(p.requests[id]);
  }

  // Progress

  /** A step that is neither a submission, a cancellation nor a spurious wakeup. */
  ghost predicate Internal(p: Pool, step: Step) {
    && Enabled(p, step)
    && !step.DoPost? && !step.DoTryCancel?
    && (step.DoWake? ==> p.workers[step.i].signalled)
    && (step.DoStartDrain? ==> p.loops[step.l].completed != [])
  }

  function WorkerWeight(w: Worker): nat {
    match w
    case Waiting(signalled) => if signalled then 2 else 0
    case Ready => 1
    case Running(_, _) => 3
    case Finishing(_) => 3
  }

  function WorkersWeight(ws: seq<Worker>): (n: nat) {
    if ws == [] then 0 else WorkersWeight(ws[1..]) + WorkerWeight(ws[0])
  }

  function CountRunning(ws: seq<Worker>): (n: nat) {
    if ws == [] then 0 else CountRunning(ws[1..]) + if ws[0].Running? then 1 else 0
  }

  function LoopWeight(x: Loop): nat {
    2 * |x.completed| + |x.draining| + if x.cancelling.Some? then 3 else 0
  }

  function LoopsWeight(xs: seq<Loop>): (n: nat) {
    if xs == [] then 0 else LoopsWeight(xs[1..]) + LoopWeight(xs[0])
  }

  /** Work that is left for the requests submitted so far. */
  function WorkLeft(p: Pool): nat {
    6 * |p.queue| + 6 * |p.pending| + 4 * CountRunning(p.workers) + LoopsWeight(p.loops)
  }

  /** The slow marker is at the head of the queue and about to be put back. */
  function MarkerInFront(p: Pool): nat {
    if p.queue != [] && p.queue[0] == SlowMarker then 1 else 0
  }

  lemma {:induction false} WeightUpdate(ws: seq<Worker>, i: nat, w: Worker)
    requires i < |ws|
    ensures WorkersWeight(ws[i := w]) == WorkersWeight(ws) - WorkerWeight(ws[i]) + WorkerWeight(w)
    ensures CountRunning(ws[i := w]) ==
      CountRunning(ws) - (if ws[i].Running? then 1 else 0) + if w.Running? then 1 else 0
  {
    if i > 0 {
      WeightUpdate(ws[1..], i - 1, w);
      assert ws[i := w][1..] == ws[1..][i - 1 := w];
    } else {
      assert ws[i := w][1..] == ws[1..];
    }
  }

  lemma {:induction false} LoopWeightUpdate(xs: seq<Loop>, l: nat, x: Loop)
    requires l < |xs|
    ensures LoopsWeight(xs[l := x]) == LoopsWeight(xs) - LoopWeight(xs[l]) + LoopWeight(x)
  {
    if l > 0 {
      LoopWeightUpdate(xs[1..], l - 1, x);
      assert xs[l := x][1..] == xs[1..][l - 1 := x];
    } else {
      assert xs[l := x][1..] == xs[1..];
    }
  }

  ghost predicate Less(a: (nat, nat, nat), b: (nat, nat, nat)) {
    a.0 < b.0 || (a.0 == b.0 && (a.1 < b.1 || (a.1 == b.1 && a.2 < b.2)))
  }

  ghost function Measure(p: Pool): (nat, nat, nat) {
    (WorkLeft(p), WorkersWeight(p.workers), MarkerInFront(p))
  }

  lemma IterateDecreases(p: Pool, i: nat, j: nat)
    requires Inv(p) && i < |p.workers| && p.workers[i] == Ready && CanWake(p.workers, j)
    ensures Less(Measure(Iterate(p, i, j)), Measure(p))
  {
    hide QueueInv, WorkerInv, LoopInv, RequestInv, CountInv;
    if Blocked(p) {
      WeightUpdate(p.workers, i, Waiting(false));
    } else if p.queue[0] == SlowMarker && p.slowRunning >= Threshold(|p.workers|) {
      SecondIsWork(p);
    } else if p.queue[0] == SlowMarker && p.pending != [] {
      var id := p.pending[0];
      TakesPending(p);
      WeightUpdate(p.workers, i, Running(id, p.requests[id].slow));
      var ws := p.workers[i := Running(id, p.requests[id].slow)];
      if j < |ws| && ws[j] == Waiting(false) {
        WeightUpdate(ws, j, Waiting(true));
      }
    } else if p.queue[0].Work? {
      TakesQueued(p);
      WeightUpdate(p.workers, i, Running(p.queue[0].id, p.requests[p.queue[0].id].slow));
    }
  }

  lemma TakesPending(p: Pool)
    requires QueueInv(p.queue, p.pending, p.requests) && p.pending != []
    ensures InPhase(p.requests, p.pending[0], Pending)
  {
    assert p.pending[0] in p.pending;
  }

  lemma TakesQueued(p: Pool)
    requires QueueInv(p.queue, p.pending, p.requests) && p.queue != [] && p.queue[0].Work?
    ensures p.queue[0].id in p.requests
  {
    assert p.queue[0] == Work(p.queue[0].id) && p.queue[0] in p.queue;
  }

  /** A marker put back is not seen again before some other request has been taken. */
  lemma SecondIsWork(p: Pool)
    requires QueueInv(p.queue, p.pending, p.requests) && !Blocked(p) && p.queue[0] == SlowMarker
    requires p.slowRunning >= Threshold(|p.workers|)
    ensures |p.queue| > 1 && p.queue[1].Work?
  {
    assert |p.queue| == 1 ==> p.queue == [SlowMarker];
  }

  /** Every internal step brings the pool closer to rest, however the threads interleave. */
  lemma InternalDecreases(p: Pool, step: Step)
    requires Inv(p) && Internal(p, step)
    ensures Less(Measure(Take(p, step)), Measure(p))
  {
    hide QueueInv, WorkerInv, LoopInv, RequestInv, CountInv, NoLostWakeup, Iterate;
    match step
    case DoIterate(i, j) => IterateDecreases(p, i, j);
    case DoWake(i) => WeightUpdate(p.workers, i, Ready);
    case DoFinish(i) =>
      RunningFacts(p, i);
      var l := p.requests[p.workers[i].id].loop;
      WeightUpdate(p.workers, i, Finishing(p.workers[i].slow));
      LoopWeightUpdate(p.loops, l, p.loops[l].(completed := p.loops[l].completed + [p.workers[i].id]));
    case DoRelock(i) => WeightUpdate(p.workers, i, Ready);
    case DoFinishCancel(l) =>
      LoopFacts(p, l, p.loops[l].cancelling.value);
      LoopWeightUpdate(p.loops, l,
          p.loops[l].(completed := p.loops[l].completed + [p.loops[l].cancelling.value], cancelling := None));
    case DoStartDrain(l) =>
      LoopWeightUpdate(p.loops, l, p.loops[l].(completed := [], draining := p.loops[l].completed));
    case DoRunDone(l) =>
      LoopFacts(p, l, p.loops[l].draining[0]);
      LoopWeightUpdate(p.loops, l, p.loops[l].(draining := p.loops[l].draining[1..]));
  }

  lemma RunningFacts(p: Pool, i: nat)
    requires Inv(p) && i < |p.workers| && p.workers[i].Running?
    ensures p.workers[i].id in p.requests && p.requests[p.workers[i].id].loop < |p.loops|
  {
  }

  /** While a request is not done, some internal step is possible. */
  lemma NeverStuck(p: Pool, id: nat) returns (step: Step)
    requires Inv(p) && id in p.requests && !p.requests[id].phase.Done?
    ensures Internal(p, step)
  {
    var q := p.requests[id];
    if q.phase.Queued? || q.phase.Pending? {
      assert p.queue != [] by {
        assert q.phase.Queued? ==> Work(id) in p.queue;
        assert q.phase.Pending? ==> id in p.pending;
      }
      step := SomeWorkerMoves(p);
    } else if q.phase.Active? {
      step := DoFinish(q.phase.worker);
    } else {
      assert Holds(p.loops[q.loop], q.loop, p.requests);
      step := LoopMoves(p, q.loop, id);
    }
  }

  lemma SomeWorkerMoves(p: Pool) returns (step: Step)
    requires Inv(p) && p.queue != []
    ensures Internal(p, step)
  {
    var i :| 0 <= i < |p.workers| && p.workers[i] != Waiting(false);
    match p.workers[i]
    case Ready =>
      var j: nat := if k :| 0 <= k < |p.workers| && p.workers[k] == Waiting(false) then k else 0;
      step := DoIterate(i, j);
    case Waiting(_) => step := DoWake(i);
    case Running(_, _) => step := DoFinish(i);
    case Finishing(_) => step := DoRelock(i);
  }

  lemma LoopMoves(p: Pool, l: nat, id: nat) returns (step: Step)
    requires l < |p.loops|
    requires id in p.loops[l].completed || id in p.loops[l].draining || p.loops[l].cancelling == Some(id)
    ensures Internal(p, step)
  {
    step :=
      if p.loops[l].cancelling.Some? then DoFinishCancel(l)
      else if p.loops[l].draining != [] then DoRunDone(l)
      else DoStartDrain(l);
  }

  /** A pool in which no internal step is possible has run every done callback. */
  lemma QuietMeansDone(p: Pool)
    requires Inv(p) && forall step :: !Internal(p, step)
    ensures forall id :: id in p.requests ==> p.requests[id].dones == 1
  {
    forall id | id in p.requests ensures p.requests[id].dones == 1 {
      assert ValidRequest(p.requests[id]);
      if !p.requests[id].phase.Done? {
        var step := NeverStuck(p, id);
      }
    }
  }

  /** A run of internal steps from any pool. */
  ghost predicate InternalRun(states: seq<Pool>, steps: seq<Step>) {
    && |states| == |steps| + 1
    && forall k :: 0 <= k < |steps| ==> Internal(states[k], steps[k]) && states[k + 1] == Take(states[k], steps[k])
  }

  ghost predicate AllDone(p: Pool) {
    forall id :: id in p.requests ==> p.requests[id].phase.Done? && p.requests[id].dones == 1
  }

  /** The same requests, each with its loop and its kind of work. */
  ghost predicate SameRequests(p: Pool, q: Pool) {
    && q.requests.Keys == p.requests.Keys
    && forall id :: id in p.requests ==>
      q.requests[id].loop == p.requests[id].loop && q.requests[id].slow == p.requests[id].slow
  }

  lemma AllDoneOrMoves(p: Pool) returns (step: Option<Step>)
    requires Inv(p)
    ensures step.None? ==> AllDone(p)
    ensures step.Some? ==> Internal(p, step.value)
  {
    step := None;
    if id :| id in p.requests && !p.requests[id].phase.Done? {
      var s := NeverStuck(p, id);
      step := Some(s);
    } else {
      assert forall id :: id in p.requests ==> ValidRequest(p.requests[id]);
    }
  }

  /**
    Once nothing more is submitted or cancelled, a run of internal steps can stop only with
    every request done; `InternalDecreases` makes every such run finite.
   */
  lemma {:induction false} InternalRunsEnd(states: seq<Pool>, steps: seq<Step>)
    requires InternalRun(states, steps) && Inv(states[0])
    ensures Inv(states[|steps|]) && SameRequests(states[0], states[|steps|])
    ensures AllDone(states[|steps|]) || exists step :: Internal(states[|steps|], step)
    decreases |steps|
  {
    hide Inv, Take, Internal, AllDone;
    if steps == [] {
      var step := AllDoneOrMoves(states[0]);
    } else {
      assert Internal(states[0], steps[0]);
      InternalIsEnabled(states[0], steps[0]);
      TakeKeeps(states[0], steps[0]);
      InternalKeepsRequests(states[0], steps[0]);
      InternalRunsEnd(states[1..], steps[1..]);
    }
  }

  lemma InternalIsEnabled(p: Pool, step: Step)
    requires Internal(p, step)
    ensures Enabled(p, step)
  {
  }

  /** Liveness: from every reachable pool, internal steps bring every request to its done callback. */
  lemma {:induction false} EveryRequestFinishes(p: Pool) returns (states: seq<Pool>, steps: seq<Step>)
    requires Inv(p)
    ensures InternalRun(states, steps) && states[0] == p
    ensures Inv(states[|steps|]) && SameRequests(p, states[|steps|]) && AllDone(states[|steps|])
    decreases WorkLeft(p), WorkersWeight(p.workers), MarkerInFront(p)
  {
    hide Inv, Take, Internal, AllDone, WorkLeft, WorkersWeight, MarkerInFront;
    var step := AllDoneOrMoves(p);
    if step.Some? {
      var q := Take(p, step.value);
      InternalIsEnabled(p, step.value);
      TakeKeeps(p, step.value);
      InternalDecreases(p, step.value);
      InternalKeepsRequests(p, step.value);
      var later, rest := EveryRequestFinishes(q);
      states, steps := [p] + later, [step.value] + rest;
    } else {
      states, steps := [p], [];
    }
  }

  lemma InternalKeepsRequests(p: Pool, step: Step)
    requires Inv(p) && Internal(p, step)
    ensures SameRequests(p, Take(p, step))
  {
    hide WorkerInv, CountInv, LoopInv, RequestInv, NoLostWakeup, QueueInv, Iterate;
    match step
    case DoFinishCancel(l) => LoopFacts(p, l, p.loops[l].cancelling.value);
    case DoRunDone(l) => LoopFacts(p, l, p.loops[l].draining[0]);
    case DoFinish(i) => RunningFacts(p, i);
    case DoIterate(i, j) => IterateKeepsRequests(p, i, j);
    case _ =>
  }

  lemma IterateKeepsRequests(p: Pool, i: nat, j: nat)
    requires Inv(p) && i < |p.workers| && p.workers[i] == Ready && CanWake(p.workers, j)
    ensures SameRequests(p, Iterate(p, i, j))
  {
    hide WorkerInv, CountInv, LoopInv, RequestInv, NoLostWakeup, QueueInv;
    if p.pending != [] {
      TakesPending(p);
    }
    if p.queue != [] && p.queue[0].Work? {
      TakesQueued(p);
    }
  }

  // Order of service

  /** Nowhere does `v` come before `u`. */
  ghost predicate Precedes<T(!new)>(s: seq<T>, u: T, v: T) {
    forall i, j :: 0 <= i < |s| && 0 <= j < |s| && s[i] == u && s[j] == v ==> i < j
  }

  lemma PrecedesTail<T(!new)>(s: seq<T>, u: T, v: T)
    requires Precedes(s, u, v) && s != []
    ensures Precedes(s[1..], u, v)
  {
    forall i, j | 0 <= i < |s| - 1 && 0 <= j < |s| - 1 && s[1..][i] == u && s[1..][j] == v ensures i < j {
      assert s[i + 1] == u && s[j + 1] == v;
    }
  }

  lemma PrecedesMore<T(!new)>(s: seq<T>, u: T, v: T, w: T)
    requires Precedes(s, u, v) && (w != u || v !in s) && u != v
    ensures Precedes(s + [w], u, v)
  {
    var r := s + [w];
    forall i, j | 0 <= i < |r| && 0 <= j < |r| && r[i] == u && r[j] == v ensures i < j {
      assert j < |s| ==> s[j] == v;
      assert i < |s| ==> s[i] == u;
    }
  }

  lemma {:induction false} PrecedesWithout<T(!new)>(s: seq<T>, x: T, u: T, v: T)
    requires Precedes(s, u, v) && u != v
    ensures Precedes(Without(s, x), u, v)
  {
    if s != [] {
      PrecedesTail(s, u, v);
      PrecedesWithout(s[1..], x, u, v);
      var rest := Without(s[1..], x);
      if s[0] != x {
        FrontPrecedes(s, rest, u, v);
      }
    }
  }

  /** Nothing that has to come before the first element is there. */
  lemma NoneBeforeFirst<T(!new)>(s: seq<T>, u: T)
    requires s != [] && Precedes(s, u, s[0])
    ensures u !in s
  {
    forall i | 0 <= i < |s| ensures s[i] != u {
    }
  }

  lemma FrontPrecedes<T(!new)>(s: seq<T>, rest: seq<T>, u: T, v: T)
    requires s != [] && Precedes(s, u, v) && Precedes(rest, u, v) && u != v && forall y :: y in rest ==> y in s[1..]
    ensures Precedes([s[0]] + rest, u, v)
  {
    var r := [s[0]] + rest;
    if s[0] == v {
      NoneBeforeFirst(s, u);
    }
    forall i, j | 0 <= i < |r| && 0 <= j < |r| && r[i] == u && r[j] == v ensures i < j {
      assert i > 0 ==> r[i] == rest[i - 1] && rest[i - 1] in rest;
      if i > 0 && j > 0 {
        assert rest[i - 1] == u && rest[j - 1] == v;
      }
    }
  }

  /** Request `x` waits in front of request `y`, if both still wait in one queue. */
  ghost predicate InFront(p: Pool, x: nat, y: nat) {
    Precedes(p.queue, Work(x), Work(y)) && Precedes(p.pending, x, y)
  }

  lemma InFrontStep(p: Pool, step: Step, x: nat, y: nat)
    requires Enabled(p, step) && x in p.requests && x != y && InFront(p, x, y)
    ensures x in Take(p, step).requests && InFront(Take(p, step), x, y)
  {
    hide Precedes, CanWake, MayCancel;
    var u, v := Work(x), Work(y);
    match step
    case DoPost(id, loop, slow, j) =>
      PrecedesMore(p.queue, u, v, Work(id));
      PrecedesMore(p.queue, u, v, SlowMarker);
      PrecedesMore(p.pending, x, y, id);
    case DoIterate(i, j) =>
      if !Blocked(p) {
        PrecedesTail(p.queue, u, v);
        PrecedesMore(p.queue[1..], u, v, SlowMarker);
        if p.pending != [] {
          PrecedesTail(p.pending, x, y);
        }
      }
    case DoTryCancel(id) =>
      PrecedesWithout(p.queue, Work(id), u, v);
      PrecedesWithout(p.pending, id, x, y);
    case _ =>
  }

  lemma {:induction false} RequestStays(states: seq<Pool>, steps: seq<Step>, nthreads: nat, nloops: nat, a: nat, n: nat,
      x: nat)
    requires IsRun(states, steps, nthreads, nloops) && a <= n < |states| && x in states[a].requests
    ensures x in states[n].requests && states[n].requests[x].slow == states[a].requests[x].slow
    ensures states[n].requests[x].loop == states[a].requests[x].loop
  {
    if a < n {
      RequestStays(states, steps, nthreads, nloops, a, n - 1, x);
      KindStays(states[n - 1], steps[n - 1], x);
    }
  }

  lemma KindStays(p: Pool, step: Step, x: nat)
    requires Enabled(p, step) && x in p.requests
    ensures var r := Take(p, step);
      x in r.requests && r.requests[x].slow == p.requests[x].slow && r.requests[x].loop == p.requests[x].loop
  {
    hide CanWake, MayCancel, Without;
  }

  /** Steps `a` and `b` submit `x` and `y`, in this order and both slow or both not. */
  ghost predicate PostedInOrder(steps: seq<Step>, a: nat, b: nat, x: nat, y: nat) {
    && a < b < |steps| && steps[a].DoPost? && steps[b].DoPost? && steps[a].slow == steps[b].slow
    && steps[a].id == x && steps[b].id == y
  }

  lemma {:induction false} OrderIsKept(states: seq<Pool>, steps: seq<Step>, nthreads: nat, nloops: nat, a: nat, b: nat,
      x: nat, y: nat, n: nat)
    requires nthreads > 0 && IsRun(states, steps, nthreads, nloops) && PostedInOrder(steps, a, b, x, y)
    requires b <= n < |states|
    ensures x in states[n].requests && x != y && InFront(states[n], x, y)
  {
    hide Take, InFront;
    assert Enabled(states[a], steps[a]) && Enabled(states[b], steps[b]);
    PostEnters(states[a], steps[a]);
    RequestStays(states, steps, nthreads, nloops, a + 1, b, x);
    if n == b {
      RunsKeepInv(states, steps, nthreads, nloops, b);
      NotYetQueued(states[b], x, y);
    } else {
      OrderIsKept(states, steps, nthreads, nloops, a, b, x, y, n - 1);
      InFrontStep(states[n - 1], steps[n - 1], x, y);
    }
  }

  lemma PostEnters(p: Pool, step: Step)
    requires Enabled(p, step) && step.DoPost?
    ensures step.id in Take(p, step).requests && Take(p, step).requests[step.id].slow == step.slow
  {
  }

  lemma NotYetQueued(p: Pool, x: nat, y: nat)
    requires Inv(p) && y !in p.requests
    ensures InFront(p, x, y)
  {
    hide CountInv, WorkerInv, LoopInv, RequestInv;
    assert Work(y) !in p.queue && y !in p.pending;
  }

  /** With step `m` a worker begins to execute `y`. */
  ghost predicate StartsAt(states: seq<Pool>, m: nat, y: nat)
    requires m + 1 < |states|
  {
    && y in states[m].requests && states[m].requests[y].runs == 0
    && y in states[m + 1].requests && states[m + 1].requests[y].runs == 1
  }

  /** Only a worker that finds a request at the front of a queue begins to execute it. */
  lemma StartTakesFront(p: Pool, step: Step, y: nat)
    requires Inv(p) && Enabled(p, step) && y in p.requests && p.requests[y].runs == 0
    requires y in Take(p, step).requests && Take(p, step).requests[y].runs == 1
    ensures (p.queue != [] && p.queue[0] == Work(y)) || (p.pending != [] && p.pending[0] == y)
    ensures p.requests[y].phase == if p.requests[y].slow then Pending else Queued
  {
    hide CountInv, WorkerInv, LoopInv, CanWake, NoLostWakeup;
    assert step.DoIterate?;
    assert p.queue != [] ==> p.queue[0] in p.queue;
    assert p.pending != [] ==> p.pending[0] in p.pending;
    assert ValidRequest(p.requests[y]);
  }

  /** A request that waits behind none of its kind has nothing of its kind in front of it. */
  lemma FrontHasNoneBefore(p: Pool, x: nat, y: nat)
    requires Inv(p) && x in p.requests && y in p.requests && InFront(p, x, y) && x != y
    requires (p.queue != [] && p.queue[0] == Work(y)) || (p.pending != [] && p.pending[0] == y)
    requires p.requests[x].slow == p.requests[y].slow
    requires p.requests[y].phase == if p.requests[y].slow then Pending else Queued
    ensures p.requests[x].runs == 1 || p.requests[x].cancels > 0
  {
    hide CountInv, WorkerInv, LoopInv, NoLostWakeup;
    assert ValidRequest(p.requests[x]) && ValidRequest(p.requests[y]);
    assert Work(y) in p.queue <==> !p.requests[y].slow;
    assert y in p.pending <==> p.requests[y].slow;
    if p.requests[y].slow {
      NoneBeforeFirst(p.pending, x);
    } else {
      NoneBeforeFirst(p.queue, Work(x));
    }
  }

  /** Of two requests of a kind, the one submitted first is begun first, unless it was cancelled before that. */
  lemma ServedInOrder(states: seq<Pool>, steps: seq<Step>, nthreads: nat, nloops: nat, a: nat, b: nat, x: nat, y: nat,
      m: nat)
    requires nthreads > 0 && IsRun(states, steps, nthreads, nloops) && PostedInOrder(steps, a, b, x, y)
    requires m < |steps| && StartsAt(states, m, y)
    ensures b < m && x in states[m].requests && (states[m].requests[x].runs == 1 || states[m].requests[x].cancels > 0)
  {
    hide Take, InFront, Inv;
    assert Enabled(states[a], steps[a]) && Enabled(states[b], steps[b]) && Enabled(states[m], steps[m]);
    PostEnters(states[a], steps[a]);
    PostEnters(states[b], steps[b]);
    if m <= b {
      RequestStays(states, steps, nthreads, nloops, m, b, y);
      assert false;
    }
    OrderIsKept(states, steps, nthreads, nloops, a, b, x, y, m);
    RequestStays(states, steps, nthreads, nloops, a + 1, m, x);
    RequestStays(states, steps, nthreads, nloops, b + 1, m, y);
    RunsKeepInv(states, steps, nthreads, nloops, m);
    StartTakesFront(states[m], steps[m], y);
    FrontHasNoneBefore(states[m], x, y);
  }

  // Order of done callbacks

  /** What loop `l` still has to call back: first what it is draining, then what was handed back since. */
  function ToCall(p: Pool, l: nat): (r: seq<nat>)
    requires l < |p.loops|
  {
    p.loops[l].draining + p.loops[l].completed
  }

  /** Request `x` of loop `l` waits for its callback, or has had it. */
  ghost predicate HandedBack(p: Pool, l: nat, x: nat) {
    l < |p.loops| && x in p.requests && (x in ToCall(p, l) || p.requests[x].dones == 1)
  }

  /** With step `a` request `x` is handed back to loop `l`, by a worker or by a cancellation. */
  ghost predicate HandsBack(p: Pool, step: Step, l: nat, x: nat) {
    match step
    case DoFinish(i) =>
      i < |p.workers| && p.workers[i].Running? && p.workers[i].id == x && x in p.requests && p.requests[x].loop == l
    case DoFinishCancel(k) => k == l && l < |p.loops| && p.loops[l].cancelling == Some(x)
    case _ => false
  }

  lemma {:induction false} WithoutConcat<T(!new)>(s: seq<T>, t: seq<T>, x: T)
    ensures Without(s + t, x) == Without(s, x) + Without(t, x)
  {
    if s == [] {
      assert s + t == t;
    } else {
      assert (s + t)[1..] == s[1..] + t;
      WithoutConcat(s[1..], t, x);
    }
  }

  /** The step cancels a request, with success. */
  ghost predicate Cancels(p: Pool, step: Step) {
    step.DoTryCancel? && step.id in p.requests && Cancellable(p.requests[step.id])
  }

  /** What a step does to the callbacks that a loop still has to make. */
  lemma ToCallStep(p: Pool, step: Step, l: nat)
    requires Inv(p) && Enabled(p, step) && l < |p.loops|
    ensures |Take(p, step).loops| == |p.loops|
    ensures ToCall(Take(p, step), l) ==
      if Cancels(p, step) then Without(ToCall(p, l), step.id)
      else if step.DoRunDone? && step.l == l then ToCall(p, l)[1..]
      else if exists x :: HandsBack(p, step, l, x) then ToCall(p, l) + [Returned(p, step)]
      else ToCall(p, l)
  {
    hide Inv, ToCall, CanWake;
    match step
    case DoFinish(_) => FinishCalls(p, step, l);
    case DoFinishCancel(_) => FinishCalls(p, step, l);
    case DoTryCancel(id) => CancelCalls(p, id, l);
    case DoRunDone(_) => DoneCalls(p, step, l);
    case _ => SameCalls(p, step, l);
  }

  lemma FinishCalls(p: Pool, step: Step, l: nat)
    requires Inv(p) && Enabled(p, step) && l < |p.loops| && (step.DoFinish? || step.DoFinishCancel?)
    ensures |Take(p, step).loops| == |p.loops|
    ensures ToCall(Take(p, step), l) ==
      if exists x :: HandsBack(p, step, l, x) then ToCall(p, l) + [Returned(p, step)] else ToCall(p, l)
  {
    hide QueueInv, CountInv, RequestInv, NoLostWakeup;
    var id := Returned(p, step);
    if step.DoFinish? {
      assert InPhase(p.requests, id, Active(step.i));
    } else {
      LoopFacts(p, step.l, id);
    }
    if x :| HandsBack(p, step, l, x) {
      assert x == id;
    } else {
      assert !HandsBack(p, step, l, id);
    }
  }

  lemma DoneCalls(p: Pool, step: Step, l: nat)
    requires Inv(p) && Enabled(p, step) && l < |p.loops| && step.DoRunDone?
    ensures |Take(p, step).loops| == |p.loops|
    ensures ToCall(p, step.l) != []
    ensures ToCall(Take(p, step), l) == if step.l == l then ToCall(p, l)[1..] else ToCall(p, l)
  {
    hide QueueInv, CountInv, RequestInv, NoLostWakeup;
    var x := p.loops[step.l];
    assert x.draining[0] in x.draining;
    LoopFacts(p, step.l, x.draining[0]);
  }

  lemma SameCalls(p: Pool, step: Step, l: nat)
    requires Enabled(p, step) && l < |p.loops|
    requires !step.DoFinish? && !step.DoFinishCancel? && !step.DoTryCancel? && !step.DoRunDone?
    ensures |Take(p, step).loops| == |p.loops| && ToCall(Take(p, step), l) == ToCall(p, l)
  {
    hide CanWake;
  }

  /** The request that a handing-back step is about. */
  function Returned(p: Pool, step: Step): (x: nat) {
    if step.DoFinish? && step.i < |p.workers| && p.workers[step.i].Running? then p.workers[step.i].id
    else if step.DoFinishCancel? && step.l < |p.loops| && p.loops[step.l].cancelling.Some? then
      p.loops[step.l].cancelling.value
    else 0
  }

  lemma CancelCalls(p: Pool, id: nat, l: nat)
    requires Inv(p) && MayCancel(p, id) && l < |p.loops|
    ensures |TryCancel(p, id).loops| == |p.loops|
    ensures ToCall(TryCancel(p, id), l) ==
      if Cancellable(p.requests[id]) then Without(ToCall(p, l), id) else ToCall(p, l)
  {
    hide QueueInv, CountInv, WorkerInv, NoLostWakeup;
    var x := p.loops[l];
    WithoutConcat(x.draining, x.completed, id);
    assert Holds(x, l, p.requests) && ValidRequest(p.requests[id]);
    if p.requests[id].loop != l {
      assert id in ToCall(p, l) ==> id in x.draining || id in x.completed;
    }
  }

  /** A request that is handed back is not among those that wait for their callbacks, nor has it had its own. */
  lemma ReturnedIsNew(p: Pool, step: Step, l: nat, x: nat)
    requires Inv(p) && Enabled(p, step) && l < |p.loops| && HandsBack(p, step, l, x)
    ensures x == Returned(p, step) && x in p.requests && x !in ToCall(p, l) && p.requests[x].dones == 0
  {
    hide QueueInv, CountInv, NoLostWakeup, CanWake;
    assert Holds(p.loops[l], l, p.requests);
    if step.DoFinish? {
      assert InPhase(p.requests, x, Active(step.i));
    } else {
      LoopFacts(p, l, x);
    }
    assert ValidRequest(p.requests[x]);
  }

  /** A callback that is not taken back by a cancellation stays to be made until it is made. */
  lemma HandedBackStep(p: Pool, step: Step, l: nat, x: nat)
    requires Inv(p) && Enabled(p, step) && HandedBack(p, l, x)
    requires step.DoTryCancel? && step.id == x ==> !Cancels(p, step)
    ensures HandedBack(Take(p, step), l, x)
  {
    ToCallStep(p, step, l);
    DoneStays(p, step, l, x);
    hide Take, Inv, Enabled, ToCall;
    if step.DoRunDone? && step.l == l && ToCall(p, l) != [] {
      assert ToCall(p, l) == [ToCall(p, l)[0]] + ToCall(p, l)[1..];
    }
  }

  lemma DoneStays(p: Pool, step: Step, l: nat, x: nat)
    requires Inv(p) && Enabled(p, step) && x in p.requests && l < |p.loops|
    ensures x in Take(p, step).requests && |Take(p, step).loops| == |p.loops|
    ensures p.requests[x].dones == 1 ==> Take(p, step).requests[x].dones == 1
    ensures step.DoRunDone? && step.l == l ==>
      ToCall(p, l) != [] && (ToCall(p, l)[0] == x ==> Take(p, step).requests[x].dones == 1)
  {
    hide QueueInv, CountInv, NoLostWakeup, CanWake, WorkerInv;
    assert ValidRequest(p.requests[x]);
    if step.DoRunDone? {
      var y := p.loops[step.l].draining[0];
      assert y in p.loops[step.l].draining;
      LoopFacts(p, step.l, y);
      assert ValidRequest(p.requests[y]);
    }
  }

  lemma CallOrderStep(p: Pool, step: Step, l: nat, x: nat, y: nat)
    requires Inv(p) && Enabled(p, step) && HandedBack(p, l, x) && x != y && Precedes(ToCall(p, l), x, y)
    requires step.DoTryCancel? && step.id == x ==> !Cancels(p, step)
    ensures |Take(p, step).loops| == |p.loops| && Precedes(ToCall(Take(p, step), l), x, y)
  {
    ToCallStep(p, step, l);
    DoneStays(p, step, l, x);
    hide Take, Inv, Enabled, ToCall, Precedes, HandsBack;
    var calls := ToCall(p, l);
    if Cancels(p, step) {
      PrecedesWithout(calls, step.id, x, y);
    } else if step.DoRunDone? && step.l == l {
      PrecedesTail(calls, x, y);
    } else if z :| HandsBack(p, step, l, z) {
      ReturnedIsNew(p, step, l, z);
      PrecedesMore(calls, x, y, z);
    }
  }

  /** No cancellation of `x` succeeds from state `a` on until state `n`. */
  ghost predicate NotTakenBack(states: seq<Pool>, steps: seq<Step>, a: nat, n: nat, x: nat)
    requires n <= |steps| <= |states|
  {
    forall c :: a <= c < n && steps[c] == DoTryCancel(x) ==> !Cancels(states[c], steps[c])
  }

  lemma {:induction false} StaysHandedBack(states: seq<Pool>, steps: seq<Step>, nthreads: nat, nloops: nat, a: nat,
      n: nat, l: nat, x: nat)
    requires nthreads > 0 && IsRun(states, steps, nthreads, nloops) && a < n < |states| && l < |states[a].loops|
    requires HandsBack(states[a], steps[a], l, x) && NotTakenBack(states, steps, a + 1, n, x)
    ensures HandedBack(states[n], l, x)
  {
    hide Take, Inv, HandsBack, HandedBack, Enabled;
    RunsKeepInv(states, steps, nthreads, nloops, n - 1);
    if a == n - 1 {
      ReturnArrives(states[a], steps[a], l, x);
    } else {
      StaysHandedBack(states, steps, nthreads, nloops, a, n - 1, l, x);
      HandedBackStep(states[n - 1], steps[n - 1], l, x);
    }
  }

  lemma ReturnArrives(p: Pool, step: Step, l: nat, x: nat)
    requires Inv(p) && Enabled(p, step) && l < |p.loops| && HandsBack(p, step, l, x)
    ensures HandedBack(Take(p, step), l, x)
  {
    ToCallStep(p, step, l);
    ReturnedIsNew(p, step, l, x);
    DoneStays(p, step, l, x);
    hide Take, Inv, Enabled, ToCall;
  }

  lemma {:induction false} CallOrderKept(states: seq<Pool>, steps: seq<Step>, nthreads: nat, nloops: nat, a: nat,
      b: nat, n: nat, l: nat, x: nat, y: nat)
    requires nthreads > 0 && IsRun(states, steps, nthreads, nloops) && a < b <= n < |states| && b < |steps|
    requires l < |states[a].loops| && l < |states[b].loops| && x != y
    requires HandsBack(states[a], steps[a], l, x) && HandsBack(states[b], steps[b], l, y)
    requires NotTakenBack(states, steps, a + 1, n, x)
    ensures l < |states[n].loops| && Precedes(ToCall(states[n], l), x, y)
  {
    hide Take, Inv, HandsBack, HandedBack, Enabled, Precedes, ToCall;
    if n == b {
      RunsKeepInv(states, steps, nthreads, nloops, b);
      ReturnedIsNew(states[b], steps[b], l, y);
      NotThere(ToCall(states[b], l), x, y);
    } else {
      CallOrderKept(states, steps, nthreads, nloops, a, b, n - 1, l, x, y);
      StaysHandedBack(states, steps, nthreads, nloops, a, n - 1, l, x);
      RunsKeepInv(states, steps, nthreads, nloops, n - 1);
      CallOrderStep(states[n - 1], steps[n - 1], l, x, y);
    }
  }

  lemma NotThere<T(!new)>(s: seq<T>, u: T, v: T)
    requires v !in s
    ensures Precedes(s, u, v)
  {
  }

  lemma ReturnedToOwn(p: Pool, step: Step, l: nat, x: nat)
    requires Inv(p) && Enabled(p, step) && l < |p.loops| && HandsBack(p, step, l, x)
    ensures x in p.requests && p.requests[x].loop == l
  {
    if step.DoFinishCancel? {
      LoopFacts(p, l, x);
    }
  }

  /** Only a loop that finds a request at the front of what it drains makes its callback. */
  lemma CallTakesFront(p: Pool, step: Step, y: nat)
    requires Inv(p) && Enabled(p, step) && y in p.requests && p.requests[y].dones == 0
    requires y in Take(p, step).requests && Take(p, step).requests[y].dones == 1
    ensures step == DoRunDone(p.requests[y].loop)
    ensures step.l < |p.loops| && p.loops[step.l].draining != [] && p.loops[step.l].draining[0] == y
  {
    hide QueueInv, CountInv, WorkerInv, RequestInv, NoLostWakeup, CanWake;
    assert step.DoRunDone?;
    assert p.loops[step.l].draining[0] in p.loops[step.l].draining;
    LoopFacts(p, step.l, p.loops[step.l].draining[0]);
  }

  /**
    Callbacks of a loop are made in the order in which requests are handed back to it: when that of `y`
    is made, that of `x`, handed back before, has been made, unless a cancellation took `x` back.
   */
  lemma CalledInOrder(states: seq<Pool>, steps: seq<Step>, nthreads: nat, nloops: nat, a: nat, b: nat, m: nat, l: nat,
      x: nat, y: nat)
    requires nthreads > 0 && IsRun(states, steps, nthreads, nloops) && a < b < m < |steps| && x != y
    requires l < |states[a].loops| && l < |states[b].loops| && l < |states[m].loops|
    requires HandsBack(states[a], steps[a], l, x) && HandsBack(states[b], steps[b], l, y)
    requires y in states[m].requests && states[m].requests[y].dones == 0
    requires y in states[m + 1].requests && states[m + 1].requests[y].dones == 1
    requires NotTakenBack(states, steps, a + 1, m, x)
    ensures x in states[m].requests && states[m].requests[x].dones == 1
  {
    hide Take, Inv, HandsBack, Precedes;
    RunsKeepInv(states, steps, nthreads, nloops, b);
    RunsKeepInv(states, steps, nthreads, nloops, m);
    ReturnedIsNew(states[b], steps[b], l, y);
    ReturnedToOwn(states[b], steps[b], l, y);
    RequestStays(states, steps, nthreads, nloops, b, m, y);
    CallTakesFront(states[m], steps[m], y);
    StaysHandedBack(states, steps, nthreads, nloops, a, m, l, x);
    CallOrderKept(states, steps, nthreads, nloops, a, b, m, l, x, y);
    assert Enabled(states[m], steps[m]);
    assert ToCall(states[m], l)[0] == y;
    NoneBeforeFirst(ToCall(states[m], l), x);
  }
}
