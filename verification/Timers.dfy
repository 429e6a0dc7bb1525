/**
  Timers on top of the heap: starting, stopping and re-arming a handle, running everything that is due,
  and how long the loop may sleep.
 */
module Timers {
  import opened MinHeap

  const Wrap: nat := 0x1_0000_0000_0000_0000
  const LastInstant: nat := Wrap - 1
  const IntMax: nat := 0x7fff_ffff

  /** The time a timer goes off: a 64-bit sum, held at the largest value when it wraps. */
  function Deadline(time: nat, timeout: nat): (r: nat)
    requires time < Wrap && timeout < Wrap
    ensures r == if time + timeout <= LastInstant then time + timeout else LastInstant
  {
    var sum := (time + timeout) % Wrap;
    if sum < timeout then LastInstant else sum
  }

  /** Re-arming a repeating timer puts it in the future, except at the last instant the clock can show. */
  lemma RearmedIsFuture(time: nat, repeat: nat)
    requires time < Wrap && repeat < Wrap
    ensures Deadline(time, repeat) > time <==> repeat > 0 && time < LastInstant
  {
  }

  ghost function Nodes(s: seq<Node>): set<Node> {
    set n | n in s
  }

  /**
    What a pass over the timers starts from: the active timers with their keys, the next start
    number, the interval of every timer of the loop (0 if it does not repeat), the timers each
    callback stops, and the time of the loop.
   */
  datatype Pass = Pass(key: map<Node, Key>, counter: nat, repeat: map<Node, nat>,
                       stops: map<Node, seq<Node>>, time: nat)

  /** The active timers with their keys, and the next start number. */
  datatype Armed = Armed(key: map<Node, Key>, counter: nat)

  ghost predicate Due(p: Pass, n: Node) {
    n in p.key && p.key[n].timeout <= p.time
  }

  ghost predicate Repeats(p: Pass, n: Node) {
    n in p.repeat && p.repeat[n] > 0
  }

  /** The callback of `a` stops `b`. */
  ghost predicate Stops(p: Pass, a: Node, b: Node) {
    a in p.stops && b in p.stops[a]
  }

  ghost predicate Earlier(p: Pass, a: Node, b: Node) {
    a in p.key && b in p.key && Less(p.key[a], p.key[b])
  }

  /** Start numbers are used once, and times and intervals fit into 64 bits. */
  ghost predicate WellFormed(p: Pass) {
    && p.time < Wrap && p.key.Keys <= p.repeat.Keys && p.stops.Keys == p.repeat.Keys
    && (forall n :: n in p.repeat ==> p.repeat[n] < Wrap)
    && Numbered(Armed(p.key, p.counter))
  }

  ghost predicate Numbered(s: Armed) {
    && (forall n :: n in s.key ==> s.key[n].timeout < Wrap && s.key[n].startId < s.counter)
    && (forall a, b :: a in s.key && b in s.key && s.key[a].startId == s.key[b].startId ==> a == b)
  }

  // ----- one timer after the other -----

  /** `n` is due and comes before all other active timers. */
  ghost predicate IsFirst(p: Pass, s: Armed, n: Node) {
    && n in s.key && s.key[n].timeout <= p.time
    && forall m :: m in s.key && m != n ==> Less(s.key[n], s.key[m])
  }

  /** A timer is stopped and, if it repeats, started again; then its callback stops others. */
  ghost function Turned(s: Armed, n: Node, time: nat, repeat: nat, stops: seq<Node>): Armed
    requires time < Wrap && repeat < Wrap
  {
    var again :=
      if repeat > 0 then Armed(s.key[n := Rank(Deadline(time, repeat), s.counter)], s.counter + 1)
      else Armed(s.key - {n}, s.counter);
    again.(key := again.key - Nodes(stops))
  }

  lemma TurnedIs(s: Armed, t: Armed, n: Node, time: nat, repeat: nat, stops: seq<Node>)
    requires time < Wrap && repeat < Wrap && n in s.key
    requires t.key.Keys == (if repeat > 0 then s.key.Keys else s.key.Keys - {n}) - Nodes(stops)
    requires forall m :: m in t.key && m != n ==> t.key[m] == s.key[m]
    requires n in t.key ==> t.key[n] == Rank(Deadline(time, repeat), s.counter)
    requires t.counter == if repeat > 0 then s.counter + 1 else s.counter
    ensures t == Turned(s, n, time, repeat, stops)
  {
    var r := Turned(s, n, time, repeat, stops);
    assert t.key.Keys == r.key.Keys;
    assert t.key == r.key;
  }

  ghost function AfterOne(p: Pass, s: Armed, n: Node): Armed
    requires p.time < Wrap && n in p.repeat && p.repeat[n] < Wrap && n in p.stops
  {
    Turned(s, n, p.time, p.repeat[n], p.stops[n])
  }

  /** The timers in `fired` went off in turn, each when it was the first. */
  ghost predicate IsRun(p: Pass, states: seq<Armed>, fired: seq<Node>)
    requires WellFormed(p)
  {
    && |states| == |fired| + 1 && states[0] == Armed(p.key, p.counter)
    && forall i :: 0 <= i < |fired| ==>
         IsFirst(p, states[i], fired[i]) && fired[i] in p.repeat && states[i + 1] == AfterOne(p, states[i], fired[i])
  }

  ghost predicate NothingDue(p: Pass, s: Armed) {
    forall n :: n in s.key ==> s.key[n].timeout > p.time
  }

  // ----- which timers go off -----

  /** A due timer goes off unless the callback of one that goes off before it stops it. */
  ghost predicate GoesOff(p: Pass, n: Node)
    decreases if n in p.key then p.key[n].timeout else 0, if n in p.key then p.key[n].startId else 0
  {
    Due(p, n) && forall m :: m in p.key && Earlier(p, m, n) && Stops(p, m, n) ==> !GoesOff(p, m)
  }

  /** Before the last instant, or every active repeating timer is stopped by one that goes off, be it itself. */
  ghost predicate Settles(p: Pass) {
    p.time < LastInstant ||
    forall n :: n in p.key && Repeats(p, n) ==> exists m :: m in p.key && GoesOff(p, m) && Stops(p, m, n)
  }

  /** What holds after the timers in `fired` went off, however often each of them did. */
  ghost predicate Track(p: Pass, s: Armed, fired: set<Node>) {
    && Numbered(s) && s.counter >= p.counter && fired <= p.key.Keys && s.key.Keys <= p.key.Keys
    && (forall f :: f in fired ==> GoesOff(p, f))
    && Keyed(p, s, fired) && NoneStopped(p, s, fired)
    && (forall n :: n in p.key && n !in s.key ==> Gone(p, fired, n))
  }

  /** Timers that have not gone off have the keys they started with and come after those that have. */
  ghost predicate Keyed(p: Pass, s: Armed, fired: set<Node>) {
    && (forall n :: n in s.key && n !in fired ==> n in p.key && s.key[n] == p.key[n])
    && (forall n :: n in s.key && n in fired ==> Rearmed(p, n, s.key[n]))
    && (forall f, n :: f in fired && n in s.key && n !in fired ==> Earlier(p, f, n))
  }

  ghost predicate NoneStopped(p: Pass, s: Armed, fired: set<Node>) {
    forall f, n :: f in fired && n in s.key ==> !Stops(p, f, n)
  }

  /** A key given during the pass to a repeating timer. */
  ghost predicate Rearmed(p: Pass, n: Node, k: Key) {
    && Repeats(p, n) && k.startId >= p.counter && p.time < Wrap && p.repeat[n] < Wrap
    && k.timeout == Deadline(p.time, p.repeat[n])
  }

  /** Stopped by a callback, before it went off if it did not, or gone off without repeating. */
  ghost predicate Gone(p: Pass, fired: set<Node>, n: Node) {
    if n in fired then Repeats(p, n) ==> exists f :: f in fired && Stops(p, f, n)
    else exists f :: f in fired && Stops(p, f, n) && Earlier(p, f, n)
  }

  lemma TrackBegins(p: Pass)
    requires WellFormed(p)
    ensures Track(p, Armed(p.key, p.counter), {})
  {
  }

  /** The first timer goes off in the sense of `GoesOff`. */
  lemma FirstGoesOff(p: Pass, s: Armed, fired: set<Node>, n: Node)
    requires Track(p, s, fired) && IsFirst(p, s, n)
    ensures GoesOff(p, n)
  {
    if n !in fired {
      forall m | m in p.key && Earlier(p, m, n) && Stops(p, m, n) ensures !GoesOff(p, m) {
        if m !in fired {
          assert m !in s.key;
          assert Gone(p, fired, m);
        }
      }
    }
  }

  lemma TrackNumbers(p: Pass, s: Armed, n: Node)
    requires WellFormed(p) && Numbered(s) && s.counter >= p.counter && n in p.repeat
    ensures Numbered(AfterOne(p, s, n)) && AfterOne(p, s, n).counter >= p.counter
  {
  }

  lemma AfterOneAt(p: Pass, s: Armed, n: Node, m: Node)
    requires WellFormed(p) && n in s.key && n in p.repeat
    ensures var t := AfterOne(p, s, n);
      && (m in t.key <==> m in s.key && !Stops(p, n, m) && (m == n ==> Repeats(p, n)))
      && (m in t.key ==> t.key[m] == if m == n then Rank(Deadline(p.time, p.repeat[n]), s.counter) else s.key[m])
  {
  }

  lemma GoneStays(p: Pass, fired: set<Node>, f: Node, n: Node)
    requires Gone(p, fired, n) && n != f
    ensures Gone(p, fired + {f}, n)
  {
  }

  lemma TrackGone(p: Pass, s: Armed, fired: set<Node>, n: Node)
    requires WellFormed(p) && Track(p, s, fired) && IsFirst(p, s, n) && n in p.repeat
    ensures forall m :: m in p.key && m !in AfterOne(p, s, n).key ==> Gone(p, fired + {n}, m)
  {
    hide GoesOff, AfterOne, Deadline, NoneStopped;
    forall m | m in p.key && m !in AfterOne(p, s, n).key ensures Gone(p, fired + {n}, m) {
      AfterOneAt(p, s, n, m);
      if m !in s.key {
        GoneStays(p, fired, n, m);
      } else if Stops(p, n, m) {
        assert n in fired + {n};
        if m !in fired && m != n {
          assert Earlier(p, n, m);
        }
      }
    }
  }

  lemma TrackKeyed(p: Pass, s: Armed, fired: set<Node>, n: Node)
    requires WellFormed(p) && Keyed(p, s, fired) && IsFirst(p, s, n) && n in p.repeat && s.counter >= p.counter
    requires s.key.Keys <= p.key.Keys && fired <= p.key.Keys
    ensures Keyed(p, AfterOne(p, s, n), fired + {n})
  {
    hide AfterOne, GoesOff, Deadline, Stops;
    var t := AfterOne(p, s, n);
    forall m | m in t.key
      ensures m !in fired + {n} ==>
        m in p.key && t.key[m] == p.key[m] && Earlier(p, n, m) && forall f :: f in fired ==> Earlier(p, f, m)
      ensures m in fired + {n} ==> Rearmed(p, m, t.key[m])
    {
      AfterOneAt(p, s, n, m);
      if m !in fired + {n} {
        FirstIsEarlier(p, s, fired, n, m);
      }
    }
  }

  lemma FirstIsEarlier(p: Pass, s: Armed, fired: set<Node>, n: Node, m: Node)
    requires Keyed(p, s, fired) && IsFirst(p, s, n) && m in s.key && m !in fired && m != n && n in p.key
    ensures Earlier(p, n, m)
  {
  }

  lemma TrackNoneStopped(p: Pass, s: Armed, fired: set<Node>, n: Node)
    requires WellFormed(p) && NoneStopped(p, s, fired) && n in s.key && n in p.repeat
    ensures NoneStopped(p, AfterOne(p, s, n), fired + {n})
    ensures AfterOne(p, s, n).key.Keys <= s.key.Keys
  {
    hide Deadline, Stops;
    forall m | m in AfterOne(p, s, n).key ensures !Stops(p, n, m) && m in s.key {
      AfterOneAt(p, s, n, m);
    }
  }

  lemma TrackStep(p: Pass, s: Armed, fired: set<Node>, n: Node)
    requires WellFormed(p) && Track(p, s, fired) && IsFirst(p, s, n)
    ensures n in p.repeat && Track(p, AfterOne(p, s, n), fired + {n})
  {
    hide AfterOne, GoesOff, Deadline, Gone, Stops, Keyed, NoneStopped, Numbered;
    FirstGoesOff(p, s, fired, n);
    TrackGone(p, s, fired, n);
    TrackNumbers(p, s, n);
    TrackKeyed(p, s, fired, n);
    TrackNoneStopped(p, s, fired, n);
  }

  lemma {:induction false} RunTracks(p: Pass, states: seq<Armed>, fired: seq<Node>)
    requires WellFormed(p) && IsRun(p, states, fired)
    ensures Track(p, states[|fired|], Nodes(fired))
    decreases |fired|
  {
    if fired == [] {
      TrackBegins(p);
    } else {
      var k := |fired| - 1;
      assert fired == fired[..k] + [fired[k]];
      RunTracks(p, states[..k + 1], fired[..k]);
      assert Nodes(fired) == Nodes(fired[..k]) + {fired[k]};
      hide Track;
      TrackStep(p, states[k], Nodes(fired[..k]), fired[k]);
    }
  }

  // ----- when a pass ends -----

  /** The first timer goes off again only at the last instant, when all others have gone off. */
  lemma SecondTime(p: Pass, s: Armed, fired: set<Node>, n: Node)
    requires WellFormed(p) && Track(p, s, fired) && IsFirst(p, s, n) && n in fired
    ensures p.time == LastInstant && s.key.Keys <= fired
  {
    hide GoesOff, Gone, Stops;
    RearmedIsFuture(p.time, p.repeat[n]);
    forall m | m in s.key ensures m in fired {
      assert m in p.key;
    }
  }

  /** When nothing more is to come, those that have gone off are all that go off. */
  lemma AllThatGoOff(p: Pass, s: Armed, fired: set<Node>, n: Node)
    requires Track(p, s, fired) && GoesOff(p, n) && (n in s.key ==> n in fired)
    ensures n in fired
  {
    hide Keyed, NoneStopped;
    assert n !in s.key ==> Gone(p, fired, n);
  }

  lemma FirstIsNew(p: Pass, s: Armed, fired: set<Node>, n: Node)
    requires WellFormed(p) && Settles(p) && Track(p, s, fired) && IsFirst(p, s, n)
    ensures n !in fired && n in p.key && forall f :: f in fired ==> Earlier(p, f, n) && !Stops(p, f, n)
  {
    forall m | m in p.key && GoesOff(p, m) && (m in s.key ==> m in fired) ensures m in fired {
      AllThatGoOff(p, s, fired, m);
    }
    hide GoesOff, Gone;
    if n in fired {
      SecondTime(p, s, fired, n);
    }
  }

  /** In a pass that settles, timers go off in the order of their keys, and none after being stopped. */
  ghost predicate InTurn(p: Pass, fired: seq<Node>) {
    && (forall i, j :: 0 <= i < j < |fired| ==> Earlier(p, fired[i], fired[j]))
    && (forall i, j :: 0 <= i < j < |fired| ==> !Stops(p, fired[i], fired[j]))
  }

  lemma {:induction false} SettledInTurn(p: Pass, states: seq<Armed>, fired: seq<Node>)
    requires WellFormed(p) && Settles(p) && IsRun(p, states, fired)
    ensures InTurn(p, fired)
    decreases |fired|
  {
    if fired != [] {
      var k := |fired| - 1;
      RunTracks(p, states[..k + 1], fired[..k]);
      SettledInTurn(p, states[..k + 1], fired[..k]);
      hide Settles, Track, WellFormed, IsFirst, AfterOne, InTurn;
      FirstIsNew(p, states[k], Nodes(fired[..k]), fired[k]);
      OneMoreInTurn(p, fired[..k], fired[k]);
      assert fired[..k] + [fired[k]] == fired;
    }
  }

  lemma OneMoreInTurn(p: Pass, fired: seq<Node>, n: Node)
    requires InTurn(p, fired) && forall f :: f in Nodes(fired) ==> Earlier(p, f, n) && !Stops(p, f, n)
    ensures InTurn(p, fired + [n])
  {
    hide Earlier, Stops;
    assert forall i :: 0 <= i < |fired| ==> fired[i] in Nodes(fired);
  }

  /** The timers that are active when a pass has ended: no callback stopped them, and they did not go off or repeat. */
  ghost predicate StaysActive(p: Pass, n: Node) {
    && n in p.key && (GoesOff(p, n) ==> Repeats(p, n))
    && forall m :: m in p.key && GoesOff(p, m) ==> !Stops(p, m, n)
  }

  /** When nothing is due any more, exactly the timers that go off have done so, and the others are as they were. */
  lemma EndedPass(p: Pass, states: seq<Armed>, fired: seq<Node>)
    requires WellFormed(p) && IsRun(p, states, fired) && NothingDue(p, states[|fired|])
    ensures Nodes(fired) == set n | n in p.key && GoesOff(p, n)
    ensures var s := states[|fired|];
      && s.key.Keys == (set n | n in p.key && StaysActive(p, n))
      && forall n :: n in s.key && !GoesOff(p, n) ==> s.key[n] == p.key[n]
  {
    RunTracks(p, states, fired);
    var s, went := states[|fired|], Nodes(fired);
    forall n ensures n in fired <==> GoesOff(p, n) {
      if GoesOff(p, n) {
        AllThatGoOff(p, s, went, n);
      }
    }
    forall n ensures n in s.key <==> StaysActive(p, n) {
      if n in p.key && n !in s.key {
        assert Gone(p, went, n);
      }
    }
  }

  /** Some active timer comes before all others. */
  lemma SomeFirst(s: Armed, all: set<Node>) returns (n: Node)
    requires Numbered(s) && all <= s.key.Keys && all != {}
    ensures n in all && forall m :: m in all && m != n ==> Less(s.key[n], s.key[m])
    decreases all
  {
    n :| n in all;
    if all != {n} {
      var least := SomeFirst(s, all - {n});
      assert all == (all - {n}) + {n};
      n := if Less(s.key[n], s.key[least]) then n else least;
    }
  }

  lemma SomeIsFirst(p: Pass, s: Armed) returns (n: Node)
    requires Numbered(s) && !NothingDue(p, s)
    ensures IsFirst(p, s, n)
  {
    var late :| late in s.key && s.key[late].timeout <= p.time;
    n := SomeFirst(s, s.key.Keys);
  }

  lemma ExtendRun(p: Pass, states: seq<Armed>, fired: seq<Node>, n: Node)
    requires WellFormed(p) && IsRun(p, states, fired) && IsFirst(p, states[|fired|], n) && n in p.repeat
    ensures IsRun(p, states + [AfterOne(p, states[|fired|], n)], fired + [n]) && |states| == |fired| + 1
  {
    hide WellFormed, IsFirst, AfterOne;
  }

  /** A pass that settles ends: the run can be completed. */
  lemma {:induction false} SettledEnds(p: Pass, states: seq<Armed>, fired: seq<Node>)
    returns (states': seq<Armed>, fired': seq<Node>)
    requires WellFormed(p) && Settles(p) && IsRun(p, states, fired)
    ensures IsRun(p, states', fired') && NothingDue(p, states'[|fired'|])
    decreases |p.key.Keys - Nodes(fired)|
  {
    var s := states[|fired|];
    RunTracks(p, states, fired);
    if NothingDue(p, s) {
      states', fired' := states, fired;
    } else {
      var n := SomeIsFirst(p, s);
      FirstIsNew(p, s, Nodes(fired), n);
      hide Track, Settles, NothingDue, IsFirst, AfterOne;
      ExtendRun(p, states, fired, n);
      assert p.key.Keys - Nodes(fired + [n]) == p.key.Keys - Nodes(fired) - {n};
      states', fired' := SettledEnds(p, states + [AfterOne(p, s, n)], fired + [n]);
    }
  }

  /** A timer that nothing which goes off stops is always active and due at the last instant: the loop goes on. */
  lemma UnsettledGoesOn(p: Pass, states: seq<Armed>, fired: seq<Node>) returns (n: Node)
    requires WellFormed(p) && !Settles(p) && IsRun(p, states, fired)
    ensures !NothingDue(p, states[|fired|])
    ensures n in p.repeat && IsRun(p, states + [AfterOne(p, states[|fired|], n)], fired + [n])
  {
    RunTracks(p, states, fired);
    var s, went := states[|fired|], Nodes(fired);
    var stuck :| stuck in p.key && Repeats(p, stuck) && !exists m :: m in p.key && GoesOff(p, m) && Stops(p, m, stuck);
    assert stuck !in s.key ==> Gone(p, went, stuck);
    assert s.key[stuck].timeout <= p.time;
    n := SomeIsFirst(p, s);
    assert n in p.key;
    hide Track, Settles, NothingDue, IsFirst, AfterOne;
    ExtendRun(p, states, fired, n);
  }

  /** The loop over due timers ends exactly if the pass settles. */
  lemma EndsIffSettles(p: Pass)
    requires WellFormed(p)
    ensures Settles(p) <==> exists states, fired :: IsRun(p, states, fired) && NothingDue(p, states[|fired|])
  {
    if Settles(p) {
      var states, fired := SettledEnds(p, [Armed(p.key, p.counter)], []);
    } else {
      forall states, fired | IsRun(p, states, fired) ensures !NothingDue(p, states[|fired|]) {
        var n := UnsettledGoesOn(p, states, fired);
      }
    }
  }

  /** One repeating timer, due at the last instant, whose callback stops nothing. */
  ghost function OneTimer(n: Node): (p: Pass)
    ensures WellFormed(p)
  {
    Pass(map[n := Rank(LastInstant, 0)], 1, map[n := 1], map[n := []], LastInstant)
  }

  /** At the last instant a repeating timer whose callback stops nothing keeps the loop busy for ever. */
  lemma EndlessPass(n: Node, states: seq<Armed>, fired: seq<Node>)
    requires IsRun(OneTimer(n), states, fired)
    ensures !NothingDue(OneTimer(n), states[|fired|])
  {
    var p := OneTimer(n);
    assert n in p.key && Repeats(p, n);
    assert !Settles(p);
    var _ := UnsettledGoesOn(p, states, fired);
  }

  class EventLoop {
    const heap: Heap
    var time: nat
    var counter: nat
    ghost var handles: set<Node>

    ghost predicate Valid()
      reads this, heap, heap.all, handles
    {
      && heap.Sound() && time < Wrap && heap.all <= handles
      && (forall h :: h in handles ==> HandleOk(h))
      && (forall a, b :: a in heap.all && b in heap.all && a.startId == b.startId ==> a == b)
    }

    ghost predicate HandleOk(h: Node)
      reads this, heap, h
    {
      && (h.active <==> h in heap.all)
      && h.repeat < Wrap
      && (h.active ==> h.hasCallback && !h.closing && h.timeout < Wrap && h.startId < counter)
    }

    constructor ()
      ensures Valid() && heap.all == {} && handles == {} && time == 0
    {
      heap := new Heap();
      time, counter, handles := 0, 0, {};
    }

    /** A new timer on this loop, not started. */
    method Init() returns (h: Node)
      requires Valid()
      modifies this`handles
      ensures Valid() && fresh(h) && handles == old(handles) + {h} && !h.active && !h.hasCallback && h.repeat == 0
    {
      h := new Node();
      handles := handles + {h};
    }

    /** Start or restart a timer; fails without change when it is closing or has no callback. */
    method Start(h: Node, callback: bool, timeout: nat, repeat: nat) returns (ok: bool)
      requires Valid() && h in handles && timeout < Wrap && repeat < Wrap
      modifies this`counter, heap, heap.all`left, heap.all`right, heap.all`parent, h
      ensures Valid()
      ensures ok == (callback && !old(h.closing))
      ensures !ok ==> heap.all == old(heap.all) && counter == old(counter) && unchanged(h)
      ensures ok ==> heap.all == old(heap.all) + {h} && counter == old(counter) + 1
      ensures ok ==> h.Key() == Rank(Deadline(time, timeout), old(counter)) && h.repeat == repeat
    {
      if h.closing || !callback {
        return false;
      }
      if h.active {
        Stop(h);
      }
      Arm(h, timeout, repeat);
      return true;
    }

    method Arm(h: Node, timeout: nat, repeat: nat)
      requires Valid() && h in handles && !h.active && !h.closing && timeout < Wrap && repeat < Wrap
      modifies this`counter, heap, heap.all`left, heap.all`right, heap.all`parent, h
      ensures Valid() && h.closing == old(h.closing)
      ensures heap.all == old(heap.all) + {h} && counter == old(counter) + 1
      ensures h.Key() == Rank(Deadline(time, timeout), old(counter)) && h.repeat == repeat
    {
      hide heap.Sound;
      h.hasCallback, h.timeout, h.repeat := true, Deadline(time, timeout), repeat;
      h.startId := counter;
      counter := counter + 1;
      heap.Insert(h);
      h.active := true;
    }

    /** Restart a repeating timer with its interval; fails when it was never started. */
    method Again(h: Node) returns (ok: bool)
      requires Valid() && h in handles
      modifies this`counter, heap, heap.all`left, heap.all`right, heap.all`parent, h
      ensures Valid() && ok == old(h.hasCallback) && h.repeat == old(h.repeat)
      ensures h.hasCallback == old(h.hasCallback) && h.closing == old(h.closing)
      ensures ok && h.repeat > 0 && !h.closing ==>
        heap.all == old(heap.all) + {h} && h.Key() == Rank(Deadline(time, h.repeat), old(counter))
      ensures ok && h.repeat > 0 && h.closing ==> heap.all == old(heap.all) - {h}
      ensures !ok || h.repeat == 0 ==> heap.all == old(heap.all) && unchanged(h)
      ensures counter == if ok && h.repeat > 0 && !h.closing then old(counter) + 1 else old(counter)
    {
      if !h.hasCallback {
        return false;
      }
      if h.repeat > 0 {
        Stop(h);
        var _ := Start(h, h.hasCallback, h.repeat, h.repeat);
      }
      return true;
    }

    method Stop(h: Node)
      requires Valid() && h in handles
      modifies heap, heap.all`left, heap.all`right, heap.all`parent, h`active
      ensures Valid() && heap.all == old(heap.all) - {h} && !h.active
    {
      hide heap.Sound;
      if h.active {
        heap.Remove(h);
        h.active := false;
      }
    }

    /** A callback that stops the timers `hs`. */
    method Callback(hs: seq<Node>)
      requires Valid() && forall h :: h in hs ==> h in handles
      modifies heap, heap.all`left, heap.all`right, heap.all`parent, handles`active
      ensures Valid() && heap.all == old(heap.all) - Nodes(hs)
    {
      hide HandleOk, heap.Sound;
      for i := 0 to |hs|
        invariant Valid() && heap.all == old(heap.all) - Nodes(hs[..i])
      {
        assert hs[..i + 1] == hs[..i] + [hs[i]];
        Stop(hs[i]);
      }
      assert hs[..|hs|] == hs;
    }

    /** The active timers with their keys. */
    ghost function Now(): Armed
      reads this, heap, heap.all
    {
      Armed((map n | n in heap.all :: n.Key()), counter)
    }

    /** What a pass that starts now works on, when the callback of `n` stops the timers `stops[n]`. */
    ghost function PassNow(stops: map<Node, seq<Node>>): Pass
      reads this, heap, heap.all, handles
    {
      Pass(Now().key, counter, (map n | n in handles :: n.repeat), stops, time)
    }

    /** One timer goes off: it is stopped, restarted if it repeats, and its callback runs. */
    method Fire(h: Node, stops: seq<Node>)
      requires Valid() && h in heap.all && h.repeat < Wrap && time < Wrap && forall n :: n in stops ==> n in handles
      modifies this`counter, heap, handles`left, handles`right, handles`parent, handles`active, h
      ensures Valid() && h.repeat == old(h.repeat) && Now() == Turned(old(Now()), h, time, h.repeat, stops)
    {
      hide heap.Sound, HandleOk, Turned, Deadline;
      ghost var s := Now();
      GoodHandle(h);
      Stop(h);
      var _ := Again(h);
      assert h.repeat > 0 ==> h.Key() == Rank(Deadline(time, h.repeat), s.counter);
      hide Valid;
      Callback(stops);
      TurnedIs(s, Now(), h, time, h.repeat, stops);
    }

    lemma GoodHandle(h: Node)
      requires Valid() && h in heap.all
      ensures h in handles && h.hasCallback && !h.closing && h.repeat < Wrap && time < Wrap
    {
      assert HandleOk(h);
    }

    /** A pass that has let the timers in `fired` go off, and changed nothing else. */
    ghost predicate Underway(p: Pass, states: seq<Armed>, fired: seq<Node>)
      reads this, heap, heap.all, handles
    {
      && Valid() && WellFormed(p) && IsRun(p, states, fired) && Now() == states[|fired|] && time == p.time
      && p.repeat == (map n | n in handles :: n.repeat)
      && (forall n, h :: n in p.stops && h in p.stops[n] ==> h in handles)
    }

    ghost predicate StopsOwn(stops: map<Node, seq<Node>>)
      reads this
    {
      stops.Keys == handles && forall n, h :: n in stops && h in stops[n] ==> h in handles
    }

    lemma PassBegins(stops: map<Node, seq<Node>>)
      requires Valid() && StopsOwn(stops)
      ensures Underway(PassNow(stops), [Now()], []) && PassNow(stops).stops == stops
    {
    }

    lemma PassEnds(p: Pass, states: seq<Armed>, fired: seq<Node>, h: Node?)
      requires Underway(p, states, fired)
      requires h == null ==> heap.all == {}
      requires h != null ==> h.timeout > time && heap.IsMin(h)
      ensures NothingDue(p, Now())
    {
      hide heap.Sound, IsRun;
    }

    lemma MinIsFirst(p: Pass, h: Node)
      requires Valid() && heap.IsMin(h) && h.timeout <= time && p.time == time
      ensures IsFirst(p, Now(), h)
    {
      hide HandleOk, heap.Sound;
    }

    method FireFirst(ghost p: Pass, ghost states: seq<Armed>, ghost fired: seq<Node>, h: Node,
        stops: map<Node, seq<Node>>)
      requires Underway(p, states, fired) && p.stops == stops && heap.IsMin(h) && h.timeout <= time
      modifies this`counter, heap, handles
      ensures Underway(p, states + [Now()], fired + [h])
    {
      hide heap.Sound, WellFormed, IsRun, IsFirst, HandleOk, Turned;
      MinIsFirst(p, h);
      ReadyToFire(p, h);
      ExtendRun(p, states, fired, h);
      Fire(h, stops[h]);
    }

    lemma ReadyToFire(p: Pass, h: Node)
      requires WellFormed(p) && Valid() && h in heap.all && p.repeat == (map n | n in handles :: n.repeat)
      ensures h in p.repeat && h in p.stops && p.repeat[h] == h.repeat < Wrap && p.time < Wrap
    {
    }

    ghost function Remaining(p: Pass, fired: seq<Node>): nat {
      |p.key.Keys - Nodes(fired)|
    }

    /** What goes off has not gone off before in this pass. */
    lemma Shrinks(p: Pass, states: seq<Armed>, fired: seq<Node>, h: Node)
      requires Settles(p) && Underway(p, states, fired) && heap.IsMin(h) && h.timeout <= time
      ensures Remaining(p, fired + [h]) < Remaining(p, fired)
    {
      MinIsFirst(p, h);
      hide Settles, WellFormed, IsFirst, Track, IsRun, heap.IsMin;
      RunTracks(p, states, fired);
      FirstIsNew(p, Now(), Nodes(fired), h);
      assert p.key.Keys - Nodes(fired + [h]) == p.key.Keys - Nodes(fired) - {h};
    }

    lemma UnderwayIsSound(p: Pass, states: seq<Armed>, fired: seq<Node>)
      requires Underway(p, states, fired)
      ensures heap.Sound() && p.stops.Keys == p.repeat.Keys
    {
    }

    /** How the loop stands when a pass has ended. */
    ghost predicate Passed(p: Pass, fired: seq<Node>)
      reads this, heap, heap.all, handles
    {
      && Valid() && time == p.time && InTurn(p, fired)
      && Nodes(fired) == (set n | n in p.key && GoesOff(p, n))
      && heap.all == (set n | n in p.key && StaysActive(p, n))
      && (forall n :: n in heap.all ==> n.timeout > time)
      && (forall n :: n in heap.all && !GoesOff(p, n) ==> n.Key() == p.key[n])
    }

    lemma PassHasEnded(p: Pass, states: seq<Armed>, fired: seq<Node>)
      requires Settles(p) && Underway(p, states, fired) && NothingDue(p, Now())
      ensures Passed(p, fired)
    {
      hide Settles, WellFormed, InTurn, IsRun, StaysActive, GoesOff, heap.Sound, HandleOk;
      EndedPass(p, states, fired);
      SettledInTurn(p, states, fired);
      assert heap.all == Now().key.Keys;
    }

    /** Let every due timer go off, always the first one next. */
    method RunTimers(stops: map<Node, seq<Node>>) returns (fired: seq<Node>)
      requires Valid() && StopsOwn(stops) && Settles(PassNow(stops))
      modifies this`counter, heap, handles
      ensures Passed(old(PassNow(stops)), fired)
    {
      hide *;
      ghost var p, states := PassNow(stops), [Now()];
      PassBegins(stops);
      fired := [];
      while true
        invariant p == old(PassNow(stops)) && Settles(p) && p.stops == stops && Underway(p, states, fired)
        decreases Remaining(p, fired)
      {
        UnderwayIsSound(p, states, fired);
        var h := heap.Min();
        if h == null {
          PassEnds(p, states, fired, h);
          PassHasEnded(p, states, fired);
          return;
        }
        if h.timeout > time {
          PassEnds(p, states, fired, h);
          PassHasEnded(p, states, fired);
          return;
        }
        Shrinks(p, states, fired, h);
        FireFirst(p, states, fired, h, stops);
        states := states + [Now()];
        fired := fired + [h];
      }
    }

    /** How long the loop may sleep: -1 for ever, otherwise never past a deadline and no shorter than need be. */
    method NextTimeout() returns (r: int)
      requires Valid()
      ensures -1 <= r <= IntMax && (r == -1 <==> heap.all == {})
      ensures forall n :: n in heap.all ==> r == 0 || time + r <= n.timeout
      ensures r >= 0 ==> r == IntMax || exists n :: n in heap.all && n.timeout <= time + r
    {
      hide HandleOk;
      var h := heap.Min();
      if h == null {
        return -1;
      }
      if h.timeout <= time {
        return 0;
      }
      var diff := h.timeout - time;
      if diff > IntMax {
        diff := IntMax;
      }
      return diff;
    }
  }
}
