/** What the steps of a queue runner do, told by queue and clock and over whole runs, and that they are what
    the code does to the linked lists. */
module QueueSteps {
  import opened Wrappers
  import opened EventOrder
  import opened RequestQueue
  import opened QueueRuns

  /** Nanoseconds. */
  function Instant(t: Timespec): int { t.sec * 1_000_000_000 + t.nsec }

  // ----- one step -----

  /** A pass of the runner over an open queue: the first event is taken if its instant is past, and not if it is
      still to come; the first request is taken if there is one, whether an event was or not; nothing else
      moves. A closed queue gives up nothing, as there is no such pass. */
  lemma TakeTakes(states: seq<State>, steps: seq<Step>, k: nat, prio: bool)
    requires IsRun(states, steps) && k < |steps| && steps[k] == On(prio, Take)
    ensures
      var q, q' := QueueOf(states[k], prio), QueueOf(states[k + 1], prio);
      && !q.closed && q.ev.event == None && q.rq.request == None
      && (q.ev.events != [] && Instant(q.ev.events[0].abstime) < Instant(states[k].now) ==>
            q'.ev.event == Some(q.ev.events[0]) && q'.ev.events == q.ev.events[1..])
      && (q.ev.events == [] || Instant(q.ev.events[0].abstime) > Instant(states[k].now) ==>
            q'.ev.event == None && q'.ev.events == q.ev.events)
      && (q.ev.events != [] && q'.ev.event == None ==> q'.ev.events == q.ev.events)
      && (q.rq.requests != [] ==> q'.rq.request == Some(q.rq.requests[0]) && q'.rq.requests == q.rq.requests[1..])
      && (q.rq.requests == [] ==> q'.rq.request == None && q'.rq.requests == [])
      && q'.ev.ran == q.ev.ran && q'.rq.ran == q.rq.ran && !q'.closed
      && QueueOf(states[k + 1], !prio) == QueueOf(states[k], !prio)
      && states[k + 1].now == states[k].now && states[k + 1].owed == states[k].owed
  {
    RunKeepsAll(states, steps, k);
    assert StepAt(states, steps, k);
    var q := QueueOf(states[k], prio);
    if q.ev.events != [] {
      StoredEverywhere(q.ev);
      DueExactly(q.ev.events[0].abstime, states[k].now);
    }
  }

  /** The search of a query for networks takes out the first cancel request, from the queue that is searched,
      and nothing else. */
  lemma CancelTakesFirst(states: seq<State>, steps: seq<Step>, k: nat)
    requires IsRun(states, steps) && k < |steps| && steps[k].CancelQuery?
    ensures
      var s, s', j := states[k], states[k + 1], steps[k].k;
      var rq, rq' := QueueOf(s, s.prioEnabled).rq, QueueOf(s', s.prioEnabled).rq;
      && j < |rq.requests| && IsCancel(rq.requests[j]) && (forall i :: 0 <= i < j ==> !IsCancel(rq.requests[i]))
      && rq'.requests == rq.requests[..j] + rq.requests[j + 1..] && rq'.request == rq.request && rq'.ran == rq.ran
      && rq'.cancelled == rq.cancelled + {rq.requests[j].token} && s'.owed == s.owed + {rq.requests[j].token}
      && QueueOf(s', s.prioEnabled).ev == QueueOf(s, s.prioEnabled).ev
      && QueueOf(s', !s.prioEnabled) == QueueOf(s, !s.prioEnabled)
  {
    assert StepAt(states, steps, k);
  }

  /** A queue is closed at first, and then as the last step that closes or reopens it has left it. */
  predicate ClosedAfter(steps: seq<Step>, k: nat, prio: bool)
    requires k <= |steps|
  {
    if k == 0 then true
    else if steps[k - 1] == On(prio, Close) then true
    else if steps[k - 1] == On(prio, Reopen) then false
    else ClosedAfter(steps, k - 1, prio)
  }

  lemma {:induction false} ClosedAsTold(states: seq<State>, steps: seq<Step>, k: nat, prio: bool)
    requires IsRun(states, steps) && k <= |steps|
    ensures QueueOf(states[k], prio).closed == ClosedAfter(steps, k, prio)
  {
    if k > 0 {
      ClosedAsTold(states, steps, k - 1, prio);
      assert StepAt(states, steps, k - 1);
    }
  }

  // ----- what is taken is run -----

  /** An event in the runner's hands stays there until the runner calls it back. */
  lemma {:induction false} HeldEventStays(states: seq<State>, steps: seq<Step>, k: nat, m: nat, prio: bool)
    requires IsRun(states, steps) && k <= m <= |steps| && QueueOf(states[k], prio).ev.event.Some?
    requires forall i :: k <= i < m ==> steps[i] != On(prio, RunEvent)
    ensures QueueOf(states[m], prio).ev.event == QueueOf(states[k], prio).ev.event
    ensures QueueOf(states[m], prio).ev.ran == QueueOf(states[k], prio).ev.ran
  {
    if k < m {
      HeldEventStays(states, steps, k, m - 1, prio);
      assert StepAt(states, steps, m - 1);
    }
  }

  lemma {:induction false} HeldRequestStays(states: seq<State>, steps: seq<Step>, k: nat, m: nat, prio: bool)
    requires IsRun(states, steps) && k <= m <= |steps| && QueueOf(states[k], prio).rq.request.Some?
    requires forall i :: k <= i < m ==> steps[i] != On(prio, RunRequest)
    ensures QueueOf(states[m], prio).rq.request == QueueOf(states[k], prio).rq.request
    ensures QueueOf(states[m], prio).rq.ran == QueueOf(states[k], prio).rq.ran
  {
    if k < m {
      HeldRequestStays(states, steps, k, m - 1, prio);
      assert StepAt(states, steps, m - 1);
    }
  }

  /** The event that was due when the runner passed is the next one to run: its callback is called by the next
      step of the runner that calls one. */
  lemma DueEventRuns(states: seq<State>, steps: seq<Step>, k: nat, m: nat, prio: bool)
    requires IsRun(states, steps) && k < m < |steps| && steps[k] == On(prio, Take) && steps[m] == On(prio, RunEvent)
    requires forall i :: k < i < m ==> steps[i] != On(prio, RunEvent)
    requires var ev := QueueOf(states[k], prio).ev; ev.events != [] && Instant(ev.events[0].abstime) < Instant(states[k].now)
    ensures QueueOf(states[m + 1], prio).ev.ran == QueueOf(states[k], prio).ev.ran + [QueueOf(states[k], prio).ev.events[0]]
    ensures QueueOf(states[m + 1], prio).ev.event == None
  {
    TakeTakes(states, steps, k, prio);
    HeldEventStays(states, steps, k + 1, m, prio);
    assert StepAt(states, steps, m);
  }

  /** And so is the request that was first, once the event of the same pass, if any, has run. */
  lemma FirstRequestRuns(states: seq<State>, steps: seq<Step>, k: nat, m: nat, prio: bool)
    requires IsRun(states, steps) && k < m < |steps| && steps[k] == On(prio, Take) && steps[m] == On(prio, RunRequest)
    requires forall i :: k < i < m ==> steps[i] != On(prio, RunRequest)
    requires QueueOf(states[k], prio).rq.requests != []
    ensures QueueOf(states[m + 1], prio).rq.ran == QueueOf(states[k], prio).rq.ran + [QueueOf(states[k], prio).rq.requests[0]]
    ensures QueueOf(states[m + 1], prio).rq.request == None && QueueOf(states[m], prio).ev.event == None
  {
    TakeTakes(states, steps, k, prio);
    HeldRequestStays(states, steps, k + 1, m, prio);
    assert StepAt(states, steps, m);
  }

  // ----- what was asked for -----

  /** When each event is to run and what for, told by the steps that schedule one: a completion is due two
      seconds after the clock was read. */
  function SchedulesOf(steps: seq<Step>, k: nat, prio: bool): (all: seq<(int, Callback)>)
    requires k <= |steps|
  {
    if k == 0 then []
    else
      SchedulesOf(steps, k - 1, prio) +
      match steps[k - 1]
      case On(p, Schedule(read, delaySec, delayUsec, code)) =>
        if p == prio then [(Instant(read) + delaySec * 1_000_000_000 + delayUsec * 1000, OtherCallback(code))] else []
      case Complete(token, read) => if prio then [] else [(Instant(read) + 2_000_000_000, CompleteCancelQuery(token))]
      case _ => []
  }

  function KindsOf(steps: seq<Step>, k: nat, prio: bool): (all: seq<RequestKind>)
    requires k <= |steps|
  {
    if k == 0 then []
    else
      KindsOf(steps, k - 1, prio) +
      match steps[k - 1]
      case On(p, Ask(kind)) => if p == prio then [kind] else []
      case _ => []
  }

  ghost predicate AsAsked(q: Queue, steps: seq<Step>, k: nat, prio: bool)
    requires k <= |steps|
  {
    && |q.ev.scheduled| == |SchedulesOf(steps, k, prio)| && |q.rq.requested| == |KindsOf(steps, k, prio)|
    && (forall i :: 0 <= i < |q.ev.scheduled| ==>
          (Instant(q.ev.scheduled[i].abstime), q.ev.scheduled[i].callback) == SchedulesOf(steps, k, prio)[i])
    && (forall i :: 0 <= i < |q.rq.requested| ==> q.rq.requested[i] == Request(i, KindsOf(steps, k, prio)[i]))
  }

  lemma OneScheduled(ev: EventSide, read: Timespec, delaySec: nat, delayUsec: nat, callback: Callback)
    requires ClockValue(read) && delayUsec < 1_000_000
    ensures var s := Scheduled(ev, read, delaySec, delayUsec, callback).scheduled;
            && |s| == |ev.scheduled| + 1 && s[..|ev.scheduled|] == ev.scheduled && s[|ev.scheduled|].callback == callback
            && Instant(s[|ev.scheduled|].abstime) == Instant(read) + delaySec * 1_000_000_000 + delayUsec * 1000
  {
    DeadlineIsExact(read, delaySec, delayUsec);
  }

  lemma OneMoreScheduled(q: Queue, steps: seq<Step>, k: nat, prio: bool, read: Timespec, delaySec: nat, delayUsec: nat, callback: Callback)
    requires k < |steps| && AsAsked(q, steps, k, prio) && ClockValue(read) && delayUsec < 1_000_000
    requires SchedulesOf(steps, k + 1, prio) ==
             SchedulesOf(steps, k, prio) + [(Instant(read) + delaySec * 1_000_000_000 + delayUsec * 1000, callback)]
    requires KindsOf(steps, k + 1, prio) == KindsOf(steps, k, prio)
    ensures AsAsked(q.(ev := Scheduled(q.ev, read, delaySec, delayUsec, callback)), steps, k + 1, prio)
  {
    OneScheduled(q.ev, read, delaySec, delayUsec, callback);
  }

  lemma OneMoreAsked(q: Queue, steps: seq<Step>, k: nat, prio: bool, kind: RequestKind)
    requires k < |steps| && AsAsked(q, steps, k, prio) && steps[k] == On(prio, Ask(kind))
    ensures var r := Request(|q.rq.requested|, kind);
            AsAsked(q.(rq := q.rq.(requests := q.rq.requests + [r], requested := q.rq.requested + [r])), steps, k + 1, prio)
  {
  }

  predicate Asks(step: Step, prio: bool) {
    match step
    case On(p, qstep) => p == prio && (qstep.Schedule? || qstep.Ask?)
    case Complete(_, _) => !prio
    case _ => false
  }

  /** Other steps leave what was ever asked for as it was. */
  lemma OthersAskNothing(s: State, step: Step, s': State, prio: bool)
    requires Next(s, step, s') && !Asks(step, prio)
    ensures QueueOf(s', prio).ev.scheduled == QueueOf(s, prio).ev.scheduled
    ensures QueueOf(s', prio).rq.requested == QueueOf(s, prio).rq.requested
  {
  }

  lemma NothingMoreAsked(steps: seq<Step>, k: nat, prio: bool)
    requires k < |steps| && !Asks(steps[k], prio)
    ensures SchedulesOf(steps, k + 1, prio) == SchedulesOf(steps, k, prio) && KindsOf(steps, k + 1, prio) == KindsOf(steps, k, prio)
  {
  }

  lemma StepAsAsked(s: State, steps: seq<Step>, k: nat, s': State, prio: bool)
    requires k < |steps| && Next(s, steps[k], s') && AsAsked(QueueOf(s, prio), steps, k, prio)
    ensures AsAsked(QueueOf(s', prio), steps, k + 1, prio)
  {
    if !Asks(steps[k], prio) {
      OthersAskNothing(s, steps[k], s', prio);
      NothingMoreAsked(steps, k, prio);
    } else {
      AskedAsAsked(s, steps, k, s', prio);
    }
  }

  lemma AskedAsAsked(s: State, steps: seq<Step>, k: nat, s': State, prio: bool)
    requires k < |steps| && Next(s, steps[k], s') && AsAsked(QueueOf(s, prio), steps, k, prio) && Asks(steps[k], prio)
    ensures AsAsked(QueueOf(s', prio), steps, k + 1, prio)
  {
    var q := QueueOf(s, prio);
    match steps[k]
    case On(_, Schedule(read, delaySec, delayUsec, code)) =>
      OneMoreScheduled(q, steps, k, prio, read, delaySec, delayUsec, OtherCallback(code));
    case On(_, Ask(kind)) => OneMoreAsked(q, steps, k, prio, kind);
    case Complete(token, read) => OneMoreScheduled(q, steps, k, prio, read, 2, 0, CompleteCancelQuery(token));
  }

  /** Every event in a queue, whether pending, taken or run, is due when a step has asked for it, counted from the
      clock that was read for it, and for what it has asked; every request is of the kind asked for; and both are
      numbered in the order of the steps. */
  lemma {:induction false} QueuesHoldWhatWasAsked(states: seq<State>, steps: seq<Step>, k: nat, prio: bool)
    requires IsRun(states, steps) && k <= |steps|
    ensures AsAsked(QueueOf(states[k], prio), steps, k, prio)
  {
    if k > 0 {
      QueuesHoldWhatWasAsked(states, steps, k - 1, prio);
      assert StepAt(states, steps, k - 1);
      StepAsAsked(states[k - 1], steps, k - 1, states[k], prio);
    }
  }

  // ----- the steps are what the code does -----

  /** The queue in memory is the queue of the step system. */
  ghost predicate Shows(heap: RequestQueue, q: Queue)
    reads heap, heap.eventNodes, heap.requestNodes
  {
    heap.ValidEvents() && heap.ValidRequests() && heap.Events() == q.ev.events && heap.Requests() == q.rq.requests && heap.closed == q.closed
  }

  /** The critical section of the runner is the step `Take`; of a closed queue it takes nothing. */
  method RunnerTakes(heap: RequestQueue, now: Timespec, ghost q: Queue) returns (e: RILEvent?, r: RILRequest?, ghost q': Queue)
    requires Shows(heap, q) && q.ev.event == None && q.rq.request == None
    modifies heap`requestList, heap`eventList, heap`requestNodes, heap`eventNodes
    ensures Shows(heap, q') && if q.closed then q' == q else QueueNext(q, now, Take, q')
    ensures q'.ev.event == (if e == null then None else Some(e.what)) && q'.rq.request == (if r == null then None else Some(r.what))
  {
    q' := q;
    ghost var events, requests := heap.Events(), heap.Requests();
    e, r := heap.TakeNext(now);
    if !heap.closed {
      assert events != [] ==> events[1..] == EventsOf(old(heap.eventNodes)[1..]);
      assert requests != [] ==> requests[1..] == RequestsOf(old(heap.requestNodes)[1..]);
      q' := q.(ev := if Due(q.ev, now) then EventTaken(q.ev, now) else q.ev, rq := RequestTaken(q.rq));
    }
  }

  /** enqueueRILEvent is the step `Schedule`. */
  method EventIsScheduled(heap: RequestQueue, e: RILEvent, read: Timespec, delaySec: nat, delayUsec: nat, code: nat,
                          ghost now: Timespec, ghost q: Queue)
    returns (ghost q': Queue)
    requires Shows(heap, q) && ReadBefore(read, now) && delayUsec < 1_000_000
    requires e !in heap.eventNodes && e.next == null && e.prev == null
    requires e.what == Event(|q.ev.scheduled|, Deadline(read, delaySec, delayUsec), OtherCallback(code))
    modifies heap`eventList, heap`eventNodes, e, heap.eventNodes
    ensures Shows(heap, q') && QueueNext(q, now, Schedule(read, delaySec, delayUsec, code), q')
  {
    heap.EnqueueEvent(e);
    q' := q.(ev := Scheduled(q.ev, read, delaySec, delayUsec, OtherCallback(code)));
  }

  /** onRequest is the step `Ask`. */
  method RequestIsAsked(heap: RequestQueue, r: RILRequest, ghost now: Timespec, ghost q: Queue) returns (ghost q': Queue)
    requires Shows(heap, q) && r !in heap.requestNodes && r.next == null && r.what.token == |q.rq.requested|
    modifies heap`requestList, heap`requestNodes, heap.requestNodes
    ensures Shows(heap, q') && QueueNext(q, now, Ask(r.what.kind), q')
  {
    heap.OnRequest(r);
    q' := q.(rq := q.rq.(requests := q.rq.requests + [r.what], requested := q.rq.requested + [r.what]));
  }

  /** The state after a cancel request has been searched for, requests have come in while the queue was unlocked,
      and the completion has been scheduled. */
  function CancelledInWindow(s: State, k: nat, arrivals: seq<Request>, read: Timespec): (s': State)
    requires !s.prioEnabled && k < |s.normal.rq.requests|
  {
    var taken := Taken(s, k);
    var rq := taken.normal.rq;
    Completed(taken.(normal := taken.normal.(rq := rq.(requests := rq.requests + arrivals, requested := rq.requested + arrivals))),
              s.normal.rq.requests[k].token, read)
  }

  /** isCancelQueryNetworkRequested is the step `CancelQuery`, requests that come in, and the step `Complete`; and
      if it finds nothing, no such step is possible. */
  method CancelIsSearched(heap: RequestQueue, id: nat, read: Timespec, arrivals: seq<RILRequest>, ghost s: State) returns (found: bool, ghost k: nat)
    requires Shows(heap, s.normal) && id == |s.normal.ev.scheduled| && !s.prioEnabled && Handling(s.normal) && s.owed == {}
    requires Loose(arrivals) && forall k :: 0 <= k < |arrivals| ==> arrivals[k] !in heap.requestNodes
    modifies heap`requestList, heap`requestNodes, heap.requestNodes, arrivals
    modifies heap`eventList, heap`eventNodes, heap.eventNodes
    ensures found ==> k < |s.normal.rq.requests| && Next(s, CancelQuery(k), Taken(s, k))
    ensures found ==> Shows(heap, CancelledInWindow(s, k, RequestsOf(arrivals), read).normal)
    ensures !found ==> Shows(heap, s.normal) && (forall j, s': State :: !Next(s, CancelQuery(j), s'))
  {
    ghost var before := heap.Requests();
    found, k := heap.IsCancelQueryNetworkRequested(heap, id, read, arrivals);
    if found {
      assert heap.Requests() == before[..k] + before[k + 1..] + RequestsOf(arrivals);
    }
  }
}
