/** Whole runs of the two queues with their runners: events and requests are enqueued by anybody at any
    time, the device closes and comes back, cancel requests are taken out, and the runners take and run
    what is there. */
module QueueRuns {
  import opened Wrappers
  import opened EventOrder
  import opened RequestQueue

  /** The event side. `event` is the runner's local variable after its critical section. The rest is
      history: what was ever scheduled (numbered), how many events had been taken when each was
      scheduled, what was taken and when, and what ran. */
  datatype EventSide = EventSide(
    events: seq<Event>, event: Option<Event>,
    scheduled: seq<Event>, born: seq<nat>, taken: seq<Event>, times: seq<Timespec>, ran: seq<Event>)

  /** The request side: `requested` and `cancelled` are history, as is `ran`. */
  datatype RequestSide = RequestSide(
    requests: seq<Request>, request: Option<Request>, requested: seq<Request>, cancelled: set<nat>, ran: seq<Request>)

  datatype Queue = Queue(ev: EventSide, rq: RequestSide, closed: bool)

  /** `owed` holds the cancelled requests whose completion event is still to be enqueued. */
  datatype State = State(normal: Queue, prio: Queue, prioEnabled: bool, now: Timespec, owed: set<nat>)

  /** `read` is the clock as enqueueRILEvent read it, before it took the lock. */
  datatype QueueStep =
    | Schedule(read: Timespec, delaySec: nat, delayUsec: nat, code: nat)
    | Ask(kind: RequestKind)
    | Close
    | Reopen
    | Take
    | RunEvent
    | RunRequest

  datatype Step =
    | Tick(to: Timespec)
    | On(prio: bool, step: QueueStep)
    | CancelQuery(k: nat)
    | Complete(token: nat, read: Timespec)

  function Scheduled(ev: EventSide, read: Timespec, delaySec: nat, delayUsec: nat, callback: Callback): EventSide {
    var e := Event(|ev.scheduled|, Deadline(read, delaySec, delayUsec), callback);
    ev.(events := Insert(ev.events, e), scheduled := ev.scheduled + [e], born := ev.born + [|ev.taken|])
  }

  predicate Due(ev: EventSide, now: Timespec) { ev.events != [] && Before(ev.events[0].abstime, now) }

  function EventTaken(ev: EventSide, now: Timespec): EventSide
    requires Due(ev, now)
  {
    var e := ev.events[0];
    ev.(event := Some(e), events := ev.events[1..], taken := ev.taken + [e], times := ev.times + [now])
  }

  function RequestTaken(rq: RequestSide): RequestSide {
    if rq.requests == [] then rq else rq.(request := Some(rq.requests[0]), requests := rq.requests[1..])
  }

  predicate FirstCancel(rq: RequestSide, k: nat) {
    k < |rq.requests| && IsCancel(rq.requests[k]) && forall j :: 0 <= j < k ==> !IsCancel(rq.requests[j])
  }

  function Cancelled(rq: RequestSide, k: nat): RequestSide
    requires k < |rq.requests|
  {
    rq.(requests := rq.requests[..k] + rq.requests[k + 1..], cancelled := rq.cancelled + {rq.requests[k].token})
  }

  predicate ReadBefore(read: Timespec, now: Timespec) { ClockValue(read) && Nanos(read) <= Nanos(now) }

  predicate QueueNext(q: Queue, now: Timespec, step: QueueStep, q': Queue) {
    match step
    case Schedule(read, delaySec, delayUsec, code) =>
      && ReadBefore(read, now) && delayUsec < 1_000_000
      && q' == q.(ev := Scheduled(q.ev, read, delaySec, delayUsec, OtherCallback(code)))
    case Ask(kind) =>
      var r := Request(|q.rq.requested|, kind);
      q' == q.(rq := q.rq.(requests := q.rq.requests + [r], requested := q.rq.requested + [r]))
    case Close => q' == q.(closed := true)
    case Reopen => q' == q.(closed := false)
    case Take =>
      && !q.closed && q.ev.event == None && q.rq.request == None
      && q' == q.(ev := if Due(q.ev, now) then EventTaken(q.ev, now) else q.ev, rq := RequestTaken(q.rq))
    case RunEvent => q.ev.event.Some? && q' == q.(ev := q.ev.(event := None, ran := q.ev.ran + [q.ev.event.value]))
    case RunRequest =>
      && q.ev.event == None && q.rq.request.Some?
      && q' == q.(rq := q.rq.(request := None, ran := q.rq.ran + [q.rq.request.value]))
  }

  function QueueOf(s: State, prio: bool): Queue { if prio then s.prio else s.normal }

  function WithQueue(s: State, prio: bool, q: Queue): State { if prio then s.(prio := q) else s.(normal := q) }

  /** Cancel requests are looked for in the priority queue if there is one. */
  function CancelSide(s: State): RequestSide { QueueOf(s, s.prioEnabled).rq }

  function Taken(s: State, k: nat): State
    requires k < |CancelSide(s).requests|
  {
    var q := QueueOf(s, s.prioEnabled);
    WithQueue(s, s.prioEnabled, q.(rq := Cancelled(q.rq, k))).(owed := s.owed + {q.rq.requests[k].token})
  }

  /** The completion goes to the normal queue, two seconds from when the clock was read. */
  function Completed(s: State, token: nat, read: Timespec): State {
    s.(normal := s.normal.(ev := Scheduled(s.normal.ev, read, 2, 0, CompleteCancelQuery(token))), owed := s.owed - {token})
  }

  /** The runner of a queue is inside a request handler. */
  predicate Handling(q: Queue) { q.ev.event == None && q.rq.request.Some? }

  /** Requests go to the priority queue only if there is one and their number is in its table, which has no
      OEM hook request in it. The search for a cancel request and the scheduling of its completion are made by
      the handler of the query for networks, which the runner of the normal queue is in. */
  predicate Next(s: State, step: Step, s': State) {
    match step
    case Tick(to) => ClockValue(to) && Nanos(s.now) <= Nanos(to) && s' == s.(now := to)
    case On(prio, qstep) =>
      && (prio && (qstep.Schedule? || qstep.Ask?) ==> s.prioEnabled)
      && (prio && qstep.Ask? ==> !qstep.kind.OemHookStrings?)
      && (!prio && qstep.RunRequest? ==> s.owed == {})
      && QueueNext(QueueOf(s, prio), s.now, qstep, QueueOf(s', prio)) && s' == WithQueue(s, prio, QueueOf(s', prio))
    case CancelQuery(k) =>
      && Handling(s.normal) && s.owed == {} && !QueueOf(s, s.prioEnabled).closed
      && FirstCancel(CancelSide(s), k) && s' == Taken(s, k)
    case Complete(token, read) => token in s.owed && ReadBefore(read, s.now) && s' == Completed(s, token, read)
  }

  const EMPTY := Queue(EventSide([], None, [], [], [], [], []), RequestSide([], None, [], {}, []), true)

  predicate Init(s: State) {
    s.normal == EMPTY && s.prio == EMPTY && ClockValue(s.now) && s.owed == {}
  }

  ghost predicate IsRun(states: seq<State>, steps: seq<Step>) {
    && |states| == |steps| + 1 && Init(states[0])
    && forall k :: 0 <= k < |steps| ==> StepAt(states, steps, k)
  }

  ghost predicate StepAt(states: seq<State>, steps: seq<Step>, k: nat)
    requires k < |steps| < |states|
  {
    Next(states[k], steps[k], states[k + 1])
  }

  function Held<T>(o: Option<T>): seq<T> { if o.Some? then [o.value] else [] }

  // ----- requests: first in, first out -----

  function Without(s: seq<Request>, tokens: set<nat>): (r: seq<Request>) {
    if s == [] then []
    else Without(s[..|s| - 1], tokens) + if s[|s| - 1].token in tokens then [] else [s[|s| - 1]]
  }

  function Flow(rq: RequestSide): seq<Request> { rq.ran + Held(rq.request) + rq.requests }

  predicate TokensAreIndices(s: seq<Request>) { forall k :: 0 <= k < |s| ==> s[k].token == k }

  ghost predicate RequestsOk(rq: RequestSide) {
    && Flow(rq) == Without(rq.requested, rq.cancelled)
    && TokensAreIndices(rq.requested)
    && (forall t :: t in rq.cancelled ==> t < |rq.requested| && IsCancel(rq.requested[t]))
  }

  lemma {:induction false} WithoutMembers(s: seq<Request>, tokens: set<nat>)
    ensures forall r :: r in Without(s, tokens) <==> r in s && r.token !in tokens
  {
    if s != [] {
      WithoutMembers(s[..|s| - 1], tokens);
      assert s == s[..|s| - 1] + [s[|s| - 1]];
    }
  }

  lemma {:induction false} WithoutUnused(s: seq<Request>, tokens: set<nat>, t: nat)
    requires forall k :: 0 <= k < |s| ==> s[k].token != t
    ensures Without(s, tokens + {t}) == Without(s, tokens)
  {
    if s != [] {
      WithoutUnused(s[..|s| - 1], tokens, t);
    }
  }

  lemma DropFromFront<T>(a: seq<T>, b: seq<T>, k: nat)
    requires k < |a|
    ensures (a + b)[..k] + (a + b)[k + 1..] == a[..k] + a[k + 1..] + b
  {
  }

  lemma TokenOf(s: seq<Request>, tokens: set<nat>, k: nat)
    requires TokensAreIndices(s) && k < |Without(s, tokens)|
    ensures Without(s, tokens)[k].token < |s|
  {
    WithoutMembers(s, tokens);
    assert Without(s, tokens)[k] in s;
  }

  /** Taking out one element of the filtered sequence is filtering its token as well. */
  lemma {:induction false} WithoutOneMore(s: seq<Request>, tokens: set<nat>, k: nat)
    requires TokensAreIndices(s) && k < |Without(s, tokens)|
    ensures Without(s, tokens + {Without(s, tokens)[k].token}) == Without(s, tokens)[..k] + Without(s, tokens)[k + 1..]
  {
    var init, last := s[..|s| - 1], s[|s| - 1];
    var t, wi := Without(s, tokens)[k].token, Without(init, tokens);
    var tail := if last.token in tokens then [] else [last];
    assert Without(s, tokens) == wi + tail;
    if k < |wi| {
      TokenOf(init, tokens, k);
      WithoutOneMore(init, tokens, k);
      DropFromFront(wi, tail, k);
    } else {
      assert t == last.token;
      WithoutUnused(init, tokens, t);
      assert (wi + tail)[..k] == wi;
    }
  }

  lemma AskKeepsRequests(rq: RequestSide, r: Request)
    requires RequestsOk(rq) && r.token == |rq.requested|
    ensures RequestsOk(rq.(requests := rq.requests + [r], requested := rq.requested + [r]))
  {
    assert (rq.requested + [r])[..|rq.requested|] == rq.requested;
    assert Flow(rq.(requests := rq.requests + [r], requested := rq.requested + [r])) == Flow(rq) + [r];
  }

  lemma CancelKeepsRequests(rq: RequestSide, k: nat)
    requires RequestsOk(rq) && k < |rq.requests| && IsCancel(rq.requests[k])
    ensures RequestsOk(Cancelled(rq, k)) && rq.requests[k].token !in rq.cancelled
  {
    var gone := |rq.ran| + |Held(rq.request)| + k;
    assert Flow(rq)[gone] == rq.requests[k];
    WithoutOneMore(rq.requested, rq.cancelled, gone);
    WithoutMembers(rq.requested, rq.cancelled);
    assert Flow(Cancelled(rq, k)) == Flow(rq)[..gone] + Flow(rq)[gone + 1..];
    assert rq.requests[k] in Flow(rq);
  }

  lemma RequestsKept(q: Queue, now: Timespec, step: QueueStep, q': Queue)
    requires RequestsOk(q.rq) && QueueNext(q, now, step, q')
    ensures RequestsOk(q'.rq) && q'.rq.cancelled == q.rq.cancelled
  {
    match step
    case Ask(kind) => AskKeepsRequests(q.rq, Request(|q.rq.requested|, kind));
    case Take => assert Flow(q'.rq) == Flow(q.rq);
    case RunRequest => assert Flow(q'.rq) == Flow(q.rq);
    case _ =>
  }

  // ----- events -----

  /** `a` has to go before `b`: earlier deadline, or the same one and scheduled earlier. */
  predicate Precedes(a: Event, b: Event) {
    !After(a.abstime, b.abstime) && (a.abstime == b.abstime ==> a.id < b.id)
  }

  ghost predicate Conserved(ev: EventSide) {
    && multiset(ev.scheduled) == multiset(ev.events) + multiset(ev.taken)
    && ev.taken == ev.ran + Held(ev.event)
    && (forall k :: 0 <= k < |ev.scheduled| ==> ev.scheduled[k].id == k && StoredTime(ev.scheduled[k].abstime))
  }

  ghost predicate AllPrecede(s: seq<Event>) { forall j, k :: 0 <= j < k < |s| ==> Precedes(s[j], s[k]) }

  ghost predicate InOrder(ev: EventSide) {
    && (forall e :: e in ev.events ==> e.id < |ev.scheduled|)
    && AllPrecede(ev.events)
  }

  /** The log of taken events: none was taken early, and none that was pending was overtaken. */
  ghost predicate LogOk(ev: EventSide, now: Timespec) {
    && |ev.times| == |ev.taken| && |ev.born| == |ev.scheduled|
    && (forall e :: e in ev.taken ==> e.id < |ev.scheduled|)
    && (forall k :: 0 <= k < |ev.born| ==> ev.born[k] <= |ev.taken|)
    && (forall k :: 0 <= k < |ev.taken| ==>
          Before(ev.taken[k].abstime, ev.times[k]) && ClockValue(ev.times[k]) && Nanos(ev.times[k]) <= Nanos(now))
    && (forall j, k :: 0 <= j < k < |ev.taken| && ev.born[ev.taken[k].id] <= j ==> Precedes(ev.taken[j], ev.taken[k]))
  }

  /** What is still pending was not overtaken either. */
  ghost predicate NotOvertaken(ev: EventSide) {
    && |ev.born| == |ev.scheduled|
    && forall j, k :: 0 <= j < |ev.taken| && 0 <= k < |ev.events| && ev.events[k].id < |ev.born| && ev.born[ev.events[k].id] <= j ==>
         Precedes(ev.taken[j], ev.events[k])
  }

  /** Each element of the list after insertion, by position. */
  lemma InsertedAt(s: seq<Event>, e: Event, p: nat, j: nat)
    requires p <= |s| && Insert(s, e) == s[..p] + [e] + s[p..] && j <= |s|
    ensures |Insert(s, e)| == |s| + 1
    ensures Insert(s, e)[j] == if j < p then s[j] else if j == p then e else s[j - 1]
  {
  }

  lemma InsertMembers(s: seq<Event>, e: Event)
    ensures forall f :: f in Insert(s, e) <==> f == e || f in s
  {
    InsertAdds(s, e);
    forall f
      ensures f in Insert(s, e) <==> f == e || f in s
    {
      assert f in Insert(s, e) <==> f in multiset(Insert(s, e));
    }
  }

  /** A newer event goes behind everything that is not later, so order and ties are respected. */
  lemma InsertPrecedes(s: seq<Event>, e: Event)
    requires AllPrecede(s) && forall k :: 0 <= k < |s| ==> s[k].id < e.id
    ensures AllPrecede(Insert(s, e))
  {
    var p := InsertIsAt(s, e);
    var r := Insert(s, e);
    assert |r| == |s| + 1;
    forall j, k | 0 <= j < k < |r|
      ensures Precedes(r[j], r[k])
    {
      InsertedAt(s, e, p, j);
      InsertedAt(s, e, p, k);
      if j == p && p < k - 1 {
        assert Precedes(s[p], s[k - 1]);
      }
    }
  }

  lemma ScheduleKeepsOrder(ev: EventSide, read: Timespec, delaySec: nat, delayUsec: nat, callback: Callback)
    requires InOrder(ev)
    ensures InOrder(Scheduled(ev, read, delaySec, delayUsec, callback))
  {
    var e := Event(|ev.scheduled|, Deadline(read, delaySec, delayUsec), callback);
    assert forall k :: 0 <= k < |ev.events| ==> ev.events[k] in ev.events;
    InsertPrecedes(ev.events, e);
    InsertMembers(ev.events, e);
  }

  lemma PushCounts(s: seq<Event>, e: Event)
    ensures multiset(s + [e]) == multiset(s) + multiset{e}
  {
  }

  lemma NumberedOnPush(s: seq<Event>, e: Event)
    requires (forall k :: 0 <= k < |s| ==> s[k].id == k && StoredTime(s[k].abstime)) && e.id == |s| && StoredTime(e.abstime)
    ensures forall k :: 0 <= k < |s + [e]| ==> (s + [e])[k].id == k && StoredTime((s + [e])[k].abstime)
  {
  }

  lemma ScheduleConserves(ev: EventSide, read: Timespec, delaySec: nat, delayUsec: nat, callback: Callback)
    requires Conserved(ev) && ClockValue(read) && delayUsec < 1_000_000
    ensures Conserved(Scheduled(ev, read, delaySec, delayUsec, callback))
  {
    var e := Event(|ev.scheduled|, Deadline(read, delaySec, delayUsec), callback);
    DeadlineIsExact(read, delaySec, delayUsec);
    NumberedOnPush(ev.scheduled, e);
    InsertAdds(ev.events, e);
    PushCounts(ev.scheduled, e);
  }

  lemma ScheduleKeepsLog(ev: EventSide, read: Timespec, now: Timespec, delaySec: nat, delayUsec: nat, callback: Callback)
    requires LogOk(ev, now)
    ensures LogOk(Scheduled(ev, read, delaySec, delayUsec, callback), now)
  {
    assert forall k :: 0 <= k < |ev.taken| ==> ev.taken[k] in ev.taken;
  }

  /** The new event was not yet there when the others were taken. */
  lemma ScheduleOvertakesNothing(ev: EventSide, read: Timespec, delaySec: nat, delayUsec: nat, callback: Callback)
    requires InOrder(ev) && NotOvertaken(ev)
    ensures NotOvertaken(Scheduled(ev, read, delaySec, delayUsec, callback))
  {
    var e := Event(|ev.scheduled|, Deadline(read, delaySec, delayUsec), callback);
    var p := InsertIsAt(ev.events, e);
    var s := Scheduled(ev, read, delaySec, delayUsec, callback);
    forall j, k | 0 <= j < |s.taken| && 0 <= k < |s.events| && s.events[k].id < |s.born| && s.born[s.events[k].id] <= j
      ensures Precedes(s.taken[j], s.events[k])
    {
      InsertedAt(ev.events, e, p, k);
      if k != p {
        var m := if k < p then k else k - 1;
        assert s.events[k] == ev.events[m] && ev.events[m] in ev.events;
      }
    }
  }

  lemma TakeKeepsEvents(ev: EventSide, now: Timespec)
    requires Conserved(ev) && InOrder(ev) && ev.event == None && Due(ev, now)
    ensures Conserved(EventTaken(ev, now)) && InOrder(EventTaken(ev, now))
  {
    assert ev.events == [ev.events[0]] + ev.events[1..];
  }

  lemma TakeKeepsLog(ev: EventSide, now: Timespec)
    requires LogOk(ev, now) && InOrder(ev) && NotOvertaken(ev) && Due(ev, now) && ClockValue(now)
    ensures LogOk(EventTaken(ev, now), now) && NotOvertaken(EventTaken(ev, now))
  {
    assert ev.events[0] in ev.events;
    assert forall k :: 0 <= k < |ev.taken| ==> ev.taken[k] in ev.taken;
  }

  ghost predicate EventsOk(ev: EventSide, now: Timespec) {
    Conserved(ev) && InOrder(ev) && LogOk(ev, now) && NotOvertaken(ev)
  }

  lemma ScheduleKeepsEvents(ev: EventSide, read: Timespec, now: Timespec, delaySec: nat, delayUsec: nat, callback: Callback)
    requires EventsOk(ev, now) && ClockValue(read) && delayUsec < 1_000_000
    ensures EventsOk(Scheduled(ev, read, delaySec, delayUsec, callback), now)
  {
    ScheduleConserves(ev, read, delaySec, delayUsec, callback);
    ScheduleKeepsOrder(ev, read, delaySec, delayUsec, callback);
    ScheduleKeepsLog(ev, read, now, delaySec, delayUsec, callback);
    ScheduleOvertakesNothing(ev, read, delaySec, delayUsec, callback);
  }

  lemma EventsKept(q: Queue, now: Timespec, step: QueueStep, q': Queue)
    requires EventsOk(q.ev, now) && ClockValue(now) && QueueNext(q, now, step, q')
    ensures EventsOk(q'.ev, now) && |q.ev.scheduled| <= |q'.ev.scheduled|
  {
    match step
    case Schedule(read, delaySec, delayUsec, code) => ScheduleKeepsEvents(q.ev, read, now, delaySec, delayUsec, OtherCallback(code));
    case Take =>
      if Due(q.ev, now) {
        TakeKeepsEvents(q.ev, now);
        TakeKeepsLog(q.ev, now);
      }
    case _ =>
  }

  // ----- both queues -----

  ghost predicate QueueOk(q: Queue, now: Timespec) { RequestsOk(q.rq) && EventsOk(q.ev, now) }

  /** Every cancelled request is owed its completion or has one event that bears its token, and only such
      events complete a cancel request. */
  ghost predicate CompletionsOk(s: State) {
    && s.owed <= s.normal.rq.cancelled && s.prio.rq.cancelled == {}
    && (forall i, t: nat :: !Completes(s.prio.ev.scheduled, i, t))
    && (forall i, t: nat :: Completes(s.normal.ev.scheduled, i, t) ==> t in s.normal.rq.cancelled && t !in s.owed)
    && (forall i, j, t: nat :: Completes(s.normal.ev.scheduled, i, t) && Completes(s.normal.ev.scheduled, j, t) ==> i == j)
    && (forall t :: t in s.normal.rq.cancelled && t !in s.owed ==> exists i :: Completes(s.normal.ev.scheduled, i, t))
  }

  predicate Completes(scheduled: seq<Event>, i: int, t: nat) {
    0 <= i < |scheduled| && scheduled[i].callback == CompleteCancelQuery(t)
  }

  /** Without OEM hook requests in the priority queue nothing is ever found there; and whoever owes a
      completion is the runner of the normal queue. */
  ghost predicate CancelsOk(s: State) {
    && (forall r :: r in s.prio.rq.requested ==> !r.kind.OemHookStrings?)
    && (s.prioEnabled ==> s.normal.rq.cancelled == {})
    && (s.owed != {} ==> Handling(s.normal) && !s.prioEnabled)
  }

  ghost predicate Inv(s: State) {
    ClockValue(s.now) && QueueOk(s.normal, s.now) && QueueOk(s.prio, s.now) && CompletionsOk(s) && CancelsOk(s)
  }

  lemma LaterIsOk(q: Queue, now: Timespec, to: Timespec)
    requires QueueOk(q, now) && Nanos(now) <= Nanos(to)
    ensures QueueOk(q, to)
  {
  }

  /** One more event with another callback completes nothing. */
  lemma OtherCompletesNothing(scheduled: seq<Event>, e: Event)
    requires e.callback.OtherCallback?
    ensures forall i, t: nat :: Completes(scheduled + [e], i, t) <==> Completes(scheduled, i, t)
  {
  }

  lemma ScheduledGrows(q: Queue, now: Timespec, step: QueueStep, q': Queue)
    requires QueueNext(q, now, step, q')
    ensures forall i, t: nat :: Completes(q'.ev.scheduled, i, t) <==> Completes(q.ev.scheduled, i, t)
  {
    if step.Schedule? {
      var e := Event(|q.ev.scheduled|, Deadline(step.read, step.delaySec, step.delayUsec), OtherCallback(step.code));
      OtherCompletesNothing(q.ev.scheduled, e);
    }
  }

  lemma QueueStepKeepsCompletions(s: State, prio: bool, step: QueueStep, s': State)
    requires CompletionsOk(s) && Next(s, On(prio, step), s') && QueueOf(s', prio).rq.cancelled == QueueOf(s, prio).rq.cancelled
    ensures CompletionsOk(s')
  {
    ScheduledGrows(QueueOf(s, prio), s.now, step, QueueOf(s', prio));
    forall t | t in s'.normal.rq.cancelled && t !in s'.owed
      ensures exists i :: Completes(s'.normal.ev.scheduled, i, t)
    {
      var i :| Completes(s.normal.ev.scheduled, i, t);
      assert Completes(s'.normal.ev.scheduled, i, t);
    }
  }

  lemma QueueStepKeepsCancels(s: State, prio: bool, step: QueueStep, s': State)
    requires CancelsOk(s) && Next(s, On(prio, step), s') && QueueOf(s', prio).rq.cancelled == QueueOf(s, prio).rq.cancelled
    ensures CancelsOk(s')
  {
  }

  lemma QueueStepKeepsInv(s: State, prio: bool, step: QueueStep, s': State)
    requires Inv(s) && Next(s, On(prio, step), s')
    ensures Inv(s')
  {
    RequestsKept(QueueOf(s, prio), s.now, step, QueueOf(s', prio));
    EventsKept(QueueOf(s, prio), s.now, step, QueueOf(s', prio));
    QueueStepKeepsCompletions(s, prio, step, s');
    QueueStepKeepsCancels(s, prio, step, s');
  }

  lemma PendingWereAsked(rq: RequestSide)
    requires RequestsOk(rq)
    ensures forall r :: r in rq.requests ==> r in rq.requested
  {
    WithoutMembers(rq.requested, rq.cancelled);
    assert forall r :: r in rq.requests ==> r in Flow(rq);
  }

  /** With a priority queue the search for a cancel request finds none. */
  lemma NoCancelInPrio(s: State, k: nat)
    requires RequestsOk(s.prio.rq) && CancelsOk(s)
    ensures !FirstCancel(s.prio.rq, k)
  {
    PendingWereAsked(s.prio.rq);
  }

  lemma CancelledIsOk(q: Queue, now: Timespec, k: nat)
    requires QueueOk(q, now) && FirstCancel(q.rq, k)
    ensures QueueOk(q.(rq := Cancelled(q.rq, k)), now)
  {
    CancelKeepsRequests(q.rq, k);
  }

  lemma OwedGrows(s: State, k: nat)
    requires RequestsOk(s.normal.rq) && CompletionsOk(s) && FirstCancel(s.normal.rq, k) && !s.prioEnabled
    ensures CompletionsOk(Taken(s, k))
  {
    CancelKeepsRequests(s.normal.rq, k);
  }

  lemma CancelKeepsInv(s: State, k: nat)
    requires Inv(s) && FirstCancel(CancelSide(s), k) && Next(s, CancelQuery(k), Taken(s, k))
    ensures Inv(Taken(s, k))
  {
    NoCancelInPrio(s, k);
    CancelledIsOk(s.normal, s.now, k);
    OwedGrows(s, k);
  }

  lemma CompletionsGrow(s: State, token: nat, read: Timespec)
    requires CompletionsOk(s) && token in s.owed
    ensures CompletionsOk(Completed(s, token, read))
  {
    var s' := Completed(s, token, read);
    var before, after := s.normal.ev.scheduled, s'.normal.ev.scheduled;
    assert forall i, t: nat :: Completes(after, i, t) <==> Completes(before, i, t) || (i == |before| && t == token);
    forall t | t in s'.normal.rq.cancelled && t !in s'.owed
      ensures exists i :: Completes(after, i, t)
    {
      if t == token {
        assert Completes(after, |before|, t);
      } else {
        var i :| Completes(before, i, t);
        assert Completes(after, i, t);
      }
    }
  }

  lemma CompletionIsEnqueued(q: Queue, read: Timespec, now: Timespec, token: nat)
    requires QueueOk(q, now) && ReadBefore(read, now)
    ensures QueueOk(q.(ev := Scheduled(q.ev, read, 2, 0, CompleteCancelQuery(token))), now)
  {
    ScheduleKeepsEvents(q.ev, read, now, 2, 0, CompleteCancelQuery(token));
  }

  lemma CompleteKeepsInv(s: State, token: nat, read: Timespec)
    requires Inv(s) && token in s.owed && ReadBefore(read, s.now)
    ensures Inv(Completed(s, token, read))
  {
    CompletionIsEnqueued(s.normal, read, s.now, token);
    CompletionsGrow(s, token, read);
  }

  lemma EmptyIsOk(now: Timespec)
    ensures QueueOk(EMPTY, now)
  {
  }

  lemma InitIsOk(s: State)
    requires Init(s)
    ensures Inv(s)
  {
    EmptyIsOk(s.now);
  }

  lemma AllKept(s: State, step: Step, s': State)
    requires Inv(s) && Next(s, step, s')
    ensures Inv(s')
  {
    match step
    case Tick(to) =>
      LaterIsOk(s.normal, s.now, to);
      LaterIsOk(s.prio, s.now, to);
    case On(prio, qstep) => QueueStepKeepsInv(s, prio, qstep, s');
    case CancelQuery(k) => CancelKeepsInv(s, k);
    case Complete(token, read) => CompleteKeepsInv(s, token, read);
  }

  lemma StepKeepsInv(states: seq<State>, steps: seq<Step>, k: nat)
    requires |states| == |steps| + 1 && 0 < k <= |steps| && Inv(states[k - 1]) && StepAt(states, steps, k - 1)
    ensures Inv(states[k])
  {
    var j := k - 1;
    AllKept(states[j], steps[j], states[k]);
  }

  lemma StartIsOk(states: seq<State>, steps: seq<Step>)
    requires IsRun(states, steps)
    ensures Inv(states[0])
  {
    InitIsOk(states[0]);
  }

  lemma {:induction false} StepsKeepInv(states: seq<State>, steps: seq<Step>, k: nat)
    requires IsRun(states, steps) && 0 < k <= |steps|
    ensures Inv(states[k])
  {
    if k == 1 {
      StartIsOk(states, steps);
    } else {
      StepsKeepInv(states, steps, k - 1);
    }
    assert StepAt(states, steps, k - 1);
    StepKeepsInv(states, steps, k);
  }

  lemma RunKeepsAll(states: seq<State>, steps: seq<Step>, k: nat)
    requires IsRun(states, steps) && k <= |steps|
    ensures Inv(states[k])
  {
    if k == 0 {
      StartIsOk(states, steps);
    } else {
      StepsKeepInv(states, steps, k);
    }
  }

  lemma QueueIsOk(states: seq<State>, steps: seq<Step>, k: nat, prio: bool)
    requires IsRun(states, steps) && k <= |steps|
    ensures QueueOk(QueueOf(states[k], prio), states[k].now)
  {
    RunKeepsAll(states, steps, k);
  }

  // ----- the results -----

  lemma {:induction false} NumberedOnce(s: seq<Event>, k: nat)
    requires (forall j :: 0 <= j < |s| ==> s[j].id == j) && k < |s|
    ensures multiset(s)[s[k]] == 1
  {
    var init, last := s[..|s| - 1], s[|s| - 1];
    assert s == init + [last];
    if k < |init| {
      NumberedOnce(init, k);
    } else {
      assert last !in init;
    }
  }

  /** Closing and reopening included, every event ever scheduled in a queue is in exactly one place, once:
      still pending, in the runner's hands, or run. */
  lemma EveryEventOnce(states: seq<State>, steps: seq<Step>, k: nat, prio: bool, id: nat)
    requires IsRun(states, steps) && k <= |steps| && id < |QueueOf(states[k], prio).ev.scheduled|
    ensures
      var ev := QueueOf(states[k], prio).ev;
      var e := ev.scheduled[id];
      multiset(ev.events)[e] + multiset(Held(ev.event))[e] + multiset(ev.ran)[e] == 1
  {
    QueueIsOk(states, steps, k, prio);
    var ev := QueueOf(states[k], prio).ev;
    NumberedOnce(ev.scheduled, id);
    assert multiset(ev.taken) == multiset(ev.ran) + multiset(Held(ev.event));
  }

  /** Requests run in the order of arrival: what has run, what the runner holds and what is pending
      make up, in this order, everything that was ever asked for except the cancelled requests; and
      only cancel requests are ever cancelled. */
  lemma RequestsAreFifo(states: seq<State>, steps: seq<Step>, k: nat, prio: bool)
    requires IsRun(states, steps) && k <= |steps|
    ensures
      var rq := QueueOf(states[k], prio).rq;
      && rq.ran + Held(rq.request) + rq.requests == Without(rq.requested, rq.cancelled)
      && (forall r :: r in rq.ran || r in rq.requests ==> r.token !in rq.cancelled)
      && (forall t :: t in rq.cancelled ==> t < |rq.requested| && rq.requested[t].token == t && IsCancel(rq.requested[t]))
  {
    QueueIsOk(states, steps, k, prio);
    var rq := QueueOf(states[k], prio).rq;
    WithoutMembers(rq.requested, rq.cancelled);
    assert forall r :: r in rq.ran || r in rq.requests ==> r in Flow(rq);
  }

  /** The completion of request `t` is pending, in the runner's hands, or has been run. */
  ghost predicate CompletedOnce(ev: EventSide, t: nat) {
    exists i :: Completes(ev.scheduled, i, t) && (forall j :: Completes(ev.scheduled, j, t) ==> j == i)
                && multiset(ev.events)[ev.scheduled[i]] + multiset(Held(ev.event))[ev.scheduled[i]] + multiset(ev.ran)[ev.scheduled[i]] == 1
  }

  /** A request that was taken out is completed by exactly one event of the normal queue, which bears its
      token, or that event is still to be enqueued; and no event completes any other request. */
  lemma CancelledAreCompleted(states: seq<State>, steps: seq<Step>, k: nat, t: nat)
    requires IsRun(states, steps) && k <= |steps|
    ensures
      var s := states[k];
      && (t in s.normal.rq.cancelled ==> if t in s.owed then forall i :: !Completes(s.normal.ev.scheduled, i, t) else CompletedOnce(s.normal.ev, t))
      && (t !in s.normal.rq.cancelled ==> forall i :: !Completes(s.normal.ev.scheduled, i, t))
      && s.prio.rq.cancelled == {} && forall i :: !Completes(s.prio.ev.scheduled, i, t)
  {
    RunKeepsAll(states, steps, k);
    var s := states[k];
    if t in s.normal.rq.cancelled && t !in s.owed {
      var i :| Completes(s.normal.ev.scheduled, i, t);
      EveryEventOnce(states, steps, k, false, i);
    }
  }

  lemma {:induction false} EnabledStays(states: seq<State>, steps: seq<Step>, k: nat)
    requires IsRun(states, steps) && k <= |steps|
    ensures states[k].prioEnabled == states[0].prioEnabled
  {
    if k > 0 {
      EnabledStays(states, steps, k - 1);
      assert StepAt(states, steps, k - 1);
    }
  }

  /** With a priority queue no cancel request is ever found, as none is ever put into the queue that is
      searched: it waits in the normal queue until the query for networks that it should end is over. */
  lemma CancelIsDeadWithPriority(states: seq<State>, steps: seq<Step>, k: nat)
    requires IsRun(states, steps) && k <= |steps| && states[0].prioEnabled
    ensures k < |steps| ==> !steps[k].CancelQuery? && !steps[k].Complete?
    ensures var rq := states[k].normal.rq; rq.ran + Held(rq.request) + rq.requests == rq.requested
  {
    RunKeepsAll(states, steps, k);
    EnabledStays(states, steps, k);
    var s := states[k];
    if k < |steps| {
      assert StepAt(states, steps, k);
      if steps[k].CancelQuery? {
        NoCancelInPrio(s, steps[k].k);
      }
    }
    WithoutNothing(s.normal.rq.requested);
  }

  lemma {:induction false} WithoutNothing(s: seq<Request>)
    ensures Without(s, {}) == s
  {
    if s != [] {
      WithoutNothing(s[..|s| - 1]);
      assert s == s[..|s| - 1] + [s[|s| - 1]];
    }
  }

  /** Without one, nobody takes anything out of the queue between the removal of a cancel request and the
      scheduling of its completion, when it is unlocked: its runner is the one that does both. */
  lemma NothingLeavesInTheWindow(states: seq<State>, steps: seq<Step>, k: nat)
    requires IsRun(states, steps) && k < |steps| && states[k].owed != {}
    ensures steps[k] != On(false, Take) && steps[k] != On(false, RunEvent) && steps[k] != On(false, RunRequest) && !steps[k].CancelQuery?
    ensures states[k].normal.rq.requests <= states[k + 1].normal.rq.requests
  {
    RunKeepsAll(states, steps, k);
    assert StepAt(states, steps, k);
  }

  /** Events run in the order in which they are taken, never before their deadline; and an event that
      was pending when another one was taken had no earlier deadline, nor the same one and priority
      by age. A deadline may be overdue when it is enqueued, as the clock is read before. */
  lemma EventsRunInTime(states: seq<State>, steps: seq<Step>, k: nat, prio: bool, j: nat)
    requires IsRun(states, steps) && k <= |steps| && j < |QueueOf(states[k], prio).ev.ran|
    ensures
      var ev := QueueOf(states[k], prio).ev;
      && |ev.times| == |ev.taken| && ev.ran <= ev.taken
      && Nanos(ev.ran[j].abstime) <= Nanos(ev.times[j]) <= Nanos(states[k].now)
      && (forall m :: j < m < |ev.ran| && ev.ran[m].id < |ev.born| && ev.born[ev.ran[m].id] <= j ==>
            Nanos(ev.ran[j].abstime) <= Nanos(ev.ran[m].abstime) && (ev.ran[j].abstime == ev.ran[m].abstime ==> ev.ran[j].id < ev.ran[m].id))
      && (forall m :: 0 <= m < |ev.events| && ev.events[m].id < |ev.born| && ev.born[ev.events[m].id] <= j ==>
            Nanos(ev.ran[j].abstime) <= Nanos(ev.events[m].abstime))
  {
    QueueIsOk(states, steps, k, prio);
    InTime(QueueOf(states[k], prio).ev, states[k].now, j);
  }

  lemma InTime(ev: EventSide, now: Timespec, j: nat)
    requires EventsOk(ev, now) && j < |ev.ran|
    ensures |ev.times| == |ev.taken| && ev.ran <= ev.taken
    ensures Nanos(ev.ran[j].abstime) <= Nanos(ev.times[j]) <= Nanos(now)
    ensures forall m :: j < m < |ev.ran| && ev.ran[m].id < |ev.born| && ev.born[ev.ran[m].id] <= j ==>
              Nanos(ev.ran[j].abstime) <= Nanos(ev.ran[m].abstime) && (ev.ran[j].abstime == ev.ran[m].abstime ==> ev.ran[j].id < ev.ran[m].id)
    ensures forall m :: 0 <= m < |ev.events| && ev.events[m].id < |ev.born| && ev.born[ev.events[m].id] <= j ==>
              Nanos(ev.ran[j].abstime) <= Nanos(ev.events[m].abstime)
  {
    StoredEverywhere(ev);
    assert ev.taken[j] == ev.ran[j];
    DueExactly(ev.taken[j].abstime, ev.times[j]);
    forall m | j < m < |ev.ran| && ev.born[ev.ran[m].id] <= j
      ensures Nanos(ev.ran[j].abstime) <= Nanos(ev.ran[m].abstime)
    {
      assert ev.taken[m] == ev.ran[m];
      OrderAgrees(ev.ran[j].abstime, ev.ran[m].abstime);
    }
    forall m | 0 <= m < |ev.events| && ev.born[ev.events[m].id] <= j
      ensures Nanos(ev.ran[j].abstime) <= Nanos(ev.events[m].abstime)
    {
      OrderAgrees(ev.ran[j].abstime, ev.events[m].abstime);
    }
  }

  lemma StoredEverywhere(ev: EventSide)
    requires Conserved(ev)
    ensures forall k :: 0 <= k < |ev.taken| ==> StoredTime(ev.taken[k].abstime)
    ensures forall k :: 0 <= k < |ev.events| ==> StoredTime(ev.events[k].abstime)
  {
    forall e | e in ev.events || e in ev.taken
      ensures StoredTime(e.abstime)
    {
      assert e in multiset(ev.scheduled);
    }
    assert forall k :: 0 <= k < |ev.taken| ==> ev.taken[k] in ev.taken;
    assert forall k :: 0 <= k < |ev.events| ==> ev.events[k] in ev.events;
  }
}
