/** The request queue of the RIL daemon as it sits in memory: a FIFO list of requests and a doubly
    linked list of events sorted by deadline, both relinked in place. */
module RequestQueue {
  import opened EventOrder

  const SWI_CANCEL_QUERY_AVAILABLE_NETWORKS := 45

  /** OEM hook requests carry strings; `subcommand` is the number at the start of the first one. */
  datatype RequestKind = OemHookStrings(subcommand: int) | OtherRequest(code: int)

  datatype Request = Request(token: nat, kind: RequestKind)

  predicate IsCancel(r: Request) { r.kind == OemHookStrings(SWI_CANCEL_QUERY_AVAILABLE_NETWORKS) }

  /** The event that completes a cancel request. */
  function Completion(id: nat, read: Timespec, token: nat): (e: Event) { Event(id, Deadline(read, 2, 0), CompleteCancelQuery(token)) }

  /** It is due two seconds after the clock was read. */
  lemma CompletionIsDue(id: nat, read: Timespec, token: nat)
    requires 0 <= read.nsec < 1_000_000_000
    ensures var e := Completion(id, read, token);
            && e.callback == CompleteCancelQuery(token)
            && e.abstime.sec * 1_000_000_000 + e.abstime.nsec == read.sec * 1_000_000_000 + read.nsec + 2_000_000_000
  {
    DeadlineIsExact(read, 2, 0);
  }

  class RILEvent {
    const what: Event
    var next: RILEvent?
    var prev: RILEvent?

    constructor (what: Event)
      ensures this.what == what && next == null && prev == null
    {
      this.what := what;
      next, prev := null, null;
    }
  }

  class RILRequest {
    const what: Request
    var next: RILRequest?

    constructor (what: Request)
      ensures this.what == what && next == null
    {
      this.what := what;
      next := null;
    }
  }

  ghost function EventsOf(nodes: seq<RILEvent>): (s: seq<Event>) {
    seq(|nodes|, k requires 0 <= k < |nodes| => nodes[k].what)
  }

  ghost function RequestsOf(nodes: seq<RILRequest>): (s: seq<Request>) {
    seq(|nodes|, k requires 0 <= k < |nodes| => nodes[k].what)
  }

  ghost predicate Distinct<T>(s: seq<T>) {
    forall j, k :: 0 <= j < k < |s| ==> s[j] != s[k]
  }

  /** The event list: `prev` is right on every node but the first, where nothing is claimed. */
  ghost predicate EventChain(head: RILEvent?, nodes: seq<RILEvent>)
    reads nodes
  {
    && head == (if nodes == [] then null else nodes[0])
    && Distinct(nodes)
    && (forall k {:trigger nodes[k].next} :: 0 <= k < |nodes| ==> nodes[k].next == if k + 1 < |nodes| then nodes[k + 1] else null)
    && (forall k {:trigger nodes[k].prev} :: 1 <= k < |nodes| ==> nodes[k].prev == nodes[k - 1])
  }

  ghost predicate RequestChain(head: RILRequest?, nodes: seq<RILRequest>)
    reads nodes
  {
    && head == (if nodes == [] then null else nodes[0])
    && Distinct(nodes)
    && (forall k {:trigger nodes[k].next} :: 0 <= k < |nodes| ==> nodes[k].next == if k + 1 < |nodes| then nodes[k + 1] else null)
  }

  /** A stack of requests linked newest first; `stacked` lists them oldest first. */
  ghost predicate StackChain(top: RILRequest?, stacked: seq<RILRequest>)
    reads stacked
  {
    && top == (if stacked == [] then null else stacked[|stacked| - 1])
    && Distinct(stacked)
    && (forall k {:trigger stacked[k].next} :: 0 <= k < |stacked| ==> stacked[k].next == if k > 0 then stacked[k - 1] else null)
  }

  /** The requests from position `k` on are still linked as they were, so they are a list of their own. */
  lemma BehindIsChain(head: RILRequest?, nodes: seq<RILRequest>, k: nat)
    requires k <= |nodes| && Distinct(nodes) && head == if k < |nodes| then nodes[k] else null
    requires forall j {:trigger nodes[j].next} :: k <= j < |nodes| ==> nodes[j].next == if j + 1 < |nodes| then nodes[j + 1] else null
    ensures RequestChain(head, nodes[k..])
  {
  }

  /** The requests in front of position `k` are linked backwards, so they are a stack. */
  lemma FrontIsStack(top: RILRequest?, nodes: seq<RILRequest>, k: nat)
    requires k <= |nodes| && Distinct(nodes) && top == if k > 0 then nodes[k - 1] else null
    requires forall j {:trigger nodes[j].next} :: 0 <= j < k ==> nodes[j].next == if j > 0 then nodes[j - 1] else null
    ensures StackChain(top, nodes[..k])
  {
  }

  /** New requests that are not linked anywhere yet. */
  ghost predicate Loose(arrivals: seq<RILRequest>)
    reads arrivals
  {
    Distinct(arrivals) && forall k {:trigger arrivals[k].next} :: 0 <= k < |arrivals| ==> arrivals[k].next == null
  }

  class RequestQueue {
    var requestList: RILRequest?
    var eventList: RILEvent?
    var closed: bool
    ghost var requestNodes: seq<RILRequest>
    ghost var eventNodes: seq<RILEvent>

    constructor ()
      ensures ValidEvents() && ValidRequests() && eventNodes == [] && requestNodes == [] && closed
    {
      requestList, eventList, closed := null, null, true;
      requestNodes, eventNodes := [], [];
    }

    ghost predicate ValidEvents()
      reads this, eventNodes
    {
      EventChain(eventList, eventNodes)
    }

    ghost predicate ValidRequests()
      reads this, requestNodes
    {
      RequestChain(requestList, requestNodes)
    }

    ghost function Events(): seq<Event>
      reads this
    {
      EventsOf(eventNodes)
    }

    ghost function Requests(): seq<Request>
      reads this
    {
      RequestsOf(requestNodes)
    }

    /** Link a new event in front of `tmp`, the node at position `p`; there is one before it. */
    method LinkBefore(tmp: RILEvent, e: RILEvent, ghost p: nat)
      requires ValidEvents() && 0 < p < |eventNodes| && tmp == eventNodes[p] && e !in eventNodes
      modifies this`eventNodes, e, eventNodes
      ensures ValidEvents() && eventNodes == old(eventNodes)[..p] + [e] + old(eventNodes)[p..]
    {
      tmp.prev.next := e;
      e.prev := tmp.prev;
      tmp.prev := e;
      e.next := tmp;
      eventNodes := eventNodes[..p] + [e] + eventNodes[p..];
    }

    method LinkFirst(e: RILEvent)
      requires ValidEvents() && eventNodes != [] && e !in eventNodes
      modifies this`eventList, this`eventNodes, e, eventNodes
      ensures ValidEvents() && eventNodes == [e] + old(eventNodes)
    {
      e.next := eventList;
      eventList.prev := e;
      eventList := e;
      eventNodes := [e] + eventNodes;
    }

    method LinkLast(tmp: RILEvent, e: RILEvent)
      requires ValidEvents() && eventNodes != [] && tmp == eventNodes[|eventNodes| - 1] && e !in eventNodes && e.next == null
      modifies this`eventNodes, e, eventNodes
      ensures ValidEvents() && eventNodes == old(eventNodes) + [e]
    {
      tmp.next := e;
      e.prev := tmp;
      eventNodes := eventNodes + [e];
    }

    lemma InsertedAt(before: seq<RILEvent>, e: RILEvent, p: nat)
      requires p <= |before| && eventNodes == before[..p] + [e] + before[p..]
      requires forall k :: 0 <= k < p ==> !After(before[k].what.abstime, e.what.abstime)
      requires p < |before| ==> After(before[p].what.abstime, e.what.abstime)
      ensures Events() == Insert(EventsOf(before), e.what)
    {
      InsertAt(EventsOf(before), e.what, p);
      assert Events() == EventsOf(before)[..p] + [e.what] + EventsOf(before)[p..];
    }

    /** The locked part of enqueueRILEvent. Only nodes of the list are written, so the stale `prev` of
        a first node, which points at an event that has been dequeued and freed, is never followed. */
    method EnqueueEvent(e: RILEvent)
      requires ValidEvents() && e !in eventNodes && e.next == null && e.prev == null
      modifies this`eventList, this`eventNodes, e, eventNodes
      ensures ValidEvents()
      ensures exists p :: 0 <= p <= |old(eventNodes)| && eventNodes == old(eventNodes)[..p] + [e] + old(eventNodes)[p..]
      ensures Events() == Insert(old(Events()), e.what)
    {
      ghost var nodes := eventNodes;
      ghost var p := 0;
      if eventList == null {
        eventList := e;
        eventNodes := [e];
      } else if After(eventList.what.abstime, e.what.abstime) {
        LinkFirst(e);
      } else {
        var tmp := eventList;
        while true
          invariant p < |nodes| && tmp == nodes[p] && eventNodes == nodes && ValidEvents() && e.next == null
          invariant forall k :: 0 <= k < p ==> !After(nodes[k].what.abstime, e.what.abstime)
          invariant p == 0 ==> !After(nodes[0].what.abstime, e.what.abstime)
          decreases |nodes| - p
        {
          if After(tmp.what.abstime, e.what.abstime) {
            LinkBefore(tmp, e, p);
            break;
          } else if tmp.next == null {
            LinkLast(tmp, e);
            p := p + 1;
            break;
          }
          tmp := tmp.next;
          p := p + 1;
        }
      }
      assert eventNodes == nodes[..p] + [e] + nodes[p..];
      InsertedAt(nodes, e, p);
    }

    /** onRequest: walk to the tail and append. */
    method OnRequest(r: RILRequest)
      requires ValidRequests() && r !in requestNodes && r.next == null
      modifies this`requestList, this`requestNodes, requestNodes
      ensures ValidRequests() && requestNodes == old(requestNodes) + [r]
      ensures Requests() == old(Requests()) + [r.what]
    {
      if requestList == null {
        requestList := r;
      } else {
        var l := requestList;
        ghost var k := 0;
        while l.next != null
          invariant 0 <= k < |requestNodes| && l == requestNodes[k]
          decreases |requestNodes| - k
        {
          l := l.next;
          k := k + 1;
        }
        l.next := r;
      }
      requestNodes := requestNodes + [r];
    }

    /** The runner's critical section: at most one due event and one request leave the queue, and none if it
        is closed. */
    method TakeNext(now: Timespec) returns (e: RILEvent?, r: RILRequest?)
      requires ValidEvents() && ValidRequests()
      modifies this`requestList, this`eventList, this`requestNodes, this`eventNodes
      ensures ValidEvents() && ValidRequests()
      ensures if !closed && old(eventNodes) != [] && Before(old(eventNodes)[0].what.abstime, now)
              then e == old(eventNodes)[0] && eventNodes == old(eventNodes)[1..]
              else e == null && eventNodes == old(eventNodes)
      ensures if !closed && old(requestNodes) != [] then r == old(requestNodes)[0] && requestNodes == old(requestNodes)[1..]
              else r == null && requestNodes == old(requestNodes)
    {
      e, r := null, null;
      if closed {
        return;
      }
      if eventList != null && Before(eventList.what.abstime, now) {
        e := eventList;
        eventList := e.next;
        eventNodes := eventNodes[1..];
      }
      if requestList != null {
        r := requestList;
        requestList := r.next;
        requestNodes := requestNodes[1..];
      }
    }

    method SignalClose()
      modifies this`closed
      ensures closed
    {
      closed := true;
    }

    method PushFront(p: RILRequest)
      requires ValidRequests() && p !in requestNodes
      modifies this`requestList, this`requestNodes, p
      ensures ValidRequests() && requestNodes == [p] + old(requestNodes)
    {
      p.next := null;
      if requestList == null {
        requestList := p;
      } else {
        p.next := requestList;
        requestList := p;
      }
      requestNodes := [p] + requestNodes;
    }

    /** Pop the stack onto the front of the list. */
    method Restore(stacktop: RILRequest?, ghost stacked: seq<RILRequest>)
      requires ValidRequests() && StackChain(stacktop, stacked)
      requires forall k :: 0 <= k < |stacked| ==> stacked[k] !in requestNodes
      modifies this`requestList, this`requestNodes, stacked
      ensures ValidRequests() && requestNodes == stacked + old(requestNodes)
    {
      ghost var all, k := stacked + requestNodes, |stacked|;
      assert Distinct(all);
      var top := stacktop;
      while top != null
        invariant 0 <= k <= |stacked| && ValidRequests() && requestNodes == all[k..]
        invariant top == if k > 0 then all[k - 1] else null
        invariant forall j {:trigger all[j].next} :: 0 <= j < k ==> all[j].next == if j > 0 then all[j - 1] else null
        decreases k
      {
        var p := top;
        top := top.next;
        PushFront(p);
        k := k - 1;
      }
    }

    /** Requests that arrive while the queue is unlocked. */
    method Arrive(arrivals: seq<RILRequest>)
      requires ValidRequests() && Loose(arrivals) && forall k :: 0 <= k < |arrivals| ==> arrivals[k] !in requestNodes
      modifies this`requestList, this`requestNodes, requestNodes, arrivals
      ensures ValidRequests() && requestNodes == old(requestNodes) + arrivals
    {
      ghost var before := requestNodes;
      for k := 0 to |arrivals|
        invariant ValidRequests() && requestNodes == before + arrivals[..k]
        invariant forall j {:trigger arrivals[j].next} :: k <= j < |arrivals| ==> arrivals[j].next == null && arrivals[j] !in requestNodes
      {
        OnRequest(arrivals[k]);
        assert arrivals[..k + 1] == arrivals[..k] + [arrivals[k]];
      }
    }

    /** The first loop: requests go onto a stack until the first cancel request; what follows that
        one becomes the list. */
    method Divert() returns (cancel: RILRequest?, stacktop: RILRequest?, ghost k: nat)
      requires ValidRequests()
      modifies this`requestList, this`requestNodes, requestNodes
      ensures ValidRequests() && k <= |old(requestNodes)| && StackChain(stacktop, old(requestNodes)[..k])
      ensures forall j :: 0 <= j < k ==> !IsCancel(old(requestNodes)[j].what)
      ensures cancel != null ==> k < |old(requestNodes)| && cancel == old(requestNodes)[k] && IsCancel(cancel.what)
      ensures cancel != null ==> requestNodes == old(requestNodes)[k + 1..]
      ensures cancel == null ==> k == |old(requestNodes)| && requestNodes == []
    {
      cancel, k, stacktop := null, 0, null;
      ghost var nodes := requestNodes;
      var temp := requestList;
      requestList, requestNodes := null, [];
      while temp != null
        invariant 0 <= k <= |nodes| && temp == (if k < |nodes| then nodes[k] else null)
        invariant requestList == null && requestNodes == [] && stacktop == if k > 0 then nodes[k - 1] else null
        invariant forall j {:trigger nodes[j].next} :: 0 <= j < k ==> nodes[j].next == if j > 0 then nodes[j - 1] else null
        invariant forall j {:trigger nodes[j].next} :: k <= j < |nodes| ==> nodes[j].next == if j + 1 < |nodes| then nodes[j + 1] else null
        invariant forall j :: 0 <= j < k ==> !IsCancel(nodes[j].what)
        decreases |nodes| - k
      {
        var r := temp;
        assert forall j :: 0 <= j < |nodes| && j != k ==> nodes[j] != r;
        temp := temp.next;
        r.next := null;
        if IsCancel(r.what) {
          requestList, requestNodes := temp, nodes[k + 1..];
          BehindIsChain(temp, nodes, k + 1);
          FrontIsStack(stacktop, nodes, k);
          return r, stacktop, k;
        }
        if stacktop == null {
          stacktop := r;
        } else {
          r.next := stacktop;
          stacktop := r;
        }
        k := k + 1;
      }
      FrontIsStack(stacktop, nodes, k);
      assert nodes[..k] == nodes;
    }

    lemma Apart(nodes: seq<RILRequest>, k: nat, arrivals: seq<RILRequest>)
      requires k <= |nodes| && Distinct(nodes) && forall j :: 0 <= j < |arrivals| ==> arrivals[j] !in nodes
      ensures forall j :: 0 <= j < k ==> nodes[..k][j] !in arrivals
      ensures k < |nodes| ==> forall j :: 0 <= j < k ==> nodes[..k][j] !in nodes[k + 1..]
      ensures k < |nodes| ==> forall j :: 0 <= j < |arrivals| ==> arrivals[j] !in nodes[k + 1..]
    {
      forall j | 0 <= j < k
        ensures nodes[..k][j] !in arrivals
      {
        assert nodes[..k][j] in nodes;
      }
    }

    /** The unlocked window: the completion of `cancel` is scheduled and other threads get a turn. */
    method Unlocked(normal: RequestQueue, cancel: RILRequest, id: nat, read: Timespec, arrivals: seq<RILRequest>)
      requires ValidRequests() && normal.ValidEvents()
      requires Loose(arrivals) && forall k :: 0 <= k < |arrivals| ==> arrivals[k] !in requestNodes
      modifies this`requestList, this`requestNodes, requestNodes, arrivals
      modifies normal`eventList, normal`eventNodes, normal.eventNodes
      ensures ValidRequests() && normal.ValidEvents()
      ensures requestNodes == old(requestNodes) + arrivals
      ensures normal.Events() == Insert(old(normal.Events()), Completion(id, read, cancel.what.token))
    {
      var completion := new RILEvent(Completion(id, read, cancel.what.token));
      normal.EnqueueEvent(completion);
      Arrive(arrivals);
    }

    /** After a cancel request: the unlocked window, and then the stack goes back in front. */
    method UnlockAndRestore(normal: RequestQueue, cancel: RILRequest, id: nat, read: Timespec, arrivals: seq<RILRequest>,
                            stacktop: RILRequest?, ghost stacked: seq<RILRequest>)
      requires ValidRequests() && normal.ValidEvents()
      requires Loose(arrivals) && forall k :: 0 <= k < |arrivals| ==> arrivals[k] !in requestNodes
      requires StackChain(stacktop, stacked)
      requires forall k :: 0 <= k < |stacked| ==> stacked[k] !in requestNodes && stacked[k] !in arrivals
      modifies this`requestList, this`requestNodes, requestNodes, arrivals, stacked
      modifies normal`eventList, normal`eventNodes, normal.eventNodes
      ensures ValidRequests() && normal.ValidEvents()
      ensures requestNodes == stacked + (old(requestNodes) + arrivals)
      ensures normal.Events() == Insert(old(normal.Events()), Completion(id, read, cancel.what.token))
    {
      Unlocked(normal, cancel, id, read, arrivals);
      Restore(stacktop, stacked);
    }

    /** The open-queue part of isCancelQueryNetworkRequested; `k` is where the first cancel request
        was, or the length of the list. */
    method TakeOutCancel(normal: RequestQueue, id: nat, read: Timespec, arrivals: seq<RILRequest>) returns (found: bool, ghost k: nat)
      requires ValidRequests() && normal.ValidEvents()
      requires Loose(arrivals) && forall k :: 0 <= k < |arrivals| ==> arrivals[k] !in requestNodes
      modifies this`requestList, this`requestNodes, requestNodes, arrivals
      modifies normal`eventList, normal`eventNodes, normal.eventNodes
      ensures ValidRequests() && normal.ValidEvents() && k <= |old(requestNodes)|
      ensures forall j :: 0 <= j < k ==> !IsCancel(old(requestNodes)[j].what)
      ensures found ==> k < |old(requestNodes)| && IsCancel(old(requestNodes)[k].what)
      ensures found ==> requestNodes == old(requestNodes)[..k] + (old(requestNodes)[k + 1..] + arrivals)
      ensures found ==> normal.Events() == Insert(old(normal.Events()), Completion(id, read, old(requestNodes)[k].what.token))
      ensures !found ==> k == |old(requestNodes)| && requestNodes == old(requestNodes) && normal.eventNodes == old(normal.eventNodes)
    {
      ghost var nodes := requestNodes;
      var stacktop: RILRequest?, cancel: RILRequest?;
      cancel, stacktop, k := Divert();
      found := cancel != null;
      Apart(nodes, k, arrivals);
      if cancel != null {
        UnlockAndRestore(normal, cancel, id, read, arrivals, stacktop, nodes[..k]);
      } else {
        Restore(stacktop, nodes[..k]);
        assert nodes[..k] + [] == nodes;
      }
    }

    /** isCancelQueryNetworkRequested: take the first cancel request out, schedule its completion in the
        normal queue, for two seconds after the clock was `read`, and put everything before it back.
        `arrivals` is what other threads enqueue while the queue is unlocked for the scheduling. The request
        taken out was at `k`. */
    method IsCancelQueryNetworkRequested(normal: RequestQueue, id: nat, read: Timespec, arrivals: seq<RILRequest>) returns (found: bool, ghost k: nat)
      requires ValidRequests() && normal.ValidEvents()
      requires Loose(arrivals) && forall k :: 0 <= k < |arrivals| ==> arrivals[k] !in requestNodes
      modifies this`requestList, this`requestNodes, requestNodes, arrivals
      modifies normal`eventList, normal`eventNodes, normal.eventNodes
      ensures ValidRequests() && normal.ValidEvents()
      ensures found <==> !closed && exists k :: 0 <= k < |old(requestNodes)| && IsCancel(old(requestNodes)[k].what)
      ensures !found ==> requestNodes == old(requestNodes) && normal.eventNodes == old(normal.eventNodes)
      ensures found ==> RemovedFirstCancel(old(requestNodes), requestNodes, arrivals, k)
      ensures found ==> normal.Events() == Insert(old(normal.Events()), Completion(id, read, old(requestNodes)[k].what.token))
    {
      if closed {
        return false, 0;
      }
      found, k := TakeOutCancel(normal, id, read, arrivals);
    }
  }

  /** Exactly the cancel request at `k` is gone, which is the first one; all others keep their order, and
      requests that came in meanwhile follow. */
  ghost predicate RemovedFirstCancel(before: seq<RILRequest>, after: seq<RILRequest>, arrivals: seq<RILRequest>, k: nat) {
    && k < |before| && IsCancel(before[k].what)
    && (forall j :: 0 <= j < k ==> !IsCancel(before[j].what))
    && after == before[..k] + (before[k + 1..] + arrivals)
  }

  /** signalCloseQueues: every queue is closed, and what is pending in it stays. */
  method SignalCloseQueues(queues: seq<RequestQueue>)
    requires forall q :: q in queues ==> q.ValidEvents() && q.ValidRequests()
    modifies queues
    ensures forall q :: q in queues ==> q.closed && q.ValidEvents() && q.ValidRequests()
    ensures forall q :: q in queues ==> q.eventNodes == old(q.eventNodes) && q.requestNodes == old(q.requestNodes)
  {
    for i := 0 to |queues|
      invariant forall k :: 0 <= k < i ==> queues[k].closed
      invariant forall q :: q in queues ==> q.ValidEvents() && q.ValidRequests()
      invariant forall q :: q in queues ==> q.eventNodes == old(q.eventNodes) && q.requestNodes == old(q.requestNodes)
    {
      queues[i].SignalClose();
    }
  }
}
