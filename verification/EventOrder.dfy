/** Deadlines, their order, and the sorted event list on values. */
module EventOrder {
  const NSEC_PER_SEC: int := 1_000_000_000

  datatype Timespec = Timespec(sec: int, nsec: int)

  /** What an event is for: the completion of a cancel request that was taken out, or any other callback. */
  datatype Callback = CompleteCancelQuery(token: nat) | OtherCallback(code: nat)

  /** A pending event: `id` tells events apart. */
  datatype Event = Event(id: nat, abstime: Timespec, callback: Callback)

  predicate After(a: Timespec, b: Timespec) { if a.sec == b.sec then a.nsec > b.nsec else a.sec > b.sec }

  predicate Before(a: Timespec, b: Timespec) { if a.sec == b.sec then a.nsec < b.nsec else a.sec < b.sec }

  /** The instant a timespec denotes. */
  function Nanos(t: Timespec): int { t.sec * 1_000_000_000 + t.nsec }

  /** What clock_gettime returns. */
  predicate ClockValue(t: Timespec) { 0 <= t.nsec < 1_000_000_000 }

  /** What the queue stores: the carry test lets nsec reach a full second. */
  predicate StoredTime(t: Timespec) { 0 <= t.nsec <= 1_000_000_000 }

  /** The deadline arithmetic of enqueueRILEvent; the carry is taken on `>`, not on `>=`. */
  function Deadline(now: Timespec, delaySec: int, delayUsec: int): Timespec {
    var sec, nsec := now.sec + delaySec, now.nsec + delayUsec * 1000;
    if nsec > NSEC_PER_SEC then Timespec(sec + 1, nsec - NSEC_PER_SEC) else Timespec(sec, nsec)
  }

  /** The stored deadline is the exact instant asked for; it is normalised unless the nanoseconds
      add up to exactly one second. */
  lemma DeadlineIsExact(now: Timespec, delaySec: int, delayUsec: int)
    requires ClockValue(now) && 0 <= delayUsec < 1_000_000
    ensures Nanos(Deadline(now, delaySec, delayUsec)) == Nanos(now) + delaySec * 1_000_000_000 + delayUsec * 1000
    ensures StoredTime(Deadline(now, delaySec, delayUsec))
    ensures ClockValue(Deadline(now, delaySec, delayUsec)) <==> now.nsec + delayUsec * 1000 != 1_000_000_000
  {
    var d := Deadline(now, delaySec, delayUsec);
    if d.sec != now.sec + delaySec {
      assert Nanos(d) == (now.sec + delaySec) * NSEC_PER_SEC + NSEC_PER_SEC + d.nsec;
    }
  }

  /** Comparing field by field never contradicts the order of the instants, although an unnormalised
      deadline and its normal form denote the same instant and still compare as different. */
  lemma OrderAgrees(a: Timespec, b: Timespec)
    requires StoredTime(a) && StoredTime(b)
    ensures After(a, b) ==> Nanos(a) >= Nanos(b)
    ensures Nanos(a) > Nanos(b) ==> After(a, b)
    ensures After(a, b) && Nanos(a) == Nanos(b) <==> b.nsec == 1_000_000_000 && a == Timespec(b.sec + 1, 0)
  {
    if a.sec > b.sec + 1 {
      assert a.sec * NSEC_PER_SEC >= (b.sec + 2) * NSEC_PER_SEC;
    }
    if b.sec > a.sec + 1 {
      assert b.sec * NSEC_PER_SEC >= (a.sec + 2) * NSEC_PER_SEC;
    }
  }

  /** The runner's test: an event is due once its instant is past, and an unnormalised one already
      when its instant is reached. It is never due early. */
  lemma DueExactly(deadline: Timespec, now: Timespec)
    requires StoredTime(deadline) && ClockValue(now)
    ensures Before(deadline, now) <==>
            Nanos(deadline) < Nanos(now) || (deadline.nsec == 1_000_000_000 && Nanos(deadline) == Nanos(now))
  {
    OrderAgrees(now, deadline);
  }

  // ----- the list on values -----

  /** Insertion behind every event that is not later. */
  function Insert(s: seq<Event>, e: Event): (r: seq<Event>) {
    if s == [] then [e]
    else if After(s[0].abstime, e.abstime) then [e] + s
    else [s[0]] + Insert(s[1..], e)
  }

  predicate Sorted(s: seq<Event>) {
    forall j, k :: 0 <= j < k < |s| ==> !After(s[j].abstime, s[k].abstime)
  }

  /** Where the list code stops: `p` is the first later event, or the end. */
  lemma {:induction false} InsertAt(s: seq<Event>, e: Event, p: nat)
    requires p <= |s| && (forall k :: 0 <= k < p ==> !After(s[k].abstime, e.abstime))
    requires p < |s| ==> After(s[p].abstime, e.abstime)
    ensures Insert(s, e) == s[..p] + [e] + s[p..]
  {
    if p > 0 {
      InsertAt(s[1..], e, p - 1);
      assert s[..p] == [s[0]] + s[1..][..p - 1];
    }
  }

  lemma {:induction false} InsertIsAt(s: seq<Event>, e: Event) returns (p: nat)
    ensures p <= |s| && (forall k :: 0 <= k < p ==> !After(s[k].abstime, e.abstime))
    ensures p < |s| ==> After(s[p].abstime, e.abstime)
    ensures Insert(s, e) == s[..p] + [e] + s[p..]
  {
    if s == [] || After(s[0].abstime, e.abstime) {
      p := 0;
    } else {
      var q := InsertIsAt(s[1..], e);
      p := q + 1;
      assert s[..p] == [s[0]] + s[1..][..q];
    }
  }

  lemma InsertAdds(s: seq<Event>, e: Event)
    ensures multiset(Insert(s, e)) == multiset(s) + multiset{e}
  {
    var p := InsertIsAt(s, e);
    assert s == s[..p] + s[p..];
  }

  /** Insertion keeps the list sorted, adds exactly the new event, and leaves it behind all events
      with the same deadline (so ties run in the order in which they were enqueued). */
  lemma {:induction false} InsertKeepsOrder(s: seq<Event>, e: Event)
    requires Sorted(s)
    ensures Sorted(Insert(s, e))
    ensures multiset(Insert(s, e)) == multiset(s) + multiset{e}
    ensures exists p :: 0 <= p <= |s| && Insert(s, e) == s[..p] + [e] + s[p..] && forall k :: p <= k < |s| ==> After(s[k].abstime, e.abstime)
  {
    InsertAdds(s, e);
    var p := InsertIsAt(s, e);
    forall k | p <= k < |s|
      ensures After(s[k].abstime, e.abstime)
    {
      assert !After(s[p].abstime, s[k].abstime) || p == k;
    }
  }

  /** Sorted by comparison is sorted by instant. */
  lemma SortedByInstant(s: seq<Event>, j: nat, k: nat)
    requires Sorted(s) && j < k < |s| && StoredTime(s[j].abstime) && StoredTime(s[k].abstime)
    ensures Nanos(s[j].abstime) <= Nanos(s[k].abstime)
  {
    OrderAgrees(s[j].abstime, s[k].abstime);
  }
}
