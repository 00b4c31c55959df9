/** What the status of a finished call means, told by the steps of the run alone. */
module AtStatus {
  import opened Wrappers
  import opened AtLines
  import opened AtResponse
  import opened AtDispatch
  import opened AtProtocol

  // ----- the steps of a run -----

  predicate Begins(step: Step, t: Tid) { step.Begin? && step.t == t }

  predicate Writes(step: Step, t: Tid) { step.WriteAndInstall? && step.t == t }

  predicate Leaves(step: Step, t: Tid) { step.LeaveNoLock? && step.t == t }

  /** The steps after which a thread goes to clean up: a command refused by writeline, a wait that timed out,
      or a response handed over. */
  predicate Ends(step: Step, t: Tid) {
    || (Writes(step, t) && step.written != Ok)
    || step == Relock(t, true)
    || step == HandOver(t)
  }

  predicate Own(step: Step, t: Tid) { !step.ReadLine? && !step.CloseReader? && step.t == t }

  /** The lines read from step `i` on and before step `k`. */
  function LinesRead(steps: seq<Step>, i: nat, k: nat): (lines: seq<string>)
    requires i <= k <= |steps|
  {
    if i == k then []
    else LinesRead(steps, i, k - 1) + if steps[k - 1].ReadLine? then [steps[k - 1].line] else []
  }

  ghost predicate ClosedBefore(steps: seq<Step>, k: nat) {
    exists i :: 0 <= i < k && i < |steps| && steps[i].CloseReader?
  }

  function LeavesBetween(steps: seq<Step>, b: nat, k: nat, t: Tid): (n: nat)
    requires b <= k <= |steps|
  {
    if b == k then 0 else LeavesBetween(steps, b, k - 1, t) + if Leaves(steps[k - 1], t) then 1 else 0
  }

  /** The last call of the thread before step `k`. */
  ghost predicate BegunAt(steps: seq<Step>, b: nat, k: nat, t: Tid, call: Call) {
    b < k <= |steps| && steps[b] == Begin(t, call) && forall m :: b < m < k ==> !Begins(steps[m], t)
  }

  /** The last command that it has written. */
  ghost predicate WrittenAt(steps: seq<Step>, i: nat, k: nat, t: Tid) {
    i < k <= |steps| && steps[i] == WriteAndInstall(t, Ok) && forall m :: i < m < k ==> !Writes(steps[m], t) && !Begins(steps[m], t)
  }

  ghost predicate EndedAt(steps: seq<Step>, j: nat, k: nat, t: Tid) {
    j < k <= |steps| && Ends(steps[j], t) && forall m :: j < m < k ==> !Ends(steps[m], t) && !Writes(steps[m], t) && !Begins(steps[m], t)
  }

  /** The wait of the thread that timed out, and nothing of its own since. */
  ghost predicate TimedOutAt(steps: seq<Step>, w: nat, k: nat, t: Tid) {
    w < k <= |steps| && steps[w] == WakeOnCommand(t, true) && forall m :: w < m < k ==> !Own(steps[m], t)
  }

  /** The status with which the loop is left. */
  ghost function EndErr(steps: seq<Step>, j: nat): Err
    requires j < |steps|
  {
    match steps[j]
    case WriteAndInstall(_, written) => written
    case HandOver(_) => if ClosedBefore(steps, j) then ChannelClosed else Ok
    case _ => Timeout
  }

  // ----- how a call gets on -----

  /** Where the thread is, in terms of the steps so far: it began at `b`, wrote at `i`, its wait timed out at
      `w` and its loop ended at `j`, as far as it has got. */
  datatype Marks = Marks(b: nat, i: nat, w: nat, j: nat)

  ghost predicate Waiting(pc: Pc, job: Job, seen: seq<string>, steps: seq<Step>, k: nat, t: Tid, m: Marks)
    requires k <= |steps|
  {
    && (InLoop(pc) ==> WrittenAt(steps, m.i, k, t) && m.b < m.i && seen == LinesRead(steps, m.i + 1, k))
    && (pc == WokenOnCommand(true) ==> TimedOutAt(steps, m.w, k, t) && m.i < m.w && job.call.timed)
  }

  ghost predicate EndMeans(steps: seq<Step>, t: Tid, job: Job, m: Marks)
    requires m.j < |steps|
  {
    && (steps[m.j].Relock? ==> TimedOutAt(steps, m.w, m.j, t) && m.i < m.w && WrittenAt(steps, m.i, m.j, t) && m.b < m.i && job.call.timed)
    && (steps[m.j].HandOver? ==> WrittenAt(steps, m.i, m.j, t) && m.b < m.i && job.built.Some? && job.lines == LinesRead(steps, m.i + 1, m.j))
  }

  /** The answer that a strict wrapper misses. */
  predicate Missing(job: Job) {
    job.call.strict && job.call.wantOut && job.built.Some? && job.built.value.success > 0 && job.built.value.rev == []
  }

  predicate Returned(pc: Pc) { pc == Wrapper || pc == Finished }

  ghost predicate Ended(pc: Pc, job: Job, steps: seq<Step>, k: nat, t: Tid, m: Marks)
    requires k <= |steps|
  {
    AfterLoop(pc) ==>
      && EndedAt(steps, m.j, k, t) && m.b < m.j && EndMeans(steps, t, job, m)
      && job.err == (if pc == Finished && EndErr(steps, m.j) == Ok && Missing(job) then InvalidResponse else EndErr(steps, m.j))
      && (Returned(pc) ==> (job.alarmed <==> EndErr(steps, m.j) == Timeout && !job.call.handshake))
  }

  /** Each attempt of a call ends with a step out of at_send_command_full_nolock. */
  ghost predicate Counted(pc: Pc, job: Job, steps: seq<Step>, k: nat, t: Tid, m: Marks)
    requires m.b <= k <= |steps|
  {
    1 <= job.tries <= (if job.call.handshake then 8 else 1)
    && job.tries + LeavesBetween(steps, m.b, k, t) == (if job.call.handshake then 8 else 1) + if Returned(pc) then 1 else 0
  }

  ghost predicate Story(pc: Pc, job: Job, seen: seq<string>, steps: seq<Step>, k: nat, t: Tid, m: Marks)
    requires k <= |steps|
  {
    pc != Idle ==>
      && BegunAt(steps, m.b, k, t, job.call)
      && Counted(pc, job, steps, k, t, m)
      && Waiting(pc, job, seen, steps, k, t, m)
      && Ended(pc, job, steps, k, t, m)
  }

  // ----- every step carries the story on -----

  predicate Marked(step: Step, t: Tid) { Begins(step, t) || Writes(step, t) || Ends(step, t) || Leaves(step, t) }

  predicate SamePhase(pc: Pc, next: Pc) {
    || pc == next
    || (BeforeInstall(pc) && BeforeInstall(next))
    || (InLoop(pc) && InLoop(next))
    || (AfterLoop(pc) && AfterLoop(next) && !Returned(pc) && !Returned(next))
  }

  lemma BegunOn(steps: seq<Step>, k: nat, t: Tid, b: nat, call: Call)
    requires k < |steps| && !Begins(steps[k], t) && BegunAt(steps, b, k, t, call)
    ensures BegunAt(steps, b, k + 1, t, call)
    ensures !Leaves(steps[k], t) ==> LeavesBetween(steps, b, k + 1, t) == LeavesBetween(steps, b, k, t)
  {
  }

  lemma WrittenOn(steps: seq<Step>, k: nat, t: Tid, i: nat)
    requires k < |steps| && !Marked(steps[k], t) && WrittenAt(steps, i, k, t)
    ensures WrittenAt(steps, i, k + 1, t)
    ensures LinesRead(steps, i + 1, k + 1) == LinesRead(steps, i + 1, k) + if steps[k].ReadLine? then [steps[k].line] else []
  {
  }

  lemma EndedOn(steps: seq<Step>, k: nat, t: Tid, j: nat)
    requires k < |steps| && !Marked(steps[k], t) && EndedAt(steps, j, k, t)
    ensures EndedAt(steps, j, k + 1, t)
  {
  }

  lemma TimedOutOn(steps: seq<Step>, k: nat, t: Tid, w: nat)
    requires k < |steps| && !Own(steps[k], t) && TimedOutAt(steps, w, k, t)
    ensures TimedOutAt(steps, w, k + 1, t)
  {
  }

  lemma WaitGoesOn(pc: Pc, job: Job, seen: seq<string>, steps: seq<Step>, k: nat, t: Tid, m: Marks, next: Pc, after: Job, more: seq<string>)
    requires k < |steps| && !Marked(steps[k], t) && Waiting(pc, job, seen, steps, k, t, m) && SamePhase(pc, next) && pc != Idle
    requires after == job || BeforeInstall(pc)
    requires next == WokenOnCommand(true) ==> pc == next && !Own(steps[k], t)
    requires InLoop(pc) ==> more == seen + if steps[k].ReadLine? then [steps[k].line] else []
    ensures Waiting(next, after, more, steps, k + 1, t, m)
  {
    if InLoop(pc) {
      WrittenOn(steps, k, t, m.i);
    }
    if next == WokenOnCommand(true) {
      TimedOutOn(steps, k, t, m.w);
    }
  }

  lemma EndGoesOn(pc: Pc, job: Job, steps: seq<Step>, k: nat, t: Tid, m: Marks, next: Pc, after: Job)
    requires k < |steps| && !Marked(steps[k], t) && Ended(pc, job, steps, k, t, m) && SamePhase(pc, next)
    requires after == job || BeforeInstall(pc)
    ensures Ended(next, after, steps, k + 1, t, m)
  {
    if AfterLoop(pc) {
      EndedOn(steps, k, t, m.j);
    }
  }

  lemma CountGoesOn(pc: Pc, job: Job, steps: seq<Step>, k: nat, t: Tid, m: Marks, next: Pc, after: Job)
    requires k < |steps| && !Marked(steps[k], t) && m.b <= k && Counted(pc, job, steps, k, t, m) && SamePhase(pc, next)
    requires after.call == job.call && after.tries == job.tries
    ensures Counted(next, after, steps, k + 1, t, m)
  {
  }

  /** A step that is not one of those that count, within the same phase of the call. */
  lemma GoesOn(pc: Pc, job: Job, seen: seq<string>, steps: seq<Step>, k: nat, t: Tid, m: Marks, next: Pc, after: Job, more: seq<string>)
    requires k < |steps| && !Marked(steps[k], t) && Story(pc, job, seen, steps, k, t, m) && SamePhase(pc, next)
    requires after == job || (BeforeInstall(pc) && after.call == job.call && after.tries == job.tries)
    requires next == WokenOnCommand(true) ==> pc == next && !Own(steps[k], t)
    requires InLoop(pc) ==> more == seen + if steps[k].ReadLine? then [steps[k].line] else []
    ensures Story(next, after, more, steps, k + 1, t, m)
  {
    if pc != Idle {
      BegunOn(steps, k, t, m.b, job.call);
      CountGoesOn(pc, job, steps, k, t, m, next, after);
      WaitGoesOn(pc, job, seen, steps, k, t, m, next, after, more);
      EndGoesOn(pc, job, steps, k, t, m, next, after);
    }
  }

  lemma BeginTells(job: Job, seen: seq<string>, steps: seq<Step>, k: nat, t: Tid)
    requires k < |steps| && steps[k] == Begin(t, job.call) && job.tries == if job.call.handshake then 8 else 1
    ensures Story(Enter, job, seen, steps, k + 1, t, Marks(k, 0, 0, 0))
  {
    assert LeavesBetween(steps, k, k, t) == 0;
  }

  lemma WriteTells(job: Job, seen: seq<string>, steps: seq<Step>, k: nat, t: Tid, m: Marks)
    requires k < |steps| && steps[k] == WriteAndInstall(t, Ok) && Story(Send, job, seen, steps, k, t, m)
    ensures Story(LoopTest, job.(written := true), [], steps, k + 1, t, m.(i := k))
  {
    BegunOn(steps, k, t, m.b, job.call);
    assert LinesRead(steps, k + 1, k + 1) == [];
  }

  lemma RefusalTells(job: Job, seen: seq<string>, steps: seq<Step>, k: nat, t: Tid, m: Marks)
    requires k < |steps| && steps[k].WriteAndInstall? && steps[k].t == t && steps[k].written != Ok
    requires Story(Send, job, seen, steps, k, t, m)
    ensures Story(Cleanup, job.(err := steps[k].written), seen, steps, k + 1, t, m.(j := k))
  {
    BegunOn(steps, k, t, m.b, job.call);
  }

  lemma TimeoutTells(job: Job, seen: seq<string>, steps: seq<Step>, k: nat, t: Tid, m: Marks)
    requires k < |steps| && steps[k] == WakeOnCommand(t, true) && job.call.timed && Story(AsleepOnCommand, job, seen, steps, k, t, m)
    ensures Story(WokenOnCommand(true), job, seen, steps, k + 1, t, m.(w := k))
  {
    BegunOn(steps, k, t, m.b, job.call);
    WrittenOn(steps, k, t, m.i);
  }

  lemma RelockTells(job: Job, seen: seq<string>, steps: seq<Step>, k: nat, t: Tid, m: Marks)
    requires k < |steps| && steps[k] == Relock(t, true) && Story(WokenOnCommand(true), job, seen, steps, k, t, m)
    ensures Story(Cleanup, job.(err := Timeout), seen, steps, k + 1, t, m.(j := k))
  {
    BegunOn(steps, k, t, m.b, job.call);
  }

  lemma HandOverTells(job: Job, seen: seq<string>, steps: seq<Step>, k: nat, t: Tid, m: Marks, after: Job)
    requires k < |steps| && steps[k] == HandOver(t) && Story(Pc.Deliver, job, seen, steps, k, t, m)
    requires after.call == job.call && after.tries == job.tries && after.built.Some? && after.lines == seen
    requires after.err == if ClosedBefore(steps, k) then ChannelClosed else Ok
    ensures Story(Cleanup, after, seen, steps, k + 1, t, m.(j := k))
  {
    BegunOn(steps, k, t, m.b, job.call);
  }

  lemma ReturnTells(job: Job, seen: seq<string>, steps: seq<Step>, k: nat, t: Tid, m: Marks)
    requires k < |steps| && steps[k] == LeaveNoLock(t) && Story(Return, job, seen, steps, k, t, m)
    ensures Story(Wrapper, job.(alarmed := job.err == Timeout && !job.call.handshake), seen, steps, k + 1, t, m)
  {
    BegunOn(steps, k, t, m.b, job.call);
  }

  lemma RetryTells(job: Job, seen: seq<string>, steps: seq<Step>, k: nat, t: Tid, m: Marks)
    requires k < |steps| && steps[k] == LeaveNoLock(t) && Story(Return, job, seen, steps, k, t, m) && job.tries > 1
    ensures Story(TryRequest, NewJob(job.call, job.tries - 1, job.err), seen, steps, k + 1, t, m)
  {
    BegunOn(steps, k, t, m.b, job.call);
  }

  lemma CheckTells(job: Job, seen: seq<string>, steps: seq<Step>, k: nat, t: Tid, m: Marks)
    requires k < |steps| && steps[k] == CheckAnswer(t) && Story(Wrapper, job, seen, steps, k, t, m)
    ensures Story(Finished, if job.err == Ok && Missing(job) then job.(err := InvalidResponse, out := None) else job, seen, steps, k + 1, t, m)
  {
    BegunOn(steps, k, t, m.b, job.call);
    EndedOn(steps, k, t, m.j);
  }

  predicate Reads(step: Step) { step.ReadLine? || step.CloseReader? }

  /** What thread `t` sees of a step of the reader: it may be woken, and a line read goes to whoever waits. */
  lemma ReaderMoves(s: State, step: Step, s': State, t: Tid)
    requires Control(s) && Routable(s.ch) && Next(s, step, s') && Reads(step) && t < |s.pc|
    ensures |s'.pc| == |s'.job| == |s.pc| && s'.job == s.job && SamePhase(s.pc[t], s'.pc[t])
    ensures s'.pc[t] == WokenOnCommand(true) ==> s.pc[t] == s'.pc[t]
    ensures s'.seen == s.seen + if step.ReadLine? then [step.line] else []
  {
  }

  lemma BroadcastLeaves(s: State, u: Tid, s': State, t: Tid)
    requires DoWakeRequesters(s, u, s') && u != t && t < |s.pc|
    ensures |s'.pc| == |s.pc| && s'.job == s.job
    ensures s'.pc[t] == s.pc[t] || (s.pc[t] == AsleepOnRequest && s'.pc[t] == WokenOnRequest)
  {
  }

  /** At most thread `u` has moved. */
  predicate OneMoved(s: State, u: Tid, s': State) {
    && u < |s.pc| == |s.job| == |s'.pc| == |s'.job|
    && s'.pc == s.pc[u := s'.pc[u]] && s'.job == s.job[u := s'.job[u]]
  }

  predicate Early(step: Step) {
    step.Begin? || step.Lock? || step.TakeRequest? || step.WakeOnRequest? || step.CheckNotPending? || step.WriteAndInstall? || step.TestLoop?
  }

  lemma EarlyMovesOne(s: State, step: Step, s': State)
    requires |s.pc| == |s.job| && Next(s, step, s') && Early(step)
    ensures OneMoved(s, step.t, s')
  {
  }

  lemma HandOverMovesOne(s: State, t: Tid, s': State)
    requires |s.pc| == |s.job| && DoHandOver(s, t, s')
    ensures OneMoved(s, t, s')
  {
  }

  lemma CheckMovesOne(s: State, t: Tid, s': State)
    requires |s.pc| == |s.job| && DoCheckAnswer(s, t, s')
    ensures OneMoved(s, t, s')
  {
  }

  predicate Simple(step: Step) {
    step.WakeOnCommand? || step.Relock? || step.ClearPending? || step.ReleaseRequest? || step.LeaveNoLock?
  }

  lemma SimpleMovesOne(s: State, step: Step, s': State)
    requires |s.pc| == |s.job| && Next(s, step, s') && Simple(step)
    ensures OneMoved(s, step.t, s')
  {
  }

  lemma LateMovesOne(s: State, step: Step, s': State)
    requires |s.pc| == |s.job| && Next(s, step, s') && (step.HandOver? || step.CheckAnswer? || Simple(step))
    ensures OneMoved(s, step.t, s')
  {
    if step.HandOver? {
      HandOverMovesOne(s, step.t, s');
    } else if step.CheckAnswer? {
      CheckMovesOne(s, step.t, s');
    } else {
      SimpleMovesOne(s, step, s');
    }
  }

  /** Another thread leaves `t` alone, but for the broadcast. */
  lemma OthersLeave(s: State, step: Step, s': State, t: Tid)
    requires |s.pc| == |s.job| && Next(s, step, s') && !Reads(step) && step.t != t && t < |s.pc|
    ensures |s'.pc| == |s'.job| == |s.pc| && s'.job[t] == s.job[t]
    ensures s'.pc[t] == s.pc[t] || (s.pc[t] == AsleepOnRequest && s'.pc[t] == WokenOnRequest)
  {
    if step.WakeRequesters? {
      BroadcastLeaves(s, step.t, s', t);
    } else if Early(step) {
      EarlyMovesOne(s, step, s');
    } else {
      LateMovesOne(s, step, s');
    }
  }

  lemma OthersReadNothing(s: State, step: Step, s': State, t: Tid)
    requires Locks(s) && Next(s, step, s') && !Reads(step) && step.t != t && t < |s.pc| && InLoop(s.pc[t])
    ensures s'.seen == s.seen
  {
  }

  lemma OthersMove(s: State, step: Step, s': State, t: Tid)
    requires Control(s) && Routable(s.ch) && Next(s, step, s') && !Own(step, t) && t < |s.pc|
    ensures |s'.pc| == |s'.job| == |s.pc| && s'.job[t] == s.job[t] && SamePhase(s.pc[t], s'.pc[t])
    ensures s'.pc[t] == WokenOnCommand(true) ==> s.pc[t] == s'.pc[t]
    ensures InLoop(s.pc[t]) ==> s'.seen == s.seen + if step.ReadLine? then [step.line] else []
  {
    if Reads(step) {
      ReaderMoves(s, step, s', t);
    } else {
      OthersLeave(s, step, s', t);
      if InLoop(s.pc[t]) {
        OthersReadNothing(s, step, s', t);
      }
    }
  }

  /** A step of the thread itself that is not one of those that count. */
  lemma OwnMoves(s: State, step: Step, s': State, t: Tid)
    requires Control(s) && Next(s, step, s') && Own(step, t) && !Marked(step, t) && step != CheckAnswer(t) && step != WakeOnCommand(t, true)
    ensures t < |s.pc| == |s'.pc| == |s'.job| && SamePhase(s.pc[t], s'.pc[t]) && s'.seen == s.seen
    ensures s'.pc[t] != WokenOnCommand(true)
    ensures s'.job[t] == s.job[t] || (BeforeInstall(s.pc[t]) && s'.job[t].call == s.job[t].call && s'.job[t].tries == s.job[t].tries)
  {
  }

  ghost predicate Told(s: State, steps: seq<Step>, k: nat, t: Tid, m: Marks)
    requires k <= |steps|
  {
    t < |s.pc| == |s.job| && Story(s.pc[t], s.job[t], s.seen, steps, k, t, m)
  }

  lemma BeginStep(s: State, steps: seq<Step>, k: nat, s': State, t: Tid, call: Call)
    requires k < |steps| && steps[k] == Begin(t, call) && |s.pc| == |s.job| && DoBegin(s, t, call, s')
    ensures Told(s', steps, k + 1, t, Marks(k, 0, 0, 0))
  {
    BeginTells(s'.job[t], s'.seen, steps, k, t);
  }

  lemma WriteStep(s: State, steps: seq<Step>, k: nat, s': State, t: Tid, written: Err, m: Marks)
    requires k < |steps| && steps[k] == WriteAndInstall(t, written) && Told(s, steps, k, t, m)
    requires DoWriteAndInstall(s, t, written, s')
    ensures Told(s', steps, k + 1, t, if written == Ok then m.(i := k) else m.(j := k))
  {
    if written == Ok {
      WriteTells(s.job[t], s.seen, steps, k, t, m);
    } else {
      RefusalTells(s.job[t], s.seen, steps, k, t, m);
    }
  }

  lemma RelockStep(s: State, steps: seq<Step>, k: nat, s': State, t: Tid, m: Marks)
    requires k < |steps| && steps[k] == Relock(t, true) && Told(s, steps, k, t, m) && DoRelock(s, t, true, s')
    ensures Told(s', steps, k + 1, t, m.(j := k))
  {
    RelockTells(s.job[t], s.seen, steps, k, t, m);
  }

  lemma HandOverStep(s: State, steps: seq<Step>, k: nat, s': State, t: Tid, m: Marks)
    requires k < |steps| && steps[k] == HandOver(t) && Told(s, steps, k, t, m) && DoHandOver(s, t, s')
    requires s.ch.response.Some? && (s.ch.readerClosed <==> ClosedBefore(steps, k))
    ensures Told(s', steps, k + 1, t, m.(j := k))
  {
    HandOverTells(s.job[t], s.seen, steps, k, t, m, s'.job[t]);
  }

  lemma LeaveStep(s: State, steps: seq<Step>, k: nat, s': State, t: Tid, m: Marks)
    requires k < |steps| && steps[k] == LeaveNoLock(t) && Told(s, steps, k, t, m) && DoLeaveNoLock(s, t, s')
    ensures Told(s', steps, k + 1, t, m)
  {
    var job := s.job[t];
    if job.call.handshake && job.err != Ok && job.tries > 1 {
      RetryTells(job, s.seen, steps, k, t, m);
    } else {
      ReturnTells(job, s.seen, steps, k, t, m);
    }
  }

  /** The steps that count. */
  lemma MarkedTells(s: State, steps: seq<Step>, k: nat, s': State, t: Tid, m: Marks) returns (m': Marks)
    requires k < |steps| && Control(s) && Told(s, steps, k, t, m) && Next(s, steps[k], s')
    requires Marked(steps[k], t) && (s.ch.readerClosed <==> ClosedBefore(steps, k))
    ensures Told(s', steps, k + 1, t, m')
  {
    m' := m;
    match steps[k] {
      case Begin(_, call) =>
        m' := Marks(k, 0, 0, 0);
        BeginStep(s, steps, k, s', t, call);
      case WriteAndInstall(_, written) =>
        m' := if written == Ok then m.(i := k) else m.(j := k);
        WriteStep(s, steps, k, s', t, written, m);
      case Relock(_, _) =>
        m' := m.(j := k);
        RelockStep(s, steps, k, s', t, m);
      case HandOver(_) =>
        m' := m.(j := k);
        assert InLoop(s.pc[t]);
        HandOverStep(s, steps, k, s', t, m);
      case LeaveNoLock(_) => LeaveStep(s, steps, k, s', t, m);
    }
  }

  /** What the wrapper misses is what it looks for in the response. */
  lemma LacksIsMissing(s: State, steps: seq<Step>, k: nat, t: Tid, m: Marks)
    requires Inv(s) && k <= |steps| && Told(s, steps, k, t, m) && s.pc[t] == Wrapper
    ensures LacksAnswer(s.job[t]) <==> s.job[t].err == Ok && Missing(s.job[t])
  {
    var job := s.job[t];
    assert JobOk(s.pc[t], job) && WrittenOk(s.pc[t], job);
    if job.built.Some? {
      ReverseOfNone(job.built.value.rev);
    }
  }

  lemma ReverseOfNone(rev: seq<string>)
    ensures Reverse(rev) == [] <==> rev == []
  {
  }

  /** The steps that do not. */
  lemma UnmarkedTells(s: State, steps: seq<Step>, k: nat, s': State, t: Tid, m: Marks)
    requires k < |steps| && Control(s) && Routable(s.ch) && Told(s, steps, k, t, m) && Next(s, steps[k], s')
    requires !Marked(steps[k], t) && steps[k] != WakeOnCommand(t, true) && steps[k] != CheckAnswer(t)
    ensures Told(s', steps, k + 1, t, m)
  {
    if Own(steps[k], t) {
      OwnMoves(s, steps[k], s', t);
    } else {
      OthersMove(s, steps[k], s', t);
    }
    GoesOn(s.pc[t], s.job[t], s.seen, steps, k, t, m, s'.pc[t], s'.job[t], s'.seen);
  }

  lemma WaitEnds(s: State, steps: seq<Step>, k: nat, s': State, t: Tid, m: Marks)
    requires k < |steps| && steps[k] == WakeOnCommand(t, true) && Told(s, steps, k, t, m) && DoWakeOnCommand(s, t, true, s')
    ensures Told(s', steps, k + 1, t, m.(w := k))
  {
    TimeoutTells(s.job[t], s.seen, steps, k, t, m);
  }

  lemma WrapperEnds(s: State, steps: seq<Step>, k: nat, s': State, t: Tid, m: Marks)
    requires k < |steps| && steps[k] == CheckAnswer(t) && Inv(s) && Told(s, steps, k, t, m) && DoCheckAnswer(s, t, s')
    ensures Told(s', steps, k + 1, t, m)
  {
    LacksIsMissing(s, steps, k, t, m);
    CheckTells(s.job[t], s.seen, steps, k, t, m);
  }

  lemma StepTells(s: State, steps: seq<Step>, k: nat, s': State, t: Tid, m: Marks) returns (m': Marks)
    requires k < |steps| && Inv(s) && Told(s, steps, k, t, m) && Next(s, steps[k], s')
    requires s.ch.readerClosed <==> ClosedBefore(steps, k)
    ensures Told(s', steps, k + 1, t, m')
  {
    m' := m;
    if Marked(steps[k], t) {
      m' := MarkedTells(s, steps, k, s', t, m);
    } else if steps[k] == WakeOnCommand(t, true) {
      m' := m.(w := k);
      WaitEnds(s, steps, k, s', t, m);
    } else if steps[k] == CheckAnswer(t) {
      WrapperEnds(s, steps, k, s', t, m);
    } else {
      UnmarkedTells(s, steps, k, s', t, m);
    }
  }

  lemma ReaderStays(s: State, step: Step, s': State)
    requires Routable(s.ch) && Next(s, step, s')
    ensures s'.ch.readerClosed <==> s.ch.readerClosed || step.CloseReader?
  {
  }

  lemma ClosedOneMore(s: State, steps: seq<Step>, k: nat, s': State)
    requires k < |steps| && Routable(s.ch) && Next(s, steps[k], s')
    requires s.ch.readerClosed <==> ClosedBefore(steps, k)
    ensures s'.ch.readerClosed <==> ClosedBefore(steps, k + 1)
  {
    ReaderStays(s, steps[k], s');
  }

  /** Nobody but the reader closes the channel. */
  lemma {:induction false} ClosedByReader(states: seq<State>, steps: seq<Step>, k: nat)
    requires IsRun(states, steps) && k <= |steps|
    ensures states[k].ch.readerClosed <==> ClosedBefore(steps, k)
  {
    if k > 0 {
      ClosedByReader(states, steps, k - 1);
      RunInv(states, steps, k - 1);
      assert StepAt(states, steps, k - 1);
      ClosedOneMore(states[k - 1], steps, k - 1, states[k]);
    }
  }

  lemma RunTellsOneMore(states: seq<State>, steps: seq<Step>, k: nat, t: Tid, m: Marks) returns (m': Marks)
    requires IsRun(states, steps) && k < |steps| && Told(states[k], steps, k, t, m)
    ensures Told(states[k + 1], steps, k + 1, t, m')
  {
    RunInv(states, steps, k);
    ClosedByReader(states, steps, k);
    assert StepAt(states, steps, k);
    m' := StepTells(states[k], steps, k, states[k + 1], t, m);
  }

  lemma StartTells(states: seq<State>, steps: seq<Step>, t: Tid)
    requires IsRun(states, steps) && t < |states[0].pc|
    ensures Told(states[0], steps, 0, t, Marks(0, 0, 0, 0))
  {
  }

  lemma {:induction false} RunTells(states: seq<State>, steps: seq<Step>, k: nat, t: Tid) returns (m: Marks)
    requires IsRun(states, steps) && k <= |steps| && t < |states[k].pc|
    ensures Told(states[k], steps, k, t, m)
  {
    if k == 0 {
      m := Marks(0, 0, 0, 0);
      StartTells(states, steps, t);
    } else {
      ThreadsStay(states, steps, k - 1);
      var before := RunTells(states, steps, k - 1, t);
      m := RunTellsOneMore(states, steps, k - 1, t, before);
    }
  }

  lemma ThreadsStay(states: seq<State>, steps: seq<Step>, k: nat)
    requires IsRun(states, steps) && k < |steps|
    ensures |states[k + 1].pc| == |states[k].pc|
  {
    RunInv(states, steps, k);
    assert StepAt(states, steps, k);
    SameThreads(states[k], steps[k], states[k + 1]);
  }

  lemma SameThreads(s: State, step: Step, s': State)
    requires |s.pc| == |s.job| && Routable(s.ch) && Next(s, step, s')
    ensures |s'.pc| == |s.pc|
  {
    if Reads(step) {
      ReaderCreatesNone(s, step, s');
    } else if step.WakeRequesters? {
    } else if Early(step) {
      EarlyMovesOne(s, step, s');
    } else {
      LateMovesOne(s, step, s');
    }
  }

  lemma ReaderCreatesNone(s: State, step: Step, s': State)
    requires Routable(s.ch) && Next(s, step, s') && Reads(step)
    ensures |s'.pc| == |s.pc|
  {
  }

  lemma AnswerIsBuilt(s: State, t: Tid)
    requires Inv(s) && t < |s.pc| && s.job[t].built.Some?
    ensures var job := s.job[t];
            && WellFormed(job.call.command)
            && (job.built.value.rev == [] <==> Answer(job.call.command, job.lines) == [])
            && job.built.value.success == if Succeeded(job.lines) then 1 else 0
  {
    var job := s.job[t];
    FeedMeaning(job.call.command, job.built.value.id, job.lines);
    ReverseOfNone(job.built.value.rev);
  }

  ghost predicate StatusIs(job: Job, steps: seq<Step>, k: nat, t: Tid, m: Marks)
    requires m.b <= k <= |steps|
  {
    && BegunAt(steps, m.b, k, t, job.call) && m.b < m.j && EndedAt(steps, m.j, k, t) && EndMeans(steps, t, job, m)
    && job.err == (if EndErr(steps, m.j) == Ok && Missing(job) then InvalidResponse else EndErr(steps, m.j))
    && (job.alarmed <==> EndErr(steps, m.j) == Timeout && !job.call.handshake)
    && 1 <= job.tries <= (if job.call.handshake then 8 else 1)
    && job.tries + LeavesBetween(steps, m.b, k, t) == if job.call.handshake then 9 else 2
  }

  lemma FinishedTells(job: Job, seen: seq<string>, steps: seq<Step>, k: nat, t: Tid, m: Marks)
    requires k <= |steps| && Story(Finished, job, seen, steps, k, t, m)
    ensures m.b <= k && StatusIs(job, steps, k, t, m)
  {
  }

  /** writeline fails with one of two errors. */
  lemma {:induction false} RefusedHow(states: seq<State>, steps: seq<Step>, j: nat)
    requires IsRun(states, steps) && j < |steps| && steps[j].WriteAndInstall?
    ensures steps[j].written == Ok || steps[j].written == Generic || steps[j].written == ChannelClosed
    ensures ClosedBefore(steps, j) ==> steps[j].written == ChannelClosed
  {
    ClosedByReader(states, steps, j);
    assert StepAt(states, steps, j);
  }

  /** The three ends, without looking into the answer. */
  lemma EndsApart(job: Job, steps: seq<Step>, k: nat, t: Tid, m: Marks)
    requires m.b <= k <= |steps| && StatusIs(job, steps, k, t, m)
    requires steps[m.j].WriteAndInstall? ==> steps[m.j].written == Generic || steps[m.j].written == ChannelClosed
    ensures steps[m.j] == HandOver(t) || steps[m.j] == Relock(t, true) || Writes(steps[m.j], t)
    ensures job.err == Timeout <==> steps[m.j] == Relock(t, true)
    ensures job.alarmed <==> steps[m.j] == Relock(t, true) && !job.call.handshake
    ensures steps[m.j].WriteAndInstall? ==> job.err == steps[m.j].written
    ensures steps[m.j].HandOver? ==>
              job.built.Some? && job.err == if ClosedBefore(steps, m.j) then ChannelClosed else if Missing(job) then InvalidResponse else Ok
  {
  }

  /** Why a finished call has the status it has, in terms of the steps of the run. The call began at `b`,
      and its loop ended at `j`, in one of three ways. Its command was refused, and the status is the error of
      writeline. Or its wait had timed out, as its last step said, and the status is TIMEOUT, and onTimeout was
      called unless it was a handshake. Or its response was handed over: the status is CHANNEL_CLOSED exactly
      if the reader had been closed by then, whether there was a final result or not, and else 0 or, if a
      strict wrapper misses its line in the answer, INVALID_RESPONSE. The answer is that in the lines read since
      the command was written at `i`. */
  lemma CallStatus(states: seq<State>, steps: seq<Step>, k: nat, t: Tid) returns (b: nat, i: nat, w: nat, j: nat)
    requires IsRun(states, steps) && k <= |steps| && t < |states[k].pc| == |states[k].job| && states[k].pc[t] == Finished
    ensures
      var job := states[k].job[t];
      && BegunAt(steps, b, k, t, job.call) && b < j && EndedAt(steps, j, k, t)
      && (job.err == Timeout <==> steps[j] == Relock(t, true))
      && (job.alarmed <==> steps[j] == Relock(t, true) && !job.call.handshake)
      && (steps[j].Relock? ==> job.call.timed && b < i < w && WrittenAt(steps, i, j, t) && TimedOutAt(steps, w, j, t))
      && (steps[j].WriteAndInstall? ==>
            job.err == steps[j].written && (job.err == Generic || job.err == ChannelClosed) && (ClosedBefore(steps, j) ==> job.err == ChannelClosed))
      && (steps[j].HandOver? ==>
            && b < i && WrittenAt(steps, i, j, t) && WellFormed(job.call.command) && job.lines == LinesRead(steps, i + 1, j)
            && job.err == if ClosedBefore(steps, j) then ChannelClosed
                          else if job.call.strict && job.call.wantOut && Succeeded(job.lines) && Answer(job.call.command, job.lines) == []
                          then InvalidResponse else Ok)
  {
    var m := RunTells(states, steps, k, t);
    var job := states[k].job[t];
    FinishedTells(job, states[k].seen, steps, k, t, m);
    if steps[m.j].WriteAndInstall? {
      RefusedHow(states, steps, m.j);
    }
    EndsApart(job, steps, k, t, m);
    if steps[m.j].HandOver? {
      AnswerInRun(states, steps, k, t);
    }
    b, i, w, j := m.b, m.i, m.w, m.j;
  }

  /** A handshake makes eight attempts, unless one succeeds, and any other call one. */
  lemma CallAttempts(states: seq<State>, steps: seq<Step>, k: nat, t: Tid) returns (b: nat)
    requires IsRun(states, steps) && k <= |steps| && t < |states[k].pc| == |states[k].job| && states[k].pc[t] == Finished
    ensures
      var job := states[k].job[t];
      && BegunAt(steps, b, k, t, job.call)
      && var attempts := LeavesBetween(steps, b, k, t);
         if job.call.handshake then 1 <= attempts <= 8 && (job.err != Ok ==> attempts == 8) else attempts == 1
  {
    var m := RunTells(states, steps, k, t);
    FinishedTells(states[k].job[t], states[k].seen, steps, k, t, m);
    TriesEnd(states, steps, k, t);
    b := m.b;
  }

  lemma TriesEnd(states: seq<State>, steps: seq<Step>, k: nat, t: Tid)
    requires IsRun(states, steps) && k <= |steps| && t < |states[k].pc| == |states[k].job| && states[k].pc[t] == Finished
    ensures states[k].job[t].call.handshake && states[k].job[t].err != Ok ==> states[k].job[t].tries <= 1
  {
    RunInv(states, steps, k);
    assert JobOk(states[k].pc[t], states[k].job[t]);
  }

  lemma AnswerInRun(states: seq<State>, steps: seq<Step>, k: nat, t: Tid)
    requires IsRun(states, steps) && k <= |steps| && t < |states[k].pc| == |states[k].job| && states[k].job[t].built.Some?
    ensures var job := states[k].job[t];
            && WellFormed(job.call.command)
            && (job.built.value.rev == [] <==> Answer(job.call.command, job.lines) == [])
            && job.built.value.success == if Succeeded(job.lines) then 1 else 0
  {
    RunInv(states, steps, k);
    AnswerIsBuilt(states[k], t);
  }
}
