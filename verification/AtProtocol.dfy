/** Any number of command threads and the reader thread sharing one AT context under commandmutex,
    requestmutex and two condition variables. A command thread takes one step per source region;
    the reader's critical section has no wait inside and is one step. */
module AtProtocol {
  import opened Wrappers
  import opened AtLines
  import opened AtResponse
  import opened AtDispatch

  const HANDSHAKE_RETRY_COUNT: nat := 8

  type Tid = nat

  datatype Err = Ok | Generic | CommandPending | ChannelClosed | Timeout | InvalidResponse

  /** One call into the send path. `timed`: a timeout was given; `wantOut`: pp_outResponse is not
      NULL; `strict`: the wrapper insists on an intermediate (singleline, numeric, sms). */
  datatype Call = Call(command: Command, timed: bool, wantOut: bool, strict: bool, handshake: bool)

  predicate ValidCall(c: Call) {
    && WellFormed(c.command)
    && (c.strict ==> c.command.kind.SingleLine? || c.command.kind.Numeric?)
    && (c.handshake ==> c == HandshakeCall())
  }

  function HandshakeCall(): Call { Call(Command(NoResult, None, None), true, false, false, true) }

  datatype Pc =
    | Idle | Enter | TryRequest | AsleepOnRequest | WokenOnRequest | CheckPending | Send
    | LoopTest | AsleepOnCommand | WokenOnCommand(timedOut: bool) | Deliver
    | Cleanup | Broadcast | UnlockRequest | Return | Wrapper | Finished

  /** What the caller finds behind pp_outResponse: the intermediates are oldest first. */
  datatype Outcome = Outcome(id: nat, intermediates: seq<string>, final: Option<string>, success: int)

  /** What a thread is doing for its caller; `alarmed`: onTimeout was called for it. The rest is history:
      whether writeline accepted the command, the response that was delivered, as the reader left it, and
      the lines routed to it by then. */
  datatype Job = Job(
    call: Call, tries: nat, err: Err, out: Option<Outcome>, alarmed: bool,
    written: bool, built: Option<Response>, lines: seq<string>)

  function NewJob(call: Call, tries: nat, err: Err): Job { Job(call, tries, err, None, false, false, None, []) }

  /** Threads are numbered. `freed` and `handed` count, for every response object, how often it was
      freed by the channel and how often it was left with a caller; `seen` is the lines routed since
      the last install; `nullFault` records that the code has followed a NULL pointer. */
  datatype State = State(
    ch: Channel, commandOwner: Option<Tid>, requestOwner: Option<Tid>, pc: seq<Pc>, job: seq<Job>,
    nextId: nat, freed: multiset<nat>, handed: multiset<nat>, seen: seq<string>, nullFault: bool)

  predicate HoldsCommand(pc: Pc) {
    pc.TryRequest? || pc.CheckPending? || pc.Send? || pc.LoopTest? || pc.Deliver? || pc.Cleanup? || pc.Broadcast?
    || pc.UnlockRequest? || pc.Return?
  }

  predicate HoldsRequest(pc: Pc) {
    InLoop(pc) || pc.CheckPending? || pc.Send? || pc.Cleanup? || pc.Broadcast? || pc.UnlockRequest?
  }

  /** Between the install of the response and its delivery. */
  predicate InLoop(pc: Pc) { pc.LoopTest? || pc.AsleepOnCommand? || pc.WokenOnCommand? || pc.Deliver? }

  predicate AfterLoop(pc: Pc) {
    pc.Cleanup? || pc.Broadcast? || pc.UnlockRequest? || pc.Return? || pc.Wrapper? || pc.Finished?
  }

  datatype Step =
    | Begin(t: Tid, call: Call)
    | Lock(t: Tid)                            // Enter, or woken from requestcond: take commandmutex
    | TakeRequest(t: Tid)                     // trylock, or go to sleep on requestcond
    | WakeOnRequest(t: Tid)                   // spurious wake-up
    | CheckNotPending(t: Tid)
    | WriteAndInstall(t: Tid, written: Err)
    | TestLoop(t: Tid)
    | WakeOnCommand(t: Tid, timedOut: bool)   // timeout or spurious wake-up
    | Relock(t: Tid, timedOut: bool)
    | HandOver(t: Tid)
    | ClearPending(t: Tid)
    | WakeRequesters(t: Tid)
    | ReleaseRequest(t: Tid)
    | LeaveNoLock(t: Tid)
    | CheckAnswer(t: Tid)
    | ReadLine(line: string, woken: Option<Tid>)
    | CloseReader(woken: Option<Tid>)

  predicate At(s: State, t: Tid, pc: Pc) { t < |s.pc| == |s.job| && s.pc[t] == pc }

  /** pthread_cond_signal(commandcond) wakes one sleeper if there is any, and nobody else. */
  predicate SignalWakes(s: State, woken: Option<Tid>) {
    match woken
    case None => forall t :: 0 <= t < |s.pc| ==> s.pc[t] != AsleepOnCommand
    case Some(t) => t < |s.pc| && s.pc[t] == AsleepOnCommand
  }

  function Goto(s: State, t: Tid, pc: Pc): State
    requires t < |s.pc|
  {
    s.(pc := s.pc[t := pc])
  }

  function GotoWith(s: State, t: Tid, pc: Pc, job: Job): State
    requires t < |s.pc| == |s.job|
  {
    s.(pc := s.pc[t := pc], job := s.job[t := job])
  }

  predicate DoBegin(s: State, t: Tid, call: Call, s': State) {
    && (At(s, t, Idle) || At(s, t, Finished)) && ValidCall(call)
    && s' == GotoWith(s, t, Enter, NewJob(call, if call.handshake then HANDSHAKE_RETRY_COUNT else 1, Ok))
  }

  predicate DoLock(s: State, t: Tid, s': State) {
    && (At(s, t, Enter) || At(s, t, WokenOnRequest)) && s.commandOwner == None
    && s' == Goto(s, t, TryRequest).(commandOwner := Some(t))
  }

  predicate DoTakeRequest(s: State, t: Tid, s': State) {
    && At(s, t, TryRequest)
    && if s.requestOwner == None then
         s' == GotoWith(s, t, CheckPending, s.job[t].(err := Ok)).(requestOwner := Some(t))
       else
         s' == Goto(s, t, AsleepOnRequest).(commandOwner := None)
  }

  predicate DoWakeOnRequest(s: State, t: Tid, s': State) {
    At(s, t, AsleepOnRequest) && s' == Goto(s, t, WokenOnRequest)
  }

  predicate DoCheckNotPending(s: State, t: Tid, s': State) {
    && At(s, t, CheckPending)
    && if s.ch.response.Some? then s' == GotoWith(s, t, Cleanup, s.job[t].(err := CommandPending))
       else s' == Goto(s, t, Send)
  }

  predicate DoWriteAndInstall(s: State, t: Tid, written: Err, s': State) {
    && At(s, t, Send)
    && (written == Ok || written == Generic || written == ChannelClosed)
    && (s.ch.readerClosed ==> written == ChannelClosed)
    && if written != Ok then s' == GotoWith(s, t, Cleanup, s.job[t].(err := written))
       else s' == GotoWith(s, t, LoopTest, s.job[t].(written := true)).(
                    ch := Started(s.job[t].call.command, s.nextId), nextId := s.nextId + 1, seen := [])
  }

  predicate DoTestLoop(s: State, t: Tid, s': State) {
    && At(s, t, LoopTest)
    && if s.ch.response == None then s' == s.(nullFault := true)
       else if s.ch.response.value.final == None && !s.ch.readerClosed then
         s' == Goto(s, t, AsleepOnCommand).(commandOwner := None)
       else s' == Goto(s, t, Deliver)
  }

  predicate DoWakeOnCommand(s: State, t: Tid, timedOut: bool, s': State) {
    && At(s, t, AsleepOnCommand) && (timedOut ==> s.job[t].call.timed)
    && s' == Goto(s, t, WokenOnCommand(timedOut))
  }

  predicate DoRelock(s: State, t: Tid, timedOut: bool, s': State) {
    && At(s, t, WokenOnCommand(timedOut)) && s.commandOwner == None
    && if timedOut then s' == GotoWith(s, t, Cleanup, s.job[t].(err := Timeout)).(commandOwner := Some(t))
       else s' == Goto(s, t, LoopTest).(commandOwner := Some(t))
  }

  predicate DoHandOver(s: State, t: Tid, s': State) {
    && At(s, t, Deliver)
    && if s.ch.response == None then s' == s.(nullFault := true)
       else
         var r, job := s.ch.response.value, s.job[t];
         var out := if job.call.wantOut then Some(Outcome(r.id, Reverse(r.rev), r.final, r.success)) else None;
         var err := if s.ch.readerClosed then ChannelClosed else Ok;
         s' == GotoWith(s, t, Cleanup, job.(out := out, err := err, built := Some(r), lines := s.seen)).(
                 ch := s.ch.(response := None),
                 freed := if job.call.wantOut then s.freed else s.freed + multiset{r.id},
                 handed := if job.call.wantOut then s.handed + multiset{r.id} else s.handed)
  }

  predicate DoClearPending(s: State, t: Tid, s': State) {
    && At(s, t, Cleanup)
    && s' == Goto(s, t, Broadcast).(
               freed := if s.ch.response.Some? then s.freed + multiset{s.ch.response.value.id} else s.freed,
               ch := s.ch.(response := None, prefix := None, pdu := None))
  }

  function BroadcastTo(pc: seq<Pc>): (r: seq<Pc>) {
    seq(|pc|, k requires 0 <= k < |pc| => if pc[k] == AsleepOnRequest then WokenOnRequest else pc[k])
  }

  predicate DoWakeRequesters(s: State, t: Tid, s': State) {
    && At(s, t, Broadcast)
    && s' == Goto(s.(pc := BroadcastTo(s.pc)), t, UnlockRequest)
  }

  predicate DoReleaseRequest(s: State, t: Tid, s': State) {
    At(s, t, UnlockRequest) && s' == Goto(s, t, Return).(requestOwner := None)
  }

  predicate DoLeaveNoLock(s: State, t: Tid, s': State) {
    && At(s, t, Return)
    && var job := s.job[t];
       if job.call.handshake && job.err != Ok && job.tries > 1
       then s' == GotoWith(s, t, TryRequest, NewJob(job.call, job.tries - 1, job.err))
       else s' == GotoWith(s, t, Wrapper, job.(alarmed := job.err == Timeout && !job.call.handshake)).(commandOwner := None)
  }

  /** A delivered response with status 0 and success that lacks the intermediate its wrapper needs. */
  predicate LacksAnswer(job: Job) {
    job.call.strict && job.err == Ok && job.out.Some? && job.out.value.success > 0 && job.out.value.intermediates == []
  }

  predicate DoCheckAnswer(s: State, t: Tid, s': State) {
    && At(s, t, Wrapper)
    && var job := s.job[t];
       if LacksAnswer(job)
       then s' == GotoWith(s, t, Finished, job.(err := InvalidResponse, out := None)).(
                    freed := s.freed + multiset{job.out.value.id}, handed := s.handed - multiset{job.out.value.id})
       else s' == Goto(s, t, Finished)
  }

  /** `s` after a signal on commandcond that woke `woken`. */
  predicate Signalled(s: State, woken: Option<Tid>, s': State) {
    && SignalWakes(s, woken)
    && s' == if woken.Some? then Goto(s, woken.value, WokenOnCommand(false)) else s
  }

  predicate DoReadLine(s: State, line: string, woken: Option<Tid>, s': State) {
    && s.commandOwner == None
    && if !Routable(s.ch) then s' == s.(nullFault := true)
       else
         var (ch, d) := Route(s.ch, line);
         var routed := s.(ch := ch, seen := s.seen + [line]);
         if d.FinalResult? then Signalled(routed, woken, s') else s' == routed
  }

  predicate DoCloseReader(s: State, woken: Option<Tid>, s': State) {
    s.commandOwner == None && Signalled(s.(ch := s.ch.(readerClosed := true)), woken, s')
  }

  predicate Next(s: State, step: Step, s': State) {
    match step
    case Begin(t, call) => DoBegin(s, t, call, s')
    case Lock(t) => DoLock(s, t, s')
    case TakeRequest(t) => DoTakeRequest(s, t, s')
    case WakeOnRequest(t) => DoWakeOnRequest(s, t, s')
    case CheckNotPending(t) => DoCheckNotPending(s, t, s')
    case WriteAndInstall(t, written) => DoWriteAndInstall(s, t, written, s')
    case TestLoop(t) => DoTestLoop(s, t, s')
    case WakeOnCommand(t, timedOut) => DoWakeOnCommand(s, t, timedOut, s')
    case Relock(t, timedOut) => DoRelock(s, t, timedOut, s')
    case HandOver(t) => DoHandOver(s, t, s')
    case ClearPending(t) => DoClearPending(s, t, s')
    case WakeRequesters(t) => DoWakeRequesters(s, t, s')
    case ReleaseRequest(t) => DoReleaseRequest(s, t, s')
    case LeaveNoLock(t) => DoLeaveNoLock(s, t, s')
    case CheckAnswer(t) => DoCheckAnswer(s, t, s')
    case ReadLine(line, woken) => DoReadLine(s, line, woken, s')
    case CloseReader(woken) => DoCloseReader(s, woken, s')
  }

  predicate Init(s: State) {
    && s.ch.response == None && s.ch.prefix == None && s.ch.pdu == None && !s.ch.readerClosed
    && s.commandOwner == None && s.requestOwner == None && |s.pc| == |s.job|
    && (forall t :: 0 <= t < |s.pc| ==> s.pc[t] == Idle && s.job[t].err == Ok && s.job[t].out == None && s.job[t].built == None)
    && s.nextId == 0 && s.freed == multiset{} && s.handed == multiset{} && s.seen == [] && !s.nullFault
  }

  ghost predicate IsRun(states: seq<State>, steps: seq<Step>) {
    && |states| == |steps| + 1
    && Init(states[0])
    && forall k :: 0 <= k < |steps| ==> StepAt(states, steps, k)
  }

  ghost predicate StepAt(states: seq<State>, steps: seq<Step>, k: nat)
    requires k < |steps| < |states|
  {
    Next(states[k], steps[k], states[k + 1])
  }

  // ----- the invariant -----

  ghost predicate Locks(s: State) {
    && |s.pc| == |s.job|
    && (s.commandOwner.Some? ==> s.commandOwner.value < |s.pc|)
    && (s.requestOwner.Some? ==> s.requestOwner.value < |s.pc|)
    && (forall t :: 0 <= t < |s.pc| ==> (HoldsCommand(s.pc[t]) <==> s.commandOwner == Some(t)))
    && (forall t :: 0 <= t < |s.pc| ==> (HoldsRequest(s.pc[t]) <==> s.requestOwner == Some(t)))
  }

  /** No lost wake-up on requestcond: the sleepers' mutex is taken, and its holder has yet to broadcast. */
  ghost predicate RequestSleepers(s: State) {
    forall t :: 0 <= t < |s.pc| && s.pc[t] == AsleepOnRequest ==>
      s.requestOwner.Some? && s.requestOwner.value < |s.pc| && s.pc[s.requestOwner.value] != UnlockRequest
  }

  /** No lost wake-up on commandcond: a sleeper still has something to wait for. */
  ghost predicate CommandSleepers(s: State) {
    forall t :: 0 <= t < |s.pc| && s.pc[t] == AsleepOnCommand ==>
      s.ch.response.Some? && s.ch.response.value.final == None && !s.ch.readerClosed
  }

  /** A response is pending, and the prefix and PDU pointers are set, only while the holder of
      requestmutex is between install and clean-up; in the loop there is one. */
  ghost predicate Pending(s: State) {
    && (s.ch.response.Some? || s.ch.prefix.Some? || s.ch.pdu.Some? ==>
          && s.requestOwner.Some? && s.requestOwner.value < |s.pc|
          && (InLoop(s.pc[s.requestOwner.value]) || s.pc[s.requestOwner.value] == Cleanup))
    && (forall t :: 0 <= t < |s.pc| && InLoop(s.pc[t]) ==> s.ch.response.Some?)
    && (forall t :: 0 <= t < |s.pc| && s.pc[t] == Deliver ==>
          s.ch.response.Some? && (s.ch.response.value.final.Some? || s.ch.readerClosed))
  }

  ghost predicate Control(s: State) {
    !s.nullFault && Locks(s) && RequestSleepers(s) && CommandSleepers(s) && Pending(s)
  }

  function Outstanding(s: State): multiset<nat> {
    s.freed + s.handed + if s.ch.response.Some? then multiset{s.ch.response.value.id} else multiset{}
  }

  /** Every response ever allocated, once. */
  function Issued(n: nat): (ids: multiset<nat>)
    ensures forall id: nat :: ids[id] == if id < n then 1 else 0
  {
    if n == 0 then multiset{} else Issued(n - 1) + multiset{n - 1}
  }

  ghost predicate Accounts(s: State) {
    Outstanding(s) == Issued(s.nextId)
  }

  /** What a caller may rely on once its call is past the wait loop. */
  ghost predicate JobOk(pc: Pc, job: Job) {
    && (pc != Idle ==> ValidCall(job.call))
    && job.err != CommandPending
    && (job.out.Some? ==>
          && AfterLoop(pc) && job.call.wantOut && job.built.Some?
          && (job.err == Ok || job.err == ChannelClosed)
          && job.out.value == Outcome(job.built.value.id, Reverse(job.built.value.rev), job.built.value.final, job.built.value.success)
          && (job.err == Ok ==> job.out.value.final.Some?))
    && (AfterLoop(pc) && job.err == Ok && job.call.wantOut ==> job.out.Some?)
    && (pc == Finished ==> !LacksAnswer(job))
    && ((pc == Wrapper || pc == Finished) && job.call.handshake && job.err != Ok ==> job.tries <= 1)
  }

  predicate BeforeInstall(pc: Pc) {
    pc.Enter? || pc.TryRequest? || pc.AsleepOnRequest? || pc.WokenOnRequest? || pc.CheckPending? || pc.Send?
  }

  /** A response is left with the caller exactly if it was asked for, the command was written, and the
      wait ended with a final result or a closed reader. */
  ghost predicate WrittenOk(pc: Pc, job: Job) {
    && (BeforeInstall(pc) ==> !job.written && job.out == None)
    && (InLoop(pc) ==> job.written && job.out == None)
    && (AfterLoop(pc) ==>
          && (job.out.Some? <==> job.call.wantOut && job.written && (job.err == Ok || job.err == ChannelClosed))
          && (job.err == Ok ==> job.written))
  }

  ghost predicate AllWritten(s: State) {
    |s.pc| == |s.job| && forall t :: 0 <= t < |s.pc| ==> WrittenOk(s.pc[t], s.job[t])
  }

  ghost predicate Jobs(s: State) {
    && |s.pc| == |s.job|
    && forall t :: 0 <= t < |s.pc| ==> JobOk(s.pc[t], s.job[t])
  }

  /** What callers hold was handed out, and no two of them hold the same response. */
  ghost predicate Held(s: State) {
    && (forall t :: 0 <= t < |s.job| && s.job[t].out.Some? ==> s.job[t].out.value.id in s.handed)
    && (forall t, u :: 0 <= t < u < |s.job| && s.job[t].out.Some? && s.job[u].out.Some? ==>
          s.job[t].out.value.id != s.job[u].out.value.id)
  }

  /** The pending response is what the reader made of the lines since its install, and so is every
      response that was delivered. */
  ghost predicate Faithful(s: State) {
    && |s.pc| == |s.job| && Routable(s.ch)
    && (forall t :: 0 <= t < |s.pc| && InLoop(s.pc[t]) ==>
          && s.ch.response.Some? && WellFormed(s.job[t].call.command)
          && s.ch.(readerClosed := false) == Feed(Started(s.job[t].call.command, s.ch.response.value.id), s.seen))
    && (forall t :: 0 <= t < |s.pc| && s.job[t].built.Some? ==>
          && WellFormed(s.job[t].call.command)
          && s.job[t].built == Feed(Started(s.job[t].call.command, s.job[t].built.value.id), s.job[t].lines).response)
  }

  ghost predicate Inv(s: State) {
    Control(s) && Accounts(s) && Held(s) && Jobs(s) && AllWritten(s) && Faithful(s)
  }

  // ----- every step keeps the invariant -----

  lemma BeginKeepsControl(s: State, t: Tid, call: Call, s': State)
    requires Control(s)
    requires DoBegin(s, t, call, s')
    ensures Control(s')
  {
  }

  lemma LockKeepsControl(s: State, t: Tid, s': State)
    requires Control(s)
    requires DoLock(s, t, s')
    ensures Control(s')
  {
  }

  lemma TakingKeepsControl(s: State, t: Tid, s': State)
    requires Control(s)
    requires DoTakeRequest(s, t, s')
    ensures Control(s')
  {
  }

  lemma WakingKeepsControl(s: State, t: Tid, s': State)
    requires Control(s)
    requires DoWakeOnRequest(s, t, s')
    ensures Control(s')
  {
  }

  lemma CheckedKeepsControl(s: State, t: Tid, s': State)
    requires Control(s)
    requires DoCheckNotPending(s, t, s')
    ensures Control(s')
  {
  }

  lemma SendingKeepsControl(s: State, t: Tid, written: Err, s': State)
    requires Control(s)
    requires DoWriteAndInstall(s, t, written, s')
    ensures Control(s')
  {
  }

  lemma TestingKeepsControl(s: State, t: Tid, s': State)
    requires Control(s)
    requires DoTestLoop(s, t, s')
    ensures Control(s')
  {
  }

  lemma WaitingKeepsControl(s: State, t: Tid, timedOut: bool, s': State)
    requires Control(s)
    requires DoWakeOnCommand(s, t, timedOut, s') || DoRelock(s, t, timedOut, s')
    ensures Control(s')
  {
  }

  lemma DeliveringKeepsControl(s: State, t: Tid, s': State)
    requires Control(s)
    requires DoHandOver(s, t, s') || DoClearPending(s, t, s')
    ensures Control(s')
  {
  }

  lemma ReleasingKeepsControl(s: State, t: Tid, s': State)
    requires Control(s)
    requires DoWakeRequesters(s, t, s') || DoReleaseRequest(s, t, s')
    ensures Control(s')
  {
  }

  lemma LeavingKeepsControl(s: State, t: Tid, s': State)
    requires Control(s)
    requires DoLeaveNoLock(s, t, s')
    ensures Control(s')
  {
  }

  /** A thread that neither holds anything nor sleeps moves to another such place. */
  lemma BystanderKeepsControl(s: State, t: Tid, s': State)
    requires Control(s) && t < |s.pc| && s'.pc == s.pc[t := Finished] && s.pc[t] == Wrapper && |s'.job| == |s.job|
    requires s'.ch == s.ch && s'.commandOwner == s.commandOwner && s'.requestOwner == s.requestOwner && s'.nullFault == s.nullFault
    ensures Control(s')
  {
  }

  lemma CheckingKeepsControl(s: State, t: Tid, s': State)
    requires Control(s)
    requires DoCheckAnswer(s, t, s')
    ensures Control(s')
  {
    BystanderKeepsControl(s, t, s');
  }

  lemma RoutingKeepsControl(s: State, line: string, woken: Option<Tid>, s': State)
    requires Control(s) && Routable(s.ch)
    requires DoReadLine(s, line, woken, s')
    ensures Control(s')
  {
  }

  lemma ClosingKeepsControl(s: State, woken: Option<Tid>, s': State)
    requires Control(s)
    requires DoCloseReader(s, woken, s')
    ensures Control(s')
  {
  }

  /** Steps that move no response and no line: the channel keeps its contents, and a job is either
      as it was or a fresh one. */
  ghost predicate Quiet(s: State, s': State) {
    && s'.ch.(readerClosed := false) == s.ch.(readerClosed := false)
    && s'.nextId == s.nextId && s'.freed == s.freed && s'.handed == s.handed && s'.seen == s.seen
    && |s.pc| == |s.job| == |s'.pc| == |s'.job|
    && (forall t :: 0 <= t < |s'.pc| && InLoop(s'.pc[t]) ==> InLoop(s.pc[t]) && s'.job[t].call == s.job[t].call)
    && (forall t :: 0 <= t < |s'.job| ==>
          || (s'.job[t].out == None && s'.job[t].built == None)
          || s'.job[t].(tries := 0, err := Ok, alarmed := false) == s.job[t].(tries := 0, err := Ok, alarmed := false))
  }

  lemma QuietKeepsData(s: State, s': State)
    requires Quiet(s, s') && Accounts(s) && Held(s) && Faithful(s)
    ensures Accounts(s') && Held(s') && Faithful(s')
  {
  }

  lemma EnteringIsQuiet(s: State, t: Tid, call: Call, s': State)
    requires |s.pc| == |s.job|
    requires DoBegin(s, t, call, s') || DoLock(s, t, s')
    ensures Quiet(s, s')
  {
  }

  lemma QueueingIsQuiet(s: State, t: Tid, s': State)
    requires |s.pc| == |s.job| && DoTakeRequest(s, t, s')
    ensures Quiet(s, s')
  {
  }

  lemma RetryingIsQuiet(s: State, t: Tid, s': State)
    requires |s.pc| == |s.job| && DoWakeOnRequest(s, t, s')
    ensures Quiet(s, s')
  {
  }

  lemma CheckedIsQuiet(s: State, t: Tid, s': State)
    requires |s.pc| == |s.job|
    requires DoCheckNotPending(s, t, s')
    ensures Quiet(s, s')
  {
  }

  lemma TestedIsQuiet(s: State, t: Tid, s': State)
    requires |s.pc| == |s.job| && DoTestLoop(s, t, s')
    ensures Quiet(s, s')
  {
  }

  lemma WaitingIsQuiet(s: State, t: Tid, timedOut: bool, s': State)
    requires |s.pc| == |s.job|
    requires DoWakeOnCommand(s, t, timedOut, s') || DoRelock(s, t, timedOut, s')
    ensures Quiet(s, s')
  {
  }

  lemma ReleasingIsQuiet(s: State, t: Tid, s': State)
    requires |s.pc| == |s.job|
    requires DoWakeRequesters(s, t, s') || DoReleaseRequest(s, t, s')
    ensures Quiet(s, s')
  {
  }

  lemma LeavingIsQuiet(s: State, t: Tid, woken: Option<Tid>, s': State)
    requires |s.pc| == |s.job|
    requires DoLeaveNoLock(s, t, s') || DoCloseReader(s, woken, s')
    ensures Quiet(s, s')
  {
  }

  lemma EnteringKeepsJobs(s: State, t: Tid, call: Call, s': State)
    requires Locks(s) && Pending(s) && Jobs(s)
    requires DoBegin(s, t, call, s') || DoLock(s, t, s')
    ensures Jobs(s')
  {
  }

  lemma TakingKeepsJobs(s: State, t: Tid, s': State)
    requires Locks(s) && Pending(s) && Jobs(s)
    requires DoTakeRequest(s, t, s')
    ensures Jobs(s')
  {
  }

  lemma WakingKeepsJobs(s: State, t: Tid, s': State)
    requires Locks(s) && Pending(s) && Jobs(s)
    requires DoWakeOnRequest(s, t, s')
    ensures Jobs(s')
  {
  }

  lemma CheckedKeepsJobs(s: State, t: Tid, s': State)
    requires Locks(s) && Pending(s) && Jobs(s)
    requires DoCheckNotPending(s, t, s')
    ensures Jobs(s')
  {
  }

  lemma SendingKeepsJobs(s: State, t: Tid, written: Err, s': State)
    requires Locks(s) && Pending(s) && Jobs(s)
    requires DoWriteAndInstall(s, t, written, s')
    ensures Jobs(s')
  {
  }

  lemma TestingKeepsJobs(s: State, t: Tid, s': State)
    requires Locks(s) && Pending(s) && Jobs(s)
    requires DoTestLoop(s, t, s')
    ensures Jobs(s')
  {
  }

  lemma WokenKeepsJobs(s: State, t: Tid, timedOut: bool, s': State)
    requires Locks(s) && Pending(s) && Jobs(s)
    requires DoWakeOnCommand(s, t, timedOut, s')
    ensures Jobs(s')
  {
  }

  lemma RelockKeepsJobs(s: State, t: Tid, timedOut: bool, s': State)
    requires Locks(s) && Pending(s) && Jobs(s)
    requires DoRelock(s, t, timedOut, s')
    ensures Jobs(s')
  {
  }

  lemma DeliveringKeepsJobs(s: State, t: Tid, s': State)
    requires Locks(s) && Pending(s) && Jobs(s)
    requires DoHandOver(s, t, s') || DoClearPending(s, t, s')
    ensures Jobs(s')
  {
  }

  lemma ReleasingKeepsJobs(s: State, t: Tid, s': State)
    requires Locks(s) && Pending(s) && Jobs(s)
    requires DoWakeRequesters(s, t, s') || DoReleaseRequest(s, t, s')
    ensures Jobs(s')
  {
  }

  lemma LeavingKeepsJobs(s: State, t: Tid, s': State)
    requires Locks(s) && Pending(s) && Jobs(s)
    requires DoLeaveNoLock(s, t, s')
    ensures Jobs(s')
  {
  }

  lemma CheckingKeepsJobs(s: State, t: Tid, s': State)
    requires Locks(s) && Pending(s) && Jobs(s)
    requires DoCheckAnswer(s, t, s')
    ensures Jobs(s')
  {
  }

  lemma RoutingKeepsJobs(s: State, line: string, woken: Option<Tid>, s': State)
    requires Locks(s) && Pending(s) && Jobs(s)
    requires DoReadLine(s, line, woken, s')
    ensures Jobs(s')
  {
  }

  lemma ClosingKeepsJobs(s: State, woken: Option<Tid>, s': State)
    requires Locks(s) && Pending(s) && Jobs(s)
    requires DoCloseReader(s, woken, s')
    ensures Jobs(s')
  {
  }

  lemma PendingIsCountedOnce(s: State)
    requires Accounts(s) && s.ch.response.Some?
    ensures s.ch.response.value.id !in s.handed && s.ch.response.value.id !in s.freed
    ensures s.ch.response.value.id < s.nextId
  {
    var id := s.ch.response.value.id;
    assert Outstanding(s)[id] == Issued(s.nextId)[id];
  }

  lemma InstallKeepsAccounts(s: State, t: Tid, written: Err, s': State)
    requires s.ch.response == None && Accounts(s) && Held(s) && DoWriteAndInstall(s, t, written, s')
    ensures Accounts(s') && Held(s')
  {
  }

  lemma InstallKeepsFaithful(s: State, t: Tid, written: Err, s': State)
    requires Control(s) && Jobs(s) && Faithful(s) && DoWriteAndInstall(s, t, written, s')
    ensures Faithful(s')
  {
  }

  lemma DeliveryKeepsAccounts(s: State, t: Tid, s': State)
    requires |s.pc| == |s.job| && Accounts(s) && Held(s) && DoHandOver(s, t, s')
    ensures Accounts(s') && Held(s')
  {
    if s.ch.response.Some? { PendingIsCountedOnce(s); }
  }

  lemma ClearingKeepsAccounts(s: State, t: Tid, s': State)
    requires |s.pc| == |s.job| && Accounts(s) && Held(s) && DoClearPending(s, t, s')
    ensures Accounts(s') && Held(s')
  {
    if s.ch.response.Some? { PendingIsCountedOnce(s); }
  }

  lemma DeliveryKeepsFaithful(s: State, t: Tid, s': State)
    requires Control(s) && Faithful(s)
    requires DoHandOver(s, t, s') || DoClearPending(s, t, s')
    ensures Faithful(s')
  {
  }

  lemma CheckKeepsAccounts(s: State, t: Tid, s': State)
    requires Accounts(s) && Held(s) && DoCheckAnswer(s, t, s')
    ensures Accounts(s')
  {
    if LacksAnswer(s.job[t]) {
      assert s.job[t].out.value.id in s.handed;
    }
  }

  lemma CheckKeepsHeld(s: State, t: Tid, s': State)
    requires Held(s) && DoCheckAnswer(s, t, s')
    ensures Held(s')
  {
  }

  lemma CheckKeepsFaithful(s: State, t: Tid, s': State)
    requires Faithful(s) && DoCheckAnswer(s, t, s')
    ensures Faithful(s')
  {
  }

  lemma RouteIgnoresClosed(ch: Channel, line: string)
    requires Routable(ch)
    ensures Route(ch.(readerClosed := false), line).0 == Route(ch, line).0.(readerClosed := false)
    ensures (Route(ch, line).0.response.Some? <==> ch.response.Some?)
    ensures ch.response.Some? ==> Route(ch, line).0.response.value.id == ch.response.value.id
  {
  }

  lemma FeedOneMore(ch: Channel, lines: seq<string>, line: string)
    requires Routable(ch)
    ensures Feed(ch, lines + [line]) == Route(Feed(ch, lines), line).0
  {
    assert (lines + [line])[..|lines|] == lines;
  }

  lemma RoutingKeepsAccounts(s: State, line: string, woken: Option<Tid>, s': State)
    requires Routable(s.ch) && Accounts(s) && Held(s) && DoReadLine(s, line, woken, s')
    ensures Accounts(s') && Held(s')
  {
    RouteIgnoresClosed(s.ch, line);
    assert s'.job == s.job && s'.handed == s.handed && s'.freed == s.freed && s'.nextId == s.nextId;
    assert Outstanding(s') == Outstanding(s);
  }

  lemma RoutingKeepsFaithful(s: State, line: string, woken: Option<Tid>, s': State)
    requires Faithful(s) && DoReadLine(s, line, woken, s')
    ensures Faithful(s')
  {
    RouteIgnoresClosed(s.ch, line);
    forall t | 0 <= t < |s.pc| && InLoop(s.pc[t])
      ensures Route(s.ch, line).0.(readerClosed := false)
           == Feed(Started(s.job[t].call.command, s.ch.response.value.id), s.seen + [line])
    {
      FeedOneMore(Started(s.job[t].call.command, s.ch.response.value.id), s.seen, line);
    }
  }

  lemma ControlKept(s: State, step: Step, s': State)
    requires Control(s) && Routable(s.ch) && Next(s, step, s')
    ensures Control(s')
  {
    match step
    case Begin(t, call) => BeginKeepsControl(s, t, call, s');
    case Lock(t) => LockKeepsControl(s, t, s');
    case TakeRequest(t) => TakingKeepsControl(s, t, s');
    case WakeOnRequest(t) => WakingKeepsControl(s, t, s');
    case CheckNotPending(t) => CheckedKeepsControl(s, t, s');
    case WriteAndInstall(t, written) => SendingKeepsControl(s, t, written, s');
    case TestLoop(t) => TestingKeepsControl(s, t, s');
    case WakeOnCommand(t, timedOut) => WaitingKeepsControl(s, t, timedOut, s');
    case Relock(t, timedOut) => WaitingKeepsControl(s, t, timedOut, s');
    case HandOver(t) => DeliveringKeepsControl(s, t, s');
    case ClearPending(t) => DeliveringKeepsControl(s, t, s');
    case WakeRequesters(t) => ReleasingKeepsControl(s, t, s');
    case ReleaseRequest(t) => ReleasingKeepsControl(s, t, s');
    case LeaveNoLock(t) => LeavingKeepsControl(s, t, s');
    case CheckAnswer(t) => CheckingKeepsControl(s, t, s');
    case ReadLine(line, woken) => RoutingKeepsControl(s, line, woken, s');
    case CloseReader(woken) => ClosingKeepsControl(s, woken, s');
  }

  lemma JobsKept(s: State, step: Step, s': State)
    requires Control(s) && Jobs(s) && Next(s, step, s')
    ensures Jobs(s')
  {
    match step
    case Begin(t, call) => EnteringKeepsJobs(s, t, call, s');
    case Lock(t) => EnteringKeepsJobs(s, t, HandshakeCall(), s');
    case TakeRequest(t) => TakingKeepsJobs(s, t, s');
    case WakeOnRequest(t) => WakingKeepsJobs(s, t, s');
    case CheckNotPending(t) => CheckedKeepsJobs(s, t, s');
    case WriteAndInstall(t, written) => SendingKeepsJobs(s, t, written, s');
    case TestLoop(t) => TestingKeepsJobs(s, t, s');
    case WakeOnCommand(t, timedOut) => WokenKeepsJobs(s, t, timedOut, s');
    case Relock(t, timedOut) => RelockKeepsJobs(s, t, timedOut, s');
    case HandOver(t) => DeliveringKeepsJobs(s, t, s');
    case ClearPending(t) => DeliveringKeepsJobs(s, t, s');
    case WakeRequesters(t) => ReleasingKeepsJobs(s, t, s');
    case ReleaseRequest(t) => ReleasingKeepsJobs(s, t, s');
    case LeaveNoLock(t) => LeavingKeepsJobs(s, t, s');
    case CheckAnswer(t) => CheckingKeepsJobs(s, t, s');
    case ReadLine(line, woken) => RoutingKeepsJobs(s, line, woken, s');
    case CloseReader(woken) => ClosingKeepsJobs(s, woken, s');
  }

  /** Steps of one thread leave the others as they were; a wake-up moves sleepers without touching jobs. */
  lemma OthersStayWritten(s: State, t: Tid, s': State)
    requires AllWritten(s) && t < |s.pc| == |s'.pc| && |s'.job| == |s.job|
    requires forall u :: 0 <= u < |s.pc| && u != t ==> s'.job[u] == s.job[u] && s'.pc[u] == s.pc[u]
    requires WrittenOk(s'.pc[t], s'.job[t])
    ensures AllWritten(s')
  {
  }

  lemma BroadcastKeepsWritten(s: State, t: Tid, s': State)
    requires AllWritten(s) && DoWakeRequesters(s, t, s')
    ensures AllWritten(s')
  {
  }

  lemma ReaderKeepsWritten(s: State, s': State)
    requires AllWritten(s) && s'.job == s.job && |s'.pc| == |s.pc|
    requires forall u :: 0 <= u < |s.pc| ==> s'.pc[u] == s.pc[u] || (s.pc[u] == AsleepOnCommand && s'.pc[u] == WokenOnCommand(false))
    ensures AllWritten(s')
  {
  }

  lemma EnteringKeepsWritten(s: State, t: Tid, call: Call, s': State)
    requires AllWritten(s)
    requires DoBegin(s, t, call, s') || DoLock(s, t, s')
    ensures AllWritten(s')
  {
    OthersStayWritten(s, t, s');
  }

  lemma QueueingKeepsWritten(s: State, t: Tid, s': State)
    requires AllWritten(s)
    requires DoTakeRequest(s, t, s') || DoWakeOnRequest(s, t, s') || DoCheckNotPending(s, t, s')
    ensures AllWritten(s')
  {
    OthersStayWritten(s, t, s');
  }

  lemma SendingKeepsWritten(s: State, t: Tid, written: Err, s': State)
    requires AllWritten(s)
    requires DoWriteAndInstall(s, t, written, s') || DoTestLoop(s, t, s')
    ensures AllWritten(s')
  {
    OthersStayWritten(s, t, s');
  }

  lemma WaitingKeepsWritten(s: State, t: Tid, timedOut: bool, s': State)
    requires AllWritten(s)
    requires DoWakeOnCommand(s, t, timedOut, s') || DoRelock(s, t, timedOut, s')
    ensures AllWritten(s')
  {
    OthersStayWritten(s, t, s');
  }

  lemma DeliveringKeepsWritten(s: State, t: Tid, s': State)
    requires AllWritten(s)
    requires DoHandOver(s, t, s') || DoClearPending(s, t, s')
    ensures AllWritten(s')
  {
    OthersStayWritten(s, t, s');
  }

  lemma ReleasingKeepsWritten(s: State, t: Tid, s': State)
    requires AllWritten(s)
    requires DoReleaseRequest(s, t, s')
    ensures AllWritten(s')
  {
    OthersStayWritten(s, t, s');
  }

  lemma LeavingKeepsWritten(s: State, t: Tid, s': State)
    requires AllWritten(s)
    requires DoLeaveNoLock(s, t, s')
    ensures AllWritten(s')
  {
    OthersStayWritten(s, t, s');
  }

  lemma CheckingKeepsWritten(s: State, t: Tid, s': State)
    requires AllWritten(s)
    requires DoCheckAnswer(s, t, s')
    ensures AllWritten(s')
  {
    OthersStayWritten(s, t, s');
  }

  lemma WrittenKept(s: State, step: Step, s': State)
    requires Routable(s.ch) && AllWritten(s) && Next(s, step, s')
    ensures AllWritten(s')
  {
    match step
    case Begin(t, call) => EnteringKeepsWritten(s, t, call, s');
    case Lock(t) => EnteringKeepsWritten(s, t, HandshakeCall(), s');
    case TakeRequest(t) => QueueingKeepsWritten(s, t, s');
    case WakeOnRequest(t) => QueueingKeepsWritten(s, t, s');
    case CheckNotPending(t) => QueueingKeepsWritten(s, t, s');
    case WriteAndInstall(t, written) => SendingKeepsWritten(s, t, written, s');
    case TestLoop(t) => SendingKeepsWritten(s, t, Ok, s');
    case WakeOnCommand(t, timedOut) => WaitingKeepsWritten(s, t, timedOut, s');
    case Relock(t, timedOut) => WaitingKeepsWritten(s, t, timedOut, s');
    case HandOver(t) => DeliveringKeepsWritten(s, t, s');
    case ClearPending(t) => DeliveringKeepsWritten(s, t, s');
    case WakeRequesters(t) => BroadcastKeepsWritten(s, t, s');
    case ReleaseRequest(t) => ReleasingKeepsWritten(s, t, s');
    case LeaveNoLock(t) => LeavingKeepsWritten(s, t, s');
    case CheckAnswer(t) => CheckingKeepsWritten(s, t, s');
    case ReadLine(line, woken) => RoutingKeepsWritten(s, line, woken, s');
    case CloseReader(woken) => ClosingKeepsWritten(s, woken, s');
  }

  lemma RoutingKeepsWritten(s: State, line: string, woken: Option<Tid>, s': State)
    requires Routable(s.ch) && AllWritten(s) && DoReadLine(s, line, woken, s')
    ensures AllWritten(s')
  {
    ReaderKeepsWritten(s, s');
  }

  lemma ClosingKeepsWritten(s: State, woken: Option<Tid>, s': State)
    requires AllWritten(s) && DoCloseReader(s, woken, s')
    ensures AllWritten(s')
  {
    ReaderKeepsWritten(s, s');
  }

  ghost predicate Kept(s: State) { Accounts(s) && Held(s) && Faithful(s) }

  predicate TouchesResponse(step: Step) { step.WriteAndInstall? || step.HandOver? || step.ClearPending? || step.CheckAnswer? || step.ReadLine? }

  lemma OthersAreQuiet(s: State, step: Step, s': State)
    requires |s.pc| == |s.job| && Next(s, step, s') && !TouchesResponse(step)
    ensures Quiet(s, s')
  {
    match step {
      case Begin(t, call) => EnteringIsQuiet(s, t, call, s');
      case Lock(t) => EnteringIsQuiet(s, t, HandshakeCall(), s');
      case TakeRequest(t) => QueueingIsQuiet(s, t, s');
      case WakeOnRequest(t) => RetryingIsQuiet(s, t, s');
      case CheckNotPending(t) => CheckedIsQuiet(s, t, s');
      case TestLoop(t) => TestedIsQuiet(s, t, s');
      case WakeOnCommand(t, timedOut) => WaitingIsQuiet(s, t, timedOut, s');
      case Relock(t, timedOut) => WaitingIsQuiet(s, t, timedOut, s');
      case WakeRequesters(t) => ReleasingIsQuiet(s, t, s');
      case ReleaseRequest(t) => ReleasingIsQuiet(s, t, s');
      case LeaveNoLock(t) => LeavingIsQuiet(s, t, None, s');
      case CloseReader(woken) => LeavingIsQuiet(s, 0, woken, s');
    }
  }

  lemma InstallKeepsData(s: State, t: Tid, written: Err, s': State)
    requires Control(s) && Jobs(s) && Kept(s) && DoWriteAndInstall(s, t, written, s')
    ensures Kept(s')
  {
    InstallKeepsAccounts(s, t, written, s');
    InstallKeepsFaithful(s, t, written, s');
  }

  lemma DeliveryKeepsData(s: State, t: Tid, s': State)
    requires Control(s) && Kept(s)
    requires DoHandOver(s, t, s') || DoClearPending(s, t, s')
    ensures Kept(s')
  {
    if DoHandOver(s, t, s') {
      DeliveryKeepsAccounts(s, t, s');
    } else {
      ClearingKeepsAccounts(s, t, s');
    }
    DeliveryKeepsFaithful(s, t, s');
  }

  lemma CheckKeepsData(s: State, t: Tid, s': State)
    requires Kept(s) && DoCheckAnswer(s, t, s')
    ensures Kept(s')
  {
    CheckKeepsAccounts(s, t, s');
    CheckKeepsHeld(s, t, s');
    CheckKeepsFaithful(s, t, s');
  }

  lemma RoutingKeepsData(s: State, line: string, woken: Option<Tid>, s': State)
    requires Kept(s) && DoReadLine(s, line, woken, s')
    ensures Kept(s')
  {
    RoutingKeepsAccounts(s, line, woken, s');
    RoutingKeepsFaithful(s, line, woken, s');
  }

  lemma OthersKeepData(s: State, step: Step, s': State)
    requires Kept(s) && Next(s, step, s') && !TouchesResponse(step)
    ensures Kept(s')
  {
    OthersAreQuiet(s, step, s');
    QuietKeepsData(s, s');
  }

  lemma TouchingKeepsData(s: State, step: Step, s': State)
    requires Control(s) && Jobs(s) && Kept(s) && Next(s, step, s') && TouchesResponse(step)
    ensures Kept(s')
  {
    match step {
      case WriteAndInstall(t, written) => InstallKeepsData(s, t, written, s');
      case HandOver(t) => DeliveryKeepsData(s, t, s');
      case ClearPending(t) => DeliveryKeepsData(s, t, s');
      case CheckAnswer(t) => CheckKeepsData(s, t, s');
      case ReadLine(line, woken) => RoutingKeepsData(s, line, woken, s');
    }
  }

  lemma DataKept(s: State, step: Step, s': State)
    requires Control(s) && Jobs(s) && Kept(s) && Next(s, step, s')
    ensures Kept(s')
  {
    if TouchesResponse(step) {
      TouchingKeepsData(s, step, s');
    } else {
      OthersKeepData(s, step, s');
    }
  }

  lemma InvKept(s: State, step: Step, s': State)
    requires Inv(s) && Next(s, step, s')
    ensures Inv(s')
  {
    ControlKept(s, step, s');
    JobsKept(s, step, s');
    WrittenKept(s, step, s');
    DataKept(s, step, s');
  }

  lemma InitInv(s: State)
    requires Init(s)
    ensures Inv(s)
  {
  }

  // ----- the results, over every run -----

  lemma {:induction false} RunInv(states: seq<State>, steps: seq<Step>, k: nat)
    requires IsRun(states, steps) && k <= |steps|
    ensures Inv(states[k])
  {
    if k == 0 {
      InitInv(states[0]);
    } else {
      RunInv(states, steps, k - 1);
      assert StepAt(states, steps, k - 1);
      InvKept(states[k - 1], steps[k - 1], states[k]);
    }
  }

  /** A response is pending only for the holder of requestmutex, which is between install and
      clean-up; whoever sleeps on requestcond will be woken, because the mutex is held by a thread
      that has its broadcast ahead of it; whoever sleeps on commandcond has neither a final result
      nor a closed reader to react to. Nobody is ever told AT_ERROR_COMMAND_PENDING, and no NULL
      response or prefix is followed. */
  lemma CommandChannelSafety(states: seq<State>, steps: seq<Step>, k: nat)
    requires IsRun(states, steps) && k <= |steps|
    ensures
      var s := states[k];
      && !s.nullFault
      && (s.ch.response.Some? ==> exists t :: 0 <= t < |s.pc| && s.requestOwner == Some(t) && (InLoop(s.pc[t]) || s.pc[t] == Cleanup))
      && (s.requestOwner == None ==> s.ch.response == None && s.ch.prefix == None && s.ch.pdu == None)
      && (forall t :: 0 <= t < |s.pc| && s.pc[t] == AsleepOnRequest ==>
            exists u :: 0 <= u < |s.pc| && u != t && s.requestOwner == Some(u) && HoldsRequest(s.pc[u]) && s.pc[u] != UnlockRequest)
      && (forall t :: 0 <= t < |s.pc| && s.pc[t] == AsleepOnCommand ==>
            s.requestOwner == Some(t) && s.ch.response.Some? && s.ch.response.value.final == None && !s.ch.readerClosed)
      && (forall t :: 0 <= t < |s.job| ==> s.job[t].err != CommandPending)
  {
    RunInv(states, steps, k);
  }

  /** A step that a command thread takes by itself: neither a new call nor the modem nor a wake-up. */
  predicate OwnStep(step: Step) {
    !step.Begin? && !step.ReadLine? && !step.CloseReader? && !step.WakeOnRequest? && !step.WakeOnCommand?
  }

  ghost predicate Progress(s: State) {
    exists step: Step, s': State :: OwnStep(step) && Next(s, step, s')
  }

  /** Some thread can take a step of its own, or the one that everybody waits for is itself waiting
      for the modem. */
  lemma NoDeadlock(states: seq<State>, steps: seq<Step>, k: nat, t: Tid)
    requires IsRun(states, steps) && k <= |steps|
    requires t < |states[k].pc| && states[k].pc[t] != Idle && states[k].pc[t] != Finished
    ensures
      || Progress(states[k])
      || (exists u :: 0 <= u < |states[k].pc| && states[k].pc[u] == AsleepOnCommand && states[k].requestOwner == Some(u)
            && states[k].ch.response.Some? && states[k].ch.response.value.final == None)
  {
    RunInv(states, steps, k);
    var s := states[k];
    if s.commandOwner.Some? {
      CanRun(s, s.commandOwner.value);
    } else if s.pc[t] == AsleepOnRequest {
      CanRun(s, s.requestOwner.value);
    } else {
      CanRun(s, t);
    }
  }

  lemma CanRun(s: State, t: Tid)
    requires Inv(s) && t < |s.pc| && s.pc[t] != Idle && s.pc[t] != Finished && s.pc[t] != AsleepOnRequest
    requires HoldsCommand(s.pc[t]) || s.commandOwner == None
    ensures
      || Progress(s)
      || (s.pc[t] == AsleepOnCommand && s.requestOwner == Some(t) && s.ch.response.Some? && s.ch.response.value.final == None)
  {
    if s.pc[t] != AsleepOnCommand {
      var step, s' := Move(s, t);
      assert Next(s, step, s');
    }
  }

  /** The step thread `t` takes when it is not asleep. */
  lemma Move(s: State, t: Tid) returns (step: Step, s': State)
    requires |s.pc| == |s.job| && t < |s.pc|
    requires s.pc[t] != Idle && s.pc[t] != Finished && s.pc[t] != AsleepOnRequest && s.pc[t] != AsleepOnCommand
    requires HoldsCommand(s.pc[t]) || s.commandOwner == None
    ensures OwnStep(step) && Next(s, step, s')
  {
    match s.pc[t] {
      case Enter => step, s' := Lock(t), Goto(s, t, TryRequest).(commandOwner := Some(t));
      case WokenOnRequest => step, s' := Lock(t), Goto(s, t, TryRequest).(commandOwner := Some(t));
      case TryRequest =>
        step := TakeRequest(t);
        s' := if s.requestOwner == None then GotoWith(s, t, CheckPending, s.job[t].(err := Ok)).(requestOwner := Some(t))
              else Goto(s, t, AsleepOnRequest).(commandOwner := None);
      case CheckPending =>
        step := CheckNotPending(t);
        s' := if s.ch.response.Some? then GotoWith(s, t, Cleanup, s.job[t].(err := CommandPending)) else Goto(s, t, Send);
      case Send => step, s' := WriteAndInstall(t, ChannelClosed), GotoWith(s, t, Cleanup, s.job[t].(err := ChannelClosed));
      case LoopTest =>
        step := TestLoop(t);
        s' := if s.ch.response == None then s.(nullFault := true)
              else if s.ch.response.value.final == None && !s.ch.readerClosed then Goto(s, t, AsleepOnCommand).(commandOwner := None)
              else Goto(s, t, Deliver);
      case WokenOnCommand(timedOut) =>
        step := Relock(t, timedOut);
        s' := if timedOut then GotoWith(s, t, Cleanup, s.job[t].(err := Timeout)).(commandOwner := Some(t))
              else Goto(s, t, LoopTest).(commandOwner := Some(t));
      case Deliver =>
        step := HandOver(t);
        if s.ch.response == None {
          s' := s.(nullFault := true);
        } else {
          var r, job := s.ch.response.value, s.job[t];
          var out := if job.call.wantOut then Some(Outcome(r.id, Reverse(r.rev), r.final, r.success)) else None;
          s' := GotoWith(s, t, Cleanup, job.(out := out, err := if s.ch.readerClosed then ChannelClosed else Ok,
                                             built := Some(r), lines := s.seen)).(
            ch := s.ch.(response := None),
            freed := if job.call.wantOut then s.freed else s.freed + multiset{r.id},
            handed := if job.call.wantOut then s.handed + multiset{r.id} else s.handed);
        }
      case Cleanup =>
        step := ClearPending(t);
        s' := Goto(s, t, Broadcast).(
          freed := if s.ch.response.Some? then s.freed + multiset{s.ch.response.value.id} else s.freed,
          ch := s.ch.(response := None, prefix := None, pdu := None));
      case Broadcast => step, s' := WakeRequesters(t), Goto(s.(pc := BroadcastTo(s.pc)), t, UnlockRequest);
      case UnlockRequest => step, s' := ReleaseRequest(t), Goto(s, t, Return).(requestOwner := None);
      case Return =>
        step := LeaveNoLock(t);
        var job := s.job[t];
        s' := if job.call.handshake && job.err != Ok && job.tries > 1
              then GotoWith(s, t, TryRequest, NewJob(job.call, job.tries - 1, job.err))
              else GotoWith(s, t, Wrapper, job.(alarmed := job.err == Timeout && !job.call.handshake)).(commandOwner := None);
      case Wrapper =>
        step := CheckAnswer(t);
        var job := s.job[t];
        s' := if LacksAnswer(job)
              then GotoWith(s, t, Finished, job.(err := InvalidResponse, out := None)).(
                     freed := s.freed + multiset{job.out.value.id}, handed := s.handed - multiset{job.out.value.id})
              else Goto(s, t, Finished);
    }
  }

  /** Every response object ever allocated is, at any moment, in exactly one place: still pending,
      freed once by the channel, or handed once to a caller. */
  lemma EveryResponseOnce(states: seq<State>, steps: seq<Step>, k: nat, id: nat)
    requires IsRun(states, steps) && k <= |steps|
    ensures
      var s := states[k];
      var pending := if s.ch.response.Some? && s.ch.response.value.id == id then 1 else 0;
      s.freed[id] + s.handed[id] + pending == if id < s.nextId then 1 else 0
  {
    RunInv(states, steps, k);
    assert Outstanding(states[k])[id] == Issued(states[k].nextId)[id];
  }

  /** What a returned call means. The caller has a response exactly if it asked for one, writeline took
      its command, and the status is 0 or CHANNEL_CLOSED: in the second case the reader closed while the
      call was waiting. The response is its own (nobody else's, not freed) and holds the answer to its own
      command, in the order sent, with the last final result and the matching success flag; a strict
      wrapper's successful answer is a single matching line. A handshake gives up only when its attempts
      are used up. */
  lemma CallResult(states: seq<State>, steps: seq<Step>, k: nat, t: Tid)
    requires IsRun(states, steps) && k <= |steps| && t < |states[k].pc| == |states[k].job| && states[k].pc[t] == Finished
    ensures
      var s, job := states[k], states[k].job[t];
      && (job.out.Some? <==> job.call.wantOut && job.written && (job.err == Ok || job.err == ChannelClosed))
      && (job.err == Ok ==> job.written)
      && (job.call.handshake && job.err != Ok ==> job.tries <= 1)
      && (job.out.Some? ==>
            var out, c := job.out.value, job.call.command;
            && s.handed[out.id] == 1 && s.freed[out.id] == 0
            && (forall u :: 0 <= u < |s.job| && u != t && s.job[u].out.Some? ==> s.job[u].out.value.id != out.id)
            && WellFormed(c)
            && out.intermediates == Answer(c, job.lines)
            && IsLastFinal(job.lines, out.final)
            && out.success == (if Succeeded(job.lines) then 1 else 0)
            && (job.err == Ok ==> out.final.Some? && IsFinal(out.final.value)
                                  && (out.success == 1 <==> IsFinalSuccess(out.final.value)))
            && (job.err == Ok && job.call.strict && out.success > 0 ==>
                  |out.intermediates| == 1 && Matches(c, out.intermediates[0])))
  {
    RunInv(states, steps, k);
    var s, job := states[k], states[k].job[t];
    assert JobOk(s.pc[t], job);
    if job.out.Some? {
      var out, c := job.out.value, job.call.command;
      EveryResponseOnce(states, steps, k, out.id);
      FeedMeaning(c, out.id, job.lines);
      AnswerShape(c, job.lines);
      if job.err == Ok {
        FinalIsClassified(job.lines, out.final);
      }
    }
  }
}
