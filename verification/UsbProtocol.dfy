/** The periodic scanner and one reader or writer thread per endpoint and direction, sharing the USB
    structure. Lock-free looks at the structure are steps of their own. */
module UsbProtocol {
  import opened Wrappers
  import opened UsbState

  /** Where the thread of a channel is; `Named` holds the tty it is going to open, `Opened` a descriptor that
      nobody else knows yet. */
  datatype Pc = Idle | Checked | NeedOpen | Named(tty: nat) | Opened(fd: nat) | Using(fd: nat)

  /** Channels are numbered as the descriptor slots are. Descriptors are numbered by open() call;
      `closes` counts the close() calls for each. `ttys` and `lastScan` are history: the tty that each
      descriptor was opened on, and the most recent scan, if it was good and no error has happened since. */
  datatype State = State(view: View, pc: seq<Pc>, closes: seq<nat>, ttys: seq<nat>, lastScan: Option<ScanResult>)

  datatype Step =
    | Scan(r: ScanResult)
    | LookAtState(c: nat)
    | LookAtSlot(c: nat)
    | FindName(c: nat)
    | NameFails(c: nat)
    | OpenFails(c: nat)
    | Open(c: nat)
    | StoreFd(c: nat)
    | Transfer(c: nat)
    | TransferFails(c: nat)

  const CHANNELS: nat := 2 * SWI_OS_MAXENDPOINTS

  predicate At(s: State, c: nat, pc: Pc) { c < |s.pc| && s.pc[c] == pc }

  function Goto(s: State, c: nat, pc: Pc): State
    requires c < |s.pc|
  {
    s.(pc := s.pc[c := pc])
  }

  /** The tty of a channel according to the tables. */
  function TtyIn(r: ScanResult, c: nat): nat
    requires c < CHANNELS && ValidScan(r)
  {
    if c < SWI_OS_MAXENDPOINTS then r.read[c].ttynum else r.write[c - SWI_OS_MAXENDPOINTS].ttynum
  }

  /** Error recovery under the mutex: every cached descriptor gets its close() calls. */
  function Recovered(s: State): State {
    s.(view := Dropped(s.view), lastScan := None,
       closes := seq(|s.closes|, fd requires 0 <= fd < |s.closes| => s.closes[fd] + Count(s.view.fds, Some(fd))))
  }

  predicate Next(s: State, step: Step, s': State) {
    match step
    case Scan(r) =>
      && ValidScan(r)
      && s' == if Good(r) then s.(view := Scanned(s.view, r), lastScan := Some(r)) else Recovered(s)
    case LookAtState(c) => At(s, c, Idle) && s' == if s.view.state == Okay then Goto(s, c, Checked) else s
    case LookAtSlot(c) =>
      && At(s, c, Checked) && c < |s.view.fds|
      && s' == Goto(s, c, if s.view.fds[c].Some? then Using(s.view.fds[c].value) else NeedOpen)
    case FindName(c) =>
      && At(s, c, NeedOpen) && c < CHANNELS && ValidScan(s.view.device)
      && s' == Goto(s, c, if s.view.state == Okay && TtyIn(s.view.device, c) < SWI_OS_MAXUSBTTYS then Named(TtyIn(s.view.device, c)) else Idle)
    case NameFails(c) => c < |s.pc| && s.pc[c].Named? && s' == Recovered(Goto(s, c, Idle))
    case OpenFails(c) => c < |s.pc| && s.pc[c].Named? && s' == Recovered(Goto(s, c, Idle))
    case Open(c) =>
      && c < |s.pc| && s.pc[c].Named?
      && s' == Goto(s, c, Opened(|s.closes|)).(closes := s.closes + [0], ttys := s.ttys + [s.pc[c].tty])
    case StoreFd(c) =>
      && c < |s.pc| && c < |s.view.fds| && s.pc[c].Opened? && s.pc[c].fd < |s.closes|
      && var fd := s.pc[c].fd;
         s' == if s.view.state == Okay then Goto(s, c, Using(fd)).(view := s.view.(fds := s.view.fds[c := Some(fd)]))
               else Goto(s, c, Idle).(closes := s.closes[fd := s.closes[fd] + 1])
    case Transfer(c) => c < |s.pc| && s.pc[c].Using? && s' == Goto(s, c, Idle)
    case TransferFails(c) => c < |s.pc| && s.pc[c].Using? && s' == Recovered(Goto(s, c, Idle))
  }

  predicate Init(s: State) {
    s == State(View(Bad, NoDevice(), NoFds()), seq(CHANNELS, _ => Idle), [], [], None)
  }

  ghost predicate IsRun(states: seq<State>, steps: seq<Step>) {
    && |states| == |steps| + 1 && Init(states[0])
    && forall k :: 0 <= k < |steps| ==> StepAt(states, steps, k)
  }

  ghost predicate StepAt(states: seq<State>, steps: seq<Step>, k: nat)
    requires k < |steps| < |states|
  {
    Next(states[k], steps[k], states[k + 1])
  }

  // ----- the invariant -----

  /** A cached descriptor implies a working modem, and the state remembers the last good scan. */
  ghost predicate Debounced(s: State) {
    && |s.view.fds| == CHANNELS == |s.pc| && ValidScan(s.view.device)
    && (forall c :: 0 <= c < CHANNELS && s.view.fds[c].Some? ==> s.view.state == Okay)
    && s.lastScan == if s.view.state == Bad then None else Some(s.view.device)
  }

  /** Only the thread of a channel fills its slot, so between its look and its store the slot is free. */
  ghost predicate SlotsFree(s: State) {
    && |s.view.fds| == CHANNELS == |s.pc|
    && forall c :: 0 <= c < CHANNELS && (s.pc[c].NeedOpen? || s.pc[c].Named? || s.pc[c].Opened?) ==> s.view.fds[c] == None
  }

  ghost predicate Accounts(s: State) {
    && |s.ttys| == |s.closes|
    && (forall fd :: 0 <= fd < |s.closes| ==> s.closes[fd] + Count(s.view.fds, Some(fd)) + Count(s.pc, Opened(fd)) == 1)
    && (forall c :: 0 <= c < |s.pc| && s.pc[c].Opened? ==> s.pc[c].fd < |s.closes|)
    && (forall c :: 0 <= c < |s.view.fds| && s.view.fds[c].Some? ==> s.view.fds[c].value < |s.closes|)
  }

  ghost predicate Inv(s: State) { Debounced(s) && SlotsFree(s) && Accounts(s) }

  lemma {:induction false} CountUpdate<T>(s: seq<T>, i: nat, y: T, x: T)
    requires i < |s|
    ensures Count(s[i := y], x) == Count(s, x) - (if s[i] == x then 1 else 0) + (if y == x then 1 else 0)
  {
    var n := |s| - 1;
    if i < n {
      CountUpdate(s[..n], i, y, x);
      assert s[i := y][..n] == s[..n][i := y];
    } else {
      assert s[i := y][..n] == s[..n];
    }
  }

  lemma {:induction false} CountAbsent<T>(s: seq<T>, x: T)
    requires forall i :: 0 <= i < |s| ==> s[i] != x
    ensures Count(s, x) == 0
  {
    if s != [] {
      CountAbsent(s[..|s| - 1], x);
    }
  }

  lemma RecoveryKeeps(s: State)
    requires Inv(s)
    ensures Inv(Recovered(s))
  {
    forall fd | 0 <= fd < |s.closes|
      ensures Count(NoFds(), Some(fd)) == 0
    {
      CountAbsent(NoFds(), Some(fd));
    }
  }

  /** A thread moves between places where it holds no fresh descriptor. */
  lemma MoveKeeps(s: State, c: nat, pc: Pc)
    requires Inv(s) && c < CHANNELS && !s.pc[c].Opened? && !pc.Opened?
    requires pc.NeedOpen? || pc.Named? ==> s.view.fds[c] == None
    ensures Inv(Goto(s, c, pc))
  {
    forall fd: nat
      ensures Count(Goto(s, c, pc).pc, Opened(fd)) == Count(s.pc, Opened(fd))
    {
      CountUpdate(s.pc, c, pc, Opened(fd));
    }
  }

  lemma OpenKeeps(s: State, c: nat)
    requires Inv(s) && c < |s.pc| && s.pc[c].Named?
    ensures Inv(Goto(s, c, Opened(|s.closes|)).(closes := s.closes + [0], ttys := s.ttys + [s.pc[c].tty]))
  {
    var n := |s.closes|;
    forall fd: nat
      ensures Count(s.pc[c := Opened(n)], Opened(fd)) == Count(s.pc, Opened(fd)) + if fd == n then 1 else 0
    {
      CountUpdate(s.pc, c, Opened(n), Opened(fd));
    }
    CountAbsent(s.pc, Opened(n));
    CountAbsent(s.view.fds, Some(n));
  }

  lemma StoreKeeps(s: State, c: nat, s': State)
    requires Inv(s) && Next(s, StoreFd(c), s')
    ensures Inv(s')
  {
    var mine := s.pc[c].fd;
    forall fd: nat
      ensures Count(s'.pc, Opened(fd)) == Count(s.pc, Opened(fd)) - if fd == mine then 1 else 0
    {
      CountUpdate(s.pc, c, s'.pc[c], Opened(fd));
    }
    forall fd: nat
      ensures Count(s.view.fds[c := Some(mine)], Some(fd)) == Count(s.view.fds, Some(fd)) + if fd == mine then 1 else 0
    {
      CountUpdate(s.view.fds, c, Some(mine), Some(fd));
    }
  }

  lemma InvKept(s: State, step: Step, s': State)
    requires Inv(s) && Next(s, step, s')
    ensures Inv(s')
  {
    match step
    case Scan(r) => if !Good(r) { RecoveryKeeps(s); }
    case LookAtState(c) => MoveKeeps(s, c, Checked);
    case LookAtSlot(c) => MoveKeeps(s, c, s'.pc[c]);
    case FindName(c) => MoveKeeps(s, c, s'.pc[c]);
    case NameFails(c) => MoveKeeps(s, c, Idle); RecoveryKeeps(Goto(s, c, Idle));
    case OpenFails(c) => MoveKeeps(s, c, Idle); RecoveryKeeps(Goto(s, c, Idle));
    case Open(c) => OpenKeeps(s, c);
    case StoreFd(c) => StoreKeeps(s, c, s');
    case Transfer(c) => MoveKeeps(s, c, Idle);
    case TransferFails(c) => MoveKeeps(s, c, Idle); RecoveryKeeps(Goto(s, c, Idle));
  }

  lemma {:induction false} RunInv(states: seq<State>, steps: seq<Step>, k: nat)
    requires IsRun(states, steps) && k <= |steps|
    ensures Inv(states[k])
  {
    if k > 0 {
      RunInv(states, steps, k - 1);
      assert StepAt(states, steps, k - 1);
      InvKept(states[k - 1], steps[k - 1], states[k]);
    }
  }

  // ----- the results -----

  /** A cached descriptor implies that the modem is considered working. */
  lemma CachedMeansWorking(states: seq<State>, steps: seq<Step>, k: nat, c: nat)
    requires IsRun(states, steps) && k <= |steps| && c < CHANNELS
    ensures |states[k].view.fds| == CHANNELS && (states[k].view.fds[c].Some? ==> states[k].view.state == Okay)
  {
    RunInv(states, steps, k);
  }

  /** Every descriptor ever opened is, at any moment, in exactly one place: with the thread that
      opened it, in one slot, or closed, and then closed once. */
  lemma EveryDescriptorOnce(states: seq<State>, steps: seq<Step>, k: nat, fd: nat)
    requires IsRun(states, steps) && k <= |steps| && fd < |states[k].closes|
    ensures states[k].closes[fd] + Count(states[k].view.fds, Some(fd)) + Count(states[k].pc, Opened(fd)) == 1
  {
    RunInv(states, steps, k);
  }

  predicate IsError(step: Step) {
    step.NameFails? || step.OpenFails? || step.TransferFails? || (step.Scan? && (step.r.vendorid == 0 || step.r.productid == 0))
  }

  /** `steps[j]` is a good scan that found `r`, and up to step `k` there is neither another scan nor
      an error. */
  ghost predicate LastScanWas(steps: seq<Step>, j: nat, k: nat, r: ScanResult) {
    && j < k <= |steps| && steps[j] == Scan(r) && r.vendorid != 0 && r.productid != 0
    && forall m :: j < m < k ==> !steps[m].Scan? && !IsError(steps[m])
  }

  lemma ScanStays(s: State, step: Step, s': State)
    requires Next(s, step, s')
    ensures s'.lastScan == if IsError(step) then None else if step.Scan? then Some(step.r) else s.lastScan
  {
  }

  lemma {:induction false} LastScanIsHistory(states: seq<State>, steps: seq<Step>, k: nat)
    requires IsRun(states, steps) && k <= |steps| && states[k].lastScan.Some?
    ensures exists j :: LastScanWas(steps, j, k, states[k].lastScan.value)
  {
    if k > 0 {
      var r := states[k].lastScan.value;
      assert StepAt(states, steps, k - 1);
      ScanStays(states[k - 1], steps[k - 1], states[k]);
      if steps[k - 1].Scan? {
        assert LastScanWas(steps, k - 1, k, r);
      } else {
        LastScanIsHistory(states, steps, k - 1);
        var j :| LastScanWas(steps, j, k - 1, r);
        assert LastScanWas(steps, j, k, r);
      }
    }
  }

  lemma {:induction false} HistoryIsLastScan(states: seq<State>, steps: seq<Step>, j: nat, k: nat, r: ScanResult)
    requires IsRun(states, steps) && LastScanWas(steps, j, k, r)
    ensures states[k].lastScan == Some(r)
  {
    assert StepAt(states, steps, k - 1);
    ScanStays(states[k - 1], steps[k - 1], states[k]);
    if j < k - 1 {
      assert LastScanWas(steps, j, k - 1, r);
      HistoryIsLastScan(states, steps, j, k - 1, r);
    }
  }

  lemma BecomesWorking(s: State, step: Step, s': State)
    requires Debounced(s) && Next(s, step, s') && s.view.state != Okay
    ensures s'.view.state == Okay <==> step.Scan? && !IsError(step) && s.lastScan == Some(step.r)
  {
  }

  /** The modem is declared working exactly by a scan that found the same as the scan before it, both
      of them good, with no error in between. */
  lemma WorkingNeedsTwoEqualScans(states: seq<State>, steps: seq<Step>, k: nat)
    requires IsRun(states, steps) && k < |steps| && states[k].view.state != Okay
    ensures states[k + 1].view.state == Okay <==> steps[k].Scan? && exists j :: LastScanWas(steps, j, k, steps[k].r)
  {
    RunInv(states, steps, k);
    assert StepAt(states, steps, k);
    BecomesWorking(states[k], steps[k], states[k + 1]);
    if states[k + 1].view.state == Okay {
      LastScanIsHistory(states, steps, k);
    }
    if steps[k].Scan? && exists j :: LastScanWas(steps, j, k, steps[k].r) {
      var j :| LastScanWas(steps, j, k, steps[k].r);
      HistoryIsLastScan(states, steps, j, k, steps[k].r);
    }
  }
}
