/** Which tty a cached descriptor was opened on, the one that the tables named when its thread looked, which a
    scan may since have changed; and which descriptor a thread uses. */
module StaleDescriptors {
  import opened Wrappers
  import opened UsbState
  import opened UsbProtocol

  predicate IsGoodScan(step: Step) { step.Scan? && Good(step.r) && ValidScan(step.r) }

  /** Step `j` is where the thread of channel `c` found `tty` in the tables. */
  ghost predicate NamedAt(states: seq<State>, steps: seq<Step>, j: nat, k: nat, c: nat, tty: nat)
    requires |states| == |steps| + 1
  {
    && j < k <= |steps| && steps[j] == FindName(c) && c < CHANNELS && ValidScan(states[j].view.device)
    && states[j].view.state == Okay && TtyIn(states[j].view.device, c) == tty
  }

  ghost predicate WasNamed(states: seq<State>, steps: seq<Step>, k: nat, c: nat, tty: nat)
    requires |states| == |steps| + 1
  {
    exists j: nat :: NamedAt(states, steps, j, k, c, tty)
  }

  lemma NamedLater(states: seq<State>, steps: seq<Step>, k: nat, c: nat, tty: nat)
    requires |states| == |steps| + 1 && k < |steps| && WasNamed(states, steps, k, c, tty)
    ensures WasNamed(states, steps, k + 1, c, tty)
  {
    var j: nat :| NamedAt(states, steps, j, k, c, tty);
    assert NamedAt(states, steps, j, k + 1, c, tty);
  }

  /** What a thread is going to open, has opened or has cached was named to it by the tables. */
  ghost predicate HasNames(states: seq<State>, steps: seq<Step>, k: nat, c: nat)
    requires |states| == |steps| + 1 && k <= |steps| && c < CHANNELS
  {
    var s := states[k];
    && |s.pc| == |s.view.fds| == CHANNELS && |s.ttys| == |s.closes|
    && (s.pc[c].Named? ==> WasNamed(states, steps, k, c, s.pc[c].tty))
    && (s.pc[c].Opened? ==> s.pc[c].fd < |s.ttys| && WasNamed(states, steps, k, c, s.ttys[s.pc[c].fd]))
    && (s.view.fds[c].Some? ==> s.view.fds[c].value < |s.ttys| && WasNamed(states, steps, k, c, s.ttys[s.view.fds[c].value]))
  }

  /** Where the names in a channel come from in one step. */
  lemma NamesMove(s: State, step: Step, s': State, c: nat)
    requires Inv(s) && Inv(s') && Next(s, step, s') && c < CHANNELS
    ensures s.ttys <= s'.ttys
    ensures s'.pc[c].Named? ==> s'.pc[c] == s.pc[c] || (step == FindName(c) && s.view.state == Okay && s'.pc[c].tty == TtyIn(s.view.device, c))
    ensures s'.pc[c].Opened? ==> s'.pc[c].fd < |s'.ttys|
                                 && (s'.pc[c] == s.pc[c] || (s.pc[c].Named? && s'.ttys[s'.pc[c].fd] == s.pc[c].tty))
    ensures s'.view.fds[c].Some? ==> s'.view.fds[c].value < |s.ttys|
                                     && (s'.view.fds[c] == s.view.fds[c] || s.pc[c] == Opened(s'.view.fds[c].value))
  {
  }

  lemma NamesKept(states: seq<State>, steps: seq<Step>, k: nat, c: nat)
    requires |states| == |steps| + 1 && k < |steps| && c < CHANNELS
    requires Inv(states[k]) && Inv(states[k + 1]) && Next(states[k], steps[k], states[k + 1]) && HasNames(states, steps, k, c)
    ensures HasNames(states, steps, k + 1, c)
  {
    var s, s' := states[k], states[k + 1];
    NamesMove(s, steps[k], s', c);
    forall tty | WasNamed(states, steps, k, c, tty)
      ensures WasNamed(states, steps, k + 1, c, tty)
    {
      NamedLater(states, steps, k, c, tty);
    }
    if s'.pc[c].Named? && s'.pc[c] != s.pc[c] {
      assert NamedAt(states, steps, k, k + 1, c, s'.pc[c].tty);
    }
  }

  lemma {:induction false} NamesAreHistory(states: seq<State>, steps: seq<Step>, k: nat, c: nat)
    requires IsRun(states, steps) && k <= |steps| && c < CHANNELS
    ensures HasNames(states, steps, k, c)
  {
    RunInv(states, steps, k);
    if k > 0 {
      RunInv(states, steps, k - 1);
      NamesAreHistory(states, steps, k - 1, c);
      assert StepAt(states, steps, k - 1);
      NamesKept(states, steps, k - 1, c);
    }
  }

  /** The last good scan from `j` on and before `k`, if there is one. */
  ghost predicate IsLastGoodScan(steps: seq<Step>, j: nat, m: nat, k: nat) {
    j <= m < k <= |steps| && IsGoodScan(steps[m]) && forall i :: m < i < k ==> !IsGoodScan(steps[i])
  }

  lemma ScanUpdates(s: State, step: Step, s': State)
    requires Next(s, step, s')
    ensures s'.view.device == if IsGoodScan(step) then step.r else s.view.device
  {
  }

  /** The tables hold what the last good scan has found. */
  lemma {:induction false} TablesAreLastScan(states: seq<State>, steps: seq<Step>, j: nat, k: nat)
    requires IsRun(states, steps) && j <= k <= |steps|
    ensures (forall i :: j <= i < k ==> !IsGoodScan(steps[i])) ==> states[k].view.device == states[j].view.device
    ensures forall m: nat :: IsLastGoodScan(steps, j, m, k) ==> states[k].view.device == steps[m].r
  {
    if j < k {
      TablesAreLastScan(states, steps, j, k - 1);
      assert StepAt(states, steps, k - 1);
      ScanUpdates(states[k - 1], steps[k - 1], states[k]);
      forall m: nat | IsLastGoodScan(steps, j, m, k) && m < k - 1
        ensures states[k].view.device == steps[m].r
      {
        assert IsLastGoodScan(steps, j, m, k - 1);
      }
    }
  }

  /** The same for a channel. */
  lemma ChannelMatches(states: seq<State>, steps: seq<Step>, k: nat, c: nat) returns (j: nat)
    requires IsRun(states, steps) && k <= |steps| && c < CHANNELS
    requires |states[k].view.fds| == CHANNELS && states[k].view.fds[c].Some?
    ensures states[k].view.fds[c].value < |states[k].ttys| && ValidScan(states[k].view.device)
    ensures var tty := states[k].ttys[states[k].view.fds[c].value];
            && NamedAt(states, steps, j, k, c, tty)
            && (TtyIn(states[k].view.device, c) == tty <==> forall m: nat :: IsLastGoodScan(steps, j, m, k) ==> TtyIn(steps[m].r, c) == tty)
  {
    RunInv(states, steps, k);
    NamesAreHistory(states, steps, k, c);
    var tty := states[k].ttys[states[k].view.fds[c].value];
    j :| NamedAt(states, steps, j, k, c, tty);
    TablesAreLastScan(states, steps, j, k);
    if exists i :: j <= i < k && IsGoodScan(steps[i]) {
      LastOne(steps, j, k);
    }
  }

  /** The endpoint table for one direction. */
  function Table(r: ScanResult, read: bool): (t: seq<EndpointTty>) { if read then r.read else r.write }

  /** A cached descriptor of an endpoint was opened on the tty that its table names now exactly if the last good
      scan since its thread looked, if there was one, has found that tty for the endpoint again. */
  lemma MatchesExactly(states: seq<State>, steps: seq<Step>, k: nat, read: bool, endpoint: nat) returns (j: nat)
    requires IsRun(states, steps) && k <= |steps| && endpoint < 32
    requires |states[k].view.fds| == 64 && states[k].view.fds[if read then endpoint else 32 + endpoint].Some?
    ensures var c := if read then endpoint else 32 + endpoint;
            var fd := states[k].view.fds[c].value;
            && fd < |states[k].ttys| && ValidScan(states[k].view.device) && j < k && ValidScan(states[j].view.device)
            && steps[j] == FindName(c) && states[j].view.state == Okay
            && Table(states[j].view.device, read)[endpoint].ttynum == states[k].ttys[fd]
            && (Table(states[k].view.device, read)[endpoint].ttynum == states[k].ttys[fd] <==>
                  forall m: nat :: IsLastGoodScan(steps, j, m, k) ==> Table(steps[m].r, read)[endpoint].ttynum == states[k].ttys[fd])
  {
    var c := if read then endpoint else 32 + endpoint;
    j := ChannelMatches(states, steps, k, c);
    InTables(states[k].view.device, read, endpoint);
    InTables(states[j].view.device, read, endpoint);
    forall m: nat | IsLastGoodScan(steps, j, m, k)
      ensures TtyIn(steps[m].r, c) == Table(steps[m].r, read)[endpoint].ttynum
    {
      InTables(steps[m].r, read, endpoint);
    }
  }

  lemma InTables(r: ScanResult, read: bool, endpoint: nat)
    requires ValidScan(r) && endpoint < 32
    ensures TtyIn(r, if read then endpoint else 32 + endpoint) == Table(r, read)[endpoint].ttynum
  {
  }

  lemma OpensKnownTtys(s: State, step: Step, s': State)
    requires Next(s, step, s') && (forall fd :: 0 <= fd < |s.ttys| ==> s.ttys[fd] < 1024)
    requires forall c :: 0 <= c < |s.pc| && s.pc[c].Named? ==> s.pc[c].tty < 1024
    ensures forall fd :: 0 <= fd < |s'.ttys| ==> s'.ttys[fd] < 1024
    ensures forall c :: 0 <= c < |s'.pc| && s'.pc[c].Named? ==> s'.pc[c].tty < 1024
  {
  }

  /** No descriptor is ever opened for an endpoint without a tty. */
  lemma {:induction false} OnlyTtysAreOpened(states: seq<State>, steps: seq<Step>, k: nat)
    requires IsRun(states, steps) && k <= |steps|
    ensures forall fd :: 0 <= fd < |states[k].ttys| ==> states[k].ttys[fd] < 1024
    ensures forall c :: 0 <= c < |states[k].pc| && states[k].pc[c].Named? ==> states[k].pc[c].tty < 1024
  {
    if k > 0 {
      OnlyTtysAreOpened(states, steps, k - 1);
      assert StepAt(states, steps, k - 1);
      OpensKnownTtys(states[k - 1], steps[k - 1], states[k]);
    }
  }

  // ----- what a thread uses -----

  predicate OfChannel(step: Step, c: nat) { !step.Scan? && step.c == c }

  /** The last step of the channel before `k`. */
  ghost predicate LastOf(steps: seq<Step>, j: nat, k: nat, c: nat) {
    j < k <= |steps| && OfChannel(steps[j], c) && forall m :: j < m < k ==> !OfChannel(steps[m], c)
  }

  /** What a step of somebody else, or a scan, does to a channel: an error empties its slot. */
  lemma OthersStep(s: State, step: Step, s': State, c: nat)
    requires Next(s, step, s') && !OfChannel(step, c) && c < |s.pc| && c < |s.view.fds| == CHANNELS && |s'.pc| == |s.pc|
    ensures s'.pc[c] == s.pc[c] && c < |s'.view.fds| && (!IsError(step) ==> s'.view.fds[c] == s.view.fds[c])
  {
  }

  lemma BecomesUser(s: State, step: Step, s': State, c: nat)
    requires Next(s, step, s') && OfChannel(step, c) && c < |s.pc| == |s.view.fds| == CHANNELS && |s'.pc| == CHANNELS && s'.pc[c].Using?
    ensures step == LookAtSlot(c) || step == StoreFd(c)
    ensures |s'.view.fds| == CHANNELS && s'.view.fds[c] == Some(s'.pc[c].fd)
  {
  }

  lemma Sizes(states: seq<State>, steps: seq<Step>, k: nat)
    requires IsRun(states, steps) && k <= |steps|
    ensures |states[k].pc| == |states[k].view.fds| == CHANNELS
    ensures k == 0 ==> forall c :: 0 <= c < CHANNELS ==> states[k].pc[c] == Idle
  {
    RunInv(states, steps, k);
  }

  /** A descriptor that a thread reads or writes was in its own slot when the thread last looked or stored it
      there, and it is still there unless an error has occurred since. */
  lemma {:induction false} UsesItsOwn(states: seq<State>, steps: seq<Step>, k: nat, c: nat) returns (j: nat)
    requires IsRun(states, steps) && k <= |steps| && c < CHANNELS && |states[k].pc| == CHANNELS && states[k].pc[c].Using?
    ensures LastOf(steps, j, k, c) && (steps[j] == LookAtSlot(c) || steps[j] == StoreFd(c))
    ensures |states[j + 1].view.fds| == CHANNELS == |states[k].view.fds| && states[j + 1].view.fds[c] == Some(states[k].pc[c].fd)
    ensures (forall m :: j < m < k ==> !IsError(steps[m])) ==> states[k].view.fds[c] == Some(states[k].pc[c].fd)
  {
    Sizes(states, steps, k);
    assert k > 0;
    Sizes(states, steps, k - 1);
    assert StepAt(states, steps, k - 1);
    if OfChannel(steps[k - 1], c) {
      BecomesUser(states[k - 1], steps[k - 1], states[k], c);
      j := k - 1;
    } else {
      OthersStep(states[k - 1], steps[k - 1], states[k], c);
      j := UsesItsOwn(states, steps, k - 1, c);
    }
  }

  /** A thread is on its way to a transfer only because it has seen the modem working, and has not been idle
      since. */
  lemma {:induction false} StartsWhileWorking(states: seq<State>, steps: seq<Step>, k: nat, c: nat) returns (j: nat)
    requires IsRun(states, steps) && k <= |steps| && c < CHANNELS && |states[k].pc| == CHANNELS && states[k].pc[c] != Idle
    ensures j < k && steps[j] == LookAtState(c) && states[j].view.state == Okay
    ensures forall m :: j < m <= k ==> |states[m].pc| == CHANNELS && states[m].pc[c] != Idle
  {
    Sizes(states, steps, k);
    assert k > 0;
    Sizes(states, steps, k - 1);
    assert StepAt(states, steps, k - 1);
    if states[k - 1].pc[c] == Idle {
      LeavesIdle(states[k - 1], steps[k - 1], states[k], c);
      j := k - 1;
    } else {
      j := StartsWhileWorking(states, steps, k - 1, c);
    }
  }

  lemma LeavesIdle(s: State, step: Step, s': State, c: nat)
    requires Next(s, step, s') && c < |s.pc| == |s'.pc| && s.pc[c] == Idle && s'.pc[c] != Idle
    ensures step == LookAtState(c) && s.view.state == Okay
  {
  }

  lemma {:induction false} LastOne(steps: seq<Step>, j: nat, k: nat)
    requires j <= k <= |steps| && exists i :: j <= i < k && IsGoodScan(steps[i])
    ensures exists m: nat :: IsLastGoodScan(steps, j, m, k)
  {
    if IsGoodScan(steps[k - 1]) {
      assert IsLastGoodScan(steps, j, k - 1, k);
    } else {
      LastOne(steps, j, k - 1);
      var m: nat :| IsLastGoodScan(steps, j, m, k - 1);
      assert IsLastGoodScan(steps, j, m, k);
    }
  }

  // ----- a scan that leaves a stale descriptor -----

  /** All endpoints on one tty. */
  function Found(tty: nat): (r: ScanResult)
    ensures ValidScan(r) && Good(r) && TtyIn(r, 0) == tty
  {
    var table := seq(SWI_OS_MAXENDPOINTS, _ => EndpointTty(tty, 0));
    ScanResult(1, 1, table, table)
  }

  function Places(pc: Pc): seq<Pc> { seq(CHANNELS, c => if c == 0 then pc else Idle) }

  function Slots(fd: Option<nat>): seq<Option<nat>> { seq(CHANNELS, c => if c == 0 then fd else None) }

  /** The modem, where the thread of the first channel is, and what is in its slot. */
  function Modem(state: ModemState, device: ScanResult, pc: Pc, fd: Option<nat>, count: nat, last: Option<ScanResult>): State {
    State(View(state, device, Slots(fd)), Places(pc), seq(count, _ => 0), seq(count, _ => 7), last)
  }

  ghost predicate LeadsTo(s: State) { exists states, steps :: IsRun(states, steps) && states[|steps|] == s }

  lemma OneStep(s: State, step: Step, s': State)
    requires LeadsTo(s) && Next(s, step, s')
    ensures LeadsTo(s')
  {
    var states, steps :| IsRun(states, steps) && states[|steps|] == s;
    var all, more := states + [s'], steps + [step];
    forall k | 0 <= k < |more|
      ensures StepAt(all, more, k)
    {
      if k < |steps| {
        assert StepAt(states, steps, k);
      }
    }
    assert all[|more|] == s';
  }

  lemma Starts()
    ensures LeadsTo(Modem(Bad, NoDevice(), Idle, None, 0, None))
  {
    var s := Modem(Bad, NoDevice(), Idle, None, 0, None);
    var none: seq<Step> := [];
    assert Slots(None) == NoFds() && Places(Idle) == seq(CHANNELS, _ => Idle);
    assert IsRun([s], none) && [s][|none|] == s;
  }

  lemma Works()
    ensures LeadsTo(Modem(Okay, Found(7), Idle, None, 0, Some(Found(7))))
  {
    Starts();
    OneStep(Modem(Bad, NoDevice(), Idle, None, 0, None), Scan(Found(7)), Modem(Check, Found(7), Idle, None, 0, Some(Found(7))));
    OneStep(Modem(Check, Found(7), Idle, None, 0, Some(Found(7))), Scan(Found(7)), Modem(Okay, Found(7), Idle, None, 0, Some(Found(7))));
  }

  lemma Moves(pc: Pc, next: Pc)
    ensures Places(pc)[0] == pc && Places(pc)[0 := next] == Places(next)
  {
  }

  lemma Names()
    ensures LeadsTo(Modem(Okay, Found(7), Named(7), None, 0, Some(Found(7))))
  {
    Works();
    Moves(Idle, Checked);
    OneStep(Modem(Okay, Found(7), Idle, None, 0, Some(Found(7))), LookAtState(0), Modem(Okay, Found(7), Checked, None, 0, Some(Found(7))));
    Moves(Checked, NeedOpen);
    OneStep(Modem(Okay, Found(7), Checked, None, 0, Some(Found(7))), LookAtSlot(0), Modem(Okay, Found(7), NeedOpen, None, 0, Some(Found(7))));
    Moves(NeedOpen, Named(7));
    OneStep(Modem(Okay, Found(7), NeedOpen, None, 0, Some(Found(7))), FindName(0), Modem(Okay, Found(7), Named(7), None, 0, Some(Found(7))));
  }

  lemma Stores()
    ensures LeadsTo(Modem(Okay, Found(7), Using(0), Some(0), 1, Some(Found(7))))
  {
    Names();
    var named, held := Modem(Okay, Found(7), Named(7), None, 0, Some(Found(7))), Modem(Okay, Found(7), Opened(0), None, 1, Some(Found(7)));
    Moves(Named(7), Opened(0));
    assert held.closes == [] + [0] && held.ttys == [] + [7];
    OneStep(named, Open(0), held);
    Moves(Opened(0), Using(0));
    assert Slots(None)[0 := Some(0)] == Slots(Some(0));
    OneStep(held, StoreFd(0), Modem(Okay, Found(7), Using(0), Some(0), 1, Some(Found(7))));
  }

  /** The modem is working and a descriptor is cached that was opened on ttyUSB7; a scan finds the endpoint on
      ttyUSB8, the state stays as it is, and so does the descriptor. */
  lemma ScanLeavesStale() returns (states: seq<State>, steps: seq<Step>)
    ensures IsRun(states, steps)
    ensures var s := states[|steps|];
            && s.view.state == Okay && |s.view.fds| == CHANNELS && s.view.fds[0] == Some(0) && s.ttys == [7]
            && s.view.device == Found(8) && TtyIn(s.view.device, 0) == 8
  {
    Stores();
    var s := Modem(Okay, Found(8), Using(0), Some(0), 1, Some(Found(8)));
    OneStep(Modem(Okay, Found(7), Using(0), Some(0), 1, Some(Found(7))), Scan(Found(8)), s);
    states, steps :| IsRun(states, steps) && states[|steps|] == s;
    assert s.ttys == [7];
  }
}
