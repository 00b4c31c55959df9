/** A call that fails and still hands out a response, as a run of the AT channel. */
module AtClosedCall {
  import opened Wrappers
  import opened AtResponse
  import opened AtDispatch
  import opened AtProtocol

  lemma RunGrows(states: seq<State>, steps: seq<Step>, step: Step, s': State)
    requires IsRun(states, steps) && Next(states[|steps|], step, s')
    ensures IsRun(states + [s'], steps + [step])
  {
    var all, more := states + [s'], steps + [step];
    forall k | 0 <= k < |more|
      ensures StepAt(all, more, k)
    {
      if k < |steps| {
        assert StepAt(states, steps, k);
      }
    }
  }

  /** A system of one thread. */
  function Alone(pc: Pc, job: Job, ch: Channel, command: Option<Tid>, request: Option<Tid>, nextId: nat, handed: multiset<nat>): State {
    State(ch, command, request, [pc], [job], nextId, multiset{}, handed, [], false)
  }

  const SIMPLE := Command(NoResult, None, None)
  const CALL := Call(SIMPLE, false, true, false, false)

  /** Nothing has come from the modem yet. */
  function Silent(response: bool, closed: bool): Channel {
    Channel(if response then Some(Response(0, [], None, 0)) else None, NoResult, None, None, closed)
  }

  ghost predicate LeadsTo(s: State) { exists states, steps :: IsRun(states, steps) && states[|steps|] == s }

  lemma OneStep(s: State, step: Step, s': State)
    requires LeadsTo(s) && Next(s, step, s')
    ensures LeadsTo(s')
  {
    var states, steps :| IsRun(states, steps) && states[|steps|] == s;
    RunGrows(states, steps, step, s');
    assert (states + [s'])[|steps + [step]|] == s';
  }

  const NEW := NewJob(CALL, 1, Ok)
  const WAITING := NEW.(written := true)
  const GIVEN := WAITING.(out := Some(Outcome(0, [], None, 0)), err := ChannelClosed, built := Some(Response(0, [], None, 0)))

  lemma Called()
    ensures LeadsTo(Alone(Enter, NEW, Silent(false, false), None, None, 0, multiset{}))
  {
    var none: seq<Step> := [];
    var s0 := Alone(Idle, NEW, Silent(false, false), None, None, 0, multiset{});
    assert IsRun([s0], none) && [s0][|none|] == s0;
    OneStep(Alone(Idle, NEW, Silent(false, false), None, None, 0, multiset{}), Begin(0, CALL),
            Alone(Enter, NEW, Silent(false, false), None, None, 0, multiset{}));
  }

  lemma Begun()
    ensures LeadsTo(Alone(TryRequest, NEW, Silent(false, false), Some(0), None, 0, multiset{}))
  {
    Called();
    OneStep(Alone(Enter, NEW, Silent(false, false), None, None, 0, multiset{}), Lock(0),
            Alone(TryRequest, NEW, Silent(false, false), Some(0), None, 0, multiset{}));
  }

  lemma Admitted()
    ensures LeadsTo(Alone(Send, NEW, Silent(false, false), Some(0), Some(0), 0, multiset{}))
  {
    Begun();
    OneStep(Alone(TryRequest, NEW, Silent(false, false), Some(0), None, 0, multiset{}), TakeRequest(0),
            Alone(CheckPending, NEW, Silent(false, false), Some(0), Some(0), 0, multiset{}));
    OneStep(Alone(CheckPending, NEW, Silent(false, false), Some(0), Some(0), 0, multiset{}), CheckNotPending(0),
            Alone(Send, NEW, Silent(false, false), Some(0), Some(0), 0, multiset{}));
  }

  lemma Asleep()
    ensures LeadsTo(Alone(AsleepOnCommand, WAITING, Silent(true, false), None, Some(0), 1, multiset{}))
  {
    Admitted();
    OneStep(Alone(Send, NEW, Silent(false, false), Some(0), Some(0), 0, multiset{}), WriteAndInstall(0, Ok),
            Alone(LoopTest, WAITING, Silent(true, false), Some(0), Some(0), 1, multiset{}));
    OneStep(Alone(LoopTest, WAITING, Silent(true, false), Some(0), Some(0), 1, multiset{}), TestLoop(0),
            Alone(AsleepOnCommand, WAITING, Silent(true, false), None, Some(0), 1, multiset{}));
  }

  lemma Woken()
    ensures LeadsTo(Alone(LoopTest, WAITING, Silent(true, true), Some(0), Some(0), 1, multiset{}))
  {
    Asleep();
    OneStep(Alone(AsleepOnCommand, WAITING, Silent(true, false), None, Some(0), 1, multiset{}), CloseReader(Some(0)),
            Alone(WokenOnCommand(false), WAITING, Silent(true, true), None, Some(0), 1, multiset{}));
    OneStep(Alone(WokenOnCommand(false), WAITING, Silent(true, true), None, Some(0), 1, multiset{}), Relock(0, false),
            Alone(LoopTest, WAITING, Silent(true, true), Some(0), Some(0), 1, multiset{}));
  }

  lemma Built()
    ensures LeadsTo(Alone(Pc.Deliver, WAITING, Silent(true, true), Some(0), Some(0), 1, multiset{}))
  {
    Woken();
    OneStep(Alone(LoopTest, WAITING, Silent(true, true), Some(0), Some(0), 1, multiset{}), TestLoop(0),
            Alone(Pc.Deliver, WAITING, Silent(true, true), Some(0), Some(0), 1, multiset{}));
  }

  lemma Delivered()
    ensures LeadsTo(Alone(Cleanup, GIVEN, Silent(false, true), Some(0), Some(0), 1, multiset{0}))
  {
    Built();
    assert multiset{} + multiset{0} == multiset{0};
    assert Reverse<string>([]) == [];
    OneStep(Alone(Pc.Deliver, WAITING, Silent(true, true), Some(0), Some(0), 1, multiset{}), HandOver(0),
            Alone(Cleanup, GIVEN, Silent(false, true), Some(0), Some(0), 1, multiset{0}));
  }

  lemma Cleared()
    ensures LeadsTo(Alone(Broadcast, GIVEN, Silent(false, true), Some(0), Some(0), 1, multiset{0}))
  {
    Delivered();
    OneStep(Alone(Cleanup, GIVEN, Silent(false, true), Some(0), Some(0), 1, multiset{0}), ClearPending(0),
            Alone(Broadcast, GIVEN, Silent(false, true), Some(0), Some(0), 1, multiset{0}));
  }

  lemma CleanedUp()
    ensures LeadsTo(Alone(UnlockRequest, GIVEN, Silent(false, true), Some(0), Some(0), 1, multiset{0}))
  {
    Cleared();
    OneStep(Alone(Broadcast, GIVEN, Silent(false, true), Some(0), Some(0), 1, multiset{0}), WakeRequesters(0),
            Alone(UnlockRequest, GIVEN, Silent(false, true), Some(0), Some(0), 1, multiset{0}));
  }

  lemma Unlocked()
    ensures LeadsTo(Alone(Return, GIVEN, Silent(false, true), Some(0), None, 1, multiset{0}))
  {
    CleanedUp();
    OneStep(Alone(UnlockRequest, GIVEN, Silent(false, true), Some(0), Some(0), 1, multiset{0}), ReleaseRequest(0),
            Alone(Return, GIVEN, Silent(false, true), Some(0), None, 1, multiset{0}));
  }

  lemma Released()
    ensures LeadsTo(Alone(Wrapper, GIVEN, Silent(false, true), None, None, 1, multiset{0}))
  {
    Unlocked();
    OneStep(Alone(Return, GIVEN, Silent(false, true), Some(0), None, 1, multiset{0}), LeaveNoLock(0),
            Alone(Wrapper, GIVEN, Silent(false, true), None, None, 1, multiset{0}));
  }

  lemma Returned()
    ensures LeadsTo(Alone(Finished, GIVEN, Silent(false, true), None, None, 1, multiset{0}))
  {
    Released();
    OneStep(Alone(Wrapper, GIVEN, Silent(false, true), None, None, 1, multiset{0}), CheckAnswer(0),
            Alone(Finished, GIVEN, Silent(false, true), None, None, 1, multiset{0}));
  }

  /** A call that waits when the reader closes: the status is CHANNEL_CLOSED, and the caller nevertheless
      finds a response, without a final result. */
  lemma ClosedCallHasResponse() returns (states: seq<State>, steps: seq<Step>)
    ensures IsRun(states, steps)
    ensures var s := states[|steps|];
            && |s.pc| == |s.job| == 1 && s.pc[0] == Finished && s.job[0].err == ChannelClosed
            && s.job[0].out == Some(Outcome(0, [], None, 0))
  {
    Returned();
    states, steps :| IsRun(states, steps) && states[|steps|] == Alone(Finished, GIVEN, Silent(false, true), None, None, 1, multiset{0});
  }
}
