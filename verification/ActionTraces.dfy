/** Runs of the code as written, from a new node and with obedient callbacks, that reach each of its failures. */
module ActionTraces {
  import opened Common
  import opened ActionNode
  import opened ActionSpins
  import opened ActionOwnership
  import opened ActionHistory
  import opened ActionRuns
  import opened ActionFeedback
  import opened ActionAccounting

  const NEW_NODE: Sys := Sys(
    Node(Idle, Some("nav"), "nav", false, 1000, false, None, None, None, Running, 0),
    Peer(0, 0, map[], {}), Start, false)

  /** A tick whose callbacks succeed and whose first spin makes the given deliveries. */
  function TickWith(ds: seq<Delivery>, duringCancel: seq<Delivery>): Step {
    TickStep(TickInput(true, true, "nav", true, true, Success, Success, 0, ds, [],
                       CancelInput([], 0, duringCancel, 0, [], 0)))
  }

  /** A halt during whose first wait the given deliveries are made. */
  function HaltWith(ds: seq<Delivery>): Step {
    HaltStep(CancelInput(ds, 0, [], 0, [], 0))
  }

  function After(steps: seq<Step>): Sys {
    Run(AsWritten, NEW_NODE, steps)
  }

  lemma {:induction false} RunLast(v: Variant, s: Sys, steps: seq<Step>, last: Step)
    ensures Run(v, s, steps + [last]) == Exec(v, Run(v, s, steps), last)
    decreases steps
  {
    if steps == [] {
      assert [last][1..] == [];
      assert Run(v, s, [last]) == Run(v, Exec(v, s, last), []);
      assert steps + [last] == [last];
    } else {
      assert (steps + [last])[1..] == steps[1..] + [last];
      RunLast(v, Exec(v, s, steps[0]), steps[1..], last);
    }
  }

  lemma SpinOne(v: Variant, s: Sys, d: Delivery)
    ensures Spin(v, s, [d]) == Deliver(v, s, d)
  {
    assert [d][1..] == [];
  }

  const SENT: seq<Step> := [] + [TickWith([], [])]
  const ACCEPTED: seq<Step> := SENT + [TickWith([GoalResponse(0, true)], [])]

  lemma AfterSent()
    ensures var s := After(SENT);
            && s.node == NEW_NODE.node.(status := Running, future := Some(0))
            && s.peer == Peer(0, 1, map[], {})
            && s.trace == Then(Then(Start, SetGoal), Sent(0, 0, Some("nav")))
            && !s.faulted
  {
    RunLast(AsWritten, NEW_NODE, [], TickWith([], []));
  }

  lemma AfterAccepted()
    ensures var s := After(ACCEPTED);
            && s.node == NEW_NODE.node.(status := Running, goalReceived := true, handle := Some(0))
            && s.peer == Peer(0, 1, map[0 := true], {0})
            && !s.faulted
            && Current(s.trace) == Some(0) && Fates(s.trace, 0) == [] && Fates(s.trace, 1) == []
  {
    AfterSent();
    RunLast(AsWritten, NEW_NODE, SENT, TickWith([GoalResponse(0, true)], []));
    SpinOne(AsWritten, After(SENT), GoalResponse(0, true));
  }

  const HALTED: seq<Step> := ACCEPTED + [HaltWith([])]

  /** The invariants of ownership and of feedback hold. */
  ghost predicate Healthy(s: Sys) {
    !s.faulted && Own(s) && Stopping(AsWritten, s)
  }

  lemma StaysHealthy(s: Sys, step: Step)
    requires Healthy(s) && StepObeys(step) && !Exec(AsWritten, s, step).faulted
    requires Begins(s, step) ==> CleanStart(AsWritten, s) && LoneStart(AsWritten, s)
    ensures Healthy(Exec(AsWritten, s, step))
  {
    ExecOwn(AsWritten, s, step);
    ExecStops(AsWritten, s, step);
  }

  lemma SentIsHealthy()
    ensures Healthy(After(SENT))
  {
    AfterSent();
    RunLast(AsWritten, NEW_NODE, [], TickWith([], []));
    StaysHealthy(NEW_NODE, TickWith([], []));
  }

  lemma AcceptedIsHealthy()
    ensures Healthy(After(ACCEPTED))
  {
    SentIsHealthy();
    AfterSent();
    AfterAccepted();
    RunLast(AsWritten, NEW_NODE, SENT, TickWith([GoalResponse(0, true)], []));
    StaysHealthy(After(SENT), TickWith([GoalResponse(0, true)], []));
  }

  lemma AfterHalted()
    ensures var s := After(HALTED);
            && s.node.status.Idle? && s.node.handle == Some(0) && Healthy(s)
            && s.peer.answers == map[0 := true] && s.peer.outstanding == {0}
  {
    AfterAccepted();
    RunLast(AsWritten, NEW_NODE, ACCEPTED, HaltWith([]));
    AcceptedIsHealthy();
    StaysHealthy(After(ACCEPTED), HaltWith([]));
  }

  /**
    From a new node: a halt that times out leaves a handle whose result is still due, the next start
    is not clean, and a run from there hands the late result of goal 0 to the activation of goal 1.
   */
  lemma UncleanStartIsReachable()
    ensures var s := After(HALTED);
            && s.node.status.Idle? && !s.faulted && !CleanStart(AsWritten, s)
            && !Owned(Run(AsWritten, s, LateResultRun(s, 0)).trace)
  {
    AfterHalted();
    LateResultBreaksOwnership(After(HALTED));
  }

  /** From the same state, feedback of goal 0 stops the activation of goal 1. */
  lemma StaleFeedbackIsReachable()
    ensures !StopsOwned(Run(AsWritten, After(HALTED), StaleFeedbackRun(After(HALTED), 0)).trace)
  {
    AfterHalted();
    StaleFeedbackStops(After(HALTED), 0);
  }

  /** A result that comes in before the tick takes the handle dereferences a null handle. */
  lemma NullHandleIsReachable()
    ensures After(SENT + [OtherSpin([GoalResponse(0, true), ResultMessage(0, Succeeded)])]).faulted
  {
    AfterSent();
    var ds := [GoalResponse(0, true), ResultMessage(0, Succeeded)];
    RunLast(AsWritten, NEW_NODE, SENT, OtherSpin(ds));
    assert ds[1..] == [ResultMessage(0, Succeeded)];
    SpinOne(AsWritten, Deliver(AsWritten, After(SENT), ds[0]).s, ds[1]);
  }

  /** A rejection that comes in while halt waits for the response hands a null handle to the client. */
  lemma RejectionDuringHaltIsReachable()
    ensures After(SENT + [HaltWith([GoalResponse(0, false)])]).faulted
  {
    AfterSent();
    RunLast(AsWritten, NEW_NODE, SENT, HaltWith([GoalResponse(0, false)]));
    var s := After(SENT);
    SpinUntilOne(AsWritten, Elapse(s, 0), GoalResponse(0, false), 0);
    assert AwaitThenCancel(AsWritten, s, 0, CancelInput([GoalResponse(0, false)], 0, [], 0, [], 0)).sig.Faulted?;
  }

  lemma SpinUntilOne(v: Variant, s: Sys, d: Delivery, g: GoalId)
    requires g !in s.peer.answers
    ensures SpinUntil(v, s, [d], g) == Deliver(v, s, d)
  {
    assert [d][1..] == [];
  }

  const DONE: seq<Step> := ACCEPTED + [TickWith([ResultMessage(0, Succeeded)], [])]
  const RESET: seq<Step> := DONE + [HaltWith([])]
  const RESENT: seq<Step> := RESET + [TickWith([], [])]

  /** One goal is done, its handle is still kept. */
  predicate Kept(s: Sys) {
    && !s.faulted && s.node.client == Some("nav") && s.node.name == "nav" && !s.node.nameChecked
    && s.node.handle == Some(0) && s.peer.outstanding == {}
    && Fates(s.trace, 0) == [ResultShown] && Fates(s.trace, 1) == []
  }

  lemma AfterDone()
    ensures Kept(After(DONE)) && After(DONE).node.status.Success? && After(DONE).peer.next == 1
  {
    AfterAccepted();
    var s := After(ACCEPTED);
    RunLast(AsWritten, NEW_NODE, ACCEPTED, TickWith([ResultMessage(0, Succeeded)], []));
    SpinOne(AsWritten, s, ResultMessage(0, Succeeded));
    assert After(DONE).trace ==
           Then(Then(s.trace, Delivered(ResultMessage(0, Succeeded))), Reported(WrappedResult(0, Succeeded)));
  }

  lemma AfterResent()
    ensures var s := After(RESENT);
            && Kept(s) && s.node.status.Running? && !s.node.goalReceived && s.node.future == Some(1)
  {
    AfterDone();
    RunLast(AsWritten, NEW_NODE, DONE, HaltWith([]));
    assert After(RESET).trace == After(DONE).trace;
    RunLast(AsWritten, NEW_NODE, RESET, TickWith([], []));
    assert After(RESENT).trace == Then(Then(After(DONE).trace, SetGoal), Sent(1, After(RESET).peer.clock, Some("nav")));
  }

  /** After one goal has succeeded, halting the next one before acceptance cancels the first again. */
  lemma ForgottenGoalIsReachable()
    ensures var s := After(RESENT + [HaltWith([])]);
            !s.faulted && Fates(s.trace, 0) == [ResultShown, CancelSent] && Fates(s.trace, 1) == []
  {
    AfterResent();
    RunLast(AsWritten, NEW_NODE, RESENT, HaltWith([]));
    var asked := Then(After(RESENT).trace, CancelRequested(0));
    assert Fates(asked, 0) == [ResultShown, CancelSent] && Fates(asked, 1) == [];
    assert After(RESENT + [HaltWith([])]).trace == Then(asked, Halted);
  }

  /** onFeedback asks for a stop, the goal is cancelled, and a later feedback keeps the node running. */
  lemma FlippedVerdictIsReachable()
    ensures var s := After(ACCEPTED + [TickWith([Feedback(0, Failure)], [Feedback(0, Running)])]);
            !s.faulted && s.node.status.Running? && Fates(s.trace, 0) == [CancelSent]
  {
    AfterAccepted();
    var step := TickWith([Feedback(0, Failure)], [Feedback(0, Running)]);
    RunLast(AsWritten, NEW_NODE, ACCEPTED, step);
    var s := After(ACCEPTED);
    SpinOne(AsWritten, s, Feedback(0, Failure));
    var t := Deliver(AsWritten, s, Feedback(0, Failure)).s;
    var stop := Log(t, StoppedByFeedback(Failure));
    var asked := Log(stop, CancelRequested(0));
    SpinOne(AsWritten, asked, Feedback(0, Running));
    assert Fates(t.trace, 0) == [] && Fates(stop.trace, 0) == [] && Fates(asked.trace, 0) == [CancelSent];
    assert After(ACCEPTED + [step]).trace == Then(asked.trace, Delivered(Feedback(0, Running)));
  }
}
