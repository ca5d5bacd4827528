/** Whole runs of RosActionNode: the abstraction invariant, the calls per activation, faults and waits. */
module ActionRuns {
  import opened Common
  import opened ActionNode
  import opened ActionSpins
  import opened ActionHistory

  /** Terminal callbacks since the activation began. */
  function Terminals(t: Trace): nat {
    match t
    case Start => 0
    case Then(_, SetGoal) => 0
    case Then(past, Failed(_, _, _)) => Terminals(past) + 1
    case Then(past, Reported(_)) => Terminals(past) + 1
    case Then(past, _) => Terminals(past)
  }

  /** Goals sent since the activation began. */
  function Sends(t: Trace): nat {
    match t
    case Start => 0
    case Then(_, SetGoal) => 0
    case Then(past, Sent(_, _, _)) => Sends(past) + 1
    case Then(past, _) => Sends(past)
  }

  /** At every moment, at most one goal sent and one terminal callback in the activation. */
  predicate AtMostOnce(t: Trace) {
    t.Then? ==> AtMostOnce(t.past) && Terminals(t) <= 1 && Sends(t) <= 1
  }

  /** The part of an activation before its terminal callback. */
  predicate Open(t: Trace) {
    AtMostOnce(t) && Terminals(t) == 0 && Sends(t) <= 1
  }

  predicate Good(v: Variant, s: Sys) {
    && Tracked(v, s)
    && AtMostOnce(s.trace)
    && (s.node.status.Running? ==> Abstracts(v, s) && Open(s.trace))
  }

  lemma {:induction false} DeliveredKeepsOpen(early: Trace, late: Trace)
    requires Open(early) && OnlyDelivered(early, late)
    ensures Open(late)
  {
    if late != early {
      DeliveredKeepsOpen(early, late.past);
    }
  }

  lemma FollowsKeepsOnce(v: Variant, h: Trace, d: Decision, i: TickInput, r: TickRes)
    requires Open(h) && Follows(v, h, d, i, r) && TickObeys(i)
    ensures AtMostOnce(r.s.trace) && (r.status.Running? ==> Open(r.s.trace))
  {
    assert Open(Held(h));
    if d.Stop? {
      DeliveredKeepsOpen(Cancelled(h, Current(h).value, d.verdict), r.s.trace);
    }
  }

  lemma ContinueGood(v: Variant, s: Sys, i: TickInput)
    requires Good(v, s) && s.node.status.Running? && TickObeys(i)
    ensures var r := Continue(v, s, i);
            && r.sig == Spins(v, s, i).sig && !r.sig.Threw? && (v.Repaired? ==> r.sig.Fine?)
            && AtMostOnce(r.s.trace)
            && (r.sig.Fine? && r.status.Running? ==> Abstracts(v, r.s) && Open(r.s.trace))
            && (r.sig.Fine? ==>
                  var h := Spins(v, s, i).s;
                  && Tracked(v, r.s)
                  && OnlyDelivered(s.trace, h.trace)
                  && Follows(v, h.trace, Decide(v, h.trace, h.peer.clock, TimeoutNs(h.node)), i, r))
  {
    SpinsTrack(v, s, i);
    var h := Spins(v, s, i);
    DeliveredKeepsOpen(s.trace, h.s.trace);
    if h.sig.Fine? {
      DecidedFollows(v, h.s, i);
      FollowsKeepsOnce(v, h.s.trace, Decide(v, h.s.trace, h.s.peer.clock, TimeoutNs(h.s.node)), i, Continue(v, s, i));
    }
  }

  // ---------- cancelGoal and halt ----------

  /** `late` adds to `early` only deliveries and what cancelGoal does. */
  predicate OnlyCancels(early: Trace, late: Trace) {
    late == early ||
    (late.Then? && OfCancel(late.last) && OnlyCancels(early, late.past))
  }

  predicate OfCancel(e: Event) {
    e.Delivered? || e.Took? || e.CancelRequested? || e.WaitExpired?
  }

  lemma {:induction false} CancelsKeepOpen(early: Trace, late: Trace)
    requires Open(early) && OnlyCancels(early, late)
    ensures Open(late)
  {
    if late != early {
      CancelsKeepOpen(early, late.past);
    }
  }

  lemma {:induction false} DeliveredAfterCancels(early: Trace, mid: Trace, late: Trace)
    requires OnlyCancels(early, mid) && OnlyDelivered(mid, late)
    ensures OnlyCancels(early, late)
  {
    if late != mid {
      DeliveredAfterCancels(early, mid, late.past);
    }
  }

  lemma CancelTrace(v: Variant, s: Sys, i: CancelInput)
    requires s.node.client.Some?
    ensures OnlyCancels(s.trace, CancelGoal(v, s, i).s.trace)
    ensures CancelObeys(i) ==>
              !CancelGoal(v, s, i).sig.Threw? && (v.Repaired? ==> CancelGoal(v, s, i).sig.Fine?)
  {
    if s.node.handle.Some? {
      RequestCancelFrame(v, s, i);
      var asked := Then(s.trace, CancelRequested(s.node.handle.value));
      DeliveredAfterCancels(s.trace, asked, CancelGoal(v, s, i).s.trace);
    } else if s.node.future.Some? {
      var g := s.node.future.value;
      var e := Elapse(s, Waited(s, i.responseTook));
      WaitFrame(v, e, i.forResponse, g);
      var r := SpinUntil(v, e, i.forResponse, g);
      DeliveredAfterCancels(s.trace, s.trace, r.s.trace);
      if r.sig.Fine? && g in r.s.peer.answers && r.s.peer.answers[g] {
        var taken := Take(r.s, g);
        RequestCancelFrame(v, taken, i);
        DeliveredAfterCancels(s.trace, Then(taken.trace, CancelRequested(g)), CancelGoal(v, s, i).s.trace);
      }
    }
  }

  lemma HaltGood(v: Variant, s: Sys, i: CancelInput)
    requires Good(v, s) && CancelObeys(i)
    ensures var r := Halt(v, s, i);
            Tracked(v, r.s) && AtMostOnce(r.s.trace) && !r.sig.Threw? && (v.Repaired? ==> r.sig.Fine?)
  {
    if s.node.status.Running? {
      CancelTracks(v, s, i);
      CancelTrace(v, s, i);
      CancelsKeepOpen(s.trace, CancelGoal(v, s, i).s.trace);
    }
  }

  // ---------- every step ----------

  lemma ActivateGood(v: Variant, s: Sys, i: TickInput)
    requires Good(v, s) && s.node.status.Idle? && s.node.client.Some? && TickObeys(i)
    ensures var r := Activate(v, s, i);
            && r.sig.Fine? && Tracked(v, r.s)
            && AtMostOnce(r.s.trace)
            && (r.status.Running? ==> Abstracts(v, r.s) && Open(r.s.trace))
  {
    assert FeedbackHeard(v, Begin(v, s).trace) == Running && Begin(v, s).node.feedback == Running;
  }

  lemma TickGood(v: Variant, s: Sys, i: TickInput)
    requires Good(v, s) && TickObeys(i) && (s.node.status.Idle? || s.node.status.Running?)
    ensures var r := Tick(v, s, i);
            && AtMostOnce(r.s.trace) && (r.sig.Fine? ==> Tracked(v, r.s))
            && (r.sig.Fine? && r.status.Running? ==> Abstracts(v, r.s) && Open(r.s.trace))
            && (r.sig.Threw? ==> r.s.node == s.node && r.s.trace == s.trace && s.node.status.Idle?)
            && (v.Repaired? ==> !r.sig.Faulted?)
  {
    var e := Elapse(s, i.elapsed);
    if !i.rosOk {
      HaltGood(v, e, i.cancel);
    } else if EnsureClient(e.node, i).Some? {
      var t := e.(node := EnsureClient(e.node, i).value);
      if t.node.status.Idle? {
        ActivateGood(v, t, i);
      } else {
        ContinueGood(v, t, i);
      }
    }
  }

  lemma ExecGood(v: Variant, s: Sys, step: Step)
    requires Good(v, s) && StepObeys(step) && !s.faulted
    ensures var t := Exec(v, s, step);
            AtMostOnce(t.trace) && (t.faulted || Good(v, t)) && (v.Repaired? ==> !t.faulted)
  {
    match step
    case TickStep(i) =>
      if s.node.status.Idle? || s.node.status.Running? {
        TickGood(v, s, i);
      }
    case HaltStep(i) =>
      HaltGood(v, s, i);
    case OtherSpin(ds) =>
      SpinFrame(v, s, ds);
      SpinTracks(v, s, ds);
      if s.node.status.Running? {
        DeliveredKeepsOpen(s.trace, Spin(v, s, ds).s.trace);
      } else {
        DeliveredKeepsOnce(s.trace, Spin(v, s, ds).s.trace);
      }
    case Rename(_, _) =>
  }

  lemma {:induction false} DeliveredKeepsOnce(early: Trace, late: Trace)
    requires AtMostOnce(early) && OnlyDelivered(early, late)
    ensures AtMostOnce(late)
  {
    if late != early {
      DeliveredKeepsOnce(early, late.past);
      assert Terminals(late) == Terminals(late.past) && Sends(late) == Sends(late.past);
    }
  }

  // ---------- the phase of a running node ----------

  predicate InPhase(s: Sys) {
    s.node.status.Running? ==> Phase(s)
  }

  /** The tick would spin on a future that holds nothing. */
  predicate TouchesInvalidFuture(v: Variant, s: Sys, i: TickInput) {
    var r := Spin(v, Elapse(s, i.elapsed), i.someSpin);
    s.node.status.Running? && i.rosOk && r.sig.Fine? && !r.s.node.goalReceived && r.s.node.future.None?
  }

  lemma SpinsPhase(v: Variant, s: Sys, i: TickInput)
    requires s.node.status.Running? && Phase(s) && TickObeys(i)
    ensures var r := Spins(v, s, i); SameFrame(s, r.s) && Phase(r.s) && OnlyDelivered(s.trace, r.s.trace)
    ensures !Spins(v, s, i).sig.Threw? && !TouchesInvalidFuture(v, s, i.(elapsed := 0))
  {
    SpinFrame(v, s, i.someSpin);
    SpinsIsSpin(v, s, i);
    HeardObeys(s, i);
    SpinFrame(v, s, Heard(s, i));
    DeliveredFrame(s.trace, Spins(v, s, i).s.trace);
    assert Elapse(s, 0) == s;
  }

  lemma ConcludePhase(v: Variant, s: Sys, i: TickInput)
    requires s.node.status.Running? && Phase(s) && s.node.goalReceived && TickObeys(i)
    ensures var r := Conclude(v, s, i); r.sig.Fine? && (r.status.Running? ==> Phase(r.s))
  {
    if !s.node.feedback.Running? {
      var asked := Log(s, StoppedByFeedback(s.node.feedback));
      RequestCancelFrame(v, asked, i.cancel);
      DeliveredFrame(Then(asked.trace, CancelRequested(s.node.handle.value)), Conclude(v, s, i).s.trace);
    }
  }

  lemma ContinuePhase(v: Variant, s: Sys, i: TickInput)
    requires s.node.status.Running? && Phase(s) && TickObeys(i)
    ensures var r := Continue(v, s, i); !r.sig.Threw? && (r.sig.Fine? && r.status.Running? ==> Phase(r.s))
  {
    SpinsPhase(v, s, i);
    var h := Spins(v, s, i);
    if h.sig.Fine? {
      if h.s.node.goalReceived {
        ConcludePhase(v, h.s, i);
      } else if h.s.node.future.value in h.s.peer.answers {
        var taken := Take(h.s.(node := h.s.node.(goalReceived := true)), h.s.node.future.value);
        if taken.node.handle.Some? {
          ConcludePhase(v, taken, i);
        }
      }
    }
  }

  lemma TickPhase(v: Variant, s: Sys, i: TickInput)
    requires InPhase(s) && TickObeys(i) && (s.node.status.Idle? || s.node.status.Running?)
    ensures var r := Tick(v, s, i);
            && (r.sig.Fine? && r.status.Running? ==> Phase(r.s))
            && (r.sig.Threw? ==> r.s == Elapse(s, i.elapsed) && s.node.status.Idle?)
    ensures !TouchesInvalidFuture(v, s, i)
  {
    if s.node.status.Running? {
      RunningTickPhase(v, s, i);
    }
  }

  lemma RunningTickPhase(v: Variant, s: Sys, i: TickInput)
    requires s.node.status.Running? && Phase(s) && TickObeys(i)
    ensures var r := Tick(v, s, i); !r.sig.Threw? && (r.sig.Fine? && r.status.Running? ==> Phase(r.s))
    ensures !TouchesInvalidFuture(v, s, i)
  {
    var e := Elapse(s, i.elapsed);
    SpinsPhase(v, e, i);
    if i.rosOk {
      RunningTick(v, s, i);
      ContinuePhase(v, e, i);
    } else {
      CancelFrame(v, e, i.cancel);
    }
  }

  /** One step keeps the phase, for any callbacks that obey their contracts. */
  lemma ExecPhase(v: Variant, s: Sys, step: Step)
    requires !s.faulted && InPhase(s) && StepObeys(step)
    ensures var t := Exec(v, s, step); t.faulted || InPhase(t)
    ensures step.TickStep? ==> !TouchesInvalidFuture(v, s, step.input)
  {
    match step
    case TickStep(i) =>
      if s.node.status.Idle? || s.node.status.Running? {
        TickPhase(v, s, i);
      }
    case HaltStep(i) =>
      if s.node.status.Running? {
        CancelFrame(v, s, i);
      }
    case OtherSpin(ds) =>
      SpinFrame(v, s, ds);
      DeliveredFrame(s.trace, Spin(v, s, ds).s.trace);
    case Rename(_, _) =>
  }

  predicate AllStepsObey(steps: seq<Step>) {
    forall step | step in steps :: StepObeys(step)
  }

  /** Phase invariant over every contract-obeying run, clean or not. */
  lemma {:induction false} PhaseOfRuns(v: Variant, s: Sys, steps: seq<Step>)
    requires !s.faulted && InPhase(s) && AllStepsObey(steps)
    ensures var t := Run(v, s, steps); t.faulted || InPhase(t)
    decreases steps
  {
    if steps != [] {
      assert steps[0] in steps;
      ExecPhase(v, s, steps[0]);
      var t := Exec(v, s, steps[0]);
      if t.faulted {
        FaultedStays(v, t, steps[1..]);
      } else {
        PhaseOfRuns(v, t, steps[1..]);
      }
    }
  }

  lemma {:induction false} FaultedStays(v: Variant, s: Sys, steps: seq<Step>)
    requires s.faulted
    ensures Run(v, s, steps) == s
    decreases steps
  {
    if steps != [] {
      FaultedStays(v, s, steps[1..]);
    }
  }

  /**
    The one verdict tick does not check: when the server is not ready, the phase survives exactly
    when onFailure does not return RUNNING.
   */
  lemma UnreachableVerdictIsExact(v: Variant, s: Sys, i: TickInput)
    requires !s.faulted && s.node.status.Idle? && i.rosOk && i.goalSet && !i.serverReady
    requires EnsureClient(Elapse(s, i.elapsed).node, i).Some?
    ensures InPhase(Exec(v, s, TickStep(i))) <==> !i.onFailure.Running?
    ensures i.onFailure.Running? ==> forall j: TickInput :: TouchesInvalidFuture(v, Exec(v, s, TickStep(i)), j) <==>
              j.rosOk && Spin(v, Elapse(Exec(v, s, TickStep(i)), j.elapsed), j.someSpin).sig.Fine?
  {
    var t := Exec(v, s, TickStep(i));
    forall j: TickInput {
      SpinFrame(v, Elapse(t, j.elapsed), j.someSpin);
    }
  }

  // ---------- main results over runs ----------

  lemma {:induction false} RunGood(v: Variant, s: Sys, steps: seq<Step>)
    requires !s.faulted && Good(v, s) && AllStepsObey(steps)
    ensures var t := Run(v, s, steps);
            AtMostOnce(t.trace) && (t.faulted || Good(v, t)) && (v.Repaired? ==> !t.faulted)
    decreases steps
  {
    if steps != [] {
      assert steps[0] in steps;
      ExecGood(v, s, steps[0]);
      var t := Exec(v, s, steps[0]);
      if t.faulted {
        FaultedStays(v, t, steps[1..]);
      } else {
        RunGood(v, t, steps[1..]);
      }
    }
  }

  /** At most one goal is sent and one terminal callback made per activation, clean start or not. */
  lemma OncePerActivation(v: Variant, s: Sys, steps: seq<Step>)
    requires Initial(s) && AllStepsObey(steps)
    ensures AtMostOnce(Run(v, s, steps).trace)
  {
    RunGood(v, s, steps);
  }

  /** The repaired node never touches a null handle or an invalid future. */
  lemma RepairedNeverFaults(s: Sys, steps: seq<Step>)
    requires Initial(s) && AllStepsObey(steps)
    ensures !Run(Repaired, s, steps).faulted
  {
    RunGood(Repaired, s, steps);
  }

  /**
    In every reachable state, a tick that returns does exactly what the decision on the history
    of the activation says, and makes exactly the calls that go with it.
   */
  lemma TickRefinesHistory(v: Variant, s0: Sys, steps: seq<Step>, i: TickInput)
    requires Initial(s0) && AllStepsObey(steps) && TickObeys(i) && i.rosOk
    ensures var s := Run(v, s0, steps);
            var r := Tick(v, s, i);
            var h := Spins(v, Elapse(s, i.elapsed), i).s;
            !s.faulted && s.node.status.Running? && r.sig.Fine? ==>
              && OnlyDelivered(s.trace, h.trace)
              && Follows(v, h.trace, Decide(v, h.trace, h.peer.clock, TimeoutNs(h.node)), i, r)
    ensures var s := Run(v, s0, steps);
            !s.faulted && s.node.status.Running? ==> Abstracts(v, s) && (v.Repaired? ==> Tick(v, s, i).sig.Fine?)
  {
    RunGood(v, s0, steps);
    var s := Run(v, s0, steps);
    if !s.faulted && s.node.status.Running? {
      var e := Elapse(s, i.elapsed);
      RunningTick(v, s, i);
      ContinueGood(v, e, i);
    }
  }

  // ---------- when the code as written faults ----------

  lemma StepFaultIsExact(s: Sys, step: Step)
    requires !s.faulted && InPhase(s) && StepObeys(step)
    ensures Exec(AsWritten, s, step).faulted <==> Trips(s, step)
  {
    match step
    case TickStep(i) =>
      var e := Elapse(s, i.elapsed);
      if s.node.status.Running? {
        HeardDepends(s, i.elapsed, i);
        CancelTripsDepends(s, i.elapsed, i.cancel);
        ResultComesDepends(s.peer, e.peer, Heard(s, i));
        if i.rosOk {
          RunningTick(AsWritten, s, i);
          TickFaultIsExact(e, i);
        } else {
          CancelFaultIsExact(e, i.cancel);
        }
      }
    case HaltStep(i) =>
      if s.node.status.Running? {
        CancelFaultIsExact(s, i);
      }
    case OtherSpin(ds) => SpinFaultIsExact(s, ds);
    case Rename(_, _) =>
  }

  /** Some step of the run, before which nothing has gone wrong, meets the condition of a fault. */
  predicate SomeStepTrips(s: Sys, steps: seq<Step>)
    decreases steps
  {
    steps != [] && (Trips(s, steps[0]) || SomeStepTrips(Exec(AsWritten, s, steps[0]), steps[1..]))
  }

  lemma {:induction false} RunFaultIsExact(s: Sys, steps: seq<Step>)
    requires !s.faulted && InPhase(s) && AllStepsObey(steps)
    ensures Run(AsWritten, s, steps).faulted <==> SomeStepTrips(s, steps)
    decreases steps
  {
    if steps != [] {
      assert steps[0] in steps;
      StepFaultIsExact(s, steps[0]);
      ExecPhase(AsWritten, s, steps[0]);
      var t := Exec(AsWritten, s, steps[0]);
      if t.faulted {
        FaultedStays(AsWritten, t, steps[1..]);
      } else {
        RunFaultIsExact(t, steps[1..]);
      }
    }
  }

  /** From a new node, a contract-obeying run as written faults exactly when one of its steps trips. */
  lemma FaultOfRunsIsExact(s: Sys, steps: seq<Step>)
    requires Initial(s) && AllStepsObey(steps)
    ensures Run(AsWritten, s, steps).faulted <==> SomeStepTrips(s, steps)
  {
    RunFaultIsExact(s, steps);
  }

  // ---------- bounded waiting before acceptance ----------

  predicate Unaccepted(s: Sys) {
    s.node.status.Running? && !s.node.goalReceived
  }

  /** Number of ticks in a run, each coming at least `gap` nanoseconds after what precedes it. */
  function Ticks(steps: seq<Step>): nat {
    if steps == [] then 0 else (if steps[0].TickStep? then 1 else 0) + Ticks(steps[1..])
  }

  predicate Spaced(steps: seq<Step>, gap: nat) {
    forall step | step in steps :: step.TickStep? ==> gap <= step.input.elapsed && step.input.rosOk
  }

  /** The node stays in the same unaccepted activation during the whole run. */
  predicate Waits(v: Variant, s: Sys, steps: seq<Step>)
    decreases steps
  {
    && !s.faulted && Unaccepted(s) && s.node.future.Some? && s.node.client.Some?
    && (steps != [] ==>
          && !steps[0].HaltStep?
          && Waits(v, Exec(v, s, steps[0]), steps[1..]))
  }

  /** Once the response is in, the tick holds the handle or ends the activation. */
  lemma ReceivedIsAccepted(v: Variant, s: Sys, g: GoalId, i: TickInput)
    requires g in s.peer.answers && s.node.client.Some? && TickObeys(i)
    ensures var r := Receive(v, s, g, i); r.sig.Fine? && (r.status.Running? ==> r.s.node.goalReceived)
  {
    var taken := Take(s.(node := s.node.(goalReceived := true)), g);
    if taken.node.handle.Some? {
      RequestCancelFrame(v, Log(taken, StoppedByFeedback(taken.node.feedback)), i.cancel);
    }
  }

  /** A decision that leaves the goal unaccepted has compared the clock with the timeout. */
  lemma UnacceptedDecidesOnTime(v: Variant, s: Sys, i: TickInput)
    requires !s.node.goalReceived && s.node.future.Some? && s.node.client.Some? && TickObeys(i)
    ensures var r := Decided(v, s, i);
            r.sig.Fine? && (r.status.Running? && !r.s.node.goalReceived ==>
                              r.s == s && s.peer.clock - s.node.timeSent <= TimeoutNs(s.node))
  {
    if s.node.future.value in s.peer.answers {
      ReceivedIsAccepted(v, s, s.node.future.value, i);
    }
  }

  /** A tick that leaves the goal unaccepted has checked the clock against the timeout. */
  lemma UnacceptedTickIsEarly(v: Variant, s: Sys, i: TickInput)
    requires !s.faulted && Unaccepted(s) && s.node.future.Some? && s.node.client.Some? && i.rosOk && TickObeys(i)
    ensures var t := Exec(v, s, TickStep(i));
            !t.faulted && Unaccepted(t) && t.node.future.Some? ==>
              && t.peer.clock == s.peer.clock + i.elapsed
              && t.node.timeSent == s.node.timeSent && t.node.timeoutMs == s.node.timeoutMs
              && t.node.future == s.node.future
              && t.peer.clock - t.node.timeSent <= TimeoutNs(t.node)
  {
    var e := Elapse(s, i.elapsed);
    RunningTick(v, s, i);
    SpinsIsSpin(v, e, i);
    HeardObeys(e, i);
    SpinFrame(v, e, Heard(e, i));
    var h := Spins(v, e, i);
    if h.sig.Fine? {
      UnacceptedDecidesOnTime(v, h.s, i);
    }
  }

  /**
    With ticks at least `gap` apart, an activation stays unaccepted for at most timeout / gap
    ticks: the time left until the timeout bounds the ticks still to come.
   */
  lemma {:induction false} BoundedWaiting(v: Variant, s: Sys, steps: seq<Step>, gap: nat)
    requires Waits(v, s, steps) && Spaced(steps, gap) && AllStepsObey(steps)
    ensures Ticks(steps) > 0 ==> Ticks(steps) * gap <= TimeoutNs(s.node) - (s.peer.clock - s.node.timeSent)
    decreases steps
  {
    if steps != [] {
      var step, rest := steps[0], steps[1..];
      assert step in steps;
      var t := Exec(v, s, step);
      BoundedWaiting(v, t, rest, gap);
      if step.TickStep? {
        UnacceptedTickIsEarly(v, s, step.input);
        assert Ticks(steps) * gap == Ticks(rest) * gap + gap;
      } else if step.OtherSpin? {
        SpinFrame(v, s, step.deliveries);
      }
    }
  }
}
