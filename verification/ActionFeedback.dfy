/**
  Feedback ownership: a stop asked by onFeedback is the latest verdict on feedback for the goal of
  the current activation. The feedback callback as written tests no goal id.
 */
module ActionFeedback {
  import opened Common
  import opened ActionNode
  import opened ActionSpins
  import opened ActionOwnership
  import opened ActionHistory
  import opened ActionRuns

  predicate StopsOwned(t: Trace) {
    t.Then? ==> StopsOwned(t.past) && (t.last.StoppedByFeedback? ==> t.last.verdict == OwnFeedback(t.past))
  }

  /** The server can still send something about goal `g`. */
  predicate Pending(p: Peer, g: GoalId) {
    Awaiting(p, g) || g in p.outstanding
  }

  ghost predicate NothingPending(p: Peer) {
    forall g: GoalId :: !Pending(p, g)
  }

  /** Nothing more can come for the goals of earlier activations. */
  ghost predicate LoneStart(v: Variant, s: Sys) {
    v.Repaired? || NothingPending(s.peer)
  }

  ghost predicate LoneRun(v: Variant, s: Sys, steps: seq<Step>)
    decreases steps
  {
    steps != [] ==>
      (Begins(s, steps[0]) ==> LoneStart(v, s)) && LoneRun(v, Exec(v, s, steps[0]), steps[1..])
  }

  // ---------- traces ----------

  /** The history up to the start of the activation. */
  function Before(t: Trace): Trace {
    match t
    case Start => Start
    case Then(past, SetGoal) => past
    case Then(past, _) => Before(past)
  }

  ghost predicate LoneSince(v: Variant, t: Trace) {
    v.Repaired? || NothingPending(Ledger(Before(t)))
  }

  lemma UnsentHasNoCurrent(t: Trace)
    requires Sends(t) == 0
    ensures Current(t).None?
  {
  }

  /** When nothing was pending before the activation, all that comes is for its own goal. */
  lemma {:induction false} AloneHearsItself(t: Trace)
    requires Legal(t) && Sends(t) <= 1 && NothingPending(Ledger(Before(t)))
    ensures LastFeedback(t) == OwnFeedback(t)
    ensures forall g: GoalId :: Pending(Ledger(t), g) ==> Current(t) == Some(g)
  {
    if t.Then? && !t.last.SetGoal? {
      AloneHearsItself(t.past);
      if t.last.Sent? {
        UnsentHasNoCurrent(t.past);
      }
    }
  }

  lemma {:induction false} CancelsKeepStops(early: Trace, late: Trace)
    requires OnlyCancels(early, late)
    ensures StopsOwned(late) <==> StopsOwned(early)
    ensures Before(late) == Before(early)
  {
    if late != early {
      CancelsKeepStops(early, late.past);
    }
  }

  lemma DeliveredKeepStops(early: Trace, late: Trace)
    requires OnlyDelivered(early, late)
    ensures StopsOwned(late) <==> StopsOwned(early)
    ensures Before(late) == Before(early)
  {
    DeliveredAfterCancels(early, early, late);
    CancelsKeepStops(early, late);
  }

  // ---------- every step ----------

  lemma HeldKeepsStops(h: Trace)
    ensures StopsOwned(Held(h)) <==> StopsOwned(h)
    ensures Before(Held(h)) == Before(h) && OwnFeedback(Held(h)) == OwnFeedback(h)
  {
  }

  lemma FollowsKeepsStops(v: Variant, h: Trace, d: Decision, i: TickInput, r: TickRes)
    requires Follows(v, h, d, i, r) && StopsOwned(h) && (d.Stop? ==> d.verdict == OwnFeedback(h))
    ensures StopsOwned(r.s.trace) && Before(r.s.trace) == Before(h)
  {
    HeldKeepsStops(h);
    if d.Stop? {
      var stop := Then(Held(h), StoppedByFeedback(d.verdict));
      assert StopsOwned(stop) && Before(stop) == Before(h);
      var c := Then(stop, CancelRequested(Current(h).value));
      assert StopsOwned(c) && Before(c) == Before(stop);
      DeliveredKeepStops(c, r.s.trace);
    }
  }

  lemma ContinueStops(v: Variant, s: Sys, i: TickInput)
    requires Good(v, s) && s.node.status.Running? && TickObeys(i)
    requires StopsOwned(s.trace) && LoneSince(v, s.trace)
    ensures var r := Continue(v, s, i); StopsOwned(r.s.trace) && Before(r.s.trace) == Before(s.trace)
  {
    ContinueGood(v, s, i);
    SpinsTrack(v, s, i);
    var h := Spins(v, s, i);
    DeliveredKeepStops(s.trace, h.s.trace);
    DeliveredKeepsOpen(s.trace, h.s.trace);
    if h.sig.Fine? {
      if v.AsWritten? {
        AloneHearsItself(h.s.trace);
      }
      FollowsKeepsStops(v, h.s.trace, Decide(v, h.s.trace, h.s.peer.clock, TimeoutNs(h.s.node)), i, Continue(v, s, i));
    }
  }

  lemma ActivateStops(v: Variant, s: Sys, i: TickInput)
    requires StopsOwned(s.trace)
    ensures var r := Activate(v, s, i); StopsOwned(r.s.trace) && Before(r.s.trace) == s.trace
  {
    var b := Begin(v, s).trace;
    assert StopsOwned(b) && Before(b) == s.trace;
  }

  /** What is needed of a state for its next step to own its stops. */
  ghost predicate Stopping(v: Variant, s: Sys) {
    Good(v, s) && StopsOwned(s.trace) && (s.node.status.Running? ==> LoneSince(v, s.trace))
  }

  lemma HaltStops(v: Variant, s: Sys, i: CancelInput)
    requires Stopping(v, s)
    ensures StopsOwned(Halt(v, s, i).s.trace)
  {
    if s.node.status.Running? {
      CancelTrace(v, s, i);
      CancelsKeepStops(s.trace, CancelGoal(v, s, i).s.trace);
    }
  }

  lemma TickStops(v: Variant, s: Sys, i: TickInput)
    requires Stopping(v, s) && TickObeys(i) && (s.node.status.Idle? || s.node.status.Running?)
    requires s.node.status.Idle? ==> LoneStart(v, s)
    ensures var r := Tick(v, s, i);
            StopsOwned(r.s.trace) && (r.sig.Fine? && r.status.Running? ==> LoneSince(v, r.s.trace))
  {
    var e := Elapse(s, i.elapsed);
    if !i.rosOk {
      HaltStops(v, e, i.cancel);
    } else if EnsureClient(e.node, i).Some? {
      var t := e.(node := EnsureClient(e.node, i).value);
      if t.node.status.Idle? {
        ActivateStops(v, t, i);
        assert NothingPending(s.peer) ==> NothingPending(Ledger(s.trace)) by {
          assert forall g: GoalId :: Pending(s.peer, g) <==> Pending(Ledger(s.trace), g);
        }
      } else {
        ContinueStops(v, t, i);
      }
    }
  }

  lemma ExecStops(v: Variant, s: Sys, step: Step)
    requires !s.faulted && Stopping(v, s) && StepObeys(step) && (Begins(s, step) ==> LoneStart(v, s))
    ensures var t := Exec(v, s, step); StopsOwned(t.trace) && (t.faulted || Stopping(v, t))
  {
    ExecGood(v, s, step);
    match step
    case TickStep(i) =>
      if s.node.status.Idle? || s.node.status.Running? {
        TickStops(v, s, i);
        TickGood(v, s, i);
      }
    case HaltStep(i) =>
      HaltStops(v, s, i);
      HaltGood(v, s, i);
    case OtherSpin(ds) =>
      SpinFrame(v, s, ds);
      DeliveredKeepStops(s.trace, Spin(v, s, ds).s.trace);
    case Rename(_, _) =>
  }

  lemma {:induction false} RunStops(v: Variant, s: Sys, steps: seq<Step>)
    requires !s.faulted && Stopping(v, s) && AllStepsObey(steps) && LoneRun(v, s, steps)
    ensures StopsOwned(Run(v, s, steps).trace)
    decreases steps
  {
    if steps != [] {
      assert steps[0] in steps;
      ExecStops(v, s, steps[0]);
      var t := Exec(v, s, steps[0]);
      if t.faulted {
        FaultedStays(v, t, steps[1..]);
      } else {
        RunStops(v, t, steps[1..]);
      }
    }
  }

  // ---------- main results ----------

  /** Over every contract-obeying run in which nothing is pending when an activation starts. */
  lemma StopsOfLoneRuns(v: Variant, s: Sys, steps: seq<Step>)
    requires Initial(s) && AllStepsObey(steps) && LoneRun(v, s, steps)
    ensures StopsOwned(Run(v, s, steps).trace)
  {
    RunStops(v, s, steps);
  }

  lemma {:induction false} RepairedRunsAreLone(s: Sys, steps: seq<Step>)
    ensures LoneRun(Repaired, s, steps)
    decreases steps
  {
    if steps != [] {
      RepairedRunsAreLone(Exec(Repaired, s, steps[0]), steps[1..]);
    }
  }

  /** Over every contract-obeying run of the repaired node. */
  lemma RepairedStops(s: Sys, steps: seq<Step>)
    requires Initial(s) && AllStepsObey(steps)
    ensures StopsOwned(Run(Repaired, s, steps).trace)
  {
    RepairedRunsAreLone(s, steps);
    StopsOfLoneRuns(Repaired, s, steps);
  }

  lemma {:induction false} QuietRunsAreLone(v: Variant, s: Sys, steps: seq<Step>)
    requires Quiet(v, s, steps)
    ensures LoneRun(v, s, steps)
    decreases steps
  {
    if steps != [] {
      QuietRunsAreLone(v, Exec(v, s, steps[0]), steps[1..]);
    }
  }

  /** The new goal is accepted, and the older one, accepted too, sends feedback. */
  function StaleNews(newer: GoalId, stale: GoalId): Step {
    OtherSpin([GoalResponse(newer, true), GoalResponse(stale, true), Feedback(stale, Failure)])
  }

  function StaleFeedbackRun(s: Sys, stale: GoalId): seq<Step> {
    var first := TickStep(PlainTick(s));
    var news := StaleNews(s.peer.next, stale);
    [first, news, TickStep(PlainTick(Exec(AsWritten, Exec(AsWritten, s, first), news)))]
  }

  /** As written, an activation owns its stops in all runs exactly when nothing is pending at its start. */
  lemma LoneStartIsExact(s: Sys)
    requires Good(AsWritten, s) && s.node.status.Idle? && !s.faulted && StopsOwned(s.trace)
    ensures LoneStart(AsWritten, s) <==>
            forall steps :: SingleActivation(AsWritten, s, steps) && AllStepsObey(steps) ==>
              StopsOwned(Run(AsWritten, s, steps).trace)
  {
    if LoneStart(AsWritten, s) {
      forall steps | SingleActivation(AsWritten, s, steps) && AllStepsObey(steps)
        ensures StopsOwned(Run(AsWritten, s, steps).trace)
      {
        if steps != [] {
          QuietRunsAreLone(AsWritten, Exec(AsWritten, s, steps[0]), steps[1..]);
        }
        RunStops(AsWritten, s, steps);
      }
    } else {
      var stale :| Pending(s.peer, stale);
      StaleFeedbackStops(s, stale);
      var steps := StaleFeedbackRun(s, stale);
      assert SingleActivation(AsWritten, s, steps) && AllStepsObey(steps);
      assert !StopsOwned(Run(AsWritten, s, steps).trace);
    }
  }

  /** A goal has just been sent while another one is pending. */
  predicate SentBeside(s: Sys, stale: GoalId, newer: GoalId) {
    && !s.faulted && s.node.status.Running? && !s.node.goalReceived && s.node.client.Some?
    && s.node.future == Some(newer)
    && Awaiting(s.peer, newer) && Pending(s.peer, stale) && stale != newer
    && Current(s.trace) == Some(newer) && OwnFeedback(s.trace).Running?
  }

  /** The verdict on the stale feedback is stored, the new goal is accepted but not taken. */
  predicate VerdictStored(s: Sys, newer: GoalId) {
    && !s.faulted && s.node.status.Running? && !s.node.goalReceived && s.node.client.Some?
    && s.node.future == Some(newer) && Accepted(s.peer, newer)
    && s.node.feedback == Failure && OwnFeedback(s.trace).Running?
  }

  lemma SendingBeside(s: Sys, stale: GoalId)
    requires Good(AsWritten, s) && s.node.status.Idle? && !s.faulted && Pending(s.peer, stale)
    ensures SentBeside(Exec(AsWritten, s, TickStep(PlainTick(s))), stale, s.peer.next)
  {
    var i, e := PlainTick(s), Elapse(s, 0);
    LedgerOk(s.trace);
    assert s.peer.(clock := 0) == Ledger(s.trace);
    assert Tick(AsWritten, s, i) == Activate(AsWritten, e.(node := EnsureClient(e.node, i).value), i);
    assert OwnFeedback(Begin(AsWritten, s).trace).Running?;
  }

  lemma StaleVerdictIsStored(s: Sys, stale: GoalId, newer: GoalId)
    requires SentBeside(s, stale, newer)
    ensures VerdictStored(Exec(AsWritten, s, StaleNews(newer, stale)), newer)
  {
    var ds := StaleNews(newer, stale).deliveries;
    var r0 := Deliver(AsWritten, s, ds[0]);
    var r1 := Deliver(AsWritten, r0.s, ds[1]);
    assert ds[1..][1..] == [ds[2]] && [ds[2]][1..] == [];
    assert Spin(AsWritten, s, ds) == Spin(AsWritten, r0.s, ds[1..]);
    assert Spin(AsWritten, r0.s, ds[1..]) == Spin(AsWritten, r1.s, [ds[2]]);
    assert Spin(AsWritten, r1.s, [ds[2]]) == Deliver(AsWritten, r1.s, ds[2]);
    assert Current(r1.s.trace) == Some(newer) && OwnFeedback(r1.s.trace).Running?;
  }

  lemma StaleVerdictStops(s: Sys, newer: GoalId)
    requires VerdictStored(s, newer)
    ensures !StopsOwned(Exec(AsWritten, s, TickStep(PlainTick(s))).trace)
  {
    var i, e := PlainTick(s), Elapse(s, 0);
    assert EnsureClient(e.node, i) == Some(e.node);
    assert Spins(AsWritten, e, i) == Res(e, Fine);
    var taken := Take(e.(node := e.node.(goalReceived := true)), newer);
    assert OwnFeedback(taken.trace).Running?;
    var asked := Log(taken, StoppedByFeedback(Failure));
    assert Tick(AsWritten, s, i) == Conclude(AsWritten, taken, i);
    CancelTrace(AsWritten, asked, NO_WAITS);
    CancelsKeepStops(asked.trace, CancelGoal(AsWritten, asked, NO_WAITS).s.trace);
  }

  lemma StaleFeedbackStops(s: Sys, stale: GoalId)
    requires Good(AsWritten, s) && s.node.status.Idle? && !s.faulted && Pending(s.peer, stale)
    ensures var steps := StaleFeedbackRun(s, stale);
            && SingleActivation(AsWritten, s, steps) && AllStepsObey(steps)
            && !StopsOwned(Run(AsWritten, s, steps).trace)
  {
    var steps := StaleFeedbackRun(s, stale);
    SendingBeside(s, stale);
    var s1 := Exec(AsWritten, s, steps[0]);
    StaleVerdictIsStored(s1, stale, s.peer.next);
    var s2 := Exec(AsWritten, s1, steps[1]);
    StaleVerdictStops(s2, s.peer.next);
    RunOfThree(AsWritten, s, steps[0], steps[1], steps[2]);
  }
}
