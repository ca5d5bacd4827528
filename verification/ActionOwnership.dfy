/**
  Result ownership: the results handed to onResultReceived, and to onFailure for an aborted or
  cancelled goal, are results of the goal sent in the current activation.
 */
module ActionOwnership {
  import opened Common
  import opened ActionNode
  import opened ActionSpins

  /** The result a terminal callback was given, if any. */
  function Shown(e: Event): Option<WrappedResult> {
    match e
    case Reported(r) => Some(r)
    case Failed(_, _, r) => r
    case _ => None
  }

  /** The handle of goal `g` has been taken out of its future. */
  predicate TookHandle(t: Trace, g: GoalId) {
    match t
    case Start => false
    case Then(past, e) => e == Took(g, true) || TookHandle(past, g)
  }

  /** The executor has delivered a result of goal `g`. */
  predicate ResultIn(t: Trace, g: GoalId) {
    match t
    case Start => false
    case Then(past, e) => (e.Delivered? && e.delivery.ResultMessage? && e.delivery.goal == g) || ResultIn(past, g)
  }

  /** `r` is the latest result delivered for its goal, and the handle was held when it came. */
  predicate DeliveredWhileHeld(t: Trace, r: WrappedResult) {
    match t
    case Start => false
    case Then(past, Delivered(ResultMessage(g, code))) =>
      if g == r.goal then code == r.code && TookHandle(past, g) else DeliveredWhileHeld(past, r)
    case Then(past, _) => DeliveredWhileHeld(past, r)
  }

  /**
    Every result shown to a callback is the one delivered for the goal that was current at that
    moment, and no goal has two results.
   */
  predicate Owned(t: Trace) {
    match t
    case Start => true
    case Then(past, e) =>
      && Owned(past)
      && (Shown(e).Some? ==> Current(past) == Some(Shown(e).value.goal) && DeliveredWhileHeld(past, Shown(e).value))
      && (e.Delivered? && e.delivery.ResultMessage? ==> !ResultIn(past, e.delivery.goal))
  }

  /** Nobody still owes this node the result of a goal whose handle it keeps. */
  predicate CleanStart(v: Variant, s: Sys) {
    v.Repaired? || s.node.handle.None? || s.node.handle.value !in s.peer.outstanding
  }

  /** Executing `step` begins an activation. */
  predicate Begins(s: Sys, step: Step) {
    step.TickStep? && !s.faulted && s.node.status.Idle?
  }

  predicate CleanRun(v: Variant, s: Sys, steps: seq<Step>)
    decreases steps
  {
    steps != [] ==>
      (Begins(s, steps[0]) ==> CleanStart(v, s)) && CleanRun(v, Exec(v, s, steps[0]), steps[1..])
  }

  // ---------- the invariant ----------

  predicate PeerOk(p: Peer) {
    && (forall g :: g in p.answers ==> g < p.next)
    && (forall g :: g in p.outstanding ==> Accepted(p, g))
  }

  ghost predicate Own(s: Sys) {
    && PeerOk(s.peer)
    && Owned(s.trace)
    && (forall g :: g in s.peer.outstanding || g !in s.peer.answers ==> !ResultIn(s.trace, g))
    && (s.node.handle.Some? ==>
          Accepted(s.peer, s.node.handle.value) && TookHandle(s.trace, s.node.handle.value))
    && (s.node.future.Some? ==> s.node.future.value < s.peer.next)
    && (s.node.status.Running? ==> OwnRunning(s))
  }

  predicate OwnRunning(s: Sys) {
    && (s.node.future.Some? ==>
          Current(s.trace) == s.node.future && s.node.handle != s.node.future && s.node.result.None?)
    && (s.node.handle.Some? ==> s.node.handle.value !in s.peer.outstanding || Current(s.trace) == s.node.handle)
    && (s.node.result.Some? ==>
          && s.node.handle == Some(s.node.result.value.goal)
          && Current(s.trace) == s.node.handle
          && DeliveredWhileHeld(s.trace, s.node.result.value))
  }

  lemma DeliverOwn(v: Variant, s: Sys, d: Delivery)
    requires Own(s)
    ensures Own(Deliver(v, s, d).s)
  {
  }

  lemma {:induction false} SpinOwn(v: Variant, s: Sys, ds: seq<Delivery>)
    requires Own(s)
    ensures Own(Spin(v, s, ds).s)
    decreases ds
  {
    if ds != [] {
      DeliverOwn(v, s, ds[0]);
      SpinOwn(v, Deliver(v, s, ds[0]).s, ds[1..]);
    }
  }

  lemma RequestCancelOwn(v: Variant, s: Sys, i: CancelInput)
    requires Own(s) && s.node.handle.Some?
    ensures Own(RequestCancel(v, s, i).s)
  {
    var asked := Elapse(Log(s, CancelRequested(s.node.handle.value)), Waited(s, i.cancelTook));
    SpinOwn(v, asked, i.forCancel);
    var r := Spin(v, asked, i.forCancel);
    SpinOwn(v, Elapse(r.s, Waited(r.s, i.resultTook)), i.forResult);
  }

  lemma CancelOwn(v: Variant, s: Sys, i: CancelInput)
    requires Own(s) && s.node.status.Running?
    ensures Own(CancelGoal(v, s, i).s)
  {
    if s.node.client.None? {
    } else if s.node.handle.Some? {
      RequestCancelOwn(v, s, i);
    } else if s.node.future.Some? {
      var g := s.node.future.value;
      var e := Elapse(s, Waited(s, i.responseTook));
      WaitIsSpin(v, e, i.forResponse, g);
      SpinOwn(v, e, UpTo(e.peer, i.forResponse, g));
      WaitFrame(v, e, i.forResponse, g);
      var r := SpinUntil(v, e, i.forResponse, g);
      if r.sig.Fine? && g in r.s.peer.answers && r.s.peer.answers[g] {
        RequestCancelOwn(v, Take(r.s, g), i);
      }
    }
  }

  lemma HaltOwn(v: Variant, s: Sys, i: CancelInput)
    requires Own(s)
    ensures Own(Halt(v, s, i).s)
  {
    if s.node.status.Running? {
      CancelOwn(v, s, i);
    }
  }

  lemma ConcludeOwn(v: Variant, s: Sys, i: TickInput)
    requires Own(s) && s.node.status.Running?
    ensures Own(Conclude(v, s, i).s) && Conclude(v, s, i).s.node.status.Running?
  {
    if !s.node.feedback.Running? {
      var asked := Log(s, StoppedByFeedback(s.node.feedback));
      CancelOwn(v, asked, i.cancel);
      CancelFrame(v, asked, i.cancel);
    }
  }

  lemma ContinueOwn(v: Variant, s: Sys, i: TickInput)
    requires Own(s) && s.node.status.Running?
    ensures Own(Continue(v, s, i).s) && Continue(v, s, i).s.node.status.Running?
  {
    var r1 := Spin(v, s, i.someSpin);
    SpinOwn(v, s, i.someSpin);
    SpinFrame(v, s, i.someSpin);
    var r := Spins(v, s, i);
    if r1.sig.Fine? && !r1.s.node.goalReceived && r1.s.node.future.Some? {
      var g := r1.s.node.future.value;
      WaitIsSpin(v, r1.s, i.futureSpin, g);
      SpinOwn(v, r1.s, UpTo(r1.s.peer, i.futureSpin, g));
      WaitFrame(v, r1.s, i.futureSpin, g);
    }
    if r.sig.Fine? {
      DecidedOwn(v, r.s, i);
    }
  }

  lemma DecidedOwn(v: Variant, s: Sys, i: TickInput)
    requires Own(s) && s.node.status.Running?
    ensures Own(Decided(v, s, i).s) && Decided(v, s, i).s.node.status.Running?
  {
    if s.node.goalReceived || s.node.future.None? {
      ConcludeOwn(v, s, i);
    } else if s.node.future.value in s.peer.answers {
      var taken := Take(s.(node := s.node.(goalReceived := true)), s.node.future.value);
      if taken.node.handle.Some? {
        ConcludeOwn(v, taken, i);
      }
    }
  }

  lemma ActivateOwn(v: Variant, s: Sys, i: TickInput)
    requires Own(s) && CleanStart(v, s)
    ensures Own(Activate(v, s, i).s)
  {
  }

  /** Storing a status keeps the invariant, unless RUNNING is stored into an idle node. */
  lemma SettleOwn(s: Sys, sig: Signal, status: NodeStatus)
    requires Own(s) && (sig.Fine? && status.Running? ==> s.node.status.Running?)
    ensures Own(Settle(s, sig, status))
  {
  }

  lemma EnsureClientOwn(v: Variant, s: Sys, i: TickInput)
    requires Own(s) && EnsureClient(s.node, i).Some?
    ensures var t := s.(node := EnsureClient(s.node, i).value);
            Own(t) && t.node.status == s.node.status && (CleanStart(v, s) ==> CleanStart(v, t))
  {
  }

  lemma TickOwn(v: Variant, s: Sys, i: TickInput)
    requires Own(s) && (s.node.status.Idle? ==> CleanStart(v, s))
    requires s.node.status.Idle? || s.node.status.Running?
    ensures Own(Tick(v, s, i).s)
    ensures Tick(v, s, i).sig.Fine? && Tick(v, s, i).status.Running? ==> Tick(v, s, i).s.node.status.Running?
  {
    var e := Elapse(s, i.elapsed);
    if !i.rosOk {
      HaltOwn(v, e, i.cancel);
    } else if EnsureClient(e.node, i).Some? {
      EnsureClientOwn(v, e, i);
      var t := e.(node := EnsureClient(e.node, i).value);
      if t.node.status.Idle? {
        ActivateOwn(v, t, i);
      } else {
        ContinueOwn(v, t, i);
      }
    }
  }

  lemma ExecOwn(v: Variant, s: Sys, step: Step)
    requires Own(s) && (Begins(s, step) ==> CleanStart(v, s))
    ensures Own(Exec(v, s, step))
  {
    if s.faulted { return; }
    match step
    case TickStep(i) =>
      if s.node.status.Idle? || s.node.status.Running? {
        TickOwn(v, s, i);
        var r := Tick(v, s, i);
        SettleOwn(r.s, r.sig, r.status);
      }
    case HaltStep(i) =>
      HaltOwn(v, s, i);
      SettleOwn(Halt(v, s, i).s, Halt(v, s, i).sig, Idle);
    case OtherSpin(ds) =>
      SpinOwn(v, s, ds);
      SpinFrame(v, s, ds);
      SettleOwn(Spin(v, s, ds).s, Spin(v, s, ds).sig, s.node.status);
    case Rename(_, _) =>
  }

  lemma {:induction false} RunOwn(v: Variant, s: Sys, steps: seq<Step>)
    requires Own(s) && CleanRun(v, s, steps)
    ensures Own(Run(v, s, steps))
    decreases steps
  {
    if steps != [] {
      ExecOwn(v, s, steps[0]);
      RunOwn(v, Exec(v, s, steps[0]), steps[1..]);
    }
  }

  // ---------- main results ----------

  /** Over every run from a new node in which each activation starts clean, ownership holds. */
  lemma OwnershipOfCleanRuns(v: Variant, s: Sys, steps: seq<Step>)
    requires Initial(s) && CleanRun(v, s, steps)
    ensures Owned(Run(v, s, steps).trace)
  {
    RunOwn(v, s, steps);
  }

  lemma {:induction false} RepairedRunsAreClean(s: Sys, steps: seq<Step>)
    ensures CleanRun(Repaired, s, steps)
    decreases steps
  {
    if steps != [] {
      RepairedRunsAreClean(Exec(Repaired, s, steps[0]), steps[1..]);
    }
  }

  /** The repaired node owns its results over every run whatsoever. */
  lemma RepairedOwnership(s: Sys, steps: seq<Step>)
    requires Initial(s)
    ensures Owned(Run(Repaired, s, steps).trace)
  {
    RepairedRunsAreClean(s, steps);
    OwnershipOfCleanRuns(Repaired, s, steps);
  }

  /** At most the first step of the run begins an activation. */
  predicate SingleActivation(v: Variant, s: Sys, steps: seq<Step>) {
    steps != [] ==> Quiet(v, Exec(v, s, steps[0]), steps[1..])
  }

  predicate Quiet(v: Variant, s: Sys, steps: seq<Step>)
    decreases steps
  {
    steps != [] ==> !Begins(s, steps[0]) && Quiet(v, Exec(v, s, steps[0]), steps[1..])
  }

  lemma {:induction false} QuietRunsAreClean(v: Variant, s: Sys, steps: seq<Step>)
    requires Quiet(v, s, steps)
    ensures CleanRun(v, s, steps)
    decreases steps
  {
    if steps != [] {
      QuietRunsAreClean(v, Exec(v, s, steps[0]), steps[1..]);
    }
  }

  const NO_WAITS: CancelInput := CancelInput([], 0, [], 0, [], 0)

  /** A tick in which every callback succeeds and the port names the client in use. */
  function PlainTick(s: Sys): TickInput {
    var port := if s.node.client.Some? then s.node.name else if s.node.name == "a" then "b" else "a";
    TickInput(true, true, port, true, true, Success, Success, 0, [], [], NO_WAITS)
  }

  /** The stale goal's result arrives after the new activation has begun, then the new goal is accepted. */
  function LateResultRun(s: Sys, stale: GoalId): seq<Step> {
    var messages := OtherSpin([ResultMessage(stale, Succeeded), GoalResponse(s.peer.next, true)]);
    var s2 := Exec(AsWritten, Exec(AsWritten, s, TickStep(PlainTick(s))), messages);
    [TickStep(PlainTick(s)),
     messages,
     TickStep(PlainTick(s2))]
  }

  /** As written, a clean start is exactly what an activation needs for ownership. */
  lemma CleanStartIsExact(s: Sys)
    requires Own(s) && s.node.status.Idle? && !s.faulted
    ensures CleanStart(AsWritten, s) <==>
            forall steps :: SingleActivation(AsWritten, s, steps) ==> Owned(Run(AsWritten, s, steps).trace)
  {
    if CleanStart(AsWritten, s) {
      forall steps | SingleActivation(AsWritten, s, steps) ensures Owned(Run(AsWritten, s, steps).trace) {
        if steps != [] {
          QuietRunsAreClean(AsWritten, Exec(AsWritten, s, steps[0]), steps[1..]);
        }
        RunOwn(AsWritten, s, steps);
      }
    } else {
      LateResultBreaksOwnership(s);
      var steps := LateResultRun(s, s.node.handle.value);
      assert SingleActivation(AsWritten, s, steps) && !Owned(Run(AsWritten, s, steps).trace);
    }
  }

  /** A goal has just been sent while the handle of an older one, with its result due, is kept. */
  predicate SentOverStale(s: Sys, stale: GoalId, newer: GoalId) {
    && !s.faulted && s.node.status.Running? && !s.node.goalReceived && s.node.client.Some?
    && s.node.future == Some(newer) && s.node.handle == Some(stale) && s.node.feedback.Running?
    && Awaiting(s.peer, newer) && stale in s.peer.outstanding && stale != newer
    && Current(s.trace) == Some(newer)
  }

  /** Both messages are in: the stale result is stored, the new goal is accepted but not taken. */
  predicate StaleStored(s: Sys, stale: GoalId, newer: GoalId) {
    && !s.faulted && s.node.status.Running? && !s.node.goalReceived && s.node.client.Some?
    && s.node.future == Some(newer) && s.node.feedback.Running?
    && Accepted(s.peer, newer) && stale != newer
    && s.node.result == Some(WrappedResult(stale, Succeeded))
    && Current(s.trace) == Some(newer)
  }

  lemma LateResultIsStored(s: Sys, stale: GoalId, newer: GoalId)
    requires SentOverStale(s, stale, newer)
    ensures StaleStored(Exec(AsWritten, s, OtherSpin([ResultMessage(stale, Succeeded), GoalResponse(newer, true)])),
                        stale, newer)
  {
    var ds := [ResultMessage(stale, Succeeded), GoalResponse(newer, true)];
    var r := Deliver(AsWritten, s, ds[0]);
    assert Spin(AsWritten, s, ds) == Spin(AsWritten, r.s, ds[1..]);
    assert Spin(AsWritten, r.s, ds[1..]) == Deliver(AsWritten, r.s, ds[1]);
  }

  lemma StaleResultIsReported(s: Sys, stale: GoalId, newer: GoalId)
    requires StaleStored(s, stale, newer)
    ensures var t := Exec(AsWritten, s, TickStep(PlainTick(s)));
            t.trace.Then? && t.trace.last == Reported(WrappedResult(stale, Succeeded)) &&
            Current(t.trace.past) == Some(newer)
  {
    var i := PlainTick(s);
    var e := Elapse(s, 0);
    assert EnsureClient(e.node, i) == Some(e.node);
    assert Spins(AsWritten, e, i) == Res(e, Fine);
    var taken := Take(e.(node := e.node.(goalReceived := true)), newer);
    assert Tick(AsWritten, s, i) == Conclude(AsWritten, taken, i);
  }

  lemma SendingOverStale(s: Sys)
    requires Own(s) && s.node.status.Idle? && !s.faulted && !CleanStart(AsWritten, s)
    ensures SentOverStale(Exec(AsWritten, s, TickStep(PlainTick(s))), s.node.handle.value, s.peer.next)
  {
    var i := PlainTick(s);
    var e := Elapse(s, 0);
    var n := EnsureClient(e.node, i).value;
    assert Tick(AsWritten, s, i) == Activate(AsWritten, e.(node := n), i);
  }

  lemma RunOfThree(v: Variant, s: Sys, a: Step, b: Step, c: Step)
    ensures Run(v, s, [a, b, c]) == Exec(v, Exec(v, Exec(v, s, a), b), c)
    ensures !Begins(Exec(v, s, a), b) && !Begins(Exec(v, Exec(v, s, a), b), c) ==>
              SingleActivation(v, s, [a, b, c])
  {
    assert [a, b, c][1..] == [b, c] && [b, c][1..] == [c] && [c][1..] == [];
    assert Run(v, Exec(v, s, a), [b, c]) == Run(v, Exec(v, Exec(v, s, a), b), [c]);
    assert Run(v, Exec(v, Exec(v, s, a), b), [c]) == Run(v, Exec(v, Exec(v, Exec(v, s, a), b), c), []);
    assert Quiet(v, Exec(v, Exec(v, s, a), b), [c]) <==> !Begins(Exec(v, Exec(v, s, a), b), c);
  }

  lemma LateResultBreaksOwnership(s: Sys)
    requires Own(s) && s.node.status.Idle? && !s.faulted && !CleanStart(AsWritten, s)
    ensures var steps := LateResultRun(s, s.node.handle.value);
            SingleActivation(AsWritten, s, steps) && !Owned(Run(AsWritten, s, steps).trace)
  {
    var stale, newer := s.node.handle.value, s.peer.next;
    var first := TickStep(PlainTick(s));
    var messages := OtherSpin([ResultMessage(stale, Succeeded), GoalResponse(newer, true)]);
    SendingOverStale(s);
    var s1 := Exec(AsWritten, s, first);
    LateResultIsStored(s1, stale, newer);
    var s2 := Exec(AsWritten, s1, messages);
    var last := TickStep(PlainTick(s2));
    StaleResultBreaksOwnership(s2, stale, newer);
    RunOfThree(AsWritten, s, first, messages, last);
    assert LateResultRun(s, stale) == [first, messages, last];
  }

  lemma StaleResultBreaksOwnership(s: Sys, stale: GoalId, newer: GoalId)
    requires StaleStored(s, stale, newer)
    ensures !Owned(Exec(AsWritten, s, TickStep(PlainTick(s))).trace)
  {
    StaleResultIsReported(s, stale, newer);
  }

  /** At some point a result of `g` came in before the handle of `g` was taken. */
  predicate CameEarly(t: Trace, g: GoalId) {
    match t
    case Start => false
    case Then(past, e) =>
      CameEarly(past, g) ||
      (e.Delivered? && e.delivery.ResultMessage? && e.delivery.goal == g && !TookHandle(past, g))
  }

  predicate NeverShown(t: Trace, g: GoalId) {
    match t
    case Start => true
    case Then(past, e) => NeverShown(past, g) && (Shown(e).Some? ==> Shown(e).value.goal != g)
  }

  /** A result that comes in before the node holds the goal's handle is lost for good. */
  lemma {:induction false} EarlyResultIsLost(t: Trace, g: GoalId)
    requires Owned(t) && CameEarly(t, g)
    ensures NeverShown(t, g)
  {
    var past, e := t.past, t.last;
    if CameEarly(past, g) {
      EarlyResultIsLost(past, g);
      EarlyMeansNotHeld(past, g);
    } else {
      UnseenMeansNotShown(past, g);
    }
  }

  lemma {:induction false} EarlyMeansNotHeld(t: Trace, g: GoalId)
    requires Owned(t) && CameEarly(t, g)
    ensures ResultIn(t, g) && forall r :: DeliveredWhileHeld(t, r) ==> r.goal != g
  {
    if CameEarly(t.past, g) {
      EarlyMeansNotHeld(t.past, g);
    }
  }

  lemma {:induction false} UnseenMeansNotShown(t: Trace, g: GoalId)
    requires Owned(t) && !ResultIn(t, g)
    ensures NeverShown(t, g) && forall r :: DeliveredWhileHeld(t, r) ==> r.goal != g
  {
    if t.Then? {
      UnseenMeansNotShown(t.past, g);
    }
  }
}
