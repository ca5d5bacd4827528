/**
  What RosActionNode does at its interfaces, told by the members before a step and its inputs: when
  an unanswered goal times out, which action a goal goes to, what an activation reports, what a halt
  and a shutdown do, and how the verdicts of the callbacks are taken.
 */
module ActionLaws {
  import opened Common
  import opened ActionNode
  import ActionAccounting
  import opened ActionSpins
  import opened ActionOwnership
  import opened ActionRuns

  // ---------- the acceptance timeout ----------

  /** The time that passes in a run without halts. */
  function Duration(steps: seq<Step>): nat {
    if steps == [] then 0
    else (if steps[0].TickStep? then steps[0].input.elapsed else 0) + Duration(steps[1..])
  }

  /** The step from `s` to `t` has begun an activation and sent its goal. */
  predicate SendsGoal(s: Sys, t: Sys) {
    t.trace != s.trace && t.trace.Then? && t.trace.last.Sent? && t.trace.past == Then(s.trace, SetGoal)
  }

  function Length(t: Trace): nat {
    if t.Start? then 0 else Length(t.past) + 1
  }

  lemma TwoMore(t: Trace, a: Event, b: Event)
    ensures Then(Then(t, a), b) != t
  {
    assert Length(Then(Then(t, a), b)) == Length(Then(t, a)) + 1 == Length(t) + 2;
  }

  /** Acceptance timeouts reported for goal `g`. */
  function TimeoutReports(t: Trace, g: GoalId): nat {
    match t
    case Start => 0
    case Then(past, Failed(SendGoalTimeout, pending, _)) =>
      TimeoutReports(past, g) + if pending == Some(g) then 1 else 0
    case Then(past, _) => TimeoutReports(past, g)
  }

  lemma {:induction false} DeliveredReportNothing(early: Trace, late: Trace, g: GoalId)
    requires OnlyDelivered(early, late)
    ensures TimeoutReports(late, g) == TimeoutReports(early, g)
  {
    if late != early {
      DeliveredReportNothing(early, late.past, g);
    }
  }

  /** A goal is sent at the time of its tick. */
  lemma SentNow(v: Variant, s: Sys, i: TickInput)
    requires !s.faulted && s.node.status.Idle? && SendsGoal(s, Exec(v, s, TickStep(i)))
    ensures var t := Exec(v, s, TickStep(i));
            && t.trace.last.at == t.peer.clock == t.node.timeSent == s.peer.clock + i.elapsed
            && t.node.future == Some(t.trace.last.goal)
            && t.trace.last.goal == s.peer.next && t.peer.next == s.peer.next + 1
            && t.node.timeoutMs == s.node.timeoutMs && Unaccepted(t) && t.node.client.Some? && !t.faulted
            && t.peer.answers == s.peer.answers
  {
  }

  lemma {:induction false} WaitingKeepsTime(v: Variant, s: Sys, steps: seq<Step>)
    requires Waits(v, s, steps) && AllStepsObey(steps)
    ensures var t := Run(v, s, steps);
            && Waits(v, t, [])
            && t.peer.clock == s.peer.clock + Duration(steps)
            && t.node.timeSent == s.node.timeSent && t.node.timeoutMs == s.node.timeoutMs
            && t.node.future == s.node.future
    decreases steps
  {
    if steps != [] {
      var step := steps[0];
      assert step in steps;
      WaitingKeepsTime(v, Exec(v, s, step), steps[1..]);
      if step.TickStep? {
        if step.input.rosOk {
          UnacceptedTickIsEarly(v, s, step.input);
        } else {
          CancelFrame(v, Elapse(s, step.input.elapsed), step.input.cancel);
        }
      } else if step.OtherSpin? {
        SpinFrame(v, s, step.deliveries);
      }
    }
  }

  /** A tick that waits for the response: it reports the timeout exactly when unanswered and late. */
  lemma UnansweredTick(v: Variant, s: Sys, j: TickInput, g: GoalId)
    requires Waits(v, s, []) && s.node.future == Some(g) && j.rosOk && TickObeys(j)
    ensures var w := Exec(v, s, TickStep(j));
            var late := s.peer.clock + j.elapsed - s.node.timeSent > s.node.timeoutMs * 1_000_000;
            w.faulted ||
            var unanswered := AnswerTo(s.peer, Heard(s, j), g).None?;
            (&& (TimeoutReports(w.trace, g) > TimeoutReports(s.trace, g) <==> unanswered && late)
             && (unanswered ==> w.node.status == if late then j.onFailure else Running))
  {
    var e := Elapse(s, j.elapsed);
    RunningTick(v, s, j);
    SpinsIsSpin(v, e, j);
    HeardDepends(s, j.elapsed, j);
    HeardObeys(e, j);
    SpinFrame(v, e, Heard(e, j));
    var h := Spins(v, e, j);
    DeliveredReportNothing(s.trace, h.s.trace, g);
    if h.sig.Fine? {
      SpinAnswers(v, e, Heard(e, j), g);
      if g in h.s.peer.answers {
        ReceivedIsAccepted(v, h.s, g, j);
        ReceiveReportsNothing(v, h.s, g, j);
      }
    }
  }

  lemma ReceiveReportsNothing(v: Variant, s: Sys, g: GoalId, i: TickInput)
    requires g in s.peer.answers && s.node.client.Some?
    ensures TimeoutReports(Receive(v, s, g, i).s.trace, g) == TimeoutReports(s.trace, g)
  {
    var taken := Take(s.(node := s.node.(goalReceived := true)), g);
    assert TimeoutReports(taken.trace, g) == TimeoutReports(s.trace, g);
    if taken.node.handle.Some? && !taken.node.feedback.Running? {
      var asked := Log(taken, StoppedByFeedback(taken.node.feedback));
      RequestCancelFrame(v, asked, i.cancel);
      var c := Then(asked.trace, CancelRequested(taken.node.handle.value));
      assert TimeoutReports(c, g) == TimeoutReports(asked.trace, g) == TimeoutReports(taken.trace, g);
      DeliveredReportNothing(c, Receive(v, s, g, i).s.trace, g);
    }
  }

  /**
    Over runs: counted from the tick that sends, an activation that is still unaccepted reports
    SEND_GOAL_TIMEOUT at a tick exactly when no response is in by then and the time that has passed
    exceeds the timeout; unanswered and in time it stays RUNNING.
   */
  lemma TimeoutIsExact(v: Variant, s: Sys, i: TickInput, steps: seq<Step>, j: TickInput)
    requires !s.faulted && s.node.status.Idle? && SendsGoal(s, Exec(v, s, TickStep(i)))
    requires Waits(v, Exec(v, s, TickStep(i)), steps) && AllStepsObey(steps) && TickObeys(j) && j.rosOk
    ensures var g := s.peer.next;
            var u := Run(v, Exec(v, s, TickStep(i)), steps);
            var w := Exec(v, u, TickStep(j));
            var late := Duration(steps) + j.elapsed > s.node.timeoutMs * 1_000_000;
            w.faulted ||
            var unanswered := AnswerTo(u.peer, Heard(u, j), g).None?;
            (&& (TimeoutReports(w.trace, g) > TimeoutReports(u.trace, g) <==> unanswered && late)
             && (unanswered ==> w.node.status == if late then j.onFailure else Running))
  {
    SentNow(v, s, i);
    var t := Exec(v, s, TickStep(i));
    WaitingKeepsTime(v, t, steps);
    UnansweredTick(v, Run(v, t, steps), j, s.peer.next);
  }

  /** cancelGoal takes as long as its waits, each cut off at the timeout. */
  lemma CancelDuration(v: Variant, s: Sys, i: CancelInput)
    requires s.node.client.Some? && CancelObeys(i)
    ensures var r := CancelGoal(v, s, i);
            var limit := s.node.timeoutMs * 1_000_000;
            var cancelling := Min(i.cancelTook, limit) + Min(i.resultTook, limit);
            && (s.node.handle.Some? ==> r.s.peer.clock == s.peer.clock + cancelling)
            && (s.node.handle.None? && s.node.future.None? ==> r == Res(s, Fine))
            && (s.node.handle.None? && s.node.future.Some? && r.sig.Fine? ==>
                  var accepted := AnswerTo(s.peer, i.forResponse, s.node.future.value) == Some(true);
                  r.s.peer.clock == s.peer.clock + Min(i.responseTook, limit) + if accepted then cancelling else 0)
  {
    if s.node.handle.Some? {
      RequestDuration(v, s, i);
    } else if s.node.future.Some? {
      var g := s.node.future.value;
      var e := Elapse(s, Waited(s, i.responseTook));
      WaitFrame(v, e, i.forResponse, g);
      WaitIsSpin(v, e, i.forResponse, g);
      var r := SpinUntil(v, e, i.forResponse, g);
      if r.sig.Fine? {
        SpinAnswers(v, e, UpTo(e.peer, i.forResponse, g), g);
        UpToKeepsAnswer(e.peer, i.forResponse, g);
        if g in r.s.peer.answers && r.s.peer.answers[g] {
          RequestDuration(v, Take(r.s, g), i);
        }
      }
    }
  }

  lemma RequestDuration(v: Variant, s: Sys, i: CancelInput)
    requires s.node.handle.Some? && CancelObeys(i)
    ensures var limit := s.node.timeoutMs * 1_000_000;
            RequestCancel(v, s, i).s.peer.clock == s.peer.clock + Min(i.cancelTook, limit) + Min(i.resultTook, limit)
  {
    var asked := Elapse(Log(s, CancelRequested(s.node.handle.value)), Waited(s, i.cancelTook));
    SpinFrame(v, asked, i.forCancel);
    var r := Spin(v, asked, i.forCancel);
    SpinFrame(v, Elapse(r.s, Waited(r.s, i.resultTook)), i.forResult);
  }

  // ---------- the name in the port ----------

  /** The tick makes a client for the name in the port: there is none yet, or the name is read at each start. */
  predicate AsksForPort(n: Node, i: TickInput) {
    (n.client.None? || (n.status.Idle? && n.nameChecked)) && n.name != i.port
  }

  /** After the check of the port the node has a client; otherwise the tick throws. */
  predicate GetsClient(n: Node, i: TickInput) {
    if AsksForPort(n, i) then i.port != "" && i.rosNodeAlive else n.client.Some?
  }

  /** Which client the node has and which name it remembers after a step. */
  lemma ClientAfterStep(v: Variant, s: Sys, step: Step)
    requires !s.faulted && (s.node.status.Running? ==> s.node.client.Some?)
    ensures var t := Exec(v, s, step);
            match step
            case TickStep(i) =>
              var ticked := i.rosOk && (s.node.status.Idle? || s.node.status.Running?);
              if ticked && AsksForPort(s.node, i) && GetsClient(s.node, i)
              then t.node.client == Some(i.port) && t.node.name == i.port
              else t.node.client == s.node.client && t.node.name == s.node.name
            case Rename(name, alive) =>
              t.node.name == name && t.node.client == if name != "" && alive then Some(name) else s.node.client
            case _ => t.node.client == s.node.client && t.node.name == s.node.name
  {
    match step
    case TickStep(i) =>
      var e := Elapse(s, i.elapsed);
      if !i.rosOk {
        HaltKeepsName(v, e, i.cancel);
      } else if s.node.status.Running? {
        RunningTick(v, s, i);
        ContinueKeepsName(v, e, i);
      }
    case HaltStep(i) => HaltKeepsName(v, s, i);
    case OtherSpin(ds) => SpinKeepsName(v, s, ds);
    case Rename(_, _) =>
  }

  predicate SameName(m: Node, n: Node) {
    n.client == m.client && n.name == m.name && n.nameChecked == m.nameChecked
  }

  lemma {:induction false} SpinKeepsName(v: Variant, s: Sys, ds: seq<Delivery>)
    ensures SameName(s.node, Spin(v, s, ds).s.node)
    decreases ds
  {
    if ds != [] {
      SpinKeepsName(v, Deliver(v, s, ds[0]).s, ds[1..]);
    }
  }

  lemma RequestKeepsName(v: Variant, s: Sys, i: CancelInput)
    requires s.node.handle.Some?
    ensures SameName(s.node, RequestCancel(v, s, i).s.node)
  {
    var asked := Elapse(Log(s, CancelRequested(s.node.handle.value)), Waited(s, i.cancelTook));
    SpinKeepsName(v, asked, i.forCancel);
    var r := Spin(v, asked, i.forCancel);
    SpinKeepsName(v, Elapse(r.s, Waited(r.s, i.resultTook)), i.forResult);
  }

  lemma CancelKeepsName(v: Variant, s: Sys, i: CancelInput)
    ensures SameName(s.node, CancelGoal(v, s, i).s.node)
  {
    if s.node.client.None? {
    } else if s.node.handle.Some? {
      RequestKeepsName(v, s, i);
    } else if s.node.future.Some? {
      var g := s.node.future.value;
      var e := Elapse(s, Waited(s, i.responseTook));
      WaitIsSpin(v, e, i.forResponse, g);
      SpinKeepsName(v, e, UpTo(e.peer, i.forResponse, g));
      var r := SpinUntil(v, e, i.forResponse, g);
      if r.sig.Fine? && g in r.s.peer.answers && r.s.peer.answers[g] {
        RequestKeepsName(v, Take(r.s, g), i);
      }
    }
  }

  lemma HaltKeepsName(v: Variant, s: Sys, i: CancelInput)
    ensures SameName(s.node, Halt(v, s, i).s.node)
  {
    CancelKeepsName(v, s, i);
  }

  lemma ConcludeKeepsName(v: Variant, s: Sys, i: TickInput)
    ensures SameName(s.node, Conclude(v, s, i).s.node)
  {
    CancelKeepsName(v, Log(s, StoppedByFeedback(s.node.feedback)), i.cancel);
  }

  lemma ContinueKeepsName(v: Variant, s: Sys, i: TickInput)
    ensures SameName(s.node, Continue(v, s, i).s.node)
  {
    SpinKeepsName(v, s, i.someSpin);
    var r := Spin(v, s, i.someSpin).s;
    if r.node.future.Some? {
      WaitIsSpin(v, r, i.futureSpin, r.node.future.value);
      SpinKeepsName(v, r, UpTo(r.peer, i.futureSpin, r.node.future.value));
    }
    var h := Spins(v, s, i);
    if h.sig.Fine? {
      if h.s.node.goalReceived || h.s.node.future.None? {
        ConcludeKeepsName(v, h.s, i);
      } else if h.s.node.future.value in h.s.peer.answers {
        ConcludeKeepsName(v, Take(h.s.(node := h.s.node.(goalReceived := true)), h.s.node.future.value), i);
      }
    }
  }

  /** Goals are sent by the first tick of an activation only, and to the client the node then has. */
  lemma GoalGoesToClient(v: Variant, s: Sys, step: Step)
    requires !s.faulted && Exec(v, s, step).peer.next != s.peer.next
    ensures var t := Exec(v, s, step);
            && step.TickStep? && s.node.status.Idle? && SendsGoal(s, t)
            && t.trace.last.to == t.node.client
            && t.trace.last.to == if AsksForPort(s.node, step.input) then Some(step.input.port) else s.node.client
  {
    match step
    case TickStep(i) =>
      var e := Elapse(s, i.elapsed);
      if !i.rosOk {
        CancelFrame(v, e, i.cancel);
      } else if s.node.status.Running? && EnsureClient(e.node, i).Some? {
        ContinueSendsNothing(v, e.(node := EnsureClient(e.node, i).value), i);
      } else {
        TwoMore(s.trace, SetGoal, Exec(v, s, step).trace.last);
      }
    case HaltStep(i) => CancelFrame(v, s, i);
    case OtherSpin(ds) => SpinFrame(v, s, ds);
    case Rename(_, _) =>
  }

  lemma ContinueSendsNothing(v: Variant, s: Sys, i: TickInput)
    ensures Continue(v, s, i).s.peer.next == s.peer.next
  {
    SpinFrame(v, s, i.someSpin);
    var r := Spin(v, s, i.someSpin).s;
    if r.node.future.Some? {
      WaitFrame(v, r, i.futureSpin, r.node.future.value);
    }
    if Spins(v, s, i).sig.Fine? {
      ActionAccounting.DecidedFrame(v, Spins(v, s, i).s, i);
    }
  }

  /** Every rename of the run succeeds, as far as the name and the ROS node are concerned. */
  predicate RenamesSucceed(steps: seq<Step>) {
    forall step | step in steps :: step.Rename? ==> step.name != "" && step.rosNodeAlive
  }

  predicate NameIsClient(n: Node) {
    n.client.Some? ==> n.client.value == n.name
  }

  lemma {:induction false} NamesAgree(v: Variant, s: Sys, steps: seq<Step>)
    requires !s.faulted && InPhase(s) && NameIsClient(s.node) && AllStepsObey(steps) && RenamesSucceed(steps)
    ensures var t := Run(v, s, steps); NameIsClient(t.node) && (t.faulted || InPhase(t))
    decreases steps
  {
    if steps != [] {
      assert steps[0] in steps;
      ClientAfterStep(v, s, steps[0]);
      ExecPhase(v, s, steps[0]);
      var t := Exec(v, s, steps[0]);
      if t.faulted {
        FaultedStays(v, t, steps[1..]);
      } else {
        NamesAgree(v, t, steps[1..]);
      }
    }
  }

  /**
    Over every run from a constructed node in which renames succeed: a node whose name is read at
    each start sends to the action its port names at that tick; any other node sends to the client
    it has, and only a node without one takes the name from the port.
   */
  lemma GoalsFollowPort(v: Variant, s0: Sys, steps: seq<Step>, i: TickInput)
    requires Initial(s0) && NameIsClient(s0.node) && AllStepsObey(steps) && RenamesSucceed(steps)
    requires var s := Run(v, s0, steps); !s.faulted && Exec(v, s, TickStep(i)).peer.next != s.peer.next
    ensures var s := Run(v, s0, steps);
            SendsGoal(s, Exec(v, s, TickStep(i))) &&
            var to := Exec(v, s, TickStep(i)).trace.last.to;
            && (s.node.nameChecked ==> to == Some(i.port))
            && (!s.node.nameChecked ==> to == if s.node.client.Some? then s.node.client else Some(i.port))
  {
    NamesAgree(v, s0, steps);
    var s := Run(v, s0, steps);
    GoalGoesToClient(v, s, TickStep(i));
  }

  /** The constructor: the static name of the port, else the default, else no client; and when it throws. */
  lemma ConstructorChoice(timeoutMs: nat, port: PortText, default: string, rosNodeAlive: bool)
    ensures var made := Constructed(timeoutMs, port, default, rosNodeAlive);
            var wanted := if port.Static? && port.name != "" then port.name else default;
            && (made.None? <==> wanted != "" && !rosNodeAlive)
            && (made.Some? ==>
                  && made.value.client == (if wanted != "" then Some(wanted) else None)
                  && made.value.name == wanted && NameIsClient(made.value)
                  && made.value.nameChecked == port.Pointer? && made.value.timeoutMs == timeoutMs)
  {
  }

  // ---------- what an activation, a shutdown and a halt report ----------

  /** The first tick of an activation: what it calls, in order, and the status it leaves. */
  lemma FirstTick(v: Variant, s: Sys, i: TickInput)
    requires !s.faulted && s.node.status.Idle? && i.rosOk
    ensures var t := Exec(v, s, TickStep(i));
            var began := Then(s.trace, SetGoal);
            if !GetsClient(s.node, i) then t.trace == s.trace && t.node.status.Idle?
            else if !i.goalSet then
              && t.trace == Then(began, Failed(InvalidGoal, None, None))
              && t.node.status == if i.onFailure.Completed() then i.onFailure else Running
            else if !i.serverReady then
              t.trace == Then(began, Failed(ServerUnreachable, None, None)) && t.node.status == i.onFailure
            else SendsGoal(s, t) && t.node.status.Running?
  {
    TwoMore(s.trace, SetGoal, Sent(s.peer.next, s.peer.clock + i.elapsed, Exec(v, s, TickStep(i)).node.client));
  }

  /** After a shutdown a tick is a halt that ends with FAILURE. */
  lemma ShutdownFails(v: Variant, s: Sys, i: TickInput)
    requires !s.faulted && InPhase(s) && CancelObeys(i.cancel) && !i.rosOk
    requires s.node.status.Idle? || s.node.status.Running?
    ensures var t, h := Exec(v, s, TickStep(i)), Exec(v, Elapse(s, i.elapsed), HaltStep(i.cancel));
            t.trace == h.trace && t.peer == h.peer && t.faulted == h.faulted && (!t.faulted ==> t.node.status.Failure?)
  {
    CancelFrame(v, Elapse(s, i.elapsed), i.cancel);
  }

  /** onHalt is called once, after cancelGoal, exactly when the node was RUNNING; then the node is IDLE. */
  lemma HaltCallsOnHalt(v: Variant, s: Sys, i: CancelInput)
    requires !s.faulted && InPhase(s) && CancelObeys(i)
    ensures var t := Exec(v, s, HaltStep(i));
            t.faulted ||
            (&& t.node.status.Idle?
             && Halts(t.trace) == Halts(s.trace) + (if s.node.status.Running? then 1 else 0)
             && (if s.node.status.Running? then t.trace.Then? && t.trace.last.Halted? else t.trace == s.trace))
  {
    if s.node.status.Running? {
      CancelTrace(v, s, i);
      CancelsCallNoHalt(s.trace, CancelGoal(v, s, i).s.trace);
    }
  }

  lemma {:induction false} CancelsCallNoHalt(early: Trace, late: Trace)
    requires OnlyCancels(early, late)
    ensures Halts(late) == Halts(early)
  {
    if late != early {
      CancelsCallNoHalt(early, late.past);
    }
  }

  /** Calls of onHalt. */
  function Halts(t: Trace): nat {
    match t
    case Start => 0
    case Then(past, Halted) => Halts(past) + 1
    case Then(past, _) => Halts(past)
  }

  // ---------- the verdicts of the callbacks ----------

  /** How the status follows from the verdict of the callback `e`: only SERVER_UNREACHABLE is taken unchecked. */
  predicate TakesVerdict(e: Event, i: TickInput, status: NodeStatus) {
    && (e.Reported? ==> status == if i.onResult.Completed() then i.onResult else Running)
    && (e.Failed? ==> status == if e.error.ServerUnreachable? || i.onFailure.Completed() then i.onFailure else Running)
  }

  lemma CancelEndsWithoutCallback(v: Variant, s: Sys, i: CancelInput)
    requires s.node.client.Some?
    ensures var t := CancelGoal(v, s, i).s.trace; t == s.trace || (t.Then? && OfCancel(t.last))
  {
    CancelTrace(v, s, i);
  }

  lemma ConcludeTakesVerdict(v: Variant, s: Sys, i: TickInput)
    requires s.node.client.Some? && s.node.status.Running? && s.trace.Then?
    ensures var r := Conclude(v, s, i);
            && r.s.trace.Then? && r.s.node.status.Running?
            && (r.s.trace == s.trace || TakesVerdict(r.s.trace.last, i, if r.sig.Fine? then r.status else Running))
  {
    if !s.node.feedback.Running? {
      var asked := Log(s, StoppedByFeedback(s.node.feedback));
      CancelEndsWithoutCallback(v, asked, i.cancel);
      CancelFrame(v, asked, i.cancel);
    }
  }

  lemma DecidedTakesVerdict(v: Variant, s: Sys, i: TickInput)
    requires s.node.client.Some? && s.node.status.Running? && s.trace.Then?
    ensures var r := Decided(v, s, i);
            && r.s.trace.Then? && r.s.node.status.Running?
            && (r.s.trace == s.trace || TakesVerdict(r.s.trace.last, i, if r.sig.Fine? then r.status else Running))
  {
    if s.node.goalReceived || s.node.future.None? {
      ConcludeTakesVerdict(v, s, i);
    } else if s.node.future.value in s.peer.answers {
      var taken := Take(s.(node := s.node.(goalReceived := true)), s.node.future.value);
      if taken.node.handle.Some? {
        ConcludeTakesVerdict(v, taken, i);
      }
    }
  }

  lemma ContinueTakesVerdict(v: Variant, s: Sys, i: TickInput)
    requires s.node.client.Some? && s.node.status.Running? && s.trace.Then?
    ensures var r := Continue(v, s, i);
            && r.s.trace.Then? && r.s.node.status.Running?
            && (r.s.trace == s.trace || TakesVerdict(r.s.trace.last, i, if r.sig.Fine? then r.status else Running))
  {
    SpinFrame(v, s, i.someSpin);
    var r := Spin(v, s, i.someSpin);
    if r.sig.Fine? && r.s.node.future.Some? {
      WaitFrame(v, r.s, i.futureSpin, r.s.node.future.value);
      OnlyDeliveredTrans(s.trace, r.s.trace, SpinUntil(v, r.s, i.futureSpin, r.s.node.future.value).s.trace);
    }
    var h := Spins(v, s, i);
    assert OnlyDelivered(s.trace, h.s.trace);
    if h.sig.Fine? {
      DecidedTakesVerdict(v, h.s, i);
    }
  }

  /**
    Over any callbacks, obedient or not: a tick that ends with a callback takes its verdict when it
    is SUCCESS or FAILURE and otherwise throws and stays RUNNING, but for SERVER_UNREACHABLE, whose
    verdict it takes as it is.
   */
  lemma CallbackVerdictIsTaken(v: Variant, s: Sys, i: TickInput)
    requires !s.faulted && (s.node.status.Idle? || (s.node.status.Running? && s.node.client.Some? && s.trace.Then?))
    ensures var t := Exec(v, s, TickStep(i));
            t.faulted || t.trace == s.trace || (t.trace.Then? && TakesVerdict(t.trace.last, i, t.node.status))
  {
    var e := Elapse(s, i.elapsed);
    if !i.rosOk {
      if s.node.status.Running? {
        CancelEndsWithoutCallback(v, e, i.cancel);
        CancelFrame(v, e, i.cancel);
      }
    } else if s.node.status.Running? {
      RunningTick(v, s, i);
      ContinueTakesVerdict(v, e, i);
    }
  }

  /** onFeedback returning IDLE throws out of the spin: nothing after it is delivered. */
  lemma IdleFeedbackThrows(s: Sys, g: GoalId, rest: seq<Delivery>)
    requires g in s.peer.outstanding
    ensures var ds := [Feedback(g, Idle)] + rest;
            Spin(AsWritten, s, ds) ==
            Res(s.(node := s.node.(feedback := Idle), trace := Then(s.trace, Delivered(Feedback(g, Idle)))), Threw)
  {
  }

  // ---------- null pointers and invalid futures ----------

  /** cancelGoal dereferences the client; a tick that spins on a future that holds nothing is lost as well. */
  lemma FaultsAreFaults(v: Variant, s: Sys, i: TickInput)
    requires !s.faulted
    ensures s.node.client.None? ==> CancelGoal(v, s, i.cancel).sig.Faulted?
    ensures s.node.client.Some? && TouchesInvalidFuture(v, s, i) ==> Exec(v, s, TickStep(i)).faulted
  {
    if s.node.client.Some? && TouchesInvalidFuture(v, s, i) {
      RunningTick(v, s, i);
    }
  }
}
