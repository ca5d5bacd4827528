/** The method TreeExecutionServer::execute with the members it updates, proved against module TreeServer. */
module TreeExecutionServerClass {
  import opened Common
  import opened RateLoop
  import opened TreeServer

  class TreeExecutionServer {
    const tickFrequency: nat
    var tree: Option<string>
    var treeName: Option<string>
    var payload: Option<string>
    var goal: GoalState
    var nodeStatus: Option<NodeStatus>
    var trace: Trace

    function State(): World
      reads this
    {
      World(goal, nodeStatus, trace)
    }

    constructor (tickFrequency: nat)
      ensures this.tickFrequency == tickFrequency && State() == Fresh(false)
      ensures tree == treeName == payload == None
    {
      this.tickFrequency := tickFrequency;
      tree, treeName, payload := None, None, None;
      goal, nodeStatus, trace := Executing, None, Start;
    }

    method Record(e: Event)
      modifies this`trace
      ensures State() == Log(old(State()), e)
    {
      trace := Then(trace, e);
    }

    /** A cancel request reaches handle_cancel, which accepts it while the goal is active. */
    method ReceiveCancel(requested: bool)
      modifies this`goal, this`trace
      ensures State() == MaybeCancel(old(State()), requested)
    {
      if requested && goal.Executing? {
        goal := Canceling;
        Record(CancelAccepted);
      }
    }

    /** goal_handle->succeed, abort or canceled. */
    method CallGoalHandle(c: Call, m: Message)
      modifies this`goal, this`trace
      ensures State() == Finish(old(State()), c, m)
    {
      Record(Terminal(c, goal, ActionResult(nodeStatus, m)));
      goal := Target(c);
    }

    /** The lambda stop_action, then the call on the goal handle. */
    method StopAction(s: Script, status: NodeStatus, default: Message, c: Call) returns (f: Flow)
      modifies this`goal, this`nodeStatus, this`trace
      ensures f == Stop(s, old(State()), status, default, c) && f.w == State()
    {
      ReceiveCancel(s.cancelInHalt);
      if s.haltTree.Raises? {
        return Raised(State(), s.haltTree.kind);
      }
      Record(TreeHalted);
      nodeStatus := Some(status);
      Record(Completed(status, true));
      ReceiveCancel(s.cancelInStopHook);
      if s.stopHook.Raises? {
        return Raised(State(), s.stopHook.kind);
      }
      CallGoalHandle(c, if s.stopHook.value.Some? then Custom(s.stopHook.value.value) else default);
      return Returned(State());
    }

    /** One iteration of the loop, from the check of is_canceling up to the reading of the clock. */
    method Iterate(s: Script, lap: Lap) returns (f: Flow, started: bool)
      modifies this`goal, this`nodeStatus, this`trace
      ensures f == OneLap(s, lap, old(State())) && f.w == State()
      ensures started == !MaybeCancel(old(State()), lap.cancelAtCheck).goal.Canceling?
    {
      ReceiveCancel(lap.cancelAtCheck);
      started := false;
      if goal.Canceling? {
        f := StopAction(s, Running, CancelText, Cancel);
        return;
      }
      started := true;
      ReceiveCancel(lap.cancelInTick);
      if lap.tick.Raises? {
        f := Raised(State(), lap.tick.kind);
        return;
      }
      var status := lap.tick.value;
      Record(Ticked(status));
      ReceiveCancel(lap.cancelAfterTick);
      if lap.afterTick.Raises? {
        f := Raised(State(), lap.afterTick.kind);
        return;
      }
      if lap.afterTick.value.Some? {
        Record(HookStopped(lap.afterTick.value.value));
        f := StopAction(s, lap.afterTick.value.value, StopText, Abort);
        return;
      }
      if lap.feedback.Raises? {
        f := Raised(State(), lap.feedback.kind);
        return;
      }
      if lap.feedback.value.Some? {
        Record(FeedbackSent(lap.feedback.value.value));
      }
      f := Left(State(), status);
    }

    /** The while loop. `starts` holds the time at which each tick started, `t0` is the first reading of the clock. */
    method TickLoop(s: Script, t0: int, period: nat) returns (f: Flow, starts: seq<int>)
      modifies this`goal, this`nodeStatus, this`trace
      ensures f == Loop(s, s.laps, old(State()), Running) && f.w == State()
      ensures starts == Starts(s.laps, TicksStarted(s, s.laps, old(State()), Running), t0, period)
    {
      var status := Running;
      var deadline := t0 + period;
      var clock := t0;
      var k := 0;
      starts := [];
      assert s.laps[0..] == s.laps;
      while status.Running? && k < |s.laps| && s.laps[k].ok
        invariant 0 <= k <= |s.laps|
        invariant Loop(s, s.laps, old(State()), Running) == Loop(s, s.laps[k..], State(), status)
        invariant TicksStarted(s, s.laps, old(State()), Running) == k + TicksStarted(s, s.laps[k..], State(), status)
        invariant deadline == LoopDeadline(k, t0, period)
        invariant clock == StartOf(s.laps, k, t0, period)
        invariant starts == Starts(s.laps, k, t0, period)
      {
        var lap := s.laps[k];
        NextLap(s, k, State());
        var started;
        f, started := Iterate(s, lap);
        if started {
          starts := starts + [clock];
        }
        if !f.Left? {
          return;
        }
        status := f.status;
        var now := clock + lap.pace.work;
        clock := if now < deadline then Max(now, deadline - lap.pace.cut) else now;
        deadline := deadline + period;
        k := k + 1;
      }
      f := if status.Running? && k == |s.laps| then Watched(State()) else Left(State(), status);
    }

    /** The body of execute for one accepted goal. */
    method Execute(target: string, goalPayload: string, s: Script, t0: int) returns (exit: Exit, starts: seq<int>)
      requires 1 <= tickFrequency <= 1000
      modifies this
      ensures Outcome(State(), exit) == TreeServer.Execute(s, old(State()))
      ensures if s.registration.Value? && s.createTree.Value?
              then tree == treeName == Some(target) && payload == Some(goalPayload)
              else tree == old(tree) && treeName == old(treeName) && payload == old(payload)
      ensures starts == if s.registration.Value? && s.createTree.Value? && s.prepare.Value?
              then Starts(s.laps, TicksStarted(s, s.laps, Prepared(s, Registered(s, old(State()))), Running), t0,
                          PeriodMs(tickFrequency) * NANOSECONDS_PER_MILLISECOND)
              else []
    {
      starts := [];
      ReceiveCancel(s.cancelInRegistration);
      if s.registration.Raises? {
        return Escapes, starts;
      }
      var f: Flow;
      ReceiveCancel(s.cancelInCreate);
      if s.createTree.Raises? {
        f := Raised(State(), s.createTree.kind);
      } else {
        tree := Some(target);
        treeName := Some(target);
        payload := Some(goalPayload);
        Record(TreeCreated);
        ReceiveCancel(s.cancelInPrepare);
        if s.prepare.Raises? {
          f := Raised(State(), s.prepare.kind);
        } else {
          PeriodBounds(tickFrequency);
          f, starts := TickLoop(s, t0, PeriodMs(tickFrequency) * NANOSECONDS_PER_MILLISECOND);
        }
      }
      exit := Conclude(s, f);
    }

    /** The catch block, and what follows the loop. */
    method Conclude(s: Script, f: Flow) returns (exit: Exit)
      requires f.w == State()
      modifies this`goal, this`nodeStatus, this`trace
      ensures Outcome(State(), exit) == Resume(s, f)
    {
      match f
      case Returned(_) => return Returns;
      case Watched(_) => return StillRunning;
      case Raised(_, kind) =>
        if kind.Foreign? {
          return Escapes;
        }
        ReceiveCancel(s.cancelAtAbort);
        CallGoalHandle(Abort, ExceptionText);
        return Returns;
      case Left(_, status) =>
        Record(Completed(status, false));
        ReceiveCancel(s.cancelAtEnd);
        if s.endHook.Raises? {
          return Escapes;
        }
        nodeStatus := Some(status);
        CallGoalHandle(if status.Success? then Succeed else Abort, Chosen(s.endHook.value, FinishedText(status)));
        return Returns;
    }
  }

  /** One iteration of the loop, on the iterations still to come. */
  lemma NextLap(s: Script, k: nat, w: World)
    requires k < |s.laps| && s.laps[k].ok
    ensures var f := OneLap(s, s.laps[k], w);
            && Loop(s, s.laps[k..], w, Running) == (if f.Left? then Loop(s, s.laps[k + 1..], f.w, f.status) else f)
            && TicksStarted(s, s.laps[k..], w, Running) ==
               (if MaybeCancel(w, s.laps[k].cancelAtCheck).goal.Canceling? then 0
                else 1 + if f.Left? then TicksStarted(s, s.laps[k + 1..], f.w, f.status) else 0)
            && (f.Left? ==> !MaybeCancel(w, s.laps[k].cancelAtCheck).goal.Canceling?)
  {
    assert s.laps[k..][0] == s.laps[k] && s.laps[k..][1..] == s.laps[k + 1..];
  }
}
