/** What every call of execute guarantees, for all cancel arrivals and all throwing hooks. */
module TreeServerRuns {
  import opened Common
  import opened RateLoop
  import opened TreeServer

  // ---------- reading a trace ----------

  function Terminals(t: Trace): nat {
    match t
    case Start => 0
    case Then(past, Terminal(_, _, _)) => Terminals(past) + 1
    case Then(past, _) => Terminals(past)
  }

  /** Every terminal call was permitted in the state it was made from. */
  predicate AllPermitted(t: Trace) {
    t.Then? ==> AllPermitted(t.past) && (t.last.Terminal? ==> Permitted(t.last.call, t.last.from))
  }

  predicate CancelSeen(t: Trace) {
    t.Then? && (t.last.CancelAccepted? || CancelSeen(t.past))
  }

  /** Ticks that finished after the first accepted cancel. */
  function TicksAfterCancel(t: Trace): nat {
    match t
    case Start => 0
    case Then(past, Ticked(_)) => TicksAfterCancel(past) + if CancelSeen(past) then 1 else 0
    case Then(past, _) => TicksAfterCancel(past)
  }

  function LastTick(t: Trace): Option<NodeStatus> {
    match t
    case Start => None
    case Then(_, Ticked(status)) => Some(status)
    case Then(past, _) => LastTick(past)
  }

  predicate HookStop(t: Trace) {
    t.Then? && (t.last.HookStopped? || HookStop(t.past))
  }

  predicate HaltedTree(t: Trace) {
    t.Then? && (t.last.TreeHalted? || HaltedTree(t.past))
  }

  /** The calls of onTreeExecutionCompleted: the status and the flag of each, in order. */
  function Completions(t: Trace): seq<(NodeStatus, bool)> {
    match t
    case Start => []
    case Then(past, Completed(status, flag)) => Completions(past) + [(status, flag)]
    case Then(past, _) => Completions(past)
  }

  // ---------- the loop ----------

  /** Before the terminal call: the goal is active, and canceling exactly when a cancel was accepted. */
  predicate Open(w: World) {
    && w.goal.Active()
    && Terminals(w.trace) == 0 && AllPermitted(w.trace)
    && (w.goal.Canceling? <==> CancelSeen(w.trace))
    && TicksAfterCancel(w.trace) <= 1
  }

  /** Inside the loop: nothing has stopped it yet. */
  predicate Looping(w: World) {
    && Open(w)
    && !HookStop(w.trace) && !HaltedTree(w.trace) && Completions(w.trace) == []
  }

  /** At the check of is_canceling no tick has finished after the cancel that is only now seen. */
  predicate AtCheck(w: World, status: NodeStatus) {
    && Looping(w)
    && (LastTick(w.trace) == Some(status) || (LastTick(w.trace).None? && status.Running?))
  }

  /** A terminal call made inside the loop, after stop_action. */
  predicate Stopped(s: Script, w: World) {
    && w.trace.Then? && w.trace.last.Terminal?
    && var past, e := w.trace.past, w.trace.last;
       && Terminals(past) == 0 && AllPermitted(w.trace) && w.goal == Target(e.call)
       && TicksAfterCancel(past) <= 1
       && HaltedTree(past)
       && |Completions(past)| == 1 && Completions(past)[0].1
       && e.result.nodeStatus == Some(Completions(past)[0].0)
       && s.stopHook.Value?
       && e.result.message == Chosen(s.stopHook.value, if e.call.Cancel? then CancelText else StopText)
       && e.result.message != ExceptionText
       && !e.call.Succeed?
       && (e.call.Cancel? <==> !HookStop(past))
       && (e.call.Cancel? ==> CancelSeen(past) && Completions(past) == [(Running, true)])
  }

  predicate FlowOk(s: Script, f: Flow) {
    match f
    case Returned(w) => Stopped(s, w)
    case Raised(w, _) => Open(w)
    case Left(w, status) => AtCheck(w, status)
    case Watched(w) => Open(w)
  }

  /** What an accepted cancel leaves alone. */
  lemma MaybeCancelKeeps(w: World, requested: bool)
    ensures var c := MaybeCancel(w, requested);
            && HookStop(c.trace) == HookStop(w.trace) && HaltedTree(c.trace) == HaltedTree(w.trace)
            && Completions(c.trace) == Completions(w.trace) && LastTick(c.trace) == LastTick(w.trace)
            && TicksAfterCancel(c.trace) == TicksAfterCancel(w.trace)
            && c.result == w.result && (Open(w) ==> Open(c))
  {
  }

  /** The world after haltTree and the completion hook of stop_action. */
  function Halted(s: Script, w: World, status: NodeStatus): World {
    MaybeCancel(Log(Log(MaybeCancel(w, s.cancelInHalt), TreeHalted), Completed(status, true)).(result := Some(status)),
                s.cancelInStopHook)
  }

  lemma HaltedOk(s: Script, w: World, status: NodeStatus)
    requires Open(w) && Completions(w.trace) == []
    ensures var h := Halted(s, w, status);
            && Open(h) && HaltedTree(h.trace) && Completions(h.trace) == [(status, true)] && h.result == Some(status)
            && HookStop(h.trace) == HookStop(w.trace) && (CancelSeen(w.trace) ==> CancelSeen(h.trace))
            && (w.goal.Canceling? ==> h.goal.Canceling?)
  {
    MaybeCancelKeeps(w, s.cancelInHalt);
    var m := MaybeCancel(w, s.cancelInHalt);
    var t := Log(m, TreeHalted);
    assert Open(t) && HaltedTree(t.trace) && Completions(t.trace) == [];
    var c := Log(t, Completed(status, true)).(result := Some(status));
    assert Open(c) && HaltedTree(c.trace) && Completions(c.trace) == [(status, true)];
    MaybeCancelKeeps(c, s.cancelInStopHook);
  }

  lemma StopOk(s: Script, w: World, status: NodeStatus, default: Message, c: Call)
    requires Open(w) && !HaltedTree(w.trace) && Completions(w.trace) == []
    requires c.Cancel? ==> status.Running? && w.goal.Canceling? && !HookStop(w.trace)
    requires !c.Cancel? ==> c.Abort? && HookStop(w.trace)
    requires default == if c.Cancel? then CancelText else StopText
    ensures FlowOk(s, Stop(s, w, status, default, c)) && !Stop(s, w, status, default, c).Left?
  {
    MaybeCancelKeeps(w, s.cancelInHalt);
    HaltedOk(s, w, status);
    var h := Halted(s, w, status);
    if s.haltTree.Value? && s.stopHook.Value? {
      assert Stopped(s, Finish(h, c, Chosen(s.stopHook.value, default)));
    }
  }

  lemma LapOk(s: Script, lap: Lap, w: World)
    requires AtCheck(w, Running)
    ensures FlowOk(s, OneLap(s, lap, w))
  {
    var c := MaybeCancel(w, lap.cancelAtCheck);
    if c.goal.Canceling? {
      StopOk(s, c, Running, CancelText, Cancel);
    } else if lap.tick.Value? {
      NoTicksBeforeCancel(c.trace);
      AfterTickOk(s, lap, MaybeCancel(c, lap.cancelInTick), lap.tick.value);
    }
  }

  lemma NoTicksBeforeCancel(t: Trace)
    requires !CancelSeen(t)
    ensures TicksAfterCancel(t) == 0
  {
  }

  lemma AfterTickOk(s: Script, lap: Lap, w: World, status: NodeStatus)
    requires Looping(w) && TicksAfterCancel(w.trace) == 0
    ensures FlowOk(s, AfterTick(s, lap, w, status))
  {
    var t := MaybeCancel(Log(w, Ticked(status)), lap.cancelAfterTick);
    MaybeCancelKeeps(Log(w, Ticked(status)), lap.cancelAfterTick);
    if lap.afterTick.Value? && lap.afterTick.value.Some? {
      var st := lap.afterTick.value.value;
      StopOk(s, Log(t, HookStopped(st)), st, StopText, Abort);
    }
  }

  lemma {:induction false} LoopOk(s: Script, laps: seq<Lap>, w: World, status: NodeStatus)
    requires AtCheck(w, status)
    ensures FlowOk(s, Loop(s, laps, w, status))
    decreases laps
  {
    if status.Running? && laps != [] && laps[0].ok {
      LapOk(s, laps[0], w);
      var f := OneLap(s, laps[0], w);
      if f.Left? {
        LoopOk(s, laps[1..], f.w, f.status);
      }
    }
  }

  /** The end of execute after the loop, and an abort after an exception. */
  lemma ConcludeOk(s: Script, w: World, status: NodeStatus)
    requires AtCheck(w, status) && s.endHook.Value?
    ensures var t := Conclude(s, w, status).w.trace;
            && t.Then? && t.last.Terminal? && (t.last.call.Succeed? <==> status.Success?) && !t.last.call.Cancel?
            && Completions(t) == [(status, false)] && t.last.result.nodeStatus == Some(status)
            && t.last.result.message == Chosen(s.endHook.value, FinishedText(status))
            && !HookStop(t) && !HaltedTree(t) && LastTick(t) == LastTick(w.trace)
            && TicksAfterCancel(t) <= 1
  {
    var c := Log(w, Completed(status, false));
    assert Completions(c.trace) == [(status, false)];
    MaybeCancelKeeps(c, s.cancelAtEnd);
  }

  lemma TryOk(s: Script, cancelled: bool)
    ensures FlowOk(s, TryBlock(s, Registered(s, Fresh(cancelled)))) && Open(Registered(s, Fresh(cancelled)))
  {
    var c := Log(MaybeCancel(Registered(s, Fresh(cancelled)), s.cancelInCreate), TreeCreated);
    MaybeCancelKeeps(c, s.cancelInPrepare);
    if s.createTree.Value? && s.prepare.Value? {
      LoopOk(s, s.laps, Prepared(s, Registered(s, Fresh(cancelled))), Running);
    }
  }

  // ---------- main results ----------

  /**
    Every call that returns has made exactly one terminal call, permitted in its state, and left
    the goal in the state that call leads to; a call that does not return has made none.
   */
  lemma ExactlyOneTerminal(s: Script, cancelled: bool)
    ensures var o := Execute(s, Fresh(cancelled));
            && Terminals(o.w.trace) == (if o.exit.Returns? then 1 else 0)
            && AllPermitted(o.w.trace)
            && (o.exit.Returns? ==> o.w.trace.last.Terminal? && o.w.goal == Target(o.w.trace.last.call))
            && (!o.exit.Returns? ==> o.w.goal.Active())
  {
    TryOk(s, cancelled);
    var f := TryBlock(s, Registered(s, Fresh(cancelled)));
    if f.Left? {
      ConcludeOnce(s, f.w, f.status);
    }
  }

  lemma ConcludeOnce(s: Script, w: World, status: NodeStatus)
    requires Open(w)
    ensures var o := Conclude(s, w, status);
            && Terminals(o.w.trace) == (if o.exit.Returns? then 1 else 0)
            && AllPermitted(o.w.trace)
            && (o.exit.Returns? ==>
                  o.w.trace.Then? && o.w.trace.last.Terminal? && o.w.goal == Target(o.w.trace.last.call))
            && (!o.exit.Returns? ==> o.w.goal.Active())
  {
    var c := Log(w, Completed(status, false));
    assert Open(c);
    MaybeCancelKeeps(c, s.cancelAtEnd);
  }

  /** Nothing leaves execute but what registration, the hook after the loop, or a foreign exception throws. */
  predicate Contained(s: Script) {
    && s.registration.Value? && s.endHook.Value?
    && !NotStd(s.createTree) && !NotStd(s.prepare) && !NotStd(s.haltTree) && !NotStd(s.stopHook)
    && forall lap | lap in s.laps :: !NotStd(lap.tick) && !NotStd(lap.afterTick) && !NotStd(lap.feedback)
  }

  predicate NotStd<T>(a: Attempt<T>) {
    a.Raises? && a.kind.Foreign?
  }

  lemma {:induction false} LoopContained(s: Script, laps: seq<Lap>, w: World, status: NodeStatus)
    requires Contained(s) && forall lap | lap in laps :: lap in s.laps
    ensures var f := Loop(s, laps, w, status); f.Raised? ==> f.kind.StdException?
    decreases laps
  {
    if status.Running? && laps != [] && laps[0].ok {
      assert laps[0] in s.laps;
      var f := OneLap(s, laps[0], w);
      if f.Left? {
        LoopContained(s, laps[1..], f.w, f.status);
      }
    }
  }

  /** With those three sources quiet, every call that ends has made its one terminal call. */
  lemma ContainedReturns(s: Script, cancelled: bool)
    requires Contained(s)
    ensures !Execute(s, Fresh(cancelled)).exit.Escapes?
  {
    LoopContained(s, s.laps, Prepared(s, Registered(s, Fresh(cancelled))), Running);
  }

  /** At most one more tick finishes after a cancel has been accepted. */
  lemma CancelLatency(s: Script, cancelled: bool)
    ensures TicksAfterCancel(Execute(s, Fresh(cancelled)).w.trace) <= 1
  {
    TryOk(s, cancelled);
    var f := TryBlock(s, Registered(s, Fresh(cancelled)));
    ResumeLatency(s, f);
  }

  lemma ResumeLatency(s: Script, f: Flow)
    requires FlowOk(s, f)
    ensures TicksAfterCancel(Resume(s, f).w.trace) <= 1
  {
    if f.Left? && s.endHook.Value? {
      ConcludeOk(s, f.w, f.status);
    }
  }

  /** No tick at all runs for a goal that was cancelled before its thread started. */
  lemma CancelledBeforeStart(s: Script)
    ensures LastTick(Execute(s, Fresh(true)).w.trace).None?
  {
    var c := Log(Fresh(true), TreeCreated);
    if s.laps != [] {
      assert MaybeCancel(c, s.laps[0].cancelAtCheck) == c;
      assert LastTick(OneLap(s, s.laps[0], c).w.trace).None?;
      assert !OneLap(s, s.laps[0], c).Left?;
    }
    assert LastTick(TryBlock(s, Fresh(true)).w.trace).None?;
    ResumeKeepsLastTick(s, TryBlock(s, Fresh(true)));
  }

  lemma ResumeKeepsLastTick(s: Script, f: Flow)
    ensures LastTick(Resume(s, f).w.trace) == LastTick(f.w.trace)
  {
    if f.Left? {
      MaybeCancelKeeps(Log(f.w, Completed(f.status, false)), s.cancelAtEnd);
    }
  }

  /** The tree ended without an exception. */
  predicate Regular(o: Outcome) {
    o.exit.Returns? && o.w.trace.Then? && o.w.trace.last.Terminal? && o.w.trace.last.result.message != ExceptionText
  }

  /**
    Without an exception the completion hook has run exactly once, its flag is true exactly for a
    cancel or a stop by onLoopAfterTick, and the result carries the status it was given and, when
    the hook returned one, its message.
   */
  lemma CompletionHook(s: Script, cancelled: bool)
    requires Regular(Execute(s, Fresh(cancelled)))
    ensures var t := Execute(s, Fresh(cancelled)).w.trace;
            && |Completions(t)| == 1
            && (Completions(t)[0].1 <==> t.last.call.Cancel? || HookStop(t))
            && t.last.result.nodeStatus == Some(Completions(t)[0].0)
            && var hook := if Completions(t)[0].1 then s.stopHook else s.endHook;
               hook.Value? && (hook.value.Some? ==> t.last.result.message == Custom(hook.value.value))
  {
    TryOk(s, cancelled);
    var f := TryBlock(s, Registered(s, Fresh(cancelled)));
    if f.Left? {
      ConcludeOk(s, f.w, f.status);
    }
  }

  /** The terminal call agrees with what happened to the tree. */
  lemma OutcomeAgreement(s: Script, cancelled: bool)
    requires Execute(s, Fresh(cancelled)).exit.Returns?
    ensures var t := Execute(s, Fresh(cancelled)).w.trace;
            && t.Then? && t.last.Terminal?
            && (t.last.call.Cancel? ==>
                  CancelSeen(t) && HaltedTree(t) && !HookStop(t) && t.last.result.nodeStatus == Some(Running))
            && (t.last.call.Succeed? ==> LastTick(t) == Some(Success) && !HookStop(t) && !HaltedTree(t))
            && (HaltedTree(t) && t.last.result.message != ExceptionText ==> !t.last.call.Succeed?)
            && (t.last.call.Succeed? ==> t.last.result.nodeStatus == Some(Success))
  {
    TryOk(s, cancelled);
    var f := TryBlock(s, Registered(s, Fresh(cancelled)));
    if f.Left? {
      ConcludeOk(s, f.w, f.status);
    }
  }

  // ---------- the rate loop inside execute ----------

  /** loop_deadline, advanced by one period per iteration, stays on the absolute grid. */
  lemma {:induction false} DeadlineIsAbsolute(n: nat, t0: int, period: nat)
    ensures LoopDeadline(n, t0, period) == Deadline(t0, period, n)
  {
    if n > 0 {
      DeadlineIsAbsolute(n - 1, t0, period);
      assert (n + 1) * period == n * period + period;
    }
  }

  /** The start times of execute are those of the schedule, so its bounds apply to them. */
  lemma {:induction false} StartsFollowSchedule(laps: seq<Lap>, n: nat, t0: int, period: nat)
    requires n <= |laps|
    ensures |Paces(laps[..n])| == n
    ensures StartOf(laps, n, t0, period) == StartAfter(t0, period, Paces(laps[..n]))
  {
    if n > 0 {
      StartsFollowSchedule(laps, n - 1, t0, period);
      DeadlineIsAbsolute(n - 1, t0, period);
      assert laps[..n][..n - 1] == laps[..n - 1];
      assert Paces(laps[..n])[..n - 1] == Paces(laps[..n - 1]);
    }
  }

  /** Ticks that start in the first `span` nanoseconds, for a permitted frequency and any early wake-ups. */
  lemma TickRate(laps: seq<Lap>, n: nat, t0: int, frequency: nat, span: nat)
    requires n <= |laps| && 1 <= frequency <= 1000
    requires StartOf(laps, n, t0, PeriodMs(frequency) * NANOSECONDS_PER_MILLISECOND) <= t0 + span
    ensures PeriodMs(frequency) >= 1
    ensures n + 1 <= span / (PeriodMs(frequency) * NANOSECONDS_PER_MILLISECOND) + 1 + 
              EarlyCount(t0, PeriodMs(frequency) * NANOSECONDS_PER_MILLISECOND, Paces(laps[..n]))
  {
    PeriodBounds(frequency);
    var period := PeriodMs(frequency) * NANOSECONDS_PER_MILLISECOND;
    StartsFollowSchedule(laps, n, t0, period);
    TickBudget(t0, period, Paces(laps[..n]), span);
  }
}
