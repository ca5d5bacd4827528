/**
  A call of TreeExecutionServer::execute in closed form: which iteration ends it is read off the
  script by index, and everything an observer sees follows. No world, no goal state and no order of
  evaluation is involved; the theorem is that execute shows exactly this.
 */
module TreeServerLaws {
  import opened Common
  import opened TreeServer
  import opened TreeServerRuns

  // ---------- what an observer sees ----------

  /**
    Statuses of the ticks, feedback texts, stopping verdicts of onLoopAfterTick, calls of
    onTreeExecutionCompleted, haltTree, the terminal call.
   */
  datatype Observed = Observed(
    exit: Exit,
    statuses: seq<NodeStatus>,
    feedbacks: seq<string>,
    hooks: seq<NodeStatus>,
    completions: seq<(NodeStatus, bool)>,
    halted: bool,
    terminal: Option<(Call, ActionResult)>)

  function Statuses(t: Trace): seq<NodeStatus> {
    match t
    case Start => []
    case Then(past, Ticked(status)) => Statuses(past) + [status]
    case Then(past, _) => Statuses(past)
  }

  function Feedbacks(t: Trace): seq<string> {
    match t
    case Start => []
    case Then(past, FeedbackSent(text)) => Feedbacks(past) + [text]
    case Then(past, _) => Feedbacks(past)
  }

  function Hooks(t: Trace): seq<NodeStatus> {
    match t
    case Start => []
    case Then(past, HookStopped(status)) => Hooks(past) + [status]
    case Then(past, _) => Hooks(past)
  }

  function TerminalOf(t: Trace): Option<(Call, ActionResult)> {
    match t
    case Start => None
    case Then(_, Terminal(call, _, result)) => Some((call, result))
    case Then(past, _) => TerminalOf(past)
  }

  function Observe(exit: Exit, t: Trace): Observed {
    Observed(exit, Statuses(t), Feedbacks(t), Hooks(t), Completions(t), HaltedTree(t), TerminalOf(t))
  }

  // ---------- the script, by index ----------

  /** A cancel has been requested before the check in iteration `k`. */
  predicate Cancels(s: Script, cancelled: bool, k: nat)
    requires k <= |s.laps|
  {
    if k == 0 then cancelled || s.cancelInRegistration || s.cancelInCreate || s.cancelInPrepare
    else
      var lap := s.laps[k - 1];
      Cancels(s, cancelled, k - 1) || lap.cancelAtCheck || lap.cancelInTick || lap.cancelAfterTick
  }

  /** The status with which the loop condition is tested before iteration `k`. */
  function StatusBefore(s: Script, k: nat): NodeStatus
    requires k <= |s.laps|
  {
    if k > 0 && s.laps[k - 1].tick.Value? then s.laps[k - 1].tick.value else Running
  }

  datatype Ending =
    | GoesOn
    | Finished(status: NodeStatus)
    | Unwatched
    | CancelFound
    | TickThrew(kind: Raise)
    | HookThrew(kind: Raise)
    | HookSaid(status: NodeStatus)
    | FeedbackThrew(kind: Raise)

  /** What iteration `k` does to the loop. */
  function EndingAt(s: Script, cancelled: bool, k: nat): Ending
    requires k <= |s.laps|
  {
    if !StatusBefore(s, k).Running? then Finished(StatusBefore(s, k))
    else if k == |s.laps| then Unwatched
    else
      var lap := s.laps[k];
      if !lap.ok then Finished(Running)
      else if Cancels(s, cancelled, k) || lap.cancelAtCheck then CancelFound
      else if lap.tick.Raises? then TickThrew(lap.tick.kind)
      else if lap.afterTick.Raises? then HookThrew(lap.afterTick.kind)
      else if lap.afterTick.value.Some? then HookSaid(lap.afterTick.value.value)
      else if lap.feedback.Raises? then FeedbackThrew(lap.feedback.kind)
      else GoesOn
  }

  /** The first iteration from `k` on that does not go on. */
  function LastLap(s: Script, cancelled: bool, k: nat): (n: nat)
    requires k <= |s.laps|
    ensures k <= n <= |s.laps| && !EndingAt(s, cancelled, n).GoesOn?
    ensures forall j | k <= j < n :: EndingAt(s, cancelled, j).GoesOn?
    decreases |s.laps| - k
  {
    if EndingAt(s, cancelled, k).GoesOn? then LastLap(s, cancelled, k + 1) else k
  }

  /** The statuses of the first `k` ticks, and the texts of the feedback sent after them. */
  function TicksTo(s: Script, k: nat): seq<NodeStatus>
    requires k <= |s.laps|
  {
    if k == 0 then []
    else TicksTo(s, k - 1) + if s.laps[k - 1].tick.Value? then [s.laps[k - 1].tick.value] else []
  }

  function FeedbackTo(s: Script, k: nat): seq<string>
    requires k <= |s.laps|
  {
    if k == 0 then []
    else
      var f := s.laps[k - 1].feedback;
      FeedbackTo(s, k - 1) + if f.Value? && f.value.Some? then [f.value.value] else []
  }

  // ---------- what execute must show ----------

  /** An exception inside the try block: aborted with its text if it is a std::exception, else it escapes. */
  function Broken(o: Observed, nodeStatus: Option<NodeStatus>, kind: Raise): Observed {
    if kind.Foreign? then o.(exit := Escapes)
    else o.(exit := Returns, terminal := Some((Abort, ActionResult(nodeStatus, ExceptionText))))
  }

  /** A stop: the tree is halted, the completion hook gets `status` and true, then the goal is ended by `call`. */
  function StopShown(s: Script, o: Observed, status: NodeStatus, call: Call, text: Message): Observed {
    if s.haltTree.Raises? then Broken(o, None, s.haltTree.kind)
    else
      var h := o.(halted := true, completions := [(status, true)]);
      if s.stopHook.Raises? then Broken(h, Some(status), s.stopHook.kind)
      else
        var message := if s.stopHook.value.Some? then Custom(s.stopHook.value.value) else text;
        h.(exit := Returns, terminal := Some((call, ActionResult(Some(status), message))))
  }

  /** A loop that ends by itself: the completion hook gets the last status and false. */
  function FinishShown(s: Script, o: Observed, status: NodeStatus): Observed {
    var h := o.(completions := [(status, false)]);
    if s.endHook.Raises? then h.(exit := Escapes)
    else
      var message := if s.endHook.value.Some? then Custom(s.endHook.value.value) else FinishedText(status);
      h.(exit := Returns,
         terminal := Some((if status == Success then Succeed else Abort, ActionResult(Some(status), message))))
  }

  const NOTHING_YET: Observed := Observed(StillRunning, [], [], [], [], false, None)

  function LoopShown(s: Script, cancelled: bool, k: nat): Observed
    requires k <= |s.laps|
  {
    var o := NOTHING_YET.(statuses := TicksTo(s, k), feedbacks := FeedbackTo(s, k));
    match EndingAt(s, cancelled, k)
    case GoesOn => o
    case Unwatched => o
    case Finished(status) => FinishShown(s, o, status)
    case CancelFound => StopShown(s, o, Running, Cancel, CancelText)
    case TickThrew(kind) => Broken(o, None, kind)
    case HookThrew(kind) => Broken(o.(statuses := TicksTo(s, k + 1)), None, kind)
    case FeedbackThrew(kind) => Broken(o.(statuses := TicksTo(s, k + 1)), None, kind)
    case HookSaid(status) =>
      StopShown(s, o.(statuses := TicksTo(s, k + 1), hooks := [status]), status, Abort, StopText)
  }

  function Expected(s: Script, cancelled: bool): Observed {
    if s.registration.Raises? then NOTHING_YET.(exit := Escapes)
    else if s.createTree.Raises? then Broken(NOTHING_YET, None, s.createTree.kind)
    else if s.prepare.Raises? then Broken(NOTHING_YET, None, s.prepare.kind)
    else LoopShown(s, cancelled, LastLap(s, cancelled, 0))
  }

  // ---------- the proof ----------

  /** The world before the check in iteration `k`. */
  predicate AtLap(s: Script, cancelled: bool, k: nat, w: World)
    requires k <= |s.laps|
  {
    && w.goal == (if Cancels(s, cancelled, k) then Canceling else Executing)
    && w.result == None
    && Observe(StillRunning, w.trace) == NOTHING_YET.(statuses := TicksTo(s, k), feedbacks := FeedbackTo(s, k))
  }

  lemma CancelShowsNothing(w: World, requested: bool)
    ensures var c := MaybeCancel(w, requested);
            && Observe(StillRunning, c.trace) == Observe(StillRunning, w.trace) && c.result == w.result
            && (w.goal.Executing? || w.goal.Canceling? ==>
                  c.goal == if requested || w.goal.Canceling? then Canceling else Executing)
  {
  }

  lemma RaisedShows(s: Script, w: World, kind: Raise, o: Observed)
    requires Observe(StillRunning, w.trace) == o
    ensures var r := Resume(s, Raised(w, kind)); Observe(r.exit, r.w.trace) == Broken(o, w.result, kind)
  {
    CancelShowsNothing(w, s.cancelAtAbort);
  }

  lemma StopShows(s: Script, w: World, status: NodeStatus, text: Message, call: Call, o: Observed)
    requires Observe(StillRunning, w.trace) == o && w.result.None? && o.completions == []
    ensures var r := Resume(s, Stop(s, w, status, text, call));
            Observe(r.exit, r.w.trace) == StopShown(s, o, status, call, text)
  {
    CancelShowsNothing(w, s.cancelInHalt);
    var m := MaybeCancel(w, s.cancelInHalt);
    if s.haltTree.Raises? {
      RaisedShows(s, m, s.haltTree.kind, o);
    } else {
      var c := Log(Log(m, TreeHalted), Completed(status, true)).(result := Some(status));
      StopEventsShow(m, status, o);
      CancelShowsNothing(c, s.cancelInStopHook);
      var h := MaybeCancel(c, s.cancelInStopHook);
      if s.stopHook.Raises? {
        RaisedShows(s, h, s.stopHook.kind, o.(halted := true, completions := [(status, true)]));
      }
    }
  }

  lemma StopEventsShow(w: World, status: NodeStatus, o: Observed)
    requires Observe(StillRunning, w.trace) == o && o.completions == []
    ensures Observe(StillRunning, Then(Then(w.trace, TreeHalted), Completed(status, true))) ==
            o.(halted := true, completions := [(status, true)])
  {
    assert Observe(StillRunning, Then(w.trace, TreeHalted)) == o.(halted := true);
  }

  lemma FinishShows(s: Script, w: World, status: NodeStatus, o: Observed)
    requires Observe(StillRunning, w.trace) == o && o.completions == []
    ensures var r := Resume(s, Left(w, status)); Observe(r.exit, r.w.trace) == FinishShown(s, o, status)
  {
    CancelShowsNothing(Log(w, Completed(status, false)), s.cancelAtEnd);
  }

  /** The world after the tick of iteration `k`, before onLoopAfterTick. */
  function Ticked(s: Script, w: World, k: nat): World
    requires k < |s.laps| && s.laps[k].tick.Value?
  {
    var lap := s.laps[k];
    var t := MaybeCancel(MaybeCancel(w, lap.cancelAtCheck), lap.cancelInTick);
    MaybeCancel(Log(t, Event.Ticked(lap.tick.value)), lap.cancelAfterTick)
  }

  lemma TickedShows(s: Script, cancelled: bool, w: World, k: nat)
    requires k < |s.laps| && s.laps[k].tick.Value? && AtLap(s, cancelled, k, w)
    ensures var t := Ticked(s, w, k);
            && Observe(StillRunning, t.trace) ==
               NOTHING_YET.(statuses := TicksTo(s, k + 1), feedbacks := FeedbackTo(s, k))
            && t.result.None? && t.goal == if Cancels(s, cancelled, k + 1) then Canceling else Executing
  {
    var lap := s.laps[k];
    CancelShowsNothing(w, lap.cancelAtCheck);
    var c := MaybeCancel(w, lap.cancelAtCheck);
    CancelShowsNothing(c, lap.cancelInTick);
    var t := MaybeCancel(c, lap.cancelInTick);
    CancelShowsNothing(Log(t, Event.Ticked(lap.tick.value)), lap.cancelAfterTick);
  }

  /** An iteration that ends the loop. */
  lemma EndingShows(s: Script, cancelled: bool, k: nat, w: World)
    requires k <= |s.laps| && AtLap(s, cancelled, k, w) && !EndingAt(s, cancelled, k).GoesOn?
    ensures var r := Resume(s, Loop(s, s.laps[k..], w, StatusBefore(s, k)));
            Observe(r.exit, r.w.trace) == LoopShown(s, cancelled, k)
  {
    var o := NOTHING_YET.(statuses := TicksTo(s, k), feedbacks := FeedbackTo(s, k));
    match EndingAt(s, cancelled, k)
    case Finished(status) => FinishShows(s, w, status, o);
    case Unwatched =>
    case CancelFound =>
      CancelShowsNothing(w, s.laps[k].cancelAtCheck);
      StopShows(s, MaybeCancel(w, s.laps[k].cancelAtCheck), Running, CancelText, Cancel, o);
    case TickThrew(kind) =>
      CancelShowsNothing(w, s.laps[k].cancelAtCheck);
      var c := MaybeCancel(w, s.laps[k].cancelAtCheck);
      CancelShowsNothing(c, s.laps[k].cancelInTick);
      RaisedShows(s, MaybeCancel(c, s.laps[k].cancelInTick), kind, o);
    case _ => EndingAfterTickShows(s, cancelled, k, w);
  }

  /** The same when the tick has returned. */
  lemma EndingAfterTickShows(s: Script, cancelled: bool, k: nat, w: World)
    requires k < |s.laps| && AtLap(s, cancelled, k, w)
    requires var e := EndingAt(s, cancelled, k); e.HookThrew? || e.FeedbackThrew? || e.HookSaid?
    ensures var r := Resume(s, Loop(s, s.laps[k..], w, StatusBefore(s, k)));
            Observe(r.exit, r.w.trace) == LoopShown(s, cancelled, k)
  {
    var o := NOTHING_YET.(statuses := TicksTo(s, k + 1), feedbacks := FeedbackTo(s, k));
    var t, lap := Ticked(s, w, k), s.laps[k];
    TickedShows(s, cancelled, w, k);
    assert Loop(s, s.laps[k..], w, Running) == OneLap(s, lap, w);
    match EndingAt(s, cancelled, k)
    case HookThrew(kind) => RaisedShows(s, t, kind, o);
    case FeedbackThrew(kind) => RaisedShows(s, t, kind, o);
    case HookSaid(status) =>
      StopShows(s, Log(t, HookStopped(status)), status, StopText, Abort, o.(hooks := [status]));
  }

  /** An iteration that goes on. */
  lemma GoingOnShows(s: Script, cancelled: bool, k: nat, w: World) returns (next: World)
    requires k <= |s.laps| && AtLap(s, cancelled, k, w) && EndingAt(s, cancelled, k).GoesOn?
    ensures k < |s.laps| && AtLap(s, cancelled, k + 1, next)
    ensures OneLap(s, s.laps[k], w) == Left(next, StatusBefore(s, k + 1))
    ensures Loop(s, s.laps[k..], w, StatusBefore(s, k)) == Loop(s, s.laps[k + 1..], next, StatusBefore(s, k + 1))
  {
    var lap := s.laps[k];
    TickedShows(s, cancelled, w, k);
    var t := Ticked(s, w, k);
    next := if lap.feedback.value.Some? then Log(t, FeedbackSent(lap.feedback.value.value)) else t;
    assert s.laps[k..][0] == lap && s.laps[k..][1..] == s.laps[k + 1..];
    assert OneLap(s, lap, w) == Left(next, lap.tick.value);
  }

  lemma {:induction false} LoopShows(s: Script, cancelled: bool, k: nat, w: World)
    requires k <= |s.laps| && AtLap(s, cancelled, k, w)
    ensures var r := Resume(s, Loop(s, s.laps[k..], w, StatusBefore(s, k)));
            Observe(r.exit, r.w.trace) == LoopShown(s, cancelled, LastLap(s, cancelled, k))
    decreases |s.laps| - k
  {
    if EndingAt(s, cancelled, k).GoesOn? {
      var next := GoingOnShows(s, cancelled, k, w);
      LoopShows(s, cancelled, k + 1, next);
    } else {
      EndingShows(s, cancelled, k, w);
    }
  }

  /** The iteration that ends the loop has called the tick. */
  predicate TicksInLast(e: Ending) {
    e.TickThrew? || e.HookThrew? || e.HookSaid? || e.FeedbackThrew?
  }

  lemma {:induction false} TicksCounted(s: Script, cancelled: bool, k: nat, w: World)
    requires k <= |s.laps| && AtLap(s, cancelled, k, w)
    ensures var n := LastLap(s, cancelled, k);
            TicksStarted(s, s.laps[k..], w, StatusBefore(s, k)) ==
            n - k + if TicksInLast(EndingAt(s, cancelled, n)) then 1 else 0
    decreases |s.laps| - k
  {
    if k < |s.laps| {
      CancelShowsNothing(w, s.laps[k].cancelAtCheck);
      assert s.laps[k..][0] == s.laps[k] && s.laps[k..][1..] == s.laps[k + 1..];
    }
    if EndingAt(s, cancelled, k).GoesOn? {
      var next := GoingOnShows(s, cancelled, k, w);
      TicksCounted(s, cancelled, k + 1, next);
    }
  }

  lemma PreparedIsAtLap(s: Script, cancelled: bool)
    ensures AtLap(s, cancelled, 0, Prepared(s, Registered(s, Fresh(cancelled))))
    ensures Observe(StillRunning, Registered(s, Fresh(cancelled)).trace) == NOTHING_YET
    ensures Observe(StillRunning, MaybeCancel(Registered(s, Fresh(cancelled)), s.cancelInCreate).trace) == NOTHING_YET
  {
    var f := World(Executing, None, Start);
    CancelShowsNothing(f, cancelled);
    var r := Registered(s, Fresh(cancelled));
    CancelShowsNothing(Fresh(cancelled), s.cancelInRegistration);
    CancelShowsNothing(r, s.cancelInCreate);
    CancelShowsNothing(Log(MaybeCancel(r, s.cancelInCreate), TreeCreated), s.cancelInPrepare);
  }

  // ---------- main results ----------

  /** For every script and cancel arrival: execute shows exactly what the closed form says. */
  lemma ExecuteIsExact(s: Script, cancelled: bool)
    ensures var o := Execute(s, Fresh(cancelled)); Observe(o.exit, o.w.trace) == Expected(s, cancelled)
  {
    var r := Registered(s, Fresh(cancelled));
    PreparedIsAtLap(s, cancelled);
    if s.registration.Raises? {
    } else if s.createTree.Raises? {
      RaisedShows(s, MaybeCancel(r, s.cancelInCreate), s.createTree.kind, NOTHING_YET);
    } else if s.prepare.Raises? {
      RaisedShows(s, Prepared(s, r), s.prepare.kind, NOTHING_YET);
    } else {
      assert s.laps[0..] == s.laps;
      LoopShows(s, cancelled, 0, Prepared(s, r));
    }
  }

  /** How many ticks a call starts: one in each iteration that goes on, and one in the last if it got that far. */
  lemma TicksStartedIsExact(s: Script, cancelled: bool)
    ensures var n := LastLap(s, cancelled, 0);
            TicksStarted(s, s.laps, Prepared(s, Registered(s, Fresh(cancelled))), Running) ==
            n + if TicksInLast(EndingAt(s, cancelled, n)) then 1 else 0
  {
    PreparedIsAtLap(s, cancelled);
    assert s.laps[0..] == s.laps;
    TicksCounted(s, cancelled, 0, Prepared(s, Registered(s, Fresh(cancelled))));
  }

  /**
    The status handed to onTreeExecutionCompleted: after a stop by onLoopAfterTick its verdict, which
    is the one of the last iteration; after a cancel RUNNING; otherwise the status of the last tick.
   */
  lemma CompletionStatus(s: Script, cancelled: bool)
    requires Regular(Execute(s, Fresh(cancelled)))
    ensures var t := Execute(s, Fresh(cancelled)).w.trace;
            var n := LastLap(s, cancelled, 0);
            && |Hooks(t)| <= 1
            && (Hooks(t) != [] ==>
                  && n < |s.laps| && s.laps[n].afterTick == Value(Some(Hooks(t)[0]))
                  && Completions(t) == [(Hooks(t)[0], true)]
                  && t.last.call == Abort && t.last.result.nodeStatus == Some(Hooks(t)[0]))
            && (Hooks(t) == [] && HaltedTree(t) ==> Completions(t) == [(Running, true)] && t.last.call == Cancel)
            && (Hooks(t) == [] && !HaltedTree(t) ==>
                  Completions(t) == [(if Statuses(t) == [] then Running else Statuses(t)[|Statuses(t)| - 1], false)])
  {
    RegularIsUndisturbed(s, cancelled);
    ExpectedCompletion(s, cancelled);
    LastStatus(s, cancelled, LastLap(s, cancelled, 0));
  }

  lemma RegularIsUndisturbed(s: Script, cancelled: bool)
    requires Regular(Execute(s, Fresh(cancelled)))
    ensures var o, e := Execute(s, Fresh(cancelled)), Expected(s, cancelled);
            && Undisturbed(e) && Observe(o.exit, o.w.trace) == e
            && e.terminal == Some((o.w.trace.last.call, o.w.trace.last.result))
  {
    ExecuteIsExact(s, cancelled);
  }

  /** Returned without an exception. */
  predicate Undisturbed(e: Observed) {
    e.exit.Returns? && e.terminal.Some? && e.terminal.value.1.message != ExceptionText
  }

  /** The one completion of an undisturbed call, by the way its loop ended. */
  predicate CompletionFits(e: Observed, ending: Ending) {
    Undisturbed(e) ==>
      match ending
      case HookSaid(status) =>
        && e.hooks == [status] && e.halted && e.completions == [(status, true)]
        && e.terminal.value.0 == Abort && e.terminal.value.1.nodeStatus == Some(status)
      case CancelFound =>
        e.hooks == [] && e.halted && e.completions == [(Running, true)] && e.terminal.value.0 == Cancel
      case Finished(status) => e.hooks == [] && !e.halted && e.completions == [(status, false)]
      case _ => false
  }

  lemma StopFits(s: Script, o: Observed, status: NodeStatus, call: Call, text: Message)
    requires !o.halted && o.exit.StillRunning?
    ensures var e := StopShown(s, o, status, call, text);
            Undisturbed(e) ==>
              && e.hooks == o.hooks && e.halted && e.completions == [(status, true)]
              && e.terminal.value.0 == call && e.terminal.value.1.nodeStatus == Some(status)
  {
  }

  lemma LoopFits(s: Script, cancelled: bool, k: nat)
    requires k <= |s.laps|
    ensures CompletionFits(LoopShown(s, cancelled, k), EndingAt(s, cancelled, k))
  {
    var o := NOTHING_YET.(statuses := TicksTo(s, k), feedbacks := FeedbackTo(s, k));
    match EndingAt(s, cancelled, k)
    case CancelFound => StopFits(s, o, Running, Cancel, CancelText);
    case HookSaid(status) =>
      StopFits(s, o.(statuses := TicksTo(s, k + 1), hooks := [status]), status, Abort, StopText);
    case _ =>
  }

  lemma ExpectedCompletion(s: Script, cancelled: bool)
    requires Undisturbed(Expected(s, cancelled))
    ensures var e, n := Expected(s, cancelled), LastLap(s, cancelled, 0);
            CompletionFits(e, EndingAt(s, cancelled, n)) && e == LoopShown(s, cancelled, n)
  {
    LoopFits(s, cancelled, LastLap(s, cancelled, 0));
  }

  /** The status before an iteration is that of the last tick. */
  lemma LastStatus(s: Script, cancelled: bool, n: nat)
    requires n <= |s.laps| && forall j | 0 <= j < n :: EndingAt(s, cancelled, j).GoesOn?
    ensures var ticks := TicksTo(s, n);
            StatusBefore(s, n) == if ticks == [] then Running else ticks[|ticks| - 1]
  {
    if n > 0 {
      assert EndingAt(s, cancelled, n - 1).GoesOn?;
    }
  }
}
