/**
  The tick of RosActionNode refines a decision on the history of the node, when user callbacks
  obey their documented contracts. Nothing is assumed about how activations start.
 */
module ActionHistory {
  import opened Common
  import opened ActionNode
  import opened ActionSpins
  import opened ActionOwnership

  // ---------- the ledger ----------

  /** Next goal id, answers and results still due, read from the history; the clock is not in it. */
  function Ledger(t: Trace): Peer {
    match t
    case Start => Peer(0, 0, map[], {})
    case Then(past, Sent(g, _, _)) => Ledger(past).(next := g + 1)
    case Then(past, Delivered(d)) => Noted(Ledger(past), d)
    case Then(past, _) => Ledger(past)
  }

  /** Goals get consecutive ids, deliveries are possible, and futures yield the answers delivered. */
  predicate Legal(t: Trace) {
    t.Then? ==>
      && Legal(t.past)
      && (t.last.Sent? ==> t.last.goal == Ledger(t.past).next)
      && (t.last.Delivered? ==> Possible(Ledger(t.past), t.last.delivery))
      && (t.last.Took? ==> Answer(t.past, t.last.goal) == Some(t.last.accepted))
  }

  /** The response of the server to goal `g`, if it has come in. */
  function Answer(t: Trace, g: GoalId): Option<bool> {
    if g in Ledger(t).answers then Some(Ledger(t).answers[g]) else None
  }

  lemma LedgerOk(t: Trace)
    requires Legal(t)
    ensures PeerOk(Ledger(t))
    ensures Current(t).Some? ==> Current(t).value < Ledger(t).next
  {
  }

  // ---------- what a node remembers of its history ----------

  function SentAt(t: Trace): int {
    match t
    case Start => 0
    case Then(_, Sent(_, at, _)) => at
    case Then(past, _) => SentAt(past)
  }

  /** The latest verdict of onFeedback in this activation, whichever goal the feedback was for. */
  function LastFeedback(t: Trace): NodeStatus {
    match t
    case Start => Running
    case Then(_, SetGoal) => Running
    case Then(_, Delivered(Feedback(_, verdict))) => verdict
    case Then(past, _) => LastFeedback(past)
  }

  /** The latest verdict of onFeedback on feedback for the goal of this activation. */
  function OwnFeedback(t: Trace): NodeStatus {
    match t
    case Start => Running
    case Then(_, SetGoal) => Running
    case Then(past, Delivered(Feedback(g, verdict))) => if Current(past) == Some(g) then verdict else OwnFeedback(past)
    case Then(past, _) => OwnFeedback(past)
  }

  function FeedbackHeard(v: Variant, t: Trace): NodeStatus {
    if v.Repaired? then OwnFeedback(t) else LastFeedback(t)
  }

  /** The goal whose handle the node keeps: as written, handles survive the start of an activation. */
  function Kept(v: Variant, t: Trace): Option<GoalId> {
    match t
    case Start => None
    case Then(past, SetGoal) => if v.Repaired? then None else Kept(v, past)
    case Then(_, Took(g, accepted)) => if accepted then Some(g) else None
    case Then(past, _) => Kept(v, past)
  }

  /** The latest result of this activation that came for the goal whose handle was kept. */
  function StoredResult(v: Variant, t: Trace): Option<WrappedResult> {
    match t
    case Start => None
    case Then(_, SetGoal) => None
    case Then(past, Delivered(ResultMessage(g, code))) =>
      if Kept(v, past) == Some(g) then Some(WrappedResult(g, code)) else StoredResult(v, past)
    case Then(past, _) => StoredResult(v, past)
  }

  lemma KeptWasAccepted(v: Variant, t: Trace)
    requires Legal(t) && Kept(v, t).Some?
    ensures Answer(t, Kept(v, t).value) == Some(true)
  {
  }

  /** Until its handle is taken, the goal of the activation is not the one whose handle is kept. */
  lemma {:induction false} KeptIsOlder(v: Variant, t: Trace)
    requires Legal(t) && !Taken(t) && Current(t).Some?
    ensures Kept(v, t) != Current(t)
  {
    if t.last.Sent? {
      LedgerOk(t.past);
      if Kept(v, t.past).Some? {
        KeptWasAccepted(v, t.past);
      }
    } else {
      KeptIsOlder(v, t.past);
    }
  }

  datatype Decision =
    | Wait
    | TimedOut(goal: GoalId)
    | Rejected(goal: GoalId)
    | Stop(verdict: NodeStatus)
    | Show(result: WrappedResult)

  /** Acceptance timeout first, then rejection, then the feedback verdict, then the result. */
  function Decide(v: Variant, t: Trace, now: int, timeout: int): Decision {
    match Current(t)
    case None => Wait
    case Some(g) =>
      if Answer(t, g).None? then (if now - SentAt(t) > timeout then TimedOut(g) else Wait)
      else if !Answer(t, g).value then Rejected(g)
      else if !FeedbackHeard(v, t).Running? then Stop(FeedbackHeard(v, t))
      else if StoredResult(v, t).Some? && !StoredResult(v, t).value.code.Unknown? then Show(StoredResult(v, t).value)
      else Wait
  }

  // ---------- the abstraction invariant ----------

  /** At all times: the peer's ledger and the handle are functions of the history. */
  predicate Tracked(v: Variant, s: Sys) {
    && s.peer.(clock := 0) == Ledger(s.trace) && Legal(s.trace)
    && s.node.handle == Kept(v, s.trace)
    && (s.node.handle.Some? ==> Accepted(s.peer, s.node.handle.value))
  }

  /** Waiting for the response with a valid future, or holding the handle without one. */
  predicate Phase(s: Sys) {
    && s.node.client.Some?
    && Current(s.trace).Some?
    && s.node.goalReceived == Taken(s.trace)
    && (if s.node.goalReceived
        then s.node.future.None? && s.node.handle == Current(s.trace)
        else s.node.future == Current(s.trace))
  }

  /** While RUNNING, so are the other members. */
  predicate Abstracts(v: Variant, s: Sys) {
    && Phase(s)
    && s.node.feedback == FeedbackHeard(v, s.trace)
    && s.node.timeSent == SentAt(s.trace)
    && s.node.result == StoredResult(v, s.trace)
    && (v.Repaired? && s.node.result.Some? ==> Current(s.trace) == Some(s.node.result.value.goal))
  }

  lemma UntakenKeepsNothing(t: Trace)
    requires !Taken(t)
    ensures Kept(Repaired, t).None?
  {
  }

  lemma DeliverTracks(v: Variant, s: Sys, d: Delivery)
    requires Tracked(v, s)
    ensures var t := Deliver(v, s, d).s; Tracked(v, t) && (Abstracts(v, s) ==> Abstracts(v, t))
  {
    if Abstracts(v, s) && Possible(s.peer, d) {
      DeliverAbstracts(v, s, d);
    }
  }

  /** In the repaired code the callbacks only take what is for the goal of the activation. */
  lemma OwnGoalOnly(s: Sys, g: GoalId)
    requires Tracked(Repaired, s) && Phase(s)
    ensures s.node.handle == Some(g) ==> Current(s.trace) == Some(g)
    ensures s.node.handle == Some(g) || s.node.future == Some(g) <==> Current(s.trace) == Some(g)
  {
    if !Taken(s.trace) {
      UntakenKeepsNothing(s.trace);
    }
  }

  lemma DeliverAbstracts(v: Variant, s: Sys, d: Delivery)
    requires Tracked(v, s) && Abstracts(v, s) && Possible(s.peer, d)
    ensures Abstracts(v, Deliver(v, s, d).s)
  {
    var t := Then(s.trace, Delivered(d));
    assert Deliver(v, s, d).s.trace == t;
    assert Current(t) == Current(s.trace) && Taken(t) == Taken(s.trace) && SentAt(t) == SentAt(s.trace);
    if v.Repaired? {
      OwnGoalOnly(s, d.goal);
    }
  }

  lemma {:induction false} SpinTracks(v: Variant, s: Sys, ds: seq<Delivery>)
    requires Tracked(v, s)
    ensures var t := Spin(v, s, ds).s; Tracked(v, t) && (Abstracts(v, s) ==> Abstracts(v, t))
    decreases ds
  {
    if ds != [] {
      DeliverTracks(v, s, ds[0]);
      SpinTracks(v, Deliver(v, s, ds[0]).s, ds[1..]);
    }
  }

  lemma SpinsTrack(v: Variant, s: Sys, i: TickInput)
    requires Tracked(v, s) && Abstracts(v, s) && TickObeys(i)
    ensures var r := Spins(v, s, i);
            Tracked(v, r.s) && Abstracts(v, r.s) && OnlyDelivered(s.trace, r.s.trace) && !r.sig.Threw?
    ensures v.Repaired? ==> Spins(v, s, i).sig.Fine?
  {
    SpinsIsSpin(v, s, i);
    HeardObeys(s, i);
    SpinTracks(v, s, Heard(s, i));
    SpinFrame(v, s, Heard(s, i));
  }

  // ---------- cancelGoal and halt ----------

  lemma RequestCancelTracks(v: Variant, s: Sys, i: CancelInput)
    requires Tracked(v, s) && s.node.handle.Some?
    ensures var t := RequestCancel(v, s, i).s; Tracked(v, t) && (Abstracts(v, s) ==> Abstracts(v, t))
  {
    var asked := Elapse(Log(s, CancelRequested(s.node.handle.value)), Waited(s, i.cancelTook));
    SpinTracks(v, asked, i.forCancel);
    var r := Spin(v, asked, i.forCancel);
    SpinTracks(v, Elapse(r.s, Waited(r.s, i.resultTook)), i.forResult);
  }

  lemma CancelTracks(v: Variant, s: Sys, i: CancelInput)
    requires Tracked(v, s)
    ensures Tracked(v, CancelGoal(v, s, i).s)
  {
    if s.node.client.None? {
    } else if s.node.handle.Some? {
      RequestCancelTracks(v, s, i);
    } else if s.node.future.Some? {
      var g := s.node.future.value;
      var e := Elapse(s, Waited(s, i.responseTook));
      WaitIsSpin(v, e, i.forResponse, g);
      SpinTracks(v, e, UpTo(e.peer, i.forResponse, g));
      var r := SpinUntil(v, e, i.forResponse, g);
      if r.sig.Fine? && g in r.s.peer.answers && r.s.peer.answers[g] {
        RequestCancelTracks(v, Take(r.s, g), i);
      }
    }
  }

  // ---------- one tick of a running node ----------

  /** The history once an accepted goal's handle has been taken. */
  function Held(h: Trace): Trace {
    if Current(h).None? || Taken(h) || Answer(h, Current(h).value).None? then h
    else Then(h, Took(Current(h).value, Answer(h, Current(h).value).value))
  }

  /** The terminal callback for a result, and its verdict. */
  function Callback(r: WrappedResult): Event {
    match r.code
    case Aborted => Failed(ActionAborted, None, Some(r))
    case Canceled => Failed(ActionCancelled, None, Some(r))
    case _ => Reported(r)
  }

  function Verdict(r: WrappedResult, i: TickInput): NodeStatus {
    if r.code.Aborted? || r.code.Canceled? then i.onFailure else i.onResult
  }

  /** The goal is cancelled on a verdict of onFeedback. */
  function Cancelled(h: Trace, g: GoalId, verdict: NodeStatus): Trace {
    Then(Then(Held(h), StoppedByFeedback(verdict)), CancelRequested(g))
  }

  /** What a tick does after deciding `d` on history `h`: the calls it makes, in order, and its verdict. */
  predicate Follows(v: Variant, h: Trace, d: Decision, i: TickInput, r: TickRes) {
    match d
    case Wait => r.status == Running && r.s.trace == Held(h)
    case TimedOut(g) => r.status == i.onFailure && r.s.trace == Then(h, Failed(SendGoalTimeout, Some(g), None))
    case Rejected(g) =>
      r.status == i.onFailure && r.s.trace == Then(Held(h), Failed(ErrorCode.GoalRejected, None, None))
    case Stop(verdict) =>
      && Current(h).Some?
      && OnlyDelivered(Cancelled(h, Current(h).value, verdict), r.s.trace)
      && r.status == (if v.Repaired? then verdict else LastFeedback(r.s.trace))
    case Show(result) => r.status == Verdict(result, i) && r.s.trace == Then(Held(h), Callback(result))
  }

  lemma ConcludeFollows(v: Variant, s: Sys, i: TickInput, h: Trace)
    requires Tracked(v, s) && Abstracts(v, s) && s.node.goalReceived && TickObeys(i)
    requires s.trace == Held(h) && Current(h).Some? && Answer(h, Current(h).value) == Some(true)
    requires FeedbackHeard(v, h) == s.node.feedback && StoredResult(v, h) == s.node.result
    ensures var r := Conclude(v, s, i);
            && r.sig.Fine? && Tracked(v, r.s)
            && Follows(v, h, Decide(v, h, s.peer.clock, TimeoutNs(s.node)), i, r)
            && (r.status.Running? ==> Abstracts(v, r.s))
  {
    if !s.node.feedback.Running? {
      StopTracks(v, s, i);
    }
  }

  /** A stop on feedback: the own goal is cancelled, and the node goes on remembering its history. */
  lemma StopTracks(v: Variant, s: Sys, i: TickInput)
    requires Tracked(v, s) && Abstracts(v, s) && s.node.goalReceived && TickObeys(i) && !s.node.feedback.Running?
    ensures var r := Conclude(v, s, i);
            && r.sig.Fine? && Tracked(v, r.s) && Abstracts(v, r.s)
            && OnlyDelivered(Then(Then(s.trace, StoppedByFeedback(s.node.feedback)),
                                  CancelRequested(Current(s.trace).value)), r.s.trace)
            && r.status == (if v.Repaired? then s.node.feedback else LastFeedback(r.s.trace))
  {
    var asked := Log(s, StoppedByFeedback(s.node.feedback));
    RequestCancelTracks(v, asked, i.cancel);
    RequestCancelFrame(v, asked, i.cancel);
  }

  lemma TakeTracks(v: Variant, s: Sys, g: GoalId)
    requires Tracked(v, s) && Abstracts(v, s) && !s.node.goalReceived
    requires Current(s.trace) == Some(g) && g in s.peer.answers
    ensures var t := Take(s.(node := s.node.(goalReceived := true)), g);
            && Tracked(v, t) && t.trace == Held(s.trace)
            && (s.peer.answers[g] ==> Abstracts(v, t))
  {
  }

  lemma ReceiveFollows(v: Variant, s: Sys, i: TickInput, g: GoalId)
    requires Tracked(v, s) && Abstracts(v, s) && TickObeys(i) && !s.node.goalReceived
    requires Current(s.trace) == Some(g) && g in s.peer.answers
    ensures var r := Receive(v, s, g, i);
            && r.sig.Fine? && Tracked(v, r.s)
            && Follows(v, s.trace, Decide(v, s.trace, s.peer.clock, TimeoutNs(s.node)), i, r)
            && (r.status.Running? ==> Abstracts(v, r.s))
  {
    TakeTracks(v, s, g);
    var taken := Take(s.(node := s.node.(goalReceived := true)), g);
    if taken.node.handle.Some? {
      ConcludeFollows(v, taken, i, s.trace);
    }
  }

  lemma DecidedFollows(v: Variant, s: Sys, i: TickInput)
    requires Tracked(v, s) && Abstracts(v, s) && TickObeys(i)
    ensures var r := Decided(v, s, i);
            && r.sig.Fine? && Tracked(v, r.s)
            && Follows(v, s.trace, Decide(v, s.trace, s.peer.clock, TimeoutNs(s.node)), i, r)
            && (r.status.Running? ==> Abstracts(v, r.s))
  {
    var g := Current(s.trace).value;
    if s.node.goalReceived {
      ConcludeFollows(v, s, i, s.trace);
    } else if g in s.peer.answers {
      ReceiveFollows(v, s, i, g);
    } else {
      assert Answer(s.trace, g).None?;
    }
  }
}
