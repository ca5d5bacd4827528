/**
  The rate loop of TreeExecutionServer::execute: absolute deadlines one period apart, and a sleep
  up to the deadline that a wake-up can cut short. Times are in nanoseconds.
 */
module RateLoop {

  /** One iteration: the time from the start of the tick to the reading of the clock, and what a wake-up cuts off. */
  datatype Pace = Pace(work: nat, cut: nat)

  function Max(a: int, b: int): int {
    if a < b then b else a
  }

  // ---------- the period ----------

  /** The cast of 1000.0 / tick_frequency to int, in milliseconds. */
  function PeriodMs(frequency: nat): int
    requires 1 <= frequency
  {
    (1000.0 / frequency as real).Floor
  }

  /** The truncated quotient, without reals. */
  lemma PeriodIsQuotient(f: nat)
    requires 1 <= f <= 1000
    ensures PeriodMs(f) == 1000 / f
  {
  }

  /** For every permitted frequency the nominal rate 1000 / P lies between f and 2 f. */
  lemma PeriodBounds(f: nat)
    requires 1 <= f <= 1000
    ensures 1 <= PeriodMs(f)
    ensures PeriodMs(f) * f <= 1000 < (PeriodMs(f) + 1) * f
    ensures f * PeriodMs(f) <= 1000 < 2 * f * PeriodMs(f)
  {
    PeriodIsQuotient(f);
    var p := 1000 / f;
    assert p >= 1;
    assert (p + 1) * f <= 2 * p * f;
  }

  // ---------- the schedule ----------

  /** loop_deadline in the iteration that follows `n` complete ones. */
  function Deadline(t0: int, period: nat, n: nat): int {
    t0 + (n + 1) * period
  }

  /** When an iteration that started at `start` ends: at the deadline, earlier if cut short, or at once if late. */
  function End(start: int, deadline: int, p: Pace): int {
    var now := start + p.work;
    if now < deadline then Max(now, deadline - p.cut) else now
  }

  /** When the tick that follows the iterations `ps` starts. */
  function StartAfter(t0: int, period: nat, ps: seq<Pace>): int {
    if ps == [] then t0
    else
      var n := |ps| - 1;
      End(StartAfter(t0, period, ps[..n]), Deadline(t0, period, n), ps[n])
  }

  function Work(ps: seq<Pace>): nat {
    if ps == [] then 0 else Work(ps[..|ps| - 1]) + ps[|ps| - 1].work
  }

  predicate Uncut(ps: seq<Pace>) {
    forall p | p in ps :: p.cut == 0
  }

  /** The start forced by being on time at iteration `j` and working without a pause from then on. */
  function Candidate(t0: int, period: nat, ps: seq<Pace>, j: nat): int
    requires j <= |ps|
  {
    t0 + j * period + Work(ps[j..])
  }

  lemma CandidateStep(t0: int, period: nat, ps: seq<Pace>, j: nat)
    requires j < |ps|
    ensures Candidate(t0, period, ps, j) == Candidate(t0, period, ps[..|ps| - 1], j) + ps[|ps| - 1].work
  {
    var n := |ps| - 1;
    assert ps[j..][..|ps[j..]| - 1] == ps[..n][j..];
  }

  /** Without early wake-ups a tick starts at the largest candidate. */
  lemma {:induction false} ClosedForm(t0: int, period: nat, ps: seq<Pace>)
    requires Uncut(ps)
    ensures forall j | 0 <= j <= |ps| :: Candidate(t0, period, ps, j) <= StartAfter(t0, period, ps)
    ensures exists j :: 0 <= j <= |ps| && Candidate(t0, period, ps, j) == StartAfter(t0, period, ps)
  {
    if ps == [] {
      assert Candidate(t0, period, ps, 0) == t0;
    } else {
      var n := |ps| - 1;
      var init := ps[..n];
      ClosedForm(t0, period, init);
      assert ps[n] in ps;
      var here := StartAfter(t0, period, ps);
      assert here == Max(StartAfter(t0, period, init) + ps[n].work, Deadline(t0, period, n));
      assert Candidate(t0, period, ps, n + 1) == Deadline(t0, period, n);
      forall j | 0 <= j <= |ps| ensures Candidate(t0, period, ps, j) <= here {
        if j <= n {
          CandidateStep(t0, period, ps, j);
        }
      }
      if here == Deadline(t0, period, n) {
        assert Candidate(t0, period, ps, n + 1) == here;
      } else {
        var j :| 0 <= j <= n && Candidate(t0, period, init, j) == StartAfter(t0, period, init);
        CandidateStep(t0, period, ps, j);
        assert Candidate(t0, period, ps, j) == here;
      }
    }
  }

  /** Without early wake-ups no tick comes before its time, and there is no drift while every tick fits its period. */
  lemma {:induction false} NoDrift(t0: int, period: nat, ps: seq<Pace>)
    requires Uncut(ps)
    ensures t0 + |ps| * period <= StartAfter(t0, period, ps)
    ensures (forall p | p in ps :: p.work <= period) ==> StartAfter(t0, period, ps) == t0 + |ps| * period
  {
    if ps != [] {
      var n := |ps| - 1;
      assert ps[n] in ps;
      NoDrift(t0, period, ps[..n]);
      assert (n + 1) * period == n * period + period;
    }
  }

  /** How far behind schedule the tick after `ps` starts. */
  function Lateness(t0: int, period: nat, ps: seq<Pace>): int {
    StartAfter(t0, period, ps) - (t0 + |ps| * period)
  }

  /** One iteration: while late, the next tick starts at once. */
  lemma LatenessStep(t0: int, period: nat, ps: seq<Pace>, p: Pace)
    requires Uncut(ps + [p])
    ensures Lateness(t0, period, ps + [p]) == Max(0, Lateness(t0, period, ps) + p.work - period)
    ensures Lateness(t0, period, ps + [p]) > 0 ==>
              StartAfter(t0, period, ps + [p]) == StartAfter(t0, period, ps) + p.work
  {
    assert p in ps + [p];
    assert (ps + [p])[..|ps|] == ps;
    assert (|ps| + 1) * period == |ps| * period + period;
  }

  /** The work of some iterations beyond their periods; when negative, the slack they leave. */
  function Excess(period: nat, ps: seq<Pace>): int {
    Work(ps) - |ps| * period
  }

  lemma ExcessStep(period: nat, ps: seq<Pace>, j: nat)
    requires j < |ps|
    ensures Excess(period, ps[j..]) == Excess(period, ps[..|ps| - 1][j..]) + ps[|ps| - 1].work - period
  {
    var n := |ps| - 1;
    assert ps[j..][..|ps[j..]| - 1] == ps[..n][j..];
    assert |ps[j..]| * period == |ps[..n][j..]| * period + period;
  }

  /** An earlier lateness carried through `qs`, or the excess of the iterations from some moment on. */
  predicate LatenessOf(late: int, before: int, period: nat, qs: seq<Pace>) {
    && before + Excess(period, qs) <= late
    && (forall j | 0 <= j <= |qs| :: Excess(period, qs[j..]) <= late)
    && (late == before + Excess(period, qs) || exists j :: 0 <= j <= |qs| && Excess(period, qs[j..]) == late)
  }

  /**
    Lateness over any stretch `qs` of a run without early wake-ups: the largest of the lateness
    before it plus its excess, and of the excesses of its ends, the empty one included.
   */
  lemma {:induction false} LatenessOverRuns(t0: int, period: nat, ps: seq<Pace>, qs: seq<Pace>)
    requires Uncut(ps + qs)
    ensures LatenessOf(Lateness(t0, period, ps + qs), Lateness(t0, period, ps), period, qs)
    decreases |qs|
  {
    if qs == [] {
      assert ps + qs == ps && qs[0..] == [];
      NoDrift(t0, period, ps);
      assert Excess(period, qs[0..]) == 0;
    } else {
      var n := |qs| - 1;
      var init, late := qs[..n], Lateness(t0, period, ps + qs);
      assert ps + qs == (ps + init) + [qs[n]];
      LatenessOverRuns(t0, period, ps, init);
      LatenessStep(t0, period, ps + init, qs[n]);
      var before := Lateness(t0, period, ps + init);
      assert qs[0..] == qs && init[0..] == init && qs[|qs|..] == [];
      ExcessStep(period, qs, 0);
      forall j | 0 <= j <= |qs| ensures Excess(period, qs[j..]) <= late {
        if j <= n {
          ExcessStep(period, qs, j);
        }
      }
      if late == 0 {
        assert Excess(period, qs[|qs|..]) == late;
      } else if before != Lateness(t0, period, ps) + Excess(period, init) {
        var j :| 0 <= j <= n && Excess(period, init[j..]) == before;
        ExcessStep(period, qs, j);
        assert Excess(period, qs[j..]) == late;
      }
    }
  }

  /** An overrun is repaid in full: ticks that fit their periods use up all their slack on it. */
  lemma OverrunIsRepaid(t0: int, period: nat, ps: seq<Pace>, qs: seq<Pace>)
    requires Uncut(ps + qs) && forall q | q in qs :: q.work <= period
    ensures Lateness(t0, period, ps + qs) == Max(0, Lateness(t0, period, ps) + Excess(period, qs))
    ensures StartAfter(t0, period, ps + qs) == t0 + (|ps| + |qs|) * period <==>
            Lateness(t0, period, ps) <= -Excess(period, qs)
  {
    LatenessOverRuns(t0, period, ps, qs);
    forall j | 0 <= j <= |qs| ensures Excess(period, qs[j..]) <= 0 {
      FittingHasSlack(period, qs[j..]);
    }
    assert qs[|qs|..] == [];
    assert Excess(period, qs[|qs|..]) == 0;
  }

  lemma {:induction false} FittingHasSlack(period: nat, qs: seq<Pace>)
    requires forall q | q in qs :: q.work <= period
    ensures Excess(period, qs) <= 0
    decreases |qs|
  {
    if qs != [] {
      var n := |qs| - 1;
      assert qs[n] in qs;
      FittingHasSlack(period, qs[..n]);
      assert |qs| * period == n * period + period;
    }
  }

  // ---------- early wake-ups ----------

  /** The last iteration was woken before its deadline; one that is late does not sleep and cannot be. */
  predicate Woken(t0: int, period: nat, ps: seq<Pace>) {
    ps != [] && StartAfter(t0, period, ps) < Deadline(t0, period, |ps| - 1)
  }

  /** Early wake-ups in a row just before the tick. */
  function EarlyRun(t0: int, period: nat, ps: seq<Pace>): nat {
    if Woken(t0, period, ps) then EarlyRun(t0, period, ps[..|ps| - 1]) + 1 else 0
  }

  function EarlyCount(t0: int, period: nat, ps: seq<Pace>): nat {
    if ps == [] then 0
    else EarlyCount(t0, period, ps[..|ps| - 1]) + if Woken(t0, period, ps) then 1 else 0
  }

  /** Only a wake-up that cuts the sleep short counts, and only in an iteration that sleeps. */
  lemma WokenIsExact(t0: int, period: nat, ps: seq<Pace>)
    requires ps != []
    ensures var n := |ps| - 1;
            Woken(t0, period, ps) <==>
            ps[n].cut > 0 && StartAfter(t0, period, ps[..n]) + ps[n].work < Deadline(t0, period, n)
    ensures var n := |ps| - 1;
            Woken(t0, period, ps) ==>
              StartAfter(t0, period, ps) ==
              Max(StartAfter(t0, period, ps[..n]) + ps[n].work, Deadline(t0, period, n) - ps[n].cut)
  {
  }

  lemma {:induction false} EarlyRunBound(t0: int, period: nat, ps: seq<Pace>)
    ensures EarlyRun(t0, period, ps) <= EarlyCount(t0, period, ps) && EarlyRun(t0, period, ps) <= |ps|
  {
    if ps != [] {
      EarlyRunBound(t0, period, ps[..|ps| - 1]);
    }
  }

  /** A tick comes early by at most one period for each early wake-up in the run before it. */
  lemma {:induction false} EarlyWakeBound(t0: int, period: nat, ps: seq<Pace>)
    ensures t0 + (|ps| - EarlyRun(t0, period, ps)) * period <= StartAfter(t0, period, ps)
  {
    if ps != [] {
      var n := |ps| - 1;
      EarlyWakeBound(t0, period, ps[..n]);
      if Woken(t0, period, ps) {
        assert |ps| - EarlyRun(t0, period, ps) == n - EarlyRun(t0, period, ps[..n]);
      } else {
        assert Deadline(t0, period, n) == t0 + |ps| * period;
      }
    }
  }

  /** The ticks that start within the first `span` nanoseconds exceed the schedule by at most the early wake-ups. */
  lemma TickBudget(t0: int, period: nat, ps: seq<Pace>, span: nat)
    requires period > 0 && StartAfter(t0, period, ps) <= t0 + span
    ensures |ps| + 1 <= span / period + 1 + EarlyCount(t0, period, ps)
  {
    EarlyWakeBound(t0, period, ps);
    EarlyRunBound(t0, period, ps);
    var onTime := |ps| - EarlyRun(t0, period, ps);
    assert onTime * period <= span;
    QuotientBound(onTime, period, span);
  }

  lemma QuotientBound(k: int, d: nat, n: nat)
    requires d > 0 && k * d <= n
    ensures k <= n / d
  {
    assert n < (n / d + 1) * d;
    MultipleOrder(k, n / d + 1, d);
  }

  lemma MultipleOrder(a: int, b: int, c: int)
    requires c > 0
    ensures a < b <==> a * c < b * c
  {
  }
}
