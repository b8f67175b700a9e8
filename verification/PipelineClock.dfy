/** The media clock over whole runs. */
module PipelineClock {
  import opened FrameSpec
  import opened MediaClock
  import opened HandoffSpec
  import opened PipelineMachine

  /** The reading of the monotonic clock a step acts on, if it takes one. */
  function Reading(s: Step): seq<nat> {
    match s
    case StoreArrival(_, now) => [now]
    case StartPlayback(now) => [now]
    case RenderStore(_, now) => [now]
    case RenderClock(now) => [now]
    case RenderReplay(_, now) => [now]
    case _ => []
  }

  /** The last reading so far. */
  function LastReading(steps: seq<Step>): nat {
    if steps == [] then 0
    else
      var r := Reading(steps[|steps| - 1]);
      if r == [] then LastReading(steps[..|steps| - 1]) else r[0]
  }

  /** No reading has been taken yet. */
  predicate Unread(steps: seq<Step>) {
    Monotonic(steps) && LastReading(steps) == 0
  }

  /** The monotonic clock does not go back, and has not wrapped around. */
  predicate Monotonic(steps: seq<Step>) {
    steps == [] ||
    (&& Monotonic(steps[..|steps| - 1])
     && LastReading(steps[..|steps| - 1]) <= LastReading(steps) < WRAP)
  }

  lemma {:induction false} MonotonicPrefix(steps: seq<Step>, n: nat)
    requires Monotonic(steps) && n <= |steps|
    ensures Monotonic(steps[..n])
    decreases |steps|
  {
    if n < |steps| {
      var init := steps[..|steps| - 1];
      MonotonicPrefix(init, n);
      assert init[..n] == steps[..n];
    } else {
      assert steps[..n] == steps;
    }
  }

  lemma MonotonicNext(steps: seq<Step>, s: Step)
    requires Monotonic(steps) && LastReading(steps) < WRAP
    requires Reading(s) != [] ==> LastReading(steps) <= Reading(s)[0] < WRAP
    ensures Monotonic(steps + [s])
    ensures LastReading(steps + [s]) == if Reading(s) == [] then LastReading(steps) else Reading(s)[0]
  {
    assert (steps + [s])[..|steps|] == steps;
  }

  lemma RollbackNotLater(c: Clock, pts: real)
    requires NeedsRollback(c, pts, EPS)
    ensures Rollback(c, pts).tsStart <= c.tsStart
  {
    TruncUsClose(pts - c.origin);
  }

  lemma CatchUpInPast(c: Clock, rel: real, duration: real, now: nat)
    requires c.tsStart <= now
    ensures CatchUp(c, rel, duration, now).tsStart <= now && MediaClock.StartPlayback(c, rel, now).tsStart <= now
  {
    StartAtDue(rel, now);
  }

  lemma PresentInPast(c: Config, m: Machine, s: Step, now: nat)
    requires m.hub.clock.tsStart <= now && (Reading(s) != [] ==> Reading(s)[0] == now)
    ensures Present(c, m, s).hub.clock.tsStart <= now
  {
    if s.StartPlayback? && m.pres.PStart? {
      CatchUpInPast(m.hub.clock, m.pres.f.pts - m.pres.f.origin, 0.0, now);
    }
  }

  lemma RenderInPast(c: Config, m: Machine, s: Step, now: nat)
    requires m.hub.clock.tsStart <= now && (Reading(s) != [] ==> Reading(s)[0] == now)
    ensures Render(c, m, s).hub.clock.tsStart <= now
  {
    match (s, m.rend)
    case (RenderSubmit, RTook(e, _)) =>
      if NeedsRollback(m.hub.clock, e.pts, EPS) {
        RollbackNotLater(m.hub.clock, e.pts);
      }
    case (RenderClock(_), RClock(e, rel)) =>
      CatchUpInPast(m.hub.clock, rel, e.duration, now);
    case _ =>
  }

  /** In every run, resets, replays and roll-backs at any point included, the start instant is not later than the
      last reading.  So the difference to it does not wrap around for a reading that is used before anything
      else happens. */
  lemma {:induction false} StartNeverInFuture(c: Config, steps: seq<Step>, now: nat)
    requires Monotonic(steps) && LastReading(steps) <= now < WRAP
    ensures var start := Run(c, steps).hub.clock.tsStart;
            start <= LastReading(steps) && SubU64(now, start) == now - start
  {
    if steps != [] {
      var init, s := steps[..|steps| - 1], steps[|steps| - 1];
      StartNeverInFuture(c, init, LastReading(steps));
      PresentInPast(c, Run(c, init), s, LastReading(steps));
      RenderInPast(c, Run(c, init), s, LastReading(steps));
    }
    SubU64Exact(now, Run(c, steps).hub.clock.tsStart);
  }

  // ---------------------------------------------------------------------------------------------
  // Whole submissions

  /** A submission that nothing interrupts moves the clock as one step: roll-back and catch-up together. */
  lemma SubmissionClock(c: Config, m: Machine, now: nat)
    requires c.Valid() && m.rend.RTook? && !m.rend.e.warmup && SubmitOutcome(c, m.hub, m.rend.e).Queued?
    ensures Next(c, Next(c, m, RenderSubmit), RenderClock(now)).hub.clock
         == Submitted(m.hub.clock, m.rend.e.pts, m.rend.e.duration, now, EPS)
  {
  }

  /** An arrival that is queued directly, and that nothing interrupts, starts a clock that stands for its position
      from the origin it was positioned with, and leaves a running one alone. */
  lemma ArrivalClock(c: Config, m: Machine, now: nat)
    requires m.pres.PQueued? && !m.pres.f.warmup
    ensures var clock := Next(c, Next(c, m, CleanUp), StartPlayback(now)).hub.clock;
            && (m.hub.clock.started ==> clock == m.hub.clock)
            && (!m.hub.clock.started ==> clock.started && clock.origin == m.hub.clock.origin
                                         && DueAt(clock.tsStart, m.pres.f.pts - m.pres.f.origin, now))
  {
    StartMakesDue(m.pres.f.pts - m.pres.f.origin, now);
  }

  // ---------------------------------------------------------------------------------------------
  // A reading that is used later

  /** The step puts the start instant behind the reading r: it starts the clock, or makes it jump, for a frame
      that is due after r. */
  predicate StartsAfter(c: Config, m: Machine, s: Step, r: nat) {
    var clock := m.hub.clock;
    match s
    case StartPlayback(now) =>
      && m.pres.PStart? && !m.pres.f.warmup && !clock.started
      && StartAt(m.pres.f.pts - m.pres.f.origin, now) > r
    case RenderClock(now) =>
      && m.rend.RClock?
      && (!clock.started ||
          (clock.tsStart != 0 && m.rend.rel > FromUs(SubU64(now, clock.tsStart)) + Threshold(m.rend.e.duration)))
      && StartAt(m.rend.rel, now) > r
    case RenderReplay(e, now) =>
      m.rend.RIdle? && !e.warmup && |m.hub.queue| < c.depthLimit && !clock.started && now > r
    case _ => false
  }

  predicate IsPresenting(s: Step) {
    s.Submit? || s.ArriveDirect? || s.Arrive? || s.Snapshot? || s.PushPromotion? || s.StoreArrival? || s.CleanUp?
    || s.StartPlayback?
  }

  predicate IsRendering(s: Step) {
    s.RenderClaim? || s.RenderSubmit? || s.RenderStore? || s.RenderClock? || s.RenderFinish? || s.RenderUpdate?
  }

  lemma PresentStartsAfter(c: Config, m: Machine, s: Step, r: nat)
    requires m.hub.clock.tsStart <= r && IsPresenting(s)
    ensures Present(c, m, s).hub.clock.tsStart > r <==> StartsAfter(c, m, s, r)
  {
  }

  lemma RenderStartsAfter(c: Config, m: Machine, s: Step, r: nat)
    requires m.hub.clock.tsStart <= r && IsRendering(s)
    ensures Render(c, m, s).hub.clock.tsStart > r <==> StartsAfter(c, m, s, r)
  {
    if s.RenderSubmit? && m.rend.RTook? && NeedsRollback(m.hub.clock, m.rend.e.pts, EPS) {
      RollbackNotLater(m.hub.clock, m.rend.e.pts);
    }
  }

  /** No other step moves the start instant behind r. */
  lemma StartsAfterExactly(c: Config, m: Machine, s: Step, r: nat)
    requires m.hub.clock.tsStart <= r
    ensures Next(c, m, s).hub.clock.tsStart > r <==> StartsAfter(c, m, s, r)
  {
    if IsPresenting(s) {
      PresentStartsAfter(c, m, s, r);
    } else if IsRendering(s) {
      RenderStartsAfter(c, m, s, r);
    }
  }

  function StartOf(c: Config, steps: seq<Step>, n: nat): nat
    requires n <= |steps|
  {
    Run(c, steps[..n]).hub.clock.tsStart
  }

  /** After position i a step puts the start instant behind r, and it stays there. */
  ghost predicate Overtaken(c: Config, steps: seq<Step>, i: nat, r: nat) {
    exists k :: i <= k < |steps| && StartsAfter(c, Run(c, steps[..k]), steps[k], r) && StaysAfter(c, steps, k, r)
  }

  ghost predicate StaysAfter(c: Config, steps: seq<Step>, k: nat, r: nat) {
    forall l :: k < l <= |steps| ==> StartOf(c, steps, l) > r
  }

  lemma {:induction false} LastCrossing(c: Config, steps: seq<Step>, i: nat, n: nat, r: nat) returns (k: nat)
    requires i <= n <= |steps| && StartOf(c, steps, i) <= r && StartOf(c, steps, n) > r
    ensures i <= k < n && StartOf(c, steps, k) <= r
    ensures forall l :: k < l <= n ==> StartOf(c, steps, l) > r
  {
    if StartOf(c, steps, n - 1) <= r {
      k := n - 1;
    } else {
      k := LastCrossing(c, steps, i, n - 1, r);
    }
  }

  lemma CrossedIsOvertaken(c: Config, steps: seq<Step>, i: nat, r: nat)
    requires i <= |steps| && StartOf(c, steps, i) <= r < StartOf(c, steps, |steps|)
    ensures Overtaken(c, steps, i, r)
  {
    var k := LastCrossing(c, steps, i, |steps|, r);
    assert StaysAfter(c, steps, k, r);
    CrossingStep(c, steps, k, r);
  }

  lemma CrossingStep(c: Config, steps: seq<Step>, k: nat, r: nat)
    requires k < |steps| && StartOf(c, steps, k) <= r < StartOf(c, steps, k + 1)
    ensures StartsAfter(c, Run(c, steps[..k]), steps[k], r)
  {
    assert steps[..k + 1][..k] == steps[..k];
    StartsAfterExactly(c, Run(c, steps[..k]), steps[k], r);
  }

  lemma OvertakenIsPast(c: Config, steps: seq<Step>, i: nat, r: nat)
    requires Overtaken(c, steps, i, r)
    ensures StartOf(c, steps, |steps|) > r
  {
  }

  /** A reading taken after i steps and used at the end of the run wraps around if and only if the start instant
      was put behind it in between, and then the difference is just below 2 to the 64th. */
  lemma ReadingWrapsExactlyWhen(c: Config, steps: seq<Step>, i: nat, r: nat)
    requires Monotonic(steps) && i <= |steps| && LastReading(steps[..i]) <= r < WRAP
    ensures var start := StartOf(c, steps, |steps|);
            && (SubU64(r, start) != r - start <==> Overtaken(c, steps, i, r))
            && (Overtaken(c, steps, i, r) ==> start > r && SubU64(r, start) == WRAP - (start - r))
  {
    var start := StartOf(c, steps, |steps|);
    StartBounds(c, steps, i, r);
    if start <= r {
      SubU64Exact(r, start);
      if Overtaken(c, steps, i, r) {
        OvertakenIsPast(c, steps, i, r);
      }
    } else {
      CrossedIsOvertaken(c, steps, i, r);
      SubU64Wraps(r, start);
    }
  }

  lemma StartBounds(c: Config, steps: seq<Step>, i: nat, r: nat)
    requires Monotonic(steps) && i <= |steps| && LastReading(steps[..i]) <= r < WRAP
    ensures StartOf(c, steps, i) <= r && StartOf(c, steps, |steps|) < WRAP
  {
    assert steps[..|steps|] == steps;
    MonotonicPrefix(steps, i);
    StartNeverInFuture(c, steps[..i], r);
    StartNeverInFuture(c, steps, if steps == [] then 0 else LastReading(steps));
  }

  lemma SubU64Wraps(a: nat, b: nat)
    requires a < b < WRAP
    ensures SubU64(a, b) == WRAP - (b - a)
  {
  }
}
