/** Pacing arithmetic: presentation targets on a fixed grid, and the smoothed latency estimates. */
module Pacing {

  // ---------------------------------------------------------------------------------------------
  // Missed intervals

  function Grid(target: int, interval: int, k: int): int {
    target + k * interval
  }

  lemma GridMonotone(target: int, interval: int, j: int, k: int)
    requires interval > 0 && j < k
    ensures Grid(target, interval, j) + interval <= Grid(target, interval, k)
  {
    assert (k - j - 1) * interval >= 0;
    assert k * interval == j * interval + interval + (k - j - 1) * interval;
  }

  lemma GridShift(target: int, interval: int, j: int, k: int)
    ensures Grid(Grid(target, interval, j), interval, k) == Grid(target, interval, j + k)
  {
  }

  ghost predicate OnGrid(target: int, interval: int, r: int) {
    exists k: nat :: r == Grid(target, interval, k)
  }

  /** `r` is the least point of the grid target, target + interval, ... that lies strictly after now. */
  ghost predicate FirstAfter(target: int, interval: int, now: int, r: int) {
    && OnGrid(target, interval, r)
    && r > now
    && (forall k: nat :: Grid(target, interval, k) > now ==> r <= Grid(target, interval, k))
  }

  /** A grid point after now whose predecessor is not after now, or that is the start, is the least one. */
  lemma LeastByPredecessor(target: int, interval: int, now: int, k: nat)
    requires interval > 0
    requires Grid(target, interval, k) > now && (k == 0 || Grid(target, interval, k - 1) <= now)
    ensures FirstAfter(target, interval, now, Grid(target, interval, k))
  {
    forall j: nat | Grid(target, interval, j) > now
      ensures Grid(target, interval, k) <= Grid(target, interval, j)
    {
      if j < k - 1 {
        GridMonotone(target, interval, j, k - 1);
      } else if k < j {
        GridMonotone(target, interval, k, j);
      }
    }
  }

  lemma FirstAfterUnique(target: int, interval: int, now: int, r: int, q: int)
    requires FirstAfter(target, interval, now, r) && FirstAfter(target, interval, now, q)
    ensures r == q
  {
  }

  /** The loop of throttleFramePresentation. */
  method AdvanceByLoop(target: int, interval: int, now: int) returns (r: int)
    requires interval > 0
    ensures FirstAfter(target, interval, now, r)
  {
    r := target;
    ghost var k: nat := 0;
    while r <= now
      invariant r == Grid(target, interval, k)
      invariant k == 0 || Grid(target, interval, k - 1) <= now
      decreases now - r
    {
      r := r + interval;
      k := k + 1;
    }
    LeastByPredecessor(target, interval, now, k);
  }

  /** The closed form of scheduleBufferedUpdate. */
  method AdvanceByDivision(target: int, interval: int, now: int) returns (r: int)
    requires interval > 0
    ensures FirstAfter(target, interval, now, r)
  {
    r := target;
    if now >= target {
      var elapsed := now - target;
      var missed := elapsed / interval + 1;
      r := target + missed * interval;
      assert elapsed == (elapsed / interval) * interval + elapsed % interval;
      LeastByPredecessor(target, interval, now, missed);
    } else {
      LeastByPredecessor(target, interval, now, 0);
    }
  }

  /** Both ways of skipping missed intervals agree on all targets, clocks and positive intervals. */
  method AdvanceEitherWay(target: int, interval: int, now: int) returns (byLoop: int, byDivision: int)
    requires interval > 0
    ensures byLoop == byDivision && byLoop > now
  {
    byLoop := AdvanceByLoop(target, interval, now);
    byDivision := AdvanceByDivision(target, interval, now);
    FirstAfterUnique(target, interval, now, byLoop, byDivision);
  }

  // ---------------------------------------------------------------------------------------------
  // Throttling

  /** A monotonic clock.  Reading it takes time, and sleeping takes at least the time asked for; `overshootUs` is
      the time that passed beyond what was asked for. */
  class MonotonicClock {
    var nowUs: int
    ghost var overshootUs: int

    constructor (start: int)
      ensures nowUs == start && overshootUs == 0
    {
      nowUs, overshootUs := start, 0;
    }

    method Read() returns (t: int)
      modifies this
      ensures t == nowUs && nowUs >= old(nowUs)
      ensures nowUs - old(nowUs) == overshootUs - old(overshootUs)
    {
      var d: int :| d >= 0;
      nowUs, overshootUs := nowUs + d, overshootUs + d;
      t := nowUs;
    }

    method Sleep(us: int)
      requires us >= 0
      modifies this
      ensures nowUs >= old(nowUs) + us
      ensures nowUs - old(nowUs) == us + overshootUs - old(overshootUs)
    {
      var d: int :| d >= 0;
      nowUs, overshootUs := nowUs + us + d, overshootUs + d;
    }
  }

  /** A request to sleep for `us` microseconds, made at the instant `at`. */
  datatype Sleep = Sleep(at: int, us: int)

  /** One call of the throttle: `entry` is the clock reading it acts on, `back` the clock when it returns,
      `before` the target it starts from (0 when unset) and `after` the target it leaves behind; `sleeps` are the
      requests it makes, and `over` is how much longer they and the readings took than asked for. */
  datatype Call = Call(entry: int, back: int, lead: int, before: int, after: int, sleeps: seq<Sleep>, over: int)

  /** The target is the first point of the grid after entry, counted from the target before or, if there is none, from
      one interval after entry. */
  ghost predicate Aims(call: Call, interval: int) {
    FirstAfter(if call.before == 0 then call.entry + interval else call.before, interval, call.entry, call.after - interval)
  }

  /** No request to sleep goes beyond the target less the lead; with the target within the lead there is none. */
  ghost predicate Punctual(call: Call, interval: int) {
    var wakeup := call.after - interval - call.lead;
    && (forall s :: s in call.sleeps ==> s.us > 0 && s.at >= call.entry && s.at + s.us <= wakeup)
    && (wakeup <= call.entry ==> call.sleeps == [])
    && call.over >= 0
    && call.back <= (if wakeup > call.entry then wakeup else call.entry) + call.over
  }

  /** What a call does that nothing interrupts: it returns between the target less the lead and that instant plus
      the time that sleeping and reading took too long. */
  ghost predicate Throttled(call: Call, interval: int) {
    && Aims(call, interval) && Punctual(call, interval)
    && call.back >= call.entry
    && call.back >= call.after - interval - call.lead
  }

  /** The call returns at the instant at which it is due, give or take `d` to the late side: when it was made, or the
      lead before its target if that is later. */
  predicate Within(call: Call, interval: int, d: int) {
    var wakeup := call.after - interval - call.lead;
    var due := if wakeup > call.entry then wakeup else call.entry;
    due <= call.back <= due + d
  }

  lemma IntervalIsRounded(intervalS: real)
    requires intervalS > 0.0
    ensures -0.5 <= intervalS * 1000000.0 - IntervalUs(intervalS) as real <= 0.5
  {
    var x := intervalS * 1000000.0 + 0.5;
    assert x.Floor as real <= x < x.Floor as real + 1.0;
  }

  function IntervalUs(intervalS: real): int {
    if intervalS > 0.0 then (intervalS * 1000000.0 + 0.5).Floor else 0
  }

  const SAME_INTERVAL_S: real := 0.000001

  class Throttle {
    var nextFrameTargetUs: int
    var lastThrottleIntervalS: real
    const clock: MonotonicClock

    constructor (clock: MonotonicClock)
      ensures nextFrameTargetUs == 0 && lastThrottleIntervalS == 0.0 && this.clock == clock
    {
      nextFrameTargetUs, lastThrottleIntervalS := 0, 0.0;
      this.clock := clock;
    }

    /** throttleFramePresentation.  `resetPending` is the reset flag found on entry, `interrupt` the number
        of sleeps after which an update of the user interface becomes pending, and `resetAgain` the reset
        flag found on the way out.  A target of zero stands for "unset". */
    method ThrottleFramePresentation(intervalS: real, leadUs: int, resetPending: bool, interrupt: nat, resetAgain: bool)
        returns (ghost call: Call, interrupted: bool)
      requires leadUs >= 0
      modifies this, clock
      ensures clock.nowUs >= old(clock.nowUs)
      ensures intervalS <= 0.0 ==> nextFrameTargetUs == 0 && lastThrottleIntervalS == 0.0 && clock.nowUs == old(clock.nowUs)
      ensures IntervalUs(intervalS) > 0 ==>
                && clock.nowUs == call.back && call.entry >= old(clock.nowUs) && call.lead == leadUs
                && (var change := intervalS - old(lastThrottleIntervalS);
                    call.before == if resetPending || change > SAME_INTERVAL_S || -change > SAME_INTERVAL_S then 0
                                   else old(nextFrameTargetUs))
                && Aims(call, IntervalUs(intervalS)) && Punctual(call, IntervalUs(intervalS))
                && 0 <= call.over <= clock.overshootUs - old(clock.overshootUs)
                && (!interrupted ==> Throttled(call, IntervalUs(intervalS)))
                && (!interrupted ==> nextFrameTargetUs == call.after && lastThrottleIntervalS == intervalS)
                && (interrupted ==> nextFrameTargetUs == 0 && lastThrottleIntervalS == 0.0)
                && (resetAgain ==> interrupted)
    {
      call, interrupted := Call(0, 0, leadUs, 0, 0, [], 0), false;
      if resetPending {
        nextFrameTargetUs, lastThrottleIntervalS := 0, 0.0;
      }
      if intervalS <= 0.0 {
        nextFrameTargetUs, lastThrottleIntervalS := 0, 0.0;
        return;
      }
      var intervalUs := (intervalS * 1000000.0 + 0.5).Floor;
      if intervalUs == 0 {
        return;
      }
      if lastThrottleIntervalS - intervalS > SAME_INTERVAL_S || intervalS - lastThrottleIntervalS > SAME_INTERVAL_S {
        nextFrameTargetUs := 0;
      }
      lastThrottleIntervalS := intervalS;
      call, interrupted := WaitForTarget(intervalUs, leadUs, interrupt, resetAgain);
    }

    method WaitForTarget(intervalUs: int, leadUs: int, interrupt: nat, resetAgain: bool) returns (ghost call: Call, interrupted: bool)
      requires intervalUs > 0 && leadUs >= 0
      modifies `nextFrameTargetUs, `lastThrottleIntervalS, clock
      ensures clock.nowUs == call.back && call.entry >= old(clock.nowUs) && call.lead == leadUs && call.back >= call.entry
      ensures call.before == old(nextFrameTargetUs) && Aims(call, intervalUs) && Punctual(call, intervalUs)
      ensures call.over <= clock.overshootUs - old(clock.overshootUs)
      ensures !interrupted ==> Throttled(call, intervalUs) && nextFrameTargetUs == call.after
      ensures !interrupted ==> lastThrottleIntervalS == old(lastThrottleIntervalS)
      ensures interrupted ==> nextFrameTargetUs == 0 && lastThrottleIntervalS == 0.0
      ensures resetAgain ==> interrupted
    {
      var nowUs := clock.Read();
      ghost var before := nextFrameTargetUs;
      if nextFrameTargetUs == 0 {
        nextFrameTargetUs := nowUs + intervalUs;
      }
      var target := AdvanceByLoop(nextFrameTargetUs, intervalUs, nowUs);
      nextFrameTargetUs := target;
      var wakeup := if target - nowUs > leadUs then target - leadUs else nowUs;
      var wait := wakeup - nowUs;
      var sleeps := 0;
      ghost var requests: seq<Sleep> := [];
      ghost var over := clock.overshootUs;
      while wait > 0 && sleeps != interrupt
        invariant clock.nowUs >= nowUs && wait >= 0 && clock.overshootUs >= over
        invariant wait == 0 ==> clock.nowUs >= wakeup
        invariant wait > 0 ==> wakeup - clock.nowUs == wait
        invariant clock.nowUs <= wakeup + clock.overshootUs - over
        invariant forall s :: s in requests ==> s.us > 0 && s.at >= nowUs && s.at + s.us <= wakeup
        invariant wakeup == nowUs ==> wait == 0 && requests == []
        decreases wait
        modifies clock
      {
        requests := requests + [Sleep(clock.nowUs, if wait < 1000 then wait else 1000)];
        clock.Sleep(if wait < 1000 then wait else 1000);
        var now := clock.Read();
        wait := if wakeup > now then wakeup - now else 0;
        sleeps := sleeps + 1;
      }
      interrupted := wait > 0 || sleeps == interrupt || resetAgain;
      if interrupted {
        nextFrameTargetUs, lastThrottleIntervalS := 0, 0.0;
      } else {
        nextFrameTargetUs := nextFrameTargetUs + intervalUs;
      }
      call := Call(nowUs, clock.nowUs, leadUs, before, target + intervalUs, requests, clock.overshootUs - over);
    }

    /** Presents again and again with one interval until a call is interrupted: the returns keep the pace, and are
        late by no more than the clock overshoots in the meantime. */
    method PresentRun(intervalS: real, leads: seq<int>, lead: int, interrupts: seq<nat>)
        returns (backs: seq<int>, ghost calls: seq<Call>)
      requires IntervalUs(intervalS) > 0 && clock.nowUs >= 0
      requires |leads| == |interrupts| && forall i :: 0 <= i < |leads| ==> 0 <= leads[i] <= lead
      modifies this, clock
      ensures PacedRun(calls, IntervalUs(intervalS), lead)
      ensures |backs| == |calls| <= |leads|
      ensures KeepsPace(calls, backs, leads, IntervalUs(intervalS), lead, clock.overshootUs - old(clock.overshootUs))
      ensures |calls| == |leads| > 0 ==> nextFrameTargetUs == calls[|calls| - 1].after
    {
      backs, calls := [], [];
      var interval := IntervalUs(intervalS);
      var i := 0;
      while i < |leads|
        invariant 0 <= i == |calls| == |backs| <= |leads| && clock.nowUs >= 0
        invariant clock.overshootUs >= old(clock.overshootUs)
        invariant Going(calls, backs, leads, interval, lead, clock.overshootUs - old(clock.overshootUs))
        invariant i > 0 ==> 0 < nextFrameTargetUs == calls[i - 1].after && lastThrottleIntervalS == intervalS
      {
        ghost var before := clock.overshootUs - old(clock.overshootUs);
        var call, interrupted := ThrottleFramePresentation(intervalS, leads[i], false, interrupts[i], false);
        GoingStays(calls, backs, leads, interval, lead, before, clock.overshootUs - old(clock.overshootUs));
        if interrupted {
          break;
        }
        GoesOn(calls, backs, leads, call, interval, lead, clock.overshootUs - old(clock.overshootUs));
        backs, calls := backs + [clock.nowUs], calls + [call];
        i := i + 1;
      }
      PaceIsKept(calls, backs, leads, interval, lead, clock.overshootUs - old(clock.overshootUs));
    }
  }

  ghost predicate Recorded(calls: seq<Call>, backs: seq<int>, leads: seq<int>, d: int) {
    && |calls| == |backs| <= |leads|
    && forall i :: 0 <= i < |calls| ==> backs[i] == calls[i].back && calls[i].lead == leads[i] && calls[i].over <= d
  }

  ghost predicate Going(calls: seq<Call>, backs: seq<int>, leads: seq<int>, interval: int, lead: int, d: int) {
    Recorded(calls, backs, leads, d) && PacedRun(calls, interval, lead)
  }

  lemma GoingStays(calls: seq<Call>, backs: seq<int>, leads: seq<int>, interval: int, lead: int, d: int, more: int)
    requires Going(calls, backs, leads, interval, lead, d) && d <= more
    ensures Going(calls, backs, leads, interval, lead, more)
  {
  }

  lemma GoesOn(calls: seq<Call>, backs: seq<int>, leads: seq<int>, call: Call, interval: int, lead: int, d: int)
    requires Going(calls, backs, leads, interval, lead, d) && |calls| < |leads|
    requires call.lead == leads[|calls|] <= lead && call.over <= d && Throttled(call, interval)
    requires calls != [] ==> call.before == calls[|calls| - 1].after && call.before != 0
    ensures Going(calls + [call], backs + [call.back], leads, interval, lead, d)
  {
    RunGoesOn(calls, call, interval, lead);
  }

  /** What the pacing rate says of every return. */
  ghost predicate KeepsPace(calls: seq<Call>, backs: seq<int>, leads: seq<int>, interval: int, lead: int, d: int) {
    && Recorded(calls, backs, leads, d)
    && forall i :: 0 <= i < |calls| ==>
         && backs[i] > Grid(calls[0].entry, interval, i) - lead
         && calls[i].after <= backs[i] + interval + lead
         && OnGrid(calls[0].after, interval, calls[i].after)
         && Within(calls[i], interval, d)
  }

  lemma PaceIsKept(calls: seq<Call>, backs: seq<int>, leads: seq<int>, interval: int, lead: int, d: int)
    requires interval > 0 && PacedRun(calls, interval, lead) && Recorded(calls, backs, leads, d)
    ensures KeepsPace(calls, backs, leads, interval, lead, d)
  {
    forall i | 0 <= i < |calls|
      ensures backs[i] > Grid(calls[0].entry, interval, i) - lead && calls[i].after <= backs[i] + interval + lead
      ensures OnGrid(calls[0].after, interval, calls[i].after) && Within(calls[i], interval, d)
    {
      PacingRate(calls, interval, lead, i);
    }
  }

  lemma RunGoesOn(calls: seq<Call>, call: Call, interval: int, lead: int)
    requires PacedRun(calls, interval, lead) && Throttled(call, interval) && call.lead <= lead
    requires calls != [] ==> call.before == calls[|calls| - 1].after && call.before != 0
    ensures PacedRun(calls + [call], interval, lead)
  {
  }

  /** An uninterrupted run of calls with one interval and a lead of at most `lead`. */
  ghost predicate PacedRun(calls: seq<Call>, interval: int, lead: int) {
    && (forall i :: 0 <= i < |calls| ==> Throttled(calls[i], interval) && calls[i].lead <= lead)
    && (forall i, j :: 0 <= i < j < |calls| && j == i + 1 ==> calls[j].before == calls[i].after && calls[j].before != 0)
  }

  lemma OnGridTrans(target: int, interval: int, r: int, q: int)
    requires OnGrid(target, interval, r) && OnGrid(r, interval, q)
    ensures OnGrid(target, interval, q)
  {
    var j: nat :| r == Grid(target, interval, j);
    var k: nat :| q == Grid(r, interval, k);
    GridShift(target, interval, j, k);
    assert q == Grid(target, interval, j + k);
  }

  lemma OnGridForward(target: int, interval: int, r: int)
    requires interval > 0 && OnGrid(target, interval, r)
    ensures target <= r && OnGrid(target, interval, r + interval)
  {
    var k: nat :| r == Grid(target, interval, k);
    if k > 0 {
      GridMonotone(target, interval, 0, k);
    }
    assert r + interval == Grid(target, interval, k + 1);
  }

  lemma NextTarget(prev: Call, call: Call, interval: int)
    requires interval > 0 && Aims(call, interval) && call.before == prev.after && call.before != 0
    ensures OnGrid(prev.after, interval, call.after) && call.after - interval >= prev.after
  {
    OnGridForward(prev.after, interval, call.after - interval);
  }

  /** Each call advances the target by at least one interval and keeps it on the grid. */
  lemma {:induction false} PacedTargets(calls: seq<Call>, interval: int, lead: int, i: nat)
    requires interval > 0 && PacedRun(calls, interval, lead) && i < |calls|
    ensures calls[i].after - interval > Grid(calls[0].entry, interval, i)
    ensures OnGrid(calls[0].after, interval, calls[i].after)
  {
    if i > 0 {
      PacedTargets(calls, interval, lead, i - 1);
      LinkedCalls(calls, interval, lead, i);
      NextTarget(calls[i - 1], calls[i], interval);
      OnGridTrans(calls[0].after, interval, calls[i - 1].after, calls[i].after);
      GridShift(calls[0].entry, interval, i - 1, 1);
    } else {
      FirstTarget(calls[0], interval);
    }
  }

  lemma FirstTarget(call: Call, interval: int)
    requires Aims(call, interval)
    ensures call.after - interval > Grid(call.entry, interval, 0) && OnGrid(call.after, interval, call.after)
  {
    assert call.after == Grid(call.after, interval, 0);
  }

  lemma LinkedCalls(calls: seq<Call>, interval: int, lead: int, i: nat)
    requires PacedRun(calls, interval, lead) && 0 < i < |calls|
    ensures Aims(calls[i], interval) && calls[i].before == calls[i - 1].after && calls[i].before != 0
  {
  }

  /** The n-th return is later than the first entry plus n - 1 intervals less the lead; on every return the
      next target is at most one interval and the lead ahead, and all targets lie on one grid. */
  lemma PacingRate(calls: seq<Call>, interval: int, lead: int, i: nat)
    requires interval > 0 && PacedRun(calls, interval, lead) && i < |calls|
    ensures calls[i].back > Grid(calls[0].entry, interval, i) - lead
    ensures calls[i].after <= calls[i].back + interval + lead
    ensures OnGrid(calls[0].after, interval, calls[i].after)
    ensures Within(calls[i], interval, calls[i].over)
  {
    PacedTargets(calls, interval, lead, i);
  }

  /** Every call but the first is made before the target it starts from. */
  predicate Prompt(calls: seq<Call>) {
    forall i :: 0 < i < |calls| ==> calls[i].entry < calls[i].before
  }

  lemma {:induction false} PromptTargets(calls: seq<Call>, interval: int, lead: int, i: nat)
    requires interval > 0 && PacedRun(calls, interval, lead) && Prompt(calls) && i < |calls|
    ensures calls[i].after == Grid(calls[0].after, interval, i)
  {
    if i > 0 {
      PromptTargets(calls, interval, lead, i - 1);
      assert calls[i].before == calls[i - 1].after;
      LeastByPredecessor(calls[i].before, interval, calls[i].entry, 0);
      FirstAfterUnique(calls[i].before, interval, calls[i].entry, calls[i].after - interval, calls[i].before);
      GridShift(calls[0].after, interval, i - 1, 1);
    } else {
      assert calls[0].after == Grid(calls[0].after, interval, 0);
    }
  }

  /** The rate from both sides.  With prompt calls no interval is missed: the n-th return lies between the lead before
      the n-th target, which is n - 1 intervals after the first, and that instant plus the overshoot; or, if the call
      was made only then, between its entry and that plus the overshoot. */
  lemma PromptPacing(calls: seq<Call>, interval: int, lead: int, i: nat)
    requires interval > 0 && PacedRun(calls, interval, lead) && Prompt(calls) && i < |calls|
    ensures var target := Grid(calls[0].after - interval, interval, i);
            var wakeup := target - calls[i].lead;
            var due := if wakeup > calls[i].entry then wakeup else calls[i].entry;
            && calls[i].after == target + interval
            && due <= calls[i].back <= due + calls[i].over
            && (calls[0].before == 0 ==> target == Grid(calls[0].entry + interval, interval, i))
  {
    PromptTargets(calls, interval, lead, i);
    if calls[0].before == 0 {
      LeastByPredecessor(calls[0].entry + interval, interval, calls[0].entry, 0);
      FirstAfterUnique(calls[0].entry + interval, interval, calls[0].entry, calls[0].after - interval, calls[0].entry + interval);
    }
  }

  // ---------------------------------------------------------------------------------------------
  // Smoothed estimates

  /** Integer division of C++: toward zero. */
  function DivTrunc(a: int, b: int): int
    requires b > 0
  {
    if a >= 0 then a / b else -((-a) / b)
  }

  function Smooth(prev: int, sample: int): int {
    DivTrunc(prev * 7 + sample, 8)
  }

  /** The estimates kept per render phase: the first positive sample is taken as it is. */
  function Estimate(prior: int, sample: int): int {
    if prior > 0 then Smooth(prior, sample) else sample
  }

  function SmoothAll(start: int, samples: seq<int>): int {
    if samples == [] then start else Smooth(SmoothAll(start, samples[..|samples| - 1]), samples[|samples| - 1])
  }

  function EstimateAll(start: int, samples: seq<int>): int {
    if samples == [] then start else Estimate(EstimateAll(start, samples[..|samples| - 1]), samples[|samples| - 1])
  }

  predicate Between(lo: int, hi: int, samples: seq<int>) {
    forall i :: 0 <= i < |samples| ==> lo <= samples[i] <= hi
  }

  /** Seven parts of the old value and one of the sample, rounded down to the next eighth. */
  lemma SmoothIsAverage(prev: int, sample: int)
    requires prev >= 0 && sample >= 0
    ensures 0 <= 7 * prev + sample - 8 * Smooth(prev, sample) < 8
    ensures Estimate(0, sample) == sample && (prev > 0 ==> Estimate(prev, sample) == Smooth(prev, sample))
  {
  }

  lemma SmoothBetween(prev: int, sample: int, lo: int, hi: int)
    requires lo <= prev <= hi && lo <= sample <= hi
    ensures lo <= Smooth(prev, sample) <= hi
  {
  }

  /** The average stays between the smallest and the largest of its start and samples. */
  lemma {:induction false} AverageStaysBetween(start: int, samples: seq<int>, lo: int, hi: int)
    requires lo <= start <= hi && Between(lo, hi, samples)
    ensures lo <= SmoothAll(start, samples) <= hi
  {
    if samples != [] {
      AverageStaysBetween(start, samples[..|samples| - 1], lo, hi);
      SmoothBetween(SmoothAll(start, samples[..|samples| - 1]), samples[|samples| - 1], lo, hi);
    }
  }

  /** An estimate that has seen a sample stays between the samples, wherever it started unset. */
  lemma {:induction false} EstimateStaysBetween(samples: seq<int>, lo: int, hi: int)
    requires samples != [] && Between(lo, hi, samples)
    ensures lo <= EstimateAll(0, samples) <= hi
  {
    if |samples| > 1 {
      EstimateStaysBetween(samples[..|samples| - 1], lo, hi);
      SmoothBetween(EstimateAll(0, samples[..|samples| - 1]), samples[|samples| - 1], lo, hi);
    } else {
      assert EstimateAll(0, samples[..0]) == 0;
    }
  }

  function Repeated(start: int, sample: int, n: nat): int {
    if n == 0 then start else Smooth(Repeated(start, sample, n - 1), sample)
  }

  function Distance(a: int, b: int): nat {
    if a <= b then b - a else a - b
  }

  /** Under a constant sample the average stands still exactly in [sample - 7, sample]; elsewhere the
      distance to the sample shrinks, and an average above the sample never falls below it. */
  lemma SmoothStep(prev: int, sample: int)
    requires prev >= 0 && sample >= 0
    ensures Smooth(prev, sample) == prev <==> sample - 7 <= prev <= sample
    ensures Smooth(prev, sample) != prev ==> Distance(Smooth(prev, sample), sample) < Distance(prev, sample)
    ensures prev >= sample ==> Smooth(prev, sample) >= sample
    ensures prev <= sample ==> prev <= Smooth(prev, sample) <= sample
    ensures Smooth(prev, sample) >= 0
  {
  }

  /** Under a constant sample o the average settles: after |start - o| steps it is in [o - 7, o], and exactly
      o when it came from above; from then on it does not move. */
  lemma {:induction false} Settles(start: int, sample: int, n: nat)
    requires start >= 0 && sample >= 0
    ensures Repeated(start, sample, n) >= 0
    ensures Distance(Repeated(start, sample, n), sample) + n <= Distance(start, sample) ||
            (sample - 7 <= Repeated(start, sample, n) <= sample)
    ensures start >= sample ==> Repeated(start, sample, n) >= sample
    ensures start <= sample ==> Repeated(start, sample, n) <= sample
  {
    if n > 0 {
      Settles(start, sample, n - 1);
      SmoothStep(Repeated(start, sample, n - 1), sample);
    }
  }

  lemma SettlesForGood(start: int, sample: int, n: nat)
    requires start >= 0 && sample >= 0 && n >= Distance(start, sample)
    ensures sample - 7 <= Repeated(start, sample, n) <= sample
    ensures start >= sample ==> Repeated(start, sample, n) == sample
    ensures Repeated(start, sample, n + 1) == Repeated(start, sample, n)
  {
    Settles(start, sample, n);
    SmoothStep(Repeated(start, sample, n), sample);
  }
}
