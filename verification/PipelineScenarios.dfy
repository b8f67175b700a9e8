/** Runs from the initial state that show what can go wrong. */
module PipelineScenarios {
  import opened FrameSpec
  import opened MediaClock
  import opened HandoffSpec
  import opened HandoffLaws
  import opened PipelineMachine
  import opened PipelineSafety
  import opened PipelineOrder
  import opened PipelineSchedule
  import opened PipelineClock

  /** An orderly run in which presentFrame sees the pipeline idle only between two renders. */
  predicate ProperRun(c: Config, steps: seq<Step>) {
    OrderlyRun(c, steps) && Seen(c, steps)
  }

  lemma ExtendRun(c: Config, steps: seq<Step>, s: Step)
    ensures Run(c, steps + [s]) == Next(c, Run(c, steps), s)
    ensures OrderlyRun(c, steps) && Orderly(Run(c, steps), s) ==> OrderlyRun(c, steps + [s])
    ensures Seen(c, steps) && (s == Snapshot(false) ==> Run(c, steps).rend.RIdle?) ==> Seen(c, steps + [s])
    ensures Unread(steps) && Reading(s) == [] ==> Unread(steps + [s])
  {
    assert (steps + [s])[..|steps|] == steps;
  }

  // ---------------------------------------------------------------------------------------------
  // Overtaking

  /** A promotion is open, the render thread is idle, a newer real frame is pending, the queue has room. */
  predicate Exposed(c: Config, m: Machine) {
    && Inv(c, m) && m.pres.PGap? && !m.pres.p.warmup && m.rend.RIdle?
    && m.hub.held != [] && !m.hub.held[0].warmup && |m.hub.queue| < c.depthLimit
  }

  lemma ExposedClaim(c: Config, m: Machine)
    requires c.Valid() && Exposed(c, m)
    ensures var n := Next(c, m, RenderClaim);
            && Inv(c, n) && n.pres == m.pres && n.rend == RTook(m.hub.held[0], true)
            && n.hub.queue == m.hub.queue
            && !IsStale(n.hub, m.hub.held[0]) && !NeedsRollback(n.hub.clock, m.hub.held[0].pts, EPS)
  {
    ClaimOrder(c, m);
    var q := m.hub.held[0];
    assert q in m.hub.held;
    assert m.pres.p.pts + EPS < q.pts && LastReal(m.hub.pushed) + EPS < q.pts;
  }

  lemma ExposedSubmit(c: Config, m: Machine)
    requires c.Valid() && Inv(c, m) && m.pres.PGap? && !m.pres.p.warmup && |m.hub.queue| < c.depthLimit
    requires m.rend.RTook? && m.rend.late && !m.rend.e.warmup
    requires !IsStale(m.hub, m.rend.e) && !NeedsRollback(m.hub.clock, m.rend.e.pts, EPS)
    ensures var n := Next(c, m, RenderSubmit);
            n.pres.PGap? && n.pres.overtaken && |n.hub.queue| == |m.hub.queue| + 1
  {
  }

  /** Whenever a real frame is open for promotion while another one is pending and the queue has room, a
      render that runs in between puts them in the wrong order, and a queue with room for one frame only
      then exceeds its limit. */
  lemma BusyRenderBreaksOrder(c: Config, m: Machine)
    requires c.Valid() && Exposed(c, m)
    ensures var n := Next(c, Next(c, Next(c, m, RenderClaim), RenderSubmit), PushPromotion);
            !Ordered(n.hub.pushed) && |n.hub.queue| == |m.hub.queue| + 2
  {
    ExposedClaim(c, m);
    var m1 := Next(c, m, RenderClaim);
    ExposedSubmit(c, m1);
    RenderSubmitOrder(c, m1);
    PushPromotionOrder(c, Next(c, m1, RenderSubmit));
  }

  function Frame(n: nat): Entry { Entry(n, n as real, 0.016, 0.0, 0, false) }

  /** Nothing is on its way and nothing is pending. */
  predicate Quiet(m: Machine) {
    && m.pres == PIdle && m.rend == RIdle && m.overtakes == 0
    && m.hub.held == [] && !m.hub.present && !m.hub.submitting
  }

  /** An arrival gets to the point where its fate is decided. */
  lemma Enter(c: Config, steps: seq<Step>, f: Entry) returns (t: seq<Step>)
    requires Seen(c, steps) && Run(c, steps).pres.PIdle? && Run(c, steps).rend.RIdle?
    ensures Seen(c, t) && (OrderlyRun(c, steps) && Succeeds(Run(c, steps), f) ==> OrderlyRun(c, t))
    ensures Unread(steps) ==> Unread(t)
    ensures var m := Run(c, steps);
            var h := if f.warmup then m.hub else AdoptOrigin(m.hub, f.pts);
            Run(c, t) == m.(hub := h, pres := PSnap(Positioned(h, f), false, h.submitting), arrivals := m.arrivals + [f])
  {
    ExtendRun(c, steps, ArriveDirect(f));
    t := steps + [ArriveDirect(f)];
    ExtendRun(c, t, Snapshot(false));
    t := t + [Snapshot(false)];
  }

  lemma EnterQueue(c: Config, steps: seq<Step>, f: Entry) returns (t: seq<Step>)
    requires c.Valid() && ProperRun(c, steps) && Quiet(Run(c, steps)) && Succeeds(Run(c, steps), f)
    requires |Run(c, steps).hub.queue| < c.depthLimit
    ensures ProperRun(c, t) && (Unread(steps) ==> Unread(t))
    ensures var m, n := Run(c, steps), Run(c, t);
            var h := if f.warmup then m.hub else AdoptOrigin(m.hub, f.pts);
            && Quiet(n.(pres := PIdle)) && n.pres == PQueued(Positioned(h, f))
            && n.arrivals == m.arrivals + [f] && n.hub.queue == h.queue + [Positioned(h, f)] && n.hub.clock == h.clock
  {
    var m := Run(c, steps);
    t := Enter(c, steps, f);
    AdoptQuietly(m.hub, f.pts);
    SubmitDirectly(c, Run(c, t));
    ExtendRun(c, t, Submit);
    t := t + [Submit];
  }

  lemma AdoptQuietly(h: Hub, pts: real)
    requires h.held == [] && !h.present
    ensures var r := AdoptOrigin(h, pts);
            r.held == [] && !r.present && r.submitting == h.submitting && |r.queue| <= |h.queue|
  {
  }

  lemma SubmitDirectly(c: Config, m: Machine)
    requires m.pres.PSnap? && !m.pres.busy && !m.pres.submitting && !m.hub.present && m.hub.held == []
    requires |m.hub.queue| < c.depthLimit
    ensures var n := Next(c, m, Submit);
            && n == m.(hub := n.hub, pres := PQueued(m.pres.f))
            && n.hub == m.hub.(queue := m.hub.queue + [m.pres.f], pushed := n.hub.pushed, newest := n.hub.newest)
  {
  }

  /** One more frame is queued directly. */
  lemma QueueDirectly(c: Config, steps: seq<Step>, f: Entry) returns (t: seq<Step>)
    requires c.Valid() && ProperRun(c, steps) && Quiet(Run(c, steps)) && Succeeds(Run(c, steps), f)
    requires |Run(c, steps).hub.queue| < c.depthLimit
    ensures ProperRun(c, t)
    ensures var m, n := Run(c, steps), Run(c, t);
            var h := if f.warmup then m.hub else AdoptOrigin(m.hub, f.pts);
            && Quiet(n) && n.arrivals == m.arrivals + [f] && n.hub.queue == h.queue + [Positioned(h, f)]
            && n.hub.clock.origin == h.clock.origin
  {
    t := EnterQueue(c, steps, f);
    ExtendRun(c, t, CleanUp);
    t := t + [CleanUp];
    ExtendRun(c, t, StartPlayback(5));
    t := t + [StartPlayback(5)];
  }

  /** Between two arrivals: frames 1 to `top` have arrived, the last `held` of them are pending, the others
      are queued. */
  predicate At(m: Machine, held: nat, top: nat) {
    && held <= top
    && m.pres == PIdle && m.rend == RIdle && m.overtakes == 0
    && |m.hub.held| == held && m.hub.present == (held > 0) && !m.hub.submitting
    && (forall i :: 0 <= i < held ==> m.hub.held[i].pts == (top - held + 1 + i) as real && !m.hub.held[i].warmup)
    && |m.hub.queue| == top - held
    && (if top > 0 then m.hub.clock.origin == 1.0 else m.hub.clock.origin < 0.0)
    && LastReal(m.arrivals) == (if top == 0 then -1.0 else top as real)
    && (forall e :: e in m.arrivals ==> !e.warmup && e.frame <= top)
  }

  lemma {:induction false} QueueMany(c: Config, top: nat) returns (t: seq<Step>)
    requires c.Valid() && top <= c.depthLimit
    ensures ProperRun(c, t) && At(Run(c, t), 0, top)
  {
    t := [];
    if top > 0 {
      t := QueueMany(c, top - 1);
      PushOrder(Run(c, t).arrivals, Frame(top));
      t := QueueDirectly(c, t, Frame(top));
    }
  }

  /** One more frame is stored, because the render thread holds the state mutex. */
  lemma StoreNext(c: Config, steps: seq<Step>, held: nat, top: nat) returns (t: seq<Step>)
    requires c.Valid() && c.overflowEnabled && ProperRun(c, steps) && At(Run(c, steps), held, top) && held <= 1 <= top
    ensures ProperRun(c, t) && At(Run(c, t), held + 1, top + 1)
  {
    var m, f := Run(c, steps), Frame(top + 1);
    StoredAt(c, m, held, top);
    ExtendRun(c, steps, Arrive(f));
    t := steps + [Arrive(f)];
    ExtendRun(c, t, StoreArrival(true, 5));
    t := t + [StoreArrival(true, 5)];
  }

  lemma StoredAt(c: Config, m: Machine, held: nat, top: nat)
    requires c.Valid() && c.overflowEnabled && At(m, held, top) && held <= 1 <= top
    ensures Orderly(m, Arrive(Frame(top + 1)))
    ensures At(Next(c, Next(c, m, Arrive(Frame(top + 1))), StoreArrival(true, 5)), held + 1, top + 1)
  {
    var f := Frame(top + 1);
    StoreBehind(c, m.hub, f);
    StoredNext(c, m, f);
    OneMorePending(m, StoreHub(c, m.hub, f, true, 5), held, top);
  }

  lemma StoredNext(c: Config, m: Machine, f: Entry)
    requires m.pres.PIdle? && !f.warmup
    ensures Next(c, Next(c, m, Arrive(f)), StoreArrival(true, 5))
         == m.(hub := StoreHub(c, m.hub, f, true, 5), pres := PIdle, arrivals := m.arrivals + [f])
  {
  }

  lemma OneMorePending(m: Machine, r: Hub, held: nat, top: nat)
    requires At(m, held, top) && top > 0
    requires |r.held| == held + 1 && r.held[..held] == m.hub.held && r.present
    requires r.held[held].pts == (top + 1) as real && !r.held[held].warmup
    requires r.queue == m.hub.queue && r.clock == m.hub.clock && r.submitting == m.hub.submitting
    ensures At(m.(hub := r, arrivals := m.arrivals + [Frame(top + 1)]), held + 1, top + 1)
    ensures Succeeds(m, Frame(top + 1))
  {
    PushOrder(m.arrivals, Frame(top + 1));
    assert forall i :: 0 <= i < held ==> r.held[i] == m.hub.held[i];
  }

  lemma StoreBehind(c: Config, h: Hub, f: Entry)
    requires c.overflowEnabled && !f.warmup && |h.held| <= 1
    requires h.held != [] ==> !h.held[0].warmup && h.held[0].pts + EPS < f.pts
    ensures StoreHub(c, h, f, true, 5).held == h.held + [Stamp(h, f, true, 5)]
    ensures StoreHub(c, h, f, true, 5).present
  {
    assert h.held != [] ==> h.held == [h.held[0]];
  }

  /** A further arrival opens a promotion. */
  lemma OpenPromotion(c: Config, steps: seq<Step>, top: nat) returns (t: seq<Step>)
    requires c.Valid() && ProperRun(c, steps) && At(Run(c, steps), 2, top) && top < c.depthLimit + 2
    ensures ProperRun(c, t) && Exposed(c, Run(c, t)) && |Run(c, t).hub.queue| == top - 2
  {
    var f, m := Frame(top + 1), Run(c, steps);
    PushOrder(m.arrivals, f);
    t := Enter(c, steps, f);
    ExtendRun(c, t, Submit);
    t := t + [Submit];
    assert Run(c, t).hub == Take(m.hub) && Run(c, t).pres == PGap(Positioned(m.hub, f), m.hub.held[0], false, false);
    RunOrder(c, t);
  }

  /** With an overflow deque, overtaking happens in a run from the start, and the queue exceeds its limit. */
  lemma OvertakingIsReachable(c: Config) returns (steps: seq<Step>)
    requires c.Valid() && c.overflowEnabled
    ensures ProperRun(c, steps)
    ensures !Ordered(Run(c, steps).hub.pushed) && |Run(c, steps).hub.queue| == c.depthLimit + 1
  {
    var top := c.depthLimit - 1;
    var e := QueueMany(c, top);
    e := StoreNext(c, e, 0, top);
    e := StoreNext(c, e, 1, top + 1);
    e := OpenPromotion(c, e, top + 2);
    steps := RenderInBetween(c, e);
  }

  lemma RenderInBetween(c: Config, e: seq<Step>) returns (steps: seq<Step>)
    requires c.Valid() && ProperRun(c, e) && Exposed(c, Run(c, e))
    ensures ProperRun(c, steps)
    ensures !Ordered(Run(c, steps).hub.pushed) && |Run(c, steps).hub.queue| == |Run(c, e).hub.queue| + 2
  {
    BusyRenderBreaksOrder(c, Run(c, e));
    ExtendRun(c, e, RenderClaim);
    steps := e + [RenderClaim];
    ExtendRun(c, steps, RenderSubmit);
    steps := steps + [RenderSubmit];
    ExtendRun(c, steps, PushPromotion);
    steps := steps + [PushPromotion];
  }

  // ---------------------------------------------------------------------------------------------
  // A warm-up frame with two owners

  function Warmup(n: nat): Entry { Entry(n, 0.0, 0.016, 0.0, 0, true) }

  /** The queue is full, so the frame waits. */
  lemma StoreWarmup(c: Config, steps: seq<Step>, f: Entry) returns (t: seq<Step>)
    requires c.Valid() && Seen(c, steps) && Quiet(Run(c, steps)) && |Run(c, steps).hub.queue| == c.depthLimit
    requires f.warmup
    ensures Seen(c, t)
    ensures var m, n := Run(c, steps), Run(c, t);
            && n.pres == PIdle && n.rend == RIdle && n.arrivals == m.arrivals + [f]
            && |n.hub.held| == 1 && n.hub.held[0].frame == f.frame && n.hub.held[0].warmup
  {
    t := Enter(c, steps, f);
    ExtendRun(c, t, Submit);
    t := t + [Submit];
    ExtendRun(c, t, StoreArrival(true, 5));
    t := t + [StoreArrival(true, 5)];
  }

  lemma ClaimWarmup(c: Config, steps: seq<Step>) returns (t: seq<Step>)
    requires Seen(c, steps)
    requires var m := Run(c, steps); m.pres == PIdle && m.rend == RIdle && |m.hub.held| == 1
    ensures Seen(c, t)
    ensures var m, n := Run(c, steps), Run(c, t);
            && n.pres == PIdle && n.rend == RTook(m.hub.held[0], false)
            && n.hub.queue == [] && n.hub.held == [] && n.arrivals == m.arrivals
  {
    var all := RenderUpdate(|Run(c, steps).hub.queue|);
    ExtendRun(c, steps, all);
    t := steps + [all];
    ExtendRun(c, t, RenderClaim);
    t := t + [RenderClaim];
  }

  /** A stored warm-up frame is submitted, and stored again because a render is in progress. */
  lemma SubmitWarmup(c: Config, steps: seq<Step>) returns (t: seq<Step>)
    requires c.Valid() && Seen(c, steps)
    requires var m := Run(c, steps);
             && m.pres == PIdle && m.rend == RIdle && |m.hub.held| == 1 && m.hub.held[0].warmup
    ensures Seen(c, t)
    ensures var m, n := Run(c, steps), Run(c, t);
            && n.hub.queue == m.hub.held && |n.hub.held| == 1 && n.hub.held[0].frame == m.hub.held[0].frame
            && n.arrivals == m.arrivals
  {
    t := ClaimWarmup(c, steps);
    WarmupStoredAgain(c, Run(c, t));
    ExtendRun(c, t, RenderSubmit);
    t := t + [RenderSubmit];
    ExtendRun(c, t, RenderStore(true, 5));
    t := t + [RenderStore(true, 5)];
  }

  lemma WarmupStoredAgain(c: Config, m: Machine)
    requires c.Valid() && m.rend.RTook? && m.rend.e.warmup && m.hub.queue == [] && m.hub.held == []
    ensures var n := Next(c, Next(c, m, RenderSubmit), RenderStore(true, 5));
            && n.hub.queue == [m.rend.e] && |n.hub.held| == 1 && n.hub.held[0].frame == m.rend.e.frame
            && n.arrivals == m.arrivals
  {
    var m1 := Next(c, m, RenderSubmit);
    assert m1.rend == RWarm(m.rend.e) && m1.hub.queue == [m.rend.e] && m1.hub.held == [];
  }

  /** A warm-up frame that is submitted from the store is stored once more.  In every configuration a run from
      the start with a single warm-up frame, which finds the queue filled by frames that arrived before, ends
      with the queue and the store both owning it. */
  lemma WarmupEndsUpTwice(c: Config) returns (steps: seq<Step>)
    requires c.Valid()
    ensures Seen(c, steps)
    ensures var m, id := Run(c, steps), c.depthLimit + 1;
            && (forall e :: e in m.arrivals ==> (e.warmup <==> e.frame == id))
            && Count(m.arrivals, id) == 1 && Count(m.hub.queue, id) == 1 && Count(m.hub.held, id) == 1
  {
    var f := Warmup(c.depthLimit + 1);
    var s := QueueMany(c, c.depthLimit);
    var before := Run(c, s).arrivals;
    CountIn(before, f.frame);
    CountAppend(before, [f], f.frame);
    s := StoreWarmup(c, s, f);
    steps := SubmitWarmup(c, s);
  }

  // ---------------------------------------------------------------------------------------------
  // A clock reading overtaken by the start of the clock

  /** The render thread has read 100; before it uses that reading, the presenting thread reads 105 and starts the
      clock there.  The unsigned difference wraps around. */
  lemma ReadingCanWrap(c: Config) returns (before: seq<Step>, after: seq<Step>)
    requires c.Valid()
    ensures ProperRun(c, after) && Monotonic(after) && before <= after && LastReading(before) <= 100
    ensures var clock := Run(c, after).hub.clock; clock.started && SubU64(100, clock.tsStart) == WRAP - 5
  {
    before := StandingClock(c);
    ExtendRun(c, before, StartPlayback(105));
    MonotonicNext(before, StartPlayback(105));
    after := before + [StartPlayback(105)];
  }

  /** The first frame is queued, and the clock stands. */
  lemma StandingClock(c: Config) returns (t: seq<Step>)
    requires c.Valid()
    ensures ProperRun(c, t) && Unread(t)
    ensures var m := Run(c, t);
            m.pres.PStart? && !m.pres.f.warmup && m.pres.f.pts == m.pres.f.origin && !m.hub.clock.started
  {
    PushOrder([], Frame(1));
    assert [] + [Frame(1)] == [Frame(1)];
    assert Run(c, []) == Initial();
    t := EnterQueue(c, [], Frame(1));
    ExtendRun(c, t, CleanUp);
    t := t + [CleanUp];
  }
}
