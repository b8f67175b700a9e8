/** What every run says about the past: which frames left the queue, which were freed silently, what the newest
    queued time stamp stands for, and why an arriving frame had to wait. */
module PipelineHistory {
  import opened FrameSpec
  import opened MediaClock
  import opened HandoffSpec
  import opened HandoffLaws
  import opened HandoffMeaning
  import opened PipelineMachine
  import opened PipelineSafety

  // ---------------------------------------------------------------------------------------------
  // First in, first out

  predicate Fifo(h: Hub) {
    h.gone + h.queue == h.pushed
  }

  lemma EmptiedFifo(h: Hub)
    requires Fifo(h)
    ensures Fifo(h.Emptied())
  {
  }

  lemma PushFifo(h: Hub, e: Entry)
    requires Fifo(h)
    ensures Fifo(h.Push(e))
  {
    assert h.gone + (h.queue + [e]) == h.gone + h.queue + [e];
  }

  lemma UpdateFifo(h: Hub, n: nat)
    requires Fifo(h)
    ensures Fifo(Update(h, n))
  {
    var k := if n <= |h.queue| then n else |h.queue|;
    assert h.queue == h.queue[..k] + h.queue[k..];
  }

  lemma SubmitFifo(c: Config, h: Hub, e: Entry)
    requires Fifo(h)
    ensures Fifo(SubmitLocked(c, h, e))
  {
    EmptiedFifo(h);
    PushFifo(SubmitOrigin(h, e), e);
  }

  lemma PresentFifo(c: Config, m: Machine, s: Step)
    requires Fifo(m.hub)
    ensures Fifo(Present(c, m, s).hub)
  {
    match (s, m.pres)
    case (ArriveDirect(f), PIdle) => EmptiedFifo(m.hub);
    case (Submit, PSnap(f, _, _)) => PushFifo(m.hub, f);
    case (PushPromotion, PGap(_, p, _, _)) => PushFifo(m.hub, p);
    case _ =>
  }

  lemma RenderFifo(c: Config, m: Machine, s: Step)
    requires Fifo(m.hub)
    ensures Fifo(Render(c, m, s).hub)
  {
    match (s, m.rend)
    case (RenderSubmit, RTook(e, _)) => SubmitFifo(c, m.hub, e);
    case (RenderUpdate(n), RIdle) => UpdateFifo(m.hub, n);
    case _ =>
  }

  lemma DisturbFifo(c: Config, m: Machine, s: Step)
    requires Fifo(m.hub)
    ensures Fifo(Disturb(c, m, s).hub)
  {
    EmptiedFifo(m.hub);
    if s.RenderReplay? {
      PushFifo(m.hub, s.e);
    }
  }

  /** In every run frames leave the queue in the order in which they were pushed, and none is skipped. */
  lemma {:induction false} QueueIsFifo(c: Config, steps: seq<Step>)
    ensures Fifo(Run(c, steps).hub)
  {
    if steps != [] {
      var init, s := steps[..|steps| - 1], steps[|steps| - 1];
      QueueIsFifo(c, init);
      PresentFifo(c, Run(c, init), s);
      RenderFifo(c, Run(c, init), s);
      DisturbFifo(c, Run(c, init), s);
    }
  }

  // ---------------------------------------------------------------------------------------------
  // Frames freed without being counted

  /** The frame a store makes room for silently. */
  function Outdone(held: seq<Entry>, e: Entry): seq<Entry> {
    if held != [] && held[0].warmup && !e.warmup then held else []
  }

  /** The frames a step frees without counting them. */
  function Freed(m: Machine, s: Step): seq<Entry> {
    match s
    case StoreArrival(_, _) => if m.pres.PStore? then Outdone(m.hub.held, m.pres.f) else []
    case RenderStore(_, _) => if m.rend.RDefer? || m.rend.RWarm? then Outdone(m.hub.held, m.rend.e) else []
    case EndOfSession => if m.pres.PIdle? then m.hub.held else []
    case _ => []
  }

  lemma StoreFrees(c: Config, h: Hub, f: Entry, lock: bool, now: nat)
    requires HubShape(c, h) && WellStamped(f)
    ensures StoreHub(c, h, f, lock, now).released == h.released + Outdone(h.held, f)
  {
    StoreMeaning(c.OverflowLimit(), h.held, Stamp(h, f, lock, now));
    assert h.released + [] == h.released;
  }

  lemma PresentFrees(c: Config, m: Machine, s: Step)
    requires Shape(c, m)
    ensures Present(c, m, s).hub.released == m.hub.released + if s.StoreArrival? then Freed(m, s) else []
  {
    assert m.hub.released + [] == m.hub.released;
    if s.StoreArrival? && m.pres.PStore? {
      StoreFrees(c, m.hub, m.pres.f, s.lock, s.nowUs);
    }
  }

  lemma RenderFrees(c: Config, m: Machine, s: Step)
    requires Shape(c, m)
    ensures Render(c, m, s).hub.released == m.hub.released + if s.RenderStore? then Freed(m, s) else []
  {
    assert m.hub.released + [] == m.hub.released;
    if s.RenderStore? && (m.rend.RDefer? || m.rend.RWarm?) {
      StoreFrees(c, m.hub, m.rend.e, s.lock, s.nowUs);
    }
  }

  /** Frames are freed silently exactly when a real frame takes the place of a warm-up frame that waits, and when
      the session ends; every other frame that goes is shown, discarded by the queue, or counted as dropped. */
  lemma FreedExactly(c: Config, m: Machine, s: Step)
    requires Shape(c, m)
    ensures Next(c, m, s).hub.released == m.hub.released + Freed(m, s)
  {
    assert m.hub.released + [] == m.hub.released;
    PresentFrees(c, m, s);
    RenderFrees(c, m, s);
  }

  // ---------------------------------------------------------------------------------------------
  // The newest queued time stamp

  predicate Before(pts: real, origin: real) {
    origin < 0.0 || pts + 0.000001 < origin
  }

  /** The step empties the queue: a roll-back on either thread, a reset, or the end of the session. */
  predicate Empties(m: Machine, s: Step) {
    match s
    case ArriveDirect(f) => m.pres.PIdle? && !f.warmup && Before(f.pts, m.hub.clock.origin)
    case RenderSubmit =>
      && m.rend.RTook? && !m.rend.e.warmup && Before(m.rend.e.pts, m.hub.clock.origin)
      && !(m.hub.newest >= 0.0 && m.rend.e.pts <= m.hub.newest + 0.000001)
    case Reset(_) => true
    case EndOfSession => m.pres.PIdle?
    case _ => false
  }

  /** The time stamp of the frame a step pushes, if it counts: real frames do, and promoted ones. */
  function Counting(c: Config, m: Machine, s: Step): seq<real> {
    var pushed := Next(c, m, s).hub.pushed;
    if |pushed| > |m.hub.pushed| && (s.PushPromotion? || !pushed[|pushed| - 1].warmup) then [pushed[|pushed| - 1].pts]
    else []
  }

  /** The time stamps that count among the frames pushed since the queue was last emptied. */
  function Counted(c: Config, steps: seq<Step>): seq<real> {
    if steps == [] then []
    else
      var init, s := steps[..|steps| - 1], steps[|steps| - 1];
      (if Empties(Run(c, init), s) then [] else Counted(c, init)) + Counting(c, Run(c, init), s)
  }

  /** `x` is the largest of them that exceeds -1, or -1. */
  predicate IsLargest(x: real, s: seq<real>) {
    x >= -1.0 && (forall y :: y in s ==> y <= x) && (x == -1.0 || x in s)
  }

  /** How one step moves the newest time stamp. */
  predicate Tracks(c: Config, m: Machine, s: Step, after: real) {
    var before := if Empties(m, s) then -1.0 else m.hub.newest;
    var counting := Counting(c, m, s);
    after == if counting != [] && counting[0] > before then counting[0] else before
  }

  lemma PresentTracks(c: Config, m: Machine, s: Step)
    requires s.Arrive? || s.ArriveDirect? || s.Snapshot? || s.Submit? || s.PushPromotion? || s.StoreArrival?
             || s.CleanUp? || s.StartPlayback?
    ensures Tracks(c, m, s, Present(c, m, s).hub.newest)
  {
  }

  lemma RenderTracks(c: Config, m: Machine, s: Step)
    requires c.Valid()
    requires s.RenderClaim? || s.RenderSubmit? || s.RenderStore? || s.RenderClock? || s.RenderFinish? || s.RenderUpdate?
    ensures Tracks(c, m, s, Render(c, m, s).hub.newest)
  {
    if s.RenderSubmit? && m.rend.RTook? {
      SubmitMeaning(c, m.hub, m.rend.e);
    }
  }

  lemma StepTracks(c: Config, m: Machine, s: Step)
    requires c.Valid()
    ensures Tracks(c, m, s, Next(c, m, s).hub.newest)
  {
    if s.RenderClaim? || s.RenderSubmit? || s.RenderStore? || s.RenderClock? || s.RenderFinish? || s.RenderUpdate? {
      RenderTracks(c, m, s);
    } else if !(s.Reset? || s.RenderSeed? || s.RenderKept? || s.RenderReplay? || s.EndOfSession?) {
      PresentTracks(c, m, s);
    }
  }

  lemma LargestAppend(x: real, s: seq<real>, y: real)
    requires IsLargest(x, s)
    ensures IsLargest(if y > x then y else x, s + [y])
  {
  }

  /** In every run, roll-backs and resets included, the newest queued time stamp is the largest of those that count
      among the frames pushed since the queue was last emptied, and -1 if there is none. */
  lemma {:induction false} NewestIsLargest(c: Config, steps: seq<Step>)
    requires c.Valid()
    ensures IsLargest(Run(c, steps).hub.newest, Counted(c, steps))
  {
    if steps != [] {
      var init, s := steps[..|steps| - 1], steps[|steps| - 1];
      var m := Run(c, init);
      NewestIsLargest(c, init);
      StepTracks(c, m, s);
      var kept := if Empties(m, s) then [] else Counted(c, init);
      var counting := Counting(c, m, s);
      if counting == [] {
        assert kept + [] == kept;
      } else {
        assert counting == [counting[0]];
        LargestAppend(if Empties(m, s) then -1.0 else m.hub.newest, kept, counting[0]);
      }
    }
  }

  // ---------------------------------------------------------------------------------------------
  // Waiting

  /** In every run an arriving frame waits only for a reason: the queue is full; a frame is pending and the pipeline
      was seen busy; or no frame is pending but one was being submitted.  A pending frame is promoted, and an
      arrival queued directly, exactly in the two other cases. */
  lemma WaitsForAReason(c: Config, steps: seq<Step>)
    requires c.Valid() && WellStampedSteps(steps) && Run(c, steps).pres.PSnap?
    ensures var m, n := Run(c, steps), Next(c, Run(c, steps), Submit);
            var room, pending := |m.hub.queue| < c.depthLimit, m.hub.held != [];
            && (n.pres.PStore? <==> !room || (pending && m.pres.busy) || (!pending && m.pres.submitting))
            && (n.pres.PGap? <==> room && pending && !m.pres.busy)
            && (n.pres.PQueued? <==> room && !pending && !m.pres.submitting)
            && (n.pres.PStore? ==> n.pres.f == m.pres.f && n.hub == m.hub)
            && (n.pres.PGap? ==> n.pres.p == m.hub.held[0] && n.pres.f == m.pres.f)
            && (n.pres.PQueued? ==> n.hub.pushed == m.hub.pushed + [m.pres.f])
  {
    var m := Run(c, steps);
    BoundsInEveryRun(c, steps);
    DecideMeaning(c, m.hub, m.pres.f, m.pres.busy, m.pres.submitting);
  }

  lemma PresentKeepsSubmitting(c: Config, m: Machine, s: Step)
    ensures Present(c, m, s).hub.submitting == m.hub.submitting
    ensures Present(c, m, s).rend == m.rend || Present(c, m, s).rend == m.rend.Settled()
  {
  }

  lemma RenderSubmitting(c: Config, m: Machine, s: Step)
    requires m.hub.submitting ==> !m.rend.RIdle?
    ensures Render(c, m, s).hub.submitting ==> !Render(c, m, s).rend.RIdle?
  {
  }

  /** The flag of a submission in flight is only set while the render thread is at work. */
  lemma {:induction false} SubmittingMeansBusy(c: Config, steps: seq<Step>)
    ensures Run(c, steps).hub.submitting ==> !Run(c, steps).rend.RIdle?
  {
    if steps != [] {
      var init, s := steps[..|steps| - 1], steps[|steps| - 1];
      SubmittingMeansBusy(c, init);
      PresentKeepsSubmitting(c, Run(c, init), s);
      RenderSubmitting(c, Run(c, init), s);
    }
  }

  /** Behind a frame that went straight to the queue only newer frames stay pending, and the others are counted. */
  lemma CleanUpLeavesNewer(c: Config, m: Machine, x: Entry)
    requires Shape(c, m) && m.pres.PQueued?
    ensures var n := Next(c, m, CleanUp);
            && n.pres == PStart(m.pres.f)
            && (x in n.hub.held <==> x in m.hub.held && x.pts > m.pres.f.pts + 0.000001)
            && n.hub.drops == m.hub.drops + |m.hub.held| - |n.hub.held|
  {
    DropStaleMeaning(m.hub, m.pres.f.pts, x);
  }
}
