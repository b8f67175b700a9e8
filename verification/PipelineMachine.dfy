/** The presenting thread and the render thread interleaved, one locked section at a time.

    Each thread is a program counter that carries its local variables.  A run is any sequence of
    steps; a step whose thread is not at the right place changes nothing. */
module PipelineMachine {
  import opened FrameSpec
  import opened MediaClock
  import opened HandoffSpec

  /** presentFrame, between its locked sections. */
  datatype Presenter =
    | PIdle
    | PEntered(f: Entry)                                        // origin adopted
    | PSnap(f: Entry, busy: bool, submitting: bool)             // lock-free snapshots taken
    | PGap(f: Entry, p: Entry, overtaken: bool, crowded: bool)  // p taken out of the store, not yet pushed
    | PStore(f: Entry)                                          // f is about to be stored
    | PQueued(f: Entry)                                         // f was pushed directly
    | PStart(f: Entry)

  /** render, between its locked sections.  `late` marks a frame claimed while a promotion was open. */
  datatype Renderer =
    | RIdle
    | RTook(e: Entry, late: bool)
    | RDefer(e: Entry, late: bool)
    | RWarm(e: Entry)
    | RClock(e: Entry, rel: real)
    | RDone
  {
    function Settled(): Renderer {
      match this
      case RTook(e, _) => RTook(e, false)
      case RDefer(e, _) => RDefer(e, false)
      case _ => this
    }
  }

  /** The frames a thread owns through its local variables. */
  function PresHand(pres: Presenter): seq<Entry> {
    match pres
    case PEntered(f) => [f]
    case PSnap(f, _, _) => [f]
    case PGap(f, p, _, _) => [f, p]
    case PStore(f) => [f]
    case _ => []
  }

  function RendHand(rend: Renderer): seq<Entry> {
    match rend
    case RTook(e, _) => [e]
    case RDefer(e, _) => [e]
    case RWarm(e) => [e]
    case _ => []
  }

  /** `arrivals` are the frames handed in (clones included), `copies` the warm-up frames that entered
      the pipeline a second time.  `overtakes` counts promoted frames pushed behind a frame that left the
      pending store after them, `crowds` promoted frames during whose promotion another frame was pushed. */
  datatype Machine = Machine(
    hub: Hub, pres: Presenter, rend: Renderer, arrivals: seq<Entry>, copies: seq<Entry>, overtakes: nat, crowds: nat)

  datatype Step =
    // presenting thread
    | Arrive(f: Entry)            // recovered frame, or the state mutex is taken: store only real frames
    | ArriveDirect(f: Entry)
    | Snapshot(busy: bool)
    | Submit
    | PushPromotion
    | StoreArrival(lock: bool, nowUs: nat)
    | CleanUp
    | StartPlayback(nowUs: nat)
    // render thread
    | RenderClaim
    | RenderSubmit
    | RenderStore(lock: bool, nowUs: nat)
    | RenderClock(nowUs: nat)
    | RenderFinish
    | RenderUpdate(n: nat)
    // resets, replay of kept frames, end of the session
    | Reset(preserve: bool)
    | RenderSeed(e: Entry)
    | RenderKept(e: Entry)
    | RenderReplay(e: Entry, nowUs: nat)
    | EndOfSession

  function Initial(): Machine {
    Machine(InitialHub(), PIdle, RIdle, [], [], 0, 0)
  }

  function Next(c: Config, m: Machine, s: Step): Machine {
    match s
    case Arrive(_) | ArriveDirect(_) | Snapshot(_) | Submit | PushPromotion | StoreArrival(_, _) | CleanUp | StartPlayback(_) =>
      Present(c, m, s)
    case RenderClaim | RenderSubmit | RenderStore(_, _) | RenderClock(_) | RenderFinish | RenderUpdate(_) =>
      Render(c, m, s)
    case _ =>
      Disturb(c, m, s)
  }

  /** The second locked section of presentFrame. */
  function SubmitArrival(c: Config, m: Machine, f: Entry, busy: bool, submitting: bool): Machine {
    var hub := PresentLocked(c, m.hub, f, busy, submitting);
    match Decide(c, m.hub, busy, submitting)
    case Promote(p) => m.(hub := hub, pres := PGap(f, p, false, false))
    case Direct => m.(hub := hub, pres := PQueued(f))
    case Wait => m.(hub := hub, pres := PStore(f))
  }

  /** An arrival on its way keeps the origin it was positioned with. */
  function Positioned(h: Hub, f: Entry): Entry {
    f.(origin := if f.warmup then 0.0 else h.clock.origin)
  }

  /** The steps of presentFrame. */
  function Present(c: Config, m: Machine, s: Step): Machine {
    match (s, m.pres)
    case (Arrive(f), PIdle) =>
      if f.warmup then m else m.(pres := PStore(f), arrivals := m.arrivals + [f])
    case (ArriveDirect(f), PIdle) =>
      var hub := if f.warmup then m.hub else AdoptOrigin(m.hub, f.pts);
      m.(hub := hub, pres := PEntered(Positioned(hub, f)), arrivals := m.arrivals + [f])
    case (Snapshot(busy), PEntered(f)) =>
      m.(pres := PSnap(f, busy, m.hub.submitting))
    case (Submit, PSnap(f, busy, submitting)) =>
      SubmitArrival(c, m, f, busy, submitting)
    case (PushPromotion, PGap(f, p, overtaken, crowded)) =>
      m.(hub := PushPromoted(m.hub, p), pres := PStore(f), rend := m.rend.Settled(),
         overtakes := m.overtakes + (if overtaken then 1 else 0), crowds := m.crowds + (if crowded then 1 else 0))
    case (StoreArrival(lock, now), PStore(f)) =>
      m.(hub := StoreHub(c, m.hub, f, lock, now), pres := PIdle)
    case (CleanUp, PQueued(f)) =>
      m.(hub := DropStale(m.hub, f.pts), pres := PStart(f))
    case (StartPlayback(now), PStart(f)) =>
      m.(hub := StartClock(m.hub, f, f.pts - f.origin, now), pres := PIdle)
    case _ => m
  }

  function Crowd(pres: Presenter): Presenter {
    if pres.PGap? then pres.(crowded := true) else pres
  }

  /** A promotion is overtaken when a real frame claimed while it was open is pushed first. */
  function Overtake(pres: Presenter, e: Entry, late: bool): Presenter {
    if pres.PGap? && late && !e.warmup && !pres.p.warmup then pres.(overtaken := true) else pres
  }

  /** queueStoredFrame, up to the end of its locked section. */
  function SubmitClaimed(c: Config, m: Machine, e: Entry, late: bool): Machine {
    var hub := SubmitLocked(c, m.hub, e);
    match SubmitOutcome(c, m.hub, e)
    case Stale => m.(hub := hub, rend := RDone)
    case Deferred => m.(hub := hub, rend := RDefer(e, late))
    case Queued =>
      var pres := Crowd(Overtake(m.pres, e, late));
      // a warm-up frame is pushed and then stored once more, because a render is in progress
      if e.warmup then m.(hub := hub, pres := pres, rend := RWarm(e), copies := m.copies + [e])
      else m.(hub := hub, pres := pres, rend := RClock(e, e.pts - hub.clock.origin))
  }

  /** The steps of render that move frames. */
  function Render(c: Config, m: Machine, s: Step): Machine {
    match (s, m.rend)
    case (RenderClaim, RIdle) =>
      if m.hub.held == [] then m.(hub := Claim(m.hub))
      else m.(hub := Claim(m.hub), rend := RTook(m.hub.held[0], m.pres.PGap?))
    case (RenderSubmit, RTook(e, late)) =>
      SubmitClaimed(c, m, e, late)
    case (RenderStore(lock, now), RDefer(e, _)) =>
      m.(hub := StoreHub(c, m.hub, e, lock, now), rend := RDone)
    case (RenderStore(lock, now), RWarm(e)) =>
      m.(hub := StoreHub(c, m.hub, e, lock, now), rend := RDone)
    case (RenderClock(now), RClock(e, rel)) =>
      m.(hub := SubmitClock(m.hub, rel, e.duration, now), rend := RDone)
    case (RenderFinish, RDone) =>
      m.(hub := Finish(m.hub), rend := RIdle)
    case (RenderUpdate(n), RIdle) =>
      m.(hub := Update(m.hub, n))
    case _ => m
  }

  /** Queue resets, clones of kept frames, and the end of a session. */
  function Disturb(c: Config, m: Machine, s: Step): Machine {
    match s
    case Reset(preserve) =>
      m.(hub := ResetQueue(m.hub, preserve))
    case RenderSeed(e) =>
      if m.rend.RIdle? && !e.warmup then
        m.(hub := PruneHub(m.hub, e.pts), rend := RTook(e, m.pres.PGap?), arrivals := m.arrivals + [e])
      else m
    case RenderKept(e) =>
      if m.rend.RIdle? && !e.warmup then m.(rend := RTook(e, m.pres.PGap?), arrivals := m.arrivals + [e]) else m
    case RenderReplay(e, now) =>
      if m.rend.RIdle? && !e.warmup && |m.hub.queue| < c.depthLimit then
        m.(hub := Replay(m.hub, e, now), pres := Crowd(m.pres), arrivals := m.arrivals + [e])
      else m
    case EndOfSession =>
      if m.pres.PIdle? then m.(hub := EndSession(m.hub)) else m
    case _ => m
  }

  function Run(c: Config, steps: seq<Step>): Machine {
    if steps == [] then Initial() else Next(c, Run(c, steps[..|steps| - 1]), steps[|steps| - 1])
  }

  /** The frame a step hands in, if any. */
  function Incoming(s: Step): seq<Entry> {
    match s
    case Arrive(f) => [f]
    case ArriveDirect(f) => [f]
    case RenderSeed(e) => [e]
    case RenderKept(e) => [e]
    case RenderReplay(e, _) => [e]
    case _ => []
  }

  /** Every frame handed in has a usable time stamp. */
  predicate WellStampedSteps(steps: seq<Step>) {
    forall i :: 0 <= i < |steps| ==> (forall e :: e in Incoming(steps[i]) ==> WellStamped(e))
  }
}
