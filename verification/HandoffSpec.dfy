/** What each mutex-protected section of the frame hand-off does to the shared state, as functions. */
module HandoffSpec {
  import opened FrameSpec
  import opened MediaClock

  const OVERFLOW_LIMIT: nat := 2

  datatype Config = Config(depthLimit: nat, overflowEnabled: bool) {
    predicate Valid() { depthLimit >= 2 }

    function OverflowLimit(): nat {
      if overflowEnabled then OVERFLOW_LIMIT else 0
    }
  }

  /** The shared state.  `queue` is libplacebo's queue, `held` the pending store, `present` its
      lock-free presence flag and `submitting` the flag of a submission in flight.  The last four
      sequences are histories: frames freed and counted, frames freed silently, frames that left the
      queue, and everything ever pushed to it. */
  datatype Hub = Hub(
    queue: seq<Entry>,
    clock: Clock,
    newest: real,
    held: seq<Entry>,
    present: bool,
    submitting: bool,
    drops: nat,
    dropped: seq<Entry>,
    released: seq<Entry>,
    gone: seq<Entry>,
    pushed: seq<Entry>)
  {
    function Emptied(): Hub {
      this.(queue := [], gone := gone + queue)
    }

    function Keep(rest: seq<Entry>): Hub {
      this.(held := rest, present := rest != [])
    }

    function Drop(frames: seq<Entry>): Hub {
      this.(drops := drops + |frames|, dropped := dropped + frames)
    }

    function Push(e: Entry): Hub {
      this.(queue := queue + [e], pushed := pushed + [e])
    }

    function Raise(pts: real): Hub {
      this.(newest := if newest < pts then pts else newest)
    }
  }

  const NOTHING_QUEUED: real := -1.0

  /** What every section keeps: a sorted store within its bound, in which a warm-up frame only waits alone;
      an exact presence flag; a drop counter that counts the dropped frames. */
  predicate HubShape(c: Config, h: Hub) {
    && Good(h.held)
    && |h.held| <= 1 + c.OverflowLimit()
    && h.present == (h.held != [])
    && h.drops == |h.dropped|
  }

  function InitialHub(): Hub {
    Hub([], Clock(NO_ORIGIN, 0, false, false), NOTHING_QUEUED, [], false, false, 0, [], [], [], [])
  }

  /** prunePendingFramesBeforeLocked */
  function PruneHub(h: Hub, cutoff: real): Hub {
    if cutoff < 0.0 then h else h.Keep(Prune(h.held, cutoff)).Drop(Pruned(h.held, cutoff))
  }

  /** The first locked section of presentFrame: set the origin up, or roll it back. */
  function AdoptOrigin(h: Hub, pts: real): Hub {
    if NeedsRollback(h.clock, pts, EPS) then
      PruneHub(h.Emptied().(newest := NOTHING_QUEUED, clock := Clock(pts, 0, false, h.clock.preserve)), pts)
    else h
  }

  /** takePendingFrameLocked */
  function Take(h: Hub): Hub
    requires h.held != []
  {
    h.Keep(h.held[1..])
  }

  datatype Decision = Promote(frame: Entry) | Direct | Wait

  /** The decision presentFrame takes in its second locked section.  `busy` and `submitting` are
      snapshots taken before the lock. */
  function Decide(c: Config, h: Hub, busy: bool, submitting: bool): Decision {
    var pendingExists := h.present || submitting;
    var tolerated := c.depthLimit + (if pendingExists then 1 else 0);
    if !busy && pendingExists && |h.queue| < c.depthLimit && h.held != [] then Promote(h.held[0])
    else if |h.queue| < tolerated && !pendingExists then Direct
    else Wait
  }

  function PresentLocked(c: Config, h: Hub, f: Entry, busy: bool, submitting: bool): Hub {
    match Decide(c, h, busy, submitting)
    case Promote(_) => if h.held != [] then Take(h) else h
    case Direct => if f.warmup then h.Push(f) else h.Push(f).Raise(f.pts)
    case Wait => h
  }

  /** The third locked section: push the promoted frame.  The depth is not looked at again. */
  function PushPromoted(h: Hub, p: Entry): Hub {
    h.Push(p).Raise(p.pts)
  }

  /** What storePendingFrame records with a frame. */
  function Stamp(h: Hub, f: Entry, haveStateLock: bool, nowUs: nat): Entry {
    f.(origin := if haveStateLock then h.clock.origin else CachedOrigin(OriginUs(h.clock.origin)), storedUs := nowUs)
  }

  /** storePendingFrame */
  function StoreHub(c: Config, h: Hub, f: Entry, haveStateLock: bool, nowUs: nat): Hub {
    var s := Store(c.OverflowLimit(), h.held, Stamp(h, f, haveStateLock, nowUs));
    h.Keep(s.held).Drop(s.dropped).(released := h.released + s.released)
  }

  /** The clean-up after a frame went straight to the queue. */
  function DropStale(h: Hub, pts: real): Hub {
    var n := Covered(h.held, UpTo(pts));
    h.Keep(h.held[n..]).Drop(h.held[..n])
  }

  /** presentFrame starts the clock with the first frame it queues itself. */
  function StartClock(h: Hub, f: Entry, rel: real, nowUs: nat): Hub {
    if f.warmup then h else h.(clock := StartPlayback(h.clock, rel, nowUs))
  }

  /** applyPendingFrame: claim the oldest pending frame. */
  function Claim(h: Hub): Hub {
    if h.held == [] then h.(submitting := false) else Take(h).(submitting := true)
  }

  function Finish(h: Hub): Hub {
    h.(submitting := false)
  }

  datatype Outcome = Stale | Deferred | Queued

  /** Would queueStoredFrame reject `e`, because something at least as new is already queued? */
  predicate IsStale(h: Hub, e: Entry) {
    !e.warmup && h.newest >= 0.0 && e.pts <= h.newest + EPS
  }

  /** The roll-back inside queueStoredFrame. */
  function SubmitOrigin(h: Hub, e: Entry): Hub {
    if !e.warmup && NeedsRollback(h.clock, e.pts, EPS) then
      PruneHub(h.Emptied().(newest := NOTHING_QUEUED, clock := Rollback(h.clock, e.pts)), e.pts)
    else h.(clock := h.clock.(preserve := false))
  }

  function SubmitOutcome(c: Config, h: Hub, e: Entry): Outcome {
    if IsStale(h, e) then Stale
    else if |SubmitOrigin(h, e).queue| >= c.depthLimit then Deferred
    else Queued
  }

  /** The locked section of queueStoredFrame. */
  function SubmitLocked(c: Config, h: Hub, e: Entry): Hub {
    match SubmitOutcome(c, h, e)
    case Stale => h.Drop([e])
    case Deferred => SubmitOrigin(h, e)
    case Queued =>
      var h1 := SubmitOrigin(h, e).Push(e);
      if e.warmup then h1 else h1.Raise(e.pts)
  }

  /** queueStoredFrame adjusts the clock after the push, outside the lock. */
  function SubmitClock(h: Hub, rel: real, duration: real, nowUs: nat): Hub {
    h.(clock := CatchUp(h.clock, rel, duration, nowUs))
  }

  /** libplacebo's update step: some of the oldest frames leave the queue. */
  function Update(h: Hub, n: nat): Hub {
    var k := if n <= |h.queue| then n else |h.queue|;
    h.(queue := h.queue[k..], gone := h.gone + h.queue[..k])
  }

  /** Replay of the kept frame into a queue that ran dry. */
  function Replay(h: Hub, kept: Entry, nowUs: nat): Hub {
    var origin := if h.clock.origin < 0.0 then kept.pts else h.clock.origin;
    var clock := if h.clock.started then h.clock.(origin := origin) else h.clock.(origin := origin, tsStart := nowUs, started := true);
    h.Push(kept).Raise(kept.pts).(clock := clock)
  }

  /** The locked section of resetPlaceboQueue. */
  function ResetQueue(h: Hub, preserve: bool): Hub {
    var keep := preserve && h.clock.origin >= 0.0 && h.clock.started;
    h.Emptied().(newest := NOTHING_QUEUED,
                 clock := if keep then h.clock.(preserve := true) else Clock(NO_ORIGIN, 0, false, false))
  }

  /** clearPendingFrameStateLocked */
  function ClearPending(h: Hub): Hub {
    h.Keep([]).(released := h.released + h.held, submitting := false)
  }

  /** The state changes of a session change that keeps no start-up frame. */
  function EndSession(h: Hub): Hub {
    ClearPending(h.Emptied().(newest := NOTHING_QUEUED, clock := Clock(NO_ORIGIN, 0, false, h.clock.preserve)))
  }
}
