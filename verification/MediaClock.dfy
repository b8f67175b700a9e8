/** The media clock: which time stamp of the stream is due at a given instant.

    `origin` is the time stamp the queue counts from (negative when unset) and `tsStart` the instant,
    in microseconds of the monotonic clock, at which that time stamp was due. */
module MediaClock {

  const WRAP: nat := 0x1_0000_0000_0000_0000

  datatype Clock = Clock(origin: real, tsStart: nat, started: bool, preserve: bool)

  const NO_ORIGIN: real := -1.0

  /** Seconds to microseconds and back. */
  function ToUs(x: real): real { x * 1000000.0 }

  function FromUs(us: int): real { us as real / 1000000.0 }

  /** Conversion of seconds to a signed count of microseconds; a C++ cast truncates toward zero. */
  function TruncUs(x: real): int {
    if x >= 0.0 then ToUs(x).Floor else -(ToUs(-x).Floor)
  }

  lemma TruncUsClose(x: real)
    ensures x >= 0.0 ==> 0.0 <= ToUs(x) - TruncUs(x) as real < 1.0
    ensures x < 0.0 ==> -1.0 < ToUs(x) - TruncUs(x) as real <= 0.0
  {
    var y := if x >= 0.0 then ToUs(x) else ToUs(-x);
    assert y.Floor as real <= y < y.Floor as real + 1.0;
    assert x < 0.0 ==> TruncUs(x) as real == -(y.Floor as real);
  }

  /** The lock-free copy of the origin, in whole microseconds; -1 when unset. */
  function OriginUs(origin: real): int {
    if origin < 0.0 then -1 else (ToUs(origin) + 0.5).Floor
  }

  function CachedOrigin(originUs: int): real {
    if originUs < 0 then NO_ORIGIN else FromUs(originUs)
  }

  /** The lock-free copy is unset exactly when the origin is, and at most half a microsecond off. */
  lemma CachedOriginClose(origin: real)
    ensures CachedOrigin(OriginUs(origin)) < 0.0 <==> origin < 0.0
    ensures origin >= 0.0 ==> -0.5 <= ToUs(CachedOrigin(OriginUs(origin)) - origin) <= 0.5
  {
    if origin >= 0.0 {
      var n := OriginUs(origin);
      assert n as real <= ToUs(origin) + 0.5 < n as real + 1.0;
      assert n >= 0;
      assert ToUs(FromUs(n)) == n as real;
    }
  }

  /** Unsigned 64-bit subtraction. */
  function SubU64(a: nat, b: nat): nat {
    (a - b) % WRAP
  }

  /** The time stamp due at `now`. */
  function Timeline(c: Clock, now: nat): real {
    c.origin + FromUs(now - c.tsStart)
  }

  /** Does a frame with time stamp `pts` force the queue back to an earlier origin? */
  predicate NeedsRollback(c: Clock, pts: real, eps: real) {
    c.origin < 0.0 || pts + eps < c.origin
  }

  /** Roll-back while a pending frame is submitted. */
  function Rollback(c: Clock, pts: real): Clock {
    if c.preserve && c.origin >= 0.0 && c.started then
      var moved := c.tsStart + TruncUs(pts - c.origin);
      Clock(pts, if moved < 0 then 0 else moved, true, false)
    else
      Clock(pts, 0, false, false)
  }

  /** Start instant that makes a frame `rel` seconds past the origin due at `now`. */
  function StartAt(rel: real, now: nat): nat {
    var us := if rel > 0.0 then TruncUs(rel) else 0;
    if us < now then now - us else 0
  }

  function Threshold(duration: real): real {
    if duration * 2.0 > 0.05 then duration * 2.0 else 0.05
  }

  /** Playback starts with the first frame that is queued. */
  function StartPlayback(c: Clock, rel: real, now: nat): Clock {
    if c.started then c else c.(tsStart := StartAt(rel, now), started := true)
  }

  /** After a pending frame was queued: start the clock, or jump forward to a frame that is too far ahead. */
  function CatchUp(c: Clock, rel: real, duration: real, now: nat): Clock {
    if !c.started then
      StartPlayback(c, rel, now)
    else if c.tsStart != 0 && rel > FromUs(SubU64(now, c.tsStart)) + Threshold(duration) then
      c.(tsStart := StartAt(rel, now))
    else c
  }

  /** The clock after one whole submission of a pending frame that ends in the queue. */
  function Submitted(c: Clock, pts: real, duration: real, now: nat, eps: real): Clock {
    var c1 := if NeedsRollback(c, pts, eps) then Rollback(c, pts) else c.(preserve := false);
    CatchUp(c1, pts - c1.origin, duration, now)
  }

  // ---------------------------------------------------------------------------------------------

  lemma SubU64Exact(now: nat, start: nat)
    requires start <= now < WRAP
    ensures SubU64(now, start) == now - start
  {
  }

  /** A roll-back that preserves the timeline moves the due time stamp by less than a microsecond
      exactly when the start instant needs no clamping at zero; and the catch-up branch of the same
      submission leaves the rolled-back clock alone in either case. */
  lemma PreservedRollback(c: Clock, pts: real, duration: real, now: nat, eps: real)
    requires c.preserve && c.started && c.origin >= 0.0
    requires pts + eps < c.origin && eps >= 0.0
    requires c.tsStart <= now < WRAP
    ensures var r := Submitted(c, pts, duration, now, eps);
            && r == Rollback(c, pts)
            && (-1.0 < ToUs(Timeline(r, now) - Timeline(c, now)) < 1.0 <==> c.tsStart + TruncUs(pts - c.origin) >= 0)
  {
    var r := Rollback(c, pts);
    TruncUsClose(pts - c.origin);
    var d := TruncUs(pts - c.origin);
    assert d <= 0;
    assert r.tsStart <= now;
    SubU64Exact(now, r.tsStart);
    assert FromUs(SubU64(now, r.tsStart)) >= 0.0;
    RollbackDrift(c, pts, now);
  }

  lemma RollbackDrift(c: Clock, pts: real, now: nat)
    requires c.preserve && c.started && c.origin >= 0.0 && pts < c.origin
    ensures var d := TruncUs(pts - c.origin);
            var moved := c.tsStart + d;
            ToUs(Timeline(Rollback(c, pts), now) - Timeline(c, now)) ==
            ToUs(pts - c.origin) - d as real + (if moved < 0 then moved as real else 0.0)
  {
    var r := Rollback(c, pts);
    var a, b := FromUs(now - r.tsStart), FromUs(now - c.tsStart);
    assert ToUs(a) == (now - r.tsStart) as real && ToUs(b) == (now - c.tsStart) as real;
    calc {
      ToUs(Timeline(r, now) - Timeline(c, now));
      ToUs(pts - c.origin + a - b);
      ToUs(pts - c.origin) + ToUs(a) - ToUs(b);
    }
  }

  /** After a submission the queued frame is at most the threshold ahead of the clock, unless the
      start instant is the zero that marks a clock older than its stream. */
  lemma SubmittedNotFarAhead(c: Clock, pts: real, duration: real, now: nat, eps: real)
    requires c.tsStart <= now < WRAP && eps >= 0.0
    ensures var r := Submitted(c, pts, duration, now, eps);
            && r.started
            && (r.tsStart == 0 || pts - Timeline(r, now) <= Threshold(duration))
  {
    var c1 := if NeedsRollback(c, pts, eps) then Rollback(c, pts) else c.(preserve := false);
    var rel := pts - c1.origin;
    TruncUsClose(pts - c.origin);
    assert c1.tsStart <= now;
    SubU64Exact(now, c1.tsStart);
    StartAtDue(rel, now);
  }

  /** The clock was started so that a frame `rel` seconds past the origin is due at `now`; only a frame that is
      further past the origin than the clock has run leaves it at zero. */
  predicate DueAt(start: nat, rel: real, now: nat) {
    var past := if rel > 0.0 then rel else 0.0;
    && start <= now
    && (start > 0 ==> 0.0 <= past - FromUs(now - start) < 0.000001)
    && (start == 0 ==> past >= FromUs(now))
  }

  lemma StartMakesDue(rel: real, now: nat)
    ensures DueAt(StartAt(rel, now), rel, now)
  {
    if rel > 0.0 {
      TruncUsClose(rel);
      var us := TruncUs(rel);
      assert ToUs(FromUs(us)) == us as real;
      assert 0.0 <= ToUs(rel - FromUs(us)) < 1.0;
      if us >= now {
        assert ToUs(rel) >= now as real && ToUs(FromUs(now)) == now as real;
      }
    }
  }

  /** After a frame was queued, in plain numbers: a clock that stands is started for the frame, one that runs
      jumps exactly if the frame is more than two of its durations, and more than 50 milliseconds, ahead of it. */
  lemma CatchUpMeaning(c: Clock, rel: real, duration: real, now: nat)
    requires c.tsStart <= now < WRAP
    ensures var r := CatchUp(c, rel, duration, now);
            var ahead := rel - FromUs(now - c.tsStart);
            && r.origin == c.origin && r.started && r.preserve == c.preserve
            && (if !c.started || (c.tsStart > 0 && ahead > 0.05 && ahead > 2.0 * duration) then DueAt(r.tsStart, rel, now)
                else r.tsStart == c.tsStart)
  {
    SubU64Exact(now, c.tsStart);
    StartMakesDue(rel, now);
  }

  /** A roll-back sets the origin to the frame and ends the permission to keep the time line; unless that was
      given to a clock that runs, the clock stops. */
  lemma RollbackMeaning(c: Clock, pts: real)
    ensures var r := Rollback(c, pts);
            && r.origin == pts && !r.preserve
            && (r.started <==> c.preserve && c.started && c.origin >= 0.0)
            && (!r.started ==> r.tsStart == 0)
  {
  }

  lemma StartAtDue(rel: real, now: nat)
    ensures var s := StartAt(rel, now);
            s <= now && (s == 0 || rel - FromUs(now - s) <= 0.000001)
  {
    var s := StartAt(rel, now);
    if rel > 0.0 {
      TruncUsClose(rel);
      if s != 0 {
        var us := TruncUs(rel);
        assert now - s == us;
        assert ToUs(rel) - us as real < 1.0;
        assert ToUs(FromUs(us)) == us as real;
        assert ToUs(rel - FromUs(us)) < 1.0;
      }
    } else {
      assert FromUs(now - s) >= 0.0;
    }
  }
}
