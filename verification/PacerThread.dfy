/** The pacer threads: a single wake-up target guarded by a mutex and a condition variable.

    Both pacer threads of the window run this protocol.  Callers arm and disarm it; the thread sleeps
    until the target and then fires once. */
module PacerThread {

  const GENERATIONS: nat := 0x1_0000_0000_0000_0000

  /** Where the thread is whenever the mutex is free.  `signaled` records a notification that has not been
      consumed yet. */
  datatype Pc =
    | Top
    | Idle(signaled: bool)
    | Timed(observedTarget: int, observedGeneration: nat, deadline: int, signaled: bool)
    | Firing
    | Finished

  datatype Fire = Fire(time: int, targets: seq<int>, period: nat)

  /** `targets` are the targets armed since the last fire or disarm, `periods` counts the armed periods begun. */
  datatype State = State(
    armed: bool, target: int, generation: nat, stopping: bool, now: int, pc: Pc,
    targets: seq<int>, periods: nat, fires: seq<Fire>)

  function Initial(now: int): State {
    State(false, 0, 0, false, now, Top, [], 0, [])
  }

  function Notify(pc: Pc): Pc {
    match pc
    case Idle(_) => Idle(true)
    case Timed(_, _, _, _) => pc.(signaled := true)
    case _ => pc
  }

  function Bump(generation: nat): nat {
    (generation + 1) % GENERATIONS
  }

  function Arm(s: State, t: int): State {
    if s.stopping then s
    else s.(target := if !s.armed || t < s.target then t else s.target,
            armed := true, generation := Bump(s.generation), pc := Notify(s.pc),
            targets := s.targets + [t], periods := if s.armed then s.periods else s.periods + 1)
  }

  function Disarm(s: State): State {
    s.(armed := false, generation := Bump(s.generation), pc := Notify(s.pc), targets := [])
  }

  function Stop(s: State): State {
    Disarm(s).(stopping := true)
  }

  function FireNow(s: State): State {
    s.(armed := false, targets := [], pc := Firing, fires := s.fires + [Fire(s.now, s.targets, s.periods)])
  }

  /** The loop of the thread from its head to the next point where it gives up the mutex. */
  function Iterate(s: State): State {
    if s.stopping then s.(pc := Finished)
    else if !s.armed then s.(pc := Idle(false))
    else if s.target <= s.now then FireNow(s)
    else s.(pc := Timed(s.target, s.generation, s.target, false))
  }

  predicate Changed(s: State, t: int, generation: nat) {
    s.stopping || !s.armed || s.generation != generation || s.target != t
  }

  /** The thread gets the mutex back: after a notification, spuriously, or because its wait timed out. */
  function Wake(s: State): State {
    match s.pc
    case Idle(_) => Iterate(s)
    case Timed(t, g, deadline, _) =>
      if Changed(s, t, g) then Iterate(s)
      else if s.now >= deadline then FireNow(s)
      else s.(pc := s.pc.(signaled := false))
    case Firing => Iterate(s)
    case Top => Iterate(s)
    case Finished => s
  }

  /** A wait that was begun before looks at the state again, even if the target is the same. */
  predicate Noticed(s: State, r: State) {
    r.generation != s.generation && r.generation < GENERATIONS
    && (s.pc.Timed? && s.pc.observedGeneration == s.generation ==>
         r.pc.Timed? && Changed(r, r.pc.observedTarget, r.pc.observedGeneration))
  }

  /** A sleeping thread has been notified. */
  predicate Informed(pc: Pc) {
    pc.Idle? || pc.Timed? ==> pc.signaled
  }

  /** `r` has one fire more than `s` if one was due, for all targets of the period and at the present time, and
      none otherwise. */
  predicate FiredOnce(s: State, r: State, due: bool) {
    && r.now == s.now
    && (if due then r.fires == s.fires + [Fire(s.now, s.targets, s.periods)] && !r.armed
        else r.fires == s.fires && r.armed == s.armed)
  }

  /** The thread object with its fields; the clock and the program counter of its loop included. */
  class Pacer {
    var stopping: bool
    var armed: bool
    var wakeupTargetUs: int
    var generation: nat
    var nowUs: int
    var pc: Pc

    ghost var targets: seq<int>
    ghost var periods: nat
    ghost var fires: seq<Fire>

    ghost function View(): State
      reads this
    {
      State(armed, wakeupTargetUs, generation, stopping, nowUs, pc, targets, periods, fires)
    }

    constructor (now: int)
      ensures Inv(View()) && View() == Initial(now)
    {
      stopping, armed, wakeupTargetUs, generation, nowUs, pc := false, false, 0, 0, now, Top;
      targets, periods, fires := [], 0, [];
    }

    method NotifyOne()
      modifies `pc
      ensures pc == Notify(old(pc))
    {
      match pc
      case Idle(_) => pc := Idle(true);
      case Timed(t, g, d, _) => pc := Timed(t, g, d, true);
      case _ =>
    }

    /** Unless the thread stops, it will wake up at the earliest target armed, this one included, and a thread
        that sleeps is told so. */
    method ArmAt(target: int)
      requires Inv(View())
      modifies this
      ensures Inv(View()) && View() == Arm(old(View()), target)
      ensures !stopping ==> armed && IsMin(wakeupTargetUs, targets) && target in targets && Informed(pc)
      ensures !stopping ==> Noticed(old(View()), View())
    {
      ArmInv(View(), target);
      if stopping {
        return;
      }
      if !armed || target < wakeupTargetUs {
        wakeupTargetUs := target;
      }
      if !armed {
        periods := periods + 1;
      }
      armed := true;
      targets := targets + [target];
      generation := (generation + 1) % GENERATIONS;
      NotifyOne();
    }

    method DisarmNow()
      requires Inv(View())
      modifies this
      ensures Inv(View()) && View() == Disarm(old(View()))
      ensures !armed && targets == [] && Informed(pc) && Noticed(old(View()), View())
    {
      armed := false;
      targets := [];
      generation := (generation + 1) % GENERATIONS;
      NotifyOne();
    }

    method StopThread()
      requires Inv(View())
      modifies this
      ensures Inv(View()) && View() == Stop(old(View()))
      ensures stopping && !armed && Informed(pc) && Noticed(old(View()), View())
    {
      stopping := true;
      armed := false;
      targets := [];
      generation := (generation + 1) % GENERATIONS;
      NotifyOne();
    }

    method IsArmed() returns (b: bool)
      ensures b == (armed && !stopping)
    {
      b := armed && !stopping;
    }

    method FireLocked()
      requires Inv(View()) && armed && wakeupTargetUs <= nowUs
      modifies this
      ensures Inv(View()) && View() == FireNow(old(View()))
    {
      FireInv(View());
      armed := false;
      fires := fires + [Fire(nowUs, targets, periods)];
      targets := [];
      pc := Firing;
    }

    /** Fires exactly if the earliest target armed has passed; otherwise it waits for that target, or for news if
        there is none. */
    method RunFromHead()
      requires Inv(View())
      modifies this
      ensures Inv(View()) && View() == Iterate(old(View()))
      ensures FiredOnce(old(View()), View(), old(armed) && old(wakeupTargetUs) <= nowUs)
      ensures armed ==> pc.Timed? && IsMin(pc.deadline, targets) && nowUs < pc.deadline
    {
      if stopping {
        pc := Finished;
      } else if !armed {
        pc := Idle(false);
      } else if wakeupTargetUs <= nowUs {
        FireLocked();
      } else {
        var wait := wakeupTargetUs - nowUs;
        pc := Timed(wakeupTargetUs, generation, nowUs + wait, false);
      }
    }

    /** However the thread got the mutex back, it fires exactly if the earliest target armed has passed. */
    method Resume()
      requires Inv(View())
      modifies this
      ensures Inv(View()) && View() == Wake(old(View()))
      ensures FiredOnce(old(View()), View(), old(armed) && old(wakeupTargetUs) <= nowUs)
    {
      match pc
      case Finished =>
      case Timed(t, g, deadline, _) =>
        if stopping || !armed || generation != g || wakeupTargetUs != t {
          RunFromHead();
        } else if nowUs >= deadline {
          FireLocked();
        } else {
          pc := Timed(t, g, deadline, false);
        }
      case _ =>
        RunFromHead();
    }
  }

  // ---------------------------------------------------------------------------------------------
  // Every interleaving

  datatype Step = DoArm(t: int) | DoDisarm | DoStop | DoWake | Tick(us: nat)

  function Next(s: State, step: Step): State {
    match step
    case DoArm(t) => Arm(s, t)
    case DoDisarm => Disarm(s)
    case DoStop => Stop(s)
    case DoWake => Wake(s)
    case Tick(us) => s.(now := s.now + us)
  }

  function Run(start: int, steps: seq<Step>): State {
    if steps == [] then Initial(start) else Next(Run(start, steps[..|steps| - 1]), steps[|steps| - 1])
  }

  predicate IsMin(m: int, s: seq<int>) {
    m in s && forall x :: x in s ==> m <= x
  }

  /** The target is the earliest one armed in the current period, and the thread is never asleep on old news. */
  predicate Inv(s: State) {
    && (if s.armed then s.targets != [] && IsMin(s.target, s.targets) else s.targets == [])
    && (s.stopping ==> !s.armed)
    && (match s.pc
        case Idle(signaled) => signaled || (!s.armed && !s.stopping)
        case Timed(t, g, deadline, signaled) => deadline == t && (signaled || !Changed(s, t, g))
        case Finished => s.stopping
        case _ => true)
    && Fired(s)
  }

  /** Every fire came at or after the earliest target of its period, and no period fired twice. */
  predicate Fired(s: State) {
    && (forall f :: f in s.fires ==> f.targets != [] && (exists m :: m in f.targets && IsMin(m, f.targets) && m <= f.time) && f.time <= s.now)
    && (forall i, j :: 0 <= i < j < |s.fires| ==> s.fires[i].period < s.fires[j].period)
    && (forall f :: f in s.fires ==> f.period <= s.periods && (s.armed ==> f.period < s.periods))
  }

  lemma ArmInv(s: State, t: int)
    requires Inv(s)
    ensures Inv(Arm(s, t))
  {
    if !s.stopping {
      var r := Arm(s, t);
      assert r.targets == s.targets + [t];
      assert IsMin(r.target, r.targets);
    }
  }

  lemma FireInv(s: State)
    requires Inv(s) && s.armed && s.target <= s.now
    ensures Inv(FireNow(s))
  {
    var r := FireNow(s);
    var f := Fire(s.now, s.targets, s.periods);
    assert r.fires == s.fires + [f];
    assert s.target in f.targets && IsMin(s.target, f.targets) && s.target <= f.time;
    assert forall x :: x in r.fires <==> x in s.fires || x == f;
  }

  lemma WakeInv(s: State)
    requires Inv(s)
    ensures Inv(Wake(s))
  {
    if s.armed && s.target <= s.now {
      FireInv(s);
    }
  }

  lemma {:induction false} RunInv(start: int, steps: seq<Step>)
    ensures Inv(Run(start, steps))
  {
    if steps != [] {
      var s := Run(start, steps[..|steps| - 1]);
      RunInv(start, steps[..|steps| - 1]);
      match steps[|steps| - 1]
      case DoArm(t) => ArmInv(s, t);
      case DoWake => WakeInv(s);
      case _ =>
    }
  }

  /** While armed, the target is the minimum of all targets armed since the last fire or disarm. */
  lemma TargetIsEarliest(start: int, steps: seq<Step>)
    requires Run(start, steps).armed
    ensures IsMin(Run(start, steps).target, Run(start, steps).targets)
  {
    RunInv(start, steps);
  }

  /** No fire comes before the earliest target of its period, and each period fires at most once. */
  lemma FiresOnceAndNotEarly(start: int, steps: seq<Step>, i: nat, j: nat)
    requires i < |Run(start, steps).fires| && j < |Run(start, steps).fires|
    ensures var f := Run(start, steps).fires;
            && (exists m :: m in f[i].targets && IsMin(m, f[i].targets) && m <= f[i].time)
            && (f[i].period == f[j].period <==> i == j)
  {
    RunInv(start, steps);
    var f := Run(start, steps).fires;
    assert f[i] in f;
  }

  /** No wake-up is lost: once an armed target has passed, the next step of the thread is to fire, wherever
      it is in its loop, and it is not blocked without a reason to wake up. */
  lemma DueTargetFires(start: int, steps: seq<Step>)
    requires var s := Run(start, steps); s.armed && s.target <= s.now
    ensures var s := Run(start, steps);
            && Wake(s) == FireNow(s)
            && (s.pc.Idle? ==> s.pc.signaled)
            && (s.pc.Timed? ==> s.pc.signaled || s.pc.deadline <= s.now)
  {
    RunInv(start, steps);
  }
}
