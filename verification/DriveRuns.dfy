// Runs of the kernel on a true clock: when a cycle stops, that a stop leaves zero
// on both motors, and the dead-man lease across the wrap of its 32-bit clock.
module DriveRuns {
  import opened Law
  import opened KernelCycle
  import opened Adapter

  // ---- time --------------------------------------------------------------------

  const HALF: int := RANGE / 2

  lemma ModDifference(a: int, b: int)
    ensures (a % RANGE - b % RANGE) % RANGE == (a - b) % RANGE
  {
    var q := a / RANGE - b / RANGE;
    assert a - b == q * RANGE + (a % RANGE - b % RANGE);
    ModShift(a % RANGE - b % RANGE, q);
  }

  lemma ModShift(x: int, q: int)
    ensures (q * RANGE + x) % RANGE == x % RANGE
  {
  }

  lemma ModSum(a: int, b: int)
    ensures (a % RANGE + b) % RANGE == (a + b) % RANGE
  {
    assert a + b == (a / RANGE) * RANGE + (a % RANGE + b);
    ModShift(a % RANGE + b, a / RANGE);
  }

  // The signed compare, on true times: T0 and T are milliseconds that never wrap.
  lemma SignedGap(t0: nat, lease: nat, t: nat)
    ensures Sub32((t0 + lease) % RANGE, t % RANGE) == (t0 + lease - t) % RANGE
  {
    ModDifference(t0 + lease, t);
  }

  // A lease that ran out reads live again: the second half of every further turn
  // of the clock.
  predicate Revived(t0: nat, lease: uint32, t: nat) {
    t >= t0 + lease && (t - t0 - lease) % RANGE > HALF
  }

  // A lease accepted at t0 reads live at t, for all time, exactly until it runs
  // out and whenever it has revived.
  lemma LeaseReadsLiveIff(t0: nat, lease: uint32, t: nat)
    requires lease <= 3600000 && t0 <= t
    ensures Signed32(Sub32((t0 + lease) % RANGE, t % RANGE)) > 0 <==> t < t0 + lease || Revived(t0, lease, t)
  {
    SignedGap(t0, lease, t);
    if t >= t0 + lease { ModNegated(t - t0 - lease); }
  }

  lemma ModNegated(n: int)
    ensures (-n) % RANGE == if n % RANGE == 0 then 0 else RANGE - n % RANGE
  {
    var m, q := n % RANGE, n / RANGE;
    assert -n == (-q) * RANGE - m;
    ModShift(-m, -q);
    if m > 0 { ModShift(RANGE - m, -1); }
  }

  // So a lease up to 2^31 ms past its end reads as it should ...
  lemma LeaseIsExact(t0: nat, lease: uint32, t: nat)
    requires lease <= 3600000 && t0 <= t <= t0 + lease + HALF
    ensures Signed32(Sub32((t0 + lease) % RANGE, t % RANGE)) > 0 <==> t < t0 + lease
  {
    LeaseReadsLiveIff(t0, lease, t);
  }

  // ... and one millisecond later the same mailbox reads live again.
  lemma LeaseRevives(t0: nat, lease: uint32)
    requires lease <= 3600000
    ensures Signed32(Sub32((t0 + lease) % RANGE, (t0 + lease + HALF + 1) % RANGE)) > 0
  {
    LeaseReadsLiveIff(t0, lease, t0 + lease + HALF + 1);
  }

  // ---- runs ----------------------------------------------------------------------

  // The kernel on a true clock, remembering when the command now in the mailbox
  // was accepted and for how long.
  datatype Plant = Plant(k: Kernel, nowUs: nat, acceptedAt: nat, lease: uint32)

  datatype Event =
    | Wait(us: nat)
    | DriveCmd(velocity: real, twist: real, lease: uint32)
    | DutyCmd(dutyLeft: real, dutyRight: real, lease: uint32)
    | WireWheelsV(countsPerLength: real, left: real, right: real, duration: uint32)
    | StopCmd
    | EstopCmd
    | EstopClearCmd
    | ClearStallCmd
    | RebaseCmd
    | Configure(config: Config)
    | Begin
    | EmergencyStop
    | Cycle(readLeft: Reading, readRight: Reading)

  function Granted(lease: uint32): uint32 { if lease > 3600000 then 3600000 else lease }

  // The mailbox after an accepted command, and when it was accepted.
  function Took(p: Plant, f: Front, accepted: bool, lease: uint32): Plant {
    if accepted then Plant(p.k.(front := f), p.nowUs, p.nowUs / 1000, Granted(lease))
    else p.(k := p.k.(front := f))
  }

  function After(p: Plant, e: Event): Plant {
    var f := p.k.front;
    match e
    case Wait(us) => p.(nowUs := p.nowUs + us)
    case DriveCmd(v, t, lease) =>
      var (f', status) := DriveSpec(f, p.nowUs, v, t, lease);
      Took(p, f', status == Ok, lease)
    case DutyCmd(l, r, lease) =>
      var (f', status) := DriveDutySpec(f, p.nowUs, l, r, lease);
      Took(p, f', status == Ok, lease)
    case WireWheelsV(c, l, r, duration) =>
      var (f', result) := WheelsVSpec(f, c, p.nowUs, l, r, duration);
      Took(p, f', result == Accepted, duration)
    case StopCmd => p.(k := p.k.(front := NeutralSpec(f)))
    case EstopCmd => p.(k := p.k.(front := f.(estop := true)))
    case EstopClearCmd => p.(k := p.k.(front := f.(estop := false)))
    case ClearStallCmd => p.(k := p.k.(front := f.(clearStallReq := Next32(f.clearStallReq))))
    case RebaseCmd => p.(k := p.k.(front := f.(rebaseReq := Next32(f.rebaseReq))))
    case Configure(config) => p.(k := p.k.(front := SetConfigSpec(f, config).0))
    case Begin => p.(k := p.k.(front := BeginSpec(f).0, loop := p.k.loop.(stopEnforceCountdown := STOP_ENFORCE_TICKS)))
    case EmergencyStop =>
      p.(k := p.k.(front := f.(estop := true),
                   loop := p.k.loop.(left := Idled(p.k.loop.left), right := Idled(p.k.loop.right))))
    case Cycle(readLeft, readRight) =>
      if CanStep(p.k, p.nowUs) then p.(k := Step(p.k, p.nowUs, readLeft, readRight)) else p
  }

  function Run(p: Plant, es: seq<Event>): Plant {
    if es == [] then p else After(Run(p, es[..|es| - 1]), es[|es| - 1])
  }

  function Boot(left: Port, right: Port): Plant {
    Plant(FreshKernel(left, right), 0, 0, 0)
  }

  // ---- the cycle's mode --------------------------------------------------------------

  function CycleMode(p: Plant): Mode { ModeOf(TakeRequests(p.k, p.nowUs), Millis(p.nowUs)) }

  // The cycle at time p.nowUs runs the stop path.
  ghost predicate MustStop(p: Plant) { CycleMode(p) == Neutral }

  // Exactly when that is; and a cycle that does not stop runs the mailbox's mode.
  lemma StopsIff(p: Plant)
    ensures var k, cmd := TakeRequests(p.k, p.nowUs), p.k.front.command;
            && (MustStop(p) <==>
                  || p.k.front.estop || k.loop.stallHalted || !LeaseLive(cmd, Millis(p.nowUs))
                  || (cmd.mode == Velocity && k.active.fullDutyVelocity <= 0.0))
            && (!MustStop(p) ==> CycleMode(p) == cmd.mode)
  {
    hide TakeRequests;
    RequestsKeepFront(p.k, p.nowUs);
  }

  lemma RequestsKeepFront(k: Kernel, cycleStart: nat)
    ensures TakeRequests(k, cycleStart).front == k.front
  {
  }

  lemma NoCycle(p: Plant, readLeft: Reading, readRight: Reading)
    requires !CanStep(p.k, p.nowUs)
    ensures After(p, Cycle(readLeft, readRight)) == p
  {
  }

  // ---- dead-man --------------------------------------------------------------------

  ghost predicate LeaseKnown(p: Plant) {
    p.k.front.command.mode != Neutral ==>
      && p.k.front.command.validUntil == (p.acceptedAt + p.lease) % RANGE
      && p.lease <= 3600000
      && p.acceptedAt * 1000 <= p.nowUs
  }

  lemma ValidUntilIsTrue(nowUs: nat, lease: uint32)
    ensures ValidUntil(nowUs, lease) == (nowUs / 1000 + Granted(lease)) % RANGE
  {
    ModSum(nowUs / 1000, Granted(lease));
  }

  lemma CycleKeepsFront(p: Plant, readLeft: Reading, readRight: Reading)
    ensures After(p, Cycle(readLeft, readRight)).k.front == p.k.front
  {
    hide ControlledLoop, Collect, OutputOf, NextGates;
  }

  lemma {:induction false} LeaseStaysKnown(p: Plant, es: seq<Event>)
    requires LeaseKnown(p)
    ensures LeaseKnown(Run(p, es))
  {
    if es != [] {
      var q, e := Run(p, es[..|es| - 1]), es[|es| - 1];
      LeaseStaysKnown(p, es[..|es| - 1]);
      LeaseStep(q, e);
    }
  }

  lemma LeaseStep(p: Plant, e: Event)
    requires LeaseKnown(p)
    ensures LeaseKnown(After(p, e))
  {
    hide Step, CanStep, ValidUntil;
    match e
    case DriveCmd(_, _, lease) => ValidUntilIsTrue(p.nowUs, lease);
    case DutyCmd(_, _, lease) => ValidUntilIsTrue(p.nowUs, lease);
    case WireWheelsV(_, _, _, duration) => ValidUntilIsTrue(p.nowUs, duration);
    case Cycle(readLeft, readRight) => CycleKeepsFront(p, readLeft, readRight);
    case _ =>
  }

  ghost predicate Silent(l: Loop) {
    l.left.written == 0.0 && l.right.written == 0.0
  }

  lemma StopLeavesZero(l: Loop)
    ensures Silent(NeutralStep(l))
  {
  }

  lemma StoppedIsSilent(p: Plant, readLeft: Reading, readRight: Reading)
    requires MustStop(p)
    ensures Silent(After(p, Cycle(readLeft, readRight)).k.loop)
  {
    hide VelocityStep, RawDutyStep, NeutralStep, RefreshSample, TakeRequests, EffectiveMode, OutputOf, NextGates;
    var k := TakeRequests(p.k, p.nowUs);
    StopLeavesZero(EnterHalt(k.gates, k.loop, Halted(k)));
  }

  // A cycle that ends with nonzero duty staged ran in a live mode.
  lemma MovingMeansLive(p: Plant, readLeft: Reading, readRight: Reading)
    ensures CanStep(p.k, p.nowUs) && !Silent(After(p, Cycle(readLeft, readRight)).k.loop) ==>
              && LeaseLive(p.k.front.command, Millis(p.nowUs))
              && !p.k.front.estop && !TakeRequests(p.k, p.nowUs).loop.stallHalted
  {
    hide After, CycleMode, TakeRequests, LeaseLive;
    StopsIff(p);
    if MustStop(p) { StoppedIsSilent(p, readLeft, readRight); }
  }

  // The command in the mailbox, by true time: its lease has not run out, or has
  // revived.
  predicate Held(p: Plant) {
    p.nowUs / 1000 < p.acceptedAt + p.lease || Revived(p.acceptedAt, p.lease, p.nowUs / 1000)
  }

  // Over every run from power-up the 32-bit test and true time agree.
  lemma LiveIffHeld(left: Port, right: Port, es: seq<Event>)
    ensures var p := Run(Boot(left, right), es);
            p.k.front.command.mode != Neutral ==>
              p.acceptedAt <= p.nowUs / 1000 && (LeaseLive(p.k.front.command, Millis(p.nowUs)) <==> Held(p))
  {
    hide After, Run, Boot, Revived;
    BootKnowsLease(left, right);
    LeaseStaysKnown(Boot(left, right), es);
    var p := Run(Boot(left, right), es);
    if p.k.front.command.mode != Neutral { LeaseReadsLiveIff(p.acceptedAt, p.lease, p.nowUs / 1000); }
  }

  // Any cycle that leaves nonzero duty staged holds a command accepted before,
  // whose lease has not run out or has revived.
  lemma DeadMan(left: Port, right: Port, es: seq<Event>, readLeft: Reading, readRight: Reading)
    ensures var p := Run(Boot(left, right), es);
            var q := After(p, Cycle(readLeft, readRight));
            CanStep(p.k, p.nowUs) && !Silent(q.k.loop) ==>
              p.k.front.command.mode != Neutral && p.acceptedAt <= p.nowUs / 1000 && Held(p)
  {
    hide After, Run, TakeRequests, Usable, Silent, Boot, Held;
    LiveIffHeld(left, right, es);
    var p := Run(Boot(left, right), es);
    var q := After(p, Cycle(readLeft, readRight));
    if CanStep(p.k, p.nowUs) && !Silent(q.k.loop) { MovingMeansLive(p, readLeft, readRight); }
  }

  lemma BootKnowsLease(left: Port, right: Port)
    ensures LeaseKnown(Boot(left, right))
  {
  }

  lemma BootLeaseIsShort(left: Port, right: Port)
    ensures Boot(left, right).lease <= 5000
  {
  }

  ghost predicate FromWireOnly(es: seq<Event>) {
    forall i :: 0 <= i < |es| ==> !es[i].DriveCmd? && !es[i].DutyCmd?
  }

  // Commands that came over the wire hold the motors for at most 5000 ms.
  lemma {:induction false} WireLeaseIsShort(p: Plant, es: seq<Event>)
    requires p.lease <= 5000 && FromWireOnly(es)
    ensures Run(p, es).lease <= 5000
  {
    if es != [] {
      hide Step;
      WireLeaseIsShort(p, es[..|es| - 1]);
    }
  }

  // What stops a cycle whatever the lease.
  ghost predicate HeldBack(p: Plant) {
    var k, cmd := TakeRequests(p.k, p.nowUs), p.k.front.command;
    p.k.front.estop || k.loop.stallHalted || cmd.mode == Neutral ||
    (cmd.mode == Velocity && k.active.fullDutyVelocity <= 0.0)
  }

  // So from 5000 ms after the last accepted command on, for all time and whatever
  // the configuration, a cycle stops, and stages zero, unless the lease has revived
  // under a command that nothing else holds back.
  lemma WireDeadMan(left: Port, right: Port, es: seq<Event>, readLeft: Reading, readRight: Reading)
    requires FromWireOnly(es)
    ensures var p := Run(Boot(left, right), es);
            p.nowUs / 1000 >= p.acceptedAt + 5000 ==>
              && (MustStop(p) <==> HeldBack(p) || !Revived(p.acceptedAt, p.lease, p.nowUs / 1000))
              && (MustStop(p) ==> Silent(After(p, Cycle(readLeft, readRight)).k.loop))
  {
    hide After, Run, CanStep, Silent, Boot, MustStop, Revived, TakeRequests;
    BootLeaseIsShort(left, right);
    WireLeaseIsShort(Boot(left, right), es);
    LiveIffHeld(left, right, es);
    var p := Run(Boot(left, right), es);
    StopsIff(p);
    if MustStop(p) { StoppedIsSilent(p, readLeft, readRight); }
  }

  // ---- the stop path ------------------------------------------------------------------

  // Both ports hold what the kernel last staged.
  ghost predicate Tracked(l: Loop) {
    l.left.port.duty == l.left.written && l.right.port.duty == l.right.written
  }

  // Before the first write after begin() the countdown is running; from then on
  // each port holds what was staged, or zero after an emergency stop.
  ghost predicate Primed(l: Loop) {
    l.stopEnforceCountdown > 0 ||
    ((l.left.port.duty == l.left.written || l.left.port.duty == 0.0) &&
     (l.right.port.duty == l.right.written || l.right.port.duty == 0.0))
  }

  lemma StagingTracks(l: Loop, dutyLeft: real, dutyRight: real)
    requires Primed(l)
    ensures Tracked(StageDuty(l, dutyLeft, dutyRight))
  {
  }

  lemma ControlTracks(cfg: Config, l: Loop, cmd: Command, mode: Mode, epoch: int, dt: real, nowUs: nat, now: uint32)
    requires mode == Velocity ==> Usable(cfg) && cfg.fullDutyVelocity > 0.0
    requires Primed(l)
    ensures Tracked(ControlStep(cfg, l, cmd, mode, epoch, dt, nowUs, now))
  {
    hide StageDuty, DriveWheel, PlanTargets, UpdateLatch, Stalling, Clamp;
    if mode == Velocity {
      VelocityTracks(cfg, l, cmd, epoch, dt, nowUs, now);
    } else if mode == Neutral {
      var m := l.(left := NeutralWheel(l.left), right := NeutralWheel(l.right),
                  lambda := 1.0, twistRef := l.twistRef.(armed := false),
                  stallSince := 0, stallLatched := false);
      StagingTracks(m, 0.0, 0.0);
    } else {
      var rail, dl, dr := cfg.maxDuty * 0.01, cmd.dutyLeft * 0.01, cmd.dutyRight * 0.01;
      var m := l.(left := RawWheel(l.left, dl, rail), right := RawWheel(l.right, dr, rail),
                  lambda := 1.0, twistRef := l.twistRef.(armed := false));
      StagingTracks(m, Clamp(dl, -rail, rail), Clamp(dr, -rail, rail));
    }
  }

  lemma DriveWheelKeepsPort(cfg: Config, m: WheelMap, w: Wheel, speed: real, epoch: int, dt: real,
                            nowUs: nat, now: uint32, adaptAllowed: bool)
    requires m.accelGain != 0.0 && m.decelGain != 0.0 && cfg.fullDutyVelocity > 0.0
    ensures var w' := DriveWheel(cfg, m, w, speed, epoch, dt, nowUs, now, adaptAllowed).0;
            w'.port == w.port && w'.written == w.written && w'.sample == w.sample
  {
    hide CorrectedCommand, SmoothAccel, PositionError, FastPid, CrawlDuty, AdaptBias, UpdateLatch, Clamp, Abs;
  }

  lemma VelocityTracks(cfg: Config, l: Loop, cmd: Command, epoch: int, dt: real, nowUs: nat, now: uint32)
    requires Usable(cfg) && cfg.fullDutyVelocity > 0.0
    requires Primed(l)
    ensures Tracked(VelocityStep(cfg, l, cmd, epoch, dt, nowUs, now))
  {
    hide StageDuty, DriveWheel, PlanTargets, UpdateLatch, Stalling;
    var t := PlanTargets(cfg, l, cmd, epoch, dt);
    var adaptAllowed := t.lambda >= LAMBDA_ADAPT_FLOOR;
    DriveWheelKeepsPort(cfg, cfg.mapLeft, l.left, t.speedLeft, epoch, dt, nowUs, now, adaptAllowed);
    DriveWheelKeepsPort(cfg, cfg.mapRight, l.right, t.speedRight, epoch, dt, nowUs, now, adaptAllowed);
    var (left, dutyLeft) := DriveWheel(cfg, cfg.mapLeft, l.left, t.speedLeft, epoch, dt, nowUs, now, adaptAllowed);
    var (right, dutyRight) := DriveWheel(cfg, cfg.mapRight, l.right, t.speedRight, epoch, dt, nowUs, now, adaptAllowed);
    var (since, latched) :=
      UpdateLatch(Stalling(cfg, cmd, l.left.sample, l.right.sample), cfg.stallWindow, now, l.stallSince);
    StagingTracks(Loop(left, right, t.twistRef, t.lambda, l.stallHalted || latched, since, latched,
                       l.stopEnforceCountdown),
                  dutyLeft, dutyRight);
  }

  lemma CycleTracks(p: Plant, readLeft: Reading, readRight: Reading)
    requires Primed(p.k.loop) && CanStep(p.k, p.nowUs)
    ensures Tracked(After(p, Cycle(readLeft, readRight)).k.loop)
  {
    hide ControlStep, EffectiveMode, RefreshSample, NextGates, Usable;
    var k := TakeRequests(p.k, p.nowUs);
    assert Primed(k.loop);
    var l := EnterHalt(k.gates, k.loop, Halted(k));
    assert Primed(l);
    var mode := EffectiveMode(k.front.command, Halted(k), k.active.fullDutyVelocity > 0.0, Millis(p.nowUs));
    ModeIsCalibrated(k.front.command, Halted(k), k.active.fullDutyVelocity > 0.0, Millis(p.nowUs));
    ControlTracks(k.active, l, k.front.command, mode, k.requests.epoch,
                  Seconds(MeasuredPeriod(p.k.clock, p.nowUs)), k.clock.previousCycleStart, Millis(p.nowUs));
  }

  lemma ModeIsCalibrated(cmd: Command, halted: bool, calibrated: bool, now: uint32)
    ensures EffectiveMode(cmd, halted, calibrated, now) == Velocity ==> calibrated
  {
  }

  lemma {:induction false} StaysPrimed(p: Plant, es: seq<Event>)
    requires Primed(p.k.loop)
    ensures Primed(Run(p, es).k.loop)
  {
    hide Step, Usable;
    if es != [] {
      var q, e := Run(p, es[..|es| - 1]), es[|es| - 1];
      StaysPrimed(p, es[..|es| - 1]);
      if e.Cycle? && CanStep(q.k, q.nowUs) {
        CycleTracks(q, e.readLeft, e.readRight);
      }
    }
  }

  // From the first cycle after begin(), every cycle that must stop leaves zero
  // staged on both motors, whatever came before.
  lemma StopCycleIsSilent(p: Plant, es: seq<Event>, readLeft: Reading, readRight: Reading)
    ensures var q := Run(After(p, Begin), es);
            var l := After(q, Cycle(readLeft, readRight)).k.loop;
            MustStop(q) ==> Silent(l) && l.left.port.duty == 0.0 && l.right.port.duty == 0.0
  {
    var begun := After(p, Begin);
    StaysPrimed(begun, es);
    var q := Run(begun, es);
    hide After, Run, Usable, Silent, CycleMode;
    if MustStop(q) {
      CycleTracks(q, readLeft, readRight);
      StoppedIsSilent(q, readLeft, readRight);
      SilentAndTracked(After(q, Cycle(readLeft, readRight)).k.loop);
    }
  }

  lemma SilentAndTracked(l: Loop)
    requires Silent(l) && Tracked(l)
    ensures l.left.port.duty == 0.0 && l.right.port.duty == 0.0
  {
  }
}
