// Which duty reaches which motor: what the two ports hold after a cycle, over any
// run since begin().
module Ports {
  import opened Law
  import opened KernelCycle
  import opened DriveRuns

  // d is the value nearest to `asked` between -most and most.
  ghost predicate HeldTo(most: real, asked: real, d: real) {
    && -most <= d <= most
    && (-most <= asked <= most ==> d == asked)
    && (asked > most ==> d == most)
    && (asked < -most ==> d == -most)
  }

  // A percentage as a fraction.
  function Fraction(percent: real): real { percent / 100.0 }

  ghost predicate OnPorts(l: Loop, dutyLeft: real, dutyRight: real) {
    && l.left.port.duty == l.left.written == dutyLeft
    && l.right.port.duty == l.right.written == dutyRight
  }

  // The write gate passes each duty to its own motor, or holds back a stop that
  // both motors already have.
  lemma GateReachesPorts(l: Loop, dutyLeft: real, dutyRight: real)
    requires Primed(l)
    ensures OnPorts(StageDuty(l, dutyLeft, dutyRight), dutyLeft, dutyRight)
  {
    hide WheelsMoving;
  }

  lemma RawReachesPorts(l: Loop, rail: real, demandLeft: real, demandRight: real)
    requires Primed(l) && rail >= 0.0
    ensures var m := RawDutyStep(l, rail, demandLeft, demandRight);
            HeldTo(rail, demandLeft, m.left.port.duty) && HeldTo(rail, demandRight, m.right.port.duty)
  {
    hide StageDuty;
    GateReachesPorts(l.(left := RawWheel(l.left, demandLeft, rail), right := RawWheel(l.right, demandRight, rail),
                        lambda := 1.0, twistRef := l.twistRef.(armed := false)),
                     Clamp(demandLeft, -rail, rail), Clamp(demandRight, -rail, rail));
  }

  // The velocity law's duty for each wheel, from that wheel's target, map and state.
  lemma VelocityReachesPorts(cfg: Config, l: Loop, cmd: Command, epoch: int, dt: real, nowUs: nat, now: uint32)
    requires Usable(cfg) && cfg.fullDutyVelocity > 0.0 && Primed(l)
    ensures var t := PlanTargets(cfg, l, cmd, epoch, dt);
            var adapts := t.lambda >= LAMBDA_ADAPT_FLOOR;
            OnPorts(VelocityStep(cfg, l, cmd, epoch, dt, nowUs, now),
                    DriveWheel(cfg, cfg.mapLeft, l.left, t.speedLeft, epoch, dt, nowUs, now, adapts).1,
                    DriveWheel(cfg, cfg.mapRight, l.right, t.speedRight, epoch, dt, nowUs, now, adapts).1)
  {
    hide StageDuty, DriveWheel, PlanTargets, UpdateLatch, Stalling;
    var t := PlanTargets(cfg, l, cmd, epoch, dt);
    var adapts := t.lambda >= LAMBDA_ADAPT_FLOOR;
    DriveWheelKeepsPort(cfg, cfg.mapLeft, l.left, t.speedLeft, epoch, dt, nowUs, now, adapts);
    DriveWheelKeepsPort(cfg, cfg.mapRight, l.right, t.speedRight, epoch, dt, nowUs, now, adapts);
    var (left, dutyLeft) := DriveWheel(cfg, cfg.mapLeft, l.left, t.speedLeft, epoch, dt, nowUs, now, adapts);
    var (right, dutyRight) := DriveWheel(cfg, cfg.mapRight, l.right, t.speedRight, epoch, dt, nowUs, now, adapts);
    var (since, latched) :=
      UpdateLatch(Stalling(cfg, cmd, l.left.sample, l.right.sample), cfg.stallWindow, now, l.stallSince);
    GateReachesPorts(Loop(left, right, t.twistRef, t.lambda, l.stallHalted || latched, since, latched,
                          l.stopEnforceCountdown),
                     dutyLeft, dutyRight);
  }

  // ---- cycles of a run -------------------------------------------------------------

  // What a cycle's control step starts from.
  function Before(p: Plant): Loop {
    var k := TakeRequests(p.k, p.nowUs);
    EnterHalt(k.gates, k.loop, Halted(k))
  }

  function Dt(p: Plant): real { Seconds(MeasuredPeriod(p.k.clock, p.nowUs)) }

  lemma StaysPrimedAtCycle(p: Plant)
    requires Primed(p.k.loop)
    ensures Primed(Before(p))
  {
  }

  // A cycle leaves on the ports what its control step staged; collecting samples
  // does not touch them.
  lemma CycleStages(p: Plant, readLeft: Reading, readRight: Reading)
    requires CanStep(p.k, p.nowUs)
    ensures var k := TakeRequests(p.k, p.nowUs);
            var l := After(p, Cycle(readLeft, readRight)).k.loop;
            CycleMode(p) == Velocity ==> Usable(k.active) && k.active.fullDutyVelocity > 0.0
    ensures var k := TakeRequests(p.k, p.nowUs);
            var l := After(p, Cycle(readLeft, readRight)).k.loop;
            var m := ControlStep(k.active, Before(p), k.front.command, CycleMode(p), k.requests.epoch, Dt(p), p.nowUs,
                                 Millis(p.nowUs));
            && l.left.port.duty == m.left.port.duty && l.right.port.duty == m.right.port.duty
            && l.left.written == m.left.written && l.right.written == m.right.written
  {
    hide ControlStep, RefreshSample, OutputOf, NextGates, EffectiveMode, Usable, EnterHalt, Seconds;
    var k := TakeRequests(p.k, p.nowUs);
    ModeIsCalibrated(k.front.command, Halted(k), k.active.fullDutyVelocity > 0.0, Millis(p.nowUs));
  }

  // A raw-duty command, in percent, reaches each motor as its own fraction, held
  // to the rail.
  lemma RawDutyReachesItsMotor(p: Plant, es: seq<Event>, readLeft: Reading, readRight: Reading)
    ensures var q := Run(After(p, Begin), es);
            var cmd, rail := q.k.front.command, Fraction(TakeRequests(q.k, q.nowUs).active.maxDuty);
            var l := After(q, Cycle(readLeft, readRight)).k.loop;
            CycleMode(q) == RawDuty && rail >= 0.0 ==>
              HeldTo(rail, Fraction(cmd.dutyLeft), l.left.port.duty) &&
                HeldTo(rail, Fraction(cmd.dutyRight), l.right.port.duty)
  {
    var begun := After(p, Begin);
    assert Primed(begun.k.loop);
    StaysPrimed(begun, es);
    var q := Run(begun, es);
    hide After, Run, CycleMode, TakeRequests, HeldTo, Primed, Fraction;
    if CycleMode(q) == RawDuty && Fraction(TakeRequests(q.k, q.nowUs).active.maxDuty) >= 0.0 {
      RawCycle(q, readLeft, readRight);
    }
  }

  lemma RawCycle(q: Plant, readLeft: Reading, readRight: Reading)
    requires Primed(q.k.loop) && CycleMode(q) == RawDuty && Fraction(TakeRequests(q.k, q.nowUs).active.maxDuty) >= 0.0
    ensures var cmd, rail := q.k.front.command, Fraction(TakeRequests(q.k, q.nowUs).active.maxDuty);
            var l := After(q, Cycle(readLeft, readRight)).k.loop;
            HeldTo(rail, Fraction(cmd.dutyLeft), l.left.port.duty) &&
              HeldTo(rail, Fraction(cmd.dutyRight), l.right.port.duty)
  {
    hide After, CycleMode, TakeRequests, RawDutyStep, HeldTo, Before, Dt, Usable, Primed;
    var k, cmd := TakeRequests(q.k, q.nowUs), q.k.front.command;
    RequestsKeepFront(q.k, q.nowUs);
    RawCanStep(q);
    CycleStages(q, readLeft, readRight);
    StaysPrimedAtCycle(q);
    Percent(k.active.maxDuty);
    Percent(cmd.dutyLeft);
    Percent(cmd.dutyRight);
    RawReachesPorts(Before(q), k.active.maxDuty * 0.01, cmd.dutyLeft * 0.01, cmd.dutyRight * 0.01);
  }

  lemma Percent(x: real)
    ensures Fraction(x) == x * 0.01
  {
  }

  lemma RawCanStep(p: Plant)
    requires CycleMode(p) == RawDuty
    ensures CanStep(p.k, p.nowUs)
  {
    hide TakeRequests, EffectiveMode;
  }

  // A velocity cycle leaves on each motor the duty the law computes for its own
  // wheel: from that wheel's own target, correction map and state.
  lemma VelocityReachesItsMotor(p: Plant, es: seq<Event>, readLeft: Reading, readRight: Reading)
    ensures var q := Run(After(p, Begin), es);
            var k, now := TakeRequests(q.k, q.nowUs), Millis(q.nowUs);
            var cfg, l := k.active, After(q, Cycle(readLeft, readRight)).k.loop;
            CanStep(q.k, q.nowUs) && CycleMode(q) == Velocity ==>
              && Usable(cfg) && cfg.fullDutyVelocity > 0.0
              && var t := PlanTargets(cfg, Before(q), k.front.command, k.requests.epoch, Dt(q));
                 var adapts := t.lambda >= LAMBDA_ADAPT_FLOOR;
                 OnPorts(l,
                         DriveWheel(cfg, cfg.mapLeft, Before(q).left, t.speedLeft, k.requests.epoch, Dt(q), q.nowUs,
                                    now,
                                    adapts).1,
                         DriveWheel(cfg, cfg.mapRight, Before(q).right, t.speedRight, k.requests.epoch, Dt(q), q.nowUs,
                                    now,
                                    adapts).1)
  {
    var begun := After(p, Begin);
    assert Primed(begun.k.loop);
    StaysPrimed(begun, es);
    var q := Run(begun, es);
    hide After, Run, CycleMode, CanStep, TakeRequests, VelocityStep, Before, Dt, Usable, DriveWheel, PlanTargets;
    if CanStep(q.k, q.nowUs) && CycleMode(q) == Velocity {
      var k := TakeRequests(q.k, q.nowUs);
      CycleStages(q, readLeft, readRight);
      StaysPrimedAtCycle(q);
      VelocityReachesPorts(k.active, Before(q), k.front.command, k.requests.epoch, Dt(q), q.nowUs, Millis(q.nowUs));
    }
  }

  // ---- the plainest law ------------------------------------------------------------

  // Feedforward alone: no PID, no twist hold, no authority scaling, no floor, no
  // correction map, no crawl pulses.
  ghost predicate FeedforwardOnly(cfg: Config) {
    && cfg.maxDuty >= 0.0 && cfg.fullDutyVelocity > 0.0
    && cfg.kp == 0.0 && cfg.ki == 0.0 && cfg.kaff == 0.0 && cfg.twistHoldGain <= 0.0
    && cfg.mapLeft == WheelMap(1.0, 0.0, 1.0, 0.0) && cfg.mapRight == WheelMap(1.0, 0.0, 1.0, 0.0)
    && cfg.vMin <= 0.0 && !cfg.lambdaEnabled && cfg.crawlPulse == 0.0
  }

  // A motor holds its target's share of full duty, held to the rail.
  ghost predicate AtMotor(cfg: Config, target: real, duty: real) {
    cfg.fullDutyVelocity > 0.0 && HeldTo(Fraction(cfg.maxDuty), target / cfg.fullDutyVelocity, duty)
  }

  lemma NoPid(cfg: Config, posError: real, err: real, aCmd: real)
    requires cfg.kp == 0.0 && cfg.ki == 0.0 && cfg.kaff == 0.0
    ensures FastPid(cfg, posError, err, aCmd) == 0.0
  {
  }

  lemma IdentityMap(speed: real, previous: real)
    ensures CorrectedCommand(WheelMap(1.0, 0.0, 1.0, 0.0), speed, previous, 0.0) == speed
  {
  }

  lemma FeedforwardDuty(cfg: Config, m: WheelMap, w: Wheel, speed: real, epoch: int, dt: real, nowUs: nat, now: uint32,
                        adaptAllowed: bool)
    requires FeedforwardOnly(cfg) && m == WheelMap(1.0, 0.0, 1.0, 0.0) && w.bias == 0.0
    ensures AtMotor(cfg, speed, DriveWheel(cfg, m, w, speed, epoch, dt, nowUs, now, adaptAllowed).1)
  {
    hide PositionError, SmoothAccel, UpdateLatch, FastPid, AdaptBias, CorrectedCommand, Demand;
    IdentityMap(speed, w.lastSpeed);
    var (_, posError) := PositionError(cfg, speed, w.sample, w.posRef, epoch, dt);
    NoPid(cfg, posError, speed - w.sample.velocity, SmoothAccel(w.cmdAccel, speed, w.previousTarget, dt));
    DemandOf(cfg, speed);
    Percent(cfg.maxDuty);
  }

  lemma DemandOf(cfg: Config, speed: real)
    requires cfg.fullDutyVelocity > 0.0
    ensures Demand(cfg, speed, 0.0) == speed / cfg.fullDutyVelocity
  {
    var f := cfg.fullDutyVelocity;
    var inverse, q := 1.0 / f, speed / f;
    assert inverse * f == 1.0 && q * f == speed;
    assert (speed * inverse) * f == speed * (inverse * f);
    SameQuotient(speed * inverse, q, f);
  }

  lemma SameQuotient(x: real, y: real, f: real)
    requires f > 0.0 && x * f == y * f
    ensures x == y
  {
    assert (x - y) * f == 0.0;
  }

  lemma FeedforwardTargets(cfg: Config, l: Loop, cmd: Command, epoch: int, dt: real)
    requires FeedforwardOnly(cfg)
    ensures Usable(cfg)
    ensures var t := PlanTargets(cfg, l, cmd, epoch, dt);
            t.speedLeft == cmd.velocity - cmd.twist && t.speedRight == cmd.velocity + cmd.twist
  {
    assert forall v :: Scale(1.0, v) == v;
  }

  // Under it the next cycle puts on each motor its own target's share of full
  // duty, held to the rail.
  lemma FeedforwardReachesItsMotor(p: Plant, readLeft: Reading, readRight: Reading)
    requires Primed(p.k.loop) && CycleMode(p) == Velocity && FeedforwardOnly(TakeRequests(p.k, p.nowUs).active)
    requires p.k.loop.left.bias == 0.0 && p.k.loop.right.bias == 0.0
    ensures var cfg, cmd := TakeRequests(p.k, p.nowUs).active, p.k.front.command;
            var l := After(p, Cycle(readLeft, readRight)).k.loop;
            AtMotor(cfg, cmd.velocity - cmd.twist, l.left.port.duty) &&
              AtMotor(cfg, cmd.velocity + cmd.twist, l.right.port.duty)
  {
    hide After, CycleMode, TakeRequests, VelocityStep, Before, Dt, DriveWheel, PlanTargets, AtMotor;
    var k, now := TakeRequests(p.k, p.nowUs), Millis(p.nowUs);
    var cfg, l, dt, epoch := k.active, Before(p), Dt(p), k.requests.epoch;
    RequestsKeepFront(p.k, p.nowUs);
    BiasAtCycle(p);
    FeedforwardTargets(cfg, l, k.front.command, epoch, dt);
    assert CanStep(p.k, p.nowUs);
    CycleStages(p, readLeft, readRight);
    StaysPrimedAtCycle(p);
    VelocityReachesPorts(cfg, l, k.front.command, epoch, dt, p.nowUs, now);
    var t := PlanTargets(cfg, l, k.front.command, epoch, dt);
    var adapts := t.lambda >= LAMBDA_ADAPT_FLOOR;
    FeedforwardDuty(cfg, cfg.mapLeft, l.left, t.speedLeft, epoch, dt, p.nowUs, now, adapts);
    FeedforwardDuty(cfg, cfg.mapRight, l.right, t.speedRight, epoch, dt, p.nowUs, now, adapts);
  }

  lemma BiasAtCycle(p: Plant)
    requires p.k.loop.left.bias == 0.0 && p.k.loop.right.bias == 0.0
    ensures Before(p).left.bias == 0.0 && Before(p).right.bias == 0.0
  {
  }
}
