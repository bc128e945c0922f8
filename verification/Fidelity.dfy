// "The pipeline is a unit rebake, zero math changes" (golden_ref_drive.h): the
// counts-native kernel, fed the mm-native law's commands, samples and gains
// scaled by s counts per mm, computes the reference's duties cycle for cycle.
module Fidelity {
  import opened Options
  import opened Law
  import opened KernelCycle
  import D = DriveRuns
  import P = Ports
  import R = GoldenRef

  // ---- scaling --------------------------------------------------------------------

  function Times(s: real, x: real): real { s * x }

  lemma Linear(s: real, a: real, b: real)
    ensures Times(s, a + b) == Times(s, a) + Times(s, b)
    ensures Times(s, a - b) == Times(s, a) - Times(s, b)
    ensures Times(s, 0.0) == 0.0
  {
  }

  lemma Negated(s: real, a: real)
    ensures Times(s, -a) == -Times(s, a)
  {
  }

  lemma Ordered(s: real, a: real, b: real)
    requires s > 0.0
    ensures a < b <==> Times(s, a) < Times(s, b)
    ensures a == b <==> Times(s, a) == Times(s, b)
  {
    var gap := b - a;
    assert s * gap == Times(s, b) - Times(s, a);
    if gap > 0.0 { assert s * gap > 0.0; }
    if gap < 0.0 { assert s * (-gap) > 0.0; assert s * gap == -(s * (-gap)); }
  }

  lemma Signs(s: real, a: real)
    requires s > 0.0
    ensures Times(s, a) == 0.0 <==> a == 0.0
    ensures Times(s, a) < 0.0 <==> a < 0.0
    ensures Abs(Times(s, a)) == Times(s, Abs(a))
  {
    hide Times;
    Linear(s, 0.0, 0.0);
    Ordered(s, a, 0.0);
    Negated(s, a);
  }

  lemma Moved(s: real, a: real, k: real)
    ensures Times(s, a) * k == Times(s, a * k)
    ensures k * Times(s, a) == Times(s, k * a)
  {
  }

  lemma Divided(s: real, a: real, k: real)
    requires k != 0.0
    ensures Times(s, a) / k == Times(s, a / k)
  {
    var q := a / k;
    assert q * k == a;
    assert (s * q) * k == s * a;
  }

  lemma Clamped(s: real, v: real, lo: real, hi: real)
    requires s > 0.0
    ensures Clamp(Times(s, v), Times(s, lo), Times(s, hi)) == Times(s, Clamp(v, lo, hi))
  {
    hide Times;
    Ordered(s, v, lo);
    Ordered(s, v, hi);
    Ordered(s, hi, v);
  }

  // A limit that is off below zero, and symmetric above.
  lemma Limited(s: real, v': real, v: real, limit': real, limit: real)
    requires s > 0.0 && v' == Times(s, v) && limit' == Times(s, limit)
    ensures limit' > 0.0 <==> limit > 0.0
    ensures limit > 0.0 ==> Clamp(v', -limit', limit') == Times(s, R.Within(v, limit))
  {
    hide Times, Clamp;
    Linear(s, 0.0, 0.0);
    Ordered(s, 0.0, limit);
    Negated(s, limit);
    Clamped(s, v, -limit, limit);
    if limit > 0.0 { SameLimit(v, limit); }
  }

  // The two laws' arithmetic is written separately and means the same.
  lemma SameLimit(v: real, limit: real)
    requires limit > 0.0
    ensures R.Within(v, limit) == Clamp(v, -limit, limit)
  {
  }

  // Division, given the product.
  lemma Quotient(x: real, q: real, k: real)
    requires k != 0.0 && x == q * k
    ensures x / k == q
  {
  }

  // ---- the two configurations -------------------------------------------------------

  ghost predicate RebakedMap(s: real, k: WheelMap, r: WheelMap) {
    && k.accelGain == r.accelGain && k.decelGain == r.decelGain
    && k.accelIntercept == Times(s, r.accelIntercept) && k.decelIntercept == Times(s, r.decelIntercept)
  }

  ghost predicate RebakedGains(s: real, cfg: Config, g: R.Gains) {
    && cfg.kp == g.kp && cfg.ki == g.ki && cfg.kaff == g.kaff
    && cfg.iMax == Times(s, g.iMax) && cfg.pidMax == Times(s, g.pidMax)
  }

  ghost predicate RebakedBounds(s: real, cfg: Config, b: R.Bounds) {
    && cfg.vMin == Times(s, b.vMin) && cfg.biasMax == Times(s, b.biasMax) && cfg.tauAdapt == b.tauAdapt
    && cfg.aSteady == Times(s, b.aSteady) && cfg.posErrMax == Times(s, b.posErrMax)
  }

  // The kernel's configuration is the reference's, rebaked into counts, with the
  // stages the old law never had switched off.
  ghost predicate Rebaked(s: real, cfg: Config, c: R.RefConfig) {
    && s > 0.0 && Usable(cfg)
    && RebakedGains(s, cfg, c.gains) && RebakedBounds(s, cfg, c.bounds)
    && RebakedMap(s, cfg.mapLeft, c.left.table) && RebakedMap(s, cfg.mapRight, c.right.table)
    && cfg.crawlPulse == c.crawlPulse
    && c.left.dutyPerSpeed > 0.0 && c.right.dutyPerSpeed == c.left.dutyPerSpeed
    && cfg.fullDutyVelocity == s / c.left.dutyPerSpeed && cfg.fullDutyVelocity > 0.0
    && !cfg.lambdaEnabled && cfg.twistHoldGain <= 0.0
  }

  // ---- the stages, scaled -------------------------------------------------------------

  lemma CorrectedScales(s: real, k: WheelMap, r: WheelMap, desired: real, previous: real, bias: real)
    requires s > 0.0 && RebakedMap(s, k, r) && R.Divides(r)
    ensures CorrectedCommand(k, Times(s, desired), Times(s, previous), Times(s, bias))
            == Times(s, R.Corrected(r, desired, previous, bias))
  {
    hide Times;
    Signs(s, desired);
    Signs(s, previous);
    Ordered(s, Abs(previous), Abs(desired));
    var speedingUp := Abs(desired) > Abs(previous);
    var intercept, gain := if speedingUp then r.accelIntercept else r.decelIntercept,
                           if speedingUp then r.accelGain else r.decelGain;
    Linear(s, Abs(desired), intercept);
    Divided(s, Abs(desired) - intercept, gain);
    var magnitude := (Abs(desired) - intercept) / gain;
    Linear(s, magnitude, bias);
    Ordered(s, 0.0, magnitude);
    Ordered(s, 0.0, magnitude + bias);
    Negated(s, magnitude + bias);
    Linear(s, 0.0, 0.0);
  }

  lemma PidScales(s: real, cfg: Config, g: R.Gains, posError: real, err: real, aCmd: real)
    requires s > 0.0 && RebakedGains(s, cfg, g)
    ensures FastPid(cfg, Times(s, posError), Times(s, err), Times(s, aCmd)) == Times(s, R.Pid(g, posError, err, aCmd))
  {
    hide Times, Clamp, Gained, R.Part, R.Within;
    GainScales(s, g.ki, posError);
    GainScales(s, g.kp, err);
    GainScales(s, g.kaff, aCmd);
    Linear(s, 0.0, 0.0);
    var p, f, i := R.Part(g.kp, err), R.Part(g.kaff, aCmd), R.Part(g.ki, posError);
    Limited(s, Times(s, i), i, cfg.iMax, g.iMax);
    var integral := if g.iMax > 0.0 then R.Within(i, g.iMax) else 0.0;
    Linear(s, p, f);
    Linear(s, p + f, integral);
    Limited(s, Times(s, p) + Times(s, f) + Times(s, integral), p + f + integral, cfg.pidMax, g.pidMax);
  }

  lemma GainScales(s: real, gain: real, x: real)
    ensures Gained(gain, Times(s, x)) == Times(s, R.Part(gain, x))
  {
  }

  ghost predicate SameRef(s: real, k: PositionRef, r: PositionRef) {
    k.reference == Times(s, r.reference) && k.origin == Times(s, r.origin) && k.epoch == r.epoch && k.armed == r.armed
  }

  ghost predicate SameSample(s: real, k: WheelSample, r: R.StateWheel) {
    k.position == Times(s, r.position) && k.velocity == Times(s, r.velocity) && k.connected == r.connected
  }

  lemma PositionScales(s: real, cfg: Config, b: R.Bounds, speed: real, k: WheelSample, r: R.StateWheel,
                       kRef: PositionRef, rRef: PositionRef, dt: real)
    requires s > 0.0 && RebakedBounds(s, cfg, b) && SameSample(s, k, r) && SameRef(s, kRef, rRef)
    ensures var (kRef', kErr) := PositionError(cfg, Times(s, speed), k, kRef, r.positionEpoch, dt);
            var (rRef', rErr) := R.Position(b, speed, r, rRef, dt);
            SameRef(s, kRef', rRef') && kErr == Times(s, rErr)
  {
    hide Times, Clamp, R.Within;
    Signs(s, speed);
    Linear(s, 0.0, 0.0);
    Moved(s, speed, dt);
    Linear(s, rRef.reference, speed * dt);
    Linear(s, r.position, rRef.origin);
    var reference := rRef.reference + speed * dt;
    Linear(s, reference, r.position - rRef.origin);
    var error := reference - (r.position - rRef.origin);
    Limited(s, Times(s, error), error, cfg.posErrMax, b.posErrMax);
  }

  lemma BiasScales(s: real, cfg: Config, b: R.Bounds, bias: real, err: real, aCmd: real, speed: real, isFresh: bool,
                   dt: real)
    requires s > 0.0 && RebakedBounds(s, cfg, b)
    ensures AdaptBias(cfg, Times(s, bias), Times(s, err), Times(s, aCmd), Abs(Times(s, speed)), isFresh, dt)
            == Times(s, R.Adapted(b, bias, err, aCmd, Abs(speed), isFresh, dt))
  {
    hide Times, Clamp, R.Within;
    Signs(s, aCmd);
    Signs(s, speed);
    Ordered(s, Abs(aCmd), b.aSteady);
    Ordered(s, Abs(speed), b.vMin);
    Moved(s, err, dt);
    if b.tauAdapt > 0.0 {
      Divided(s, err * dt, b.tauAdapt);
      Linear(s, bias, err * dt / b.tauAdapt);
      var moved := bias + err * dt / b.tauAdapt;
      Limited(s, Times(s, moved), moved, cfg.biasMax, b.biasMax);
    }
    Linear(s, 0.0, 0.0);
  }

  lemma AccelScales(s: real, cmdAccel: real, speed: real, previous: real, dt: real)
    ensures SmoothAccel(Times(s, cmdAccel), Times(s, speed), Times(s, previous), dt)
            == Times(s, SmoothAccel(cmdAccel, speed, previous, dt))
  {
    if dt > 0.0 {
      var raw := (speed - previous) / dt;
      assert raw * dt == speed - previous;
      assert Times(s, speed) - Times(s, previous) == s * (raw * dt);
      Quotient(Times(s, speed) - Times(s, previous), s * raw, dt);
    }
  }

  lemma DemandScales(s: real, cfg: Config, cal: R.Calibration, corrected: real, pid: real)
    requires s > 0.0 && cal.dutyPerSpeed > 0.0 && cfg.fullDutyVelocity == s / cal.dutyPerSpeed &&
             cfg.fullDutyVelocity > 0.0
    ensures Demand(cfg, Times(s, corrected), Times(s, pid)) == R.Asked(cal, corrected, pid)
  {
    var dutyPerSpeed := cal.dutyPerSpeed;
    var full, inverse := cfg.fullDutyVelocity, 1.0 / cfg.fullDutyVelocity;
    assert full * dutyPerSpeed == s;
    assert inverse * full == 1.0;
    assert s * inverse == dutyPerSpeed by { assert s * inverse == (inverse * full) * dutyPerSpeed; }
    assert Times(s, corrected) + Times(s, pid) == s * (corrected + pid);
    assert (s * (corrected + pid)) * inverse == (s * inverse) * (corrected + pid);
  }

  // ---- one wheel -----------------------------------------------------------------------

  ghost predicate SameWheel(s: real, k: Wheel, r: R.RefWheel) {
    && k.bias == Times(s, r.bias) && k.lastSpeed == Times(s, r.lastSpeed)
    && k.previousTarget == Times(s, r.previousTarget) && k.cmdAccel == Times(s, r.cmdAccel)
    && SameRef(s, k.posRef, r.posRef) && k.crawlCarry == r.crawlCarry
  }

  function KernelFresh(w: Wheel, nowUs: nat): bool {
    w.sample.connected && !w.port.reading.wedgeSuspect && 0 <= nowUs - w.sample.sampleTime <= MAX_SAMPLE_AGE
  }

  // What the reference asks of one wheel at a speed and commanded acceleration,
  // before the crawl stage.
  function DemandAt(c: R.RefConfig, cal: R.Calibration, w: R.RefWheel, seen: R.StateWheel, speed: real, aCmd: real,
                    dt: real): real
    requires R.Divides(cal.table)
  {
    var posError := R.Position(c.bounds, speed, seen, w.posRef, dt).1;
    R.Asked(cal, R.Corrected(cal.table, speed, w.lastSpeed, w.bias),
            if speed == 0.0 then 0.0 else R.Pid(c.gains, posError, speed - seen.velocity, aCmd))
  }

  function RefDemand(c: R.RefConfig, cal: R.Calibration, w: R.RefWheel, seen: R.StateWheel, speed: real, dt: real): real
    requires R.Divides(cal.table)
  {
    DemandAt(c, cal, w, seen, speed, seen.cmdAccel, dt)
  }

  ghost predicate SameSide(s: real, cfg: Config, c: R.RefConfig, map_: WheelMap, cal: R.Calibration) {
    && s > 0.0 && RebakedGains(s, cfg, c.gains) && RebakedBounds(s, cfg, c.bounds) && RebakedMap(s, map_, cal.table)
    && cfg.crawlPulse == c.crawlPulse && R.Divides(cal.table)
    && cal.dutyPerSpeed > 0.0 && cfg.fullDutyVelocity == s / cal.dutyPerSpeed && cfg.fullDutyVelocity > 0.0
    && cfg.maxDuty >= 0.0
  }

  // The kernel's wheel at any speed: its acceleration and its demand are those
  // the reference's stages give for the speed the kernel runs at.
  lemma KernelDemand(s: real, cfg: Config, c: R.RefConfig, map_: WheelMap, cal: R.Calibration,
                     k: Wheel, w: R.RefWheel, seen: R.StateWheel, speed: real,
                     nowUs: nat, now: uint32, dt: real)
    requires SameSide(s, cfg, c, map_, cal)
    requires SameWheel(s, k, w) && SameSample(s, k.sample, seen)
    ensures var k' := DriveWheel(cfg, map_, k, Times(s, speed), seen.positionEpoch, dt, nowUs, now, true).0;
            var aCmd := SmoothAccel(w.cmdAccel, speed, w.previousTarget, dt);
            k'.cmdAccel == Times(s, aCmd) && k'.demand == DemandAt(c, cal, w, seen, speed, aCmd, dt)
  {
    hide Times, CorrectedCommand, SmoothAccel, PositionError, FastPid, AdaptBias, UpdateLatch, Demand, CrawlDuty,
         R.Corrected, R.Position, R.Pid, R.Asked, Clamp, SameRef;
    AccelScales(s, w.cmdAccel, speed, w.previousTarget, dt);
    var aCmd := SmoothAccel(w.cmdAccel, speed, w.previousTarget, dt);
    CorrectedScales(s, map_, cal.table, speed, w.lastSpeed, w.bias);
    Linear(s, speed, seen.velocity);
    Signs(s, speed);
    PositionScales(s, cfg, c.bounds, speed, k.sample, seen, k.posRef, w.posRef, dt);
    var posError := R.Position(c.bounds, speed, seen, w.posRef, dt).1;
    PidScales(s, cfg, c.gains, posError, speed - seen.velocity, aCmd);
    DemandScales(s, cfg, cal, R.Corrected(cal.table, speed, w.lastSpeed, w.bias),
                 if speed == 0.0 then 0.0 else R.Pid(c.gains, posError, speed - seen.velocity, aCmd));
    Linear(s, 0.0, 0.0);
  }

  // One wheel, one cycle: the demand is the same number, and within the rail so
  // is everything that follows from it. `r` has been through update() already.
  lemma WheelFaithful(s: real, cfg: Config, c: R.RefConfig, map_: WheelMap, cal: R.Calibration,
                      k: Wheel, w: R.RefWheel, r: R.RefWheel, seen: R.StateWheel,
                      nowUs: nat, now: uint32, cycleStart: uint32, dt: real)
    requires SameSide(s, cfg, c, map_, cal)
    requires SameWheel(s, k, w) && SameSample(s, k.sample, seen)
    requires r == R.Accelerate(w.(target := r.target), dt)
    requires seen.cmdAccel == r.cmdAccel && seen.cmdVelocity == r.target
    requires KernelFresh(k, nowUs) == R.IsFresh(seen, cycleStart)
    ensures var (k', kDuty) := DriveWheel(cfg, map_, k, Times(s, r.target), seen.positionEpoch, dt, nowUs, now, true);
            var (r', rDuty) := R.TickWheel(c, cal, r, seen, r.target, cycleStart, dt);
            && k'.demand == RefDemand(c, cal, r, seen, r.target, dt)
            && (Abs(k'.demand) <= cfg.maxDuty * 0.01 ==> kDuty == rDuty && SameWheel(s, k', r'))
  {
    hide Times, CorrectedCommand, SmoothAccel, PositionError, FastPid, AdaptBias, UpdateLatch, Demand, CrawlDuty,
         R.Corrected, R.Position, R.Pid, R.Adapted, R.Crawl, R.Asked, R.IsFresh, Clamp, SameRef;
    var speed := r.target;
    AccelScales(s, w.cmdAccel, speed, w.previousTarget, dt);
    AccelerateIsSmooth(w.(target := speed), dt);
    var corrected := R.Corrected(cal.table, speed, w.lastSpeed, w.bias);
    CorrectedScales(s, map_, cal.table, speed, w.lastSpeed, w.bias);
    var err := speed - seen.velocity;
    Linear(s, speed, seen.velocity);
    Signs(s, speed);
    PositionScales(s, cfg, c.bounds, speed, k.sample, seen, k.posRef, w.posRef, dt);
    var posError := R.Position(c.bounds, speed, seen, w.posRef, dt).1;
    var pid := if speed == 0.0 then 0.0 else R.Pid(c.gains, posError, err, seen.cmdAccel);
    PidScales(s, cfg, c.gains, posError, err, seen.cmdAccel);
    DemandScales(s, cfg, cal, corrected, pid);
    Linear(s, 0.0, 0.0);
    var demand := R.Asked(cal, corrected, pid);
    CrawlAgrees(cfg.crawlPulse, cfg.maxDuty * 0.01, demand, w.crawlCarry);
    BiasScales(s, cfg, c.bounds, w.bias, err, seen.cmdAccel, speed, KernelFresh(k, nowUs), dt);
  }

  lemma AccelerateIsSmooth(w: R.RefWheel, dt: real)
    ensures R.Accelerate(w, dt) ==
            w.(cmdAccel := SmoothAccel(w.cmdAccel, w.target, w.previousTarget, dt), previousTarget := w.target)
  {
  }

  lemma CrawlAgrees(pulse: real, rail: real, demand: real, carry: real)
    requires rail >= 0.0
    ensures Abs(demand) <= rail ==> CrawlDuty(pulse, Clamp(demand, -rail, rail), carry) == R.Crawl(pulse, demand, carry)
  {
  }

  // ---- whole traces ----------------------------------------------------------------------

  // What both laws are shown of one wheel; each clock stamps it in its own unit.
  datatype Side = Side(position: real, velocity: real, connected: bool, frozen: bool, stampUs: nat, stampMs: uint32)

  datatype Order = Order(vLeft: real, vRight: real, duration: uint32, moveId: uint32)

  // One cycle's input: perhaps a new command, and both wheels' samples.
  datatype Input = Input(order: Option<Order>, left: Side, right: Side, epoch: int,
                         nowUs: nat, nowMs: uint32, period: uint32)

  datatype Duties = Duties(left: real, right: real)

  function Dt(i: Input): real { i.period as real / 1000000.0 }

  // -- the kernel, in counts

  datatype Counts = Counts(loop: Loop, cmd: Command)

  function Mailed(s: real, cmd: Command, order: Option<Order>): Command {
    match order
    case None => cmd
    case Some(o) =>
      var left, right := Times(s, o.vLeft), Times(s, o.vRight);
      cmd.(mode := Velocity, velocity := (left + right) * 0.5, twist := (right - left) * 0.5)
  }

  function Fed(s: real, w: Wheel, side: Side): Wheel {
    w.(sample := WheelSample(Times(s, side.position), Times(s, side.velocity), side.stampUs, side.connected, true),
       port := w.port.(reading := w.port.reading.(velocity := Times(s, side.velocity), wedgeSuspect := side.frozen)))
  }

  function Shown(s: real, l: Loop, i: Input): Loop {
    l.(left := Fed(s, l.left, i.left), right := Fed(s, l.right, i.right))
  }

  // The two duties the velocity step hands to the write gate.
  function KernelDuties(cfg: Config, l: Loop, cmd: Command, i: Input): Duties
    requires Usable(cfg) && cfg.fullDutyVelocity > 0.0
  {
    var t := PlanTargets(cfg, l, cmd, i.epoch, Dt(i));
    var adaptAllowed := t.lambda >= LAMBDA_ADAPT_FLOOR;
    Duties(DriveWheel(cfg, cfg.mapLeft, l.left, t.speedLeft, i.epoch, Dt(i), i.nowUs, i.nowMs, adaptAllowed).1,
           DriveWheel(cfg, cfg.mapRight, l.right, t.speedRight, i.epoch, Dt(i), i.nowUs, i.nowMs, adaptAllowed).1)
  }

  function KernelTurn(s: real, cfg: Config, k: Counts, i: Input): (Counts, Duties)
    requires Usable(cfg) && cfg.fullDutyVelocity > 0.0
  {
    var cmd, l := Mailed(s, k.cmd, i.order), Shown(s, k.loop, i);
    (Counts(VelocityStep(cfg, l, cmd, i.epoch, Dt(i), i.nowUs, i.nowMs), cmd), KernelDuties(cfg, l, cmd, i))
  }

  // -- the reference, in millimetres

  function Told(d: R.RefDrive, i: Input): R.RefDrive {
    match i.order
    case None => d
    case Some(o) => R.CommandSpec(d, o.vLeft, o.vRight, o.duration, o.moveId, i.nowMs)
  }

  function Seen(side: Side, epoch: int): R.StateWheel {
    R.StateWheel(side.position, side.velocity, side.connected, side.stampMs, epoch, side.frozen, 0.0, 0.0)
  }

  function State(i: Input): R.RobotState {
    R.RobotState(Seen(i.left, i.epoch), Seen(i.right, i.epoch), i.nowMs, i.period)
  }

  function RefTurn(c: R.RefConfig, d: R.RefDrive, i: Input): (R.RefDrive, Duties)
    requires R.Sound(c)
  {
    var (updated, st) := R.UpdateSpec(Told(d, i), State(i), i.nowMs);
    var (ticked, dutyLeft, dutyRight) := R.TickBoth(c, updated, st);
    (R.WriteGate(ticked, dutyLeft, dutyRight, i.left.velocity, i.right.velocity), Duties(dutyLeft, dutyRight))
  }

  // -- both

  ghost predicate Same(s: real, k: Counts, d: R.RefDrive) {
    && SameWheel(s, k.loop.left, d.left) && SameWheel(s, k.loop.right, d.right)
    && (d.own.active ==>
          k.cmd.velocity - k.cmd.twist == Times(s, d.left.target) &&
            k.cmd.velocity + k.cmd.twist == Times(s, d.right.target))
  }

  ghost predicate FloorIdle(b: R.Bounds, left: real, right: real) {
    b.vMin <= 0.0 || Max(Abs(left), Abs(right)) <= 0.0 || Max(Abs(left), Abs(right)) >= b.vMin
  }

  // The cycle is inside the region where the two laws are meant to agree: the
  // command is live, the floor idle, the freshness flags equal.
  ghost predicate Comparable(s: real, c: R.RefConfig, k: Counts, d: R.RefDrive, i: Input) {
    var told := Told(d, i);
    && told.own.active && !R.Expired(told.own, i.nowMs)
    && FloorIdle(c.bounds, told.left.target, told.right.target)
    && KernelFresh(Fed(s, k.loop.left, i.left), i.nowUs) == R.IsFresh(Seen(i.left, i.epoch), i.nowMs)
    && KernelFresh(Fed(s, k.loop.right, i.right), i.nowUs) == R.IsFresh(Seen(i.right, i.epoch), i.nowMs)
  }

  ghost predicate InsideRail(cfg: Config, l: Loop) {
    Abs(l.left.demand) <= cfg.maxDuty * 0.01 && Abs(l.right.demand) <= cfg.maxDuty * 0.01
  }

  // Every cycle of the trace is comparable, and asks for no more than the rail.
  ghost predicate Fair(s: real, cfg: Config, c: R.RefConfig, k: Counts, d: R.RefDrive, trace: seq<Input>)
    requires Usable(cfg) && cfg.fullDutyVelocity > 0.0 && R.Sound(c)
    decreases |trace|
  {
    trace == [] ||
    (var next := KernelTurn(s, cfg, k, trace[0]).0;
     Comparable(s, c, k, d, trace[0]) && InsideRail(cfg, next.loop) &&
     Fair(s, cfg, c, next, RefTurn(c, d, trace[0]).0, trace[1..]))
  }

  function KernelTrace(s: real, cfg: Config, k: Counts, trace: seq<Input>): seq<Duties>
    requires Usable(cfg) && cfg.fullDutyVelocity > 0.0
    decreases |trace|
  {
    if trace == [] then []
    else
      var (next, duties) := KernelTurn(s, cfg, k, trace[0]);
      [duties] + KernelTrace(s, cfg, next, trace[1..])
  }

  function RefTrace(c: R.RefConfig, d: R.RefDrive, trace: seq<Input>): seq<Duties>
    requires R.Sound(c)
    decreases |trace|
  {
    if trace == [] then []
    else
      var (next, duties) := RefTurn(c, d, trace[0]);
      [duties] + RefTrace(c, next, trace[1..])
  }

  lemma TargetsMatch(s: real, k: Counts, d: R.RefDrive, i: Input)
    requires Same(s, k, d) && Told(d, i).own.active
    ensures var cmd, told := Mailed(s, k.cmd, i.order), Told(d, i);
            && cmd.velocity - cmd.twist == Times(s, told.left.target)
            && cmd.velocity + cmd.twist == Times(s, told.right.target)
  {
    hide Times;
  }

  // With lambda and twist hold off and the floor idle, the plan is the command.
  lemma PlanIsCommand(s: real, cfg: Config, b: R.Bounds, l: Loop, cmd: Command, left: real, right: real, epoch: int,
                      dt: real)
    requires s > 0.0 && Usable(cfg) && !cfg.lambdaEnabled && cfg.twistHoldGain <= 0.0
    requires cfg.vMin == Times(s, b.vMin) && FloorIdle(b, left, right)
    requires cmd.velocity - cmd.twist == Times(s, left) && cmd.velocity + cmd.twist == Times(s, right)
    ensures var t := PlanTargets(cfg, l, cmd, epoch, dt);
            t.lambda == 1.0 && t.speedLeft == Times(s, left) && t.speedRight == Times(s, right)
  {
    hide Times;
    Signs(s, left);
    Signs(s, right);
    Signs(s, b.vMin);
    Ordered(s, Abs(left), b.vMin);
    Ordered(s, Abs(right), b.vMin);
    Ordered(s, Abs(left), Abs(right));
    assert Scale(1.0, Times(s, left)) == Times(s, left) && Scale(1.0, Times(s, right)) == Times(s, right);
  }

  lemma GateKeepsWheel(s: real, k: Loop, dutyLeft: real, dutyRight: real, d: R.RefDrive, motorLeft: real,
                       motorRight: real)
    requires SameWheel(s, k.left, d.left) && SameWheel(s, k.right, d.right)
    ensures var k', d' := StageDuty(k, dutyLeft, dutyRight), R.WriteGate(d, dutyLeft, dutyRight, motorLeft, motorRight);
            && SameWheel(s, k'.left, d'.left) && SameWheel(s, k'.right, d'.right)
            && k'.left.demand == k.left.demand && k'.right.demand == k.right.demand
            && d'.own == d.own && d'.left.target == d.left.target && d'.right.target == d.right.target
  {
    hide Times, Abs;
  }

  // The reference wheel after command and update(), and what tick() then sees.
  lemma UpdatedSide(c: R.RefConfig, d: R.RefDrive, i: Input)
    requires Told(d, i).own.active && !R.Expired(Told(d, i).own, i.nowMs)
    ensures var told := Told(d, i);
            var (u, st) := R.UpdateSpec(told, State(i), i.nowMs);
            && u.own == told.own
            && u.left == R.Accelerate(told.left, Dt(i)) && u.right == R.Accelerate(told.right, Dt(i))
            && u.left.target == told.left.target && u.right.target == told.right.target
            && told.left == d.left.(target := told.left.target) && told.right == d.right.(target := told.right.target)
            && st == State(i).(left := R.Commanded(State(i).left, u.left),
                               right := R.Commanded(State(i).right, u.right))
  {
  }

  lemma TurnFaithful(s: real, cfg: Config, c: R.RefConfig, k: Counts, d: R.RefDrive, i: Input)
    requires Rebaked(s, cfg, c) && R.Sound(c) && Same(s, k, d)
    requires Comparable(s, c, k, d, i) && InsideRail(cfg, KernelTurn(s, cfg, k, i).0.loop)
    ensures KernelTurn(s, cfg, k, i).1 == RefTurn(c, d, i).1
    ensures Same(s, KernelTurn(s, cfg, k, i).0, RefTurn(c, d, i).0)
  {
    hide Times, DriveWheel, R.TickWheel, PlanTargets, UpdateLatch, Stalling, StageDuty, R.WriteGate, R.Accelerate,
         RefDemand, R.IsFresh, SameRef, Max, Abs, R.UpdateSpec, RebakedMap, RebakedGains, RebakedBounds, FloorIdle;
    var told := Told(d, i);
    var cmd, l := Mailed(s, k.cmd, i.order), Shown(s, k.loop, i);
    var (u, st) := R.UpdateSpec(told, State(i), i.nowMs);
    UpdatedSide(c, d, i);
    TargetsMatch(s, k, d, i);
    assert cfg.vMin == Times(s, c.bounds.vMin) by { BoundsHaveFloor(s, cfg, c.bounds); }
    PlanIsCommand(s, cfg, c.bounds, l, cmd, told.left.target, told.right.target, i.epoch, Dt(i));
    IdleFloorPasses(c.bounds, told.left.target, told.right.target);
    FreshIgnoresCommand(State(i).left, u.left, i.nowMs);
    FreshIgnoresCommand(State(i).right, u.right, i.nowMs);
    WheelFaithful(s, cfg, c, cfg.mapLeft, c.left, l.left, d.left, u.left, st.left, i.nowUs, i.nowMs, i.nowMs, Dt(i));
    WheelFaithful(s, cfg, c, cfg.mapRight, c.right, l.right, d.right, u.right, st.right, i.nowUs, i.nowMs, i.nowMs,
                  Dt(i));
    var (ticked, dutyLeft, dutyRight) := R.TickBoth(c, u, st);
    TickKeepsTarget(c, c.left, u.left, st.left, told.left.target, i.nowMs, Dt(i));
    TickKeepsTarget(c, c.right, u.right, st.right, told.right.target, i.nowMs, Dt(i));
    var (left, kLeft) :=
      DriveWheel(cfg, cfg.mapLeft, l.left, Times(s, told.left.target), i.epoch, Dt(i), i.nowUs, i.nowMs, true);
    var (right, kRight) :=
      DriveWheel(cfg, cfg.mapRight, l.right, Times(s, told.right.target), i.epoch, Dt(i), i.nowUs, i.nowMs, true);
    var (since, latched) :=
      UpdateLatch(Stalling(cfg, cmd, l.left.sample, l.right.sample), cfg.stallWindow, i.nowMs, l.stallSince);
    var t := PlanTargets(cfg, l, cmd, i.epoch, Dt(i));
    var staged :=
      Loop(left, right, t.twistRef, t.lambda, l.stallHalted || latched, since, latched, l.stopEnforceCountdown);
    assert KernelTurn(s, cfg, k, i).0.loop == StageDuty(staged, kLeft, kRight);
    DemandSurvivesGate(staged, kLeft, kRight);
    GateKeepsWheel(s, staged, kLeft, kRight, ticked, i.left.velocity, i.right.velocity);
  }

  lemma TickKeepsTarget(c: R.RefConfig, cal: R.Calibration, w: R.RefWheel, seen: R.StateWheel, speed: real,
                        cycleStart: uint32, dt: real)
    requires R.Divides(cal.table)
    ensures R.TickWheel(c, cal, w, seen, speed, cycleStart, dt).0.target == w.target
  {
    hide R.Corrected, R.Position, R.Pid, R.Adapted, R.Crawl, R.Asked, R.IsFresh, Abs;
  }

  lemma BoundsHaveFloor(s: real, cfg: Config, b: R.Bounds)
    requires RebakedBounds(s, cfg, b)
    ensures cfg.vMin == Times(s, b.vMin)
  {
  }

  lemma IdleFloorPasses(b: R.Bounds, left: real, right: real)
    requires FloorIdle(b, left, right)
    ensures R.Floored(b, true, left, right) == (left, right)
  {
  }

  lemma FreshIgnoresCommand(seen: R.StateWheel, w: R.RefWheel, cycleStart: uint32)
    ensures R.IsFresh(R.Commanded(seen, w), cycleStart) == R.IsFresh(seen, cycleStart)
  {
  }

  lemma DemandSurvivesGate(l: Loop, dutyLeft: real, dutyRight: real)
    ensures var m := StageDuty(l, dutyLeft, dutyRight);
            m.left.demand == l.left.demand && m.right.demand == l.right.demand
  {
  }

  // The theorem: over any fair trace the two laws compute the same duties.
  lemma {:induction false} UnitRebake(s: real, cfg: Config, c: R.RefConfig, k: Counts, d: R.RefDrive, trace: seq<Input>)
    requires Rebaked(s, cfg, c) && R.Sound(c) && Same(s, k, d)
    requires Fair(s, cfg, c, k, d, trace)
    ensures KernelTrace(s, cfg, k, trace) == RefTrace(c, d, trace)
    decreases |trace|
  {
    hide KernelTurn, RefTurn, Comparable, InsideRail, Same;
    if trace != [] {
      TurnFaithful(s, cfg, c, k, d, trace[0]);
      UnitRebake(s, cfg, c, KernelTurn(s, cfg, k, trace[0]).0, RefTurn(c, d, trace[0]).0, trace[1..]);
    }
  }

  // -- and at the motors

  // What the two ports hold after each cycle, and what the reference last wrote.
  function PortTrace(s: real, cfg: Config, k: Counts, trace: seq<Input>): seq<Duties>
    requires Usable(cfg) && cfg.fullDutyVelocity > 0.0
    decreases |trace|
  {
    if trace == [] then []
    else
      var next := KernelTurn(s, cfg, k, trace[0]).0;
      [Duties(next.loop.left.port.duty, next.loop.right.port.duty)] + PortTrace(s, cfg, next, trace[1..])
  }

  function WrittenTrace(c: R.RefConfig, d: R.RefDrive, trace: seq<Input>): seq<Duties>
    requires R.Sound(c)
    decreases |trace|
  {
    if trace == [] then []
    else
      var next := RefTurn(c, d, trace[0]).0;
      [Duties(next.left.written, next.right.written)] + WrittenTrace(c, next, trace[1..])
  }

  lemma TurnReachesPorts(s: real, cfg: Config, k: Counts, i: Input)
    requires Usable(cfg) && cfg.fullDutyVelocity > 0.0 && D.Primed(k.loop)
    ensures var (next, duties) := KernelTurn(s, cfg, k, i);
            P.OnPorts(next.loop, duties.left, duties.right) && D.Primed(next.loop)
  {
    hide VelocityStep, DriveWheel, PlanTargets, WheelsMoving;
    var cmd, l := Mailed(s, k.cmd, i.order), Shown(s, k.loop, i);
    P.VelocityReachesPorts(cfg, l, cmd, i.epoch, Dt(i), i.nowUs, i.nowMs);
  }

  lemma RefWritesDuties(c: R.RefConfig, d: R.RefDrive, i: Input)
    requires R.Sound(c)
    ensures var (next, duties) := RefTurn(c, d, i);
            next.left.written == duties.left && next.right.written == duties.right
  {
    hide R.TickBoth, R.UpdateSpec, R.Size;
  }

  lemma {:induction false} KernelReachesPorts(s: real, cfg: Config, k: Counts, trace: seq<Input>)
    requires Usable(cfg) && cfg.fullDutyVelocity > 0.0 && D.Primed(k.loop)
    ensures PortTrace(s, cfg, k, trace) == KernelTrace(s, cfg, k, trace)
    decreases |trace|
  {
    hide KernelTurn, D.Primed;
    if trace != [] {
      TurnReachesPorts(s, cfg, k, trace[0]);
      KernelReachesPorts(s, cfg, KernelTurn(s, cfg, k, trace[0]).0, trace[1..]);
    }
  }

  lemma {:induction false} RefReachesWritten(c: R.RefConfig, d: R.RefDrive, trace: seq<Input>)
    requires R.Sound(c)
    ensures WrittenTrace(c, d, trace) == RefTrace(c, d, trace)
    decreases |trace|
  {
    hide RefTurn;
    if trace != [] {
      RefWritesDuties(c, d, trace[0]);
      RefReachesWritten(c, RefTurn(c, d, trace[0]).0, trace[1..]);
    }
  }

  // So over any fair trace each motor is left with the very duty the reference
  // writes to it, cycle for cycle: left with left, right with right.
  lemma UnitRebakeAtTheMotors(s: real, cfg: Config, c: R.RefConfig, k: Counts, d: R.RefDrive, trace: seq<Input>)
    requires Rebaked(s, cfg, c) && R.Sound(c) && Same(s, k, d) && D.Primed(k.loop)
    requires Fair(s, cfg, c, k, d, trace)
    ensures PortTrace(s, cfg, k, trace) == WrittenTrace(c, d, trace)
  {
    hide KernelTrace, RefTrace, PortTrace, WrittenTrace, Fair, Same, D.Primed;
    UnitRebake(s, cfg, c, k, d, trace);
    KernelReachesPorts(s, cfg, k, trace);
    RefReachesWritten(c, d, trace);
  }

  // Both laws start alike.
  lemma BootIsSame(s: real, left: Port, right: Port, cmd: Command)
    ensures Same(s, Counts(FreshKernel(left, right).loop, cmd), R.FRESH_DRIVE)
  {
  }

  // ---- the rail is exactly where they part -------------------------------------------------

  // The reference has no rail. From corresponding wheels, and with a crawl pulse
  // no longer than the rail, the duties agree if and only if the demand is inside.
  lemma RailDecides(s: real, cfg: Config, c: R.RefConfig, map_: WheelMap, cal: R.Calibration,
                    k: Wheel, w: R.RefWheel, r: R.RefWheel, seen: R.StateWheel,
                    nowUs: nat, now: uint32, cycleStart: uint32, dt: real)
    requires SameSide(s, cfg, c, map_, cal) && 0.0 <= cfg.crawlPulse <= cfg.maxDuty * 0.01
    requires SameWheel(s, k, w) && SameSample(s, k.sample, seen)
    requires r == R.Accelerate(w.(target := r.target), dt)
    requires seen.cmdAccel == r.cmdAccel && seen.cmdVelocity == r.target
    requires KernelFresh(k, nowUs) == R.IsFresh(seen, cycleStart)
    ensures var (k', kDuty) := DriveWheel(cfg, map_, k, Times(s, r.target), seen.positionEpoch, dt, nowUs, now, true);
            kDuty == R.TickWheel(c, cal, r, seen, r.target, cycleStart, dt).1 <==> Abs(k'.demand) <= cfg.maxDuty * 0.01
  {
    hide Times, CorrectedCommand, SmoothAccel, PositionError, FastPid, AdaptBias, UpdateLatch, Demand, CrawlDuty,
         R.Corrected, R.Position, R.Pid, R.Adapted, R.Crawl, R.Asked, R.IsFresh, Clamp, SameRef, Abs, R.Accelerate,
         SameWheel, SameSample, RebakedMap, RebakedGains, RebakedBounds;
    WheelFaithful(s, cfg, c, map_, cal, k, w, r, seen, nowUs, now, cycleStart, dt);
    assert cfg.crawlPulse == c.crawlPulse && k.crawlCarry == r.crawlCarry by {
      SharedCarry(s, cfg, c, map_, cal, k, w, r, dt);
    }
    CrawlParts(cfg.crawlPulse, cfg.maxDuty * 0.01, RefDemand(c, cal, r, seen, r.target, dt), k.crawlCarry);
  }

  lemma SharedCarry(s: real, cfg: Config, c: R.RefConfig, map_: WheelMap, cal: R.Calibration,
                    k: Wheel, w: R.RefWheel, r: R.RefWheel, dt: real)
    requires SameSide(s, cfg, c, map_, cal) && SameWheel(s, k, w) && r == R.Accelerate(w.(target := r.target), dt)
    ensures cfg.crawlPulse == c.crawlPulse && k.crawlCarry == r.crawlCarry
  {
  }

  lemma CrawlParts(pulse: real, rail: real, demand: real, carry: real)
    requires 0.0 <= pulse <= rail
    ensures CrawlDuty(pulse, Clamp(demand, -rail, rail), carry).1 == R.Crawl(pulse, demand, carry).1 <==>
            Abs(demand) <= rail
  {
  }

  // ---- and so is the speed floor ------------------------------------------------------------

  // Both laws boost a target alike, and neither wheel is favoured.
  lemma FloorScales(s: real, cfg: Config, b: R.Bounds, target: real, other: real)
    requires s > 0.0 && cfg.vMin == Times(s, b.vMin)
    ensures ApplySpeedFloor(cfg.vMin, Times(s, target), Times(s, other)).0 ==
            Times(s, R.Floored(b, true, target, other).0)
    ensures ApplySpeedFloor(cfg.vMin, Times(s, other), Times(s, target)).1 ==
            Times(s, R.Floored(b, true, other, target).1)
    ensures R.Floored(b, true, other, target).1 == R.Floored(b, true, target, other).0
  {
    hide Times, R.Floored, Boosted;
    Signs(s, target);
    Signs(s, other);
    Signs(s, b.vMin);
    Ordered(s, Abs(target), Abs(other));
    var dominant := Max(Abs(target), Abs(other));
    FlooredIs(b, target, other);
    FlooredIs(b, other, target);
    Signs(s, dominant);
    Ordered(s, 0.0, dominant);
    Ordered(s, dominant, b.vMin);
    Linear(s, 0.0, 0.0);
    assert Max(Abs(other), Abs(target)) == dominant;
    assert Max(Abs(Times(s, target)), Abs(Times(s, other))) == Times(s, dominant);
    assert Max(Abs(Times(s, other)), Abs(Times(s, target))) == Times(s, dominant);
    if dominant > 0.0 { BoostScales(s, b.vMin, dominant, target); }
  }

  lemma FlooredIs(b: R.Bounds, target: real, other: real)
    ensures R.Floored(b, true, target, other) == ApplySpeedFloor(b.vMin, target, other)
  {
    hide Boosted, R.Lifted;
    var dominant := Max(Abs(target), Abs(other));
    if dominant > 0.0 {
      LiftedIs(b.vMin, dominant, target);
      LiftedIs(b.vMin, dominant, other);
    }
  }

  lemma LiftedIs(vMin: real, dominant: real, raw: real)
    requires dominant > 0.0
    ensures R.Lifted(raw, vMin, dominant) == Boosted(vMin, dominant, raw)
  {
    var share := vMin / dominant;
    BoostedBy(vMin, dominant, raw, share);
    LiftedBy(vMin, dominant, raw, share);
  }

  lemma LiftedBy(vMin: real, dominant: real, raw: real, share: real)
    requires dominant > 0.0 && vMin / dominant == share
    ensures R.Lifted(raw, vMin, dominant) == raw * share
  {
  }

  lemma BoostScales(s: real, vMin: real, dominant: real, raw: real)
    requires s > 0.0 && dominant > 0.0
    ensures Times(s, dominant) > 0.0
    ensures Boosted(Times(s, vMin), Times(s, dominant), Times(s, raw)) == Times(s, Boosted(vMin, dominant, raw))
  {
    hide Times, Boosted;
    Ordered(s, 0.0, dominant);
    Linear(s, 0.0, 0.0);
    SameShare(s, vMin, dominant);
    var share := vMin / dominant;
    BoostedBy(Times(s, vMin), Times(s, dominant), Times(s, raw), share);
    BoostedBy(vMin, dominant, raw, share);
    Moved(s, raw, share);
  }

  lemma SameShare(s: real, vMin: real, dominant: real)
    requires dominant > 0.0 && Times(s, dominant) > 0.0
    ensures Times(s, vMin) / Times(s, dominant) == vMin / dominant
  {
    hide Times;
    var share := vMin / dominant;
    assert share * dominant == vMin;
    Moved(s, dominant, share);
    Quotient(Times(s, vMin), share, Times(s, dominant));
  }

  lemma BoostedBy(vMin: real, dominant: real, raw: real, share: real)
    requires dominant > 0.0 && vMin / dominant == share
    ensures Boosted(vMin, dominant, raw) == raw * share
  {
  }

  // The floor leaves a target alone exactly when it is idle or the target is zero.
  lemma FloorKeepsIff(b: R.Bounds, target: real, other: real)
    ensures R.Floored(b, true, target, other).0 == target <==> FloorIdle(b, target, other) || target == 0.0
    ensures R.Floored(b, true, target, other).0 == 0.0 <==> target == 0.0
  {
    if !FloorIdle(b, target, other) {
      var dominant := Max(Abs(target), Abs(other));
      var share := b.vMin / dominant;
      assert share * dominant == b.vMin;
      ShareExceedsOne(share, dominant, b.vMin);
      ProductIsIff(target, share);
    }
  }

  lemma ShareExceedsOne(share: real, dominant: real, vMin: real)
    requires 0.0 < dominant < vMin && share * dominant == vMin
    ensures share > 1.0
  {
    Ordered(dominant, 1.0, share);
  }

  lemma ProductIsIff(x: real, share: real)
    requires share > 1.0
    ensures x * share == x <==> x == 0.0
    ensures x * share == 0.0 <==> x == 0.0
  {
    assert x * share - x == x * (share - 1.0);
  }

  lemma SmoothIsIff(cmdAccel: real, a: real, b: real, previous: real, dt: real)
    requires dt > 0.0
    ensures SmoothAccel(cmdAccel, a, previous, dt) == SmoothAccel(cmdAccel, b, previous, dt) <==> a == b
  {
    var x, y := (a - previous) / dt, (b - previous) / dt;
    assert x * dt == a - previous && y * dt == b - previous;
  }

  // With the PID unclamped and acceleration fed forward, the demand tells two
  // accelerations apart.
  lemma DemandTellsAccel(c: R.RefConfig, cal: R.Calibration, w: R.RefWheel, seen: R.StateWheel,
                         speed: real, a: real, b: real, dt: real)
    requires R.Divides(cal.table) && cal.dutyPerSpeed > 0.0 && speed != 0.0
    requires c.gains.kaff != 0.0 && c.gains.pidMax <= 0.0
    ensures DemandAt(c, cal, w, seen, speed, a, dt) == DemandAt(c, cal, w, seen, speed, b, dt) <==> a == b
  {
    hide R.Corrected, R.Position, Clamp;
    var posError := R.Position(c.bounds, speed, seen, w.posRef, dt).1;
    var corrected, err := R.Corrected(cal.table, speed, w.lastSpeed, w.bias), speed - seen.velocity;
    var x, y := R.Pid(c.gains, posError, err, a), R.Pid(c.gains, posError, err, b);
    assert x - y == c.gains.kaff * a - c.gains.kaff * b;
    assert x == y <==> a == b by { if x == y { assert c.gains.kaff * (a - b) == 0.0; } }
    assert x == y <==> (corrected + x) * cal.dutyPerSpeed == (corrected + y) * cal.dutyPerSpeed by {
      if (corrected + x) * cal.dutyPerSpeed == (corrected + y) * cal.dutyPerSpeed {
        assert (x - y) * cal.dutyPerSpeed == 0.0;
      }
    }
  }

  // From corresponding wheels, for any targets and any interval: the reference
  // forms its commanded acceleration before the floor and the kernel after it, so
  // the two accelerations correspond if and only if the floor is idle or this
  // wheel's target is zero. With acceleration fed forward and the PID unclamped
  // the same decides the demand, and, inside the rail and without crawl pulses,
  // the duty.
  lemma FloorParts(s: real, cfg: Config, c: R.RefConfig, map_: WheelMap, cal: R.Calibration,
                   k: Wheel, w: R.RefWheel, seen: R.StateWheel, target: real, other: real,
                   nowUs: nat, now: uint32, cycleStart: uint32, dt: real)
    requires SameSide(s, cfg, c, map_, cal) && dt > 0.0
    requires SameWheel(s, k, w) && SameSample(s, k.sample, seen)
    requires seen.cmdAccel == R.Accelerate(w.(target := target), dt).cmdAccel
    ensures var r := R.Accelerate(w.(target := target), dt);
            var speed := R.Floored(c.bounds, true, target, other).0;
            var kernelSpeed := ApplySpeedFloor(cfg.vMin, Times(s, target), Times(s, other)).0;
            var (k', kDuty) := DriveWheel(cfg, map_, k, kernelSpeed, seen.positionEpoch, dt, nowUs, now, true);
            var demand := RefDemand(c, cal, r, seen, speed, dt);
            var rDuty := R.TickWheel(c, cal, r, seen, speed, cycleStart, dt).1;
            var same := FloorIdle(c.bounds, target, other) || target == 0.0;
            && (k'.cmdAccel == Times(s, r.cmdAccel) <==> same)
            && (c.gains.kaff != 0.0 && c.gains.pidMax <= 0.0 ==> (k'.demand == demand <==> same))
            && (c.gains.kaff != 0.0 && c.gains.pidMax <= 0.0 && c.crawlPulse == 0.0 &&
                Abs(k'.demand) <= cfg.maxDuty * 0.01 ==>
                  (kDuty == rDuty <==> same))
  {
    hide Times, DriveWheel, R.TickWheel, SmoothAccel, R.Floored, FloorIdle, DemandAt, SameWheel, SameSample, Abs,
         RebakedMap, RebakedGains, RebakedBounds, R.Divides, ApplySpeedFloor;
    var r := R.Accelerate(w.(target := target), dt);
    var speed := R.Floored(c.bounds, true, target, other).0;
    BoundsHaveFloor(s, cfg, c.bounds);
    FloorScales(s, cfg, c.bounds, target, other);
    FloorKeepsIff(c.bounds, target, other);
    AccelerateIsSmooth(w.(target := target), dt);
    var aCmd := SmoothAccel(w.cmdAccel, speed, w.previousTarget, dt);
    SmoothIsIff(w.cmdAccel, speed, target, w.previousTarget, dt);
    Ordered(s, aCmd, r.cmdAccel);
    KernelDemand(s, cfg, c, map_, cal, k, w, seen, speed, nowUs, now, dt);
    UpdateKeepsDemand(c, cal, w, r, seen, speed, dt);
    if speed != 0.0 && c.gains.kaff != 0.0 && c.gains.pidMax <= 0.0 {
      DemandTellsAccel(c, cal, w, seen, speed, aCmd, r.cmdAccel, dt);
    }
    if speed == 0.0 { StillDemand(c, cal, w, seen, aCmd, r.cmdAccel, dt); }
    if c.crawlPulse == 0.0 {
      SideDivides(s, cfg, c, map_, cal);
      KernelDutyIsDemand(cfg, map_, k, Times(s, speed), seen.positionEpoch, dt, nowUs, now);
      RefDutyIsDemand(c, cal, r, seen, speed, cycleStart, dt);
    }
  }

  lemma SideDivides(s: real, cfg: Config, c: R.RefConfig, map_: WheelMap, cal: R.Calibration)
    requires SameSide(s, cfg, c, map_, cal)
    ensures map_.accelGain != 0.0 && map_.decelGain != 0.0 && cfg.crawlPulse == c.crawlPulse
  {
  }

  lemma UpdateKeepsDemand(c: R.RefConfig, cal: R.Calibration, w: R.RefWheel, r: R.RefWheel, seen: R.StateWheel,
                          speed: real, dt: real)
    requires R.Divides(cal.table) && r == R.Accelerate(w.(target := r.target), dt)
    ensures RefDemand(c, cal, r, seen, speed, dt) == DemandAt(c, cal, w, seen, speed, seen.cmdAccel, dt)
  {
    hide R.Corrected, R.Position, R.Pid, R.Asked;
  }

  lemma StillDemand(c: R.RefConfig, cal: R.Calibration, w: R.RefWheel, seen: R.StateWheel, a: real, b: real, dt: real)
    requires R.Divides(cal.table)
    ensures DemandAt(c, cal, w, seen, 0.0, a, dt) == DemandAt(c, cal, w, seen, 0.0, b, dt)
  {
    hide R.Corrected, R.Position, R.Asked;
  }

  lemma KernelDutyIsDemand(cfg: Config, m: WheelMap, k: Wheel, speed: real, epoch: int, dt: real, nowUs: nat,
                           now: uint32)
    requires m.accelGain != 0.0 && m.decelGain != 0.0 && cfg.fullDutyVelocity > 0.0
    requires cfg.crawlPulse == 0.0
    ensures var (k', duty) := DriveWheel(cfg, m, k, speed, epoch, dt, nowUs, now, true);
            Abs(k'.demand) <= cfg.maxDuty * 0.01 ==> duty == k'.demand
  {
    hide CorrectedCommand, SmoothAccel, PositionError, FastPid, AdaptBias, UpdateLatch, Demand;
  }

  lemma RefDutyIsDemand(c: R.RefConfig, cal: R.Calibration, w: R.RefWheel, seen: R.StateWheel, speed: real,
                        cycleStart: uint32, dt: real)
    requires R.Divides(cal.table) && c.crawlPulse == 0.0
    ensures R.TickWheel(c, cal, w, seen, speed, cycleStart, dt).1 == RefDemand(c, cal, w, seen, speed, dt)
  {
    hide R.Corrected, R.Position, R.Pid, R.Asked, R.Adapted, R.IsFresh;
  }
}
