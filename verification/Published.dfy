// What a cycle publishes and leaves behind: the output block against what the ports
// reported, the interval the law works with, what a rebase restarts, and what a halt
// and a stop forget.
module Published {
  import opened Law
  import opened KernelCycle
  import opened DriveRuns
  import opened Adapter
  import Ports

  // ---- time ----------------------------------------------------------------------------

  // When the last cycle of a run began.
  ghost function LastCycle(p: Plant, es: seq<Event>): (at: int)
    ensures at >= -1
  {
    if es == [] then -1
    else
      var q, e := Run(p, es[..|es| - 1]), es[|es| - 1];
      if e.Cycle? && CanStep(q.k, q.nowUs) then q.nowUs else LastCycle(p, es[..|es| - 1])
  }

  ghost predicate ClockKnown(p: Plant, last: int) {
    (p.k.clock.everCycled <==> last >= 0) && (last >= 0 ==> p.k.clock.previousCycleStart == last <= p.nowUs)
  }

  lemma CycleClock(p: Plant, readLeft: Reading, readRight: Reading)
    requires CanStep(p.k, p.nowUs)
    ensures var c, c' := p.k.clock, After(p, Cycle(readLeft, readRight)).k.clock;
            c'.everCycled && c'.previousCycleStart == p.nowUs && c'.cycleCount == (c.cycleCount + 1) % 0x1_0000_0000
  {
    hide ControlledLoop, Collect, OutputOf, NextGates;
  }

  lemma ClockStep(p: Plant, e: Event, last: int)
    requires ClockKnown(p, last)
    ensures ClockKnown(After(p, e), if e.Cycle? && CanStep(p.k, p.nowUs) then p.nowUs else last)
    ensures After(p, e).nowUs >= p.nowUs
  {
    hide CanStep, Step, ValidUntil;
    if e.Cycle? {
      if CanStep(p.k, p.nowUs) { CycleClock(p, e.readLeft, e.readRight); }
    }
  }

  lemma {:induction false} ClockStaysKnown(left: Port, right: Port, es: seq<Event>)
    ensures ClockKnown(Run(Boot(left, right), es), LastCycle(Boot(left, right), es))
  {
    hide After, CanStep;
    if es != [] {
      ClockStaysKnown(left, right, es[..|es| - 1]);
      ClockStep(Run(Boot(left, right), es[..|es| - 1]), es[|es| - 1], LastCycle(Boot(left, right), es[..|es| - 1]));
    }
  }

  // The interval at p, given when the cycle before began (-1: never).
  ghost predicate Elapsed(p: Plant, last: int) {
    && (last < 0 ==> Ports.Dt(p) == 0.0)
    && (last >= 0 && p.nowUs - last < 0x1_0000_0000 ==> Ports.Dt(p) == (p.nowUs - last) as real / 1000000.0)
  }

  // The interval the law integrates over is the true time since the last cycle, in
  // seconds: zero at the first cycle, and right up to 2^32 us (71 minutes).
  lemma IntervalIsElapsed(left: Port, right: Port, es: seq<Event>)
    ensures Elapsed(Run(Boot(left, right), es), LastCycle(Boot(left, right), es))
  {
    hide Run, Boot, LastCycle;
    ClockStaysKnown(left, right, es);
    KnownIsElapsed(Run(Boot(left, right), es), LastCycle(Boot(left, right), es));
  }

  lemma KnownIsElapsed(p: Plant, last: int)
    requires ClockKnown(p, last) && last >= -1
    ensures Elapsed(p, last)
  {
  }

  // ---- the output block -------------------------------------------------------------------

  // A sample never collected bears no stamp.
  predicate Sampled(l: Loop) {
    && (l.left.sample.everSampled || l.left.sample.sampleTime == 0)
    && (l.right.sample.everSampled || l.right.sample.sampleTime == 0)
  }

  // The position a wheel is published at: what its port just reported, if that is a
  // new sample, and what it was otherwise.
  function Seen(s: WheelSample, r: Reading): real { if r.sampleTime != s.sampleTime then r.position else s.position }

  // How fast: over the interval between the two samples.
  function SeenSpeed(s: WheelSample, r: Reading): real {
    if s.everSampled && s.sampleTime < r.sampleTime < s.sampleTime + 0x1_0000_0000_0000_0000
    then (r.position - s.position) * 1000000.0 / (r.sampleTime - s.sampleTime) as real
    else s.velocity
  }

  // Time only runs on between the samples of one wheel, by less than 2^64 us.
  predicate InOrder(s: WheelSample, r: Reading) {
    s.sampleTime <= r.sampleTime < s.sampleTime + 0x1_0000_0000_0000_0000
  }

  lemma CollectedSample(w: Wheel, r: Reading)
    requires w.sample.everSampled || w.sample.sampleTime == 0
    ensures var s := Collect(w, r).sample;
            && s.position == Seen(w.sample, r) && s.connected == r.connected && s.sampleTime == r.sampleTime
            && (InOrder(w.sample, r) ==> s.velocity == SeenSpeed(w.sample, r))
            && (s.everSampled || s.sampleTime == 0)
    ensures Collect(w, r).port.reading == r && Collect(w, r).bias == w.bias
  {
    var s := w.sample;
    if s.everSampled && s.sampleTime < r.sampleTime < s.sampleTime + UINT64_RANGE {
      var n := r.sampleTime - s.sampleTime;
      assert n % UINT64_RANGE == n;
      Quotients(r.position - s.position, n);
    }
  }

  lemma Quotients(x: real, n: nat)
    requires n > 0
    ensures x / (n as real / 1000000.0) == x * 1000000.0 / n as real
  {
    var d := n as real;
    var q := x / (d / 1000000.0);
    assert q * (d / 1000000.0) == x;
    assert q * d == (q * (d / 1000000.0)) * 1000000.0;
    assert (x * 1000000.0 / d) * d == x * 1000000.0;
    Ports.SameQuotient(q, x * 1000000.0 / d, d);
  }

  // The wheels' half of an output block, each wheel's own.
  ghost predicate ShowsWheels(o: Output, left: WheelSample, readLeft: Reading, right: WheelSample, readRight: Reading) {
    && o.positionLeft == Seen(left, readLeft) && o.positionRight == Seen(right, readRight)
    && (InOrder(left, readLeft) ==> o.velocityLeft == SeenSpeed(left, readLeft))
    && (InOrder(right, readRight) ==> o.velocityRight == SeenSpeed(right, readRight))
    && o.velocity - o.twist == o.velocityLeft && o.velocity + o.twist == o.velocityRight
    && o.appliedDutyLeft == readLeft.appliedDuty * 100.0 && o.appliedDutyRight == readRight.appliedDuty * 100.0
    && o.connectedLeft == readLeft.connected && o.connectedRight == readRight.connected
    && o.wedgeLeft == readLeft.wedged && o.wedgeRight == readRight.wedged
  }

  lemma OutputShowsWheels(k: Kernel, readLeft: Reading, readRight: Reading, now: uint32, period: uint32, expired: bool)
    requires Sampled(k.loop)
    ensures ShowsWheels(OutputOf(CollectBoth(k, readLeft, readRight), now, period, expired),
                        k.loop.left.sample, readLeft, k.loop.right.sample, readRight)
  {
    hide Collect, Seen, SeenSpeed, InOrder, NextFaultCount;
    CollectedSample(k.loop.left, readLeft);
    CollectedSample(k.loop.right, readRight);
  }

  // What a cycle publishes of the wheels is what their ports reported at its end:
  // position, speed, applied duty in percent, connection and wedge, each wheel's its
  // own, with the two speeds' mean and half-difference beside them.
  lemma OutputIsOfTheReadings(p: Plant, readLeft: Reading, readRight: Reading)
    requires CanStep(p.k, p.nowUs) && Sampled(p.k.loop)
    ensures var l := TakeRequests(p.k, p.nowUs).loop;
            ShowsWheels(After(p, Cycle(readLeft, readRight)).k.out, l.left.sample, readLeft, l.right.sample, readRight)
  {
    hide ControlledLoop, CollectBoth, OutputOf, NextGates, ShowsWheels, TakeRequests;
    var k := Decide(p.k, p.nowUs);
    ControlKeepsSamples(p);
    OutputShowsWheels(k, readLeft, readRight, Millis(p.nowUs), MeasuredPeriod(p.k.clock, p.nowUs),
                      LeaseExpired(p.k.front.command, Millis(p.nowUs)));
  }

  // Deciding what to do does not touch what was sampled.
  lemma ControlKeepsSamples(p: Plant)
    requires CanStep(p.k, p.nowUs)
    ensures var l, m := TakeRequests(p.k, p.nowUs).loop, Decide(p.k, p.nowUs).loop;
            && m.left.sample == l.left.sample && m.right.sample == l.right.sample
            && (Sampled(p.k.loop) ==> Sampled(m))
  {
    hide ControlStep, NextGates, Usable, EffectiveMode;
    var k, now := TakeRequests(p.k, p.nowUs), Millis(p.nowUs);
    var l := EnterHalt(k.gates, k.loop, Halted(k));
    ModeIsCalibrated(k.front.command, Halted(k), k.active.fullDutyVelocity > 0.0, now);
    StepKeepsSamples(k.active, l, k.front.command, ModeOf(k, now), k.requests.epoch,
                     Seconds(MeasuredPeriod(p.k.clock, p.nowUs)), k.clock.previousCycleStart, now);
  }

  lemma StagingKeepsSamples(l: Loop, dutyLeft: real, dutyRight: real)
    ensures var m := StageDuty(l, dutyLeft, dutyRight);
            m.left.sample == l.left.sample && m.right.sample == l.right.sample
  {
  }

  lemma StepKeepsSamples(cfg: Config, l: Loop, cmd: Command, mode: Mode, epoch: int, dt: real, nowUs: nat, now: uint32)
    requires mode == Velocity ==> Usable(cfg) && cfg.fullDutyVelocity > 0.0
    ensures var m := ControlStep(cfg, l, cmd, mode, epoch, dt, nowUs, now);
            m.left.sample == l.left.sample && m.right.sample == l.right.sample
  {
    hide StageDuty, DriveWheel, PlanTargets, UpdateLatch, Stalling, Clamp;
    match mode
    case Neutral =>
      StagingKeepsSamples(l.(left := NeutralWheel(l.left), right := NeutralWheel(l.right),
                             lambda := 1.0, twistRef := l.twistRef.(armed := false),
                             stallSince := 0, stallLatched := false), 0.0, 0.0);
    case RawDuty =>
      var rail, dl, dr := cfg.maxDuty * 0.01, cmd.dutyLeft * 0.01, cmd.dutyRight * 0.01;
      StagingKeepsSamples(l.(left := RawWheel(l.left, dl, rail), right := RawWheel(l.right, dr, rail),
                             lambda := 1.0, twistRef := l.twistRef.(armed := false)),
                          Clamp(dl, -rail, rail), Clamp(dr, -rail, rail));
    case Velocity =>
      var t := PlanTargets(cfg, l, cmd, epoch, dt);
      var adapts := t.lambda >= LAMBDA_ADAPT_FLOOR;
      DriveWheelKeepsPort(cfg, cfg.mapLeft, l.left, t.speedLeft, epoch, dt, nowUs, now, adapts);
      DriveWheelKeepsPort(cfg, cfg.mapRight, l.right, t.speedRight, epoch, dt, nowUs, now, adapts);
      var (left, dutyLeft) := DriveWheel(cfg, cfg.mapLeft, l.left, t.speedLeft, epoch, dt, nowUs, now, adapts);
      var (right, dutyRight) := DriveWheel(cfg, cfg.mapRight, l.right, t.speedRight, epoch, dt, nowUs, now, adapts);
      var (since, latched) :=
        UpdateLatch(Stalling(cfg, cmd, l.left.sample, l.right.sample), cfg.stallWindow, now, l.stallSince);
      StagingKeepsSamples(Loop(left, right, t.twistRef, t.lambda, l.stallHalted || latched, since, latched,
                               l.stopEnforceCountdown),
                          dutyLeft, dutyRight);
  }

  // And of the kernel itself: the time and number of this cycle, the state it is
  // left in, and whether a lease has run out, by the true clock.
  lemma OutputIsOfTheKernel(p: Plant, readLeft: Reading, readRight: Reading)
    requires CanStep(p.k, p.nowUs)
    ensures var k, q := TakeRequests(p.k, p.nowUs), After(p, Cycle(readLeft, readRight)).k;
            var o, cmd := q.out, p.k.front.command;
            && o.now == (p.nowUs / 1000) % 0x1_0000_0000
            && o.cycleCount == (p.k.clock.cycleCount + 1) % 0x1_0000_0000
            && (p.k.clock.everCycled && p.k.clock.previousCycleStart <= p.nowUs ==>
                  o.cyclePeriodMeasured == (p.nowUs - p.k.clock.previousCycleStart) % 0x1_0000_0000)
            && o.lambda == q.loop.lambda && o.biasLeft == q.loop.left.bias && o.biasRight == q.loop.right.bias
            && (o.ready <==> p.k.front.begun && k.active.fullDutyVelocity > 0.0)
            && (o.estopped <==> p.k.front.estop)
            && (o.stallHalted <==> q.loop.stallHalted)
            && (o.leaseExpired <==> cmd.mode != Neutral && !LeaseLive(cmd, Millis(p.nowUs)))
            && o.leaseExpiryCount == q.gates.leaseExpiryCount && o.i2cFaultCount == q.i2cFaultCount
            && q.outSeq == (p.k.outSeq + 2) % 0x1_0000_0000
  {
    hide ControlledLoop, Collect, NextGates, NextFaultCount, LeaseLive;
  }

  // Over any run from power-up the samples stay sane ...
  lemma {:induction false} StaysSampled(left: Port, right: Port, es: seq<Event>)
    ensures Sampled(Run(Boot(left, right), es).k.loop)
  {
    hide After, CanStep, Sampled;
    if es == [] {
      assert Sampled(Boot(left, right).k.loop) by { BootSampled(left, right); }
    } else {
      StaysSampled(left, right, es[..|es| - 1]);
      SampledStep(Run(Boot(left, right), es[..|es| - 1]), es[|es| - 1]);
    }
  }

  lemma BootSampled(left: Port, right: Port)
    ensures Sampled(Boot(left, right).k.loop)
  {
  }

  lemma SampledStep(p: Plant, e: Event)
    requires Sampled(p.k.loop)
    ensures Sampled(After(p, e).k.loop)
  {
    hide CanStep, Decide, ValidUntil, Collect;
    if e.Cycle? && CanStep(p.k, p.nowUs) {
      ControlKeepsSamples(p);
      CollectedSample(Decide(p.k, p.nowUs).loop.left, e.readLeft);
      CollectedSample(Decide(p.k, p.nowUs).loop.right, e.readRight);
    }
  }

  // ... so telemetry taken after a cycle shows each encoder's own position, in the
  // wire's unit, to the nearest one.
  lemma TelemetryShowsEncoders(left: Port, right: Port, es: seq<Event>, readLeft: Reading, readRight: Reading,
                               countsPerLength: real, seqNo: nat, full: bool)
    requires countsPerLength > 0.0 && seqNo < 128
    requires var p := Run(Boot(left, right), es); CanStep(p.k, p.nowUs)
    ensures var p := Run(Boot(left, right), es);
            var l := TakeRequests(p.k, p.nowUs).loop;
            var cs := Columns(After(p, Cycle(readLeft, readRight)).k.out, countsPerLength, seqNo, full);
            && Shows(cs[3], "posl", Seen(l.left.sample, readLeft) / countsPerLength)
            && Shows(cs[4], "posr", Seen(l.right.sample, readRight) / countsPerLength)
  {
    hide Run, Boot, After, TakeRequests, CanStep, Columns, Shows, Seen, SeenSpeed, InOrder, Counts, ShowsFlags;
    var p := Run(Boot(left, right), es);
    StaysSampled(left, right, es);
    OutputIsOfTheReadings(p, readLeft, readRight);
    SnapshotIsTruthful(After(p, Cycle(readLeft, readRight)).k.out, countsPerLength, seqNo, full);
  }

  // ---- the counters ---------------------------------------------------------------------------

  // A lease is counted as run out at the first cycle that finds it dead after one
  // that found it live; and the gates remember this cycle for the next.
  lemma LeaseExpiryIsCounted(p: Plant, readLeft: Reading, readRight: Reading)
    requires CanStep(p.k, p.nowUs)
    ensures var k, g, q := TakeRequests(p.k, p.nowUs), p.k.gates, After(p, Cycle(readLeft, readRight)).k.gates;
            var cmd := p.k.front.command;
            var live := LeaseLive(cmd, Millis(p.nowUs));
            && q.leaseExpiryCount ==
               (if g.leaseWasLive && cmd.mode != Neutral && !live then (g.leaseExpiryCount + 1) % 0x1_0000_0000
                else g.leaseExpiryCount)
            && (q.leaseWasLive <==> live)
            && (q.wasForcedStop <==> p.k.front.estop || k.loop.stallHalted)
  {
    hide ControlledLoop, Collect, OutputOf, LeaseLive;
  }

  // A cycle counts as a bus fault exactly when either wheel's stamp stood still.
  lemma FaultIsCounted(p: Plant, readLeft: Reading, readRight: Reading)
    requires CanStep(p.k, p.nowUs) && Sampled(p.k.loop)
    ensures var l, q := TakeRequests(p.k, p.nowUs).loop, After(p, Cycle(readLeft, readRight)).k;
            var stood := readLeft.sampleTime == l.left.sample.sampleTime ||
              readRight.sampleTime == l.right.sample.sampleTime;
            q.i2cFaultCount == if stood then (p.k.i2cFaultCount + 1) % 0x1_0000_0000 else p.k.i2cFaultCount
  {
    hide ControlledLoop, OutputOf, NextGates, Collect, TakeRequests;
    ControlKeepsSamples(p);
    var k := Decide(p.k, p.nowUs);
    CollectedSample(k.loop.left, readLeft);
    CollectedSample(k.loop.right, readRight);
    RequestsKeepFaults(p.k, p.nowUs);
  }

  lemma RequestsKeepFaults(k: Kernel, cycleStart: nat)
    ensures TakeRequests(k, cycleStart).i2cFaultCount == k.i2cFaultCount
  {
  }

  // ---- a rebase ------------------------------------------------------------------------------

  // Both wheels count from zero again: no sample, no speed, position zero at the
  // port; and nothing else of the wheel moves.
  ghost predicate Restarted(w: Wheel, w': Wheel) {
    && !w'.sample.everSampled && !w'.sample.connected && w'.sample.sampleTime == 0
    && w'.sample.position == 0.0 && w'.sample.velocity == 0.0
    && w'.port.reading.position == 0.0 && w'.port.duty == w.port.duty && w'.port.writes == w.port.writes
    && w'.written == w.written && w'.bias == w.bias && w'.posRef == w.posRef && w'.crawlCarry == w.crawlCarry
  }

  // A rebase, served by the next cycle: both wheels restart, and each epoch moves on
  // by one, so that what was measured against the old positions is told apart.
  lemma RebaseRestarts(p: Plant)
    requires (p.k.front.rebaseReq + 1) % 0x1_0000_0000 != p.k.requests.seenRebaseReq
    ensures var q := After(p, RebaseCmd);
            var r, k := p.k.requests, TakeRequests(q.k, q.nowUs);
            && Restarted(p.k.loop.left, k.loop.left) && Restarted(p.k.loop.right, k.loop.right)
            && k.requests.epoch == (r.epoch + 1) % 256
            && k.requests.positionEpochLeft == (r.positionEpochLeft + 1) % 0x1_0000_0000
            && k.requests.positionEpochRight == (r.positionEpochRight + 1) % 0x1_0000_0000
            && k.requests.seenRebaseReq == k.front.rebaseReq
  {
  }

  // Without a request nothing restarts.
  lemma NoRebaseNoRestart(p: Plant)
    requires p.k.front.rebaseReq == p.k.requests.seenRebaseReq
    ensures var k, r := TakeRequests(p.k, p.nowUs), p.k.requests;
            && k.loop.left == p.k.loop.left && k.loop.right == p.k.loop.right
            && k.requests.epoch == r.epoch && k.requests.positionEpochLeft == r.positionEpochLeft &&
            k.requests.positionEpochRight == r.positionEpochRight
  {
  }

  // A position reference of the epoch before is thrown away, not integrated on.
  lemma RebaseReanchors(cfg: Config, speed: real, wheel: WheelSample, ref: PositionRef, epoch: int, dt: real)
    requires ref.epoch != epoch
    ensures PositionError(cfg, speed, wheel, ref, epoch, dt) ==
            (PositionRef(0.0, wheel.position, epoch, speed != 0.0 && wheel.connected), 0.0)
  {
  }

  // ---- what a halt and a stop forget ----------------------------------------------------------

  ghost predicate Unlearned(w: Wheel) {
    w.bias == 0.0 && w.crawlCarry == 0.0 && w.posRef == PositionRef(0.0, 0.0, 0, false) && w.deficitSince == 0 &&
      !w.deficit
  }

  ghost predicate AtRest(w: Wheel) {
    && w.demand == 0.0 && w.lastSpeed == 0.0 && w.previousTarget == 0.0 && w.cmdAccel == 0.0 && w.lastPid == 0.0
    && !w.sat && !w.deficit && w.deficitSince == 0 && !w.posRef.armed
  }

  // Every stop cycle leaves the law at rest; entering an estop or a stall halt also
  // wipes everything it has adapted.
  lemma StopForgets(p: Plant, readLeft: Reading, readRight: Reading)
    requires MustStop(p)
    ensures var k, l := TakeRequests(p.k, p.nowUs), After(p, Cycle(readLeft, readRight)).k.loop;
            && AtRest(l.left) && AtRest(l.right) && l.lambda == 1.0 && !l.twistRef.armed
            && l.stallSince == 0 && !l.stallLatched
            && ((p.k.front.estop || k.loop.stallHalted) && !p.k.gates.wasForcedStop ==>
                  Unlearned(l.left) && Unlearned(l.right) && l.twistRef == TwistRef(0.0, 0.0, 0.0, 0, false))
  {
    hide RefreshSample, TakeRequests, OutputOf, NextGates, EffectiveMode, VelocityStep, RawDutyStep;
    RequestsKeepGates(p.k, p.nowUs);
    var k := TakeRequests(p.k, p.nowUs);
    NeutralRests(EnterHalt(k.gates, k.loop, Halted(k)));
  }

  lemma RequestsKeepGates(k: Kernel, cycleStart: nat)
    ensures TakeRequests(k, cycleStart).gates == k.gates && TakeRequests(k, cycleStart).front == k.front
  {
  }

  lemma NeutralRests(l: Loop)
    ensures var m := NeutralStep(l);
            && AtRest(m.left) && AtRest(m.right) && m.lambda == 1.0 && !m.twistRef.armed
            && m.stallSince == 0 && !m.stallLatched
            && m.twistRef == l.twistRef.(armed := false)
            && (Unlearned(l.left) ==> Unlearned(m.left)) && (Unlearned(l.right) ==> Unlearned(m.right))
  {
    hide WheelsMoving;
  }

  // What was learned survives a stop that no halt ordered: an expired lease, say.
  lemma StopKeepsBias(p: Plant, readLeft: Reading, readRight: Reading)
    requires MustStop(p) && !p.k.front.estop && !TakeRequests(p.k, p.nowUs).loop.stallHalted
    ensures var l := After(p, Cycle(readLeft, readRight)).k.loop;
            l.left.bias == p.k.loop.left.bias && l.right.bias == p.k.loop.right.bias
  {
    hide RefreshSample, OutputOf, NextGates, EffectiveMode, VelocityStep, RawDutyStep, StageDuty;
    var k := TakeRequests(p.k, p.nowUs);
    NeutralKeepsBias(k.loop);
  }

  lemma NeutralKeepsBias(l: Loop)
    ensures NeutralStep(l).left.bias == l.left.bias && NeutralStep(l).right.bias == l.right.bias
  {
    hide WheelsMoving;
  }
}
