// Bounds the control law keeps on every reachable cycle: the staged duty, the
// authority ratio, the twist trim, the adapted bias and the fast PID; and what
// the crawl pulses and the velocity samples conserve.
module ControlBounds {
  import opened Law
  import opened KernelCycle
  import opened DriveRuns

  // ---- authority -------------------------------------------------------------------

  // The instantaneous authority ratio is the largest ratio, at most 1, that
  // brings both of last cycle's demands inside the rail.
  lemma AuthorityIsLargest(rail: real, demandLeft: real, demandRight: real, r: real)
    requires rail >= 0.0 && r >= 0.0
    ensures InstantAuthority(rail, demandLeft, demandRight) >= 0.0
    ensures r <= InstantAuthority(rail, demandLeft, demandRight) <==>
            r <= 1.0 && r * Abs(demandLeft) <= rail && r * Abs(demandRight) <= rail
  {
    OneWheelAuthority(rail, Abs(demandLeft), r);
    OneWheelAuthority(rail, Abs(demandRight), r);
  }

  lemma OneWheelAuthority(rail: real, magnitude: real, r: real)
    requires rail >= 0.0 && r >= 0.0 && magnitude >= 0.0
    ensures magnitude > rail ==> 0.0 <= rail / magnitude <= 1.0 && (r <= rail / magnitude <==> r * magnitude <= rail)
    ensures magnitude <= rail && r <= 1.0 ==> r * magnitude <= rail
  {
    if magnitude > rail {
      var q := rail / magnitude;
      assert q * magnitude == rail;
      Scaled(r, q, magnitude);
      Scaled(q, r, magnitude);
      Scaled(q, 1.0, magnitude);
      Scaled(1.0, q, magnitude);
      assert q >= 0.0;
    } else if r <= 1.0 {
      Scaled(r, 1.0, magnitude);
    }
  }

  lemma Scaled(a: real, b: real, m: real)
    requires m >= 0.0
    ensures a <= b ==> a * m <= b * m
    ensures m > 0.0 && a > b ==> a * m > b * m
  {
    if a <= b { assert (b - a) * m >= 0.0; } else if m > 0.0 { assert (a - b) * m > 0.0; }
  }

  // Whatever lambda was, the next one never exceeds this cycle's ratio: it is
  // shed at once and given back without overshoot.
  lemma LambdaWithinAuthority(cfg: Config, rail: real, ratio: real, demandLeft: real, demandRight: real, dt: real)
    requires rail >= 0.0
    ensures var next := NextLambda(cfg, rail, ratio, demandLeft, demandRight, dt);
            && 0.0 <= next <= 1.0
            && (cfg.lambdaEnabled ==> next <= InstantAuthority(rail, demandLeft, demandRight))
            && (cfg.lambdaEnabled && 0.0 <= ratio <= InstantAuthority(rail, demandLeft, demandRight) ==> next >= ratio)
  {
    hide InstantAuthority;
    var instant := InstantAuthority(rail, demandLeft, demandRight);
    AuthorityIsLargest(rail, demandLeft, demandRight, 0.0);
    AuthorityIsLargest(rail, demandLeft, demandRight, instant);
    if ratio <= instant && dt > 0.0 {
      var share := Min(1.0, dt / LAMBDA_RELEASE_TAU);
      Release(ratio, instant, share);
      assert ratio + (instant - ratio) * share <= instant;
    }
  }

  lemma Release(ratio: real, instant: real, share: real)
    requires ratio <= instant && 0.0 <= share <= 1.0
    ensures ratio <= ratio + (instant - ratio) * share <= instant
  {
    Scaled(share, 1.0, instant - ratio);
    Scaled(0.0, share, instant - ratio);
  }

  // The trim may use up the authority that is left; it never takes a wheel past it.
  lemma TrimWithinAuthority(cfg: Config, rail: real, ref: TwistRef, left: WheelSample, right: WheelSample, epoch: int,
                            scaledLeft: real, scaledRight: real, scaledTwist: real, dt: real)
    ensures var trim := HoldTwist(cfg, rail, ref, left, right, epoch, scaledLeft, scaledRight, scaledTwist, dt).1;
            && Abs(scaledLeft - trim) <= Max(rail * cfg.fullDutyVelocity, Abs(scaledLeft))
            && Abs(scaledRight + trim) <= Max(rail * cfg.fullDutyVelocity, Abs(scaledRight))
  {
    hide Headroom, Abs, Max;
    TrimWithinHeadroom(cfg, rail, ref, left, right, epoch, scaledLeft, scaledRight, scaledTwist, dt);
    var trim := HoldTwist(cfg, rail, ref, left, right, epoch, scaledLeft, scaledRight, scaledTwist, dt).1;
    HeadroomHolds(rail * cfg.fullDutyVelocity, scaledLeft, scaledRight, trim);
  }

  lemma TrimWithinHeadroom(cfg: Config, rail: real, ref: TwistRef, left: WheelSample, right: WheelSample, epoch: int,
                           scaledLeft: real, scaledRight: real, scaledTwist: real, dt: real)
    ensures var headroom := Headroom(rail * cfg.fullDutyVelocity, scaledLeft, scaledRight);
            var trim := HoldTwist(cfg, rail, ref, left, right, epoch, scaledLeft, scaledRight, scaledTwist, dt).1;
            -headroom <= trim <= headroom
  {
    hide TwistCorrection;
  }

  lemma HeadroomHolds(authority: real, scaledLeft: real, scaledRight: real, trim: real)
    requires -Headroom(authority, scaledLeft, scaledRight) <= trim <= Headroom(authority, scaledLeft, scaledRight)
    ensures Abs(scaledLeft - trim) <= Max(authority, Abs(scaledLeft))
    ensures Abs(scaledRight + trim) <= Max(authority, Abs(scaledRight))
  {
  }

  // Without the twist hold, scaling and the floor keep the commanded ratio.
  lemma RatioIsKept(cfg: Config, l: Loop, cmd: Command, epoch: int, dt: real)
    requires Usable(cfg) && cfg.twistHoldGain <= 0.0
    ensures var t := PlanTargets(cfg, l, cmd, epoch, dt);
            t.speedLeft * (cmd.velocity + cmd.twist) == t.speedRight * (cmd.velocity - cmd.twist)
  {
    hide NextLambda, Scale, ApplySpeedFloor;
    var ratio := NextLambda(cfg, cfg.maxDuty * 0.01, l.lambda, l.left.demand, l.right.demand, dt);
    FloorKeepsRatio(cfg.vMin, ratio, cmd.velocity - cmd.twist, cmd.velocity + cmd.twist);
  }

  lemma FloorKeepsRatio(vMin: real, ratio: real, rawLeft: real, rawRight: real)
    ensures var (left, right) := ApplySpeedFloor(vMin, Scale(ratio, rawLeft), Scale(ratio, rawRight));
            left * rawRight == right * rawLeft
  {
    hide Abs, Max, Scale, Boosted;
    var a, b := Scale(ratio, rawLeft), Scale(ratio, rawRight);
    ScaleCrosses(ratio, rawLeft, rawRight);
    var dominant := Max(Abs(a), Abs(b));
    if 0.0 < dominant < vMin {
      BoostCrosses(vMin, dominant, a, b, rawLeft, rawRight);
    }
  }

  lemma BoostCrosses(vMin: real, dominant: real, a: real, b: real, x: real, y: real)
    requires dominant > 0.0 && a * y == b * x
    ensures Boosted(vMin, dominant, a) * y == Boosted(vMin, dominant, b) * x
  {
    CommonScale(vMin / dominant, a, b, x, y);
  }

  lemma ScaleCrosses(ratio: real, x: real, y: real)
    ensures Scale(ratio, x) * y == Scale(ratio, y) * x
  {
  }

  lemma CommonScale(k: real, a: real, b: real, x: real, y: real)
    requires a * y == b * x
    ensures (a * k) * y == (b * k) * x
  {
    assert (a * k) * y == (a * y) * k && (b * k) * x == (b * x) * k;
  }

  // ---- feedforward, PID and bias -----------------------------------------------------

  // Feedforward is silent or pushes the commanded way.
  lemma FeedforwardNeverReverses(m: WheelMap, desired: real, previous: real, bias: real)
    requires m.accelGain != 0.0 && m.decelGain != 0.0
    ensures var c := CorrectedCommand(m, desired, previous, bias);
            c == 0.0 || (c > 0.0 && desired > 0.0) || (c < 0.0 && desired < 0.0)
  {
  }

  // On each motor at most the larger of rail and crawl pulse.
  ghost predicate WithinRail(cfg: Config, duty: real) {
    Abs(duty) <= Max(Abs(cfg.maxDuty * 0.01), cfg.crawlPulse)
  }

  ghost predicate Rails(cfg: Config, l: Loop) {
    WithinRail(cfg, l.left.written) && WithinRail(cfg, l.right.written)
  }

  ghost predicate PidWithin(cfg: Config, l: Loop) {
    cfg.pidMax > 0.0 ==> Abs(l.left.lastPid) <= cfg.pidMax && Abs(l.right.lastPid) <= cfg.pidMax
  }

  ghost predicate BiasWithin(l: Loop, most: real) {
    Abs(l.left.bias) <= most && Abs(l.right.bias) <= most
  }

  lemma ClampedToRail(rail: real, demand: real)
    ensures Abs(Clamp(demand, -rail, rail)) <= Abs(rail)
  {
  }

  lemma CrawlWithinRail(pulse: real, rail: real, demand: real, carry: real)
    requires rail >= 0.0
    ensures Abs(CrawlDuty(pulse, Clamp(demand, -rail, rail), carry).1) <= Max(rail, pulse)
  {
  }

  // What a wheel is given of a demand, with that much of a pulse carried over.
  function Emitted(pulse: real, rail: real, demand: real, carry: real): real {
    CrawlDuty(pulse, Clamp(demand, -rail, rail), carry).1
  }

  // The rail alone bounds what is emitted, whatever is asked and whatever has
  // been carried, if and only if the pulse is no longer than the rail (or there
  // is no rail to ask for any duty at all).
  lemma RailSufficesIff(pulse: real, rail: real)
    requires rail >= 0.0
    ensures (forall demand, carry | 0.0 <= carry < 1.0 :: Abs(Emitted(pulse, rail, demand, carry)) <= rail) <==>
            pulse <= rail || rail == 0.0
  {
    if pulse <= rail || rail == 0.0 {
      forall demand, carry | 0.0 <= carry < 1.0
        ensures Abs(Emitted(pulse, rail, demand, carry)) <= rail
      {
        if pulse <= rail { CrawlWithinRail(pulse, rail, demand, carry); }
      }
    } else {
      var share := rail / pulse;
      Share(rail, pulse);
      assert Clamp(rail, -rail, rail) == rail;
      assert Emitted(pulse, rail, rail, 1.0 - share) == pulse;
    }
  }

  lemma PidBounded(cfg: Config, posError: real, err: real, aCmd: real)
    ensures cfg.pidMax > 0.0 ==> Abs(FastPid(cfg, posError, err, aCmd)) <= cfg.pidMax
  {
  }

  lemma BiasBounded(cfg: Config, bias: real, err: real, aCmd: real, speed: real, isFresh: bool, dt: real, most: real)
    requires Abs(bias) <= most && cfg.biasMax <= most
    ensures Abs(AdaptBias(cfg, bias, err, aCmd, speed, isFresh, dt)) <= most
  {
  }

  // One wheel of the velocity law: its PID, its bias and the duty it asks for.
  lemma DriveWheelBounded(cfg: Config, m: WheelMap, w: Wheel, speed: real, epoch: int, dt: real,
                          nowUs: nat, now: uint32, adaptAllowed: bool, most: real)
    requires m.accelGain != 0.0 && m.decelGain != 0.0 && cfg.fullDutyVelocity > 0.0 && cfg.maxDuty >= 0.0
    ensures var (w', duty) := DriveWheel(cfg, m, w, speed, epoch, dt, nowUs, now, adaptAllowed);
            && (cfg.pidMax > 0.0 ==> Abs(w'.lastPid) <= cfg.pidMax)
            && (Abs(w.bias) <= most && cfg.biasMax <= most ==> Abs(w'.bias) <= most)
            && WithinRail(cfg, duty)
  {
    hide CorrectedCommand, SmoothAccel, PositionError, FastPid, CrawlDuty, AdaptBias, UpdateLatch, Clamp, Demand;
    var rail := cfg.maxDuty * 0.01;
    var corrected := CorrectedCommand(m, speed, w.lastSpeed, w.bias);
    var cmdAccel := SmoothAccel(w.cmdAccel, speed, w.previousTarget, dt);
    var isFresh := w.sample.connected && !w.port.reading.wedgeSuspect &&
                   0 <= nowUs - w.sample.sampleTime <= MAX_SAMPLE_AGE;
    var err := speed - w.sample.velocity;
    var posError := PositionError(cfg, speed, w.sample, w.posRef, epoch, dt).1;
    var pid := if speed == 0.0 then 0.0 else FastPid(cfg, posError, err, cmdAccel);
    PidBounded(cfg, posError, err, cmdAccel);
    CrawlWithinRail(cfg.crawlPulse, rail, Demand(cfg, corrected, pid), w.crawlCarry);
    if Abs(w.bias) <= most && cfg.biasMax <= most {
      BiasBounded(cfg, w.bias, err, cmdAccel, Abs(speed), isFresh && adaptAllowed, dt, most);
    }
  }

  // ---- one control step ---------------------------------------------------------------

  // What one cycle in a mode guarantees, whatever state it started from.
  ghost predicate Bounds(cfg: Config, mode: Mode, before: Loop, after: Loop) {
    && Rails(cfg, after)
    && (mode != RawDuty ==> PidWithin(cfg, after))
    && 0.0 <= after.lambda <= 1.0
    && (mode != Velocity ==> after.lambda == 1.0)
    && (mode == Velocity ==> cfg.maxDuty >= 0.0)
    && (mode == Velocity && cfg.lambdaEnabled ==>
          after.lambda <= InstantAuthority(cfg.maxDuty * 0.01, before.left.demand, before.right.demand))
  }

  lemma StagingBounds(cfg: Config, l: Loop, dutyLeft: real, dutyRight: real)
    requires WithinRail(cfg, dutyLeft) && WithinRail(cfg, dutyRight)
    ensures var m := StageDuty(l, dutyLeft, dutyRight);
            && Rails(cfg, m) && m.lambda == l.lambda
            && m.left.lastPid == l.left.lastPid && m.right.lastPid == l.right.lastPid
            && m.left.bias == l.left.bias && m.right.bias == l.right.bias
  {
    hide WheelsMoving;
    assert WithinRail(cfg, 0.0);
  }

  ghost predicate KeepsBias(cfg: Config, before: Loop, after: Loop, most: real) {
    BiasWithin(before, most) && cfg.biasMax <= most ==> BiasWithin(after, most)
  }

  lemma VelocityBounded(cfg: Config, l: Loop, cmd: Command, epoch: int, dt: real, nowUs: nat, now: uint32, most: real)
    requires Usable(cfg) && cfg.fullDutyVelocity > 0.0
    ensures var m := VelocityStep(cfg, l, cmd, epoch, dt, nowUs, now);
            Bounds(cfg, Velocity, l, m) && KeepsBias(cfg, l, m, most)
  {
    hide StageDuty, DriveWheel, UpdateLatch, Stalling, NextLambda, HoldTwist, ApplySpeedFloor, InstantAuthority,
         WithinRail;
    var t := PlanTargets(cfg, l, cmd, epoch, dt);
    LambdaWithinAuthority(cfg, cfg.maxDuty * 0.01, l.lambda, l.left.demand, l.right.demand, dt);
    var adaptAllowed := t.lambda >= LAMBDA_ADAPT_FLOOR;
    DriveWheelBounded(cfg, cfg.mapLeft, l.left, t.speedLeft, epoch, dt, nowUs, now, adaptAllowed, most);
    DriveWheelBounded(cfg, cfg.mapRight, l.right, t.speedRight, epoch, dt, nowUs, now, adaptAllowed, most);
    var (left, dutyLeft) := DriveWheel(cfg, cfg.mapLeft, l.left, t.speedLeft, epoch, dt, nowUs, now, adaptAllowed);
    var (right, dutyRight) := DriveWheel(cfg, cfg.mapRight, l.right, t.speedRight, epoch, dt, nowUs, now, adaptAllowed);
    var (since, latched) :=
      UpdateLatch(Stalling(cfg, cmd, l.left.sample, l.right.sample), cfg.stallWindow, now, l.stallSince);
    StagingBounds(cfg, Loop(left, right, t.twistRef, t.lambda, l.stallHalted || latched, since, latched,
                            l.stopEnforceCountdown),
                  dutyLeft, dutyRight);
  }

  lemma ControlBounded(cfg: Config, l: Loop, cmd: Command, mode: Mode, epoch: int, dt: real, nowUs: nat, now: uint32,
                       most: real)
    requires mode == Velocity ==> Usable(cfg) && cfg.fullDutyVelocity > 0.0
    ensures var m := ControlStep(cfg, l, cmd, mode, epoch, dt, nowUs, now);
            Bounds(cfg, mode, l, m) && KeepsBias(cfg, l, m, most)
  {
    hide StageDuty, VelocityStep, InstantAuthority, Clamp;
    match mode
    case Velocity => VelocityBounded(cfg, l, cmd, epoch, dt, nowUs, now, most);
    case Neutral =>
      StagingBounds(cfg, l.(left := NeutralWheel(l.left), right := NeutralWheel(l.right),
                            lambda := 1.0, twistRef := l.twistRef.(armed := false),
                            stallSince := 0, stallLatched := false), 0.0, 0.0);
    case RawDuty =>
      var rail, dl, dr := cfg.maxDuty * 0.01, cmd.dutyLeft * 0.01, cmd.dutyRight * 0.01;
      ClampedToRail(rail, dl);
      ClampedToRail(rail, dr);
      StagingBounds(cfg, l.(left := RawWheel(l.left, dl, rail), right := RawWheel(l.right, dr, rail),
                            lambda := 1.0, twistRef := l.twistRef.(armed := false)),
                    Clamp(dl, -rail, rail), Clamp(dr, -rail, rail));
  }

  // ---- one cycle and whole runs -----------------------------------------------------------

  // The configuration a cycle runs under: the staged one, if it has changed.
  function InForce(p: Plant): Config { TakeRequests(p.k, p.nowUs).active }

  ghost predicate SameWheel(w: Wheel, x: Wheel) { w.demand == x.demand && w.bias == x.bias }

  lemma RequestsKeepWheels(k: Kernel, cycleStart: nat)
    ensures var l := TakeRequests(k, cycleStart).loop;
            SameWheel(k.loop.left, l.left) && SameWheel(k.loop.right, l.right)
  {
  }

  lemma HaltOnWheels(g: Gates, l: Loop, halted: bool, most: real)
    ensures var m := EnterHalt(g, l, halted);
            m.left.demand == l.left.demand && m.right.demand == l.right.demand &&
            (BiasWithin(l, most) ==> BiasWithin(m, most))
  {
  }

  // Any cycle, from any state: its duties, PID and lambda are inside the bounds
  // of the configuration it runs under.
  lemma CycleIsBounded(p: Plant, readLeft: Reading, readRight: Reading, most: real)
    requires CanStep(p.k, p.nowUs)
    ensures var m := After(p, Cycle(readLeft, readRight)).k.loop;
            Bounds(InForce(p), CycleMode(p), p.k.loop, m) && KeepsBias(InForce(p), p.k.loop, m, most)
  {
    hide ControlStep, RefreshSample, OutputOf, NextGates, TakeRequests, EffectiveMode, EnterHalt,
         Usable, WithinRail, Max, Abs;
    var k, now := TakeRequests(p.k, p.nowUs), Millis(p.nowUs);
    RequestsKeepWheels(p.k, p.nowUs);
    HaltOnWheels(k.gates, k.loop, Halted(k), most);
    ModeIsCalibrated(k.front.command, Halted(k), k.active.fullDutyVelocity > 0.0, now);
    ControlBounded(k.active, EnterHalt(k.gates, k.loop, Halted(k)), k.front.command, CycleMode(p), k.requests.epoch,
                   Seconds(MeasuredPeriod(p.k.clock, p.nowUs)), k.clock.previousCycleStart, now, most);
  }

  // So on every cycle after begin(), in any run, with the kernel reconfigured
  // anywhere and by anything: what each motor holds is within the larger of the
  // rail and the crawl pulse in force, and lambda, PID and staging are in bounds.
  lemma EveryCycleIsBounded(p: Plant, es: seq<Event>, readLeft: Reading, readRight: Reading)
    ensures var q := Run(After(p, Begin), es);
            var m := After(q, Cycle(readLeft, readRight)).k.loop;
            CanStep(q.k, q.nowUs) ==>
              && WithinRail(InForce(q), m.left.port.duty) && WithinRail(InForce(q), m.right.port.duty)
              && Bounds(InForce(q), CycleMode(q), q.k.loop, m)
  {
    var begun := After(p, Begin);
    assert Primed(begun.k.loop);
    StaysPrimed(begun, es);
    var q := Run(begun, es);
    hide After, Run, WithinRail, CanStep, InForce, CycleMode, Primed;
    if CanStep(q.k, q.nowUs) {
      CycleIsBounded(q, readLeft, readRight, 0.0);
      CycleTracks(q, readLeft, readRight);
    }
  }

  // No configuration of the run allows a larger bias.
  ghost predicate BiasCapped(es: seq<Event>, most: real) {
    forall i :: 0 <= i < |es| && es[i].Configure? ==> es[i].config.biasMax <= most
  }

  ghost predicate Capped(k: Kernel, most: real) {
    k.active.biasMax <= most && k.front.staged.biasMax <= most && BiasWithin(k.loop, most)
  }

  lemma OtherEventsKeepCap(p: Plant, e: Event, most: real)
    requires !e.Cycle? && (e.Configure? ==> e.config.biasMax <= most)
    ensures Capped(p.k, most) ==> Capped(After(p, e).k, most)
  {
    hide ValidUntil, Next32, Abs;
  }

  lemma CycleKeepsCap(p: Plant, readLeft: Reading, readRight: Reading, most: real)
    requires CanStep(p.k, p.nowUs) && Capped(p.k, most)
    ensures Capped(After(p, Cycle(readLeft, readRight)).k, most)
  {
    hide After, CanStep, BiasWithin, Bounds;
    CycleIsBounded(p, readLeft, readRight, most);
    CycleKeepsFront(p, readLeft, readRight);
    ConfigInForce(p, readLeft, readRight);
  }

  lemma ConfigInForce(p: Plant, readLeft: Reading, readRight: Reading)
    requires CanStep(p.k, p.nowUs)
    ensures After(p, Cycle(readLeft, readRight)).k.active == InForce(p)
    ensures InForce(p) == p.k.active || InForce(p) == p.k.front.staged
  {
    hide ControlledLoop, Collect, OutputOf, NextGates;
  }

  // From power-up, over any run whose configurations allow no bias above `most`,
  // the adapted bias never exceeds it.
  lemma {:induction false} BiasNeverExceeds(left: Port, right: Port, es: seq<Event>, most: real)
    requires most >= 0.0 && BiasCapped(es, most)
    ensures Capped(Run(Boot(left, right), es).k, most)
  {
    hide After, CanStep, Capped, Boot;
    if es == [] {
      BootIsCapped(left, right, most);
    } else {
      var init, e := es[..|es| - 1], es[|es| - 1];
      assert BiasCapped(init, most) && (e.Configure? ==> e.config.biasMax <= most);
      BiasNeverExceeds(left, right, init, most);
      var q := Run(Boot(left, right), init);
      if !e.Cycle? {
        OtherEventsKeepCap(q, e, most);
      } else if CanStep(q.k, q.nowUs) {
        CycleKeepsCap(q, e.readLeft, e.readRight, most);
      } else {
        NoCycle(q, e.readLeft, e.readRight);
      }
    }
  }

  lemma BootIsCapped(left: Port, right: Port, most: real)
    requires most >= 0.0
    ensures Capped(Boot(left, right).k, most)
  {
  }

  // ---- crawl pulses ---------------------------------------------------------------------

  // The carry after a sequence of duties, and the sum of what was emitted.
  function Crawl(pulse: real, duties: seq<real>, carry: real): (real, real) {
    if duties == [] then (carry, 0.0)
    else
      var (before, sum) := Crawl(pulse, duties[..|duties| - 1], carry);
      var (after, emitted) := CrawlDuty(pulse, duties[|duties| - 1], before);
      (after, sum + Abs(emitted))
  }

  function SumAbs(duties: seq<real>): real {
    if duties == [] then 0.0 else SumAbs(duties[..|duties| - 1]) + Abs(duties[|duties| - 1])
  }

  // Pulses emitted over any run of nonzero duties amount to what was asked, but
  // for the change of carry ...
  lemma {:induction false} CrawlConserves(pulse: real, duties: seq<real>, carry: real)
    requires pulse > 0.0 && 0.0 <= carry < 1.0
    requires forall i :: 0 <= i < |duties| ==> duties[i] != 0.0
    ensures var (after, emitted) := Crawl(pulse, duties, carry);
            0.0 <= after < 1.0 && SumAbs(duties) - emitted == pulse * (after - carry)
  {
    hide CrawlDuty, Abs;
    if duties != [] {
      CrawlConserves(pulse, duties[..|duties| - 1], carry);
      var before := Crawl(pulse, duties[..|duties| - 1], carry).0;
      CrawlStep(pulse, duties[|duties| - 1], before);
    }
  }

  // ... so to within one pulse, however long the run.
  lemma CrawlWithinOnePulse(pulse: real, duties: seq<real>, carry: real)
    requires pulse > 0.0 && 0.0 <= carry < 1.0
    requires forall i :: 0 <= i < |duties| ==> duties[i] != 0.0
    ensures -pulse < SumAbs(duties) - Crawl(pulse, duties, carry).1 < pulse
  {
    hide SumAbs, Crawl;
    CrawlConserves(pulse, duties, carry);
    var (after, emitted) := Crawl(pulse, duties, carry);
    LessThanOne(pulse, after - carry, SumAbs(duties) - emitted);
  }

  lemma LessThanOne(pulse: real, change: real, owed: real)
    requires pulse > 0.0 && -1.0 < change < 1.0 && owed == pulse * change
    ensures -pulse < owed < pulse
  {
    assert pulse * (1.0 - change) > 0.0 && pulse * (1.0 + change) > 0.0;
    assert pulse * (1.0 - change) == pulse - owed && pulse * (1.0 + change) == pulse + owed;
  }

  lemma CrawlStep(pulse: real, duty: real, carry: real)
    requires pulse > 0.0 && 0.0 <= carry < 1.0 && duty != 0.0
    ensures var (after, emitted) := CrawlDuty(pulse, duty, carry);
            0.0 <= after < 1.0 && Abs(duty) - Abs(emitted) == pulse * (after - carry)
  {
    var magnitude := Abs(duty);
    if magnitude < pulse {
      Share(magnitude, pulse);
      FilledBy(pulse, magnitude, carry, magnitude / pulse);
    }
  }

  lemma FilledBy(pulse: real, magnitude: real, carry: real, share: real)
    requires pulse * share == magnitude
    ensures magnitude - 0.0 == pulse * (carry + share - carry)
    ensures magnitude - pulse == pulse * (carry + share - 1.0 - carry)
  {
    assert carry + share - carry == share && carry + share - 1.0 - carry == share - 1.0;
  }

  lemma Share(part: real, whole: real)
    requires 0.0 < part < whole
    ensures 0.0 < part / whole < 1.0 && whole * (part / whole) == part
  {
    var share := part / whole;
    assert share * whole == part;
    if share >= 1.0 { Scaled(1.0, share, whole); }
    if share <= 0.0 { Scaled(share, 0.0, whole); }
  }

  // ---- velocity samples -------------------------------------------------------------------

  datatype Stamp = Stamp(position: real, time: nat, connected: bool)

  function Sampled(s: WheelSample, stamps: seq<Stamp>): WheelSample {
    if stamps == [] then s
    else
      var last := stamps[|stamps| - 1];
      RefreshSample(Sampled(s, stamps[..|stamps| - 1]), last.position, last.connected, last.time)
  }

  // The travel the published velocities account for: each velocity times the
  // interval it was measured over.
  function Travel(s: WheelSample, stamps: seq<Stamp>): real {
    if stamps == [] then 0.0
    else
      var before := Sampled(s, stamps[..|stamps| - 1]);
      var after := Sampled(s, stamps);
      Travel(s, stamps[..|stamps| - 1]) + after.velocity * ((after.sampleTime - before.sampleTime) as real / 1000000.0)
  }

  ghost predicate Forward(s: WheelSample, stamps: seq<Stamp>) {
    forall j, k :: 0 <= j <= k < |stamps| ==> s.sampleTime <= stamps[j].time <= stamps[k].time < UINT64_RANGE
  }

  lemma SampleStep(s: WheelSample, position: real, connected: bool, time: nat)
    requires s.everSampled && s.sampleTime <= time < UINT64_RANGE
    ensures var t := RefreshSample(s, position, connected, time);
            && t.everSampled && t.sampleTime == time
            && t.velocity * ((time - s.sampleTime) as real / 1000000.0) == t.position - s.position
  {
    if time != s.sampleTime {
      var interval := (time - s.sampleTime) as real / 1000000.0;
      assert (time - s.sampleTime) % UINT64_RANGE == time - s.sampleTime;
      assert interval > 0.0;
      assert (position - s.position) / interval * interval == position - s.position;
    }
  }

  // Failed collects neither invent nor lose distance: the velocities account
  // for exactly the encoder's displacement, held samples included.
  lemma {:induction false} VelocityAccountsForTravel(s: WheelSample, stamps: seq<Stamp>)
    requires s.everSampled && Forward(s, stamps)
    ensures var t := Sampled(s, stamps);
            && t.everSampled
            && t.sampleTime == (if stamps == [] then s.sampleTime else stamps[|stamps| - 1].time)
            && Travel(s, stamps) == t.position - s.position
  {
    hide RefreshSample;
    if stamps != [] {
      var init, last := stamps[..|stamps| - 1], stamps[|stamps| - 1];
      assert forall j :: 0 <= j < |init| ==> init[j] == stamps[j];
      VelocityAccountsForTravel(s, init);
      SampleStep(Sampled(s, init), last.position, last.connected, last.time);
    }
  }
}
