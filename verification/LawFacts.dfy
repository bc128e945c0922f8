// The control law's stages in plain arithmetic: what each computes, which way it
// pushes and what it holds still.
module LawFacts {
  import opened Law
  import opened KernelCycle
  import opened Ports

  // ---- the fast PID ------------------------------------------------------------------

  // Each part of the PID is the nearest value its own limit allows.
  lemma PidIsHeld(cfg: Config, posError: real, err: real, aCmd: real) returns (integral: real)
    ensures cfg.iMax > 0.0 ==> HeldTo(cfg.iMax, cfg.ki * posError, integral)
    ensures cfg.iMax <= 0.0 ==> integral == 0.0
    ensures cfg.pidMax > 0.0 ==>
              HeldTo(cfg.pidMax, cfg.kp * err + cfg.kaff * aCmd + integral, FastPid(cfg, posError, err, aCmd))
    ensures cfg.pidMax <= 0.0 ==> FastPid(cfg, posError, err, aCmd) == cfg.kp * err + cfg.kaff * aCmd + integral
  {
    hide Gained, Clamp, HeldTo;
    GainIs(cfg.ki, posError);
    GainIs(cfg.kp, err);
    GainIs(cfg.kaff, aCmd);
    integral := if cfg.iMax > 0.0 then Clamp(Gained(cfg.ki, posError), -cfg.iMax, cfg.iMax) else 0.0;
    if cfg.iMax > 0.0 { ClampHolds(cfg.iMax, Gained(cfg.ki, posError)); }
    if cfg.pidMax > 0.0 { ClampHolds(cfg.pidMax, Gained(cfg.kp, err) + Gained(cfg.kaff, aCmd) + integral); }
  }

  // So between the limits it is the weighted sum of the speed error, the
  // commanded acceleration and, when it has a limit at all, the position error.
  lemma PidIsWeightedSum(cfg: Config, posError: real, err: real, aCmd: real)
    requires cfg.iMax > 0.0 ==> -cfg.iMax <= cfg.ki * posError <= cfg.iMax
    ensures var sum := cfg.kp * err + cfg.kaff * aCmd + if cfg.iMax > 0.0 then cfg.ki * posError else 0.0;
            && (cfg.pidMax <= 0.0 ==> FastPid(cfg, posError, err, aCmd) == sum)
            && (cfg.pidMax > 0.0 ==> HeldTo(cfg.pidMax, sum, FastPid(cfg, posError, err, aCmd)))
  {
    hide FastPid;
    var integral := PidIsHeld(cfg, posError, err, aCmd);
    assert cfg.iMax > 0.0 ==> integral == cfg.ki * posError;
  }

  lemma GainIs(gain: real, x: real)
    ensures Gained(gain, x) == gain * x
  {
  }

  lemma ClampHolds(most: real, x: real)
    requires most >= 0.0
    ensures HeldTo(most, x, Clamp(x, -most, most))
  {
  }

  lemma ClampOrdered(a: real, b: real, most: real)
    requires a <= b && most >= 0.0
    ensures Clamp(a, -most, most) <= Clamp(b, -most, most)
  {
  }

  lemma GainOrdered(gain: real, a: real, b: real)
    requires gain >= 0.0 && a <= b
    ensures Gained(gain, a) <= Gained(gain, b)
  {
    assert gain * (b - a) >= 0.0;
  }

  // Feedback pushes against the error: a wheel further behind is never asked for
  // less; and likewise for a greater acceleration or a longer lag.
  lemma PidPushesBack(cfg: Config, posError: real, posError': real, err: real, err': real, aCmd: real, aCmd': real)
    requires cfg.kp >= 0.0 && cfg.ki >= 0.0 && cfg.kaff >= 0.0
    requires posError <= posError' && err <= err' && aCmd <= aCmd'
    ensures FastPid(cfg, posError, err, aCmd) <= FastPid(cfg, posError', err', aCmd')
  {
    hide Gained, Clamp;
    GainOrdered(cfg.kp, err, err');
    GainOrdered(cfg.kaff, aCmd, aCmd');
    GainOrdered(cfg.ki, posError, posError');
    if cfg.iMax > 0.0 { ClampOrdered(Gained(cfg.ki, posError), Gained(cfg.ki, posError'), cfg.iMax); }
    var i := if cfg.iMax > 0.0 then Clamp(Gained(cfg.ki, posError), -cfg.iMax, cfg.iMax) else 0.0;
    var i' := if cfg.iMax > 0.0 then Clamp(Gained(cfg.ki, posError'), -cfg.iMax, cfg.iMax) else 0.0;
    if cfg.pidMax > 0.0 {
      ClampOrdered(Gained(cfg.kp, err) + Gained(cfg.kaff, aCmd) + i,
                   Gained(cfg.kp, err') + Gained(cfg.kaff, aCmd') + i',
                   cfg.pidMax);
    }
  }

  // ---- the wheel map -------------------------------------------------------------------

  // The correction inverts the wheel's own map: a command c that is not silent
  // makes a wheel of that map run at the desired speed, bias apart. Which of the
  // two directions of the map holds depends on whether the wheel speeds up.
  lemma CorrectionInvertsMap(m: WheelMap, desired: real, previous: real, bias: real)
    requires m.accelGain != 0.0 && m.decelGain != 0.0
    ensures var c := CorrectedCommand(m, desired, previous, bias);
            var speedingUp := -Abs(desired) < previous < Abs(desired);
            c != 0.0 ==>
              && (c > 0.0 <==> desired > 0.0)
              && (speedingUp ==> m.accelGain * (Abs(c) - bias) + m.accelIntercept == Abs(desired))
              && (!speedingUp ==> m.decelGain * (Abs(c) - bias) + m.decelIntercept == Abs(desired))
  {
    var (gain, intercept) := if Abs(desired) > Abs(previous) then (m.accelGain, m.accelIntercept)
                             else (m.decelGain, m.decelIntercept);
    var magnitude := (Abs(desired) - intercept) / gain;
    assert gain * magnitude == Abs(desired) - intercept;
  }

  // ---- authority -----------------------------------------------------------------------

  lemma AuthorityIsRatio(rail: real, demandLeft: real, demandRight: real)
    requires rail >= 0.0
    ensures 0.0 <= InstantAuthority(rail, demandLeft, demandRight) <= 1.0
  {
    if Abs(demandLeft) > rail { Quotient(rail, Abs(demandLeft)); }
    if Abs(demandRight) > rail { Quotient(rail, Abs(demandRight)); }
  }

  // Below what the demands allow, lambda recovers with a time constant of 0.3 s: an
  // interval closes the share dt / 0.3 of the gap, and all of it from 0.3 s on.
  lemma LambdaRecovers(cfg: Config, rail: real, ratio: real, demandLeft: real, demandRight: real, dt: real)
    returns (share: real)
    requires rail >= 0.0 && cfg.lambdaEnabled && 0.0 <= ratio <= InstantAuthority(rail, demandLeft, demandRight)
    ensures share == if dt <= 0.0 then 0.0 else if dt < 0.3 then dt / 0.3 else 1.0
    ensures NextLambda(cfg, rail, ratio, demandLeft, demandRight, dt) ==
            ratio + (InstantAuthority(rail, demandLeft, demandRight) - ratio) * share
  {
    hide InstantAuthority, NextLambda;
    share := ShareOf(dt);
    var instant := InstantAuthority(rail, demandLeft, demandRight);
    AuthorityIsRatio(rail, demandLeft, demandRight);
    Between(ratio, instant - ratio, share);
    LambdaTakesShare(cfg, rail, ratio, demandLeft, demandRight, dt, share);
  }

  lemma ShareOf(dt: real) returns (share: real)
    ensures share == if dt <= 0.0 then 0.0 else if dt < 0.3 then dt / 0.3 else 1.0
    ensures share == (if dt > 0.0 then Min(1.0, dt / 0.3) else 0.0) && 0.0 <= share <= 1.0
  {
    share := if dt <= 0.0 then 0.0 else if dt < 0.3 then dt / 0.3 else 1.0;
    Quotient(dt, 0.3);
  }

  lemma LambdaTakesShare(cfg: Config, rail: real, ratio: real, demandLeft: real, demandRight: real, dt: real,
                         share: real)
    requires rail >= 0.0 && cfg.lambdaEnabled && 0.0 <= ratio <= InstantAuthority(rail, demandLeft, demandRight) <= 1.0
    requires share == if dt > 0.0 then Min(1.0, dt / 0.3) else 0.0
    requires var next := ratio + (InstantAuthority(rail, demandLeft, demandRight) - ratio) * share; 0.0 <= next <= 1.0
    ensures NextLambda(cfg, rail, ratio, demandLeft, demandRight, dt) ==
            ratio + (InstantAuthority(rail, demandLeft, demandRight) - ratio) * share
  {
    hide InstantAuthority;
  }

  lemma Between(a: real, gap: real, share: real)
    requires gap >= 0.0 && 0.0 <= share <= 1.0
    ensures a <= a + gap * share <= a + gap
  {
    NonNegative(gap, share);
    NonNegative(gap, 1.0 - share);
    assert gap * (1.0 - share) == gap - gap * share;
  }

  lemma NonNegative(x: real, y: real)
    requires x >= 0.0 && y >= 0.0
    ensures x * y >= 0.0
  {
  }

  lemma Quotient(dt: real, tau: real)
    requires tau > 0.0
    ensures dt / tau <= 1.0 <==> dt <= tau
    ensures dt >= 0.0 ==> dt / tau >= 0.0
  {
    var share := dt / tau;
    assert share * tau == dt;
    if share > 1.0 { NonNegative(share - 1.0, tau); }
    if dt > tau && share <= 1.0 { NonNegative(1.0 - share, tau); }
    if share < 0.0 { NonNegative(-share, tau); }
  }

  // Off, it scales nothing.
  lemma LambdaOff(cfg: Config, rail: real, ratio: real, demandLeft: real, demandRight: real, dt: real)
    requires rail >= 0.0 && !cfg.lambdaEnabled
    ensures NextLambda(cfg, rail, ratio, demandLeft, demandRight, dt) == 1.0
  {
  }

  // ---- the twist hold --------------------------------------------------------------------

  // With the floor off, the two targets have the scaled velocity for their mean
  // and the scaled twist plus the trim for their half-difference.
  lemma TargetsTurn(cfg: Config, l: Loop, cmd: Command, epoch: int, dt: real)
    returns (left: real, right: real, turn: real, trim: real)
    requires Usable(cfg) && cfg.vMin <= 0.0
    ensures var t := PlanTargets(cfg, l, cmd, epoch, dt);
            && left == t.lambda * (cmd.velocity - cmd.twist)
            && right == t.lambda * (cmd.velocity + cmd.twist)
            && turn == t.lambda * cmd.twist
            && (t.twistRef, trim) ==
                 HoldTwist(cfg, cfg.maxDuty * 0.01, l.twistRef, l.left.sample, l.right.sample, epoch,
                                               left, right, turn, dt)
            && t.speedLeft + t.speedRight == 2.0 * (t.lambda * cmd.velocity)
            && t.speedRight - t.speedLeft == 2.0 * (turn + trim)
  {
    hide NextLambda, HoldTwist, Scale, ApplySpeedFloor;
    var t := PlanTargets(cfg, l, cmd, epoch, dt);
    ScaleSplits(t.lambda, cmd.velocity, cmd.twist);
    left, right, turn := Scale(t.lambda, cmd.velocity - cmd.twist), Scale(t.lambda, cmd.velocity + cmd.twist),
    Scale(t.lambda, cmd.twist);
    trim := HoldTwist(cfg, cfg.maxDuty * 0.01, l.twistRef, l.left.sample, l.right.sample, epoch, left, right, turn,
                      dt).1;
    NoFloor(cfg.vMin, left - trim, right + trim);
  }

  lemma NoFloor(vMin: real, rawLeft: real, rawRight: real)
    requires vMin <= 0.0
    ensures ApplySpeedFloor(vMin, rawLeft, rawRight) == (rawLeft, rawRight)
  {
  }

  lemma ScaleSplits(r: real, v: real, w: real)
    ensures Scale(r, v - w) == r * (v - w) == r * v - r * w
    ensures Scale(r, v + w) == r * (v + w) == r * v + r * w
    ensures Scale(r, w) == r * w
  {
  }

  // The reference is the turn commanded since it was anchored: anchored where the
  // wheels stand, and advanced by the scaled twist over the interval.
  lemma TwistReferenceAdvances(cfg: Config, rail: real, ref: TwistRef, left: WheelSample, right: WheelSample,
                               epoch: int,
                               scaledLeft: real, scaledRight: real, scaledTwist: real, dt: real)
    ensures var r := HoldTwist(cfg, rail, ref, left, right, epoch, scaledLeft, scaledRight, scaledTwist, dt).0;
            var holds := cfg.twistHoldGain > 0.0 && left.connected && right.connected;
            var moved := if dt > 0.0 then scaledTwist * dt else 0.0;
            && r.armed == holds
            && (holds && ref.armed && ref.epoch == epoch ==>
                  r == TwistRef(ref.reference + moved, ref.originLeft, ref.originRight, epoch, true))
            && (holds && !(ref.armed && ref.epoch == epoch) ==>
                  r == TwistRef(moved, left.position, right.position, epoch, true))
  {
    hide TwistCorrection, Headroom;
  }

  // What was commanded less what the encoders turned since the anchor.
  function Lag(ref: TwistRef, left: WheelSample, right: WheelSample): real {
    ref.reference - ((right.position - ref.originRight) - (left.position - ref.originLeft)) / 2.0
  }

  // The trim turns the robot the way it lags: it is the lag times the gain, held to
  // the headroom, and so with any headroom at all has the sign of the lag.
  lemma TrimFollowsLag(cfg: Config, rail: real, ref: TwistRef, left: WheelSample, right: WheelSample, epoch: int,
                       scaledLeft: real, scaledRight: real, scaledTwist: real, dt: real)
    requires cfg.twistHoldGain > 0.0 && left.connected && right.connected
    ensures var (r, trim) := HoldTwist(cfg, rail, ref, left, right, epoch, scaledLeft, scaledRight, scaledTwist, dt);
            var headroom, lag := Headroom(rail * cfg.fullDutyVelocity, scaledLeft, scaledRight), Lag(r, left, right);
            && HeldTo(headroom, cfg.twistHoldGain * lag, trim)
            && (headroom > 0.0 ==> (trim > 0.0 <==> lag > 0.0) && (trim < 0.0 <==> lag < 0.0))
  {
    hide Headroom, TwistCorrection, HoldTwist, Lag;
    var (r, trim) := HoldTwist(cfg, rail, ref, left, right, epoch, scaledLeft, scaledRight, scaledTwist, dt);
    TrimIsHeld(cfg, rail, ref, left, right, epoch, scaledLeft, scaledRight, scaledTwist, dt);
    CorrectionIsLag(cfg.twistHoldGain, r, left, right);
    SignOf(cfg.twistHoldGain, Lag(r, left, right));
    HeadroomIsPositive(rail * cfg.fullDutyVelocity, scaledLeft, scaledRight);
  }

  lemma TrimIsHeld(cfg: Config, rail: real, ref: TwistRef, left: WheelSample, right: WheelSample, epoch: int,
                   scaledLeft: real, scaledRight: real, scaledTwist: real, dt: real)
    requires cfg.twistHoldGain > 0.0 && left.connected && right.connected
    ensures var (r, trim) := HoldTwist(cfg, rail, ref, left, right, epoch, scaledLeft, scaledRight, scaledTwist, dt);
            HeldTo(Headroom(rail * cfg.fullDutyVelocity, scaledLeft, scaledRight),
                   TwistCorrection(cfg.twistHoldGain, r, left, right), trim)
  {
    hide TwistCorrection;
  }

  lemma CorrectionIsLag(gain: real, ref: TwistRef, left: WheelSample, right: WheelSample)
    ensures TwistCorrection(gain, ref, left, right) == gain * Lag(ref, left, right)
  {
    var measured := 0.5 * ((right.position - ref.originRight) - (left.position - ref.originLeft));
    assert ref.reference - measured == Lag(ref, left, right);
  }

  lemma HeadroomIsPositive(authority: real, scaledLeft: real, scaledRight: real)
    ensures Headroom(authority, scaledLeft, scaledRight) >= 0.0
  {
  }

  lemma SignOf(gain: real, x: real)
    requires gain > 0.0
    ensures (gain * x > 0.0 <==> x > 0.0) && (gain * x < 0.0 <==> x < 0.0)
  {
    if x > 0.0 { assert gain * x > 0.0; }
    if x < 0.0 { assert gain * (-x) > 0.0; assert gain * x == -(gain * (-x)); }
  }

  // Headroom is what the faster wheel leaves of the authority.
  lemma HeadroomIs(authority: real, scaledLeft: real, scaledRight: real, h: real)
    ensures h <= Headroom(authority, scaledLeft, scaledRight) <==>
            h <= 0.0 || (h + Abs(scaledLeft) <= authority && h + Abs(scaledRight) <= authority)
  {
  }

  // ---- bias and freshness ------------------------------------------------------------------

  // A wheel's bias stands still unless adaptation is allowed and its sample is
  // connected, unsuspected and at most 200 ms old.
  lemma BiasStandsStill(cfg: Config, m: WheelMap, w: Wheel, speed: real, epoch: int, dt: real, nowUs: nat, now: uint32,
                        adaptAllowed: bool)
    requires m.accelGain != 0.0 && m.decelGain != 0.0 && cfg.fullDutyVelocity > 0.0
    ensures var w' := DriveWheel(cfg, m, w, speed, epoch, dt, nowUs, now, adaptAllowed).0;
            w'.bias != w.bias ==>
              && adaptAllowed && w.sample.connected && !w.port.reading.wedgeSuspect
              && w.sample.sampleTime <= nowUs <= w.sample.sampleTime + 200000
              && dt > 0.0 && cfg.tauAdapt > 0.0 && cfg.vMin <= Abs(speed) && Abs(w'.cmdAccel) < cfg.aSteady
  {
    hide CorrectedCommand, SmoothAccel, PositionError, FastPid, CrawlDuty, UpdateLatch, Clamp, Demand;
  }

  // And moves towards the error when it moves.
  lemma BiasLearns(cfg: Config, bias: real, err: real, aCmd: real, speed: real, isFresh: bool, dt: real)
    requires isFresh && dt > 0.0 && cfg.tauAdapt > 0.0 && cfg.biasMax > 0.0
    requires Abs(aCmd) < cfg.aSteady && cfg.vMin <= speed
    ensures HeldTo(cfg.biasMax, bias + err * dt / cfg.tauAdapt, AdaptBias(cfg, bias, err, aCmd, speed, isFresh, dt))
  {
  }

  // While authority is short (lambda under 0.95) no wheel's bias moves.
  lemma NoLearningWhileLimited(cfg: Config, l: Loop, cmd: Command, epoch: int, dt: real, nowUs: nat, now: uint32)
    requires Usable(cfg) && cfg.fullDutyVelocity > 0.0
    ensures var m := VelocityStep(cfg, l, cmd, epoch, dt, nowUs, now);
            m.lambda < 0.95 ==> m.left.bias == l.left.bias && m.right.bias == l.right.bias
  {
    hide DriveWheel, PlanTargets, UpdateLatch, Stalling, WheelsMoving;
    var t := PlanTargets(cfg, l, cmd, epoch, dt);
    var adapts := t.lambda >= LAMBDA_ADAPT_FLOOR;
    BiasStandsStill(cfg, cfg.mapLeft, l.left, t.speedLeft, epoch, dt, nowUs, now, adapts);
    BiasStandsStill(cfg, cfg.mapRight, l.right, t.speedRight, epoch, dt, nowUs, now, adapts);
  }

  // ---- the deficit latch -------------------------------------------------------------------

  ghost predicate Beyond(x: real, most: real) { x > most || x < -most }

  // At or past a limit that is set.
  ghost predicate AtLimit(x: real, most: real) { most > 0.0 && (x >= most || x <= -most) }

  // A wheel is timed as in deficit exactly while it misses its speed by more than a
  // threshold that is set, with both its bias and its PID at their limits.
  lemma DeficitIff(cfg: Config, m: WheelMap, w: Wheel, speed: real, epoch: int, dt: real, nowUs: nat, now: uint32,
                   adaptAllowed: bool)
    requires m.accelGain != 0.0 && m.decelGain != 0.0 && cfg.fullDutyVelocity > 0.0
    ensures var w' := DriveWheel(cfg, m, w, speed, epoch, dt, nowUs, now, adaptAllowed).0;
            var missed := speed - w.sample.velocity;
            var deficient := cfg.deficitThreshold > 0.0 && Beyond(missed, cfg.deficitThreshold) &&
                             AtLimit(w'.bias, cfg.biasMax) && AtLimit(w'.lastPid, cfg.pidMax);
            (w'.deficitSince, w'.deficit) == UpdateLatch(deficient, cfg.deficitWindow, now, w.deficitSince)
  {
    hide CorrectedCommand, SmoothAccel, PositionError, FastPid, CrawlDuty, AdaptBias, Clamp, Demand, UpdateLatch;
  }

  // ---- what the next cycle starts from ---------------------------------------------------

  // A velocity cycle leaves a wheel its target, for the next cycle's two directions of
  // speed change, and whether the demand before was past the rail.
  lemma WheelRemembers(cfg: Config, m: WheelMap, w: Wheel, speed: real, epoch: int, dt: real, nowUs: nat, now: uint32,
                       adaptAllowed: bool)
    requires m.accelGain != 0.0 && m.decelGain != 0.0 && cfg.fullDutyVelocity > 0.0
    ensures var w' := DriveWheel(cfg, m, w, speed, epoch, dt, nowUs, now, adaptAllowed).0;
            && w'.lastSpeed == w'.previousTarget == speed
            && (w'.sat <==> Beyond(w.demand, cfg.maxDuty * 0.01))
            && w'.sample == w.sample && w'.port == w.port && w'.written == w.written
  {
    hide CorrectedCommand, SmoothAccel, PositionError, FastPid, CrawlDuty, AdaptBias, UpdateLatch, Clamp, Demand;
  }

  // A raw-duty cycle leaves full authority and no twist reference, records what was
  // asked of each wheel, and nothing of what the law has adapted or timed moves.
  lemma RawCycleRemembers(l: Loop, rail: real, demandLeft: real, demandRight: real)
    ensures var m := RawDutyStep(l, rail, demandLeft, demandRight);
            && m.lambda == 1.0 && !m.twistRef.armed
            && m.left.demand == demandLeft && m.right.demand == demandRight
            && (m.left.sat <==> Beyond(demandLeft, rail)) && (m.right.sat <==> Beyond(demandRight, rail))
            && m.left.bias == l.left.bias && m.right.bias == l.right.bias
            && m.left.posRef == l.left.posRef && m.right.posRef == l.right.posRef
            && m.stallSince == l.stallSince && m.stallLatched == l.stallLatched && m.stallHalted == l.stallHalted
  {
    hide WheelsMoving, Clamp;
  }
}
