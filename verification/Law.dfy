// The wheel control law of src/diffdrive/differential_drive.cpp, stage by
// stage, over the reals. A C++ reference argument becomes a returned value.
module Law {
  type uint32 = n: int | 0 <= n < 0x1_0000_0000 witness 0
  const RANGE: int := 0x1_0000_0000

  function Sub32(a: uint32, b: uint32): uint32 { (a - b) % RANGE }

  function Next32(a: uint32): uint32 { (a + 1) % RANGE }

  // static_cast<int32_t>
  function Signed32(a: uint32): int { if a < RANGE / 2 then a else a - RANGE }

  function Abs(x: real): real { if x < 0.0 then -x else x }

  function Max(a: real, b: real): real { if a < b then b else a }

  function Min(a: real, b: real): real { if b < a then b else a }

  // Only ever applied to a magnitude that is not negative.
  function CopySign(magnitude: real, sign: real): real { if sign < 0.0 then -magnitude else magnitude }

  function Clamp(v: real, lo: real, hi: real): real {
    if v < lo then lo else if v > hi then hi else v
  }

  // ---- the configuration and the per-wheel memories -------------------------

  // Stage A correction of one wheel, per direction of speed change.
  datatype WheelMap = WheelMap(accelGain: real, accelIntercept: real, decelGain: real, decelIntercept: real)

  datatype Config = Config(
    maxDuty: real, fullDutyVelocity: real,
    kp: real, ki: real, iMax: real, kaff: real, pidMax: real,
    twistHoldGain: real,
    mapLeft: WheelMap, mapRight: WheelMap,
    vMin: real, posErrMax: real, biasMax: real, tauAdapt: real, aSteady: real,
    deficitThreshold: real, deficitWindow: real,
    stallSpeed: real, stallDemand: real, stallWindow: real,
    lambdaEnabled: bool, crawlPulse: real, cyclePeriod: uint32)

  // Over the reals a wheel map needs gains to divide by; a negative rail would
  // turn the clamp inside out.
  predicate Usable(cfg: Config) {
    && cfg.maxDuty >= 0.0
    && cfg.mapLeft.accelGain != 0.0 && cfg.mapLeft.decelGain != 0.0
    && cfg.mapRight.accelGain != 0.0 && cfg.mapRight.decelGain != 0.0
  }

  datatype WheelSample = WheelSample(position: real, velocity: real, sampleTime: nat, connected: bool,
                                     everSampled: bool)

  datatype PositionRef = PositionRef(reference: real, origin: real, epoch: int, armed: bool)

  datatype TwistRef = TwistRef(reference: real, originLeft: real, originRight: real, epoch: int, armed: bool)

  const REST_VELOCITY := 100.0
  const MAX_SAMPLE_AGE := 200000
  const UINT64_RANGE: int := 0x1_0000_0000_0000_0000
  const ACCEL_SMOOTHING := 0.35
  const LAMBDA_RELEASE_TAU := 0.3
  const LAMBDA_ADAPT_FLOOR := 0.95
  const STOP_ENFORCE_TICKS: nat := 30
  const LEASE_MAX: uint32 := 3600000

  // ---- the ported stages ----------------------------------------------------

  function CorrectedCommand(m: WheelMap, desired: real, previous: real, bias: real): real
    requires m.accelGain != 0.0 && m.decelGain != 0.0
  {
    if desired == 0.0 then 0.0
    else
      var speedingUp := Abs(desired) > Abs(previous);
      var magnitude :=
        if speedingUp then (Abs(desired) - m.accelIntercept) / m.accelGain
        else (Abs(desired) - m.decelIntercept) / m.decelGain;
      if magnitude <= 0.0 then 0.0
      else if magnitude + bias <= 0.0 then 0.0
      else CopySign(magnitude + bias, desired)
  }

  function Gained(gain: real, x: real): real { gain * x }

  function FastPid(cfg: Config, posError: real, err: real, aCmd: real): real {
    var integral := if cfg.iMax > 0.0 then Clamp(Gained(cfg.ki, posError), -cfg.iMax, cfg.iMax) else 0.0;
    var pid := Gained(cfg.kp, err) + Gained(cfg.kaff, aCmd) + integral;
    if cfg.pidMax > 0.0 then Clamp(pid, -cfg.pidMax, cfg.pidMax) else pid
  }

  function PositionError(cfg: Config, speed: real, wheel: WheelSample, ref: PositionRef, epoch: int, dt: real)
    : (PositionRef, real)
  {
    if speed == 0.0 || dt <= 0.0 || !wheel.connected || ref.epoch != epoch || !ref.armed then
      (PositionRef(0.0, wheel.position, epoch, speed != 0.0 && wheel.connected), 0.0)
    else
      var ref' := ref.(reference := ref.reference + speed * dt);
      var error := ref'.reference - (wheel.position - ref'.origin);
      (ref', if cfg.posErrMax > 0.0 then Clamp(error, -cfg.posErrMax, cfg.posErrMax) else error)
  }

  function AdaptBias(cfg: Config, bias: real, err: real, aCmd: real, vCmdMagnitude: real, isFresh: bool,
                     dt: real): real {
    if cfg.tauAdapt <= 0.0 || dt <= 0.0 || !isFresh then bias
    else if Abs(aCmd) >= cfg.aSteady then bias
    else if vCmdMagnitude < cfg.vMin then bias
    else if cfg.biasMax > 0.0 then Clamp(bias + err * dt / cfg.tauAdapt, -cfg.biasMax, cfg.biasMax)
    else 0.0
  }

  // Duty asked of one wheel, before the rail.
  function Demand(cfg: Config, corrected: real, pid: real): real
    requires cfg.fullDutyVelocity > 0.0
  {
    (corrected + pid) * (1.0 / cfg.fullDutyVelocity)
  }

  // Returns the new carry and the duty to emit.
  function CrawlDuty(pulse: real, duty: real, carry: real): (real, real) {
    if pulse == 0.0 || Abs(duty) >= pulse then (carry, duty)
    else if Abs(duty) == 0.0 then (0.0, 0.0)
    else
      var filled := carry + Abs(duty) / pulse;
      if filled < 1.0 then (filled, 0.0) else (filled - 1.0, CopySign(pulse, duty))
  }

  function Boosted(vMin: real, dominant: real, raw: real): real
    requires dominant > 0.0
  {
    raw * (vMin / dominant)
  }

  function ApplySpeedFloor(vMin: real, rawLeft: real, rawRight: real): (real, real) {
    var dominant := Max(Abs(rawLeft), Abs(rawRight));
    if vMin <= 0.0 || dominant <= 0.0 || dominant >= vMin then (rawLeft, rawRight)
    else (Boosted(vMin, dominant, rawLeft), Boosted(vMin, dominant, rawRight))
  }

  // Returns `since` and `latched`.
  function UpdateLatch(condition: bool, window: real, now: uint32, since: uint32): (uint32, bool) {
    if window <= 0.0 || !condition then (0, false)
    else
      var start := if since == 0 then now else since;
      (start, Sub32(now, start) >= window.Floor)
  }

  function SmoothAccel(cmdAccel: real, speed: real, previousTarget: real, dt: real): real {
    if dt > 0.0
    then cmdAccel + ACCEL_SMOOTHING * ((speed - previousTarget) / dt - cmdAccel)
    else cmdAccel
  }

  // A velocity over the genuine interval between successful collects.
  function RefreshSample(s: WheelSample, position: real, connected: bool, sampleTime: nat): WheelSample {
    var s := s.(connected := connected);
    if !s.everSampled then
      if sampleTime != 0 then s.(everSampled := true, sampleTime := sampleTime, position := position) else s
    else if sampleTime != s.sampleTime then
      var interval := ((sampleTime - s.sampleTime) % UINT64_RANGE) as real / 1000000.0;
      s.(velocity := if interval > 0.0 then (position - s.position) / interval else s.velocity,
         sampleTime := sampleTime, position := position)
    else s
  }

  // ---- authority ------------------------------------------------------------

  // This cycle's instantaneous authority ratio, from last cycle's demands.
  function InstantAuthority(rail: real, demandLeft: real, demandRight: real): real
    requires rail >= 0.0
  {
    var fromLeft := if Abs(demandLeft) > rail then Min(1.0, rail / Abs(demandLeft)) else 1.0;
    if Abs(demandRight) > rail then Min(fromLeft, rail / Abs(demandRight)) else fromLeft
  }

  function NextLambda(cfg: Config, rail: real, ratio: real, demandLeft: real, demandRight: real, dt: real): real
    requires rail >= 0.0
  {
    if !cfg.lambdaEnabled then 1.0
    else
      var instant := InstantAuthority(rail, demandLeft, demandRight);
      var next :=
        if instant < ratio then instant
        else if dt > 0.0 then ratio + (instant - ratio) * Min(1.0, dt / LAMBDA_RELEASE_TAU)
        else ratio;
      Clamp(next, 0.0, 1.0)
  }

  function TwistCorrection(gain: real, ref: TwistRef, left: WheelSample, right: WheelSample): real {
    var measured := 0.5 * ((right.position - ref.originRight) - (left.position - ref.originLeft));
    gain * (ref.reference - measured)
  }

  // What the faster wheel leaves of the authority.
  function Headroom(authority: real, scaledLeft: real, scaledRight: real): real {
    Max(0.0, authority - Max(Abs(scaledLeft), Abs(scaledRight)))
  }

  // Returns the twist reference and the trim.
  function HoldTwist(cfg: Config, rail: real, ref: TwistRef, left: WheelSample, right: WheelSample, epoch: int,
                     scaledLeft: real, scaledRight: real, scaledTwist: real, dt: real): (TwistRef, real)
  {
    if cfg.twistHoldGain > 0.0 && left.connected && right.connected then
      var anchored := if !ref.armed || ref.epoch != epoch
                      then TwistRef(0.0, left.position, right.position, epoch, true) else ref;
      var ref' := if dt > 0.0 then anchored.(reference := anchored.reference + scaledTwist * dt) else anchored;
      var headroom := Headroom(rail * cfg.fullDutyVelocity, scaledLeft, scaledRight);
      (ref', Clamp(TwistCorrection(cfg.twistHoldGain, ref', left, right), -headroom, headroom))
    else (ref.(armed := false), 0.0)
  }
}
