// The frozen millimetre-native control law (src/archive/diffdrive/golden_ref_drive.cpp),
// written from its own source: the reference half of the fidelity theorem. It has
// no rail, no lambda and no twist hold; its speed floor is a teleop affordance
// that comes after the commanded acceleration is formed.
module GoldenRef {
  import opened Law

  datatype Gains = Gains(kp: real, ki: real, iMax: real, kaff: real, pidMax: real)

  datatype Bounds = Bounds(vMin: real, biasMax: real, tauAdapt: real, aSteady: real, posErrMax: real)

  // One wheel's correction table and its duty per mm/s.
  datatype Calibration = Calibration(table: WheelMap, dutyPerSpeed: real)

  datatype RefConfig = RefConfig(gains: Gains, bounds: Bounds, left: Calibration, right: Calibration, crawlPulse: real)

  predicate Divides(m: WheelMap) { m.accelGain != 0.0 && m.decelGain != 0.0 }

  predicate Sound(c: RefConfig) { Divides(c.left.table) && Divides(c.right.table) }

  // One wheel of the shared robot state: the measurement, and the command that
  // update() publishes for tick().
  datatype StateWheel = StateWheel(
    position: real, velocity: real, connected: bool, sampleTime: uint32, positionEpoch: int, frozen: bool,
    cmdVelocity: real, cmdAccel: real)

  datatype RobotState = RobotState(left: StateWheel, right: StateWheel, cycleStart: uint32, cyclePeriod: uint32)

  datatype RefWheel = RefWheel(
    target: real, previousTarget: real, cmdAccel: real,
    lastSpeed: real, lastPid: real, bias: real, posRef: PositionRef, crawlCarry: real, written: real)

  datatype Ownership = Ownership(active: bool, deadline: uint32, moveId: uint32, completionPending: bool,
                                 completedMoveId: uint32)

  datatype RefDrive = RefDrive(left: RefWheel, right: RefWheel, own: Ownership, stopEnforceCountdown: nat)

  const FRESH_WHEEL := RefWheel(0.0, 0.0, 0.0, 0.0, 0.0, 0.0, PositionRef(0.0, 0.0, 0, false), 0.0, 0.0)

  const FRESH_DRIVE := RefDrive(FRESH_WHEEL, FRESH_WHEEL, Ownership(false, 0, 0, false, 0), 0)

  const REF_MAX_SAMPLE_AGE := 200
  const REF_REST_VELOCITY := 8.0

  const REF_SMOOTHING := 0.35
  const REF_STOP_TICKS: nat := 30

  // ---- its own arithmetic --------------------------------------------------------

  function Size(x: real): real { if x >= 0.0 then x else 0.0 - x }

  function Within(x: real, most: real): real {
    if x > most then most else if x < -most then -most else x
  }

  function Signed(magnitude: real, sign: real): real { if sign < 0.0 then 0.0 - magnitude else magnitude }

  function Part(gain: real, x: real): real { x * gain }

  function Lifted(raw: real, vMin: real, dominant: real): real
    requires dominant > 0.0
  {
    raw * (vMin / dominant)
  }

  // ---- the stages ----------------------------------------------------------------

  function Corrected(m: WheelMap, desired: real, previous: real, bias: real): real
    requires Divides(m)
  {
    if desired == 0.0 then 0.0
    else
      var magnitude :=
        if Size(desired) > Size(previous) then (Size(desired) - m.accelIntercept) / m.accelGain
        else (Size(desired) - m.decelIntercept) / m.decelGain;
      if magnitude <= 0.0 || magnitude + bias <= 0.0 then 0.0 else Signed(magnitude + bias, desired)
  }

  function Crawl(pulse: real, duty: real, carry: real): (real, real) {
    if pulse == 0.0 || Size(duty) >= pulse then (carry, duty)
    else if Size(duty) == 0.0 then (0.0, 0.0)
    else
      var filled := carry + Size(duty) / pulse;
      if filled < 1.0 then (filled, 0.0) else (filled - 1.0, Signed(pulse, duty))
  }

  // Only while a command owns the wheels.
  function Floored(b: Bounds, owns: bool, rawLeft: real, rawRight: real): (real, real) {
    var dominant := if Size(rawLeft) < Size(rawRight) then Size(rawRight) else Size(rawLeft);
    if !owns || b.vMin <= 0.0 || dominant <= 0.0 || dominant >= b.vMin then (rawLeft, rawRight)
    else (Lifted(rawLeft, b.vMin, dominant), Lifted(rawRight, b.vMin, dominant))
  }

  function Pid(g: Gains, posError: real, err: real, aCmd: real): real {
    var integral := if g.iMax > 0.0 then Within(Part(g.ki, posError), g.iMax) else 0.0;
    var pid := Part(g.kp, err) + Part(g.kaff, aCmd) + integral;
    if g.pidMax > 0.0 then Within(pid, g.pidMax) else pid
  }

  function Position(b: Bounds, speed: real, wheel: StateWheel, ref: PositionRef, dt: real): (PositionRef, real) {
    if speed == 0.0 || dt <= 0.0 || !wheel.connected || wheel.positionEpoch != ref.epoch || !ref.armed then
      (PositionRef(0.0, wheel.position, wheel.positionEpoch, speed != 0.0 && wheel.connected), 0.0)
    else
      var ref' := ref.(reference := ref.reference + speed * dt);
      var error := ref'.reference - (wheel.position - ref'.origin);
      (ref', if b.posErrMax > 0.0 then Within(error, b.posErrMax) else error)
  }

  function Adapted(b: Bounds, bias: real, err: real, aCmd: real, vCmdMagnitude: real, isFresh: bool, dt: real): real {
    if b.tauAdapt <= 0.0 || dt <= 0.0 || !isFresh then bias
    else if Size(aCmd) >= b.aSteady || vCmdMagnitude < b.vMin then bias
    else if b.biasMax > 0.0 then Within(bias + err * dt / b.tauAdapt, b.biasMax)
    else 0.0
  }

  function SampleAge(now: uint32, sampleTime: uint32): uint32 {
    if now < sampleTime then 0 else now - sampleTime
  }

  function IsFresh(wheel: StateWheel, cycleStart: uint32): bool {
    wheel.connected && !wheel.frozen && SampleAge(cycleStart, wheel.sampleTime) <= REF_MAX_SAMPLE_AGE
  }

  // ---- command, update, tick --------------------------------------------------------

  function CommandSpec(d: RefDrive, vLeft: real, vRight: real, duration: uint32, moveId: uint32,
                       now: uint32): RefDrive {
    d.(left := d.left.(target := vLeft), right := d.right.(target := vRight),
       own := d.own.(active := true, deadline := (now + duration) % RANGE, moveId := moveId))
  }

  function Expired(own: Ownership, now: uint32): bool {
    own.active && Signed32(Sub32(now, own.deadline)) >= 0
  }

  function Expire(d: RefDrive, now: uint32): RefDrive {
    if !Expired(d.own, now) then d
    else d.(left := d.left.(target := 0.0), right := d.right.(target := 0.0),
            own := d.own.(active := false, completionPending := true, completedMoveId := d.own.moveId))
  }

  function Accelerate(w: RefWheel, dt: real): RefWheel {
    w.(cmdAccel := if dt > 0.0
                   then w.cmdAccel + REF_SMOOTHING * ((w.target - w.previousTarget) / dt - w.cmdAccel)
                   else w.cmdAccel,
       previousTarget := w.target)
  }

  function Commanded(seen: StateWheel, w: RefWheel): StateWheel {
    seen.(cmdVelocity := w.target, cmdAccel := w.cmdAccel)
  }

  function Period(st: RobotState): real { st.cyclePeriod as real / 1000000.0 }

  function UpdateSpec(d: RefDrive, st: RobotState, now: uint32): (RefDrive, RobotState) {
    var e := Expire(d, now);
    if !d.own.active then (e, st)
    else
      var left, right := Accelerate(e.left, Period(st)), Accelerate(e.right, Period(st));
      (e.(left := left, right := right), st.(left := Commanded(st.left, left), right := Commanded(st.right, right)))
  }

  function Asked(cal: Calibration, corrected: real, pid: real): real { (corrected + pid) * cal.dutyPerSpeed }

  // One wheel's half of tick(): the wheel after it and the duty it computes.
  function TickWheel(c: RefConfig, cal: Calibration, w: RefWheel, seen: StateWheel, speed: real, cycleStart: uint32,
                     dt: real)
    : (RefWheel, real)
    requires Divides(cal.table)
  {
    var corrected := Corrected(cal.table, speed, w.lastSpeed, w.bias);
    var err := speed - seen.velocity;
    var (posRef, posError) := Position(c.bounds, speed, seen, w.posRef, dt);
    var pid := if speed == 0.0 then 0.0 else Pid(c.gains, posError, err, seen.cmdAccel);
    var (carry, duty) := Crawl(c.crawlPulse, Asked(cal, corrected, pid), w.crawlCarry);
    var bias := Adapted(c.bounds, w.bias, err, seen.cmdAccel, Size(speed), IsFresh(seen, cycleStart), dt);
    (w.(lastSpeed := speed, lastPid := pid, posRef := posRef, crawlCarry := carry, bias := bias), duty)
  }

  function Calibrated(c: RefConfig): bool { c.left.dutyPerSpeed != 0.0 && c.right.dutyPerSpeed != 0.0 }

  // Both wheels, before the write gate.
  function TickBoth(c: RefConfig, d: RefDrive, st: RobotState): (RefDrive, real, real)
    requires Sound(c)
  {
    var (speedLeft, speedRight) := Floored(c.bounds, d.own.active, st.left.cmdVelocity, st.right.cmdVelocity);
    var (left, dutyLeft) := TickWheel(c, c.left, d.left, st.left, speedLeft, st.cycleStart, Period(st));
    var (right, dutyRight) := TickWheel(c, c.right, d.right, st.right, speedRight, st.cycleStart, Period(st));
    (d.(left := left, right := right), dutyLeft, dutyRight)
  }

  function WriteGate(d: RefDrive, dutyLeft: real, dutyRight: real, motorLeft: real, motorRight: real): RefDrive {
    var enforce := d.stopEnforceCountdown > 0 || Size(motorLeft) > REF_REST_VELOCITY ||
      Size(motorRight) > REF_REST_VELOCITY;
    var ticked := if d.stopEnforceCountdown > 0 then d.stopEnforceCountdown - 1 else 0;
    var stop := dutyLeft == 0.0 && dutyRight == 0.0;
    var quiet := stop && d.left.written == 0.0 && d.right.written == 0.0;
    var d := d.(stopEnforceCountdown := if stop && !quiet then REF_STOP_TICKS else ticked);
    if quiet && !enforce then d
    else d.(left := d.left.(written := dutyLeft), right := d.right.(written := dutyRight))
  }

  function TickSpec(c: RefConfig, d: RefDrive, st: RobotState, motorLeft: real, motorRight: real): RefDrive
    requires Sound(c)
  {
    if !Calibrated(c) then d
    else
      var (d', dutyLeft, dutyRight) := TickBoth(c, d, st);
      WriteGate(d', dutyLeft, dutyRight, motorLeft, motorRight)
  }

  // ---- the class ---------------------------------------------------------------------

  class ReferenceDrive {
    const config: RefConfig
    var left: RefWheel
    var right: RefWheel
    var commandActive: bool
    var commandDeadline: uint32
    var commandMoveId: uint32
    var completionPending: bool
    var completedMoveId: uint32
    var stopEnforceCountdown: nat

    ghost function View(): RefDrive
      reads this
    {
      RefDrive(left, right,
               Ownership(commandActive, commandDeadline, commandMoveId, completionPending, completedMoveId),
               stopEnforceCountdown)
    }

    constructor (config: RefConfig)
      ensures View() == FRESH_DRIVE && this.config == config
    {
      this.config := config;
      left, right := FRESH_WHEEL, FRESH_WHEEL;
      commandActive, commandDeadline, commandMoveId := false, 0, 0;
      completionPending, completedMoveId := false, 0;
      stopEnforceCountdown := 0;
    }

    method Command(vLeft: real, vRight: real, duration: uint32, moveId: uint32, now: uint32)
      modifies this
      ensures View() == CommandSpec(old(View()), vLeft, vRight, duration, moveId, now)
    {
      left := left.(target := vLeft);
      right := right.(target := vRight);
      commandDeadline := (now + duration) % RANGE;
      commandMoveId := moveId;
      commandActive := true;
    }

    method Update(st: RobotState, now: uint32) returns (st': RobotState)
      modifies this
      ensures (View(), st') == UpdateSpec(old(View()), st, now)
    {
      hide Accelerate;
      var owned := commandActive;
      if commandActive && Signed32(Sub32(now, commandDeadline)) >= 0 {
        commandActive := false;
        left := left.(target := 0.0);
        right := right.(target := 0.0);
        completionPending := true;
        completedMoveId := commandMoveId;
      }
      if !owned { return st; }
      left := Accelerate(left, Period(st));
      right := Accelerate(right, Period(st));
      st' := st.(left := Commanded(st.left, left), right := Commanded(st.right, right));
    }

    method Tick(st: RobotState, motorLeft: real, motorRight: real)
      requires Sound(config)
      modifies this
      ensures View() == TickSpec(config, old(View()), st, motorLeft, motorRight)
    {
      hide TickWheel, Floored;
      if !Calibrated(config) { return; }
      var speeds := Floored(config.bounds, commandActive, st.left.cmdVelocity, st.right.cmdVelocity);
      var driveLeft := TickWheel(config, config.left, left, st.left, speeds.0, st.cycleStart, Period(st));
      var driveRight := TickWheel(config, config.right, right, st.right, speeds.1, st.cycleStart, Period(st));
      left, right := driveLeft.0, driveRight.0;
      var dutyLeft, dutyRight := driveLeft.1, driveRight.1;

      var wheelsMoving := Size(motorLeft) > REF_REST_VELOCITY || Size(motorRight) > REF_REST_VELOCITY;
      var enforceStop := stopEnforceCountdown > 0 || wheelsMoving;
      if stopEnforceCountdown > 0 { stopEnforceCountdown := stopEnforceCountdown - 1; }
      var commandedStop := dutyLeft == 0.0 && dutyRight == 0.0;
      var alreadyQuiet := commandedStop && left.written == 0.0 && right.written == 0.0;
      if commandedStop && !alreadyQuiet { stopEnforceCountdown := REF_STOP_TICKS; }
      if alreadyQuiet && !enforceStop { return; }
      left := left.(written := dutyLeft);
      right := right.(written := dutyRight);
    }
  }
}
