// One cycle of the wheel kernel (src/diffdrive/differential_drive.cpp, step())
// as a function of its state and of what the ports report. The class in Drive
// is proved to compute exactly this.
module KernelCycle {
  import opened Law

  datatype Mode = Neutral | Velocity | RawDuty

  datatype Command = Command(mode: Mode, velocity: real, twist: real, dutyLeft: real, dutyRight: real,
                             validUntil: uint32)

  const NEUTRAL := Command(Neutral, 0.0, 0.0, 0.0, 0.0, 0)

  datatype Status = Ok | RefusedUnconfigured | RefusedNotBegun | RefusedEstopped | CadencePreserved

  // What the callers' fiber writes: the staged config, the command mailbox,
  // the estop latch and the one-shot request counters.
  datatype Front = Front(
    begun: bool, estop: bool,
    staged: Config, cfgSeq: uint32,
    command: Command, cmdSeq: uint32,
    clearStallReq: uint32, rebaseReq: uint32,
    lastError: Status)

  // What a motor port reports after its last tick.
  datatype Reading = Reading(position: real, velocity: real, appliedDuty: real, connected: bool,
                             sampleTime: nat, wedged: bool, wedgeSuspect: bool)

  // A motor port: the duty staged on it, how often one was staged, its reading.
  datatype Port = Port(duty: real, writes: nat, reading: Reading)

  datatype Wheel = Wheel(
    port: Port, sample: WheelSample, posRef: PositionRef, bias: real,
    lastSpeed: real, lastPid: real, crawlCarry: real,
    previousTarget: real, cmdAccel: real,
    sat: bool, demand: real,
    deficitSince: uint32, deficit: bool,
    written: real)

  datatype Output = Output(
    now: uint32, cycleCount: uint32, cyclePeriodMeasured: uint32,
    positionLeft: real, positionRight: real, velocityLeft: real, velocityRight: real,
    velocity: real, twist: real, appliedDutyLeft: real, appliedDutyRight: real,
    lambda: real, biasLeft: real, biasRight: real,
    ready: bool, estopped: bool, leaseExpired: bool, stallHalted: bool,
    wedgeLeft: bool, wedgeRight: bool, connectedLeft: bool, connectedRight: bool,
    leaseExpiryCount: uint32, i2cFaultCount: uint32)

  // What a control step reads and writes.
  datatype Loop = Loop(
    left: Wheel, right: Wheel, twistRef: TwistRef, lambda: real,
    stallHalted: bool, stallSince: uint32, stallLatched: bool,
    stopEnforceCountdown: nat)

  datatype Clock = Clock(previousCycleStart: nat, everCycled: bool, cycleCount: uint32)

  // The kernel's side of the one-shot requests, and what a rebase advances.
  datatype Requests = Requests(seenClearStallReq: uint32, seenRebaseReq: uint32,
                               epoch: int, positionEpochLeft: uint32, positionEpochRight: uint32)

  datatype Gates = Gates(wasForcedStop: bool, leaseWasLive: bool, leaseExpiryCount: uint32)

  datatype Kernel = Kernel(
    front: Front,
    active: Config, activeCfgSeq: uint32,
    clock: Clock, requests: Requests, gates: Gates, loop: Loop,
    i2cFaultCount: uint32, out: Output, outSeq: uint32)

  const NO_SAMPLE := WheelSample(0.0, 0.0, 0, false, false)
  const NO_POSITION_REF := PositionRef(0.0, 0.0, 0, false)
  const NO_TWIST_REF := TwistRef(0.0, 0.0, 0.0, 0, false)

  // Fail-closed: a default configuration refuses both modes.
  const DEFAULT_CONFIG := Config(
    0.0, 0.0, 0.0, 0.0, 0.0, 0.0, 0.0, 0.0,
    WheelMap(1.0, 0.0, 1.0, 0.0), WheelMap(1.0, 0.0, 1.0, 0.0),
    0.0, 0.0, 0.0, 0.0, 0.0, 0.0, 0.0, 0.0, 0.0, 0.0, false, 0.0, 24)

  const DEFAULT_OUTPUT := Output(
    0, 0, 0, 0.0, 0.0, 0.0, 0.0, 0.0, 0.0, 0.0, 0.0, 1.0, 0.0, 0.0,
    false, false, false, false, false, false, false, false, 0, 0)

  function FreshWheel(port: Port): Wheel {
    Wheel(port, NO_SAMPLE, NO_POSITION_REF, 0.0, 0.0, 0.0, 0.0, 0.0, 0.0, false, 0.0, 0, false, 0.0)
  }

  function FreshKernel(left: Port, right: Port): Kernel {
    Kernel(Front(false, false, DEFAULT_CONFIG, 0, NEUTRAL, 0, 0, 0, Ok), DEFAULT_CONFIG, 0,
           Clock(0, false, 0), Requests(0, 0, 0, 0, 0), Gates(false, false, 0),
           Loop(FreshWheel(left), FreshWheel(right), NO_TWIST_REF, 1.0, false, 0, false, 0),
           0, DEFAULT_OUTPUT, 0)
  }

  // [us] -> [ms], truncated to 32 bits
  function Millis(us: nat): uint32 { (us / 1000) % RANGE }

  // ---- commands (callers' fiber) --------------------------------------------

  function CheckCommandable(f: Front, needsVelocityCalibration: bool): Status {
    if !f.begun then RefusedNotBegun
    else if f.estop then RefusedEstopped
    else if f.staged.maxDuty <= 0.0 then RefusedUnconfigured
    else if needsVelocityCalibration && f.staged.fullDutyVelocity <= 0.0 then RefusedUnconfigured
    else Ok
  }

  // The first refusal sticks.
  function NoteRefusal(f: Front, status: Status): Front {
    if f.lastError == Ok then f.(lastError := status) else f
  }

  function ValidUntil(nowUs: nat, lease: uint32): uint32 {
    (Millis(nowUs) + if lease > LEASE_MAX then LEASE_MAX else lease) % RANGE
  }

  function Post(f: Front, c: Command): Front {
    f.(command := c, cmdSeq := Next32(f.cmdSeq))
  }

  function DriveSpec(f: Front, nowUs: nat, velocity: real, twist: real, lease: uint32): (Front, Status) {
    var gate := CheckCommandable(f, true);
    if gate != Ok then (NoteRefusal(f, gate), gate)
    else (Post(f, Command(Velocity, velocity, twist, 0.0, 0.0, ValidUntil(nowUs, lease))), Ok)
  }

  function DriveDutySpec(f: Front, nowUs: nat, dutyLeft: real, dutyRight: real, lease: uint32): (Front, Status) {
    var gate := CheckCommandable(f, false);
    if gate != Ok then (NoteRefusal(f, gate), gate)
    else (Post(f, Command(RawDuty, 0.0, 0.0, dutyLeft, dutyRight, ValidUntil(nowUs, lease))), Ok)
  }

  function NeutralSpec(f: Front): Front { Post(f, NEUTRAL) }

  function StageConfig(f: Front, staged: Config): Front {
    f.(staged := staged, cfgSeq := Next32(f.cfgSeq))
  }

  function SetCyclePeriodSpec(f: Front, period: uint32): Front {
    if f.begun then NoteRefusal(f, CadencePreserved) else StageConfig(f, f.staged.(cyclePeriod := period))
  }

  // Cadence is frozen by begin(): every other field of the block applies.
  function SetConfigSpec(f: Front, config: Config): (Front, Status) {
    var frozen := f.begun && config.cyclePeriod != f.staged.cyclePeriod;
    var staged := if frozen then config.(cyclePeriod := f.staged.cyclePeriod) else config;
    var f := StageConfig(f, staged);
    if frozen then (NoteRefusal(f, CadencePreserved), CadencePreserved) else (f, Ok)
  }

  function BeginSpec(f: Front): (Front, Status) {
    var f := f.(begun := true);
    if f.staged.maxDuty <= 0.0 then (NoteRefusal(f, RefusedUnconfigured), RefusedUnconfigured) else (f, Ok)
  }

  function Idled(w: Wheel): Wheel { w.(port := w.port.(duty := 0.0)) }

  // ---- the cycle: timing, config snapshot, one-shot requests -----------------

  function MeasuredPeriod(c: Clock, cycleStart: nat): uint32 {
    if c.everCycled then (cycleStart - c.previousCycleStart) % RANGE else 0
  }

  // [us] -> [s]
  function Seconds(us: uint32): real { us as real / 1000000.0 }

  function SnapshotConfig(k: Kernel): Kernel {
    if k.front.cfgSeq == k.activeCfgSeq then k
    else k.(active := k.front.staged, activeCfgSeq := k.front.cfgSeq)
  }

  function TakeClearStall(k: Kernel): Kernel {
    if k.front.clearStallReq == k.requests.seenClearStallReq then k
    else k.(requests := k.requests.(seenClearStallReq := k.front.clearStallReq),
            loop := k.loop.(stallHalted := false, stallLatched := false, stallSince := 0))
  }

  function Rebased(r: Requests, req: uint32): Requests {
    Requests(r.seenClearStallReq, req, (r.epoch + 1) % 256, Next32(r.positionEpochLeft), Next32(r.positionEpochRight))
  }

  function TakeRebase(k: Kernel): Kernel {
    if k.front.rebaseReq == k.requests.seenRebaseReq then k
    else k.(requests := Rebased(k.requests, k.front.rebaseReq),
            loop := k.loop.(left := Rebaselined(k.loop.left), right := Rebaselined(k.loop.right)))
  }

  function StartCycle(c: Clock, cycleStart: nat): Clock {
    Clock(cycleStart, true, Next32(c.cycleCount))
  }

  function TakeRequests(k: Kernel, cycleStart: nat): Kernel {
    TakeRebase(TakeClearStall(SnapshotConfig(k.(clock := StartCycle(k.clock, cycleStart)))))
  }

  function Rebaselined(w: Wheel): Wheel {
    w.(sample := NO_SAMPLE, port := w.port.(reading := w.port.reading.(position := 0.0)))
  }

  // ---- the cycle: safety gates -----------------------------------------------

  function LeaseLive(cmd: Command, now: uint32): bool {
    cmd.mode != Neutral && Signed32(Sub32(cmd.validUntil, now)) > 0
  }

  function LeaseExpired(cmd: Command, now: uint32): bool {
    cmd.mode != Neutral && !LeaseLive(cmd, now)
  }

  function EffectiveMode(cmd: Command, halted: bool, calibrated: bool, now: uint32): Mode {
    if LeaseExpired(cmd, now) || halted then Neutral
    else if cmd.mode == Velocity && !calibrated then Neutral
    else cmd.mode
  }

  function ResetWheel(w: Wheel): Wheel {
    w.(posRef := NO_POSITION_REF, bias := 0.0, deficitSince := 0, deficit := false, crawlCarry := 0.0, lastPid := 0.0)
  }

  function ResetAdaptiveState(l: Loop): Loop {
    l.(left := ResetWheel(l.left), right := ResetWheel(l.right), twistRef := NO_TWIST_REF,
       stallSince := 0, stallLatched := false, stopEnforceCountdown := STOP_ENFORCE_TICKS)
  }

  function NextGates(g: Gates, cmd: Command, halted: bool, now: uint32): Gates {
    Gates(halted, LeaseLive(cmd, now),
          if g.leaseWasLive && LeaseExpired(cmd, now) then Next32(g.leaseExpiryCount) else g.leaseExpiryCount)
  }

  // Entering a forced stop forgets everything the law has adapted.
  function EnterHalt(g: Gates, l: Loop, halted: bool): Loop {
    if halted && !g.wasForcedStop then ResetAdaptiveState(l) else l
  }

  // ---- the cycle: the write gate ---------------------------------------------

  function WheelsMoving(l: Loop): bool {
    Abs(l.left.port.reading.velocity) > REST_VELOCITY || Abs(l.right.port.reading.velocity) > REST_VELOCITY
  }

  function Write(w: Wheel, duty: real): Wheel {
    w.(written := duty, port := w.port.(duty := duty, writes := w.port.writes + 1))
  }

  function StageDuty(l: Loop, dutyLeft: real, dutyRight: real): Loop {
    var enforce := l.stopEnforceCountdown > 0 || WheelsMoving(l);
    var ticked := if l.stopEnforceCountdown > 0 then l.stopEnforceCountdown - 1 else 0;
    var stop := dutyLeft == 0.0 && dutyRight == 0.0;
    var quiet := stop && l.left.written == 0.0 && l.right.written == 0.0;
    var l := l.(stopEnforceCountdown := if stop && !quiet then STOP_ENFORCE_TICKS else ticked);
    if quiet && !enforce then l
    else l.(left := Write(l.left, dutyLeft), right := Write(l.right, dutyRight))
  }

  // ---- the cycle: the control step -------------------------------------------

  function NeutralWheel(w: Wheel): Wheel {
    w.(demand := 0.0, sat := false, lastSpeed := 0.0, previousTarget := 0.0, cmdAccel := 0.0, lastPid := 0.0,
       deficitSince := 0, deficit := false, posRef := w.posRef.(armed := false))
  }

  function NeutralStep(l: Loop): Loop {
    StageDuty(l.(left := NeutralWheel(l.left), right := NeutralWheel(l.right),
                 lambda := 1.0, twistRef := l.twistRef.(armed := false),
                 stallSince := 0, stallLatched := false),
              0.0, 0.0)
  }

  function RawWheel(w: Wheel, demand: real, rail: real): Wheel {
    w.(demand := demand, sat := Abs(demand) > rail)
  }

  function RawDutyStep(l: Loop, rail: real, demandLeft: real, demandRight: real): Loop {
    StageDuty(l.(left := RawWheel(l.left, demandLeft, rail), right := RawWheel(l.right, demandRight, rail),
                 lambda := 1.0, twistRef := l.twistRef.(armed := false)),
              Clamp(demandLeft, -rail, rail), Clamp(demandRight, -rail, rail))
  }

  function Scale(ratio: real, v: real): real { ratio * v }

  // The two wheels' speeds after authority scaling, twist hold and the floor.
  datatype Targets = Targets(lambda: real, twistRef: TwistRef, speedLeft: real, speedRight: real)

  function PlanTargets(cfg: Config, l: Loop, cmd: Command, epoch: int, dt: real): Targets
    requires Usable(cfg)
  {
    var rail := cfg.maxDuty * 0.01;
    var ratio := NextLambda(cfg, rail, l.lambda, l.left.demand, l.right.demand, dt);
    var scaledLeft, scaledRight := Scale(ratio, cmd.velocity - cmd.twist), Scale(ratio, cmd.velocity + cmd.twist);
    var (twistRef, trim) := HoldTwist(cfg, rail, l.twistRef, l.left.sample, l.right.sample, epoch,
                                      scaledLeft, scaledRight, Scale(ratio, cmd.twist), dt);
    var (speedLeft, speedRight) := ApplySpeedFloor(cfg.vMin, scaledLeft - trim, scaledRight + trim);
    Targets(ratio, twistRef, speedLeft, speedRight)
  }

  // Everything one wheel does with its target speed. `nowUs` is this cycle's
  // start. Returns the wheel and the duty to stage on it.
  function DriveWheel(cfg: Config, m: WheelMap, w: Wheel, speed: real, epoch: int, dt: real,
                      nowUs: nat, now: uint32, adaptAllowed: bool): (Wheel, real)
    requires m.accelGain != 0.0 && m.decelGain != 0.0 && cfg.fullDutyVelocity > 0.0
  {
    var rail := cfg.maxDuty * 0.01;
    var corrected := CorrectedCommand(m, speed, w.lastSpeed, w.bias);
    var cmdAccel := SmoothAccel(w.cmdAccel, speed, w.previousTarget, dt);
    var isFresh := w.sample.connected && !w.port.reading.wedgeSuspect &&
                   0 <= nowUs - w.sample.sampleTime <= MAX_SAMPLE_AGE;
    var err := speed - w.sample.velocity;
    var (posRef, posError) := PositionError(cfg, speed, w.sample, w.posRef, epoch, dt);
    var pid := if speed == 0.0 then 0.0 else FastPid(cfg, posError, err, cmdAccel);
    var demand := Demand(cfg, corrected, pid);
    var (carry, duty) := CrawlDuty(cfg.crawlPulse, Clamp(demand, -rail, rail), w.crawlCarry);
    var bias := AdaptBias(cfg, w.bias, err, cmdAccel, Abs(speed), isFresh && adaptAllowed, dt);
    var deficient := cfg.deficitThreshold > 0.0 && Abs(err) > cfg.deficitThreshold &&
                     cfg.biasMax > 0.0 && Abs(bias) >= cfg.biasMax &&
                     cfg.pidMax > 0.0 && Abs(pid) >= cfg.pidMax;
    var (deficitSince, deficit) := UpdateLatch(deficient, cfg.deficitWindow, now, w.deficitSince);
    (w.(posRef := posRef, bias := bias, lastSpeed := speed, lastPid := pid, crawlCarry := carry,
        previousTarget := speed, cmdAccel := cmdAccel, sat := Abs(w.demand) > rail, demand := demand,
        deficitSince := deficitSince, deficit := deficit),
     duty)
  }

  // Asked to move, and both encoders standing still.
  function Stalling(cfg: Config, cmd: Command, left: WheelSample, right: WheelSample): bool {
    && cfg.stallDemand > 0.0
    && (Abs(cmd.velocity - cmd.twist) > cfg.stallDemand || Abs(cmd.velocity + cmd.twist) > cfg.stallDemand)
    && Abs(left.velocity) <= cfg.stallSpeed && Abs(right.velocity) <= cfg.stallSpeed
    && left.connected && right.connected
  }

  function VelocityStep(cfg: Config, l: Loop, cmd: Command, epoch: int, dt: real, nowUs: nat, now: uint32): Loop
    requires Usable(cfg) && cfg.fullDutyVelocity > 0.0
  {
    var t := PlanTargets(cfg, l, cmd, epoch, dt);
    var adaptAllowed := t.lambda >= LAMBDA_ADAPT_FLOOR;
    var (left, dutyLeft) := DriveWheel(cfg, cfg.mapLeft, l.left, t.speedLeft, epoch, dt, nowUs, now, adaptAllowed);
    var (right, dutyRight) := DriveWheel(cfg, cfg.mapRight, l.right, t.speedRight, epoch, dt, nowUs, now, adaptAllowed);
    var (since, latched) :=
      UpdateLatch(Stalling(cfg, cmd, l.left.sample, l.right.sample), cfg.stallWindow, now, l.stallSince);
    StageDuty(Loop(left, right, t.twistRef, t.lambda, l.stallHalted || latched, since, latched, l.stopEnforceCountdown),
              dutyLeft, dutyRight)
  }

  function ControlStep(cfg: Config, l: Loop, cmd: Command, mode: Mode, epoch: int, dt: real, nowUs: nat,
                       now: uint32): Loop
    requires mode == Velocity ==> Usable(cfg) && cfg.fullDutyVelocity > 0.0
  {
    match mode
    case Neutral => NeutralStep(l)
    case RawDuty => RawDutyStep(l, cfg.maxDuty * 0.01, cmd.dutyLeft * 0.01, cmd.dutyRight * 0.01)
    case Velocity => VelocityStep(cfg, l, cmd, epoch, dt, nowUs, now)
  }

  // ---- the cycle: collect and publish ----------------------------------------

  function Collect(w: Wheel, r: Reading): Wheel {
    w.(port := w.port.(reading := r), sample := RefreshSample(w.sample, r.position, r.connected, r.sampleTime))
  }

  function StampStood(before: Wheel, after: Wheel): bool {
    before.sample.sampleTime == after.sample.sampleTime
  }

  function NextFaultCount(count: uint32, left: Wheel, left': Wheel, right: Wheel, right': Wheel): uint32 {
    if StampStood(left, left') || StampStood(right, right') then Next32(count) else count
  }

  function CollectBoth(k: Kernel, readLeft: Reading, readRight: Reading): Kernel {
    var left, right := Collect(k.loop.left, readLeft), Collect(k.loop.right, readRight);
    k.(loop := k.loop.(left := left, right := right),
       i2cFaultCount := NextFaultCount(k.i2cFaultCount, k.loop.left, left, k.loop.right, right))
  }

  function OutputOf(k: Kernel, now: uint32, measuredPeriod: uint32, leaseExpired: bool): Output {
    var l, r := k.loop.left, k.loop.right;
    Output(
      now, k.clock.cycleCount, measuredPeriod,
      l.sample.position, r.sample.position, l.sample.velocity, r.sample.velocity,
      0.5 * (l.sample.velocity + r.sample.velocity), 0.5 * (r.sample.velocity - l.sample.velocity),
      l.port.reading.appliedDuty * 100.0, r.port.reading.appliedDuty * 100.0,
      k.loop.lambda, l.bias, r.bias,
      k.front.begun && k.active.fullDutyVelocity > 0.0, k.front.estop, leaseExpired, k.loop.stallHalted,
      l.port.reading.wedged, r.port.reading.wedged, l.sample.connected, r.sample.connected,
      k.gates.leaseExpiryCount, k.i2cFaultCount)
  }

  // Two increments around the block: odd while it is being written.
  function Publish(k: Kernel, now: uint32, measuredPeriod: uint32, leaseExpired: bool): Kernel {
    k.(outSeq := Next32(Next32(k.outSeq)), out := OutputOf(k, now, measuredPeriod, leaseExpired))
  }

  // ---- the whole cycle ---------------------------------------------------------

  function Halted(k: Kernel): bool { k.front.estop || k.loop.stallHalted }

  function ModeOf(k: Kernel, now: uint32): Mode {
    EffectiveMode(k.front.command, Halted(k), k.active.fullDutyVelocity > 0.0, now)
  }

  // Only the velocity law needs a usable configuration.
  predicate Runnable(k: Kernel, now: uint32) { ModeOf(k, now) == Velocity ==> Usable(k.active) }

  predicate CanStep(k: Kernel, cycleStart: nat) { Runnable(TakeRequests(k, cycleStart), Millis(cycleStart)) }

  function ControlledLoop(k: Kernel, measuredPeriod: uint32, now: uint32): Loop
    requires Runnable(k, now)
  {
    ControlStep(k.active, EnterHalt(k.gates, k.loop, Halted(k)), k.front.command,
                ModeOf(k, now),
                k.requests.epoch, Seconds(measuredPeriod), k.clock.previousCycleStart, now)
  }

  function GateAndControl(k: Kernel, measuredPeriod: uint32, now: uint32): Kernel
    requires Runnable(k, now)
  {
    k.(gates := NextGates(k.gates, k.front.command, Halted(k), now),
       loop := ControlledLoop(k, measuredPeriod, now))
  }

  // The half before the settle sleeps: decide, and stage this cycle's duties.
  function Decide(k: Kernel, cycleStart: nat): Kernel
    requires CanStep(k, cycleStart)
  {
    GateAndControl(TakeRequests(k, cycleStart), MeasuredPeriod(k.clock, cycleStart), Millis(cycleStart))
  }

  function Step(k: Kernel, cycleStart: nat, readLeft: Reading, readRight: Reading): Kernel
    requires CanStep(k, cycleStart)
  {
    var now := Millis(cycleStart);
    Publish(CollectBoth(Decide(k, cycleStart), readLeft, readRight), now, MeasuredPeriod(k.clock, cycleStart),
            LeaseExpired(k.front.command, now))
  }
}
