// DiffDrive::DifferentialDrive as an object (src/diffdrive/differential_drive.h
// and .cpp): its fields, its commands and its cycle, updated in place. What
// the source keeps once per wheel (sampleLeft_ and sampleRight_, biasLeft_ and
// biasRight_, ..., and the motor port itself) is one record field per wheel.
// Every method is tied to the function of KernelCycle that gives its meaning.
module Drive {
  import opened Law
  import opened KernelCycle

  class DifferentialDrive {
    // ---- written by the callers' fiber ----
    var staged: Config
    var cfgSeq: uint32
    var command: Command
    var cmdSeq: uint32
    var estopLatch: bool
    var clearStallReq: uint32
    var rebaseReq: uint32
    var lastError: Status
    var begun: bool

    // ---- written by the kernel fiber ----
    var active: Config
    var activeCfgSeq: uint32
    var seenClearStallReq: uint32
    var seenRebaseReq: uint32
    var epoch: int
    var stallHalted: bool
    var wasForcedStop: bool
    var leaseWasLive: bool
    var left: Wheel
    var right: Wheel
    var twistRef: TwistRef
    var positionEpochLeft: uint32
    var positionEpochRight: uint32
    var i2cFaultCount: uint32
    var leaseExpiryCount: uint32
    var lambda: real
    var stallSince: uint32
    var stallLatched: bool
    var stopEnforceCountdown: nat
    var out: Output
    var outSeq: uint32
    var previousCycleStart: nat
    var everCycled: bool
    var cycleCount: uint32

    constructor (portLeft: Port, portRight: Port)
      ensures View() == FreshKernel(portLeft, portRight)
    {
      staged, cfgSeq, command, cmdSeq := DEFAULT_CONFIG, 0, NEUTRAL, 0;
      estopLatch, clearStallReq, rebaseReq, lastError, begun := false, 0, 0, Ok, false;
      active, activeCfgSeq, seenClearStallReq, seenRebaseReq := DEFAULT_CONFIG, 0, 0, 0;
      epoch, stallHalted, wasForcedStop, leaseWasLive, twistRef := 0, false, false, false, NO_TWIST_REF;
      left, right := FreshWheel(portLeft), FreshWheel(portRight);
      positionEpochLeft, positionEpochRight, i2cFaultCount, leaseExpiryCount := 0, 0, 0, 0;
      lambda, stallSince, stallLatched, stopEnforceCountdown := 1.0, 0, false, 0;
      out, outSeq, previousCycleStart, everCycled, cycleCount := DEFAULT_OUTPUT, 0, 0, false, 0;
    }

    ghost function FrontView(): Front
      reads this`begun, this`estopLatch, this`staged, this`cfgSeq, this`command, this`cmdSeq,
            this`clearStallReq, this`rebaseReq, this`lastError
    {
      Front(begun, estopLatch, staged, cfgSeq, command, cmdSeq, clearStallReq, rebaseReq, lastError)
    }

    ghost function LoopView(): Loop
      reads this`left, this`right, this`twistRef, this`lambda, this`stallHalted, this`stallSince,
            this`stallLatched, this`stopEnforceCountdown
    {
      Loop(left, right, twistRef, lambda, stallHalted, stallSince, stallLatched, stopEnforceCountdown)
    }

    ghost function RequestsView(): Requests
      reads this`seenClearStallReq, this`seenRebaseReq, this`epoch, this`positionEpochLeft, this`positionEpochRight
    {
      Requests(seenClearStallReq, seenRebaseReq, epoch, positionEpochLeft, positionEpochRight)
    }

    ghost function GatesView(): Gates
      reads this`wasForcedStop, this`leaseWasLive, this`leaseExpiryCount
    {
      Gates(wasForcedStop, leaseWasLive, leaseExpiryCount)
    }

    ghost function View(): Kernel
      reads this
    {
      Kernel(FrontView(), active, activeCfgSeq, Clock(previousCycleStart, everCycled, cycleCount),
             RequestsView(), GatesView(), LoopView(), i2cFaultCount, out, outSeq)
    }

    // ---- commands -------------------------------------------------------------

    method Refuse(status: Status)
      modifies this`lastError
      ensures FrontView() == NoteRefusal(old(FrontView()), status)
    {
      if lastError == Ok { lastError := status; }
    }

    method Drive(nowUs: nat, velocity: real, twist: real, lease: uint32) returns (status: Status)
      modifies this`lastError, this`command, this`cmdSeq
      ensures (FrontView(), status) == DriveSpec(old(FrontView()), nowUs, velocity, twist, lease)
    {
      status := Gate(true);
      if status != Ok {
        Refuse(status);
        return;
      }
      command := Command(Velocity, velocity, twist, 0.0, 0.0, ValidUntil(nowUs, lease));
      cmdSeq := Next32(cmdSeq);
    }

    method DriveDuty(nowUs: nat, dutyLeft: real, dutyRight: real, lease: uint32) returns (status: Status)
      modifies this`lastError, this`command, this`cmdSeq
      ensures (FrontView(), status) == DriveDutySpec(old(FrontView()), nowUs, dutyLeft, dutyRight, lease)
    {
      status := Gate(false);
      if status != Ok {
        Refuse(status);
        return;
      }
      command := Command(RawDuty, 0.0, 0.0, dutyLeft, dutyRight, ValidUntil(nowUs, lease));
      cmdSeq := Next32(cmdSeq);
    }

    method Gate(needsVelocityCalibration: bool) returns (status: Status)
      ensures status == CheckCommandable(FrontView(), needsVelocityCalibration)
    {
      if !begun { return RefusedNotBegun; }
      if estopLatch { return RefusedEstopped; }
      if staged.maxDuty <= 0.0 { return RefusedUnconfigured; }
      if needsVelocityCalibration && staged.fullDutyVelocity <= 0.0 { return RefusedUnconfigured; }
      return Ok;
    }

    method Stop() // neutral()
      modifies this`command, this`cmdSeq
      ensures FrontView() == NeutralSpec(old(FrontView()))
    {
      command := NEUTRAL;
      cmdSeq := Next32(cmdSeq);
    }

    method Estop()
      modifies this`estopLatch
      ensures FrontView() == old(FrontView()).(estop := true)
    {
      estopLatch := true;
    }

    method EstopClear()
      modifies this`estopLatch
      ensures FrontView() == old(FrontView()).(estop := false)
    {
      estopLatch := false;
    }

    method EmergencyStopMotors()
      modifies this`estopLatch, this`left, this`right
      ensures FrontView() == old(FrontView()).(estop := true)
      ensures left == Idled(old(left)) && right == Idled(old(right))
    {
      estopLatch := true;
      left := left.(port := left.port.(duty := 0.0));
      right := right.(port := right.port.(duty := 0.0));
    }

    method ClearStallLatch()
      modifies this`clearStallReq
      ensures FrontView() == old(FrontView()).(clearStallReq := Next32(old(clearStallReq)))
    {
      clearStallReq := Next32(clearStallReq);
    }

    method RebasePosition()
      modifies this`rebaseReq
      ensures FrontView() == old(FrontView()).(rebaseReq := Next32(old(rebaseReq)))
    {
      rebaseReq := Next32(rebaseReq);
    }

    // The chainable setters write one staged field each; three are modelled.
    method SetMaxDuty(maxDuty: real)
      modifies this`staged, this`cfgSeq
      ensures FrontView() == StageConfig(old(FrontView()), old(staged).(maxDuty := maxDuty))
    {
      staged := staged.(maxDuty := maxDuty);
      cfgSeq := Next32(cfgSeq);
    }

    method SetFullDutyVelocity(velocity: real)
      modifies this`staged, this`cfgSeq
      ensures FrontView() == StageConfig(old(FrontView()), old(staged).(fullDutyVelocity := velocity))
    {
      staged := staged.(fullDutyVelocity := velocity);
      cfgSeq := Next32(cfgSeq);
    }

    method SetCyclePeriod(period: uint32)
      modifies this`staged, this`cfgSeq, this`lastError
      ensures FrontView() == SetCyclePeriodSpec(old(FrontView()), period)
    {
      if begun {
        Refuse(CadencePreserved);
        return;
      }
      staged := staged.(cyclePeriod := period);
      cfgSeq := Next32(cfgSeq);
    }

    method SetConfig(config: Config) returns (status: Status)
      modifies this`staged, this`cfgSeq, this`lastError
      ensures (FrontView(), status) == SetConfigSpec(old(FrontView()), config)
    {
      var cadenceDiffers := begun && config.cyclePeriod != staged.cyclePeriod;
      var frozen := staged.cyclePeriod;
      staged := config;
      if cadenceDiffers {
        staged := staged.(cyclePeriod := frozen);
        cfgSeq := Next32(cfgSeq);
        Refuse(CadencePreserved);
        return CadencePreserved;
      }
      cfgSeq := Next32(cfgSeq);
      return Ok;
    }

    method Begin() returns (status: Status)
      modifies this`stopEnforceCountdown, this`begun, this`lastError
      ensures (FrontView(), status) == BeginSpec(old(FrontView()))
      ensures stopEnforceCountdown == STOP_ENFORCE_TICKS
    {
      stopEnforceCountdown := STOP_ENFORCE_TICKS;
      begun := true;
      if staged.maxDuty <= 0.0 {
        Refuse(RefusedUnconfigured);
        return RefusedUnconfigured;
      }
      return Ok;
    }

    // ---- the cycle --------------------------------------------------------------

    method ServeClearStall()
      modifies this`seenClearStallReq, this`stallHalted, this`stallLatched, this`stallSince
      ensures View() == TakeClearStall(old(View()))
    {
      if clearStallReq != seenClearStallReq {
        seenClearStallReq := clearStallReq;
        stallHalted := false;
        stallLatched := false;
        stallSince := 0;
      }
    }

    method Rebase()
      modifies this`seenRebaseReq, this`left, this`right, this`epoch, this`positionEpochLeft, this`positionEpochRight
      ensures RequestsView() == TakeRebase(old(View())).requests
      ensures LoopView() == TakeRebase(old(View())).loop
    {
      if rebaseReq != seenRebaseReq {
        hide Rebaselined, Next32;
        seenRebaseReq := rebaseReq;
        left := Rebaselined(left);
        right := Rebaselined(right);
        epoch := (epoch + 1) % 256;
        positionEpochLeft := Next32(positionEpochLeft);
        positionEpochRight := Next32(positionEpochRight);
      }
    }

    method ServeRebase()
      modifies this`seenRebaseReq, this`left, this`right, this`epoch, this`positionEpochLeft, this`positionEpochRight
      ensures View() == TakeRebase(old(View()))
    {
      hide FrontView, GatesView, RequestsView, LoopView, TakeRebase;
      ghost var k := View();
      Rebase();
      RebaseFrame(k);
    }

    lemma RebaseFrame(k: Kernel)
      ensures TakeRebase(k) == k.(requests := TakeRebase(k).requests, loop := TakeRebase(k).loop)
    {
    }

    method TakeConfig()
      modifies this`active, this`activeCfgSeq
      ensures View() == SnapshotConfig(old(View()))
    {
      if cfgSeq != activeCfgSeq {
        active := staged;
        activeCfgSeq := cfgSeq;
      }
    }

    method ResetAdaptive()
      modifies this`left, this`right, this`twistRef, this`stallSince, this`stallLatched, this`stopEnforceCountdown
      ensures LoopView() == ResetAdaptiveState(old(LoopView()))
    {
      left := ResetWheel(left);
      right := ResetWheel(right);
      twistRef := NO_TWIST_REF;
      stallSince := 0;
      stallLatched := false;
      stopEnforceCountdown := STOP_ENFORCE_TICKS;
    }

    method RunGates(now: uint32) returns (effective: Mode, leaseExpired: bool)
      modifies this`leaseExpiryCount, this`leaseWasLive, this`wasForcedStop, this`left, this`right, this`twistRef,
               this`stallSince, this`stallLatched, this`stopEnforceCountdown
      ensures GatesView() == NextGates(old(GatesView()), command, estopLatch || stallHalted, now)
      ensures LoopView() == EnterHalt(old(GatesView()), old(LoopView()), estopLatch || stallHalted)
      ensures effective == EffectiveMode(command, estopLatch || stallHalted, active.fullDutyVelocity > 0.0, now)
      ensures effective == Velocity ==> active.fullDutyVelocity > 0.0
      ensures leaseExpired == LeaseExpired(command, now)
    {
      var needsLease := command.mode != Neutral;
      var leaseLive := needsLease && Signed32(Sub32(command.validUntil, now)) > 0;
      leaseExpired := needsLease && !leaseLive;
      if leaseWasLive && leaseExpired { leaseExpiryCount := Next32(leaseExpiryCount); }
      leaseWasLive := leaseLive;

      effective := command.mode;
      if leaseExpired { effective := Neutral; }
      if stallHalted { effective := Neutral; }
      if estopLatch { effective := Neutral; }
      if effective == Velocity && active.fullDutyVelocity <= 0.0 { effective := Neutral; }

      var halted := estopLatch || stallHalted;
      if halted && !wasForcedStop { ResetAdaptive(); }
      wasForcedStop := halted;
    }

    method Stage(dutyLeft: real, dutyRight: real)
      modifies this`left, this`right, this`stopEnforceCountdown
      ensures LoopView() == StageDuty(old(LoopView()), dutyLeft, dutyRight)
    {
      var wheelsMoving := Abs(left.port.reading.velocity) > REST_VELOCITY ||
        Abs(right.port.reading.velocity) > REST_VELOCITY;
      var enforceStop := stopEnforceCountdown > 0 || wheelsMoving;
      if stopEnforceCountdown > 0 { stopEnforceCountdown := stopEnforceCountdown - 1; }

      var commandedStop := dutyLeft == 0.0 && dutyRight == 0.0;
      var alreadyQuiet := commandedStop && left.written == 0.0 && right.written == 0.0;
      if commandedStop && !alreadyQuiet { stopEnforceCountdown := STOP_ENFORCE_TICKS; }

      if alreadyQuiet && !enforceStop { return; }
      left := Write(left, dutyLeft);
      right := Write(right, dutyRight);
    }

    method ControlNeutral()
      modifies this`left, this`right, this`stopEnforceCountdown, this`lambda, this`twistRef,
               this`stallSince, this`stallLatched
      ensures LoopView() == NeutralStep(old(LoopView()))
    {
      left := NeutralWheel(left);
      right := NeutralWheel(right);
      lambda := 1.0;
      twistRef := twistRef.(armed := false);
      stallSince := 0;
      stallLatched := false;
      Stage(0.0, 0.0);
    }

    method ControlRawDuty(cmd: Command)
      modifies this`left, this`right, this`stopEnforceCountdown, this`lambda, this`twistRef
      ensures LoopView() ==
              RawDutyStep(old(LoopView()), active.maxDuty * 0.01, cmd.dutyLeft * 0.01, cmd.dutyRight * 0.01)
    {
      var rail := active.maxDuty * 0.01;
      var demandL, demandR := cmd.dutyLeft * 0.01, cmd.dutyRight * 0.01;
      left := RawWheel(left, demandL, rail);
      right := RawWheel(right, demandR, rail);
      lambda := 1.0;
      twistRef := twistRef.(armed := false);
      Stage(Clamp(demandL, -rail, rail), Clamp(demandR, -rail, rail));
    }

    method ControlVelocity(cmd: Command, dt: real, now: uint32)
      requires Usable(active) && active.fullDutyVelocity > 0.0
      modifies this`left, this`right, this`stopEnforceCountdown, this`lambda, this`twistRef,
               this`stallSince, this`stallLatched, this`stallHalted
      ensures LoopView() == VelocityStep(active, old(LoopView()), cmd, epoch, dt, previousCycleStart, now)
    {
      hide PlanTargets, DriveWheel, UpdateLatch, Stalling, StageDuty;
      var stalling := Stalling(active, cmd, left.sample, right.sample);
      var aim :=
        PlanTargets(active,
                    Loop(left, right, twistRef, lambda, stallHalted, stallSince, stallLatched, stopEnforceCountdown),
                    cmd, epoch, dt);
      lambda := aim.lambda;
      twistRef := aim.twistRef;
      var adaptAllowed := lambda >= LAMBDA_ADAPT_FLOOR;
      var driveLeft :=
        DriveWheel(active, active.mapLeft, left, aim.speedLeft, epoch, dt, previousCycleStart, now, adaptAllowed);
      var driveRight :=
        DriveWheel(active, active.mapRight, right, aim.speedRight, epoch, dt, previousCycleStart, now, adaptAllowed);
      left := driveLeft.0;
      right := driveRight.0;
      var latch := UpdateLatch(stalling, active.stallWindow, now, stallSince);
      stallSince := latch.0;
      stallLatched := latch.1;
      if stallLatched && !stallHalted { stallHalted := true; }
      Stage(driveLeft.1, driveRight.1);
    }

    method Control(cmd: Command, effective: Mode, dt: real, now: uint32)
      requires effective == Velocity ==> Usable(active) && active.fullDutyVelocity > 0.0
      modifies this`left, this`right, this`stopEnforceCountdown, this`lambda, this`twistRef,
               this`stallSince, this`stallLatched, this`stallHalted
      ensures LoopView() == ControlStep(active, old(LoopView()), cmd, effective, epoch, dt, previousCycleStart, now)
    {
      hide NeutralStep, RawDutyStep, VelocityStep, LoopView;
      match effective
      case Neutral => ControlNeutral();
      case RawDuty => ControlRawDuty(cmd);
      case Velocity => ControlVelocity(cmd, dt, now);
    }

    method CollectSamples(readLeft: Reading, readRight: Reading)
      modifies this`i2cFaultCount, this`left, this`right
      ensures View() == CollectBoth(old(View()), readLeft, readRight)
    {
      hide FrontView, GatesView, RequestsView, Collect;
      var before := (left.sample.sampleTime, right.sample.sampleTime);
      left := Collect(left, readLeft);
      right := Collect(right, readRight);
      if left.sample.sampleTime == before.0 || right.sample.sampleTime == before.1 {
        i2cFaultCount := Next32(i2cFaultCount);
      }
    }

    method PublishOutput(now: uint32, measuredPeriod: uint32, leaseExpired: bool)
      modifies this`out, this`outSeq
      ensures out == OutputOf(old(View()), now, measuredPeriod, leaseExpired)
      ensures outSeq == Next32(Next32(old(outSeq)))
    {
      outSeq := Next32(outSeq);
      out := Output(
        now, cycleCount, measuredPeriod,
        left.sample.position, right.sample.position, left.sample.velocity, right.sample.velocity,
        0.5 * (left.sample.velocity + right.sample.velocity), 0.5 * (right.sample.velocity - left.sample.velocity),
        left.port.reading.appliedDuty * 100.0, right.port.reading.appliedDuty * 100.0,
        lambda, left.bias, right.bias,
        begun && active.fullDutyVelocity > 0.0, estopLatch, leaseExpired, stallHalted,
        left.port.reading.wedged, right.port.reading.wedged, left.sample.connected, right.sample.connected,
        leaseExpiryCount, i2cFaultCount);
      outSeq := Next32(outSeq);
    }

    method TickClock(cycleStart: nat) returns (measuredPeriod: uint32)
      modifies this`previousCycleStart, this`everCycled, this`cycleCount
      ensures View() == old(View()).(clock := StartCycle(old(View()).clock, cycleStart))
      ensures measuredPeriod == MeasuredPeriod(old(View()).clock, cycleStart)
    {
      hide FrontView, GatesView, RequestsView, LoopView;
      measuredPeriod := if everCycled then (cycleStart - previousCycleStart) % RANGE else 0;
      previousCycleStart := cycleStart;
      everCycled := true;
      cycleCount := Next32(cycleCount);
    }

    method OpenCycle(cycleStart: nat) returns (measuredPeriod: uint32)
      modifies this
      ensures View() == TakeRequests(old(View()), cycleStart)
      ensures measuredPeriod == MeasuredPeriod(old(View()).clock, cycleStart)
    {
      hide View, SnapshotConfig, TakeClearStall, TakeRebase, StartCycle, MeasuredPeriod;
      measuredPeriod := TickClock(cycleStart);
      TakeConfig();
      ServeClearStall();
      ServeRebase();
    }

    // Gates and control step: everything up to the settle sleeps.
    method Act(measuredPeriod: uint32, now: uint32) returns (leaseExpired: bool)
      requires Runnable(View(), now)
      modifies this`leaseExpiryCount, this`leaseWasLive, this`wasForcedStop, this`left, this`right, this`twistRef,
               this`stallSince, this`stallLatched, this`stopEnforceCountdown, this`lambda, this`stallHalted
      ensures GatesView() == NextGates(old(GatesView()), FrontView().command, Halted(old(View())), now)
      ensures LoopView() == ControlledLoop(old(View()), measuredPeriod, now)
      ensures leaseExpired == LeaseExpired(FrontView().command, now)
    {
      hide ControlStep, NextGates, EnterHalt, EffectiveMode, LeaseExpired, Usable;
      var dt := Seconds(measuredPeriod);
      var cmd := command;
      var effective;
      effective, leaseExpired := RunGates(now);
      Control(cmd, effective, dt, now);
    }

    // One cycle. `readLeft` and `readRight` are what the two split-phase
    // collects of this cycle answer.
    method Step(cycleStart: nat, readLeft: Reading, readRight: Reading)
      requires CanStep(View(), cycleStart)
      modifies this
      ensures View() == KernelCycle.Step(old(View()), cycleStart, readLeft, readRight)
    {
      hide FrontView, RequestsView, GatesView, LoopView, Runnable, Halted, ControlledLoop, NextGates, CollectBoth,
           TakeRequests, LeaseExpired, MeasuredPeriod, OutputOf;
      var now := Millis(cycleStart);
      ghost var k := View();
      var measuredPeriod := OpenCycle(cycleStart);
      RequestsKeepFront(k, cycleStart);
      var leaseExpired := Act(measuredPeriod, now);
      CollectSamples(readLeft, readRight);
      PublishOutput(now, measuredPeriod, leaseExpired);
    }

    lemma RequestsKeepFront(k: Kernel, cycleStart: nat)
      ensures TakeRequests(k, cycleStart).front == k.front
    {
    }
  }
}
