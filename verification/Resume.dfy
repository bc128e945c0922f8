// Moving again after a halt is cleared. "A fresh drive()/driveDuty() is still
// required" (src/diffdrive/differential_drive.h) is not what the code does: the
// mailbox keeps its command, and these lemmas say exactly when it runs again.
module Resume {
  import opened Law
  import opened KernelCycle
  import opened DriveRuns
  import opened Adapter
  import opened StallLatch

  // The first cycle after a clear-stall request runs the mailbox's own mode if
  // and only if its lease is live, estop is clear and, for a velocity command,
  // the kernel is calibrated. Only when the request counter comes round to the
  // value last served (2^32 requests) is the request lost.
  lemma ClearStallRestoresIff(p: Plant)
    requires Next32(p.k.front.clearStallReq) != p.k.requests.seenClearStallReq
    ensures var q, cmd := After(p, ClearStallCmd), p.k.front.command;
            && (!MustStop(q) <==>
                  && LeaseLive(cmd, Millis(p.nowUs)) && !p.k.front.estop
                  && (cmd.mode == Velocity ==> TakeRequests(p.k, p.nowUs).active.fullDutyVelocity > 0.0))
            && (!MustStop(q) ==> CycleMode(q) == cmd.mode)
  {
    hide CycleMode, LeaseLive, StartCycle, Rebased, Rebaselined, Millis;
    StopsIff(After(p, ClearStallCmd));
  }

  // The same for clearing estop, where it is a stall halt that may still hold.
  lemma EstopClearRestoresIff(p: Plant)
    ensures var q, k, cmd := After(p, EstopClearCmd), TakeRequests(p.k, p.nowUs), p.k.front.command;
            && (!MustStop(q) <==>
                  && LeaseLive(cmd, Millis(p.nowUs)) && !k.loop.stallHalted
                  && (cmd.mode == Velocity ==> k.active.fullDutyVelocity > 0.0))
            && (!MustStop(q) ==> CycleMode(q) == cmd.mode)
  {
    hide CycleMode, LeaseLive, StartCycle, Rebased, Rebaselined, Millis;
    StopsIff(After(p, EstopClearCmd));
  }

  lemma RawStaging(l: Loop, dutyLeft: real, dutyRight: real)
    ensures Silent(StageDuty(l, dutyLeft, dutyRight)) <==> dutyLeft == 0.0 && dutyRight == 0.0
  {
  }

  // A raw-duty cycle moves the wheels exactly when either duty is not zero (and
  // the rail is not).
  lemma RawDutyMovesIff(p: Plant, readLeft: Reading, readRight: Reading)
    requires CycleMode(p) == RawDuty && TakeRequests(p.k, p.nowUs).active.maxDuty >= 0.0
    ensures var cmd := p.k.front.command;
            !Silent(After(p, Cycle(readLeft, readRight)).k.loop) <==>
              TakeRequests(p.k, p.nowUs).active.maxDuty > 0.0 && (cmd.dutyLeft != 0.0 || cmd.dutyRight != 0.0)
  {
    hide RefreshSample, VelocityStep, NeutralStep, OutputOf, NextGates, TakeRequests, StageDuty, EffectiveMode,
         RawWheel;
    RequestsKeepFront(p.k, p.nowUs);
    var k := TakeRequests(p.k, p.nowUs);
    var l := EnterHalt(k.gates, k.loop, Halted(k));
    var rail, dl, dr := k.active.maxDuty * 0.01, k.front.command.dutyLeft * 0.01, k.front.command.dutyRight * 0.01;
    RawStaging(l.(left := RawWheel(l.left, dl, rail), right := RawWheel(l.right, dr, rail),
                  lambda := 1.0, twistRef := l.twistRef.(armed := false)),
               Clamp(dl, -rail, rail), Clamp(dr, -rail, rail));
  }

  // ---- the stalling command itself, moving again ------------------------------------

  // A plain law: feedforward only, stall detection over 100 ms.
  const PLAIN := Config(
    100.0, 1000.0, 0.0, 0.0, 0.0, 0.0, 0.0, 0.0,
    WheelMap(1.0, 0.0, 1.0, 0.0), WheelMap(1.0, 0.0, 1.0, 0.0),
    0.0, 0.0, 0.0, 0.0, 0.0, 0.0, 0.0, 1.0, 10.0, 100.0, false, 0.0, 24)

  // Both encoders answer, and stand still.
  const JAMMED := Reading(0.0, 0.0, 0.0, true, 1, false, false)

  lemma PlainWheelMoves(w: Wheel, speed: real, epoch: int, dt: real, nowUs: nat, now: uint32, adaptAllowed: bool)
    requires w.bias == 0.0
    ensures var (w', duty) := DriveWheel(PLAIN, PLAIN.mapLeft, w, speed, epoch, dt, nowUs, now, adaptAllowed);
            w'.bias == 0.0 && w'.sample == w.sample && (speed != 0.0 ==> duty != 0.0)
  {
    hide PositionError, SmoothAccel, UpdateLatch;
    var corrected := CorrectedCommand(PLAIN.mapLeft, speed, w.lastSpeed, 0.0);
    assert corrected == speed;
    assert Demand(PLAIN, speed, 0.0) == speed * (1.0 / 1000.0);
  }

  lemma PlainTargets(l: Loop, cmd: Command, epoch: int, dt: real)
    ensures var t := PlanTargets(PLAIN, l, cmd, epoch, dt);
            t.speedLeft == cmd.velocity - cmd.twist && t.speedRight == cmd.velocity + cmd.twist
  {
    assert forall v :: Scale(1.0, v) == v;
  }

  // The rig: plain law in force, encoders answering and still, nothing adapted.
  ghost predicate Rigged(l: Loop) {
    && l.left.bias == 0.0 && l.right.bias == 0.0
    && l.left.sample == WheelSample(0.0, 0.0, 1, true, true) && l.right.sample == WheelSample(0.0, 0.0, 1, true, true)
  }

  ghost predicate Ready(p: Plant) {
    && p.k.front.begun && !p.k.front.estop
    && p.k.front.staged == PLAIN && p.k.active == PLAIN && p.k.front.cfgSeq == p.k.activeCfgSeq
    && p.k.front.rebaseReq == p.k.requests.seenRebaseReq
    && Rigged(p.k.loop)
  }

  lemma VelocityMoves(l: Loop, cmd: Command, epoch: int, dt: real, nowUs: nat, now: uint32)
    requires Rigged(l)
    ensures var m := VelocityStep(PLAIN, l, cmd, epoch, dt, nowUs, now);
            Rigged(m) && (cmd.velocity - cmd.twist != 0.0 ==> !Silent(m))
  {
    hide DriveWheel, PlanTargets, UpdateLatch, Stalling, StageDuty;
    var t := PlanTargets(PLAIN, l, cmd, epoch, dt);
    var adaptAllowed := t.lambda >= LAMBDA_ADAPT_FLOOR;
    PlainTargets(l, cmd, epoch, dt);
    PlainWheelMoves(l.left, t.speedLeft, epoch, dt, nowUs, now, adaptAllowed);
    PlainWheelMoves(l.right, t.speedRight, epoch, dt, nowUs, now, adaptAllowed);
    var (left, dutyLeft) := DriveWheel(PLAIN, PLAIN.mapLeft, l.left, t.speedLeft, epoch, dt, nowUs, now, adaptAllowed);
    var (right, dutyRight) :=
      DriveWheel(PLAIN, PLAIN.mapRight, l.right, t.speedRight, epoch, dt, nowUs, now, adaptAllowed);
    var (since, latched) :=
      UpdateLatch(Stalling(PLAIN, cmd, l.left.sample, l.right.sample), PLAIN.stallWindow, now, l.stallSince);
    StagingKeepsRig(Loop(left, right, t.twistRef, t.lambda, l.stallHalted || latched, since, latched,
                         l.stopEnforceCountdown),
                    dutyLeft, dutyRight);
    RawStaging(Loop(left, right, t.twistRef, t.lambda, l.stallHalted || latched, since, latched,
                    l.stopEnforceCountdown),
               dutyLeft, dutyRight);
  }

  lemma StagingKeepsRig(l: Loop, dutyLeft: real, dutyRight: real)
    ensures Rigged(l) ==> Rigged(StageDuty(l, dutyLeft, dutyRight))
  {
    hide WheelsMoving;
  }

  lemma NeutralKeepsRig(l: Loop)
    ensures Rigged(l) ==> Rigged(NeutralStep(l))
  {
    StagingKeepsRig(l.(left := NeutralWheel(l.left), right := NeutralWheel(l.right),
                       lambda := 1.0, twistRef := l.twistRef.(armed := false),
                       stallSince := 0, stallLatched := false), 0.0, 0.0);
  }

  lemma ReadyRequests(p: Plant)
    requires Ready(p)
    ensures var k := TakeRequests(p.k, p.nowUs);
            && k.active == PLAIN && k.activeCfgSeq == p.k.activeCfgSeq && Rigged(k.loop) && k.front == p.k.front
            && k.requests.seenRebaseReq == p.k.requests.seenRebaseReq
            && k.requests.seenClearStallReq == p.k.front.clearStallReq
            && k.clock.previousCycleStart == p.nowUs
  {
  }

  // What a cycle leaves alone once its requests are served.
  lemma StepParts(k: Kernel, cycleStart: nat, readLeft: Reading, readRight: Reading)
    requires CanStep(k, cycleStart)
    ensures var t, s := TakeRequests(k, cycleStart), Step(k, cycleStart, readLeft, readRight);
            && s.front == k.front && s.active == t.active && s.activeCfgSeq == t.activeCfgSeq
            && s.requests == t.requests
            && s.loop == CollectBoth(Decide(k, cycleStart), readLeft, readRight).loop
            && Decide(k, cycleStart).loop == ControlledLoop(t, MeasuredPeriod(k.clock, cycleStart), Millis(cycleStart))
  {
    hide ControlledLoop, Collect, OutputOf, NextGates;
  }

  lemma HaltKeepsRig(g: Gates, l: Loop, halted: bool)
    ensures Rigged(l) ==> Rigged(EnterHalt(g, l, halted))
  {
  }

  lemma CollectKeepsRig(k: Kernel)
    ensures Rigged(k.loop) ==> Rigged(CollectBoth(k, JAMMED, JAMMED).loop)
  {
  }

  // A cycle of the rig: it can always run, keeps the rig, and in velocity mode
  // moves the wheels.
  lemma ReadyCycle(p: Plant)
    requires Ready(p) && CycleMode(p) != RawDuty
    ensures CanStep(p.k, p.nowUs)
    ensures var q := After(p, Cycle(JAMMED, JAMMED));
            && Ready(q) && q.nowUs == p.nowUs && q.k.front == p.k.front
            && (CycleMode(p) == Velocity && p.k.front.command.velocity - p.k.front.command.twist != 0.0 ==>
                !Silent(q.k.loop))
            && q.k.requests.seenClearStallReq == p.k.front.clearStallReq
  {
    hide TakeRequests, Step, Decide, ControlledLoop, CollectBoth, Rigged, Silent;
    ReadyRequests(p);
    PlainCanStep(p);
    StepParts(p.k, p.nowUs, JAMMED, JAMMED);
    ControlledRig(TakeRequests(p.k, p.nowUs), MeasuredPeriod(p.k.clock, p.nowUs), Millis(p.nowUs));
    CollectKeepsRig(Decide(p.k, p.nowUs));
    CollectKeepsWritten(Decide(p.k, p.nowUs));
  }

  lemma PlainCanStep(p: Plant)
    ensures TakeRequests(p.k, p.nowUs).active == PLAIN ==> CanStep(p.k, p.nowUs)
  {
    hide TakeRequests, EffectiveMode;
  }

  lemma ControlledRig(k: Kernel, measuredPeriod: uint32, now: uint32)
    requires k.active == PLAIN && Rigged(k.loop) && ModeOf(k, now) != RawDuty
    ensures var l, cmd := ControlledLoop(k, measuredPeriod, now), k.front.command;
            && Rigged(l)
            && (ModeOf(k, now) == Velocity && cmd.velocity - cmd.twist != 0.0 ==> !Silent(l))
  {
    hide ControlStep, Rigged, EnterHalt, ModeOf, Silent, Halted, Usable;
    HaltKeepsRig(k.gates, k.loop, Halted(k));
    RiggedStep(EnterHalt(k.gates, k.loop, Halted(k)), k.front.command, ModeOf(k, now), k.requests.epoch,
               Seconds(measuredPeriod), k.clock.previousCycleStart, now);
  }

  lemma RiggedStep(l: Loop, cmd: Command, mode: Mode, epoch: int, dt: real, nowUs: nat, now: uint32)
    requires Rigged(l) && mode != RawDuty
    ensures var m := ControlStep(PLAIN, l, cmd, mode, epoch, dt, nowUs, now);
            Rigged(m) && (mode == Velocity && cmd.velocity - cmd.twist != 0.0 ==> !Silent(m))
  {
    hide VelocityStep, NeutralStep, RawDutyStep, Rigged, Silent, Usable;
    NeutralKeepsRig(l);
    VelocityMoves(l, cmd, epoch, dt, nowUs, now);
  }

  lemma CollectKeepsWritten(k: Kernel)
    ensures Silent(CollectBoth(k, JAMMED, JAMMED).loop) == Silent(k.loop)
  {
  }

  ghost predicate Jammed(p: Plant, cmd: Command) {
    && Ready(p) && p.k.front.command == cmd && cmd.mode == Velocity
    && (Abs(cmd.velocity - cmd.twist) > 10.0 || Abs(cmd.velocity + cmd.twist) > 10.0)
    && cmd.velocity - cmd.twist != 0.0
  }

  // One cycle of a live command at the jam: it moves the wheels, and is another
  // evaluation of the latch with the condition true.
  lemma JammedCycle(p: Plant, cmd: Command)
    requires Jammed(p, cmd) && LeaseLive(cmd, Millis(p.nowUs))
    requires !TakeRequests(p.k, p.nowUs).loop.stallHalted
    ensures var q := After(p, Cycle(JAMMED, JAMMED));
            && Jammed(q, cmd) && q.nowUs == p.nowUs && !Silent(q.k.loop)
            && q.k.front == p.k.front && q.k.requests.seenClearStallReq == q.k.front.clearStallReq
            && q.k.front.command == cmd
            && Agrees(q.k.loop, UpdateLatch(true, 100.0, Millis(p.nowUs), TakeRequests(p.k, p.nowUs).loop.stallSince))
            && q.k.loop.stallHalted == q.k.loop.stallLatched
  {
    hide TakeRequests, After, CycleMode, LeaseLive, Rigged, Silent, UpdateLatch, CanStep;
    ReadyRequests(p);
    StopsIff(p);
    assert CycleMode(p) == Velocity;
    ReadyCycle(p);
    CycleStallFields(p, JAMMED, JAMMED);
    RigStalls(TakeRequests(p.k, p.nowUs), cmd);
  }

  lemma RigStalls(k: Kernel, cmd: Command)
    requires k.active == PLAIN && Rigged(k.loop)
    requires Abs(cmd.velocity - cmd.twist) > 10.0 || Abs(cmd.velocity + cmd.twist) > 10.0
    ensures Stuck(k.active, cmd, k.loop.left.sample, k.loop.right.sample)
  {
  }

  lemma PostedAtTheJam(p: Plant, c: real, left: real, right: real, duration: uint32)
    requires Ready(p) && duration <= 5000
    requires Abs(left * c) > 10.0
    ensures var q := After(p, WireWheelsV(c, left, right, duration));
            && Jammed(q, q.k.front.command) && q.nowUs == p.nowUs
            && q.k.loop == p.k.loop && q.k.requests == p.k.requests
            && q.k.front.clearStallReq == p.k.front.clearStallReq
            && q.k.front.command.validUntil == (p.nowUs / 1000 + duration) % RANGE
  {
    hide Rigged;
    ValidUntilIsTrue(p.nowUs, duration);
    WheelTargetsAreExact(p.k.front, c, p.nowUs, left, right, duration);
  }

  lemma StillLive(cmd: Command, t0: nat, duration: uint32, nowUs: nat)
    requires cmd.mode == Velocity && cmd.validUntil == (t0 + duration) % RANGE && duration <= 5000
    requires t0 <= nowUs / 1000 < t0 + duration
    ensures LeaseLive(cmd, Millis(nowUs))
  {
    LeaseIsExact(t0, duration, nowUs / 1000);
  }

  // One WHEELS_V against a jam: it moves, stalls and halts the kernel, is silent
  // while halted; then a clear request alone, with no fresh command, makes the
  // very same command move the wheels again.
  lemma StallingCommandResumes(p: Plant, c: real, left: real, right: real, duration: uint32)
    requires Ready(p) && Unlatched(p) && !p.k.loop.stallHalted
    requires p.k.front.clearStallReq == p.k.requests.seenClearStallReq
    requires Abs(left * c) > 10.0 && 100 < duration <= 5000 && Millis(p.nowUs) != 0
    ensures var q0 := After(p, WireWheelsV(c, left, right, duration));
            var q1 := After(q0, Cycle(JAMMED, JAMMED));
            var q2 := After(After(q1, Wait(100000)), Cycle(JAMMED, JAMMED));
            var q3 := After(q2, Cycle(JAMMED, JAMMED));
            var q4 := After(After(q3, ClearStallCmd), Cycle(JAMMED, JAMMED));
            && !Silent(q1.k.loop) && !q1.k.loop.stallHalted
            && !Silent(q2.k.loop) && q2.k.loop.stallHalted
            && Silent(q3.k.loop) && q3.k.loop.stallHalted
            && !Silent(q4.k.loop) && q4.k.front.command == q0.k.front.command
  {
    hide After, LeaseLive, Jammed, Silent, CycleMode, TakeRequests, UpdateLatch;
    var t0 := p.nowUs / 1000;
    var q0 := After(p, WireWheelsV(c, left, right, duration));
    var cmd := q0.k.front.command;
    PostedAtTheJam(p, c, left, right, duration);
    LatchStart(q0);
    assert LeaseLive(cmd, Millis(q0.nowUs)) by { JammedMode(q0, cmd); StillLive(cmd, t0, duration, q0.nowUs); }
    JammedCycle(q0, cmd);
    TwoEvaluations(Millis(p.nowUs), Millis(p.nowUs + 100000));
    var q1 := After(q0, Cycle(JAMMED, JAMMED));
    var w := After(q1, Wait(100000));
    JustWaits(q1, 100000);
    JammedFields(q1, w, cmd);
    LatchStart(w);
    assert LeaseLive(cmd, Millis(w.nowUs)) by { JammedMode(w, cmd); StillLive(cmd, t0, duration, w.nowUs); }
    HundredLater(p.nowUs);
    JammedCycle(w, cmd);
    var q2 := After(w, Cycle(JAMMED, JAMMED));
    HaltedCycle(q2, cmd);
    var q3 := After(q2, Cycle(JAMMED, JAMMED));
    var r := After(q3, ClearStallCmd);
    ClearedAtTheJam(q3, cmd);
    assert LeaseLive(cmd, Millis(r.nowUs)) by { JammedMode(r, cmd); }
    JammedCycle(r, cmd);
  }

  lemma JammedMode(p: Plant, cmd: Command)
    requires Jammed(p, cmd)
    ensures cmd.mode == Velocity
  {
  }

  // With no request pending, a cycle starts from the latch as it stands.
  lemma LatchStart(p: Plant)
    requires p.k.front.clearStallReq == p.k.requests.seenClearStallReq
    ensures SameStall(TakeRequests(p.k, p.nowUs).loop, p.k.loop)
  {
    ClockIsSet(p.k, p.nowUs);
  }

  lemma JustWaits(p: Plant, us: nat)
    ensures After(p, Wait(us)) == p.(nowUs := p.nowUs + us)
  {
  }

  lemma JammedFields(p: Plant, q: Plant, cmd: Command)
    requires Jammed(p, cmd) && q.k == p.k
    ensures Jammed(q, cmd)
  {
  }

  lemma TwoEvaluations(first: uint32, second: uint32)
    requires first != 0
    ensures UpdateLatch(true, 100.0, first, 0) == (first, false)
    ensures Sub32(second, first) == 100 ==> UpdateLatch(true, 100.0, second, first) == (first, true)
  {
  }

  lemma HundredLater(nowUs: nat)
    ensures Sub32(Millis(nowUs + 100000), Millis(nowUs)) == 100
    ensures (nowUs + 100000) / 1000 == nowUs / 1000 + 100
  {
    ModDifference(nowUs / 1000 + 100, nowUs / 1000);
  }

  lemma HaltedCycle(p: Plant, cmd: Command)
    requires Jammed(p, cmd) && p.k.loop.stallHalted && p.k.front.clearStallReq == p.k.requests.seenClearStallReq
    ensures var q := After(p, Cycle(JAMMED, JAMMED));
            && Silent(q.k.loop) && q.k.loop.stallHalted && Jammed(q, cmd) && q.nowUs == p.nowUs
            && q.k.front.clearStallReq == q.k.requests.seenClearStallReq
  {
    hide After, TakeRequests, CycleMode, Rigged, Silent, CanStep;
    LatchStart(p);
    StopsIff(p);
    StoppedIsSilent(p, JAMMED, JAMMED);
    ReadyCycle(p);
    CycleStallFields(p, JAMMED, JAMMED);
  }

  lemma ClearedAtTheJam(p: Plant, cmd: Command)
    requires Jammed(p, cmd) && p.k.front.clearStallReq == p.k.requests.seenClearStallReq
    ensures var q := After(p, ClearStallCmd);
            Jammed(q, cmd) && q.nowUs == p.nowUs && !TakeRequests(q.k, q.nowUs).loop.stallHalted
  {
    hide Rigged, TakeRequests;
    ClockIsSet(After(p, ClearStallCmd).k, p.nowUs);
  }

  lemma FirstCycle(p: Plant)
    requires p.nowUs == 0 && p.k.front.begun && !p.k.front.estop && p.k.front.staged == PLAIN &&
             p.k.front.command == NEUTRAL
    requires p.k.front.cfgSeq != p.k.activeCfgSeq && p.k.front.rebaseReq == p.k.requests.seenRebaseReq
    requires p.k.front.clearStallReq == p.k.requests.seenClearStallReq && !p.k.loop.stallHalted
    requires p.k.loop.left.bias == 0.0 && p.k.loop.right.bias == 0.0
    requires p.k.loop.left.sample == NO_SAMPLE && p.k.loop.right.sample == NO_SAMPLE
    ensures var q := After(p, Cycle(JAMMED, JAMMED));
            && Ready(q) && Unlatched(q) && !q.k.loop.stallHalted
            && q.k.front.clearStallReq == q.k.requests.seenClearStallReq && q.nowUs == 0
  {
    hide VelocityStep, RawDutyStep, StageDuty, OutputOf, NextGates;
    var k := TakeRequests(p.k, p.nowUs);
    assert k.active == PLAIN && ModeOf(k, Millis(0)) == Neutral;
    StepParts(p.k, p.nowUs, JAMMED, JAMMED);
    var l := EnterHalt(k.gates, k.loop, Halted(k));
    assert !Halted(k) && l == k.loop;
    NeutralIsQuiet(l);
  }

  lemma NeutralIsQuiet(l: Loop)
    ensures var m := NeutralStep(l);
            && m.left.bias == l.left.bias && m.right.bias == l.right.bias
            && m.left.sample == l.left.sample && m.right.sample == l.right.sample
            && m.stallSince == 0 && !m.stallLatched && m.stallHalted == l.stallHalted
  {
    hide WheelsMoving;
  }

  // And such a moment is reached from power-up: configure, begin(), one cycle.
  lemma ReadyIsReached(left: Port, right: Port)
    ensures var p := Run(Boot(left, right), [Configure(PLAIN), Begin, Cycle(JAMMED, JAMMED), Wait(1000)]);
            && Ready(p) && Unlatched(p) && !p.k.loop.stallHalted
            && p.k.front.clearStallReq == p.k.requests.seenClearStallReq && Millis(p.nowUs) != 0
  {
    var es := [Configure(PLAIN), Begin, Cycle(JAMMED, JAMMED), Wait(1000)];
    var a := After(Boot(left, right), es[0]);
    var b := After(a, es[1]);
    assert es[..4][..3] == es[..3] && es[..3][..2] == es[..2] && es[..2][..1] == es[..1] && es[..1][..0] == [];
    assert Run(Boot(left, right), es[..1]) == a;
    assert Run(Boot(left, right), es[..2]) == b;
    FirstCycle(b);
    var c := After(b, es[2]);
    assert Run(Boot(left, right), es[..3]) == c;
    assert Run(Boot(left, right), es) == After(c, es[3]) by { assert es[..4] == es; }
    JustWaits(c, 1000);
  }
}
