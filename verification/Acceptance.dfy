// Which commands the kernel takes, what a refusal leaves behind, and what that
// means over a run: nothing is taken under estop, the cadence is frozen, the first
// refusal sticks, and a configuration is in force from the next cycle on.
module Acceptance {
  import opened Law
  import opened KernelCycle
  import opened DriveRuns
  import opened Adapter

  // ---- one command -------------------------------------------------------------------

  // Begun, not stopped, and with a duty limit to work under.
  predicate Open(f: Front) { f.begun && !f.estop && f.staged.maxDuty > 0.0 }

  // A refusal is remembered if it is the first, and changes nothing else.
  ghost predicate OnlyNoted(f: Front, f': Front, status: Status) {
    f' == f.(lastError := if f.lastError == Ok then status else f.lastError)
  }

  ghost predicate Posted(f: Front, f': Front, c: Command) {
    f' == f.(command := c, cmdSeq := (f.cmdSeq + 1) % 0x1_0000_0000)
  }

  // Why a command that is not taken is refused, the first reason first.
  ghost predicate Reason(f: Front, calibrated: bool, status: Status) {
    && (status == RefusedNotBegun <==> !f.begun)
    && (status == RefusedEstopped <==> f.begun && f.estop)
    && (status == RefusedUnconfigured <==> f.begun && !f.estop && (f.staged.maxDuty <= 0.0 || !calibrated))
    && status != CadencePreserved
  }

  // drive() is taken exactly when the kernel is begun, not stopped, has a duty
  // limit and is calibrated; then the mailbox holds it, until its lease ends.
  lemma DriveAcceptedIff(f: Front, nowUs: nat, velocity: real, twist: real, lease: uint32)
    ensures var (f', status) := DriveSpec(f, nowUs, velocity, twist, lease);
            && (status == Ok <==> Open(f) && f.staged.fullDutyVelocity > 0.0)
            && Reason(f, f.staged.fullDutyVelocity > 0.0, status)
            && if status != Ok then OnlyNoted(f, f', status)
               else Posted(f, f', Command(Velocity, velocity, twist, 0.0, 0.0,
                                          (nowUs / 1000 + Granted(lease)) % 0x1_0000_0000))
  {
    ValidUntilIsTrue(nowUs, lease);
  }

  // driveDuty() needs no calibration.
  lemma DriveDutyAcceptedIff(f: Front, nowUs: nat, dutyLeft: real, dutyRight: real, lease: uint32)
    ensures var (f', status) := DriveDutySpec(f, nowUs, dutyLeft, dutyRight, lease);
            && (status == Ok <==> Open(f))
            && Reason(f, true, status)
            && if status != Ok then OnlyNoted(f, f', status)
               else Posted(f, f', Command(RawDuty, 0.0, 0.0, dutyLeft, dutyRight,
                                          (nowUs / 1000 + Granted(lease)) % 0x1_0000_0000))
  {
    ValidUntilIsTrue(nowUs, lease);
  }

  // WHEELS_V is taken, with code 0, exactly when drive() takes it and its duration
  // is within 5000 ms. Past the ceiling it is code 3 and leaves no trace; otherwise
  // not ready, code 8. Either way the mailbox keeps what it held.
  lemma WheelsVAcceptedIff(f: Front, countsPerLength: real, nowUs: nat, left: real, right: real, duration: uint32)
    ensures var (f', result) := WheelsVSpec(f, countsPerLength, nowUs, left, right, duration);
            var code := ResultCode(result);
            && (code == 0 <==> Open(f) && f.staged.fullDutyVelocity > 0.0 && duration <= 5000)
            && (code == 3 <==> duration > 5000)
            && (code == 8 <==> duration <= 5000 && !(Open(f) && f.staged.fullDutyVelocity > 0.0))
            && (code == 3 ==> f' == f)
            && (code == 8 ==> exists status :: status != Ok && OnlyNoted(f, f', status))
            && (code != 0 ==> f'.command == f.command && f'.cmdSeq == f.cmdSeq)
            && (code == 0 ==> f'.command.validUntil == (nowUs / 1000 + duration) % 0x1_0000_0000 &&
                              f'.cmdSeq == (f.cmdSeq + 1) % 0x1_0000_0000 && f'.lastError == f.lastError)
  {
    hide DriveSpec, Open;
    var v := (left * countsPerLength + right * countsPerLength) * 0.5;
    var t := (right * countsPerLength - left * countsPerLength) * 0.5;
    DriveAcceptedIff(f, nowUs, v, t, duration);
    var (f', status) := DriveSpec(f, nowUs, v, t, duration);
    assert duration <= 5000 && status != Ok ==> OnlyNoted(f, f', status);
  }

  // Fail-closed: a kernel fresh from power-up refuses every motion command, and still
  // does once begun, until it has a duty limit.
  lemma PowerUpRefuses(left: Port, right: Port, nowUs: nat, a: real, b: real, lease: uint32)
    ensures var f := FreshKernel(left, right).front;
            && !f.estop && f.command.mode == Neutral && f.lastError == Ok
            && DriveSpec(f, nowUs, a, b, lease).1 == DriveDutySpec(f, nowUs, a, b, lease).1 == RefusedNotBegun
            && BeginSpec(f).1 == RefusedUnconfigured
            && var g := BeginSpec(f).0;
               DriveSpec(g, nowUs, a, b, lease).1 == DriveDutySpec(g, nowUs, a, b, lease).1 == RefusedUnconfigured
  {
  }

  // begin() takes, and is refused only for want of a duty limit. A configuration is
  // staged whole, but for a cadence frozen by begin(): then the rest of it is, and the
  // change refused; and a cadence alone is staged before begin() and not after.
  lemma StagedIff(f: Front, config: Config, period: uint32)
    ensures var (f', status) := BeginSpec(f);
            && status == (if f.staged.maxDuty <= 0.0 then RefusedUnconfigured else Ok)
            && f'.begun && f'.staged == f.staged && f'.command == f.command && f'.estop == f.estop
    ensures var (f', status) := SetConfigSpec(f, config);
            && (status == CadencePreserved <==> f.begun && config.cyclePeriod != f.staged.cyclePeriod)
            && (status != CadencePreserved ==> status == Ok && f'.staged == config)
            && (status == CadencePreserved ==> f'.staged == config.(cyclePeriod := f.staged.cyclePeriod))
            && f'.cfgSeq == (f.cfgSeq + 1) % 0x1_0000_0000 && f'.command == f.command && f'.begun == f.begun
    ensures var f' := SetCyclePeriodSpec(f, period);
            if f.begun then OnlyNoted(f, f', CadencePreserved)
            else f'.staged == f.staged.(cyclePeriod := period) && f'.cfgSeq == (f.cfgSeq + 1) % 0x1_0000_0000 &&
                 f'.lastError == f.lastError
  {
  }

  // ---- under estop ---------------------------------------------------------------------

  ghost predicate NoEstopClear(es: seq<Event>) {
    forall i :: 0 <= i < |es| ==> !es[i].EstopClearCmd?
  }

  // The mailbox holds what it did, or has been neutralized; no command has been
  // accepted in between.
  ghost predicate NothingTaken(p: Plant, q: Plant) {
    && (q.k.front.command == p.k.front.command || q.k.front.command.mode == Neutral)
    && q.acceptedAt == p.acceptedAt && q.lease == p.lease
  }

  lemma EstoppedStep(p: Plant, e: Event)
    requires p.k.front.estop && !e.EstopClearCmd?
    ensures After(p, e).k.front.estop && NothingTaken(p, After(p, e))
  {
    hide Step, CanStep, ValidUntil, Next32;
    if e.Cycle? { CycleKeepsFront(p, e.readLeft, e.readRight); }
  }

  lemma {:induction false} EstoppedTakesNothing(p: Plant, es: seq<Event>)
    requires p.k.front.estop && NoEstopClear(es)
    ensures Run(p, es).k.front.estop && NothingTaken(p, Run(p, es))
  {
    hide After;
    if es != [] {
      EstoppedTakesNothing(p, es[..|es| - 1]);
      EstoppedStep(Run(p, es[..|es| - 1]), es[|es| - 1]);
    }
  }

  // Between an estop and the next clear no command is accepted: what the robot may
  // resume after the clear is what it was commanded before the stop, under the
  // lease it was given then.
  lemma EstopWindow(p: Plant, es: seq<Event>, stop: Event)
    requires (stop.EstopCmd? || stop.EmergencyStop?) && NoEstopClear(es)
    ensures var q := After(Run(After(p, stop), es), EstopClearCmd);
            !q.k.front.estop && NothingTaken(p, q)
  {
    hide Run;
    EstoppedTakesNothing(After(p, stop), es);
  }

  // ---- stop() ------------------------------------------------------------------------------

  ghost predicate NoMotionCommand(es: seq<Event>) {
    forall i :: 0 <= i < |es| ==> !es[i].DriveCmd? && !es[i].DutyCmd? && !es[i].WireWheelsV?
  }

  lemma {:induction false} NeutralHolds(p: Plant, es: seq<Event>)
    requires p.k.front.command.mode == Neutral && NoMotionCommand(es)
    ensures Run(p, es).k.front.command.mode == Neutral
  {
    hide Step, CanStep;
    if es != [] {
      var q, e := Run(p, es[..|es| - 1]), es[|es| - 1];
      NeutralHolds(p, es[..|es| - 1]);
      if e.Cycle? { CycleKeepsFront(q, e.readLeft, e.readRight); }
    }
  }

  // stop() is never refused: it posts a neutral command in any state at all.
  lemma StopIsAccepted(p: Plant)
    ensures Posted(p.k.front, After(p, StopCmd).k.front, Command(Neutral, 0.0, 0.0, 0.0, 0.0, 0))
  {
  }

  // From stop() on, every cycle before the next motion command stops.
  lemma StopHolds(p: Plant, es: seq<Event>)
    requires NoMotionCommand(es)
    ensures MustStop(Run(After(p, StopCmd), es))
  {
    hide Run, TakeRequests, CycleMode;
    NeutralHolds(After(p, StopCmd), es);
    StopsIff(Run(After(p, StopCmd), es));
  }

  // ---- the configuration -----------------------------------------------------------------

  // begin() freezes the cadence for good.
  lemma {:induction false} CadenceIsFrozen(p: Plant, es: seq<Event>)
    requires p.k.front.begun
    ensures Run(p, es).k.front.begun && Run(p, es).k.front.staged.cyclePeriod == p.k.front.staged.cyclePeriod
  {
    hide Step, CanStep;
    if es != [] {
      var q, e := Run(p, es[..|es| - 1]), es[|es| - 1];
      CadenceIsFrozen(p, es[..|es| - 1]);
      if e.Cycle? { CycleKeepsFront(q, e.readLeft, e.readRight); }
    }
  }

  // Why one event is refused, if it is.
  function RefusalOf(p: Plant, e: Event): Status {
    var f := p.k.front;
    match e
    case DriveCmd(v, t, lease) => DriveSpec(f, p.nowUs, v, t, lease).1
    case DutyCmd(l, r, lease) => DriveDutySpec(f, p.nowUs, l, r, lease).1
    case WireWheelsV(c, l, r, duration) =>
      if duration > 5000 then Ok else DriveSpec(f, p.nowUs, 0.0, 0.0, duration).1
    case Configure(config) => SetConfigSpec(f, config).1
    case Begin => BeginSpec(f).1
    case _ => Ok
  }

  ghost function FirstRefusal(p: Plant, es: seq<Event>): Status {
    if es == [] then p.k.front.lastError
    else if FirstRefusal(p, es[..|es| - 1]) != Ok then FirstRefusal(p, es[..|es| - 1])
    else RefusalOf(Run(p, es[..|es| - 1]), es[|es| - 1])
  }

  // The error the kernel reports is the first refusal of the run.
  lemma {:induction false} FirstRefusalSticks(p: Plant, es: seq<Event>)
    ensures Run(p, es).k.front.lastError == FirstRefusal(p, es)
  {
    hide Step, CanStep, ValidUntil, Next32;
    if es != [] {
      var q, e := Run(p, es[..|es| - 1]), es[|es| - 1];
      FirstRefusalSticks(p, es[..|es| - 1]);
      if e.Cycle? { CycleKeepsFront(q, e.readLeft, e.readRight); }
    }
  }

  function Configures(es: seq<Event>): nat {
    if es == [] then 0 else Configures(es[..|es| - 1]) + if es[|es| - 1].Configure? then 1 else 0
  }

  // The configuration the next cycle runs under.
  function InForce(p: Plant): Config { TakeRequests(p.k, p.nowUs).active }

  lemma InForceIs(p: Plant)
    ensures InForce(p) == if p.k.front.cfgSeq == p.k.activeCfgSeq then p.k.active else p.k.front.staged
  {
  }

  ghost predicate ConfigKnown(p: Plant, n: nat) {
    && p.k.front.cfgSeq == n && p.k.activeCfgSeq <= n && (p.k.activeCfgSeq == n ==> p.k.active == p.k.front.staged)
  }

  lemma CycleTakesConfig(p: Plant, readLeft: Reading, readRight: Reading)
    ensures var q := After(p, Cycle(readLeft, readRight));
            if CanStep(p.k, p.nowUs) then q.k.active == InForce(p) && q.k.activeCfgSeq == p.k.front.cfgSeq
            else q == p
  {
    hide ControlledLoop, Collect, OutputOf, NextGates;
  }

  lemma ConfigStep(p: Plant, e: Event, n: nat)
    requires ConfigKnown(p, n) && (e.Configure? ==> n + 1 < RANGE)
    ensures ConfigKnown(After(p, e), if e.Configure? then n + 1 else n)
  {
    hide Step, CanStep, ValidUntil;
    if e.Cycle? {
      CycleTakesConfig(p, e.readLeft, e.readRight);
      CycleKeepsFront(p, e.readLeft, e.readRight);
      InForceIs(p);
    }
  }

  lemma {:induction false} ConfigStaysKnown(left: Port, right: Port, es: seq<Event>)
    requires Configures(es) < RANGE
    ensures ConfigKnown(Run(Boot(left, right), es), Configures(es))
  {
    hide After, Boot, ConfigKnown;
    if es == [] {
      BootConfig(left, right);
    } else {
      ConfigStaysKnown(left, right, es[..|es| - 1]);
      ConfigStep(Run(Boot(left, right), es[..|es| - 1]), es[|es| - 1], Configures(es[..|es| - 1]));
    }
  }

  lemma BootConfig(left: Port, right: Port)
    ensures ConfigKnown(Boot(left, right), 0)
  {
  }

  // From power-up every cycle runs under the last configuration staged before it,
  // as long as fewer than 2^32 were ...
  lemma ConfigTakesEffect(left: Port, right: Port, es: seq<Event>)
    requires Configures(es) < RANGE
    ensures InForce(Run(Boot(left, right), es)) == Run(Boot(left, right), es).k.front.staged
  {
    hide Run, Boot;
    ConfigStaysKnown(left, right, es);
    InForceIs(Run(Boot(left, right), es));
  }

  // ... for a block is lost exactly when its counter comes round to the value last
  // taken (and it differs from the one then in force).
  lemma ConfigureTakesEffectIff(p: Plant, config: Config)
    ensures var q := After(p, Configure(config));
            InForce(q) == q.k.front.staged <==>
              (p.k.front.cfgSeq + 1) % 0x1_0000_0000 != p.k.activeCfgSeq || p.k.active == q.k.front.staged
  {
    InForceIs(After(p, Configure(config)));
  }
}
