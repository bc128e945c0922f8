// How often a stop is re-written, over any run of the kernel: commands, latches,
// reconfigurations, rebases and emergency stops may fall anywhere in between.
module StopPath {
  import opened Law
  import opened KernelCycle
  import opened DriveRuns

  // The cycles over which a stop is re-asserted.
  const FULL_STOP: nat := 30

  // A motor reports more than the rest speed, either way.
  predicate Turning(l: Loop) {
    || l.left.port.reading.velocity > 100.0 || l.left.port.reading.velocity < -100.0
    || l.right.port.reading.velocity > 100.0 || l.right.port.reading.velocity < -100.0
  }

  // The cycle at p enters an estop or stall halt, which restarts the countdown.
  ghost predicate EntersHalt(p: Plant) {
    Halted(TakeRequests(p.k, p.nowUs)) && !p.k.gates.wasForcedStop
  }

  // Both motors were written once more, or neither was.
  ghost predicate Wrote(before: Loop, after: Loop, yes: bool) {
    var n := if yes then 1 else 0;
    after.left.port.writes == before.left.port.writes + n && after.right.port.writes == before.right.port.writes + n
  }

  ghost predicate Stops(before: Loop, after: Loop) { !Silent(before) && Silent(after) }

  // How many cycles ago enforcement was last due in full: since the cycle that
  // brought the motors to zero, since begin(), or counting from the cycle that
  // entered a halt. A run starts with what its first state has left.
  ghost function Age(p: Plant, es: seq<Event>): nat
    requires p.k.loop.stopEnforceCountdown <= FULL_STOP
  {
    if es == [] then FULL_STOP - p.k.loop.stopEnforceCountdown
    else
      var q, e := Run(p, es[..|es| - 1]), es[|es| - 1];
      var age := Age(p, es[..|es| - 1]);
      if e.Begin? then 0
      else if !e.Cycle? || !CanStep(q.k, q.nowUs) then age
      else if Stops(q.k.loop, After(q, e).k.loop) then 0
      else if EntersHalt(q) then 1
      else age + 1
  }

  // ---- one write gate, one cycle ---------------------------------------------------

  function Ticked(countdown: nat): nat { if countdown > 0 then countdown - 1 else 0 }

  ghost predicate Gated(before: Loop, after: Loop) {
    after.stopEnforceCountdown ==
      if Stops(before, after) then FULL_STOP else Ticked(before.stopEnforceCountdown)
  }

  lemma GateOf(l: Loop, dutyLeft: real, dutyRight: real)
    ensures var m := StageDuty(l, dutyLeft, dutyRight);
            && Gated(l, m)
            && (Silent(m) <==> dutyLeft == 0.0 && dutyRight == 0.0)
            && (Silent(m) ==> Wrote(l, m, !Silent(l) || l.stopEnforceCountdown > 0 || Turning(l)))
  {
  }

  // The control step reaches its one gate with the gate's own state untouched.
  lemma ControlGate(cfg: Config, l: Loop, cmd: Command, mode: Mode, epoch: int, dt: real, nowUs: nat, now: uint32)
    requires mode == Velocity ==> Usable(cfg) && cfg.fullDutyVelocity > 0.0
    ensures var m := ControlStep(cfg, l, cmd, mode, epoch, dt, nowUs, now);
            && Gated(l, m)
            && (mode == Neutral ==>
                  Silent(m) && Wrote(l, m, !Silent(l) || l.stopEnforceCountdown > 0 || Turning(l)))
  {
    hide StageDuty, DriveWheel, PlanTargets, UpdateLatch, Stalling, Clamp;
    match mode
    case Neutral =>
      GateOf(l.(left := NeutralWheel(l.left), right := NeutralWheel(l.right),
                lambda := 1.0, twistRef := l.twistRef.(armed := false),
                stallSince := 0, stallLatched := false), 0.0, 0.0);
    case RawDuty =>
      var rail, dl, dr := cfg.maxDuty * 0.01, cmd.dutyLeft * 0.01, cmd.dutyRight * 0.01;
      GateOf(l.(left := RawWheel(l.left, dl, rail), right := RawWheel(l.right, dr, rail),
                lambda := 1.0, twistRef := l.twistRef.(armed := false)),
             Clamp(dl, -rail, rail), Clamp(dr, -rail, rail));
    case Velocity =>
      var t := PlanTargets(cfg, l, cmd, epoch, dt);
      var adaptAllowed := t.lambda >= LAMBDA_ADAPT_FLOOR;
      DriveWheelKeepsPort(cfg, cfg.mapLeft, l.left, t.speedLeft, epoch, dt, nowUs, now, adaptAllowed);
      DriveWheelKeepsPort(cfg, cfg.mapRight, l.right, t.speedRight, epoch, dt, nowUs, now, adaptAllowed);
      var (left, dutyLeft) := DriveWheel(cfg, cfg.mapLeft, l.left, t.speedLeft, epoch, dt, nowUs, now, adaptAllowed);
      var (right, dutyRight) :=
        DriveWheel(cfg, cfg.mapRight, l.right, t.speedRight, epoch, dt, nowUs, now, adaptAllowed);
      var (since, latched) :=
        UpdateLatch(Stalling(cfg, cmd, l.left.sample, l.right.sample), cfg.stallWindow, now, l.stallSince);
      GateOf(Loop(left, right, t.twistRef, t.lambda, l.stallHalted || latched, since, latched, l.stopEnforceCountdown),
             dutyLeft, dutyRight);
  }

  // The countdown a cycle's gate starts from.
  ghost function Countdown(p: Plant): nat {
    if EntersHalt(p) then FULL_STOP else p.k.loop.stopEnforceCountdown
  }

  lemma CycleGate(p: Plant, readLeft: Reading, readRight: Reading)
    requires CanStep(p.k, p.nowUs)
    ensures var l, m, c := p.k.loop, After(p, Cycle(readLeft, readRight)).k.loop, Countdown(p);
            && m.stopEnforceCountdown == (if Stops(l, m) then FULL_STOP else Ticked(c))
            && (MustStop(p) ==> Silent(m) && Wrote(l, m, !Silent(l) || c > 0 || Turning(l)))
  {
    hide ControlStep, RefreshSample, OutputOf, NextGates, Usable, EffectiveMode;
    var k, now := TakeRequests(p.k, p.nowUs), Millis(p.nowUs);
    RequestsKeepGate(p.k, p.nowUs);
    var l := EnterHalt(k.gates, k.loop, Halted(k));
    HaltKeepsGate(k.gates, k.loop, Halted(k));
    ModeIsCalibrated(k.front.command, Halted(k), k.active.fullDutyVelocity > 0.0, now);
    ControlGate(k.active, l, k.front.command, ModeOf(k, now), k.requests.epoch,
                Seconds(MeasuredPeriod(p.k.clock, p.nowUs)), k.clock.previousCycleStart, now);
  }

  ghost predicate SameGate(l: Loop, m: Loop) {
    && l.left.written == m.left.written && l.right.written == m.right.written
    && l.left.port.writes == m.left.port.writes && l.right.port.writes == m.right.port.writes
    && Turning(l) == Turning(m)
  }

  lemma RequestsKeepGate(k: Kernel, cycleStart: nat)
    ensures var t := TakeRequests(k, cycleStart);
            SameGate(k.loop, t.loop) && t.loop.stopEnforceCountdown == k.loop.stopEnforceCountdown && t.gates == k.gates
  {
  }

  lemma HaltKeepsGate(g: Gates, l: Loop, halted: bool)
    ensures var m := EnterHalt(g, l, halted);
            && SameGate(l, m)
            && m.stopEnforceCountdown ==
               if halted && !g.wasForcedStop then FULL_STOP else l.stopEnforceCountdown
  {
  }

  // Nothing but a cycle and begin() touches the gate's state.
  lemma OtherEventsKeepGate(p: Plant, e: Event)
    requires !e.Cycle?
    ensures SameGate(p.k.loop, After(p, e).k.loop)
    ensures After(p, e).k.loop.stopEnforceCountdown ==
            if e.Begin? then FULL_STOP else p.k.loop.stopEnforceCountdown
  {
    hide ValidUntil, Next32;
  }

  // ---- whole runs --------------------------------------------------------------------

  lemma {:induction false} CountdownIsAge(p: Plant, es: seq<Event>)
    requires p.k.loop.stopEnforceCountdown <= FULL_STOP
    ensures Run(p, es).k.loop.stopEnforceCountdown ==
            if Age(p, es) < FULL_STOP then FULL_STOP - Age(p, es) else 0
  {
    hide After, CanStep, EntersHalt, Stops;
    if es != [] {
      var q, e := Run(p, es[..|es| - 1]), es[|es| - 1];
      CountdownIsAge(p, es[..|es| - 1]);
      if !e.Cycle? {
        OtherEventsKeepGate(q, e);
      } else if CanStep(q.k, q.nowUs) {
        CycleGate(q, e.readLeft, e.readRight);
      } else {
        NoCycle(q, e.readLeft, e.readRight);
      }
    }
  }

  // A cycle that must stop writes zero to both motors exactly when something was
  // still staged, a wheel exceeds the rest speed, it enters a halt, or fewer than
  // 30 cycles have passed since a stop, begin() or the entry of a halt; and it
  // writes nothing otherwise.
  lemma StopIsWrittenIff(p: Plant, es: seq<Event>, readLeft: Reading, readRight: Reading)
    requires p.k.loop.stopEnforceCountdown <= FULL_STOP
    ensures var q := Run(p, es);
            var m := After(q, Cycle(readLeft, readRight)).k.loop;
            MustStop(q) ==>
              && Silent(m)
              && Wrote(q.k.loop, m, !Silent(q.k.loop) || Turning(q.k.loop) || EntersHalt(q) ||
                                    Age(p, es) < FULL_STOP)
  {
    hide After, Run, EntersHalt, Turning, Silent, Usable;
    CountdownIsAge(p, es);
    var q := Run(p, es);
    if MustStop(q) { CycleGate(q, readLeft, readRight); }
  }

  // The cycles of a run that leave both motors at zero.
  ghost function StopCycles(p: Plant, es: seq<Event>): nat {
    if es == [] then 0
    else
      var q, e := Run(p, es[..|es| - 1]), es[|es| - 1];
      StopCycles(p, es[..|es| - 1]) + if e.Cycle? && CanStep(q.k, q.nowUs) && Silent(After(q, e).k.loop) then 1 else 0
  }

  // Motion in between only restarts the count, so while the motors stand at zero
  // the age is at most the stop cycles since.
  lemma {:induction false} AgeIsByStops(p: Plant, es: seq<Event>, later: seq<Event>)
    requires p.k.loop.stopEnforceCountdown <= FULL_STOP
    requires Silent(Run(p, es).k.loop) ==> Age(p, es) == 0
    ensures Run(p, es + later) == Run(Run(p, es), later)
    ensures Silent(Run(p, es + later).k.loop) ==> Age(p, es + later) <= StopCycles(Run(p, es), later)
    decreases |later|
  {
    hide After, CanStep, EntersHalt, Silent;
    if later == [] {
      assert es + later == es;
    } else {
      var all, init, e := es + later, later[..|later| - 1], later[|later| - 1];
      assert all[..|all| - 1] == es + init && all[|all| - 1] == e;
      AgeIsByStops(p, es, init);
      var q := Run(p, es + init);
      if !e.Cycle? {
        OtherEventsKeepGate(q, e);
        SameIsSilent(q.k.loop, After(q, e).k.loop);
      } else if !CanStep(q.k, q.nowUs) {
        NoCycle(q, e.readLeft, e.readRight);
      }
    }
  }

  lemma SameIsSilent(l: Loop, m: Loop)
    requires SameGate(l, m)
    ensures Silent(l) == Silent(m)
  {
  }

  // So a stop after motion, whatever caused it, is written at once, and again at
  // each of the next 30 stop cycles, whatever events lie between.
  lemma StopIsReasserted(p: Plant, es: seq<Event>, first: Event, later: seq<Event>,
                         readLeft: Reading, readRight: Reading)
    requires p.k.loop.stopEnforceCountdown <= FULL_STOP && first.Cycle?
    ensures var q := Run(p, es);
            MustStop(q) && !Silent(q.k.loop) ==>
              && Wrote(q.k.loop, After(q, first).k.loop, true)
              && var r := Run(After(q, first), later);
                 StopCycles(After(q, first), later) < FULL_STOP && MustStop(r) ==>
                   Wrote(r.k.loop, After(r, Cycle(readLeft, readRight)).k.loop, true)
  {
    hide After, Silent, Turning, EntersHalt, Usable, MustStop, Wrote, CanStep;
    var q := Run(p, es);
    var stopped := es + [first];
    assert stopped[..|es|] == es && Run(p, stopped) == After(q, first);
    StopIsWrittenIff(p, es, first.readLeft, first.readRight);
    if MustStop(q) && !Silent(q.k.loop) {
      StopCanStep(q);
      assert Age(p, stopped) == 0;
      AgeIsByStops(p, stopped, later);
      StopIsWrittenIff(p, stopped + later, readLeft, readRight);
    }
  }

  lemma StopCanStep(p: Plant)
    ensures MustStop(p) ==> CanStep(p.k, p.nowUs)
  {
    hide TakeRequests, EffectiveMode;
  }

  lemma BootCountsDown(left: Port, right: Port)
    ensures Boot(left, right).k.loop.stopEnforceCountdown <= FULL_STOP
  {
  }

  // From power-up, over any run at all.
  lemma EveryStopIsWrittenIff(left: Port, right: Port, es: seq<Event>, readLeft: Reading, readRight: Reading)
    ensures Boot(left, right).k.loop.stopEnforceCountdown <= FULL_STOP
    ensures var q := Run(Boot(left, right), es);
            var m := After(q, Cycle(readLeft, readRight)).k.loop;
            MustStop(q) ==>
              && Silent(m)
              && Wrote(q.k.loop, m, !Silent(q.k.loop) || Turning(q.k.loop) || EntersHalt(q) ||
                                    Age(Boot(left, right), es) < FULL_STOP)
  {
    hide After, Run, EntersHalt, Turning, Silent, MustStop, Boot, Wrote, Age;
    BootCountsDown(left, right);
    StopIsWrittenIff(Boot(left, right), es, readLeft, readRight);
  }

  // An estop that lands long after a quiet stop (an expired lease, say) is
  // written afresh: entering the halt restarts the enforcement.
  lemma LateEstopIsWritten(p: Plant, readLeft: Reading, readRight: Reading)
    requires !p.k.gates.wasForcedStop
    ensures var q := After(p, EstopCmd);
            Wrote(q.k.loop, After(q, Cycle(readLeft, readRight)).k.loop, true)
  {
    hide Turning, Silent, CycleMode, TakeRequests, CanStep;
    var q := After(p, EstopCmd);
    assert q.k.front.estop && q.k.gates == p.k.gates;
    StopsIff(q);
    RequestsKeepFront(q.k, q.nowUs);
    assert MustStop(q) && EntersHalt(q);
    StopCanStep(q);
    hide After;
    CycleGate(q, readLeft, readRight);
  }
}
