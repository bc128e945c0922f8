// The stall self-halt: what the latch means over a run of evaluations, when
// the kernel halts itself, and that the halt then holds.
module StallLatch {
  import opened Law
  import opened KernelCycle
  import opened DriveRuns

  // ---- the latch against a history ------------------------------------------------

  // One evaluation: the condition, when it was made, and the window configured then.
  datatype Eval = Eval(condition: bool, at: uint32, window: real)

  function Latch(h: seq<Eval>): (uint32, bool) {
    if h == [] then (0, false)
    else
      var last := h[|h| - 1];
      UpdateLatch(last.condition, last.window, last.at, Latch(h[..|h| - 1]).0)
  }

  // A window that is not positive switches the latch off, like a false condition.
  predicate Holds(e: Eval) { e.condition && e.window > 0.0 }

  // It held at every evaluation from i on.
  ghost predicate Unbroken(h: seq<Eval>, i: nat) {
    forall j :: i <= j < |h| ==> Holds(h[j])
  }

  // i is the first evaluation, within the stretch still unbroken, at a nonzero
  // time (0 is the code's own mark for "not started").
  ghost predicate StretchStart(h: seq<Eval>, i: nat) {
    && i < |h| && Unbroken(h, i) && h[i].at != 0
    && forall j :: 0 <= j < i && Unbroken(h, j) ==> h[j].at == 0
  }

  lemma UnbrokenPrefix(h: seq<Eval>, i: nat)
    requires h != [] && i < |h|
    ensures Unbroken(h, i) <==> Holds(h[|h| - 1]) && Unbroken(h[..|h| - 1], i)
  {
    var g := h[..|h| - 1];
    if Holds(h[|h| - 1]) && Unbroken(g, i) {
      forall j | i <= j < |h| ensures Holds(h[j]) {
        if j < |h| - 1 { assert Holds(g[j]); }
      }
    }
    if Unbroken(h, i) {
      forall j | i <= j < |g| ensures Holds(g[j]) { assert Holds(h[j]); }
    }
  }

  // `since` is the time at the start of the unbroken stretch, whatever windows
  // were configured along it.
  lemma {:induction false} SinceMeansStart(h: seq<Eval>)
    ensures var since := Latch(h).0;
            && (since != 0 ==> exists i: nat :: StretchStart(h, i) && h[i].at == since)
            && (since == 0 ==> forall i :: 0 <= i < |h| && Unbroken(h, i) ==> h[i].at == 0)
  {
    hide Holds;
    if h != [] {
      var g, n := h[..|h| - 1], |h| - 1;
      SinceMeansStart(g);
      forall i: nat | i < |h| ensures Unbroken(h, i) <==> Holds(h[n]) && Unbroken(g, i) {
        UnbrokenPrefix(h, i);
      }
      var before := Latch(g).0;
      SinceStep(h);
      if Holds(h[n]) {
        assert Unbroken(g, n);
        if before != 0 {
          var i: nat :| StretchStart(g, i) && g[i].at == before;
          assert StretchStart(h, i);
        } else if h[n].at != 0 {
          assert StretchStart(h, n);
        }
      }
    }
  }

  lemma SinceStep(h: seq<Eval>)
    requires h != []
    ensures var last, before := h[|h| - 1], Latch(h[..|h| - 1]).0;
            && Latch(h).0 == (if !Holds(last) then 0 else if before == 0 then last.at else before)
            && (Latch(h).1 <==> Holds(last) && Sub32(last.at, Latch(h).0) >= last.window.Floor)
  {
  }

  lemma StartIsUnique(h: seq<Eval>, i: nat, j: nat)
    requires StretchStart(h, i) && StretchStart(h, j)
    ensures i == j
  {
  }

  // It has held at every evaluation of an unbroken stretch that began, at a
  // nonzero time, at least `span` ms before the last evaluation.
  ghost predicate HeldFor(h: seq<Eval>, span: int) {
    h != [] && exists i: nat :: StretchStart(h, i) && Sub32(h[|h| - 1].at, h[i].at) >= span
  }

  // Latched exactly when it holds now and has held for the window configured now,
  // truncated to whole milliseconds. A window under 1 ms truncates to none: then
  // one evaluation is enough.
  lemma LatchedIff(h: seq<Eval>)
    ensures Latch(h).1 <==>
            h != [] && Holds(h[|h| - 1]) && (h[|h| - 1].window.Floor == 0 || HeldFor(h, h[|h| - 1].window.Floor))
  {
    hide Holds, Latch;
    if h != [] {
      SinceMeansStart(h);
      SinceStep(h);
      if Holds(h[|h| - 1]) {
        WindowIsNotNegative(h[|h| - 1]);
        LatchedGivenSince(h, Latch(h).0);
      }
    } else {
      EmptyLatch();
    }
  }

  lemma EmptyLatch()
    ensures !Latch([]).1
  {
  }

  lemma WindowIsNotNegative(e: Eval)
    ensures Holds(e) ==> e.window.Floor >= 0
  {
  }

  lemma LatchedGivenSince(h: seq<Eval>, since: uint32)
    requires h != [] && Holds(h[|h| - 1]) && h[|h| - 1].window.Floor >= 0
    requires since != 0 ==> exists i: nat :: StretchStart(h, i) && h[i].at == since
    requires since == 0 ==> forall i :: 0 <= i < |h| && Unbroken(h, i) ==> h[i].at == 0
    ensures Sub32(h[|h| - 1].at, since) >= h[|h| - 1].window.Floor <==>
            h[|h| - 1].window.Floor == 0 || HeldFor(h, h[|h| - 1].window.Floor)
  {
    hide Unbroken, Holds;
    var last, span := h[|h| - 1], h[|h| - 1].window.Floor;
    if since == 0 {
      assert !HeldFor(h, span);
      assert last.at == 0 by { LastIsUnbroken(h); }
    } else {
      var i: nat :| StretchStart(h, i) && h[i].at == since;
      if HeldFor(h, span) {
        var j: nat :| StretchStart(h, j) && Sub32(last.at, h[j].at) >= span;
        StartIsUnique(h, i, j);
      }
    }
  }

  lemma LastIsUnbroken(h: seq<Eval>)
    requires h != [] && Holds(h[|h| - 1])
    ensures Unbroken(h, |h| - 1)
  {
  }

  // ---- the condition ----------------------------------------------------------------

  // Outside -most..most.
  predicate Exceeds(x: real, most: real) { x < -most || most < x }

  // A wheel is asked for more than the demand threshold, neither encoder is seen
  // to turn faster than the stall speed, and both answer.
  predicate Stuck(cfg: Config, cmd: Command, left: WheelSample, right: WheelSample) {
    && 0.0 < cfg.stallDemand
    && (Exceeds(cmd.velocity - cmd.twist, cfg.stallDemand) || Exceeds(cmd.velocity + cmd.twist, cfg.stallDemand))
    && !Exceeds(left.velocity, cfg.stallSpeed) && !Exceeds(right.velocity, cfg.stallSpeed)
    && left.connected && right.connected
  }

  lemma StallingIsStuck(cfg: Config, cmd: Command, left: WheelSample, right: WheelSample)
    ensures Stalling(cfg, cmd, left, right) <==> Stuck(cfg, cmd, left, right)
  {
  }

  // ---- the kernel's latch --------------------------------------------------------

  // What one cycle adds to the latch's history. A raw-duty cycle adds nothing.
  function Adds(p: Plant): seq<Eval> {
    var k := TakeRequests(p.k, p.nowUs);
    var now, window := Millis(p.nowUs), k.active.stallWindow;
    var cleared := if p.k.front.clearStallReq == p.k.requests.seenClearStallReq then [] else [Eval(false, now, window)];
    match CycleMode(p)
    case Neutral => cleared + [Eval(false, now, window)]
    case RawDuty => cleared
    case Velocity =>
      cleared + [Eval(Stuck(k.active, k.front.command, k.loop.left.sample, k.loop.right.sample), now, window)]
  }

  // A velocity cycle counts towards the halt if and only if a window and a demand
  // threshold are configured, a wheel is asked for more than the threshold, both
  // encoder speeds are within the stall speed, and both wheels are connected.
  lemma CountsTowardsHaltIff(p: Plant)
    requires CycleMode(p) == Velocity
    ensures var k, h := TakeRequests(p.k, p.nowUs), Adds(p);
            var cfg, cmd, left, right := k.active, p.k.front.command, k.loop.left.sample, k.loop.right.sample;
            && h != [] && h[|h| - 1].at == (p.nowUs / 1000) % RANGE && h[|h| - 1].window == cfg.stallWindow
            && (Holds(h[|h| - 1]) <==>
                  && cfg.stallWindow > 0.0 && cfg.stallDemand > 0.0
                  && (|| cmd.velocity - cmd.twist > cfg.stallDemand || cmd.velocity - cmd.twist < -cfg.stallDemand
                      || cmd.velocity + cmd.twist > cfg.stallDemand || cmd.velocity + cmd.twist < -cfg.stallDemand)
                  && -cfg.stallSpeed <= left.velocity <= cfg.stallSpeed
                  && -cfg.stallSpeed <= right.velocity <= cfg.stallSpeed
                  && left.connected && right.connected)
  {
    hide TakeRequests, CycleMode;
    RequestsKeepFront(p.k, p.nowUs);
  }

  // The evaluations of a whole run, with the windows it was reconfigured to.
  ghost function History(p: Plant, es: seq<Event>): seq<Eval> {
    if es == [] then []
    else
      var q := Run(p, es[..|es| - 1]);
      History(p, es[..|es| - 1]) +
      if es[|es| - 1].Cycle? && CanStep(q.k, q.nowUs) then Adds(q) else []
  }

  lemma LatchAppend(h: seq<Eval>, e: Eval)
    ensures Latch(h + [e]) == UpdateLatch(e.condition, e.window, e.at, Latch(h).0)
  {
    assert (h + [e])[..|h|] == h;
  }

  ghost predicate Agrees(l: Loop, latch: (uint32, bool)) {
    l.stallSince == latch.0 && l.stallLatched == latch.1
  }

  lemma StagingKeepsStall(l: Loop, dutyLeft: real, dutyRight: real)
    ensures var m := StageDuty(l, dutyLeft, dutyRight);
            m.stallHalted == l.stallHalted && m.stallSince == l.stallSince && m.stallLatched == l.stallLatched
  {
  }

  // One control step on the latch and the halt.
  lemma ControlOnStall(cfg: Config, l: Loop, cmd: Command, mode: Mode, epoch: int, dt: real, nowUs: nat, now: uint32)
    requires mode == Velocity ==> Usable(cfg) && cfg.fullDutyVelocity > 0.0
    ensures var m := ControlStep(cfg, l, cmd, mode, epoch, dt, nowUs, now);
            match mode
            case Neutral => !m.stallLatched && m.stallSince == 0 && m.stallHalted == l.stallHalted
            case RawDuty => m.stallLatched == l.stallLatched && m.stallSince == l.stallSince &&
              m.stallHalted == l.stallHalted
            case Velocity =>
              Agrees(m, UpdateLatch(Stalling(cfg, cmd, l.left.sample, l.right.sample), cfg.stallWindow, now,
                                    l.stallSince)) &&
              m.stallHalted == (l.stallHalted || m.stallLatched)
  {
    hide StageDuty, DriveWheel, PlanTargets, UpdateLatch, Stalling, Clamp, RawWheel, NeutralWheel;
    match mode
    case Neutral =>
      StagingKeepsStall(l.(left := NeutralWheel(l.left), right := NeutralWheel(l.right),
                           lambda := 1.0, twistRef := l.twistRef.(armed := false),
                           stallSince := 0, stallLatched := false), 0.0, 0.0);
    case RawDuty =>
      var rail, dl, dr := cfg.maxDuty * 0.01, cmd.dutyLeft * 0.01, cmd.dutyRight * 0.01;
      StagingKeepsStall(l.(left := RawWheel(l.left, dl, rail), right := RawWheel(l.right, dr, rail),
                           lambda := 1.0, twistRef := l.twistRef.(armed := false)),
                        Clamp(dl, -rail, rail), Clamp(dr, -rail, rail));
    case Velocity =>
      var t := PlanTargets(cfg, l, cmd, epoch, dt);
      var adaptAllowed := t.lambda >= LAMBDA_ADAPT_FLOOR;
      var (left, dutyLeft) := DriveWheel(cfg, cfg.mapLeft, l.left, t.speedLeft, epoch, dt, nowUs, now, adaptAllowed);
      var (right, dutyRight) :=
        DriveWheel(cfg, cfg.mapRight, l.right, t.speedRight, epoch, dt, nowUs, now, adaptAllowed);
      var (since, latched) :=
        UpdateLatch(Stalling(cfg, cmd, l.left.sample, l.right.sample), cfg.stallWindow, now, l.stallSince);
      StagingKeepsStall(Loop(left, right, t.twistRef, t.lambda, l.stallHalted || latched, since, latched,
                             l.stopEnforceCountdown),
                        dutyLeft, dutyRight);
  }

  ghost predicate SameStall(l: Loop, m: Loop) {
    l.stallHalted == m.stallHalted && l.stallSince == m.stallSince && l.stallLatched == m.stallLatched
  }

  // A cycle treats the stall fields as its control step does.
  lemma CycleStallFields(p: Plant, readLeft: Reading, readRight: Reading)
    requires CanStep(p.k, p.nowUs)
    ensures var k, now := TakeRequests(p.k, p.nowUs), Millis(p.nowUs);
            var m := After(p, Cycle(readLeft, readRight)).k.loop;
            match CycleMode(p)
            case Neutral => !m.stallLatched && m.stallSince == 0 && m.stallHalted == k.loop.stallHalted
            case RawDuty => SameStall(m, k.loop)
            case Velocity =>
              Agrees(m, UpdateLatch(Stuck(k.active, k.front.command, k.loop.left.sample, k.loop.right.sample),
                                    k.active.stallWindow, now, k.loop.stallSince)) &&
              !k.loop.stallHalted && m.stallHalted == m.stallLatched
  {
    hide ControlStep, RefreshSample, OutputOf, NextGates, Usable, Stalling, Stuck, TakeRequests, EffectiveMode,
         UpdateLatch;
    var k := TakeRequests(p.k, p.nowUs);
    var now := Millis(p.nowUs);
    StallingIsStuck(k.active, k.front.command, k.loop.left.sample, k.loop.right.sample);
    ModeIsCalibrated(k.front.command, Halted(k), k.active.fullDutyVelocity > 0.0, now);
    HaltedIsNeutral(k.front.command, Halted(k), k.active.fullDutyVelocity > 0.0, now);
    ClockIsSet(p.k, p.nowUs);
    ControlOnStall(k.active, EnterHalt(k.gates, k.loop, Halted(k)), k.front.command, CycleMode(p), k.requests.epoch,
                   Seconds(MeasuredPeriod(p.k.clock, p.nowUs)), k.clock.previousCycleStart, now);
  }

  lemma ClockIsSet(k: Kernel, cycleStart: nat)
    ensures TakeRequests(k, cycleStart).clock.previousCycleStart == cycleStart
    ensures TakeRequests(k, cycleStart).front == k.front
    ensures k.front.clearStallReq == k.requests.seenClearStallReq ==>
            SameStall(TakeRequests(k, cycleStart).loop, k.loop)
    ensures var l := TakeRequests(k, cycleStart).loop;
            k.front.clearStallReq != k.requests.seenClearStallReq ==>
              !l.stallHalted && !l.stallLatched && l.stallSince == 0
  {
  }

  // One cycle: the latch follows its history, and the kernel halts itself when
  // and only when the latch closes.
  lemma CycleOnStall(p: Plant, h: seq<Eval>, readLeft: Reading, readRight: Reading)
    requires CanStep(p.k, p.nowUs)
    requires Agrees(p.k.loop, Latch(h))
    requires p.k.loop.stallLatched ==> p.k.loop.stallHalted
    ensures var q := After(p, Cycle(readLeft, readRight));
            && Agrees(q.k.loop, Latch(h + Adds(p)))
            && (q.k.loop.stallLatched ==> q.k.loop.stallHalted)
            && (q.k.loop.stallHalted <==> TakeRequests(p.k, p.nowUs).loop.stallHalted || q.k.loop.stallLatched)
  {
    hide TakeRequests, After, EffectiveMode, Stuck, Usable, Halted, CycleMode, Latch;
    var k, now := TakeRequests(p.k, p.nowUs), Millis(p.nowUs);
    var window := k.active.stallWindow;
    CycleStallFields(p, readLeft, readRight);
    ClockIsSet(p.k, p.nowUs);
    var cleared := if p.k.front.clearStallReq == p.k.requests.seenClearStallReq then [] else [Eval(false, now, window)];
    var g := h + cleared;
    LatchAppend(h, Eval(false, now, window));
    assert cleared == [] ==> g == h;
    assert Agrees(k.loop, Latch(g));
    LatchAppend(g, Eval(false, now, window));
    var e := Eval(Stuck(k.active, k.front.command, k.loop.left.sample, k.loop.right.sample), now, window);
    LatchAppend(g, e);
    assert h + (cleared + [e]) == g + [e] &&
           h + (cleared + [Eval(false, now, window)]) == g + [Eval(false, now, window)];
  }

  lemma HaltedIsNeutral(cmd: Command, halted: bool, calibrated: bool, now: uint32)
    ensures halted ==> EffectiveMode(cmd, halted, calibrated, now) == Neutral
  {
  }

  lemma OtherEventsKeepStall(p: Plant, e: Event)
    requires !e.Cycle?
    ensures SameStall(After(p, e).k.loop, p.k.loop)
  {
    hide ValidUntil, Next32;
  }

  ghost predicate Unlatched(p: Plant) {
    p.k.loop.stallSince == 0 && !p.k.loop.stallLatched
  }

  // Over any run, reconfigurations included, the latch is exactly the fold of
  // its evaluations ...
  lemma {:induction false} LatchFollowsHistory(p: Plant, es: seq<Event>)
    requires Unlatched(p)
    ensures var q := Run(p, es);
            && Agrees(q.k.loop, Latch(History(p, es)))
            && (q.k.loop.stallLatched ==> q.k.loop.stallHalted)
  {
    hide After, CanStep, Adds;
    if es != [] {
      var init, e := es[..|es| - 1], es[|es| - 1];
      LatchFollowsHistory(p, init);
      var q := Run(p, init);
      if e.Cycle? && CanStep(q.k, q.nowUs) {
        CycleOnStall(q, History(p, init), e.readLeft, e.readRight);
      } else {
        if e.Cycle? { NoCycle(q, e.readLeft, e.readRight); } else { OtherEventsKeepStall(q, e); }
        assert History(p, es) == History(p, init);
      }
    }
  }

  // ... so a cycle leaves the kernel stall-halted exactly when it already was
  // (and no clear was requested) or the condition holds and has now held,
  // unbroken, for the window in force.
  lemma SelfHaltsIff(p: Plant, es: seq<Event>, readLeft: Reading, readRight: Reading)
    requires Unlatched(p)
    ensures var q := Run(p, es);
            var h := History(p, es) + Adds(q);
            CanStep(q.k, q.nowUs) ==>
              (After(q, Cycle(readLeft, readRight)).k.loop.stallHalted <==>
                || (q.k.loop.stallHalted && q.k.front.clearStallReq == q.k.requests.seenClearStallReq)
                || (h != [] && Holds(h[|h| - 1]) &&
                    (h[|h| - 1].window.Floor == 0 || HeldFor(h, h[|h| - 1].window.Floor))))
  {
    hide After, CanStep, Adds, HeldFor, Holds, Latch, Run;
    var q := Run(p, es);
    var h := History(p, es) + Adds(q);
    LatchFollowsHistory(p, es);
    LatchedIff(h);
    if CanStep(q.k, q.nowUs) {
      CycleOnStall(q, History(p, es), readLeft, readRight);
      ClockIsSet(q.k, q.nowUs);
    }
  }

  lemma BootIsUnlatched(left: Port, right: Port)
    ensures Unlatched(Boot(left, right))
  {
  }

  // From power-up: the latch is the fold of everything evaluated since, and a
  // latched kernel is halted.
  lemma LatchSincePowerUp(left: Port, right: Port, es: seq<Event>)
    ensures var q := Run(Boot(left, right), es);
            && Agrees(q.k.loop, Latch(History(Boot(left, right), es)))
            && (q.k.loop.stallLatched ==> q.k.loop.stallHalted)
  {
    hide Boot, Run, History, Latch;
    BootIsUnlatched(left, right);
    LatchFollowsHistory(Boot(left, right), es);
  }

  lemma SelfHaltsSincePowerUpIff(left: Port, right: Port, es: seq<Event>, readLeft: Reading, readRight: Reading)
    ensures var q := Run(Boot(left, right), es);
            var h := History(Boot(left, right), es) + Adds(q);
            CanStep(q.k, q.nowUs) ==>
              (After(q, Cycle(readLeft, readRight)).k.loop.stallHalted <==>
                || (q.k.loop.stallHalted && q.k.front.clearStallReq == q.k.requests.seenClearStallReq)
                || (h != [] && Holds(h[|h| - 1]) &&
                    (h[|h| - 1].window.Floor == 0 || HeldFor(h, h[|h| - 1].window.Floor))))
  {
    hide After, CanStep, Adds, HeldFor, Holds, Boot, Run, History;
    BootIsUnlatched(left, right);
    SelfHaltsIff(Boot(left, right), es, readLeft, readRight);
  }

  // ---- a turning wheel ------------------------------------------------------------

  // One of the two wheels is seen to turn faster than the stall speed.
  predicate Turns(p: Plant) {
    var k := TakeRequests(p.k, p.nowUs);
    Exceeds(k.loop.left.sample.velocity, k.active.stallSpeed) ||
      Exceeds(k.loop.right.sample.velocity, k.active.stallSpeed)
  }

  ghost predicate AlwaysTurning(p: Plant, es: seq<Event>) {
    forall i :: 0 <= i < |es| && es[i].Cycle? && CycleMode(Run(p, es[..i])) == Velocity ==> Turns(Run(p, es[..i]))
  }

  ghost predicate Unhalted(p: Plant) { Unlatched(p) && !p.k.loop.stallHalted }

  lemma TurningCycle(p: Plant, readLeft: Reading, readRight: Reading)
    requires Unhalted(p) && CanStep(p.k, p.nowUs) && (CycleMode(p) == Velocity ==> Turns(p))
    ensures Unhalted(After(p, Cycle(readLeft, readRight)))
  {
    hide TakeRequests, After, CycleMode, CanStep, Exceeds;
    CycleStallFields(p, readLeft, readRight);
    ClockIsSet(p.k, p.nowUs);
  }

  // A kernel one of whose wheels exceeds the stall speed at every velocity cycle
  // (an ordinary pivot on a still wheel, say) never halts itself.
  lemma {:induction false} TurningNeverHalts(p: Plant, es: seq<Event>)
    requires Unhalted(p) && AlwaysTurning(p, es)
    ensures Unhalted(Run(p, es))
  {
    hide After, CanStep, CycleMode, Turns;
    if es != [] {
      var init, e := es[..|es| - 1], es[|es| - 1];
      assert AlwaysTurning(p, init) by {
        forall i | 0 <= i < |init| ensures init[i] == es[i] && init[..i] == es[..i] {}
      }
      TurningNeverHalts(p, init);
      var q := Run(p, init);
      if !e.Cycle? {
        OtherEventsKeepStall(q, e);
      } else if CanStep(q.k, q.nowUs) {
        TurningCycle(q, e.readLeft, e.readRight);
      } else {
        NoCycle(q, e.readLeft, e.readRight);
      }
    }
  }

  lemma TurningSincePowerUpNeverHalts(left: Port, right: Port, es: seq<Event>)
    requires AlwaysTurning(Boot(left, right), es)
    ensures !Run(Boot(left, right), es).k.loop.stallHalted
  {
    TurningNeverHalts(Boot(left, right), es);
  }

  // ---- the halt holds ---------------------------------------------------------------

  ghost predicate NoClear(es: seq<Event>) {
    forall i :: 0 <= i < |es| ==> !es[i].ClearStallCmd?
  }

  ghost predicate HaltHeld(p: Plant) {
    p.k.loop.stallHalted && p.k.front.clearStallReq == p.k.requests.seenClearStallReq
  }

  lemma HaltHeldStep(p: Plant, e: Event)
    requires HaltHeld(p) && !e.ClearStallCmd?
    ensures HaltHeld(After(p, e))
  {
    hide VelocityStep, RawDutyStep, RefreshSample, OutputOf, NextGates, Usable, Next32, ValidUntil, Rebaselined,
         WheelsMoving;
  }

  lemma {:induction false} HaltPersists(p: Plant, es: seq<Event>)
    requires HaltHeld(p) && NoClear(es)
    ensures HaltHeld(Run(p, es))
  {
    hide After;
    if es != [] {
      assert !es[|es| - 1].ClearStallCmd?;
      HaltPersists(p, es[..|es| - 1]);
      HaltHeldStep(Run(p, es[..|es| - 1]), es[|es| - 1]);
    }
  }

  // Only the latching cycle itself may still stage motion: every cycle after it
  // is silent until a clear is requested.
  lemma HaltSilences(p: Plant, es: seq<Event>, readLeft: Reading, readRight: Reading)
    requires HaltHeld(p) && NoClear(es)
    ensures MustStop(Run(p, es)) && Silent(After(Run(p, es), Cycle(readLeft, readRight)).k.loop)
  {
    hide After, Run, CycleMode;
    HaltPersists(p, es);
    var q := Run(p, es);
    ClockIsSet(q.k, q.nowUs);
    StopsIff(q);
    StoppedIsSilent(q, readLeft, readRight);
  }
}
