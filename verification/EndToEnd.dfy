// The pieces joined: the sequence theorems on real text, a WHEELS_V from the
// host's call to the kernel's wheel targets, and the dead-man over runs in which
// every motion command comes over the wire.
module EndToEnd {
  import opened Options
  import opened Law
  import opened Tokens
  import opened Lines
  import opened Ascii
  import opened Verbs
  import opened Codec
  import opened Station
  import A = Adapter
  import D = Delivery
  import K = KernelCycle
  import P = DriveRuns
  import R = Reliability
  import S = StallLatch
  import M = Ports
  import Q = Acceptance
  import U = Resume

  // ---- the sequence layer on text ----------------------------------------------------

  type TextWorld = R.World<string, Request>
  type TextEvent = R.Event<string, Request>

  // What send() puts on the wire, of texts free of LF and NUL, is one line and a
  // step of the machine, never a refused one.
  lemma EncodedSendIsAStep(lim: R.Limits, s: TextWorld, verb: string, fields: seq<Field>)
    requires R.HasRoom(lim, s.host) && !Unsequenceable(verb)
    requires EncodeCommand(verb, fields, Some(s.host.nextId)).Some? && Free(LF, verb, fields) && Free(NUL, verb, fields)
    ensures var line := EncodeCommand(verb, fields, Some(s.host.nextId)).value;
            var t := R.Step(ClassifyRaw, lim, s, R.Send(line));
            && t.host == R.Buffer(s.host, line) && t.sent == s.sent + [Some(line)] && line in t.up
            && Segments(line + "\n") == [line]
  {
    hide ClassifyRaw, EncodeCommand, Free, SegmentsAt;
    EncodedIsNumbered(verb, fields, s.host.nextId);
  }

  // The requests executed are the readings of the first lines sent: each once, in
  // order, decoded as sent.
  ghost predicate Delivered(s: TextWorld) {
    && |s.robot.executed| == s.robot.expected - 1 <= |s.sent|
    && forall j :: 0 <= j < |s.robot.executed| ==>
         s.sent[j].Some? && ClassifyRaw(s.sent[j].value) == R.Sequenced(j + 1, s.robot.executed[j].1, true)
  }

  // Over any run of host, robot and lossy link that is so if and only if every
  // HELLO found the robot still expecting id 1.
  lemma TextExactlyOnce(lim: R.Limits, es: seq<TextEvent>)
    requires |R.Run(ClassifyRaw, lim, R.Init(), es).sent| <= R.MAX_IDS
    ensures Delivered(R.Run(ClassifyRaw, lim, R.Init(), es)) <==> R.HelloOnlyEarly(ClassifyRaw, lim, R.Init(), es)
  {
    hide ClassifyRaw, R.HelloOnlyEarly, R.Run;
    D.ExactlyOnceIff(ClassifyRaw, lim, es);
    var s := R.Run(ClassifyRaw, lim, R.Init(), es);
    if R.HelloOnlyEarly(ClassifyRaw, lim, R.Init(), es) {
      forall j | 0 <= j < |s.robot.executed|
        ensures s.sent[j].Some? && ClassifyRaw(s.sent[j].value) == R.Sequenced(j + 1, s.robot.executed[j].1, true)
      {
        assert R.ExecutedAs(ClassifyRaw, s.sent[j], j + 1, s.robot.executed[j]);
      }
    }
  }

  // The bytes of one line, whatever they are, move the handler as one delivery
  // moves the machine's robot: over-long and blank lines included.
  lemma LineIsOneDelivery(s: Station, x: Context, raw: string)
    ensures var (robot, replies) := R.Receive(AsRobot(s), ClassifyRaw(raw));
            var t := RespondAll(s, x, Judge(raw));
            AsRobot(t) == robot && Answers(t.sink) == Answers(s.sink) + replies
  {
    hide Respond, Answers;
    if |raw| >= MAX_LINE_BYTES {
      RespondAllOne(s, x, TooLong);
    } else if Blank(StripCr(raw)) {
      BlankStaysBlank(StripCr(raw));
      BlankHasNoTokens(Content(raw));
      RespondAllOne(s, x, TooLong);
    } else {
      RespondAllOne(s, x, Complete(Content(raw)));
      RespondRefines(s, x, Content(raw));
    }
  }

  lemma BlankStaysBlank(s: string)
    requires Blank(s)
    ensures Blank(UpToNul(s))
  {
  }

  // So a WHEELS_V that was sent as id j+1 and has been executed was executed
  // with the very numbers it was called with.
  lemma WheelsVArrivesUnchanged(lim: R.Limits, es: seq<TextEvent>, j: nat, left: int, right: int, duration: int)
    requires R.HelloOnlyEarly(ClassifyRaw, lim, R.Init(), es)
    requires |R.Run(ClassifyRaw, lim, R.Init(), es).sent| <= R.MAX_IDS
    requires AllInt32([left, right]) && 0 <= duration <= UINT32_MAX
    requires var s := R.Run(ClassifyRaw, lim, R.Init(), es);
             && j < |s.robot.executed| && j < |s.sent|
             && s.sent[j] == EncodeCommand("WHEELS_V", [Int(left), Int(right), Int(duration)], Some(j + 1))
    ensures R.Run(ClassifyRaw, lim, R.Init(), es).robot.executed[j].1 == WheelsV(left, right, duration)
  {
    hide ClassifyRaw, EncodeCommand, R.Run;
    TextExactlyOnce(lim, es);
    WheelsVRoundTrip(left, right, duration, j + 1);
  }

  // ---- wire to wheel -------------------------------------------------------------------

  function EncodeWheelsV(left: int, right: int, duration: int, id: nat): Option<string> {
    EncodeCommand("WHEELS_V", [Int(left), Int(right), Int(duration)], Some(id))
  }

  // One encoded WHEELS_V, in its turn, at a kernel that takes commands: heard,
  // acked, and turned into exactly the wheel targets it names.
  lemma WireToWheel(s: Station, x: Context, left: int, right: int, duration: int, id: uint32, line: string)
    requires AllInt32([left, right]) && 0 <= duration <= 5000
    requires EncodeWheelsV(left, right, duration, id) == Some(line)
    requires s.expected == id && Q.Open(s.body.front) && s.body.front.staged.fullDutyVelocity > 0.0
    ensures var t := RespondAll(s, x, Judged(Segments(line + "\n")));
            var cmd := t.body.front.command;
            && t.expected == (id + 1) % 0x1_0000_0000 && t.log == s.log + [(id as nat, WheelsV(left, right, duration))]
            && t.sink == s.sink + [Answer(R.Ack(id))]
            && cmd.mode == K.Velocity
            && cmd.velocity - cmd.twist == left as real * x.countsPerLength
            && cmd.velocity + cmd.twist == right as real * x.countsPerLength
            && cmd.validUntil == (x.nowUs / 1000 + duration) % 0x1_0000_0000
  {
    hide EncodeCommand, RespondAll, Judged, Segments, Q.Open;
    HeardAlone(s, x, line, left, right, duration, id);
    TakenAsCommand(s.body.front, x, left as real, right as real, duration);
    var t := RespondAll(s, x, Judged(Segments(line + "\n")));
    assert [Answer(R.Ack(id))] + [] + ErrIf(0, id) == [Answer(R.Ack(id))];
    assert t.sink == s.sink + [Answer(R.Ack(id))];
  }

  lemma TakenAsCommand(front: K.Front, x: Context, left: real, right: real, duration: uint32)
    requires duration <= 5000 && Q.Open(front) && front.staged.fullDutyVelocity > 0.0
    ensures var (f, result) := A.WheelsVSpec(front, x.countsPerLength, x.nowUs, left, right, duration);
            var cmd := f.command;
            && A.ResultCode(result) == 0
            && cmd.mode == K.Velocity
            && cmd.velocity - cmd.twist == left * x.countsPerLength
            && cmd.velocity + cmd.twist == right * x.countsPerLength
            && cmd.validUntil == (x.nowUs / 1000 + duration) % 0x1_0000_0000
  {
    hide K.DriveSpec, Q.Open;
    Q.WheelsVAcceptedIff(front, x.countsPerLength, x.nowUs, left, right, duration);
    CodeZero(A.WheelsVSpec(front, x.countsPerLength, x.nowUs, left, right, duration).1);
    A.WheelTargetsAreExact(front, x.countsPerLength, x.nowUs, left, right, duration);
  }

  lemma CodeZero(result: A.Result)
    ensures A.ResultCode(result) == 0 <==> result == A.Accepted
  {
  }

  // Whatever the duration and whatever state the kernel is in, the line is acked,
  // for it arrived intact; it is refused on merit with code 3 past 5000 ms, with
  // code 8 when the kernel is not begun, stopped, without a duty limit or not
  // calibrated, and not otherwise. Refused, it leaves the mailbox alone.
  lemma WireVerdict(s: Station, x: Context, left: int, right: int, duration: int, id: uint32, line: string)
    requires AllInt32([left, right]) && 0 <= duration <= UINT32_MAX
    requires EncodeWheelsV(left, right, duration, id) == Some(line) && s.expected == id
    ensures var t := RespondAll(s, x, Judged(Segments(line + "\n")));
            var f, f' := s.body.front, t.body.front;
            var takes := f.begun && !f.estop && f.staged.maxDuty > 0.0 && f.staged.fullDutyVelocity > 0.0;
            && t.expected == (id + 1) % 0x1_0000_0000
            && t.sink == s.sink + [Answer(R.Ack(id))] +
                         (if duration > 5000 then [ErrLine(3, id)] else if takes then [] else [ErrLine(8, id)])
            && (duration > 5000 || !takes ==> f'.command == f.command && f'.cmdSeq == f.cmdSeq)
  {
    hide EncodeCommand, RespondAll, Judged, Segments, A.WheelsVSpec;
    HeardAlone(s, x, line, left, right, duration, id);
    Q.WheelsVAcceptedIff(s.body.front, x.countsPerLength, x.nowUs, left as real, right as real, duration);
    var code := A.ResultCode(A.WheelsVSpec(s.body.front, x.countsPerLength, x.nowUs, left as real, right as real,
                                           duration).1);
    assert [Answer(R.Ack(id))] + [] + ErrIf(code, id) == [Answer(R.Ack(id))] + ErrIf(code, id);
    assert s.sink + ([Answer(R.Ack(id))] + ErrIf(code, id)) == s.sink + [Answer(R.Ack(id))] + ErrIf(code, id);
  }

  // Past the 5000 ms ceiling the whole body is left as it was.
  lemma WirePastCeiling(s: Station, x: Context, left: int, right: int, duration: int, id: uint32, line: string)
    requires AllInt32([left, right]) && 5000 < duration <= UINT32_MAX
    requires EncodeWheelsV(left, right, duration, id) == Some(line) && s.expected == id
    ensures var t := RespondAll(s, x, Judged(Segments(line + "\n")));
            t.expected == Next32(id) && t.body == s.body && t.sink == s.sink + [Answer(R.Ack(id)), ErrLine(3, id)]
  {
    hide EncodeCommand, RespondAll, Judged, Segments, K.DriveSpec;
    HeardAlone(s, x, line, left, right, duration, id);
    assert [Answer(R.Ack(id))] + [] + ErrIf(3, id) == [Answer(R.Ack(id)), ErrLine(3, id)];
  }

  lemma HeardAlone(s: Station, x: Context, line: string, left: int, right: int, duration: uint32, id: uint32)
    requires EncodeWheelsV(left, right, duration, id) == Some(line)
    requires AllInt32([left, right]) && s.expected == id
    ensures RespondAll(s, x, Judged(Segments(line + "\n"))) == InOrder(s, x, id, WheelsV(left, right, duration))
  {
    hide InOrder, EncodeCommand, Classify, Execute, Judge;
    WheelsVRoundTrip(left, right, duration, id);
    NoLfInCommand(left, right, duration, id);
    OneLine(line, "");
    assert line + [LF] + "" == line + "\n";
    CutIs("", 0, 0);
    assert Segments("") == [];
    assert Segments(line + "\n") == [line];
    JudgedOne(line);
    WordsAreHeard(line);
    RespondAllOne(s, x, Complete(Content(line)));
  }

  lemma WordsAreHeard(line: string)
    requires |line| < MAX_LINE_BYTES && Classify(Content(line)).Sequenced?
    ensures Judge(line) == [Complete(Content(line))]
  {
    hide ClassifyTokens;
    BlankHasNoTokens(Content(line));
    if Blank(StripCr(line)) { BlankStaysBlank(StripCr(line)); }
  }

  lemma NoLfInCommand(left: int, right: int, duration: uint32, id: uint32)
    ensures var encoded := EncodeWheelsV(left, right, duration, id);
            encoded.Some? && LF !in encoded.value
  {
    hide Join, IntText, Dec;
    var ns := [left, right, duration];
    var ts := CommandTokens("WHEELS_V", ns, id);
    assert IntFields(ns) == [Int(left), Int(right), Int(duration)];
    IntFieldsFormat(ns);
    forall k | 0 <= k < |ts| ensures LF !in ts[k] {
      if 0 < k <= 3 { NoLfInInt(ns[k - 1]); }
      if k == 4 { NoLfInInt(id); NonNegativeText(id); }
    }
    NoLfJoined(ts);
  }

  lemma NoLfInInt(n: int)
    ensures LF !in IntText(n)
  {
    var s := if n < 0 then Dec(-n) else Dec(n);
    assert forall k :: 0 <= k < |s| ==> IsDigit(s[k]);
  }

  lemma {:induction false} NoLfJoined(ts: seq<string>)
    requires forall k :: 0 <= k < |ts| ==> LF !in ts[k]
    ensures LF !in Join(ts)
  {
    if |ts| > 1 { NoLfJoined(ts[1..]); }
  }

  // ---- the dead-man, end to end ----------------------------------------------------------

  // The robot as a whole: the kernel on its clock, and the handler in front of
  // it. They share what the kernel calls its front.
  datatype Machine = Machine(p: P.Plant, s: Station)

  datatype Tick =
    | Hears(content: string)     // one complete line
    | Happens(event: P.Event)    // time, a cycle, or a local call

  ghost predicate Joined(m: Machine) { m.s.body.front == m.p.k.front }

  function ContextOf(m: Machine, countsPerLength: real): Context {
    Context(m.p.nowUs, countsPerLength, m.p.k.out.now)
  }

  // What a line does to the kernel, as one of the kernel's own events.
  function EventOf(m: Machine, x: Context, content: string): P.Event {
    var c := Classify(content);
    if c.Unsequenced? then
      if Split(content) != [] && Split(content)[0] == "ESTOP" then P.EstopCmd else P.Wait(0)
    else if !c.Sequenced? || c.id != m.s.expected then P.Wait(0)
    else
      match c.payload
      case WheelsV(left, right, duration) => P.WireWheelsV(x.countsPerLength, left as real, right as real, duration)
      case Stop(_) => P.StopCmd
      case Set(name, value) =>
        (match A.FindFrom(0, name)
         case None => P.Wait(0)
         case Some(field) => P.Configure(A.Put(m.p.k.front.staged, field, value)))
      case _ => P.Wait(0)
  }

  function Next(m: Machine, countsPerLength: real, t: Tick): Machine {
    match t
    case Hears(content) =>
      var x := ContextOf(m, countsPerLength);
      Machine(P.After(m.p, EventOf(m, x, content)), Respond(m.s, x, content))
    case Happens(event) =>
      var p := P.After(m.p, event);
      Machine(p, m.s.(body := m.s.body.(front := p.k.front)))
  }

  function RunMachine(m: Machine, countsPerLength: real, ts: seq<Tick>): Machine {
    if ts == [] then m else Next(RunMachine(m, countsPerLength, ts[..|ts| - 1]), countsPerLength, ts[|ts| - 1])
  }

  function EventsOf(m: Machine, countsPerLength: real, ts: seq<Tick>): seq<P.Event> {
    if ts == [] then []
    else
      var before := RunMachine(m, countsPerLength, ts[..|ts| - 1]);
      EventsOf(m, countsPerLength, ts[..|ts| - 1]) +
      [match ts[|ts| - 1]
       case Hears(content) => EventOf(before, ContextOf(before, countsPerLength), content)
       case Happens(event) => event]
  }

  // A line changes the kernel exactly as its event does.
  lemma LineIsItsEvent(m: Machine, x: Context, content: string)
    requires Joined(m) && x.nowUs == m.p.nowUs
    ensures Respond(m.s, x, content).body.front == P.After(m.p, EventOf(m, x, content)).k.front
  {
    hide Classify, Split, CountsMalformed, A.WheelsVSpec, A.Put, A.FindFrom, K.SetConfigSpec, K.NeutralSpec, K.Step;
    var c := Classify(content);
    if c.Sequenced? && c.id == m.s.expected {
      ClassifiedSanely(content);
      RequestIsItsEvent(m, x, c.payload);
    }
  }

  // ---- wire to motor ---------------------------------------------------------------------

  // A wire speed in encoder counts.
  function Counts(speed: int, countsPerLength: real): real { speed as real * countsPerLength }

  // The bytes of one WHEELS_V, in its turn, and then one cycle: under a law of
  // feedforward alone each motor is left with its own share of full duty, held to
  // the rail. Left goes to the left port and right to the right.
  lemma WireToMotor(m: Machine, countsPerLength: real, left: int, right: int, duration: int, id: uint32, line: string,
                    readLeft: K.Reading, readRight: K.Reading)
    requires Joined(m) && m.s.expected == id && EncodeWheelsV(left, right, duration, id) == Some(line)
    requires AllInt32([left, right]) && 0 < duration <= 5000
    requires m.p.k.front.begun && !m.p.k.front.estop
    requires m.p.k.front.staged.maxDuty > 0.0 && m.p.k.front.staged.fullDutyVelocity > 0.0
    requires var k := K.TakeRequests(m.p.k, m.p.nowUs); M.FeedforwardOnly(k.active) && !k.loop.stallHalted
    requires P.Primed(m.p.k.loop) && m.p.k.loop.left.bias == 0.0 && m.p.k.loop.right.bias == 0.0
    ensures Judged(Segments(line + "\n")) == [Complete(Content(line))]
    ensures var cfg := K.TakeRequests(m.p.k, m.p.nowUs).active;
            var heard := Next(m, countsPerLength, Hears(Content(line)));
            var l := P.After(heard.p, P.Cycle(readLeft, readRight)).k.loop;
            && M.AtMotor(cfg, Counts(left, countsPerLength), l.left.port.duty)
            && M.AtMotor(cfg, Counts(right, countsPerLength), l.right.port.duty)
  {
    hide EncodeCommand, Judged, Segments, P.Primed, M.FeedforwardOnly, M.AtMotor, K.TakeRequests, P.After, Next, Counts;
    HeardWhole(line, left, right, duration, id);
    HearsAsEvent(m, countsPerLength, Content(line), left, right, duration);
    CommandReachesMotors(m.p, countsPerLength, left, right, duration, readLeft, readRight);
  }

  // Such a moment is reached from power-up: configure, begin(), one cycle.
  lemma MotorsAreReached(left: K.Port, right: K.Port)
    ensures var p := P.Run(P.Boot(left, right),
                           [P.Configure(U.PLAIN), P.Begin, P.Cycle(U.JAMMED, U.JAMMED), P.Wait(1000)]);
            var f, k := p.k.front, K.TakeRequests(p.k, p.nowUs);
            && f.begun && !f.estop && f.staged.maxDuty > 0.0 && f.staged.fullDutyVelocity > 0.0
            && M.FeedforwardOnly(k.active) && !k.loop.stallHalted
            && P.Primed(p.k.loop) && p.k.loop.left.bias == 0.0 && p.k.loop.right.bias == 0.0
  {
    hide P.Run, P.Boot, K.TakeRequests, P.Primed;
    var es := [P.Configure(U.PLAIN), P.Begin, P.Cycle(U.JAMMED, U.JAMMED), P.Wait(1000)];
    var p := P.Run(P.Boot(left, right), es);
    U.ReadyIsReached(left, right);
    U.ReadyRequests(p);
    StartedIsPrimed(left, right);
    S.ClockIsSet(p.k, p.nowUs);
  }

  lemma StartedIsPrimed(left: K.Port, right: K.Port)
    ensures P.Primed(P.Run(P.Boot(left, right),
                           [P.Configure(U.PLAIN), P.Begin, P.Cycle(U.JAMMED, U.JAMMED), P.Wait(1000)]).k.loop)
  {
    hide P.After;
    var es := [P.Configure(U.PLAIN), P.Begin, P.Cycle(U.JAMMED, U.JAMMED), P.Wait(1000)];
    var rest := [P.Cycle(U.JAMMED, U.JAMMED), P.Wait(1000)];
    var a := P.Run(P.Boot(left, right), es[..1]);
    assert es[..4] == es && es[..4][..3] == es[..3] && es[..3][..2] == es[..2] && es[..2][..1] == es[..1];
    assert rest[..2] == rest && rest[..2][..1] == rest[..1] && rest[..1][..0] == [];
    var b := P.After(a, P.Begin);
    assert P.Run(P.Boot(left, right), es[..2]) == b;
    BegunIsPrimed(a);
    P.StaysPrimed(b, rest);
    assert P.Run(b, rest[..1]) == P.After(b, rest[0]);
    assert P.Run(b, rest) == P.After(P.After(b, rest[0]), rest[1]);
    assert P.Run(P.Boot(left, right), es[..3]) == P.After(b, es[2]);
    assert P.Run(P.Boot(left, right), es) == P.After(P.After(b, es[2]), es[3]);
  }

  lemma BegunIsPrimed(p: P.Plant)
    ensures P.Primed(P.After(p, P.Begin).k.loop)
  {
  }

  lemma HearsAsEvent(m: Machine, countsPerLength: real, content: string, left: int, right: int, duration: uint32)
    requires Classify(content) == R.Sequenced(m.s.expected, WheelsV(left, right, duration), true)
    ensures Next(m, countsPerLength, Hears(content)).p ==
            P.After(m.p, P.WireWheelsV(countsPerLength, left as real, right as real, duration))
  {
    hide Classify, Respond, P.After;
  }

  lemma CommandReachesMotors(p: P.Plant, c: real, left: int, right: int, duration: uint32,
                             readLeft: K.Reading, readRight: K.Reading)
    requires p.k.front.begun && !p.k.front.estop && 0 < duration <= 5000
    requires p.k.front.staged.maxDuty > 0.0 && p.k.front.staged.fullDutyVelocity > 0.0
    requires var k := K.TakeRequests(p.k, p.nowUs); M.FeedforwardOnly(k.active) && !k.loop.stallHalted
    requires P.Primed(p.k.loop) && p.k.loop.left.bias == 0.0 && p.k.loop.right.bias == 0.0
    ensures var cfg := K.TakeRequests(p.k, p.nowUs).active;
            var q := P.After(p, P.WireWheelsV(c, left as real, right as real, duration));
            var l := P.After(q, P.Cycle(readLeft, readRight)).k.loop;
            M.AtMotor(cfg, Counts(left, c), l.left.port.duty) && M.AtMotor(cfg, Counts(right, c), l.right.port.duty)
  {
    hide P.Primed, P.CycleMode, M.FeedforwardOnly, M.AtMotor, K.TakeRequests, P.After;
    Calibrated(K.TakeRequests(p.k, p.nowUs).active);
    Commanded(p, c, left as real, right as real, duration);
    var q := P.After(p, P.WireWheelsV(c, left as real, right as real, duration));
    M.FeedforwardReachesItsMotor(q, readLeft, readRight);
    var cmd := q.k.front.command;
    assert cmd.velocity - cmd.twist == Counts(left, c) && cmd.velocity + cmd.twist == Counts(right, c);
  }

  lemma Calibrated(cfg: Config)
    requires M.FeedforwardOnly(cfg)
    ensures cfg.fullDutyVelocity > 0.0
  {
  }

  lemma HeardWhole(line: string, left: int, right: int, duration: uint32, id: uint32)
    requires EncodeWheelsV(left, right, duration, id) == Some(line) && AllInt32([left, right])
    ensures Judged(Segments(line + "\n")) == [Complete(Content(line))]
    ensures Classify(Content(line)) == R.Sequenced(id, WheelsV(left, right, duration), true)
  {
    hide EncodeCommand, Classify, Judge, SegmentsAt;
    WheelsVRoundTrip(left, right, duration, id);
    NoLfInCommand(left, right, duration, id);
    OnlyLineIff(line);
    JudgedOne(line);
    WordsAreHeard(line);
  }

  // The mailbox right after an accepted WHEELS_V, at the next cycle.
  lemma Commanded(p: P.Plant, c: real, left: real, right: real, duration: uint32)
    requires p.k.front.begun && !p.k.front.estop && 0 < duration <= 5000
    requires p.k.front.staged.maxDuty > 0.0 && p.k.front.staged.fullDutyVelocity > 0.0
    requires var k := K.TakeRequests(p.k, p.nowUs); k.active.fullDutyVelocity > 0.0 && !k.loop.stallHalted
    ensures var q := P.After(p, P.WireWheelsV(c, left, right, duration));
            var cmd := q.k.front.command;
            && q.k.loop == p.k.loop && q.nowUs == p.nowUs
            && K.TakeRequests(q.k, q.nowUs).active == K.TakeRequests(p.k, p.nowUs).active
            && cmd.velocity - cmd.twist == left * c && cmd.velocity + cmd.twist == right * c
            && P.CycleMode(q) == K.Velocity
  {
    hide P.CycleMode, K.LeaseLive, K.StartCycle, K.Rebased, K.Rebaselined;
    A.WheelTargetsAreExact(p.k.front, c, p.nowUs, left, right, duration);
    var q := P.After(p, P.WireWheelsV(c, left, right, duration));
    P.ValidUntilIsTrue(p.nowUs, duration);
    U.StillLive(q.k.front.command, p.nowUs / 1000, duration, p.nowUs);
    P.StopsIff(q);
  }

  lemma RequestIsItsEvent(m: Machine, x: Context, request: Request)
    requires Joined(m) && x.nowUs == m.p.nowUs
    ensures var e := match request
              case WheelsV(left, right, duration) =>
                P.WireWheelsV(x.countsPerLength, left as real, right as real, duration)
              case Stop(_) => P.StopCmd
              case Set(name, value) =>
                (match A.FindFrom(0, name)
                 case None => P.Wait(0)
                 case Some(field) => P.Configure(A.Put(m.p.k.front.staged, field, value)))
              case _ => P.Wait(0);
            Execute(m.s.body, x, request).0.front == P.After(m.p, e).k.front
  {
    hide A.WheelsVSpec, A.Put, A.FindFrom, K.SetConfigSpec, K.NeutralSpec, K.Step, GetAll, GetField;
  }

  lemma {:induction false} MachineIsPlant(m: Machine, countsPerLength: real, ts: seq<Tick>)
    requires Joined(m)
    ensures var n := RunMachine(m, countsPerLength, ts);
            Joined(n) && n.p == P.Run(m.p, EventsOf(m, countsPerLength, ts))
  {
    hide P.After, EventOf, Respond;
    if ts != [] {
      var init, t := ts[..|ts| - 1], ts[|ts| - 1];
      MachineIsPlant(m, countsPerLength, init);
      var before := RunMachine(m, countsPerLength, init);
      if t.Hears? { LineIsItsEvent(before, ContextOf(before, countsPerLength), t.content); }
      var es := EventsOf(m, countsPerLength, ts);
      assert es[..|es| - 1] == EventsOf(m, countsPerLength, init);
    }
  }

  // No local caller drives: every motion command is a line.
  ghost predicate OnlyWireDrives(ts: seq<Tick>) {
    forall i :: 0 <= i < |ts| && ts[i].Happens? ==> !ts[i].event.DriveCmd? && !ts[i].event.DutyCmd?
  }

  lemma {:induction false} EventsAreWire(m: Machine, countsPerLength: real, ts: seq<Tick>)
    requires OnlyWireDrives(ts)
    ensures P.FromWireOnly(EventsOf(m, countsPerLength, ts))
  {
    hide RunMachine, Classify, Split;
    if ts != [] { EventsAreWire(m, countsPerLength, ts[..|ts| - 1]); }
  }

  // Over any run of lines, time and cycles from power-up, a cycle 5000 ms or more
  // after the last command was accepted stops, and leaves zero staged for both
  // motors, unless the lease has revived under a command that nothing holds back.
  lemma WireDeadManEndToEnd(left: K.Port, right: K.Port, s: Station, countsPerLength: real, ts: seq<Tick>,
                            readLeft: K.Reading, readRight: K.Reading)
    requires Joined(Machine(P.Boot(left, right), s)) && OnlyWireDrives(ts)
    ensures var p := RunMachine(Machine(P.Boot(left, right), s), countsPerLength, ts).p;
            p.nowUs / 1000 >= p.acceptedAt + 5000 ==>
              && (P.MustStop(p) <==> P.HeldBack(p) || !P.Revived(p.acceptedAt, p.lease, p.nowUs / 1000))
              && (P.MustStop(p) ==> P.Silent(P.After(p, P.Cycle(readLeft, readRight)).k.loop))
  {
    hide P.After, P.Run, P.Silent, P.MustStop, P.Boot, P.HeldBack, P.Revived, RunMachine, EventsOf, P.FromWireOnly;
    var m := Machine(P.Boot(left, right), s);
    MachineIsPlant(m, countsPerLength, ts);
    EventsAreWire(m, countsPerLength, ts);
    P.WireDeadMan(left, right, EventsOf(m, countsPerLength, ts), readLeft, readRight);
  }
}
