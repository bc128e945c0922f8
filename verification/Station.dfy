// The robot's end of the wire as a function: what each complete line does to
// the sequence state, the adapter and the sink (dispatch() and the execute half
// of src/protocol/protocol_handler.cpp), and that under it lies exactly the
// sequence machine of Reliability.
module Station {
  import opened Options
  import opened Law
  import opened Tokens
  import opened Lines
  import opened Verbs
  import Ascii
  import A = Adapter
  import C = ConfigText
  import K = KernelCycle
  import R = Reliability

  // A line handed to the sink. `InfoLine` stands for an id, ver, status or help
  // line, whose text is not modelled.
  datatype Outgoing =
    | Answer(reply: R.Reply)
    | ErrLine(code: nat, id: nat)
    | PongLine(now: uint32)
    | EstopLine
    | BannerLine
    | GetLine(name: string, text: string)
    | InfoLine(verb: string)

  // What the handler sees of the world during one call.
  datatype Context = Context(nowUs: nat, countsPerLength: real, outputNow: uint32)

  // What executing a request may change.
  datatype Body = Body(front: K.Front, mode: A.TlmMode, headerSent: bool)

  datatype Station = Station(
    expected: uint32, malformed: uint32, log: seq<(nat, Request)>, body: Body, sink: seq<Outgoing>)

  // ---- executing -------------------------------------------------------------------

  function GetField(c: Config, name: string): seq<Outgoing> {
    match A.FindFrom(0, name)
    case None => []
    case Some(f) => [GetLine(name, C.Format(A.Read(c, f)))]
  }

  // Bare GET: one line per declared field.
  function GetAll(c: Config, n: nat): seq<Outgoing>
    requires n <= |A.FIELDS|
  {
    if n == 0 then [] else GetAll(c, n - 1) + GetField(c, A.FieldName(A.FIELDS[n - 1]))
  }

  // The body after the request, the adapter's result code, and what was written.
  function Execute(b: Body, x: Context, request: Request): (Body, nat, seq<Outgoing>) {
    match request
    case WheelsV(left, right, duration) =>
      var (front, result) := A.WheelsVSpec(b.front, x.countsPerLength, x.nowUs, left as real, right as real, duration);
      (b.(front := front), A.ResultCode(result), [])
    case Motion(_, _, _) => (b, UNKNOWN, [])
    case Get(None) => (b, 0, GetAll(b.front.staged, |A.FIELDS|))
    case Get(Some(name)) => (b, 0, GetField(b.front.staged, name))
    case Set(name, value) =>
      var (front, result) := A.SetSpec(b.front, name, value);
      (b.(front := front), A.ResultCode(result), [])
    case Tlm(mode) =>
      if mode == A.Hdr then (b.(headerSent := false), 0, [])
      else (b.(mode := if mode == A.Now then b.mode else mode), 0, [])
    case Stop(_) => (b.(front := K.NeutralSpec(b.front)), 0, [])
    case Run(_, _) => (b, UNKNOWN, [])
    case Query(verb) => (b, 0, if verb == "FUNCS" then [] else [InfoLine(verb)])
    case Refused(code) => (b, code, [])
  }

  function ErrIf(code: nat, id: nat): seq<Outgoing> { if code != 0 then [ErrLine(code, id)] else [] }

  // ---- one line --------------------------------------------------------------------

  function Say(s: Station, lines: seq<Outgoing>): Station { s.(sink := s.sink + lines) }

  function Malformed(s: Station): Station { s.(malformed := Next32(s.malformed)) }

  // Lines outside the sequence, and lines that cannot be placed in it.
  function Aside(s: Station, x: Context, content: string): Station {
    var verb := if Split(content) == [] then [] else Split(content)[0];
    if verb == "ESTOP" then Say(s.(body := s.body.(front := s.body.front.(estop := true))), [EstopLine])
    else if verb == "PING" then Say(s, [PongLine(x.outputNow)])
    else if CountsMalformed(content, s.expected) then Malformed(s)
    else s
  }

  function InOrder(s: Station, x: Context, id: uint32, request: Request): Station {
    if request.Refused? then Say(Malformed(s), [Answer(R.Nack(s.expected)), ErrLine(request.code, id)])
    else
      var (body, code, written) := Execute(s.body, x, request);
      Say(s.(expected := Next32(id), log := s.log + [(id as nat, request)], body := body),
          [Answer(R.Ack(id))] + written + ErrIf(code, id))
  }

  function Respond(s: Station, x: Context, content: string): Station {
    match Classify(content)
    case Unsequenced => Aside(s, x, content)
    case Hello => Say(s.(expected := 1), [BannerLine])
    case Sequenced(id, request, _) =>
      if id < s.expected then Say(s, [Answer(R.Ack(s.expected - 1))])
      else if id > s.expected then Say(s, [Answer(R.Nack(s.expected))])
      else InOrder(s, x, id, request)
  }

  function RespondTo(s: Station, x: Context, heard: Heard): Station {
    match heard
    case TooLong => Malformed(s)
    case Complete(content) => Respond(s, x, content)
  }

  function RespondAll(s: Station, x: Context, hs: seq<Heard>): Station {
    if hs == [] then s else RespondTo(RespondAll(s, x, hs[..|hs| - 1]), x, hs[|hs| - 1])
  }

  lemma {:induction false} RespondAllSplits(s: Station, x: Context, a: seq<Heard>, b: seq<Heard>)
    ensures RespondAll(s, x, a + b) == RespondAll(RespondAll(s, x, a), x, b)
  {
    if b == [] {
      assert a + b == a;
    } else {
      assert (a + b)[..|a + b| - 1] == a + b[..|b| - 1];
      RespondAllSplits(s, x, a, b[..|b| - 1]);
    }
  }

  lemma RespondAllOne(s: Station, x: Context, h: Heard)
    ensures RespondAll(s, x, [h]) == RespondTo(s, x, h)
    ensures RespondAll(s, x, []) == s
  {
    assert [h][..0] == [];
    assert RespondAll(s, x, [h][..0]) == s;
  }

  // ---- the sequence machine underneath -----------------------------------------------

  function AsRobot(s: Station): R.Robot<Request> { R.Robot(s.expected, s.log) }

  function Answers(lines: seq<Outgoing>): seq<R.Reply> {
    if lines == [] then []
    else Answers(lines[..|lines| - 1]) + if lines[|lines| - 1].Answer? then [lines[|lines| - 1].reply] else []
  }

  lemma AnswersSnoc(a: seq<Outgoing>, o: Outgoing)
    ensures Answers(a + [o]) == Answers(a) + if o.Answer? then [o.reply] else []
  {
    assert (a + [o])[..|a|] == a;
  }

  lemma {:induction false} AnswersAppend(a: seq<Outgoing>, b: seq<Outgoing>)
    ensures Answers(a + b) == Answers(a) + Answers(b)
  {
    if b == [] {
      assert a + b == a;
    } else {
      var init, last := b[..|b| - 1], b[|b| - 1];
      AnswersAppend(a, init);
      assert a + b == (a + init) + [last];
      AnswersSnoc(a + init, last);
    }
  }

  lemma AnswersOne(o: Outgoing)
    ensures Answers([o]) == if o.Answer? then [o.reply] else []
  {
    AnswersSnoc([], o);
    assert [] + [o] == [o];
  }

  lemma {:induction false} GettingIsNoAnswer(c: Config, n: nat)
    requires n <= |A.FIELDS|
    ensures Answers(GetAll(c, n)) == []
  {
    hide A.FindFrom, A.FieldName, A.Read, C.Format;
    if n > 0 {
      GettingIsNoAnswer(c, n - 1);
      var more := GetField(c, A.FieldName(A.FIELDS[n - 1]));
      AnswersAppend(GetAll(c, n - 1), more);
      if more != [] { AnswersOne(more[0]); }
    }
  }

  lemma ExecutingIsNoAnswer(b: Body, x: Context, request: Request)
    ensures Answers(Execute(b, x, request).2) == []
  {
    hide A.FindFrom, A.WheelsVSpec, A.SetSpec, C.Format, A.Read;
    var written := Execute(b, x, request).2;
    if request.Get? && request.which.None? {
      GettingIsNoAnswer(b.front.staged, |A.FIELDS|);
    } else if written != [] {
      assert written == [written[0]];
      AnswersOne(written[0]);
    }
  }

  lemma AnswersOfTurn(sink: seq<Outgoing>, id: nat, written: seq<Outgoing>, code: nat)
    requires Answers(written) == []
    ensures Answers(sink + ([Answer(R.Ack(id))] + written + ErrIf(code, id))) == Answers(sink) + [R.Ack(id)]
  {
    hide Answers;
    var acked := sink + [Answer(R.Ack(id))];
    AnswersSnoc(sink, Answer(R.Ack(id)));
    AnswersAppend(acked, written);
    if code != 0 {
      AnswersSnoc(acked + written, ErrLine(code, id));
      assert sink + ([Answer(R.Ack(id))] + written + ErrIf(code, id)) == acked + written + [ErrLine(code, id)];
    } else {
      assert sink + ([Answer(R.Ack(id))] + written + ErrIf(code, id)) == acked + written;
    }
  }

  lemma AnswersOfRefusal(sink: seq<Outgoing>, n: nat, code: nat, id: nat)
    ensures Answers(sink + [Answer(R.Nack(n)), ErrLine(code, id)]) == Answers(sink) + [R.Nack(n)]
  {
    hide Answers;
    AnswersSnoc(sink, Answer(R.Nack(n)));
    AnswersSnoc(sink + [Answer(R.Nack(n))], ErrLine(code, id));
    assert sink + [Answer(R.Nack(n)), ErrLine(code, id)] == (sink + [Answer(R.Nack(n))]) + [ErrLine(code, id)];
  }

  lemma InOrderAnswers(s: Station, x: Context, id: uint32, request: Request)
    ensures var t := InOrder(s, x, id, request);
            Answers(t.sink) == Answers(s.sink) + [if request.Refused? then R.Nack(s.expected) else R.Ack(id)]
  {
    hide Execute, Answers, ErrIf;
    if request.Refused? {
      AnswersOfRefusal(s.sink, s.expected, request.code, id);
    } else {
      var (body, code, written) := Execute(s.body, x, request);
      ExecutingIsNoAnswer(s.body, x, request);
      AnswersOfTurn(s.sink, id, written, code);
    }
  }

  // The handler answers and advances exactly as the sequence machine does, with
  // the line classified by Verbs: the adapter's verdict on an executed request
  // changes neither.
  lemma RespondRefines(s: Station, x: Context, content: string)
    ensures var (robot, replies) := R.Receive(AsRobot(s), Classify(content));
            var t := Respond(s, x, content);
            AsRobot(t) == robot && Answers(t.sink) == Answers(s.sink) + replies
  {
    hide Classify, Execute, Split, CountsMalformed, InOrder;
    match Classify(content)
    case Unsequenced =>
      AnswersSnoc(s.sink, EstopLine);
      AnswersSnoc(s.sink, PongLine(x.outputNow));
    case Hello => AnswersSnoc(s.sink, BannerLine);
    case Sequenced(id, request, decodes) =>
      ClassifiedSanely(content);
      if s.expected > 0 { AnswersSnoc(s.sink, Answer(R.Ack(s.expected - 1))); }
      AnswersSnoc(s.sink, Answer(R.Nack(s.expected)));
      InOrderAnswers(s, x, id, request);
      InOrderAdvances(s, x, id, request);
  }

  lemma ClassifiedSanely(content: string)
    ensures var p := Classify(content); p.Sequenced? ==> p.decodes == !p.payload.Refused? && p.id < RANGE
  {
    hide Decode;
  }

  lemma InOrderAdvances(s: Station, x: Context, id: uint32, request: Request)
    ensures var t := InOrder(s, x, id, request);
            if request.Refused? then AsRobot(t) == AsRobot(s)
            else AsRobot(t) == R.Robot((id + 1) % R.UINT32_RANGE, s.log + [(id as nat, request)])
  {
    hide Execute;
  }

  // The same, over any number of lines.
  function ReceiveAll(r: R.Robot<Request>, hs: seq<Heard>): (R.Robot<Request>, seq<R.Reply>) {
    if hs == [] then (r, [])
    else
      var (before, replies) := ReceiveAll(r, hs[..|hs| - 1]);
      match hs[|hs| - 1]
      case TooLong => (before, replies)
      case Complete(content) =>
        var (after, more) := R.Receive(before, Classify(content));
        (after, replies + more)
  }

  lemma {:induction false} StationRefinesRobot(s: Station, x: Context, hs: seq<Heard>)
    ensures var t := RespondAll(s, x, hs);
            var (robot, replies) := ReceiveAll(AsRobot(s), hs);
            AsRobot(t) == robot && Answers(t.sink) == Answers(s.sink) + replies
  {
    hide Respond, Classify, R.Receive;
    if hs != [] {
      var before := RespondAll(s, x, hs[..|hs| - 1]);
      StationRefinesRobot(s, x, hs[..|hs| - 1]);
      match hs[|hs| - 1]
      case TooLong =>
      case Complete(content) => RespondRefines(before, x, content);
    }
  }

  // ---- what a line can do ---------------------------------------------------------------

  // Only two kinds of line touch the adapter: an ESTOP, and a line executed in
  // its turn. A stale, early or undecodable line drives nothing.
  lemma OnlyExecutedLinesAct(s: Station, x: Context, content: string)
    requires Respond(s, x, content).body != s.body
    ensures (Classify(content).Sequenced? &&
             Respond(s, x, content).log == s.log + [(s.expected as nat, Classify(content).payload)]) ||
            (Split(content) != [] && Split(content)[0] == "ESTOP" &&
             Respond(s, x, content).body == s.body.(front := s.body.front.(estop := true)))
  {
    hide Execute, Classify, CountsMalformed;
  }

  // The verbs that need no id: ESTOP always stops and PING always answers, whatever
  // follows them; a bare HELLO starts the sequence over, and one with more behind it
  // is malformed; replies are not meant for the robot at all.
  lemma UnnumberedLines(s: Station, x: Context, content: string)
    requires Split(content) != []
    ensures var ts, t := Split(content), Respond(s, x, content);
            && (ts[0] == "ESTOP" ==>
                  t == s.(body := s.body.(front := s.body.front.(estop := true)), sink := s.sink + [EstopLine]))
            && (ts[0] == "PING" ==> t == s.(sink := s.sink + [PongLine(x.outputNow)]))
            && (ts == ["HELLO"] ==> t == s.(expected := 1, sink := s.sink + [BannerLine]))
            && (ts[0] == "HELLO" && |ts| > 1 ==> t == s.(malformed := (s.malformed + 1) % 0x1_0000_0000))
            && (ts[0] != [] && 'a' <= ts[0][0] <= 'z' ==> t == s)
  {
    hide Decode, Execute, Ascii.ParseMandatoryId, SplitAt, StartsAt;
  }

  // Every other line is judged by the id it ends in: past ids are acked again, ids
  // ahead nacked, both without a look at the rest; the id expected is the line's
  // turn; and a line without an id is only counted.
  lemma NumberedLines(s: Station, x: Context, content: string)
    requires Split(content) != []
    requires var verb := Split(content)[0];
             verb != "ESTOP" && verb != "PING" && verb != "HELLO" && !LowercaseLed(verb)
    ensures var ts, t := Split(content), Respond(s, x, content);
            match Ascii.ParseMandatoryId(LastToken(content))
            case None => t == s.(malformed := (s.malformed + 1) % 0x1_0000_0000)
            case Some(id) =>
              && (id < s.expected ==> t == s.(sink := s.sink + [Answer(R.Ack(s.expected - 1))]))
              && (id > s.expected ==> t == s.(sink := s.sink + [Answer(R.Nack(s.expected))]))
              && (id == s.expected ==> t == InOrder(s, x, id, Decode(ts[0], DataFields(ts))))
  {
    hide Decode, Execute, Ascii.ParseMandatoryId, SplitAt, StartsAt, InOrder;
  }

  // What each kind of request comes to, in its turn: the planner's verbs and RUN are
  // acked and then refused with code 1, for nothing stands behind them; TLM picks
  // the snapshot by its word, and HDR forgets the header instead; STOP empties the
  // mailbox.
  lemma RequestsInTurn(s: Station, x: Context, id: uint32, verb: string, ints: seq<int>, timeout: uint32,
                       args: seq<string>, now: bool)
    ensures var t := InOrder(s, x, id, Motion(verb, ints, timeout));
            t.sink == s.sink + [Answer(R.Ack(id)), ErrLine(1, id)] && t.body == s.body
    ensures var t := InOrder(s, x, id, Run(verb, args));
            t.sink == s.sink + [Answer(R.Ack(id)), ErrLine(1, id)] && t.body == s.body
    ensures var t := InOrder(s, x, id, Stop(now));
            && t.sink == s.sink + [Answer(R.Ack(id))]
            && t.body.front.command.mode == K.Neutral && t.body.front.staged == s.body.front.staged
            && t.body.front.estop == s.body.front.estop
  {
    assert [Answer(R.Ack(id))] + [] + ErrIf(1, id) == [Answer(R.Ack(id)), ErrLine(1, id)];
    assert [Answer(R.Ack(id))] + [] + ErrIf(0, id) == [Answer(R.Ack(id))];
  }

  // The queries each write their one line, but FUNCS, whose registry is empty here;
  // none changes anything.
  lemma QueriesInTurn(s: Station, x: Context, id: uint32, verb: string)
    requires verb == "ID" || verb == "VER" || verb == "STATUS" || verb == "HELP" || verb == "FUNCS"
    ensures var t := InOrder(s, x, id, Decode(verb, []));
            && t.body == s.body
            && t.sink == s.sink + [Answer(R.Ack(id))] + (if verb == "FUNCS" then [] else [InfoLine(verb)])
  {
    var written := if verb == "FUNCS" then [] else [InfoLine(verb)];
    assert s.sink + ([Answer(R.Ack(id))] + written + ErrIf(0, id)) == s.sink + [Answer(R.Ack(id))] + written;
  }

  // A bare GET answers with every declared field, in the declared order.
  lemma {:induction false} BareGetListsAll(c: Config, n: nat)
    requires n <= |A.FIELDS|
    ensures |GetAll(c, n)| == n
    ensures forall i :: 0 <= i < n ==> GetAll(c, n)[i] == GetLineOf(c, A.FIELDS[i])
  {
    hide GetField, GetLineOf, A.FieldName;
    if n > 0 {
      BareGetListsAll(c, n - 1);
      GetFieldAnswers(c, A.FIELDS[n - 1]);
    }
  }

  // The field's own name, and the text of its value.
  function GetLineOf(c: Config, field: A.Field): Outgoing {
    GetLine(A.FieldName(field), C.Format(A.Read(c, field)))
  }

  lemma GetFieldAnswers(c: Config, field: A.Field)
    ensures GetField(c, A.FieldName(field)) == [GetLineOf(c, field)]
  {
    hide A.FieldName, A.Read, A.FindFrom, C.Format;
    A.FindsEveryField(field, 0);
    assert field in A.FIELDS[0..];
  }

  lemma TlmInTurn(s: Station, x: Context, id: uint32)
    ensures InOrder(s, x, id, Decode("TLM", ["FULL"])).body == s.body.(mode := A.FullRate)
    ensures InOrder(s, x, id, Decode("TLM", ["POSE"])).body == s.body.(mode := A.Pose)
    ensures InOrder(s, x, id, Decode("TLM", ["OFF"])).body == s.body.(mode := A.Off)
    ensures InOrder(s, x, id, Decode("TLM", ["AUTO"])).body == s.body.(mode := A.Auto)
    ensures InOrder(s, x, id, Decode("TLM", ["NOW"])).body == s.body
    ensures InOrder(s, x, id, Decode("TLM", ["HDR"])).body == s.body.(headerSent := false)
  {
    hide Decode;
    TlmWords([]);
  }

  // The malformed counter counts exactly the lines CountsMalformed names.
  lemma MalformedIff(s: Station, x: Context, content: string)
    ensures Respond(s, x, content).malformed ==
            if CountsMalformed(content, s.expected) then Next32(s.malformed) else s.malformed
  {
    hide Execute, Decode, Ascii.ParseMandatoryId, SplitAt, StartsAt;
  }
}
