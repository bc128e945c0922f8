// Protocol::ProtocolHandler as an object (src/protocol/protocol_handler.h and
// .cpp): bytes are reassembled in a fixed buffer, the line is tokenized in place
// and read back through indices into it, and dispatch drives the adapter. The
// whole of feed() is tied to Station's function of the byte history.
module Handler {
  import opened Options
  import opened Law
  import opened Tokens
  import opened Lines
  import opened Ascii
  import opened Verbs
  import opened Station
  import A = Adapter
  import C = ConfigText
  import K = KernelCycle
  import R = Reliability
  import T = Telemetry

  // ---- decoding through a bounded token array -----------------------------------------

  // Every line of a stream has a behaviour.
  ghost predicate AllReadable(raws: seq<string>) { forall raw :: raw in raws ==> Readable(raw) }

  predicate Known(verb: string) {
    IsQuery(verb) || verb == "GET" || verb == "SET" || verb == "TLM" || verb == "WHEELS_V" ||
    MotionArity(verb) > 0 || verb == "STOP" || verb == "RUN"
  }

  // More fields than any verb takes: only the count is looked at.
  lemma TooManyFields(verb: string, fields: seq<string>)
    requires |fields| >= MAX_FIELD_TOKENS - 1
    ensures Decode(verb, fields) == Refused(if Known(verb) then BAD_ARG else UNKNOWN)
  {
  }

  // `stored` are the fields that were kept, `count` how many there really are.
  function DecodeStored(verb: string, stored: seq<string>, count: nat): Request {
    if count <= |stored| then Decode(verb, stored[..count]) else Refused(if Known(verb) then BAD_ARG else UNKNOWN)
  }

  class ProtocolHandler {
    const adapter: A.DiffDriveAdapter
    const telemetry: T.TelemetryEmitter
    const lineBuf: array<char>
    var lineLen: nat
    var overflowing: bool
    var malformedCount: uint32
    var expectedNext: uint32
    // What was handed to the sink, oldest first.
    var sink: seq<Outgoing>

    // All bytes since the last LF, discarded ones included.
    ghost var partial: string
    ghost var executed: seq<(nat, Request)>

    ghost predicate Valid()
      reads this`lineLen, this`overflowing, this`partial, lineBuf
    {
      && lineBuf.Length == MAX_LINE_BYTES
      && LF !in partial
      && overflowing == (|partial| >= MAX_LINE_BYTES)
      && lineLen == (if overflowing then 0 else |partial|)
      && (!overflowing ==> lineBuf[..lineLen] == partial)
    }

    ghost function BodyView(): Body
      reads telemetry`everEmitted, adapter`mode
      reads adapter.drive`begun, adapter.drive`estopLatch, adapter.drive`staged, adapter.drive`cfgSeq,
            adapter.drive`command, adapter.drive`cmdSeq, adapter.drive`clearStallReq, adapter.drive`rebaseReq,
            adapter.drive`lastError
    {
      Body(adapter.drive.FrontView(), adapter.mode, telemetry.everEmitted)
    }

    ghost function View(): Station
      reads this`malformedCount, this`expectedNext, this`sink, this`executed
      reads telemetry`everEmitted, adapter`mode
      reads adapter.drive`begun, adapter.drive`estopLatch, adapter.drive`staged, adapter.drive`cfgSeq,
            adapter.drive`command, adapter.drive`cmdSeq, adapter.drive`clearStallReq, adapter.drive`rebaseReq,
            adapter.drive`lastError
    {
      Station(expectedNext, malformedCount, executed, BodyView(), sink)
    }

    ghost function Seen(nowUs: nat): Context
      reads adapter`countsPerLength, adapter.drive`out
    {
      Context(nowUs, adapter.countsPerLength, adapter.drive.out.now)
    }

    constructor (adapter: A.DiffDriveAdapter)
      ensures Valid() && fresh(lineBuf) && fresh(telemetry) && this.adapter == adapter
      ensures partial == [] && expectedNext == 1 && malformedCount == 0 && executed == [] && sink == []
    {
      this.adapter := adapter;
      telemetry := new T.TelemetryEmitter();
      lineBuf := new char[MAX_LINE_BYTES](i => NUL);
      lineLen, overflowing := 0, false;
      malformedCount, expectedNext := 0, 1;
      sink, partial, executed := [], [], [];
    }

    // ---- feed and reassembly -----------------------------------------------------------

    // `nowUs` is the kernel's clock during the call. No line the block completes
    // has a NUL for its first visible byte: the source would then read a verb
    // pointer it never set.
    method Feed(data: string, nowUs: nat)
      requires Valid() && AllReadable(Segments(partial + data))
      modifies this, lineBuf, telemetry`everEmitted, adapter`mode
      modifies adapter.drive`estopLatch, adapter.drive`staged, adapter.drive`cfgSeq, adapter.drive`command,
               adapter.drive`cmdSeq, adapter.drive`lastError
      ensures Valid() && partial == Tail(old(partial) + data)
      ensures View() == RespondAll(old(View()), old(Seen(nowUs)), Judged(Segments(old(partial) + data)))
    {
      ghost var start, x, before := partial, Seen(nowUs), View();
      FeedStarts(before, x, start, data);
      hide Valid, View, RespondAll, Judged, Segments, Tail;
      for i := 0 to |data|
        invariant Valid() && Seen(nowUs) == x && partial == Tail(start + data[..i])
        invariant View() == RespondAll(before, x, Judged(Segments(start + data[..i])))
      {
        FeedSteps(before, x, start, data, i);
        if data[i] == LF { LineIsAmong(start, data, i); }
        AppendByte(data[i], nowUs);
      }
      assert data[..|data|] == data;
    }

    lemma FeedStarts(s: Station, x: Context, start: string, data: string)
      requires LF !in start
      ensures start + data[..0] == start && Tail(start) == start && RespondAll(s, x, Judged(Segments(start))) == s
    {
      OneLine(start, []);
    }

    lemma FeedSteps(s: Station, x: Context, start: string, data: string, i: nat)
      requires i < |data|
      ensures var h, c := start + data[..i], data[i];
              && start + data[..i + 1] == h + [c]
              && (c == LF ==> Tail(h + [c]) == [])
              && (c == LF ==> RespondAll(s, x, Judged(Segments(h + [c]))) ==
                              RespondAll(RespondAll(s, x, Judged(Segments(h))), x, Judge(Tail(h))))
              && (c != LF ==> Tail(h + [c]) == Tail(h) + [c] && Segments(h + [c]) == Segments(h))
    {
      var h, c := start + data[..i], data[i];
      assert data[..i + 1] == data[..i] + [c];
      assert start + data[..i + 1] == h + [c];
      ByteCarries(h, c);
      JudgedAppend(Segments(h), [Tail(h)]);
      JudgedOne(Tail(h));
      RespondAllSplits(s, x, Judged(Segments(h)), Judge(Tail(h)));
    }

    // A line closed in the middle of a block is one of the block's lines.
    lemma LineIsAmong(start: string, data: string, i: nat)
      requires i < |data| && data[i] == LF
      ensures Tail(start + data[..i]) in Segments(start + data)
    {
      hide Segments, Tail;
      var h, rest := start + data[..i], data[i + 1..];
      assert start + data == (h + [LF]) + rest;
      SplitCarries(h + [LF], rest);
      ByteCarries(h, LF);
    }

    method AppendByte(c: char, nowUs: nat)
      requires Valid() && (c == LF ==> Readable(partial))
      modifies this, lineBuf, telemetry`everEmitted, adapter`mode
      modifies adapter.drive`estopLatch, adapter.drive`staged, adapter.drive`cfgSeq, adapter.drive`command,
               adapter.drive`cmdSeq, adapter.drive`lastError
      ensures Valid() && Seen(nowUs) == old(Seen(nowUs))
      ensures c == LF ==> partial == [] && View() == RespondAll(old(View()), old(Seen(nowUs)), Judge(old(partial)))
      ensures c != LF ==> partial == old(partial) + [c] && View() == old(View())
    {
      hide RespondAll, Judge;
      if c == LF {
        OnLineComplete(nowUs);
        return;
      }
      partial := partial + [c];
      if overflowing { return; }
      if lineLen >= MAX_LINE_BYTES - 1 {
        overflowing := true;
        lineLen := 0;
        return;
      }
      lineBuf[lineLen] := c;
      lineLen := lineLen + 1;
      assert lineBuf[..lineLen] == lineBuf[..lineLen - 1] + [c];
    }

    method OnLineComplete(nowUs: nat)
      requires Valid() && Readable(partial)
      modifies this, lineBuf, telemetry`everEmitted, adapter`mode
      modifies adapter.drive`estopLatch, adapter.drive`staged, adapter.drive`cfgSeq, adapter.drive`command,
               adapter.drive`cmdSeq, adapter.drive`lastError
      ensures Valid() && partial == [] && Seen(nowUs) == old(Seen(nowUs))
      ensures View() == RespondAll(old(View()), old(Seen(nowUs)), Judge(old(partial)))
    {
      hide RespondAll, Respond, SplitAt, StartsAt;
      ghost var raw, before, x := partial, View(), Seen(nowUs);
      RespondToLine(before, x, raw);
      partial := [];
      if overflowing {
        overflowing := false;
        lineLen := 0;
        malformedCount := Next32(malformedCount);
        return;
      }
      CloseLine(raw);
      var anyNonSpace := AnyNonSpace(StripCr(raw));
      lineLen := 0;
      if anyNonSpace { SpeakLine(nowUs, Content(raw)); }
    }

    // One trailing CR goes; the buffer then holds the content as a C string,
    // which a NUL among its bytes ends early.
    method CloseLine(ghost raw: string)
      requires lineBuf.Length == MAX_LINE_BYTES && lineLen == |raw| < MAX_LINE_BYTES
      requires lineBuf[..lineLen] == raw
      modifies this`lineLen, lineBuf
      ensures lineLen == |StripCr(raw)| < MAX_LINE_BYTES && lineBuf[..lineLen] == StripCr(raw)
      ensures ReadsAs(lineBuf[..], 0, Content(raw))
    {
      hide UpToNul;
      ghost var before := lineBuf[..];
      assert forall i :: 0 <= i < |raw| ==> before[i] == raw[i];
      if lineLen > 0 && lineBuf[lineLen - 1] == CR { lineLen := lineLen - 1; }
      lineBuf[lineLen] := NUL;
      ghost var after, t := lineBuf[..], Content(raw);
      assert after == before[lineLen := NUL];
      assert lineBuf[..lineLen] == StripCr(raw);
      assert after[|t|] == NUL by { if |t| < |StripCr(raw)| { assert after[|t|] == StripCr(raw)[|t|]; } }
    }

    method AnyNonSpace(ghost content: string) returns (any: bool)
      requires lineBuf.Length == MAX_LINE_BYTES && lineLen <= MAX_LINE_BYTES && lineBuf[..lineLen] == content
      ensures any == !Blank(content)
    {
      any := false;
      var i := 0;
      while i < lineLen
        invariant i <= lineLen && forall j :: 0 <= j < i ==> content[j] == ' '
      {
        assert lineBuf[i] == lineBuf[..lineLen][i];
        if lineBuf[i] != ' ' { return true; }
        i := i + 1;
      }
    }

    method SpeakLine(nowUs: nat, ghost content: string)
      requires lineBuf.Length == MAX_LINE_BYTES && ReadsAs(lineBuf[..], 0, content) && !Blank(content)
      modifies lineBuf
      modifies this`malformedCount, this`expectedNext, this`sink, this`executed, telemetry`everEmitted, adapter`mode
      modifies adapter.drive`estopLatch, adapter.drive`staged, adapter.drive`cfgSeq, adapter.drive`command,
               adapter.drive`cmdSeq, adapter.drive`lastError
      ensures View() == Respond(old(View()), old(Seen(nowUs)), content)
    {
      hide Respond, SplitAt, StartsAt, ReadsAs;
      BlankHasNoTokens(content);
      // Before any separator is overwritten.
      var last := FindLastFieldToken(lineBuf, content);
      var tokens := new nat[MAX_FIELD_TOKENS](_ => 0);
      var count := TokenizeLine(lineBuf, tokens, content);
      DispatchTokens(tokens, count, last, nowUs, content);
    }

    lemma RespondToLine(s: Station, x: Context, raw: string)
      ensures RespondAll(s, x, Judge(raw)) ==
              if |raw| >= MAX_LINE_BYTES then s.(malformed := Next32(s.malformed))
              else if Blank(StripCr(raw)) then s
              else Respond(s, x, Content(raw))
    {
      if |raw| >= MAX_LINE_BYTES { RespondAllOne(s, x, TooLong); } else { RespondAllOne(s, x, Complete(Content(raw))); }
    }

    // Reads the tokens back out of the buffer and dispatches them. A field past
    // the token array is never read.
    method DispatchTokens(tokens: array<nat>, count: nat, last: Option<nat>, nowUs: nat, ghost content: string)
      requires lineBuf.Length == MAX_LINE_BYTES && tokens.Length == MAX_FIELD_TOKENS
      requires count == |Split(content)| > 0 && last == LastField(content)
      requires ReadBack(lineBuf[..], content, count, lineBuf.Length)
      requires forall k :: 0 <= k < count && k < tokens.Length ==> tokens[k] == Starts(content)[k]
      modifies this`malformedCount, this`expectedNext, this`sink, this`executed, telemetry`everEmitted, adapter`mode
      modifies adapter.drive`estopLatch, adapter.drive`staged, adapter.drive`cfgSeq, adapter.drive`command,
               adapter.drive`cmdSeq, adapter.drive`lastError
      ensures View() == Respond(old(View()), old(Seen(nowUs)), content)
    {
      hide Respond, SplitAt, StartsAt, ReadsAs;
      var stored := ReadTokens(tokens, if count < tokens.Length then count else tokens.Length, content);
      var lastText: Option<string> := None;
      if last.Some? {
        var text := ReadString(lineBuf, last.value, Split(content)[count - 1]);
        lastText := Some(text);
      }
      Dispatch(stored[0], stored[1..], count - 1, lastText, nowUs, content);
    }

    method ReadTokens(tokens: array<nat>, limit: nat, ghost content: string) returns (stored: seq<string>)
      requires limit <= tokens.Length && limit <= |Split(content)|
      requires ReadBack(lineBuf[..], content, |Split(content)|, lineBuf.Length)
      requires forall k :: 0 <= k < limit ==> tokens[k] == Starts(content)[k]
      ensures stored == Split(content)[..limit]
    {
      hide SplitAt, StartsAt, ReadsAs;
      stored := [];
      for k := 0 to limit
        invariant stored == Split(content)[..k]
      {
        var token := ReadString(lineBuf, tokens[k], Split(content)[k]);
        stored := stored + [token];
      }
    }

    // ---- dispatch ------------------------------------------------------------------------

    method Dispatch(verb: string, fields: seq<string>, fieldCount: nat, last: Option<string>, nowUs: nat,
                    ghost content: string)
      requires |Split(content)| == fieldCount + 1 && verb == Split(content)[0]
      requires |fields| == if fieldCount < MAX_FIELD_TOKENS - 1 then fieldCount else MAX_FIELD_TOKENS - 1
      requires fields == Split(content)[1..|fields| + 1]
      requires last == LastToken(content)
      modifies this`malformedCount, this`expectedNext, this`sink, this`executed, telemetry`everEmitted, adapter`mode
      modifies adapter.drive`estopLatch, adapter.drive`staged, adapter.drive`cfgSeq, adapter.drive`command,
               adapter.drive`cmdSeq, adapter.drive`lastError
      ensures View() == Respond(old(View()), old(Seen(nowUs)), content)
    {
      hide Execute, SplitAt, StartsAt, Decode, ParseIdDigits;
      if verb != [] && 'a' <= verb[0] <= 'z' { return; }
      if verb == "ESTOP" {
        adapter.OnEstop();
        sink := sink + [EstopLine];
        return;
      }
      if verb == "PING" {
        sink := sink + [PongLine(adapter.drive.out.now)];
        return;
      }
      if verb == "HELLO" {
        if fieldCount != 0 {
          malformedCount := Next32(malformedCount);
          return;
        }
        expectedNext := 1;
        sink := sink + [BannerLine];
        return;
      }
      var id := ParseMandatoryId(last);
      if id.None? {
        malformedCount := Next32(malformedCount);
        return;
      }
      if id.value < expectedNext {
        sink := sink + [Answer(R.Ack(expectedNext - 1))];
        return;
      }
      if id.value > expectedNext {
        sink := sink + [Answer(R.Nack(expectedNext))];
        return;
      }
      // A lone "#id" with spaces before it has no field to strip: its verb is unknown.
      var dataCount := if fieldCount == 0 then 0 else fieldCount - 1;
      var request := DecodeStored(verb, fields, dataCount);
      StoredDecodesAlike(content, verb, fields, dataCount);
      InOrderLine(id.value, request, nowUs);
    }

    lemma StoredDecodesAlike(content: string, verb: string, fields: seq<string>, dataCount: nat)
      requires Split(content) != [] && verb == Split(content)[0]
      requires |fields| < |Split(content)| && fields == Split(content)[1..|fields| + 1]
      requires |fields| == if |Split(content)| < MAX_FIELD_TOKENS then |Split(content)| - 1 else MAX_FIELD_TOKENS - 1
      requires dataCount == |DataFields(Split(content))|
      ensures DecodeStored(verb, fields, dataCount) == Decode(verb, DataFields(Split(content)))
    {
      hide Decode, Split;
      if dataCount <= |fields| {
        assert fields[..dataCount] == DataFields(Split(content));
      } else {
        TooManyFields(verb, DataFields(Split(content)));
      }
    }

    method InOrderLine(id: uint32, request: Request, nowUs: nat)
      modifies this`malformedCount, this`expectedNext, this`sink, this`executed, telemetry`everEmitted, adapter`mode
      modifies adapter.drive`staged, adapter.drive`cfgSeq, adapter.drive`command,
               adapter.drive`cmdSeq, adapter.drive`lastError
      ensures View() == InOrder(old(View()), old(Seen(nowUs)), id, request)
    {
      hide Execute, BodyView;
      ghost var was, x := sink, Seen(nowUs);
      if request.Refused? {
        malformedCount := Next32(malformedCount);
        sink := sink + [Answer(R.Nack(expectedNext))];
        sink := sink + [ErrLine(request.code, id)];
        assert sink == was + [Answer(R.Nack(expectedNext)), ErrLine(request.code, id)];
        return;
      }
      expectedNext := Next32(id);
      executed := executed + [(id as nat, request)];
      sink := sink + [Answer(R.Ack(id))];
      ghost var written := Execute(BodyView(), x, request).2;
      var code := Perform(request, nowUs);
      if code != 0 { sink := sink + [ErrLine(code, id)]; }
      assert sink == was + ([Answer(R.Ack(id))] + written + ErrIf(code, id));
    }

    // ---- execute --------------------------------------------------------------------------

    method Perform(request: Request, nowUs: nat) returns (code: nat)
      requires !request.Refused?
      modifies this`sink, telemetry`everEmitted, adapter`mode
      modifies adapter.drive`staged, adapter.drive`cfgSeq, adapter.drive`command,
               adapter.drive`cmdSeq, adapter.drive`lastError
      ensures var (body, c, written) := Execute(old(BodyView()), old(Seen(nowUs)), request);
              BodyView() == body && code == c && sink == old(sink) + written
    {
      hide A.FindFrom, A.WheelsVSpec, A.SetSpec, C.Format, A.Read, K.NeutralSpec;
      code := 0;
      match request
      case WheelsV(left, right, duration) =>
        var result := adapter.OnWheelsV(nowUs, left as real, right as real, duration);
        code := A.ResultCode(result);
      case Motion(_, _, _) => code := UNKNOWN;
      case Get(None) => PerformGetAll();
      case Get(Some(name)) => PerformGet(name);
      case Set(name, value) =>
        var result := adapter.OnSet(name, value);
        code := A.ResultCode(result);
      case Tlm(mode) =>
        if mode == A.Hdr {
          telemetry.Forget();
        } else {
          var _ := adapter.OnTlm(mode);
        }
      case Stop(_) =>
        var result := adapter.OnStop();
        code := A.ResultCode(result);
      case Run(_, _) => code := UNKNOWN;
      case Query(verb) =>
        if verb != "FUNCS" { sink := sink + [InfoLine(verb)]; }
    }

    method PerformGet(name: string)
      modifies this`sink
      ensures sink == old(sink) + GetField(adapter.drive.staged, name)
    {
      var value := adapter.OnGet(name);
      if value.Some? { sink := sink + [GetLine(name, C.Format(value.value))]; }
    }

    method PerformGetAll()
      modifies this`sink
      ensures sink == old(sink) + GetAll(adapter.drive.staged, |A.FIELDS|)
    {
      hide GetField, A.FieldName;
      ghost var was := sink;
      for i := 0 to |A.FIELDS|
        invariant sink == was + GetAll(adapter.drive.staged, i)
      {
        PerformGet(A.FieldName(A.FIELDS[i]));
        assert GetAll(adapter.drive.staged, i + 1) ==
               GetAll(adapter.drive.staged, i) + GetField(adapter.drive.staged, A.FieldName(A.FIELDS[i]));
      }
    }
  }
}
