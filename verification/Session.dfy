// The host's Session as an object (src/host/robot_v6/reliability.py): its
// counters and its ordered dictionary of unretired lines, updated in place.
// Every method is tied to the host half of the machine in Reliability.
module Session {
  import opened Options
  import opened Tokens
  import opened Ascii
  import opened Codec
  import R = Reliability

  datatype SendResult =
    | Sent(id: nat)
    | UnsequencedVerb      // ValueError, before anything changes
    | BufferFull           // PendingBufferFull, before anything changes
    | EncodingRaised       // raised by encode_command, after the id was taken
    | TransportRaised(id: nat) // raised by send_line, after the line was buffered

  datatype DoneEvent = DoneEvent(id: nat, reason: string)

  // One pass of a wait loop: the clock before it, and the lines that arrive.
  datatype Pass = Pass(now: real, lines: seq<string>)

  // How a wait ends; `StillWaiting` where the script of passes does.
  datatype Waited = Done(event: DoneEvent) | TimedOut | Raised | StillWaiting

  function Fields(r: HostReply): Option<(nat, nat, string)> {
    if |r.fields| < 3 || Digits(r.fields[0]).None? || Digits(r.fields[1]).None? then None
    else Some((Digits(r.fields[0]).value, Digits(r.fields[1]).value, r.fields[2]))
  }

  predicate Acks(verb: string) { verb == "ack" || verb == "nack" }

  // The line is an ack or nack whose fields cannot be read.
  predicate Raises(line: string) {
    var r := ParseReply(line);
    r.Some? && Acks(r.value.verb) && Fields(r.value).None?
  }

  // What one line means to the sequence machine.
  function Reading(line: string): Option<R.Reply> {
    match ParseReply(line)
    case None => None
    case Some(r) =>
      if !Acks(r.verb) || Fields(r).None? then None
      else Some(if r.verb == "ack" then R.Ack(Fields(r).value.0) else R.Nack(Fields(r).value.0))
  }

  // ---- the transport's encoding ----------------------------------------------------

  // send_line() encodes as ASCII, and raises on anything else.
  predicate Sendable(line: string) { forall i :: 0 <= i < |line| ==> (line[i] as int) < 128 }

  // How many of the lines go out before one raises.
  function SendUntilRaise(lines: seq<string>, i: nat): (n: nat)
    requires i <= |lines|
    ensures i <= n <= |lines| && forall j :: i <= j < n ==> Sendable(lines[j])
    ensures n < |lines| ==> !Sendable(lines[n])
    decreases |lines| - i
  {
    if i == |lines| || !Sendable(lines[i]) then i else SendUntilRaise(lines, i + 1)
  }

  ghost predicate AllGo(lines: seq<string>) { forall j :: 0 <= j < |lines| ==> Sendable(lines[j]) }

  // ---- what a session does, as a function --------------------------------------------

  // The host, the completion pair, the lines handed to the transport, and the
  // replies handed to on_reply.
  datatype Client = Client(host: R.Host<string>, done: nat, reason: string, wire: seq<string>, heard: seq<HostReply>)

  // One reply; false where reading its fields, or resending, raises.
  function Handled(lim: R.Limits, s: Client, r: HostReply, now: real): (Client, bool) {
    if !Acks(r.verb) then (s, true)
    else
      match Fields(r)
      case None => (s, false)
      case Some((n, done, reason)) =>
        var (host, resent) := R.HandleReply(lim, s.host, if r.verb == "ack" then R.Ack(n) else R.Nack(n), now);
        var k := SendUntilRaise(resent, 0);
        (s.(host := host, done := done, reason := reason, wire := s.wire + resent[..k]), k == |resent|)
  }

  function HandledLine(lim: R.Limits, s: Client, line: string, now: real): (Client, bool) {
    match ParseReply(line)
    case None => (s, true)
    case Some(r) =>
      var (t, ok) := Handled(lim, s, r, now);
      (if ok then t.(heard := t.heard + [r]) else t, ok)
  }

  // A batch, up to the line that raises.
  function Pumped(lim: R.Limits, s: Client, lines: seq<string>, now: real): (Client, bool) {
    if lines == [] then (s, true)
    else
      var (before, ok) := Pumped(lim, s, lines[..|lines| - 1], now);
      if ok then HandledLine(lim, before, lines[|lines| - 1], now) else (before, false)
  }

  function StatusLine(id: nat): (line: string)
    ensures EncodeCommand("STATUS", [], Some(id)) == Some(line)
  {
    Join(["STATUS"] + ["#" + Dec(id)])
  }

  function Polls(lim: R.Limits, s: Client, lastPoll: real, now: real): bool {
    now - lastPoll >= lim.cooldown && R.HasRoom(lim, s.host)
  }

  function Polled(lim: R.Limits, s: Client, lastPoll: real, now: real): Client {
    var line := StatusLine(s.host.nextId);
    if Polls(lim, s, lastPoll, now) then s.(host := R.Buffer(s.host, line), wire := s.wire + [line]) else s
  }

  // A wait: it looks at the pair, then at the clock, then polls and reads.
  // Returns how it ends, the session after it and the time of the last poll.
  function Outcome(lim: R.Limits, id: nat, deadline: Option<real>, s: Client, lastPoll: real, passes: seq<Pass>)
    : (Waited, Client, real)
    decreases |passes|
  {
    if s.done >= id then (Done(DoneEvent(id, s.reason)), s, lastPoll)
    else if passes == [] then (StillWaiting, s, lastPoll)
    else
      var now := passes[0].now;
      if deadline.Some? && deadline.value - now <= 0.0 then (TimedOut, s, lastPoll)
      else
        var poll := if Polls(lim, s, lastPoll, now) then now else lastPoll;
        var (t, ok) := Pumped(lim, Polled(lim, s, lastPoll, now), passes[0].lines, now);
        if ok then Outcome(lim, id, deadline, t, poll, passes[1..]) else (Raised, t, poll)
  }

  // Every line moves the host as the sequence machine says.
  lemma LineIsItsReply(lim: R.Limits, s: Client, line: string, now: real)
    ensures HandledLine(lim, s, line, now).0.host ==
            match Reading(line)
            case None => s.host
            case Some(r) => R.HandleReply(lim, s.host, r, now).0
  {
    hide R.HandleReply, ParseReply, Fields;
  }

  // ---- when a pump raises --------------------------------------------------------------

  ghost predicate AllSendable(pending: seq<(nat, string)>) {
    forall k :: 0 <= k < |pending| ==> Sendable(pending[k].1)
  }

  lemma {:induction false} AboveSendable(pending: seq<(nat, string)>, n: int)
    requires AllSendable(pending)
    ensures AllSendable(R.Above(pending, n))
  {
    hide Sendable;
    if pending != [] {
      assert AllSendable(pending[..|pending| - 1]);
      AboveSendable(pending[..|pending| - 1], n);
    }
  }

  // Where everything pending is ASCII, a batch raises exactly when one of its
  // lines is an ack or nack that cannot be read.
  lemma {:induction false} PumpRaisesIff(lim: R.Limits, s: Client, lines: seq<string>, now: real)
    requires AllSendable(s.host.pending)
    ensures Pumped(lim, s, lines, now).1 <==> forall i :: 0 <= i < |lines| ==> !Raises(lines[i])
    ensures AllSendable(Pumped(lim, s, lines, now).0.host.pending)
  {
    hide AllSendable, Raises, HandledLine;
    if lines != [] {
      var init, last := lines[..|lines| - 1], lines[|lines| - 1];
      PumpRaisesIff(lim, s, init, now);
      assert forall i :: 0 <= i < |init| ==> init[i] == lines[i];
      LineRaisesIff(lim, Pumped(lim, s, init, now).0, last, now);
    }
  }

  lemma LineRaisesIff(lim: R.Limits, s: Client, line: string, now: real)
    requires AllSendable(s.host.pending)
    ensures HandledLine(lim, s, line, now).1 <==> !Raises(line)
    ensures AllSendable(HandledLine(lim, s, line, now).0.host.pending)
  {
    hide Sendable, ParseReply, Fields, R.Above;
    var r := ParseReply(line);
    if r.Some? && Fields(r.value).Some? {
      var n: int := Fields(r.value).value.0;
      AboveSendable(s.host.pending, n);
      AboveSendable(s.host.pending, n - 1);
    }
  }

  // What a nack puts on the wire: of the lines it makes the machine's host resend,
  // those before the first that is not ASCII, in order; and it raises exactly when
  // there is one.
  lemma NackWrites(lim: R.Limits, s: Client, line: string, now: real) returns (gone: seq<string>)
    ensures var resent := if Reading(line).Some? then R.HandleReply(lim, s.host, Reading(line).value, now).1 else [];
            && gone <= resent && HandledLine(lim, s, line, now).0.wire == s.wire + gone
            && (forall i :: 0 <= i < |gone| ==> forall c :: c in gone[i] ==> c as int < 128)
            && (gone != resent ==> exists c :: c in resent[|gone|] && c as int >= 128)
            && (Reading(line).Some? ==> (HandledLine(lim, s, line, now).1 <==> gone == resent))
  {
    hide R.HandleReply, ParseReply, Fields;
    var resent := if Reading(line).Some? then R.HandleReply(lim, s.host, Reading(line).value, now).1 else [];
    var k := SendUntilRaise(resent, 0);
    gone := resent[..k];
    assert forall i :: 0 <= i < k ==> gone[i] == resent[i];
    if k < |resent| {
      var i :| 0 <= i < |resent[k]| && resent[k][i] as int >= 128;
      assert resent[k][i] in resent[k];
    }
  }

  // ---- what a wait reports ---------------------------------------------------------------

  // The line is an ack or nack carrying this completion pair.
  ghost predicate Reports(line: string, done: nat, reason: string) {
    var r := ParseReply(line);
    && r.Some? && Acks(r.value.verb)
    && Fields(r.value).Some? && Fields(r.value).value.1 == done && Fields(r.value).value.2 == reason
  }

  // A line that can be read as an ack or nack leaves its completion pair behind, the
  // last such line of a batch its own; no other line does.
  lemma LineRecords(lim: R.Limits, s: Client, line: string, now: real)
    ensures var t := HandledLine(lim, s, line, now).0;
            if Reading(line).Some? then Reports(line, t.done, t.reason)
            else t.done == s.done && t.reason == s.reason && t.wire == s.wire && t.host == s.host
  {
    hide R.HandleReply, ParseReply, Fields;
  }

  function Replies(lines: seq<string>): seq<HostReply> {
    if lines == [] then []
    else
      Replies(lines[..|lines| - 1]) +
      match ParseReply(lines[|lines| - 1])
      case None => []
      case Some(r) => [r]
  }

  // A batch that does not raise hands every reply in it to on_reply, in order.
  lemma {:induction false} EveryReplyIsHeard(lim: R.Limits, s: Client, lines: seq<string>, now: real)
    ensures var (t, ok) := Pumped(lim, s, lines, now); ok ==> t.heard == s.heard + Replies(lines)
  {
    hide Handled, ParseReply;
    if lines == [] {
      assert s.heard + [] == s.heard;
    } else {
      EveryReplyIsHeard(lim, s, lines[..|lines| - 1], now);
      HandlingHearsNothing(lim, Pumped(lim, s, lines[..|lines| - 1], now).0, lines[|lines| - 1], now);
    }
  }

  lemma HandlingHearsNothing(lim: R.Limits, s: Client, line: string, now: real)
    ensures var r := ParseReply(line); r.Some? ==> Handled(lim, s, r.value, now).0.heard == s.heard
  {
    hide R.HandleReply, ParseReply, Fields;
  }

  lemma LineReports(lim: R.Limits, s: Client, line: string, now: real)
    ensures var t := HandledLine(lim, s, line, now).0;
            (t.done == s.done && t.reason == s.reason) || Reports(line, t.done, t.reason)
  {
    hide R.HandleReply, ParseReply, Fields;
  }

  lemma {:induction false} PairIsReported(lim: R.Limits, s: Client, lines: seq<string>, now: real)
    ensures var t := Pumped(lim, s, lines, now).0;
            (t.done == s.done && t.reason == s.reason) ||
            exists i :: 0 <= i < |lines| && Reports(lines[i], t.done, t.reason)
  {
    hide HandledLine, Reports;
    if lines != [] {
      var init := lines[..|lines| - 1];
      PairIsReported(lim, s, init, now);
      LineReports(lim, Pumped(lim, s, init, now).0, lines[|lines| - 1], now);
    }
  }

  // A wait ends in a completion only on the robot's word: a pair known before it
  // began, or one that some line of it reported, at or past the id.
  lemma {:induction false} CompletionIsReported(lim: R.Limits, id: nat, deadline: Option<real>, s: Client,
                                                lastPoll: real, passes: seq<Pass>)
    requires Outcome(lim, id, deadline, s, lastPoll, passes).0.Done?
    ensures var event := Outcome(lim, id, deadline, s, lastPoll, passes).0.event;
            && event.id == id
            && ((s.done >= id && event.reason == s.reason) ||
                exists i, j, done: nat :: 0 <= i < |passes| && 0 <= j < |passes[i].lines| && done >= id &&
                  Reports(passes[i].lines[j], done, event.reason))
    decreases |passes|
  {
    hide Reports, Pumped;
    if s.done < id {
      var now, rest := passes[0].now, passes[1..];
      var poll := if Polls(lim, s, lastPoll, now) then now else lastPoll;
      var polled := Polled(lim, s, lastPoll, now);
      var next := Pumped(lim, polled, passes[0].lines, now).0;
      CompletionIsReported(lim, id, deadline, next, poll, rest);
      PairIsReported(lim, polled, passes[0].lines, now);
      var event := Outcome(lim, id, deadline, s, lastPoll, passes).0.event;
      if next.done >= id && event.reason == next.reason {
        var j :| 0 <= j < |passes[0].lines| && Reports(passes[0].lines[j], next.done, next.reason);
      } else {
        var i, j, done: nat :| 0 <= i < |rest| && 0 <= j < |rest[i].lines| && done >= id &&
          Reports(rest[i].lines[j], done, event.reason);
        assert rest[i] == passes[i + 1];
      }
    }
  }

  // A wait with no deadline never times out; one with a deadline times out only
  // at a pass that begins at or past it.
  lemma {:induction false} TimeoutIsDue(lim: R.Limits, id: nat, deadline: Option<real>, s: Client, lastPoll: real,
                                        passes: seq<Pass>)
    requires Outcome(lim, id, deadline, s, lastPoll, passes).0.TimedOut?
    ensures deadline.Some? && exists i :: 0 <= i < |passes| && passes[i].now >= deadline.value
    decreases |passes|
  {
    hide Pumped;
    var now := passes[0].now;
    if deadline.None? || deadline.value - now > 0.0 {
      var poll := if Polls(lim, s, lastPoll, now) then now else lastPoll;
      var next := Pumped(lim, Polled(lim, s, lastPoll, now), passes[0].lines, now).0;
      TimeoutIsDue(lim, id, deadline, next, poll, passes[1..]);
      assert forall i :: 0 <= i < |passes[1..]| ==> passes[1..][i] == passes[i + 1];
    }
  }

  // ---- polling -------------------------------------------------------------------------------

  // A poll goes out, under the next id, exactly when the cooldown since the last one
  // is over and the buffer has room.
  lemma PollGoesOutIff(lim: R.Limits, s: Client, lastPoll: real, now: real)
    ensures var t := Polled(lim, s, lastPoll, now);
            if now - lastPoll >= lim.cooldown && |s.host.pending| < lim.maxPending then
              && EncodeCommand("STATUS", [], Some(s.host.nextId)).Some?
              && t.wire == s.wire + [EncodeCommand("STATUS", [], Some(s.host.nextId)).value]
              && t.host.nextId == s.host.nextId + 1 && |t.host.pending| == |s.host.pending| + 1
            else t == s
  {
    hide EncodeCommand;
  }

  // When a wait took an id for a poll.
  ghost function PollTimes(lim: R.Limits, id: nat, deadline: Option<real>, s: Client, lastPoll: real, passes: seq<Pass>)
    : seq<real>
    decreases |passes|
  {
    if s.done >= id || passes == [] || (deadline.Some? && deadline.value - passes[0].now <= 0.0) then []
    else
      var now, polled := passes[0].now, Polled(lim, s, lastPoll, passes[0].now);
      var (t, ok) := Pumped(lim, polled, passes[0].lines, now);
      var poll := if Polls(lim, s, lastPoll, now) then now else lastPoll;
      (if polled.host.nextId != s.host.nextId then [now] else []) +
      if ok then PollTimes(lim, id, deadline, t, poll, passes[1..]) else []
  }

  ghost predicate Spaced(start: real, times: seq<real>, gap: real) {
    && (times != [] ==> times[0] - start >= gap)
    && forall i, j :: 0 <= i && j == i + 1 < |times| ==> times[j] - times[i] >= gap
  }

  lemma SpacedSnoc(start: real, at: real, times: seq<real>, gap: real)
    requires at - start >= gap && Spaced(at, times, gap)
    ensures Spaced(start, [at] + times, gap)
  {
    var all := [at] + times;
    forall i, j | 0 <= i && j == i + 1 < |all| ensures all[j] - all[i] >= gap {
      assert all[j] == times[i];
      if i > 0 { assert all[i] == times[i - 1]; }
    }
  }

  // Over a whole wait, whatever arrives, two polls are a cooldown apart.
  lemma {:induction false} PollsAreSpaced(lim: R.Limits, id: nat, deadline: Option<real>, s: Client, lastPoll: real,
                                          passes: seq<Pass>)
    ensures Spaced(lastPoll, PollTimes(lim, id, deadline, s, lastPoll, passes), lim.cooldown)
    decreases |passes|
  {
    hide Pumped, Spaced, StatusLine;
    if s.done >= id || passes == [] || (deadline.Some? && deadline.value - passes[0].now <= 0.0) {
      NoTimes(lastPoll, lim.cooldown);
    } else {
      var now, polled := passes[0].now, Polled(lim, s, lastPoll, passes[0].now);
      var (t, ok) := Pumped(lim, polled, passes[0].lines, now);
      var poll := if Polls(lim, s, lastPoll, now) then now else lastPoll;
      var rest := if ok then PollTimes(lim, id, deadline, t, poll, passes[1..]) else [];
      if ok { PollsAreSpaced(lim, id, deadline, t, poll, passes[1..]); } else { NoTimes(poll, lim.cooldown); }
      assert Spaced(poll, rest, lim.cooldown);
      if polled.host.nextId != s.host.nextId {
        SpacedSnoc(lastPoll, now, rest, lim.cooldown);
      } else {
        assert [] + rest == rest;
      }
    }
  }

  lemma NoTimes(start: real, gap: real)
    ensures Spaced(start, [], gap)
  {
  }

  // And at the first pass that does, a wait not yet complete times out, with nothing
  // polled or read.
  lemma TimeoutIsPrompt(lim: R.Limits, id: nat, deadline: real, s: Client, lastPoll: real, passes: seq<Pass>)
    requires s.done < id && passes != [] && passes[0].now >= deadline
    ensures Outcome(lim, id, Some(deadline), s, lastPoll, passes) == (TimedOut, s, lastPoll)
  {
    hide Pumped, Polled;
  }

  // A line the robot wrote as an ack or nack is read back as it was meant.
  lemma RobotRepliesAreRead(r: R.Reply, done: nat, reason: string)
    requires Reason(reason)
    ensures var line := ReplyText(r, done, reason);
            Reading(line) == Some(r) && Reports(line, done, reason) && !Raises(line)
  {
    hide ReplyText, Dec, Digits;
    ReplyRoundTrip(r, done, reason);
    DecIsWord(r.n);
    DecIsWord(done);
    assert Heeded(ReplyText(r, done, reason)) == Some(r);
  }

  ghost predicate Ascending(pending: seq<(nat, string)>) {
    forall j, k :: 0 <= j < k < |pending| ==> pending[j].0 < pending[k].0
  }

  // Among ascending ids, those up to n come first.
  lemma {:induction false} AboveIsSuffix(pending: seq<(nat, string)>, n: int, k: nat)
    requires k <= |pending|
    requires forall j :: 0 <= j < k ==> pending[j].0 <= n
    requires forall j :: k <= j < |pending| ==> pending[j].0 > n
    ensures R.Above(pending, n) == pending[k..]
  {
    if pending != [] {
      var init := pending[..|pending| - 1];
      if k < |pending| {
        AboveIsSuffix(init, n, k);
        assert pending[k..] == init[k..] + [pending[|pending| - 1]];
      } else {
        AboveIsSuffix(init, n, k - 1);
      }
    }
  }

  lemma {:induction false} AboveSnoc(pending: seq<(nat, string)>, n: int, k: nat)
    requires k < |pending|
    ensures R.Above(pending[..k + 1], n) == R.Above(pending[..k], n) + if pending[k].0 > n then [pending[k]] else []
  {
    R.AboveAppend(pending[..k], pending[k], n);
    assert pending[..k + 1] == pending[..k] + [pending[k]];
  }

  class Session {
    const maxPending: nat
    const resendCooldown: real
    var nextId: nat
    var pending: seq<(nat, string)>
    var highestAcked: nat
    var lastDone: nat
    var lastDoneReason: string
    var lastNackNext: Option<nat>
    var lastResendTime: real
    var lastStatusPoll: real
    // Lines handed to the transport, and replies to on_reply, oldest first.
    var wire: seq<string>
    var heard: seq<HostReply>

    ghost predicate Valid()
      reads this`pending, this`nextId
    {
      Ascending(pending) && forall k :: 0 <= k < |pending| ==> pending[k].0 < nextId
    }

    ghost function View(): R.Host<string>
      reads this`nextId, this`pending, this`highestAcked, this`lastNackNext, this`lastResendTime
    {
      R.Host(nextId, pending, highestAcked, lastNackNext, lastResendTime)
    }

    ghost function State(): Client
      reads this`nextId, this`pending, this`highestAcked, this`lastNackNext, this`lastResendTime,
            this`lastDone, this`lastDoneReason, this`wire, this`heard
    {
      Client(View(), lastDone, lastDoneReason, wire, heard)
    }

    function Limits(): R.Limits { R.Limits(maxPending, resendCooldown) }

    constructor (maxPending: nat, resendCooldown: real)
      ensures Valid() && View() == R.Host(1, [], 0, None, 0.0) && wire == [] && heard == []
      ensures Limits() == R.Limits(maxPending, resendCooldown) && lastDone == 0 && lastDoneReason == "none"
    {
      this.maxPending, this.resendCooldown := maxPending, resendCooldown;
      nextId, pending, highestAcked := 1, [], 0;
      lastDone, lastDoneReason := 0, "none";
      lastNackNext, lastResendTime, lastStatusPoll := None, 0.0, 0.0;
      wire, heard := [], [];
    }

    method Send(verb: string, fields: seq<Field>) returns (r: SendResult)
      requires Valid()
      modifies this`nextId, this`pending, this`wire
      ensures Valid()
      ensures r.UnsequencedVerb? <==> Unsequenceable(verb)
      ensures r.BufferFull? <==> !Unsequenceable(verb) && !R.HasRoom(Limits(), old(View()))
      ensures r.EncodingRaised? <==>
        && !Unsequenceable(verb) && R.HasRoom(Limits(), old(View()))
        && EncodeCommand(verb, fields, Some(old(nextId))).None?
      ensures match r
              case Sent(id) =>
                var line := EncodeCommand(verb, fields, Some(id));
                && id == old(nextId) && line.Some? && Sendable(line.value)
                && View() == R.Buffer(old(View()), line.value) && wire == old(wire) + [line.value]
              case TransportRaised(id) =>
                var line := EncodeCommand(verb, fields, Some(id));
                && id == old(nextId) && line.Some? && !Sendable(line.value)
                && View() == R.Buffer(old(View()), line.value) && wire == old(wire)
              case EncodingRaised => View() == R.Burn(old(View())) && wire == old(wire)
              case _ => View() == old(View()) && wire == old(wire)
    {
      hide EncodeCommand, Sendable;
      if Unsequenceable(verb) { return UnsequencedVerb; }
      if |pending| >= maxPending { return BufferFull; }
      var id := nextId;
      nextId := nextId + 1;
      var line := EncodeCommand(verb, fields, Some(id));
      if line.None? { return EncodingRaised; }
      pending := pending + [(id, line.value)];
      var ok := SendLine(line.value);
      return if ok then Sent(id) else TransportRaised(id);
    }

    // False where encoding the line as ASCII raises.
    method SendLine(line: string) returns (ok: bool)
      modifies this`wire
      ensures ok == Sendable(line) && wire == old(wire) + if ok then [line] else []
    {
      ok := Sendable(line);
      if ok { wire := wire + [line]; }
    }

    // One reply; false where reading its fields, or resending, raises.
    method HandleReply(reply: HostReply, now: real) returns (ok: bool)
      requires Valid()
      modifies this`pending, this`highestAcked, this`lastDone, this`lastDoneReason,
               this`lastNackNext, this`lastResendTime, this`wire
      ensures Valid() && (State(), ok) == Handled(Limits(), old(State()), reply, now)
      ensures |pending| <= |old(pending)| && highestAcked >= old(highestAcked)
    {
      hide Sendable;
      if reply.verb == "ack" {
        var read := Fields(reply);
        if read.None? { return false; }
        RetireThrough(read.value.0);
        lastDone, lastDoneReason := read.value.1, read.value.2;
        assert wire == old(wire) + [];
      } else if reply.verb == "nack" {
        var read := Fields(reply);
        if read.None? { return false; }
        lastDone, lastDoneReason := read.value.1, read.value.2;
        ok := MaybeResendFrom(read.value.0, now);
        return;
      }
      return true;
    }

    // Collects the retired ids, then deletes them one by one.
    method RetireThrough(n: nat)
      requires Valid()
      modifies this`pending, this`highestAcked
      ensures Valid() && View() == R.RetireThrough(old(View()), n) && |pending| <= |old(pending)|
    {
      hide R.Above;
      ghost var was := pending;
      var ids := Retired(n);
      AboveIsSuffix(was, n, |ids|);
      for k := 0 to |ids|
        invariant pending == was[k..] && highestAcked == old(highestAcked)
      {
        Delete(ids[k], 0);
      }
      highestAcked := if n > highestAcked then n else highestAcked;
    }

    method Retired(n: nat) returns (ids: seq<nat>)
      requires Valid()
      ensures |ids| <= |pending|
      ensures forall j :: 0 <= j < |ids| ==> ids[j] == pending[j].0 <= n
      ensures forall j :: |ids| <= j < |pending| ==> pending[j].0 > n
    {
      ids := [];
      for i := 0 to |pending|
        invariant |ids| <= i
        invariant forall j :: 0 <= j < |ids| ==> ids[j] == pending[j].0 <= n
        invariant forall j :: |ids| <= j < i ==> pending[j].0 > n
        invariant |ids| < i ==> pending[i - 1].0 > n
      {
        if pending[i].0 <= n {
          ids := ids + [pending[i].0];
        }
      }
    }

    // del self._pending[id]; `k` is where the id stands.
    method Delete(id: nat, ghost k: nat)
      requires Valid() && k < |pending| && pending[k].0 == id
      modifies this`pending
      ensures pending == old(pending)[..k] + old(pending)[k + 1..]
    {
      var at := 0;
      while pending[at].0 != id
        invariant at <= k
        decreases |pending| - at
      {
        at := at + 1;
      }
      assert at == k;
      pending := pending[..at] + pending[at + 1..];
    }

    method MaybeResendFrom(next: nat, now: real) returns (ok: bool)
      requires Valid()
      modifies this`lastNackNext, this`lastResendTime, this`wire
      ensures Valid()
      ensures var (host, resent) := R.ResendFrom(Limits(), old(View()), next, now);
              var k := SendUntilRaise(resent, 0);
              View() == host && wire == old(wire) + resent[..k] && ok == (k == |resent|)
    {
      hide Sendable, R.Above;
      if lastNackNext == Some(next) && now - lastResendTime < resendCooldown { return true; }
      lastNackNext := Some(next);
      lastResendTime := now;
      ghost var was, all := wire, R.Lines(R.Above(pending, next - 1));
      assert R.Above(pending[..0], next - 1) == [] by { NothingAbove(next - 1); }
      for i := 0 to |pending|
        invariant wire == was + R.Lines(R.Above(pending[..i], next - 1))
        invariant AllGo(R.Lines(R.Above(pending[..i], next - 1)))
        invariant lastNackNext == Some(next) && lastResendTime == now
      {
        AboveSnoc(pending, next - 1, i);
        var entry := pending[i];
        if entry.0 >= next {
          ghost var gone := R.Lines(R.Above(pending[..i], next - 1));
          assert R.Lines(R.Above(pending[..i], next - 1) + [entry]) == gone + [entry.1];
          ok := SendLine(entry.1);
          if !ok {
            AbovePrefix(pending, next - 1, i + 1);
            StopsAt(all, gone, entry.1);
            return;
          }
        }
      }
      assert pending[..|pending|] == pending;
      StopsAfterAll(all);
      return true;
    }

    lemma NothingAbove(n: int)
      ensures R.Above<string>([], n) == []
    {
    }

    // Completion polling: at most one STATUS per cooldown, none into a full buffer.
    method MaybePollStatus(now: real)
      requires Valid()
      modifies this`nextId, this`pending, this`wire, this`lastStatusPoll
      ensures Valid()
      ensures State() == Polled(Limits(), old(State()), old(lastStatusPoll), now)
      ensures lastStatusPoll ==
              if Polls(Limits(), old(State()), old(lastStatusPoll), now) then now else old(lastStatusPoll)
      ensures |pending| <= |old(pending)| || |pending| <= maxPending
    {
      hide EncodeCommand, Sendable;
      if now - lastStatusPoll < resendCooldown { return; }
      if |pending| >= maxPending { return; }
      lastStatusPoll := now;
      StatusIsSendable(nextId);
      var _ := Send("STATUS", []);
    }

    // Every line that has arrived, in order, up to the one that raises.
    method Pump(lines: seq<string>, now: real) returns (ok: bool)
      requires Valid()
      modifies this`pending, this`highestAcked, this`lastDone, this`lastDoneReason,
               this`lastNackNext, this`lastResendTime, this`wire, this`heard
      ensures Valid() && (State(), ok) == Pumped(Limits(), old(State()), lines, now)
      ensures |pending| <= |old(pending)| && highestAcked >= old(highestAcked)
    {
      hide Handled, ParseReply;
      ghost var before := State();
      for i := 0 to |lines|
        invariant Valid() && |pending| <= |old(pending)| && highestAcked >= old(highestAcked)
        invariant (State(), true) == Pumped(Limits(), before, lines[..i], now)
      {
        assert lines[..i + 1][..i] == lines[..i];
        var reply := ParseReply(lines[i]);
        if reply.Some? {
          ok := HandleReply(reply.value, now);
          if !ok {
            PumpStops(Limits(), before, lines, i, now);
            return;
          }
          heard := heard + [reply.value];
        }
      }
      assert lines[..|lines|] == lines;
      return true;
    }

    // The wait loop over a script of passes. No deadline, no timeout; what a pump
    // raises leaves the wait.
    method WaitForDone(id: nat, deadline: Option<real>, passes: seq<Pass>) returns (r: Waited)
      requires Valid()
      modifies this
      ensures Valid()
      ensures (r, State(), lastStatusPoll) ==
              Outcome(Limits(), id, deadline, old(State()), old(lastStatusPoll), passes)
      ensures |pending| <= if |old(pending)| > maxPending then |old(pending)| else maxPending
    {
      hide Pumped, Polled, Polls;
      ghost var all := Outcome(Limits(), id, deadline, State(), lastStatusPoll, passes);
      assert passes[0..] == passes;
      for k := 0 to |passes|
        invariant Valid() && all == Outcome(Limits(), id, deadline, State(), lastStatusPoll, passes[k..])
        invariant |pending| <= if |old(pending)| > maxPending then |old(pending)| else maxPending
      {
        if lastDone >= id { return Done(DoneEvent(id, lastDoneReason)); }
        if deadline.Some? && deadline.value - passes[k].now <= 0.0 { return TimedOut; }
        MaybePollStatus(passes[k].now);
        var ok := Pump(passes[k].lines, passes[k].now);
        if !ok { return Raised; }
        assert passes[k..][1..] == passes[k + 1..];
      }
      return if lastDone >= id then Done(DoneEvent(id, lastDoneReason)) else StillWaiting;
    }
  }

  lemma StatusIsSendable(id: nat)
    ensures Sendable(StatusLine(id))
  {
    hide Dec;
    var mark := "#" + Dec(id);
    JoinTwo("STATUS", mark);
    assert ["STATUS"] + [mark] == ["STATUS", mark];
    var line := "STATUS" + " " + mark;
    forall i | 0 <= i < |line| ensures (line[i] as int) < 128 {
      if i >= 8 { assert line[i] == Dec(id)[i - 8] && IsDigit(Dec(id)[i - 8]); }
    }
  }

  // What stands above n among the first k entries comes first among all of them.
  lemma {:induction false} AbovePrefix(pending: seq<(nat, string)>, n: int, k: nat)
    requires k <= |pending|
    ensures R.Above(pending[..k], n) <= R.Above(pending, n)
    ensures R.Lines(R.Above(pending[..k], n)) <= R.Lines(R.Above(pending, n))
    decreases |pending|
  {
    if k == |pending| {
      assert pending[..k] == pending;
    } else {
      var init := pending[..|pending| - 1];
      AbovePrefix(init, n, k);
      assert init[..k] == pending[..k];
    }
  }

  lemma StopsAt(all: seq<string>, gone: seq<string>, next: string)
    requires gone + [next] <= all && !Sendable(next) && AllGo(gone)
    ensures SendUntilRaise(all, 0) == |gone| < |all| && all[..SendUntilRaise(all, 0)] == gone
  {
    hide Sendable;
    assert forall j :: 0 <= j < |gone| ==> all[j] == gone[j];
    assert all[|gone|] == next;
  }

  lemma StopsAfterAll(all: seq<string>)
    requires AllGo(all)
    ensures SendUntilRaise(all, 0) == |all| && all[..|all|] == all
  {
    hide Sendable;
  }

  // Once a line has raised the rest of the batch is not looked at.
  lemma {:induction false} PumpStops(lim: R.Limits, s: Client, lines: seq<string>, i: nat, now: real)
    requires i < |lines| && !Pumped(lim, s, lines[..i + 1], now).1
    ensures Pumped(lim, s, lines, now) == Pumped(lim, s, lines[..i + 1], now)
    decreases |lines|
  {
    hide HandledLine;
    if i + 1 == |lines| {
      assert lines[..i + 1] == lines;
    } else {
      var init := lines[..|lines| - 1];
      assert init[..i + 1] == lines[..i + 1];
      PumpStops(lim, s, init, i, now);
    }
  }
}
