// The sequence-number layer as one distributed state machine: the host's
// bookkeeping (src/host/robot_v6/reliability.py), the robot's three-way id
// compare (src/protocol/protocol_handler.cpp) and a link between them that may
// lose, duplicate, reorder and detectably damage lines.
//
// The machine is generic in the line type `L`. A parameter `c: L -> Packet<P>`
// says what the robot reads from a line, so every theorem below holds for the
// real text classifier as for any other.
module Reliability {
  import opened Options

  const UINT32_RANGE: nat := 0x1_0000_0000

  // Ids 1 .. 2^32-2: the ids for which `id + 1` does not wrap to 0.
  const MAX_IDS: nat := UINT32_RANGE - 2

  // What dispatch() learns from one complete line before it looks at state.
  datatype Packet<P> =
    | Sequenced(id: nat, payload: P, decodes: bool) // a well-formed trailing #id
    | Hello
    | Unsequenced // PING, ESTOP, lowercase-led, over-long, or no readable id

  datatype Reply = Ack(n: nat) | Nack(n: nat)

  // Damage is always detected: the damaged line lost its id or fails decode.
  predicate Harmless<P>(p: Packet<P>) {
    p.Unsequenced? || (p.Sequenced? && !p.decodes)
  }

  // ---- the robot half ------------------------------------------------------

  datatype Robot<P> = Robot(expected: nat, executed: seq<(nat, P)>)

  function Receive<P>(r: Robot<P>, p: Packet<P>): (Robot<P>, seq<Reply>) {
    match p
    case Unsequenced => (r, [])
    case Hello => (r.(expected := 1), [])
    case Sequenced(id, payload, decodes) =>
      if id < r.expected then (r, [Ack(r.expected - 1)])
      else if id > r.expected then (r, [Nack(r.expected)])
      else if !decodes then (r, [Nack(r.expected)])
      else (Robot((id + 1) % UINT32_RANGE, r.executed + [(id, payload)]), [Ack(id)])
  }

  // ---- the host half -------------------------------------------------------

  datatype Limits = Limits(maxPending: nat, cooldown: real)

  // `pending` is the insertion-ordered dictionary from id to sent line.
  datatype Host<L> = Host(
    nextId: nat,
    pending: seq<(nat, L)>,
    highestAcked: nat,
    lastNack: Option<nat>,
    lastResend: real)

  predicate HasRoom<L>(lim: Limits, h: Host<L>) {
    |h.pending| < lim.maxPending
  }

  function Buffer<L>(h: Host<L>, line: L): Host<L> {
    h.(nextId := h.nextId + 1, pending := h.pending + [(h.nextId, line)])
  }

  function Burn<L>(h: Host<L>): Host<L> {
    h.(nextId := h.nextId + 1)
  }

  // The entries with an id above n, in order.
  function Above<L>(pending: seq<(nat, L)>, n: int): seq<(nat, L)> {
    if pending == [] then []
    else
      var last := pending[|pending| - 1];
      Above(pending[..|pending| - 1], n) + if last.0 > n then [last] else []
  }

  function Lines<L>(entries: seq<(nat, L)>): (ls: seq<L>)
    ensures |ls| == |entries|
    ensures forall i :: 0 <= i < |ls| ==> ls[i] == entries[i].1
  {
    seq(|entries|, i requires 0 <= i < |entries| => entries[i].1)
  }

  function RetireThrough<L>(h: Host<L>, n: nat): Host<L> {
    h.(pending := Above(h.pending, n),
       highestAcked := if n > h.highestAcked then n else h.highestAcked)
  }

  predicate Suppressed<L>(lim: Limits, h: Host<L>, n: nat, now: real) {
    h.lastNack == Some(n) && now - h.lastResend < lim.cooldown
  }

  // A nack that is answered: for another line than the one before, or once the
  // cooldown since the last burst is over.
  predicate Due<L>(lim: Limits, h: Host<L>, n: nat, now: real) {
    h.lastNack != Some(n) || now - h.lastResend >= lim.cooldown
  }

  function ResendFrom<L>(lim: Limits, h: Host<L>, n: nat, now: real): (Host<L>, seq<L>) {
    if Suppressed(lim, h, n, now) then (h, [])
    else (h.(lastNack := Some(n), lastResend := now), Lines(Above(h.pending, n - 1)))
  }

  function HandleReply<L>(lim: Limits, h: Host<L>, r: Reply, now: real): (Host<L>, seq<L>) {
    match r
    case Ack(n) => (RetireThrough(h, n), [])
    case Nack(n) => ResendFrom(lim, h, n, now)
  }

  // ---- both halves and the link --------------------------------------------

  // `sent[i - 1]` is the line the host sent as id i, or None for an id that
  // send() consumed without sending anything. `up` and `down` hold the lines
  // still on the link: delivery leaves a line there (it may be delivered again
  // or out of order); the Lose steps remove it.
  datatype World<L, P> = World(
    host: Host<L>,
    robot: Robot<P>,
    sent: seq<Option<L>>,
    up: set<L>,
    down: set<Reply>)

  datatype Event<L, P> =
    | Send(line: L)
    | SendRaises              // encode_command raises after the id was taken
    | SendUnsequenced(line: L)
    | Deliver(line: L)
    | DeliverDamaged(packet: Packet<P>)
    | DeliverHello
    | DeliverReply(reply: Reply, now: real)
    | LoseLine(line: L)
    | LoseReply(reply: Reply)

  ghost function Init<L, P>(): World<L, P> {
    World(Host(1, [], 0, None, 0.0), Robot(1, []), [], {}, {})
  }

  // The line sent as `id` carries that id, or the robot cannot accept it.
  predicate Numbered<P>(p: Packet<P>, id: nat) {
    Harmless(p) || (p.Sequenced? && p.id == id)
  }

  ghost function Step<L, P>(c: L -> Packet<P>, lim: Limits, s: World<L, P>, e: Event<L, P>): World<L, P> {
    match e
    case Send(line) =>
      if HasRoom(lim, s.host) && Numbered(c(line), s.host.nextId)
      then s.(host := Buffer(s.host, line), sent := s.sent + [Some(line)], up := s.up + {line})
      else s
    case SendRaises =>
      if HasRoom(lim, s.host) then s.(host := Burn(s.host), sent := s.sent + [None]) else s
    case SendUnsequenced(line) =>
      if c(line).Unsequenced? then s.(up := s.up + {line}) else s
    case Deliver(line) =>
      if line in s.up then Received(s, c(line)) else s
    case DeliverDamaged(packet) =>
      if Harmless(packet) then Received(s, packet) else s
    case DeliverHello => Received(s, Hello)
    case DeliverReply(reply, now) =>
      if reply in s.down
      then
        var (h, resent) := HandleReply(lim, s.host, reply, now);
        s.(host := h, up := s.up + set l | l in resent)
      else s
    case LoseLine(line) => s.(up := s.up - {line})
    case LoseReply(reply) => s.(down := s.down - {reply})
  }

  ghost function Received<L, P>(s: World<L, P>, p: Packet<P>): World<L, P> {
    var (r, replies) := Receive(s.robot, p);
    s.(robot := r, down := s.down + set x | x in replies)
  }

  ghost function Run<L, P>(c: L -> Packet<P>, lim: Limits, s: World<L, P>, es: seq<Event<L, P>>): World<L, P>
    decreases |es|
  {
    if es == [] then s else Run(c, lim, Step(c, lim, s, es[0]), es[1..])
  }

  // A HELLO is early when it finds the robot still at the start of the stream.
  ghost predicate HelloOnlyEarly<L, P>(c: L -> Packet<P>, lim: Limits, s: World<L, P>, es: seq<Event<L, P>>)
    decreases |es|
  {
    es == [] ||
    ((es[0].DeliverHello? ==> s.robot.expected == 1) &&
     HelloOnlyEarly(c, lim, Step(c, lim, s, es[0]), es[1..]))
  }

  // ---- the invariant -------------------------------------------------------

  // The unretired lines: exactly the ids above h that were really sent.
  function Window<L>(sent: seq<Option<L>>, h: int): seq<(nat, L)> {
    if sent == [] then []
    else
      var last := sent[|sent| - 1];
      Window(sent[..|sent| - 1], h) +
      if |sent| > h && last.Some? then [(|sent|, last.value)] else []
  }

  // The robot executed line i of the stream: it was sent, decodes, and its
  // payload is what the i-th log entry holds.
  ghost predicate ExecutedAs<L, P>(c: L -> Packet<P>, line: Option<L>, i: nat, entry: (nat, P)) {
    line.Some? && entry.0 == i && c(line.value) == Sequenced(i, entry.1, true)
  }

  ghost predicate PrefixExecuted<L, P>(c: L -> Packet<P>, s: World<L, P>) {
    && |s.robot.executed| == s.robot.expected - 1 <= |s.sent|
    && forall j :: 0 <= j < |s.robot.executed| ==>
         ExecutedAs(c, s.sent[j], j + 1, s.robot.executed[j])
  }

  ghost predicate Inv<L, P>(c: L -> Packet<P>, s: World<L, P>) {
    && s.host.nextId == |s.sent| + 1
    && PrefixExecuted(c, s)
    && s.host.highestAcked < s.robot.expected
    && s.host.pending == Window(s.sent, s.host.highestAcked)
    && (forall j :: 0 <= j < |s.sent| && s.sent[j].Some? ==> Numbered(c(s.sent[j].value), j + 1))
    && (forall l :: l in s.up ==> c(l).Unsequenced? || Some(l) in s.sent)
    && (forall r :: r in s.down ==>
          if r.Ack? then r.n < s.robot.expected else 1 <= r.n <= s.robot.expected)
  }

  lemma AboveAppend<L>(w: seq<(nat, L)>, x: (nat, L), n: int)
    ensures Above(w + [x], n) == Above(w, n) + if x.0 > n then [x] else []
  {
    assert (w + [x])[..|w|] == w;
  }

  lemma {:induction false} AboveWindow<L>(sent: seq<Option<L>>, h: int, n: int)
    ensures Above(Window(sent, h), n) == Window(sent, if n > h then n else h)
  {
    if sent != [] {
      var init, last := sent[..|sent| - 1], sent[|sent| - 1];
      AboveWindow(init, h, n);
      if |sent| > h && last.Some? {
        AboveAppend(Window(init, h), (|sent|, last.value), n);
      } else {
        assert Window(sent, h) == Window(init, h);
      }
    }
  }

  lemma {:induction false} WindowEntry<L>(sent: seq<Option<L>>, h: int, k: nat)
    requires k < |Window(sent, h)|
    ensures var (i, l) := Window(sent, h)[k]; h < i <= |sent| && 0 < i && sent[i - 1] == Some(l)
  {
    var init := sent[..|sent| - 1];
    if k < |Window(init, h)| {
      WindowEntry(init, h, k);
    }
  }

  lemma {:induction false} WindowAscends<L>(sent: seq<Option<L>>, h: int, j: nat, k: nat)
    requires j < k < |Window(sent, h)|
    ensures Window(sent, h)[j].0 < Window(sent, h)[k].0
  {
    var init := sent[..|sent| - 1];
    if k < |Window(init, h)| {
      WindowAscends(init, h, j, k);
    } else {
      WindowEntry(init, h, j);
    }
  }

  lemma {:induction false} WindowCovers<L>(sent: seq<Option<L>>, h: int, i: nat)
    requires h < i <= |sent| && 0 < i && sent[i - 1].Some?
    ensures (i, sent[i - 1].value) in Window(sent, h)
  {
    if i < |sent| {
      WindowCovers(sent[..|sent| - 1], h, i);
    }
  }

  lemma ResentWereSent<L, P>(c: L -> Packet<P>, s: World<L, P>, n: nat)
    requires Inv(c, s)
    ensures forall l :: l in Lines(Above(s.host.pending, n - 1)) ==> Some(l) in s.sent
  {
    AboveWindow(s.sent, s.host.highestAcked, n - 1);
    var w := Above(s.host.pending, n - 1);
    forall l | l in Lines(w) ensures Some(l) in s.sent {
      var k :| 0 <= k < |w| && w[k].1 == l;
      WindowEntry(s.sent, if n - 1 > s.host.highestAcked then n - 1 else s.host.highestAcked, k);
    }
  }

  lemma ReceiveKeeps<L, P>(c: L -> Packet<P>, s: World<L, P>, p: Packet<P>)
    requires Inv(c, s) && |s.sent| <= MAX_IDS
    requires Harmless(p) || (p.Hello? && s.robot.expected == 1) ||
             (p.Sequenced? && 1 <= p.id <= |s.sent| && s.sent[p.id - 1].Some? && c(s.sent[p.id - 1].value) == p)
    ensures Inv(c, Received(s, p))
  {
  }

  lemma SendKeeps<L, P>(c: L -> Packet<P>, s: World<L, P>, line: L)
    requires Inv(c, s) && Numbered(c(line), s.host.nextId)
    ensures Inv(c, s.(host := Buffer(s.host, line), sent := s.sent + [Some(line)], up := s.up + {line}))
  {
    var sent := s.sent + [Some(line)];
    assert sent[..|s.sent|] == s.sent;
    assert Some(line) == sent[|s.sent|];
    assert forall l :: Some(l) in s.sent ==> Some(l) in sent;
  }

  lemma BurnKeeps<L, P>(c: L -> Packet<P>, s: World<L, P>)
    requires Inv(c, s)
    ensures Inv(c, s.(host := Burn(s.host), sent := s.sent + [None]))
  {
    var sent: seq<Option<L>> := s.sent + [None];
    assert sent[..|s.sent|] == s.sent;
    assert forall l :: Some(l) in s.sent ==> Some(l) in sent;
  }

  lemma DeliverKeeps<L, P>(c: L -> Packet<P>, s: World<L, P>, line: L)
    requires Inv(c, s) && |s.sent| <= MAX_IDS && line in s.up
    ensures Inv(c, Received(s, c(line)))
  {
    if !Harmless(c(line)) {
      var j :| 0 <= j < |s.sent| && s.sent[j] == Some(line);
    }
    ReceiveKeeps(c, s, c(line));
  }

  lemma ReplyKeeps<L, P>(c: L -> Packet<P>, lim: Limits, s: World<L, P>, reply: Reply, now: real)
    requires Inv(c, s) && reply in s.down
    ensures var (h, resent) := HandleReply(lim, s.host, reply, now);
            Inv(c, s.(host := h, up := s.up + set l | l in resent))
  {
    AboveWindow(s.sent, s.host.highestAcked, reply.n);
    ResentWereSent(c, s, reply.n);
  }

  lemma StepKeeps<L, P>(c: L -> Packet<P>, lim: Limits, s: World<L, P>, e: Event<L, P>)
    requires Inv(c, s) && |s.sent| <= MAX_IDS
    requires e.DeliverHello? ==> s.robot.expected == 1
    ensures Inv(c, Step(c, lim, s, e))
  {
    match e
    case Send(line) =>
      if Numbered(c(line), s.host.nextId) { SendKeeps(c, s, line); }
    case SendRaises => BurnKeeps(c, s);
    case Deliver(line) => if line in s.up { DeliverKeeps(c, s, line); }
    case DeliverDamaged(packet) => if Harmless(packet) { ReceiveKeeps(c, s, packet); }
    case DeliverHello => ReceiveKeeps(c, s, Hello);
    case DeliverReply(reply, now) => if reply in s.down { ReplyKeeps(c, lim, s, reply, now); }
    case SendUnsequenced(_) =>
    case LoseLine(_) =>
    case LoseReply(_) =>
  }

  lemma SentGrows<L, P>(c: L -> Packet<P>, lim: Limits, s: World<L, P>, es: seq<Event<L, P>>)
    ensures s.sent <= Run(c, lim, s, es).sent
    decreases |es|
  {
    if es != [] { SentGrows(c, lim, Step(c, lim, s, es[0]), es[1..]); }
  }

  lemma {:induction false} RunKeeps<L, P>(c: L -> Packet<P>, lim: Limits, s: World<L, P>, es: seq<Event<L, P>>)
    requires Inv(c, s)
    requires |Run(c, lim, s, es).sent| <= MAX_IDS
    requires HelloOnlyEarly(c, lim, s, es)
    ensures Inv(c, Run(c, lim, s, es))
    decreases |es|
  {
    if es != [] {
      var t := Step(c, lim, s, es[0]);
      SentGrows(c, lim, t, es[1..]);
      StepKeeps(c, lim, s, es[0]);
      RunKeeps(c, lim, t, es[1..]);
    }
  }
}
