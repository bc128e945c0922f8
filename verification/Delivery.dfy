// What the sequence-number layer delivers, over every run of the machine in
// Reliability: exactly-once in-order execution, the pending window, the lines
// that block a stream for ever, recovery, and the two ways a session wedges.
module Delivery {
  import opened Options
  import opened Reliability

  ghost predicate Accepted<L, P>(c: L -> Packet<P>, line: Option<L>) {
    line.Some? && c(line.value).Sequenced? && c(line.value).decodes
  }

  // ---- safety --------------------------------------------------------------

  // The robot's log is the first expected-1 lines the host sent: no line is
  // missing, repeated or out of place.
  ghost predicate InSequence<L, P>(c: L -> Packet<P>, s: World<L, P>) {
    && |s.robot.executed| == s.robot.expected - 1 <= |s.sent|
    && forall j :: 0 <= j < |s.robot.executed| ==> ExecutedAs(c, s.sent[j], j + 1, s.robot.executed[j])
  }

  lemma ExactlyOnceInOrder<L, P>(c: L -> Packet<P>, lim: Limits, es: seq<Event<L, P>>)
    requires HelloOnlyEarly(c, lim, Init(), es)
    requires |Run(c, lim, Init(), es).sent| <= MAX_IDS
    ensures InSequence(c, Run(c, lim, Init(), es))
  {
    RunKeeps(c, lim, Init(), es);
  }

  // What holds of the two ends and the link whatever HELLOs there were.
  ghost predicate Loose<L, P>(c: L -> Packet<P>, s: World<L, P>) {
    && s.host.nextId == |s.sent| + 1
    && s.host.pending == Window(s.sent, s.host.highestAcked)
    && s.host.highestAcked <= |s.sent|
    && 1 <= s.robot.expected <= |s.sent| + 1
    && (forall j :: 0 <= j < |s.sent| && s.sent[j].Some? ==> Numbered(c(s.sent[j].value), j + 1))
    && (forall l :: l in s.up ==> c(l).Unsequenced? || Some(l) in s.sent)
    && (forall r :: r in s.down && r.Ack? ==> r.n <= |s.sent|)
  }

  // How many more lines the log holds than the counter says.
  ghost function Excess<L, P>(s: World<L, P>): int { |s.robot.executed| - (s.robot.expected - 1) }

  ghost function Lost<L, P>(s: World<L, P>, e: Event<L, P>): int {
    if e.DeliverHello? then s.robot.expected - 1 else 0
  }

  lemma WindowWasSent<L>(sent: seq<Option<L>>, h: int)
    ensures forall x :: x in Window(sent, h) ==> Some(x.1) in sent
  {
    var w := Window(sent, h);
    forall x | x in w ensures Some(x.1) in sent {
      var k :| 0 <= k < |w| && w[k] == x;
      WindowEntry(sent, h, k);
    }
  }

  // Only a HELLO moves the counter away from the log, by as much as it takes
  // the counter back.
  lemma LooseStep<L, P>(c: L -> Packet<P>, lim: Limits, s: World<L, P>, e: Event<L, P>)
    requires Loose(c, s) && |s.sent| <= MAX_IDS
    ensures Loose(c, Step(c, lim, s, e)) && Excess(Step(c, lim, s, e)) == Excess(s) + Lost(s, e)
  {
    hide Window, Above;
    match e
    case Send(line) => if Numbered(c(line), s.host.nextId) { LooseSend(c, s, Some(line)); }
    case SendRaises => LooseSend(c, s, None);
    case Deliver(line) =>
      if line in s.up && !c(line).Unsequenced? {
        var j :| 0 <= j < |s.sent| && s.sent[j] == Some(line);
        assert Numbered(c(line), j + 1);
      }
    case DeliverReply(reply, _) =>
      AboveWindow(s.sent, s.host.highestAcked, reply.n);
      AboveWindow(s.sent, s.host.highestAcked, reply.n - 1);
      WindowWasSent(s.sent, if reply.n - 1 > s.host.highestAcked then reply.n - 1 else s.host.highestAcked);
    case _ =>
  }

  lemma LooseSend<L, P>(c: L -> Packet<P>, s: World<L, P>, line: Option<L>)
    requires Loose(c, s) && (line.Some? ==> Numbered(c(line.value), s.host.nextId))
    ensures Window(s.sent + [line], s.host.highestAcked) ==
            s.host.pending +
            if |s.sent| + 1 > s.host.highestAcked && line.Some? then [(|s.sent| + 1, line.value)] else []
    ensures forall l :: Some(l) in s.sent ==> Some(l) in s.sent + [line]
  {
    assert (s.sent + [line])[..|s.sent|] == s.sent;
  }

  lemma {:induction false} ExcessIff<L, P>(c: L -> Packet<P>, lim: Limits, s: World<L, P>, es: seq<Event<L, P>>)
    requires Loose(c, s) && |Run(c, lim, s, es).sent| <= MAX_IDS
    ensures Excess(Run(c, lim, s, es)) >= Excess(s)
    ensures Excess(Run(c, lim, s, es)) == Excess(s) <==> HelloOnlyEarly(c, lim, s, es)
    decreases |es|
  {
    hide Loose, Step, Excess;
    if es != [] {
      SentGrows(c, lim, s, es);
      LooseStep(c, lim, s, es[0]);
      assert s.robot.expected >= 1 by { CountsFromOne(c, s); }
      ExcessIff(c, lim, Step(c, lim, s, es[0]), es[1..]);
    }
  }

  lemma CountsFromOne<L, P>(c: L -> Packet<P>, s: World<L, P>)
    requires Loose(c, s)
    ensures s.robot.expected >= 1
  {
  }

  // So the assumption on HELLO is exact: a run ends with the log in sequence if
  // and only if every HELLO of it found the robot still expecting id 1.
  lemma ExactlyOnceIff<L, P>(c: L -> Packet<P>, lim: Limits, es: seq<Event<L, P>>)
    requires |Run(c, lim, Init(), es).sent| <= MAX_IDS
    ensures InSequence(c, Run(c, lim, Init(), es)) <==> HelloOnlyEarly(c, lim, Init(), es)
    ensures var r := Run(c, lim, Init(), es).robot;
            |r.executed| == r.expected - 1 <==> HelloOnlyEarly(c, lim, Init(), es)
  {
    hide Step, HelloOnlyEarly;
    ExcessIff(c, lim, Init(), es);
    if HelloOnlyEarly(c, lim, Init(), es) { ExactlyOnceInOrder(c, lim, es); }
  }

  // The shortest run that fails: one line, executed, and a HELLO. With no ack
  // back, the line's next copy is executed again.
  lemma LateHelloFails<L, P>(c: L -> Packet<P>, lim: Limits, line: L, p: P)
    requires lim.maxPending > 0 && c(line) == Sequenced(1, p, true)
    ensures var late := Run(c, lim, Init(), [Send(line), Deliver(line), DeliverHello]);
            && late.robot == Robot(1, [(1, p)]) && !InSequence(c, late)
            && Step(c, lim, late, Deliver(line)).robot.executed == [(1, p), (1, p)]
  {
    hide Run;
    var u := Step(c, lim, Init(), Send(line));
    var x := Step(c, lim, u, Deliver(line));
    RunTwo(c, lim, Init(), Send(line), Deliver(line));
    RunOne(c, lim, x, DeliverHello);
    var first: seq<Event<L, P>> := [Send(line), Deliver(line)];
    RunAppend(c, lim, Init(), first, [DeliverHello]);
    assert first + [DeliverHello] == [Send(line), Deliver(line), DeliverHello];
  }

  lemma LogOnlyGrows<L, P>(c: L -> Packet<P>, lim: Limits, s: World<L, P>, es: seq<Event<L, P>>)
    ensures s.robot.executed <= Run(c, lim, s, es).robot.executed
    decreases |es|
  {
    if es != [] { LogOnlyGrows(c, lim, Step(c, lim, s, es[0]), es[1..]); }
  }

  // Executing id 2^32-1, and nothing else, takes the counter to 0; there no line
  // of the stream, whose ids are positive, moves the robot any more.
  lemma CounterWrapsIff<P>(r: Robot<P>, p: Packet<P>)
    requires 0 < r.expected < UINT32_RANGE
    ensures Receive(r, p).0.expected == 0 <==>
            p.Sequenced? && p.decodes && p.id == r.expected == UINT32_RANGE - 1
  {
  }

  lemma CounterWrapsAfterLastId<P>(log: seq<(nat, P)>, p: P, q: Packet<P>)
    requires q.Sequenced? && q.id > 0
    ensures var r := Receive(Robot(UINT32_RANGE - 1, log), Sequenced(UINT32_RANGE - 1, p, true)).0;
            r.expected == 0 && Receive(r, q).0 == r
  {
  }

  // n lines, each sent, delivered and acked before the next.
  ghost function LockStep<L, P>(line: nat -> L, n: nat): seq<Event<L, P>> {
    if n == 0 then []
    else LockStep(line, n - 1) + [Send(line(n)), Deliver(line(n)), DeliverReply(Ack(n), 0.0)]
  }

  lemma {:induction false} LockStepRuns<L, P>(c: L -> Packet<P>, lim: Limits, line: nat -> L, n: nat)
    requires lim.maxPending > 0 && n < UINT32_RANGE
    requires forall i :: 1 <= i <= n ==> c(line(i)).Sequenced? && c(line(i)).id == i && c(line(i)).decodes
    ensures var s := Run(c, lim, Init(), LockStep(line, n));
            && s.host.nextId == n + 1 && s.host.pending == [] && |s.sent| == n
            && |s.robot.executed| == n && s.robot.expected == (n + 1) % UINT32_RANGE
  {
    if n > 0 {
      LockStepRuns(c, lim, line, n - 1);
      var s: World<L, P> := Run(c, lim, Init(), LockStep(line, n - 1));
      var l := line(n);
      RunAppend(c, lim, Init(), LockStep(line, n - 1), [Send(l), Deliver(l), DeliverReply(Ack(n), 0.0)]);
      OneLockStep(c, lim, s, l);
    }
  }

  lemma OneLockStep<L, P>(c: L -> Packet<P>, lim: Limits, s: World<L, P>, l: L)
    requires lim.maxPending > 0 && s.host.pending == [] && c(l).Sequenced? && c(l).decodes
    requires c(l).id == s.host.nextId == s.robot.expected
    ensures var t := Run(c, lim, s, [Send(l), Deliver(l), DeliverReply(Ack(s.host.nextId), 0.0)]);
            && t.host.nextId == s.host.nextId + 1 && t.host.pending == [] && |t.sent| == |s.sent| + 1
            && |t.robot.executed| == |s.robot.executed| + 1
            && t.robot.expected == (s.robot.expected + 1) % UINT32_RANGE
  {
    hide Run;
    var n := s.host.nextId;
    var first: seq<Event<L, P>> := [Send(l), Deliver(l)];
    var last: seq<Event<L, P>> := [DeliverReply(Ack(n), 0.0)];
    RunTwo(c, lim, s, Send(l), Deliver(l));
    RunOne(c, lim, Run(c, lim, s, first), last[0]);
    RunAppend(c, lim, s, first, last);
    assert first + last == [Send(l), Deliver(l), DeliverReply(Ack(n), 0.0)];
    assert s.host.pending + [(n, l)] == [(n, l)];
    AboveAppend<L>([], (n, l), n);
  }

  // That state is reached, and with it the limit on ids is tight: one id past
  // it, a run without any HELLO ends out of sequence.
  lemma LastIdFails<L, P>(c: L -> Packet<P>, lim: Limits, line: nat -> L)
    requires lim.maxPending > 0
    requires forall i :: 1 <= i <= MAX_IDS + 1 ==> c(line(i)).Sequenced? && c(line(i)).id == i && c(line(i)).decodes
    ensures var s := Run(c, lim, Init(), LockStep(line, MAX_IDS + 1));
            |s.sent| == MAX_IDS + 1 && s.robot.expected == 0 && !InSequence(c, s)
  {
    LockStepRuns(c, lim, line, MAX_IDS + 1);
  }

  lemma BurstNoLonger<L>(w: seq<(nat, L)>, n: int)
    ensures |Above(w, n)| <= |w|
  {
  }

  lemma {:induction false} BufferNeverOverfull<L, P>(c: L -> Packet<P>, lim: Limits, s: World<L, P>,
                                                     es: seq<Event<L, P>>)
    requires |s.host.pending| <= lim.maxPending
    ensures |Run(c, lim, s, es).host.pending| <= lim.maxPending
    decreases |es|
  {
    if es != [] {
      if es[0].DeliverReply? { BurstNoLonger(s.host.pending, es[0].reply.n); }
      BufferNeverOverfull(c, lim, Step(c, lim, s, es[0]), es[1..]);
    }
  }

  ghost predicate SentAs<L>(sent: seq<Option<L>>, i: nat, line: L) {
    1 <= i <= |sent| && sent[i - 1] == Some(line)
  }

  lemma WindowHolds<L>(sent: seq<Option<L>>, h: nat, i: nat, line: L)
    ensures (i, line) in Window(sent, h) <==> h < i && SentAs(sent, i, line)
  {
    if (i, line) in Window(sent, h) {
      var k :| 0 <= k < |Window(sent, h)| && Window(sent, h)[k] == (i, line);
      WindowEntry(sent, h, k);
    }
    if h < i && SentAs(sent, i, line) { WindowCovers(sent, h, i); }
  }

  // Pending holds exactly the lines sent and not yet retired, in id order,
  // among them every line the robot still needs; never more than max_pending.
  lemma PendingWindow<L(!new), P>(c: L -> Packet<P>, lim: Limits, es: seq<Event<L, P>>)
    requires HelloOnlyEarly(c, lim, Init(), es)
    requires |Run(c, lim, Init(), es).sent| <= MAX_IDS
    ensures var s := Run(c, lim, Init(), es);
            && (forall i: nat, l :: (i, l) in s.host.pending <==>
                 s.host.highestAcked < i && SentAs(s.sent, i, l))
            && (forall j, k :: 0 <= j < k < |s.host.pending| ==> s.host.pending[j].0 < s.host.pending[k].0)
            && (forall i: nat, l :: s.robot.expected <= i && SentAs(s.sent, i, l) ==> (i, l) in s.host.pending)
            && |s.host.pending| <= lim.maxPending
  {
    RunKeeps(c, lim, Init(), es);
    BufferNeverOverfull(c, lim, Init(), es);
    var s := Run(c, lim, Init(), es);
    var h := s.host.highestAcked;
    forall i: nat, l
      ensures (i, l) in s.host.pending <==> h < i && SentAs(s.sent, i, l)
    {
      WindowHolds(s.sent, h, i, l);
    }
    forall j, k | 0 <= j < k < |s.host.pending|
      ensures s.host.pending[j].0 < s.host.pending[k].0
    {
      WindowAscends(s.sent, h, j, k);
    }
  }

  ghost predicate HasId<L>(pending: seq<(nat, L)>, i: nat) {
    exists k :: 0 <= k < |pending| && pending[k].0 == i
  }

  ghost predicate ReallySent<L>(sent: seq<Option<L>>, i: nat) {
    1 <= i <= |sent| && sent[i - 1].Some?
  }

  lemma WindowHasId<L>(sent: seq<Option<L>>, h: nat, i: nat)
    ensures HasId(Window(sent, h), i) <==> h < i && ReallySent(sent, i)
  {
    if HasId(Window(sent, h), i) {
      var k :| 0 <= k < |Window(sent, h)| && Window(sent, h)[k].0 == i;
      WindowEntry(sent, h, k);
    }
    if h < i && ReallySent(sent, i) { WindowCovers(sent, h, i); }
  }

  // "Pending ids are exactly those strictly between highest_acked and _next_id"
  // holds if and only if no send() in that range raised after taking its id.
  lemma WindowIsGapFreeIff<L, P>(c: L -> Packet<P>, s: World<L, P>)
    requires Inv(c, s)
    ensures (forall i: nat :: HasId(s.host.pending, i) <==> s.host.highestAcked < i < s.host.nextId)
            <==>
            (forall i: nat :: s.host.highestAcked < i < s.host.nextId ==> ReallySent(s.sent, i))
  {
    var h := s.host.highestAcked;
    forall i: nat
      ensures HasId(s.host.pending, i) <==> h < i && ReallySent(s.sent, i)
    {
      WindowHasId(s.sent, h, i);
    }
  }

  // A raising send() is such a case: one id is spent, nothing is pending.
  lemma RaisingSendLeavesGap<L, P>(c: L -> Packet<P>, lim: Limits)
    requires lim.maxPending > 0
    ensures var s := Run(c, lim, Init(), [SendRaises]);
            s.host.nextId == 2 && s.host.highestAcked == 0 && s.host.pending == []
  {
    assert Run(c, lim, Init(), [SendRaises]) == Step(c, lim, Init(), SendRaises);
  }

  // A line that was never sent as id k, or was sent undecodable, holds the
  // stream at k whatever happens afterwards.
  lemma BlockedAt<L, P>(c: L -> Packet<P>, lim: Limits, s: World<L, P>, es: seq<Event<L, P>>, k: nat)
    requires Inv(c, s) && 1 <= k <= |s.sent| && !Accepted(c, s.sent[k - 1])
    requires HelloOnlyEarly(c, lim, s, es) && |Run(c, lim, s, es).sent| <= MAX_IDS
    ensures Run(c, lim, s, es).robot.expected <= k
  {
    RunKeeps(c, lim, s, es);
    SentGrows(c, lim, s, es);
    var t := Run(c, lim, s, es);
    assert t.robot.expected > k ==> ExecutedAs(c, t.sent[k - 1], k, t.robot.executed[k - 1]);
  }

  // ---- recovery ------------------------------------------------------------

  lemma RunAppend<L, P>(c: L -> Packet<P>, lim: Limits, s: World<L, P>, a: seq<Event<L, P>>, b: seq<Event<L, P>>)
    ensures Run(c, lim, s, a + b) == Run(c, lim, Run(c, lim, s, a), b)
    decreases |a|
  {
    if a == [] {
      assert a + b == b;
    } else {
      assert (a + b)[1..] == a[1..] + b;
      RunAppend(c, lim, Step(c, lim, s, a[0]), a[1..], b);
    }
  }

  // With no gap above h the window lists ids h+1, h+2, ... without holes.
  lemma {:induction false} FullWindow<L>(sent: seq<Option<L>>, h: nat)
    requires h <= |sent| && forall i :: h <= i < |sent| ==> sent[i].Some?
    ensures |Window(sent, h)| == |sent| - h
    ensures forall j :: 0 <= j < |sent| - h ==> Window(sent, h)[j] == (h + 1 + j, sent[h + j].value)
  {
    if |sent| > h {
      FullWindow(sent[..|sent| - 1], h);
    } else {
      EmptyWindow(sent, h);
    }
  }

  lemma {:induction false} EmptyWindow<L>(sent: seq<Option<L>>, h: nat)
    requires h >= |sent|
    ensures Window(sent, h) == []
  {
    if sent != [] { EmptyWindow(sent[..|sent| - 1], h); }
  }

  // Nothing on the link is lost and the robot does not start over. Anything else
  // may happen: old copies and replies, damage, unsequenced lines, further sends.
  ghost predicate LossFree<L, P>(es: seq<Event<L, P>>) {
    forall i :: 0 <= i < |es| ==> Gentle(es[i])
  }

  ghost predicate Gentle<L, P>(e: Event<L, P>) { !e.DeliverHello? && !e.LoseLine? && !e.LoseReply? }

  // These lines are delivered, in this order, among whatever else happens.
  ghost predicate Carries<L, P>(es: seq<Event<L, P>>, ls: seq<L>)
    decreases |es|
  {
    ls == [] ||
    (es != [] && if es[0] == Deliver(ls[0]) then Carries(es[1..], ls[1..]) else Carries(es[1..], ls))
  }

  ghost predicate Grew<L, P>(s: World<L, P>, t: World<L, P>) {
    s.sent <= t.sent && s.robot.expected <= t.robot.expected && s.up <= t.up && s.down <= t.down
  }

  lemma GentleStep<L, P>(c: L -> Packet<P>, lim: Limits, s: World<L, P>, e: Event<L, P>)
    requires Inv(c, s) && |s.sent| <= MAX_IDS && Gentle(e)
    ensures Inv(c, Step(c, lim, s, e)) && Grew(s, Step(c, lim, s, e))
  {
    hide Inv;
    StepKeeps(c, lim, s, e);
    if e.Deliver? && e.line in s.up { ReceiveAdvances(c, s, c(e.line)); }
    if e.DeliverDamaged? && Harmless(e.packet) { ReceiveAdvances(c, s, e.packet); }
  }

  lemma ReceiveAdvances<L, P>(c: L -> Packet<P>, s: World<L, P>, p: Packet<P>)
    requires Inv(c, s) && |s.sent| <= MAX_IDS && (Harmless(p) || exists l :: l in s.up && c(l) == p)
    ensures s.robot.expected <= Received(s, p).robot.expected
  {
    if !Harmless(p) {
      var l :| l in s.up && c(l) == p;
      var j :| 0 <= j < |s.sent| && s.sent[j] == Some(l);
      assert Numbered(c(l), j + 1);
    }
  }

  lemma LossFreeTail<L, P>(es: seq<Event<L, P>>)
    requires LossFree(es) && es != []
    ensures Gentle(es[0]) && LossFree(es[1..])
  {
    forall i | 0 <= i < |es| - 1 ensures Gentle(es[1..][i]) { assert es[1..][i] == es[i + 1]; }
  }

  // One delivery of the line sent as `id`: either that id is behind the robot
  // afterwards and an ack says so, or a nack names what it still waits for.
  lemma DeliveryIsAnswered<L, P>(c: L -> Packet<P>, lim: Limits, s: World<L, P>, line: L, id: nat)
    requires Inv(c, s) && |s.sent| <= MAX_IDS && line in s.up
    requires 1 <= id <= |s.sent| && s.sent[id - 1] == Some(line) && Accepted(c, Some(line))
    ensures var t := Step(c, lim, s, Deliver(line));
            if s.robot.expected < id then t.robot == s.robot && Nack(t.robot.expected) in t.down
            else t.robot.expected > id && Ack(t.robot.expected - 1) in t.down
  {
    assert Numbered(c(line), id);
  }

  // However the deliveries interleave with the rest, lines that begin no later
  // than the robot's gap, delivered in order, take it past the last of them.
  lemma {:induction false} BurstCatchesUp<L, P>(c: L -> Packet<P>, lim: Limits, s: World<L, P>, es: seq<Event<L, P>>,
                                                ls: seq<L>, m: nat)
    requires Inv(c, s) && LossFree(es) && |Run(c, lim, s, es).sent| <= MAX_IDS
    requires Carries(es, ls) && m < s.robot.expected && m + |ls| <= |s.sent|
    requires forall j :: 0 <= j < |ls| ==> s.sent[m + j] == Some(ls[j]) && Accepted(c, Some(ls[j])) && ls[j] in s.up
    ensures var t := Run(c, lim, s, es);
            && Inv(c, t) && Grew(s, t) && t.robot.expected > m + |ls|
            && (ls != [] ==> exists k: nat :: k >= m + |ls| && Ack(k) in t.down)
    decreases |es|
  {
    hide Inv, Step, Gentle;
    if es != [] {
      SentGrows(c, lim, s, es);
      LossFreeTail(es);
      GentleStep(c, lim, s, es[0]);
      var t := Step(c, lim, s, es[0]);
      assert forall i :: m <= i < m + |ls| ==> t.sent[i] == s.sent[i];
      if ls != [] && es[0] == Deliver(ls[0]) {
        assert s.sent[m + 0] == Some(ls[0]);
        DeliveryIsAnswered(c, lim, s, ls[0], m + 1);
        forall j | 0 <= j < |ls| - 1
          ensures t.sent[m + 1 + j] == Some(ls[1..][j]) && Accepted(c, Some(ls[1..][j])) && ls[1..][j] in t.up
        {
          assert ls[1..][j] == ls[j + 1] && s.sent[m + (j + 1)] == Some(ls[j + 1]);
        }
        assert t.robot.expected > m + 1;
        BurstCatchesUp(c, lim, t, es[1..], ls[1..], m + 1);
        assert Ack(t.robot.expected - 1) in Run(c, lim, s, es).down;
      } else {
        BurstCatchesUp(c, lim, t, es[1..], ls, m);
      }
    }
  }

  // A line that arrives is answered, however much else does: once the run is
  // over the robot is past it and an ack says so, or a nack is on its way for
  // a line no later.
  lemma {:induction false} NewLineIsAnswered<L, P>(c: L -> Packet<P>, lim: Limits, s: World<L, P>, es: seq<Event<L, P>>,
                                                   line: L, id: nat)
    requires Inv(c, s) && LossFree(es) && |Run(c, lim, s, es).sent| <= MAX_IDS
    requires Carries(es, [line]) && line in s.up
    requires 1 <= id <= |s.sent| && s.sent[id - 1] == Some(line) && Accepted(c, Some(line))
    ensures var t := Run(c, lim, s, es);
            && Inv(c, t) && Grew(s, t)
            && ((t.robot.expected > id && exists k: nat :: k >= id && Ack(k) in t.down) ||
                exists e: nat :: 1 <= e <= id && e <= t.robot.expected && Nack(e) in t.down)
    decreases |es|
  {
    hide Inv, Step, Gentle;
    SentGrows(c, lim, s, es);
    LossFreeTail(es);
    GentleStep(c, lim, s, es[0]);
    var t := Step(c, lim, s, es[0]);
    if es[0] == Deliver(line) {
      DeliveryIsAnswered(c, lim, s, line, id);
      assert s.robot.expected >= 1 by { ExpectsSome(c, s); }
      BurstCatchesUp(c, lim, t, es[1..], [], 0);
      var reply := if s.robot.expected < id then Nack(t.robot.expected) else Ack(t.robot.expected - 1);
      assert reply in Run(c, lim, s, es).down;
    } else {
      NewLineIsAnswered(c, lim, t, es[1..], line, id);
    }
  }

  lemma ExpectsSome<L, P>(c: L -> Packet<P>, s: World<L, P>)
    requires Inv(c, s)
    ensures s.robot.expected >= 1
  {
  }

  // What a nack makes the host resend, of any stream: nothing and no more when it
  // repeats the one before within the cooldown; and otherwise every line really sent
  // from the later of the one asked for and the first unretired one, remembered as
  // sent now.
  lemma BurstIsTheRest<L, P>(lim: Limits, s: World<L, P>, e: nat, now: real)
    requires s.host.pending == Window(s.sent, s.host.highestAcked)
    ensures var (host, burst) := ResendFrom(lim, s.host, e, now);
            if Due(lim, s.host, e, now) then
              && burst == Lines(Window(s.sent, if e - 1 > s.host.highestAcked then e - 1 else s.host.highestAcked))
              && host == s.host.(lastNack := Some(e), lastResend := now)
            else burst == [] && host == s.host
  {
    AboveWindow(s.sent, s.host.highestAcked, e - 1);
  }

  // Where no send raised, that is all of them, to the last, in order.
  lemma BurstIsGapFree<L, P>(c: L -> Packet<P>, lim: Limits, s: World<L, P>, e: nat, now: real)
    requires Inv(c, s) && e <= |s.sent| + 1
    requires forall i :: 0 <= i < |s.sent| ==> Accepted(c, s.sent[i])
    requires Due(lim, s.host, e, now)
    ensures var burst := ResendFrom(lim, s.host, e, now).1;
            var from := if e - 1 > s.host.highestAcked then e - 1 else s.host.highestAcked;
            && from <= |s.sent| && |burst| == |s.sent| - from
            && forall j :: 0 <= j < |burst| ==> s.sent[from + j] == Some(burst[j]) && Accepted(c, Some(burst[j]))
  {
    hide Window, Above;
    var from := if e - 1 > s.host.highestAcked then e - 1 else s.host.highestAcked;
    BurstIsTheRest(lim, s, e, now);
    FullWindow(s.sent, from);
    var burst := ResendFrom(lim, s.host, e, now).1;
    forall j | 0 <= j < |burst|
      ensures s.sent[from + j] == Some(burst[j]) && Accepted(c, Some(burst[j]))
    {
      assert Accepted(c, s.sent[from + j]);
    }
  }

  // An ack at or past every id sent empties the buffer; otherwise what stays is
  // later than the ack.
  lemma AckDrains<L, P>(c: L -> Packet<P>, lim: Limits, s: World<L, P>, k: nat, now: real)
    requires Inv(c, s) && Ack(k) in s.down
    ensures var t := Step(c, lim, s, DeliverReply(Ack(k), now));
            && t.robot == s.robot && t.sent == s.sent
            && (forall x :: x in t.host.pending ==> x.0 > k)
            && (k >= |s.sent| ==> t.host.pending == [])
  {
    AboveWindow(s.sent, s.host.highestAcked, k);
    AboveKeepsEntries(s.host.pending, k);
    if k >= |s.sent| { EmptyWindow(s.sent, if k > s.host.highestAcked then k else s.host.highestAcked); }
  }

  // Recovery. A new line is sent and arrives; a nack, for whatever line, reaches
  // the host unsuppressed; what it resends arrives in order. In every such run
  // that loses nothing, whatever else is delivered or sent in between, all that
  // had been sent before the nack was handled has been executed, in order; an ack
  // for it is on its way; and that ack leaves pending nothing but later lines.
  lemma Recovery<L, P>(c: L -> Packet<P>, lim: Limits, s: World<L, P>, line: L, before: seq<Event<L, P>>,
                       e: nat, now: real, after: seq<Event<L, P>>)
    requires Inv(c, s) && HasRoom(lim, s.host) && |s.sent| < MAX_IDS
    requires Accepted(c, Some(line)) && c(line).id == s.host.nextId
    requires LossFree(before) && Carries(before, [line]) && LossFree(after)
    requires var x := Run(c, lim, Step(c, lim, s, Send(line)), before);
             && |x.sent| <= MAX_IDS && (forall i :: 0 <= i < |x.sent| ==> Accepted(c, x.sent[i]))
             && Nack(e) in x.down && Due(lim, x.host, e, now)
             && Carries(after, ResendFrom(lim, x.host, e, now).1)
             && |Run(c, lim, Step(c, lim, x, DeliverReply(Nack(e), now)), after).sent| <= MAX_IDS
    ensures var x := Run(c, lim, Step(c, lim, s, Send(line)), before);
            var y := Run(c, lim, Step(c, lim, x, DeliverReply(Nack(e), now)), after);
            && x.sent <= y.sent && |y.robot.executed| >= |x.sent| >= s.host.nextId
            && (forall j :: 0 <= j < |x.sent| ==> ExecutedAs(c, x.sent[j], j + 1, y.robot.executed[j]))
            && (ResendFrom(lim, x.host, e, now).1 != [] ==> exists k: nat :: k >= |x.sent| && Ack(k) in y.down)
            && forall k: nat, later: real :: k >= |x.sent| && Ack(k) in y.down ==>
                 Drained(Step(c, lim, y, DeliverReply(Ack(k), later)), |x.sent|, y.sent == x.sent)
  {
    var u := Step(c, lim, s, Send(line));
    SendKeeps(c, s, line);
    assert u.sent[|s.sent|] == Some(line);
    hide Inv, Step, LossFree, Carries, ResendFrom;
    NewLineIsAnswered(c, lim, u, before, line, |u.sent|);
    var x := Run(c, lim, u, before);
    CaughtUp(c, lim, x, e, now, after);
    var y := Run(c, lim, Step(c, lim, x, DeliverReply(Nack(e), now)), after);
    forall k: nat, later: real | k >= |x.sent| && Ack(k) in y.down
      ensures Drained(Step(c, lim, y, DeliverReply(Ack(k), later)), |x.sent|, y.sent == x.sent)
    {
      AckDrains(c, lim, y, k, later);
    }
  }

  // Nothing up to id n is pending, and nothing at all when nothing was sent since.
  ghost predicate Drained<L, P>(t: World<L, P>, n: nat, nothingSince: bool) {
    (forall p :: p in t.host.pending ==> p.0 > n) && (nothingSince ==> t.host.pending == [])
  }

  lemma CaughtUp<L, P>(c: L -> Packet<P>, lim: Limits, x: World<L, P>, e: nat, now: real, after: seq<Event<L, P>>)
    requires Inv(c, x) && |x.sent| <= MAX_IDS && forall i :: 0 <= i < |x.sent| ==> Accepted(c, x.sent[i])
    requires Nack(e) in x.down && Due(lim, x.host, e, now) && LossFree(after)
    requires Carries(after, ResendFrom(lim, x.host, e, now).1)
    requires |Run(c, lim, Step(c, lim, x, DeliverReply(Nack(e), now)), after).sent| <= MAX_IDS
    ensures var y := Run(c, lim, Step(c, lim, x, DeliverReply(Nack(e), now)), after);
            && Inv(c, y) && x.sent <= y.sent && |y.robot.executed| >= |x.sent|
            && (forall j :: 0 <= j < |x.sent| ==> ExecutedAs(c, x.sent[j], j + 1, y.robot.executed[j]))
            && (ResendFrom(lim, x.host, e, now).1 != [] ==> exists k: nat :: k >= |x.sent| && Ack(k) in y.down)
  {
    hide LossFree, Carries, Window;
    var burst := ResendFrom(lim, x.host, e, now).1;
    BurstIsGapFree(c, lim, x, e, now);
    var from := if e - 1 > x.host.highestAcked then e - 1 else x.host.highestAcked;
    GentleStep(c, lim, x, DeliverReply(Nack(e), now));
    var z := Step(c, lim, x, DeliverReply(Nack(e), now));
    assert z.sent == x.sent && z.robot == x.robot;
    forall j | 0 <= j < |burst| ensures burst[j] in z.up { assert burst[j] in (set l | l in burst); }
    BurstCatchesUp(c, lim, z, after, burst, from);
    var y := Run(c, lim, z, after);
    forall j | 0 <= j < |x.sent| ensures ExecutedAs(c, x.sent[j], j + 1, y.robot.executed[j]) {
      assert y.sent[j] == x.sent[j];
    }
  }

  // ---- such a run exists ----------------------------------------------------

  ghost function Deliveries<L, P>(ls: seq<L>): (es: seq<Event<L, P>>)
    ensures |es| == |ls|
  {
    if ls == [] then [] else [Deliver(ls[0])] + Deliveries(ls[1..])
  }

  lemma {:induction false} DeliveriesCarry<L, P>(c: L -> Packet<P>, lim: Limits, s: World<L, P>, ls: seq<L>)
    ensures LossFree<L, P>(Deliveries(ls)) && Carries<L, P>(Deliveries(ls), ls)
    ensures Run(c, lim, s, Deliveries(ls)).sent == s.sent
    decreases |ls|
  {
    if ls != [] {
      var es: seq<Event<L, P>> := Deliveries(ls);
      assert es[0] == Deliver(ls[0]) && es[1..] == Deliveries(ls[1..]);
      DeliveriesCarry(c, lim, Step(c, lim, s, es[0]), ls[1..]);
      forall i | 0 <= i < |es| ensures Gentle(es[i]) { if i > 0 { assert es[i] == es[1..][i - 1]; } }
    }
  }

  // From any reachable state with room and every sent line decodable, one more
  // send and one loss-free round, its nack not suppressed, end with everything
  // executed in order and nothing pending.
  lemma OneRoundRecovers<L, P>(c: L -> Packet<P>, lim: Limits, s: World<L, P>, line: L, now: real)
    requires Inv(c, s) && HasRoom(lim, s.host) && |s.sent| < MAX_IDS
    requires forall i :: 0 <= i < |s.sent| ==> Accepted(c, s.sent[i])
    requires Accepted(c, Some(line)) && c(line).id == s.host.nextId
    requires Due(lim, s.host, s.robot.expected, now)
    ensures exists es: seq<Event<L, P>> ::
              LossFree(es) && Settled(c, s.sent + [Some(line)], Run(c, lim, s, [Send(line)] + es))
  {
    hide Inv, Step, Settled, LossFree, Accepted;
    var first: seq<Event<L, P>> := [Send(line), Deliver(line)];
    var x := Run(c, lim, s, first);
    Opening(c, lim, s, line);
    var rest := RestOfRound(c, lim, x, s.robot.expected, now);
    var es := [Deliver(line)] + rest;
    OneMoreGentle(Deliver(line), rest);
    RunAppend(c, lim, s, first, rest);
    assert [Send(line)] + es == first + rest;
  }

  // Send the new line and deliver it.
  lemma Opening<L, P>(c: L -> Packet<P>, lim: Limits, s: World<L, P>, line: L)
    requires Inv(c, s) && HasRoom(lim, s.host) && |s.sent| < MAX_IDS
    requires forall i :: 0 <= i < |s.sent| ==> Accepted(c, s.sent[i])
    requires Accepted(c, Some(line)) && c(line).id == s.host.nextId
    ensures var x, e := Run(c, lim, s, [Send(line), Deliver(line)]), s.robot.expected;
            && Inv(c, x) && x.sent == s.sent + [Some(line)] && |x.sent| <= MAX_IDS
            && (forall i :: 0 <= i < |x.sent| ==> Accepted(c, x.sent[i]))
            && x.host.lastNack == s.host.lastNack && x.host.lastResend == s.host.lastResend
            && (e >= |x.sent| ==> x.robot.expected > |x.sent| && Ack(x.robot.expected - 1) in x.down)
            && (e < |x.sent| ==> e == x.robot.expected && Nack(e) in x.down)
  {
    hide Window;
    RunTwo(c, lim, s, Send(line), Deliver(line));
    SendKeeps(c, s, line);
    var u := Step(c, lim, s, Send(line));
    assert u.sent[|s.sent|] == Some(line);
    DeliveryIsAnswered(c, lim, u, line, |u.sent|);
    DeliverKeeps(c, u, line);
  }

  lemma OneMoreGentle<L, P>(e: Event<L, P>, es: seq<Event<L, P>>)
    requires Gentle(e) && LossFree(es)
    ensures LossFree([e] + es)
  {
  }

  lemma LossFreeBoth<L, P>(a: seq<Event<L, P>>, b: seq<Event<L, P>>)
    requires LossFree(a) && LossFree(b)
    ensures LossFree(a + b)
  {
  }

  // Everything sent has been executed, and nothing is pending.
  ghost predicate Settled<L, P>(c: L -> Packet<P>, sent: seq<Option<L>>, t: World<L, P>) {
    && t.sent == sent
    && |t.robot.executed| == |sent|
    && (forall j :: 0 <= j < |sent| ==> ExecutedAs(c, sent[j], j + 1, t.robot.executed[j]))
    && t.host.pending == []
  }

  // The rest of the round: an ack, or a nack for e, its burst and then an ack.
  lemma RestOfRound<L, P>(c: L -> Packet<P>, lim: Limits, x: World<L, P>, e: nat, now: real)
    returns (rest: seq<Event<L, P>>)
    requires Inv(c, x) && |x.sent| <= MAX_IDS && forall i :: 0 <= i < |x.sent| ==> Accepted(c, x.sent[i])
    requires e >= |x.sent| ==> x.robot.expected > |x.sent| && Ack(x.robot.expected - 1) in x.down
    requires e < |x.sent| ==> e == x.robot.expected && Nack(e) in x.down && Due(lim, x.host, e, now)
    ensures LossFree(rest) && Settled(c, x.sent, Run(c, lim, x, rest))
  {
    hide Inv, Step, ResendFrom, Deliveries, Due;
    if e >= |x.sent| {
      rest := [DeliverReply(Ack(x.robot.expected - 1), now)];
      RunOne(c, lim, x, rest[0]);
      LastAckRecovers(c, lim, x, x.robot.expected - 1, now);
    } else {
      var burst := ResendFrom(lim, x.host, e, now).1;
      assert burst != [] && e >= 1 by { RobotLags(c, x); BurstIsGapFree(c, lim, x, e, now); }
      var nacked: seq<Event<L, P>> := [DeliverReply(Nack(e), now)];
      var z := Step(c, lim, x, nacked[0]);
      NackOnlyResends(c, lim, x, e, now);
      DeliveriesCarry(c, lim, z, burst);
      CaughtUp(c, lim, x, e, now, Deliveries(burst));
      var y := Run(c, lim, z, Deliveries(burst));
      var k: nat :| k >= |x.sent| && Ack(k) in y.down;
      var acked: seq<Event<L, P>> := [DeliverReply(Ack(k), now)];
      LastAckRecovers(c, lim, y, k, now);
      rest := nacked + Deliveries(burst) + acked;
      RunOne(c, lim, x, nacked[0]);
      RunOne(c, lim, y, acked[0]);
      RunAppend(c, lim, x, nacked + Deliveries(burst), acked);
      RunAppend(c, lim, x, nacked, Deliveries(burst));
      LossFreeBoth(nacked, Deliveries(burst));
      LossFreeBoth(nacked + Deliveries(burst), acked);
    }
  }

  lemma NackOnlyResends<L, P>(c: L -> Packet<P>, lim: Limits, s: World<L, P>, e: nat, now: real)
    ensures Step(c, lim, s, DeliverReply(Nack(e), now)).sent == s.sent
  {
  }

  lemma RobotLags<L, P>(c: L -> Packet<P>, s: World<L, P>)
    requires Inv(c, s)
    ensures s.host.highestAcked < s.robot.expected
  {
  }

  // An ack of everything sent comes only once everything has been executed.
  lemma LastAckRecovers<L, P>(c: L -> Packet<P>, lim: Limits, s: World<L, P>, k: nat, now: real)
    requires Inv(c, s) && Ack(k) in s.down && k >= |s.sent|
    ensures var t := Step(c, lim, s, DeliverReply(Ack(k), now));
            && t.robot == s.robot && t.sent == s.sent && |t.robot.executed| == |t.sent| && t.host.pending == []
            && forall j :: 0 <= j < |t.sent| ==> ExecutedAs(c, t.sent[j], j + 1, t.robot.executed[j])
  {
    AckDrains(c, lim, s, k, now);
  }

  lemma RunTwo<L, P>(c: L -> Packet<P>, lim: Limits, s: World<L, P>, a: Event<L, P>, b: Event<L, P>)
    ensures Run(c, lim, s, [a, b]) == Step(c, lim, Step(c, lim, s, a), b)
  {
    assert [a, b][1..] == [b];
    assert Run(c, lim, Step(c, lim, s, a), [b]) == Step(c, lim, Step(c, lim, s, a), b);
  }

  lemma RunOne<L, P>(c: L -> Packet<P>, lim: Limits, s: World<L, P>, a: Event<L, P>)
    ensures Run(c, lim, s, [a]) == Step(c, lim, s, a)
  {
  }

  lemma {:induction false} AboveKeepsEntries<L>(w: seq<(nat, L)>, n: int)
    ensures forall x :: x in Above(w, n) ==> x in w && x.0 > n
  {
    if w != [] { AboveKeepsEntries(w[..|w| - 1], n); }
  }

  // ---- the two wedges ------------------------------------------------------

  ghost predicate NothingInFlight<L, P>(c: L -> Packet<P>, s: World<L, P>) {
    s.down == {} && forall l :: l in s.up ==> c(l).Unsequenced?
  }

  ghost predicate FreeOf<L, P>(es: seq<Event<L, P>>) {
    forall i :: 0 <= i < |es| ==> !es[i].DeliverHello? && !es[i].DeliverDamaged?
  }

  // A full buffer with both links empty never moves again: send() refuses,
  // nothing provokes a nack, and without a nack nothing is resent.
  lemma {:induction false} FullBufferIsStuck<L, P>(c: L -> Packet<P>, lim: Limits, s: World<L, P>, es: seq<Event<L, P>>)
    requires !HasRoom(lim, s.host) && NothingInFlight(c, s) && FreeOf(es)
    ensures var t := Run(c, lim, s, es); t.robot == s.robot && t.host == s.host && t.sent == s.sent
    decreases |es|
  {
    if es != [] {
      var t := Step(c, lim, s, es[0]);
      assert FreeOf(es[1..]) by {
        forall i | 0 <= i < |es| - 1 ensures !es[1..][i].DeliverHello? && !es[1..][i].DeliverDamaged? {
          assert es[1..][i] == es[i + 1];
        }
      }
      FullBufferIsStuck(c, lim, t, es[1..]);
    }
  }

  // The host has retired the id the robot is asking for.
  ghost predicate Stranded<L, P>(c: L -> Packet<P>, s: World<L, P>) {
    && s.robot.expected <= s.host.highestAcked < s.host.nextId
    && (forall l :: l in s.up ==> Harmless(c(l)) || (c(l).Sequenced? && c(l).id > s.robot.expected))
    && (forall r :: r in s.down && r.Ack? ==> r.n < s.host.nextId)
    && (forall x :: x in s.host.pending ==> x.0 > s.host.highestAcked && Numbered(c(x.1), x.0))
  }

  lemma StrandedStep<L, P>(c: L -> Packet<P>, lim: Limits, s: World<L, P>, e: Event<L, P>)
    requires Stranded(c, s) && !e.DeliverHello?
    ensures Stranded(c, Step(c, lim, s, e)) && Step(c, lim, s, e).robot == s.robot
  {
    if e.DeliverReply? && e.reply in s.down {
      AboveKeepsEntries(s.host.pending, e.reply.n);
      AboveKeepsEntries(s.host.pending, e.reply.n - 1);
      var resent := HandleReply(lim, s.host, e.reply, e.now).1;
      forall l | l in resent
        ensures Harmless(c(l)) || (c(l).Sequenced? && c(l).id > s.robot.expected)
      {
        var w := Above(s.host.pending, e.reply.n - 1);
        var k :| 0 <= k < |w| && w[k].1 == l;
        assert w[k] in s.host.pending;
      }
    }
  }

  lemma {:induction false} StrandedForEver<L, P>(c: L -> Packet<P>, lim: Limits, s: World<L, P>, es: seq<Event<L, P>>)
    requires Stranded(c, s)
    requires forall i :: 0 <= i < |es| ==> !es[i].DeliverHello?
    ensures Run(c, lim, s, es).robot == s.robot
    decreases |es|
  {
    if es != [] {
      StrandedStep(c, lim, s, es[0]);
      forall i | 0 <= i < |es| - 1 ensures !es[1..][i].DeliverHello? {
        assert es[1..][i] == es[i + 1];
      }
      StrandedForEver(c, lim, Step(c, lim, s, es[0]), es[1..]);
    }
  }

  // A HELLO once an ack has come back, with no copy of line 1 left on the link,
  // strands the session: no later run without a HELLO executes anything, for
  // the host has retired the only line the robot would accept.
  lemma HelloStrands<L, P>(c: L -> Packet<P>, lim: Limits, s: World<L, P>, es: seq<Event<L, P>>)
    requires Inv(c, s) && s.host.highestAcked >= 1
    requires forall l :: l in s.up && c(l).Sequenced? ==> c(l).id != 1
    requires forall i :: 0 <= i < |es| ==> !es[i].DeliverHello?
    ensures var t := Run(c, lim, s, [DeliverHello] + es);
            t.robot.expected == 1 && t.robot.executed == s.robot.executed
  {
    var t := Step(c, lim, s, DeliverHello);
    forall x | x in s.host.pending
      ensures x.0 > s.host.highestAcked && Numbered(c(x.1), x.0)
    {
      WindowHolds(s.sent, s.host.highestAcked, x.0, x.1);
    }
    forall l | l in s.up
      ensures Harmless(c(l)) || (c(l).Sequenced? && c(l).id > 1)
    {
      if !c(l).Unsequenced? {
        var j :| 0 <= j < |s.sent| && s.sent[j] == Some(l);
        assert Numbered(c(l), j + 1);
      }
    }
    StrandedForEver(c, lim, t, es);
    assert ([DeliverHello] + es)[1..] == es;
  }

  // With a copy of line 1 still on the link, the same HELLO executes it twice.
  lemma HelloRepeats<L, P>(c: L -> Packet<P>, lim: Limits, s: World<L, P>, line: L)
    requires Inv(c, s) && s.robot.expected >= 2 && s.sent[0] == Some(line) && line in s.up
    ensures var t := Run(c, lim, s, [DeliverHello, Deliver(line)]);
            var log := t.robot.executed;
            |log| >= 2 && log[0] == log[|log| - 1] && log[0].0 == 1
  {
    assert ExecutedAs(c, s.sent[0], 1, s.robot.executed[0]);
    RunTwo(c, lim, s, DeliverHello, Deliver(line));
  }
}
