// How many resend bursts a stream of nacks can provoke
// (src/host/robot_v6/reliability.py, _maybe_resend_from).
module Storm {
  import opened Options
  import opened Reliability
  import opened Delivery

  datatype Arrival = Arrival(reply: Reply, at: real)

  function AfterAll<L>(lim: Limits, h: Host<L>, arrivals: seq<Arrival>): Host<L> {
    if arrivals == [] then h
    else
      var k := |arrivals| - 1;
      HandleReply(lim, AfterAll(lim, h, arrivals[..k]), arrivals[k].reply, arrivals[k].at).0
  }

  // A burst is a nack that was not suppressed, even if nothing was pending.
  function Bursts<L>(lim: Limits, h: Host<L>, arrivals: seq<Arrival>): nat {
    if arrivals == [] then 0
    else
      var k := |arrivals| - 1;
      var a := arrivals[k];
      Bursts(lim, h, arrivals[..k]) +
      if a.reply.Nack? && Due(lim, AfterAll(lim, h, arrivals[..k]), a.reply.n, a.at) then 1 else 0
  }

  function Replies(arrivals: seq<Arrival>): (rs: seq<Reply>)
    ensures |rs| == |arrivals| && forall i :: 0 <= i < |rs| ==> rs[i] == arrivals[i].reply
  {
    seq(|arrivals|, i requires 0 <= i < |arrivals| => arrivals[i].reply)
  }

  function Values(rs: seq<Reply>): set<nat> {
    set r | r in rs && r.Nack? :: r.n
  }

  function NackValues(arrivals: seq<Arrival>): set<nat> { Values(Replies(arrivals)) }

  function LastNack(rs: seq<Reply>): Option<nat> {
    if rs == [] then None
    else if rs[|rs| - 1].Nack? then Some(rs[|rs| - 1].n)
    else LastNack(rs[..|rs| - 1])
  }

  // The nacks whose value differs from that of the nack before.
  function Groups(rs: seq<Reply>): nat {
    if rs == [] then 0
    else
      var init, last := rs[..|rs| - 1], rs[|rs| - 1];
      Groups(init) + if last.Nack? && LastNack(init) != Some(last.n) then 1 else 0
  }

  // No nack value comes back once another has been seen.
  ghost predicate NoneComesBack(rs: seq<Reply>) {
    forall i, j, k :: 0 <= i < j < k < |rs| && rs[i].Nack? && rs[j].Nack? && rs[k].Nack? && rs[i].n == rs[k].n ==>
      rs[j].n == rs[i].n
  }

  // Each arrival is no earlier than all those before it ...
  ghost predicate InTimeOrder(arrivals: seq<Arrival>) {
    arrivals == [] ||
    (var k := |arrivals| - 1;
     InTimeOrder(arrivals[..k]) && forall b :: b in arrivals[..k] ==> b.at <= arrivals[k].at)
  }

  // ... and a nack asks for no lower an id than all nacks before it.
  ghost predicate NacksNeverDecrease(arrivals: seq<Arrival>) {
    arrivals == [] ||
    (var k := |arrivals| - 1;
     NacksNeverDecrease(arrivals[..k]) &&
     (arrivals[k].reply.Nack? ==> forall n :: n in NackValues(arrivals[..k]) ==> n <= arrivals[k].reply.n))
  }

  lemma ReplyAppend(rs: seq<Reply>, r: Reply)
    ensures Values(rs + [r]) == Values(rs) + if r.Nack? then {r.n} else {}
    ensures LastNack(rs + [r]) == if r.Nack? then Some(r.n) else LastNack(rs)
    ensures Groups(rs + [r]) == Groups(rs) + if r.Nack? && LastNack(rs) != Some(r.n) then 1 else 0
  {
    assert (rs + [r])[..|rs|] == rs;
    assert r in rs + [r];
    assert forall x :: x in rs ==> x in rs + [r];
  }

  lemma RepliesAppend(arrivals: seq<Arrival>, a: Arrival)
    ensures Replies(arrivals + [a]) == Replies(arrivals) + [a.reply]
  {
  }

  // ---- groups and distinct values ------------------------------------------

  lemma {:induction false} LastNackStands(rs: seq<Reply>)
    ensures LastNack(rs).None? ==> forall i :: 0 <= i < |rs| ==> !rs[i].Nack?
    ensures LastNack(rs).Some? ==>
              exists p :: 0 <= p < |rs| && rs[p] == Nack(LastNack(rs).value) &&
                forall q :: p < q < |rs| ==> !rs[q].Nack?
  {
    if rs != [] {
      var init := rs[..|rs| - 1];
      LastNackStands(init);
      if !rs[|rs| - 1].Nack? && LastNack(init).Some? {
        var p :| 0 <= p < |init| && init[p] == Nack(LastNack(init).value) &&
          forall q :: p < q < |init| ==> !init[q].Nack?;
        assert rs[p] == init[p] && forall q :: p < q < |init| ==> rs[q] == init[q];
      }
    }
  }

  lemma ValueStands(rs: seq<Reply>, n: nat)
    ensures n in Values(rs) <==> exists i :: 0 <= i < |rs| && rs[i] == Nack(n)
  {
    if n in Values(rs) {
      var r :| r in rs && r.Nack? && r.n == n;
      assert r == Nack(n);
    }
  }

  // One reply more keeps values from coming back exactly when its own does not.
  lemma ComesBackIff(rs: seq<Reply>, r: Reply)
    ensures NoneComesBack(rs + [r]) <==>
            NoneComesBack(rs) && (r.Nack? && r.n in Values(rs) ==> LastNack(rs) == Some(r.n))
  {
    hide Values, LastNack;
    var all := rs + [r];
    if NoneComesBack(all) {
      assert forall i :: 0 <= i < |rs| ==> all[i] == rs[i];
      assert NoneComesBack(rs);
    }
    if r.Nack? && r.n in Values(rs) && LastNack(rs) != Some(r.n) { ValueComesBack(rs, r); }
    if NoneComesBack(rs) && r.Nack? && LastNack(rs) == Some(r.n) { SameValueAgain(rs, r); }
    if NoneComesBack(rs) && r.Nack? && r.n !in Values(rs) { ValueStands(rs, r.n); }
  }

  lemma ValueComesBack(rs: seq<Reply>, r: Reply)
    requires r.Nack? && r.n in Values(rs) && LastNack(rs) != Some(r.n)
    ensures !NoneComesBack(rs + [r])
  {
    hide Values, LastNack;
    var all := rs + [r];
    LastNackStands(rs);
    ValueStands(rs, r.n);
    var i :| 0 <= i < |rs| && rs[i] == Nack(r.n);
    var p :| 0 <= p < |rs| && rs[p] == Nack(LastNack(rs).value) && forall q :: p < q < |rs| ==> !rs[q].Nack?;
    assert all[i] == Nack(r.n) && all[p] == Nack(LastNack(rs).value) && all[|rs|] == r;
  }

  lemma SameValueAgain(rs: seq<Reply>, r: Reply)
    requires NoneComesBack(rs) && r.Nack? && LastNack(rs) == Some(r.n)
    ensures NoneComesBack(rs + [r])
  {
    hide LastNack;
    var all := rs + [r];
    LastNackStands(rs);
    var p :| 0 <= p < |rs| && rs[p] == Nack(r.n) && forall q :: p < q < |rs| ==> !rs[q].Nack?;
    forall i, j, k | 0 <= i < j < k < |all| && all[i].Nack? && all[j].Nack? && all[k].Nack? && all[i].n == all[k].n
      ensures all[j].n == all[i].n
    {
      if k == |rs| && j != p { assert rs[j].Nack? && j < p; }
    }
  }

  // There are at least as many groups as distinct values, and as many exactly
  // when no value comes back.
  lemma {:induction false} GroupsAreValuesIff(rs: seq<Reply>)
    ensures |Values(rs)| <= Groups(rs)
    ensures |Values(rs)| == Groups(rs) <==> NoneComesBack(rs)
  {
    hide Values, LastNack, Groups, NoneComesBack;
    if rs == [] {
      NoReplies();
    } else {
      var init, r := rs[..|rs| - 1], rs[|rs| - 1];
      assert rs == init + [r];
      GroupsAreValuesIff(init);
      ReplyAppend(init, r);
      ComesBackIff(init, r);
      if r.Nack? {
        if r.n in Values(init) {
          assert Values(init) + {r.n} == Values(init);
        } else {
          NewValue(init, r.n);
          assert |Values(init) + {r.n}| == |Values(init)| + 1;
        }
      }
    }
  }

  lemma NoReplies()
    ensures Values([]) == {} && LastNack([]) == None && Groups([]) == 0 && NoneComesBack([])
  {
  }

  lemma NewValue(rs: seq<Reply>, n: nat)
    requires n !in Values(rs)
    ensures LastNack(rs) != Some(n)
  {
    hide Values;
    LastNackStands(rs);
    ValueStands(rs, n);
  }

  // n cooldown periods, added up.
  function Periods(n: nat, cooldown: real): real {
    if n == 0 then 0.0 else Periods(n - 1, cooldown) + cooldown
  }

  lemma PeriodsIsProduct(n: nat, cooldown: real)
    ensures Periods(n, cooldown) == n as real * cooldown
  {
    if n > 0 {
      PeriodsIsProduct(n - 1, cooldown);
      assert n as real == (n - 1) as real + 1.0;
    }
  }

  // The ledger of a run that began at time `start`: `last` and `at` are the
  // host's memory of the last nack, and the bursts so far are paid for by the
  // groups so far and by elapsed cooldowns.
  ghost predicate Paid(cooldown: real, last: Option<nat>, at: real, start: real, bursts: nat, groups: nat) {
    if last.None? then bursts == 0 && groups == 0
    else start <= at && Periods(bursts, cooldown) <= Periods(groups, cooldown) + (at - start)
  }

  lemma PaidStep(cooldown: real, last: Option<nat>, at: real, start: real, bursts: nat, groups: nat, n: nat, now: real)
    requires cooldown > 0.0 && start <= now && at <= now
    requires Paid(cooldown, last, at, start, bursts, groups)
    ensures var after := groups + if last == Some(n) then 0 else 1;
            if last == Some(n) && now - at < cooldown
            then Paid(cooldown, last, at, start, bursts, after)
            else Paid(cooldown, Some(n), now, start, bursts + 1, after)
  {
  }

  // One arrival more.
  lemma ArrivalAppend<L>(lim: Limits, h: Host<L>, arrivals: seq<Arrival>, a: Arrival)
    ensures var g := AfterAll(lim, h, arrivals);
            && AfterAll(lim, h, arrivals + [a]) == HandleReply(lim, g, a.reply, a.at).0
            && Bursts(lim, h, arrivals + [a]) ==
               Bursts(lim, h, arrivals) + if a.reply.Nack? && Due(lim, g, a.reply.n, a.at) then 1 else 0
  {
    hide HandleReply, Due;
    assert (arrivals + [a])[..|arrivals|] == arrivals;
  }

  lemma NoArrivals<L>(lim: Limits, h: Host<L>)
    ensures AfterAll(lim, h, []) == h && Bursts(lim, h, []) == 0 && Replies([]) == []
  {
  }

  // What one reply does to the host's memory of nacks.
  lemma ReplyOnMemory<L>(lim: Limits, h: Host<L>, r: Reply, now: real)
    ensures var g := HandleReply(lim, h, r, now).0;
            if r.Nack? && Due(lim, h, r.n, now) then g.lastNack == Some(r.n) && g.lastResend == now
            else g.lastNack == h.lastNack && g.lastResend == h.lastResend
  {
  }

  lemma OrderSplits(arrivals: seq<Arrival>, a: Arrival)
    requires InTimeOrder(arrivals + [a])
    ensures InTimeOrder(arrivals) && forall b :: b in arrivals ==> b.at <= a.at
  {
    assert (arrivals + [a])[..|arrivals|] == arrivals;
  }

  lemma {:induction false} BurstsArePaidFor<L>(lim: Limits, h: Host<L>, arrivals: seq<Arrival>)
    requires lim.cooldown > 0.0 && h.lastNack.None? && arrivals != [] && InTimeOrder(arrivals)
    ensures var g, rs := AfterAll(lim, h, arrivals), Replies(arrivals);
            && g.lastNack == LastNack(rs)
            && (g.lastNack.Some? ==> g.lastResend <= arrivals[|arrivals| - 1].at)
            && Paid(lim.cooldown, g.lastNack, g.lastResend, arrivals[0].at, Bursts(lim, h, arrivals), Groups(rs))
  {
    hide AfterAll, Bursts, LastNack, Groups, Replies, HandleReply, InTimeOrder, Periods;
    var k := |arrivals| - 1;
    var init, a := arrivals[..k], arrivals[k];
    assert arrivals == init + [a];
    OrderSplits(init, a);
    ArrivalAppend(lim, h, init, a);
    RepliesAppend(init, a);
    ReplyAppend(Replies(init), a.reply);
    var g := AfterAll(lim, h, init);
    ReplyOnMemory(lim, g, a.reply, a.at);
    if init != [] {
      BurstsArePaidFor(lim, h, init);
      assert init[0] in init && init[k - 1] in init;
    } else {
      NoArrivals(lim, h);
      NoReplies();
    }
    if a.reply.Nack? {
      var at := if g.lastNack.None? then a.at else g.lastResend;
      PaidStep(lim.cooldown, g.lastNack, at, arrivals[0].at, Bursts(lim, h, init), Groups(Replies(init)), a.reply.n,
               a.at);
    }
  }

  lemma {:induction false} FirstIsEarliest(arrivals: seq<Arrival>)
    requires InTimeOrder(arrivals) && arrivals != []
    ensures arrivals[0].at <= arrivals[|arrivals| - 1].at
  {
    if |arrivals| > 1 { assert arrivals[0] in arrivals[..|arrivals| - 1]; }
  }

  function Elapsed(arrivals: seq<Arrival>): real
    requires arrivals != []
  {
    arrivals[|arrivals| - 1].at - arrivals[0].at
  }

  // Whatever the order of the nacks, over a time T the host makes at most
  // (groups of equal nacks + T / cooldown) bursts.
  lemma GroupBound<L>(lim: Limits, h: Host<L>, arrivals: seq<Arrival>)
    requires lim.cooldown > 0.0 && h.lastNack.None? && arrivals != [] && InTimeOrder(arrivals)
    ensures Bursts(lim, h, arrivals) as real <= Groups(Replies(arrivals)) as real + Elapsed(arrivals) / lim.cooldown
  {
    hide Groups, LastNack, Replies, Bursts, AfterAll, InTimeOrder;
    BurstsArePaidFor(lim, h, arrivals);
    FirstIsEarliest(arrivals);
    PaidBound(Bursts(lim, h, arrivals), Groups(Replies(arrivals)), Elapsed(arrivals), lim.cooldown);
  }

  // At most (distinct nack values + T / cooldown) bursts.
  ghost predicate WithinDistinct<L>(lim: Limits, h: Host<L>, arrivals: seq<Arrival>)
    requires arrivals != [] && lim.cooldown > 0.0
  {
    Bursts(lim, h, arrivals) as real <= |NackValues(arrivals)| as real + Elapsed(arrivals) / lim.cooldown
  }

  // All at one instant.
  function AtOnce(rs: seq<Reply>): (arrivals: seq<Arrival>)
    ensures |arrivals| == |rs| && Replies(arrivals) == rs && forall i :: 0 <= i < |rs| ==> arrivals[i].at == 0.0
  {
    seq(|rs|, i requires 0 <= i < |rs| => Arrival(rs[i], 0.0))
  }

  // Then every group, and nothing else, provokes a burst.
  lemma {:induction false} AtOnceBursts<L>(lim: Limits, h: Host<L>, rs: seq<Reply>)
    requires lim.cooldown > 0.0 && h.lastNack.None?
    ensures InTimeOrder(AtOnce(rs)) && Bursts(lim, h, AtOnce(rs)) == Groups(rs)
    ensures var g := AfterAll(lim, h, AtOnce(rs));
            g.lastNack == LastNack(rs) && (g.lastNack.Some? ==> g.lastResend == 0.0)
  {
    hide AfterAll, Bursts, LastNack, Groups, HandleReply;
    if rs == [] {
      NoArrivals(lim, h);
      NoReplies();
    } else {
      var init, r := rs[..|rs| - 1], rs[|rs| - 1];
      var a := Arrival(r, 0.0);
      assert rs == init + [r] && AtOnce(rs) == AtOnce(init) + [a];
      AtOnceBursts(lim, h, init);
      ArrivalAppend(lim, h, AtOnce(init), a);
      ReplyAppend(init, r);
      ReplyOnMemory(lim, AfterAll(lim, h, AtOnce(init)), r, 0.0);
      assert AtOnce(rs)[..|rs| - 1] == AtOnce(init);
    }
  }

  // Exactly when the bound by distinct values holds of an order of replies,
  // however they are timed: when no nack value comes back after another.
  lemma DistinctBoundIff<L(!new)>(lim: Limits, h: Host<L>, rs: seq<Reply>)
    requires lim.cooldown > 0.0 && h.lastNack.None? && rs != []
    ensures (forall arrivals :: Replies(arrivals) == rs && InTimeOrder(arrivals) ==>
             WithinDistinct(lim, h, arrivals)) <==>
            NoneComesBack(rs)
  {
    hide Groups, Values, LastNack, Bursts, AfterAll, InTimeOrder, NoneComesBack, Replies;
    GroupsAreValuesIff(rs);
    if NoneComesBack(rs) {
      forall arrivals | Replies(arrivals) == rs && InTimeOrder(arrivals) ensures WithinDistinct(lim, h, arrivals) {
        GroupBound(lim, h, arrivals);
      }
    } else {
      AtOnceBursts(lim, h, rs);
      assert !WithinDistinct(lim, h, AtOnce(rs));
    }
  }

  lemma {:induction false} NeverDecreasing(arrivals: seq<Arrival>)
    requires NacksNeverDecrease(arrivals)
    ensures forall i, j :: 0 <= i < j < |arrivals| && arrivals[i].reply.Nack? && arrivals[j].reply.Nack? ==>
              arrivals[i].reply.n <= arrivals[j].reply.n
  {
    hide NackValues;
    if arrivals != [] {
      var k := |arrivals| - 1;
      var init := arrivals[..k];
      NeverDecreasing(init);
      forall i, j | 0 <= i < j < |arrivals| && arrivals[i].reply.Nack? && arrivals[j].reply.Nack?
        ensures arrivals[i].reply.n <= arrivals[j].reply.n
      {
        if j == k { ArrivedValue(init, i); } else { assert init[i] == arrivals[i] && init[j] == arrivals[j]; }
      }
    }
  }

  lemma ArrivedValue(arrivals: seq<Arrival>, i: nat)
    requires i < |arrivals| && arrivals[i].reply.Nack?
    ensures arrivals[i].reply.n in NackValues(arrivals)
  {
    assert Replies(arrivals)[i] == arrivals[i].reply;
    assert arrivals[i].reply in Replies(arrivals);
  }

  // In particular when nacks never decrease: over a time T the host makes at most
  // (distinct nack values + T / cooldown) bursts.
  lemma StormBound<L(!new)>(lim: Limits, h: Host<L>, arrivals: seq<Arrival>)
    requires lim.cooldown > 0.0 && h.lastNack.None? && arrivals != []
    requires InTimeOrder(arrivals) && NacksNeverDecrease(arrivals)
    ensures WithinDistinct(lim, h, arrivals)
  {
    hide InTimeOrder, NacksNeverDecrease, Values, WithinDistinct;
    NeverDecreasing(arrivals);
    assert NoneComesBack(Replies(arrivals));
    DistinctBoundIff(lim, h, Replies(arrivals));
  }

  lemma PaidBound(bursts: nat, distinct: nat, t: real, c: real)
    requires c > 0.0 && t >= 0.0
    requires bursts == 0 || Periods(bursts, c) <= Periods(distinct, c) + t
    ensures bursts as real <= distinct as real + t / c
  {
    PeriodsIsProduct(bursts, c);
    PeriodsIsProduct(distinct, c);
    DivideOut(bursts as real, distinct as real, t, c);
  }

  lemma DivideOut(b: real, d: real, t: real, c: real)
    requires c > 0.0 && (b == 0.0 || b * c <= d * c + t) && d >= 0.0 && t >= 0.0
    ensures b <= d + t / c
  {
    var q := t / c;
    assert q * c == t;
    if b > d + q {
      assert (b - d - q) * c > 0.0;
    }
  }

  // Each burst is at most max_pending lines long.
  lemma BurstLength<L>(lim: Limits, h: Host<L>, n: nat, now: real)
    requires |h.pending| <= lim.maxPending
    ensures |ResendFrom(lim, h, n, now).1| <= lim.maxPending
  {
    BurstNoLonger(h.pending, n - 1);
  }

  // ---- where FIFO comes in -------------------------------------------------

  function ReplyLog<P>(r: Robot<P>, ps: seq<Packet<P>>): seq<Reply>
    decreases |ps|
  {
    if ps == [] then [] else Receive(r, ps[0]).1 + ReplyLog(Receive(r, ps[0]).0, ps[1..])
  }

  // Without a HELLO, and short of the counter's wrap, the robot's nacks never
  // decrease in the order it sends them.
  lemma {:induction false} RobotNacksNeverDecrease<P>(r: Robot<P>, ps: seq<Packet<P>>)
    requires forall k :: 0 <= k < |ps| ==> !ps[k].Hello?
    requires r.expected + |ps| < UINT32_RANGE
    ensures forall k :: 0 <= k < |ReplyLog(r, ps)| && ReplyLog(r, ps)[k].Nack? ==> r.expected <= ReplyLog(r, ps)[k].n
    ensures forall i, j :: 0 <= i < j < |ReplyLog(r, ps)| && ReplyLog(r, ps)[i].Nack? && ReplyLog(r, ps)[j].Nack? ==>
              ReplyLog(r, ps)[i].n <= ReplyLog(r, ps)[j].n
    decreases |ps|
  {
    if ps != [] {
      var (r', now) := Receive(r, ps[0]);
      forall k | 0 <= k < |ps| - 1 ensures !ps[1..][k].Hello? {
        assert ps[1..][k] == ps[k + 1];
      }
      RobotNacksNeverDecrease(r', ps[1..]);
    }
  }

  // A FIFO link may lose replies but delivers the rest in the order sent.
  ghost predicate DeliveredInOrder(arrivals: seq<Arrival>, log: seq<Reply>)
    decreases |arrivals|
  {
    arrivals == [] ||
    (var k := |arrivals| - 1;
     exists j :: 0 <= j < |log| && log[j] == arrivals[k].reply && DeliveredInOrder(arrivals[..k], log[..j]))
  }

  lemma {:induction false} DeliveredWereLogged(arrivals: seq<Arrival>, log: seq<Reply>)
    requires DeliveredInOrder(arrivals, log)
    ensures forall a :: a in arrivals ==> a.reply in log
    decreases |arrivals|
  {
    if arrivals != [] {
      var k := |arrivals| - 1;
      var j :| 0 <= j < |log| && log[j] == arrivals[k].reply && DeliveredInOrder(arrivals[..k], log[..j]);
      DeliveredWereLogged(arrivals[..k], log[..j]);
      forall a | a in arrivals ensures a.reply in log {
        assert a in arrivals[..k] || a == arrivals[k];
      }
    }
  }

  lemma ArrivalOf(arrivals: seq<Arrival>, n: nat) returns (a: Arrival)
    requires n in NackValues(arrivals)
    ensures a in arrivals && a.reply == Nack(n)
  {
    var r :| r in Replies(arrivals) && r.Nack? && r.n == n;
    var i :| 0 <= i < |arrivals| && Replies(arrivals)[i] == r;
    a := arrivals[i];
  }

  lemma {:induction false} FifoNacksNeverDecrease(arrivals: seq<Arrival>, log: seq<Reply>)
    requires DeliveredInOrder(arrivals, log)
    requires forall i, j :: 0 <= i < j < |log| && log[i].Nack? && log[j].Nack? ==> log[i].n <= log[j].n
    ensures NacksNeverDecrease(arrivals)
    decreases |arrivals|
  {
    if arrivals != [] {
      var k := |arrivals| - 1;
      var j :| 0 <= j < |log| && log[j] == arrivals[k].reply && DeliveredInOrder(arrivals[..k], log[..j]);
      FifoNacksNeverDecrease(arrivals[..k], log[..j]);
      DeliveredWereLogged(arrivals[..k], log[..j]);
      if arrivals[k].reply.Nack? {
        forall n | n in NackValues(arrivals[..k]) ensures n <= arrivals[k].reply.n {
          var b := ArrivalOf(arrivals[..k], n);
          var i :| 0 <= i < j && log[i] == b.reply;
        }
      }
    }
  }

  // The two together: the bound for any run of the robot over a FIFO link.
  lemma StormBoundOverFifo<L(!new), P>(lim: Limits, h: Host<L>, arrivals: seq<Arrival>, r: Robot<P>, ps: seq<Packet<P>>)
    requires lim.cooldown > 0.0 && h.lastNack.None? && arrivals != [] && InTimeOrder(arrivals)
    requires forall k :: 0 <= k < |ps| ==> !ps[k].Hello?
    requires r.expected + |ps| < UINT32_RANGE
    requires DeliveredInOrder(arrivals, ReplyLog(r, ps))
    ensures WithinDistinct(lim, h, arrivals)
  {
    hide WithinDistinct;
    RobotNacksNeverDecrease(r, ps);
    FifoNacksNeverDecrease(arrivals, ReplyLog(r, ps));
    StormBound(lim, h, arrivals);
  }

  // ---- a reordering that storms --------------------------------------------

  // Two nack values that alternate provoke a burst each time, however many
  // arrive and with no time passing at all.
  function Turn(k: nat): nat {
    if k % 2 == 0 then 2 else 1
  }

  function Alternating(k: nat): seq<Arrival> {
    if k == 0 then [] else Alternating(k - 1) + [Arrival(Nack(Turn(k)), 0.0)]
  }

  lemma {:induction false} AlternatingInOrder(k: nat)
    ensures InTimeOrder(Alternating(k)) && forall a :: a in Alternating(k) ==> a.at == 0.0
  {
    if k > 0 {
      AlternatingInOrder(k - 1);
      assert Alternating(k)[..|Alternating(k)| - 1] == Alternating(k - 1);
    }
  }

  lemma {:induction false} EveryTurnBursts<L>(lim: Limits, h: Host<L>, k: nat)
    requires h.lastNack.None?
    ensures Bursts(lim, h, Alternating(k)) == k
    ensures AfterAll(lim, h, Alternating(k)).lastNack == if k == 0 then None else Some(Turn(k))
  {
    hide AfterAll, Bursts, HandleReply;
    if k == 0 {
      NoArrivals(lim, h);
    } else {
      EveryTurnBursts(lim, h, k - 1);
      var a := Arrival(Nack(Turn(k)), 0.0);
      ArrivalAppend(lim, h, Alternating(k - 1), a);
      ReplyOnMemory(lim, AfterAll(lim, h, Alternating(k - 1)), a.reply, 0.0);
      assert Turn(k) != Turn(k - 1);
    }
  }

  function Repeat<T>(x: T, n: nat): (xs: seq<T>)
    ensures |xs| == n && forall i :: 0 <= i < n ==> xs[i] == x
  {
    seq(n, i => x)
  }

  // Line 1 is late: a copies of line 2 come first, then line 1, then b of line 3.
  function LateFirst<P>(p: P, a: nat, b: nat): seq<Packet<P>> {
    Repeat(Sequenced(2, p, true), a) + [Sequenced(1, p, true)] + Repeat(Sequenced(3, p, true), b)
  }

  lemma {:induction false} EarlyIsNacked<P>(r: Robot<P>, id: nat, p: P, n: nat)
    requires id > r.expected
    ensures ReplyLog(r, Repeat(Sequenced(id, p, true), n)) == Repeat(Nack(r.expected), n)
    ensures forall more ::
              ReplyLog(r, Repeat(Sequenced(id, p, true), n) + more) == Repeat(Nack(r.expected), n) + ReplyLog(r, more)
  {
    var ps := Repeat(Sequenced(id, p, true), n);
    if n > 0 {
      EarlyIsNacked(r, id, p, n - 1);
      assert ps[1..] == Repeat(Sequenced(id, p, true), n - 1);
      assert [Nack(r.expected)] + Repeat(Nack(r.expected), n - 1) == Repeat(Nack(r.expected), n);
      forall more ensures ReplyLog(r, ps + more) == Repeat(Nack(r.expected), n) + ReplyLog(r, more) {
        assert (ps + more)[1..] == ps[1..] + more && (ps + more)[0] == ps[0];
        assert [Nack(r.expected)] + (Repeat(Nack(r.expected), n - 1) + ReplyLog(r, more)) ==
               Repeat(Nack(r.expected), n) + ReplyLog(r, more);
      }
    } else {
      assert forall more :: ps + more == more;
    }
  }

  lemma LateFirstLog<P>(p: P, a: nat, b: nat)
    ensures ReplyLog(Robot(1, []), LateFirst(p, a, b)) == Repeat(Nack(1), a) + ([Ack(1)] + Repeat(Nack(2), b))
  {
    hide Repeat;
    var first, late: seq<Packet<P>> := [Sequenced(1, p, true)], Repeat(Sequenced(3, p, true), b);
    var atStart: Robot<P> := Robot(1, []);
    EarlyIsNacked(atStart, 2, p, a);
    assert LateFirst(p, a, b) == Repeat(Sequenced(2, p, true), a) + (first + late);
    assert (first + late)[1..] == late && [] + [(1, p)] == [(1, p)];
    EarlyIsNacked(Robot(2, [(1, p)]), 3, p, b);
  }

  ghost predicate Holds(rs: seq<Reply>, ones: nat, twos: nat) {
    multiset(rs) == multiset(Repeat(Nack(1), ones)) + multiset(Repeat(Nack(2), twos))
  }

  lemma {:induction false} TurnsAreRepeats(k: nat)
    ensures Holds(Replies(Alternating(k)), (k + 1) / 2, k / 2)
  {
    hide Replies, Holds;
    if k == 0 {
      assert Holds(Replies(Alternating(0)), 0, 0) by { NothingHeld(); }
    } else {
      TurnsAreRepeats(k - 1);
      RepliesAppend(Alternating(k - 1), Arrival(Nack(Turn(k)), 0.0));
      HoldsOneMore(Replies(Alternating(k - 1)), k / 2, (k - 1) / 2, Turn(k));
    }
  }

  lemma NothingHeld()
    ensures Holds(Replies(Alternating(0)), 0, 0)
  {
    assert Replies(Alternating(0)) == [] && Repeat(Nack(1), 0) == [] && Repeat(Nack(2), 0) == [];
  }

  lemma HoldsOneMore(rs: seq<Reply>, ones: nat, twos: nat, n: nat)
    requires Holds(rs, ones, twos)
    ensures n == 1 ==> Holds(rs + [Nack(n)], ones + 1, twos)
    ensures n == 2 ==> Holds(rs + [Nack(n)], ones, twos + 1)
  {
    hide Repeat;
    OneMore(Nack(1), ones);
    OneMore(Nack(2), twos);
    assert multiset(rs + [Nack(n)]) == multiset(rs) + multiset{Nack(n)};
  }

  lemma OneMore<T>(x: T, n: nat)
    ensures multiset(Repeat(x, n + 1)) == multiset(Repeat(x, n)) + multiset{x}
  {
    assert Repeat(x, n + 1) == Repeat(x, n) + [x];
  }

  // So the bound needs the order. For any k there are packets to which the robot
  // answers with two nack values and an ack, and a reordering of exactly those
  // answers that provokes k bursts in no time at all.
  lemma ReorderedNacksStorm<L, P>(lim: Limits, h: Host<L>, p: P, k: nat)
    requires h.lastNack.None?
    ensures var log := ReplyLog(Robot(1, []), LateFirst(p, (k + 1) / 2, k / 2));
            var arrivals := Alternating(k) + [Arrival(Ack(1), 0.0)];
            && multiset(Replies(arrivals)) == multiset(log)
            && InTimeOrder(arrivals) && (forall a :: a in arrivals ==> a.at == 0.0)
            && NackValues(arrivals) <= {1, 2}
            && Bursts(lim, h, arrivals) == k
  {
    hide Repeat, LateFirst, ReplyLog, Bursts, AfterAll, Values, Replies, Holds;
    var a, b := (k + 1) / 2, k / 2;
    var ack := Arrival(Ack(1), 0.0);
    var arrivals := Alternating(k) + [ack];
    AlternatingInOrder(k);
    EveryTurnBursts(lim, h, k);
    ArrivalAppend(lim, h, Alternating(k), ack);
    assert arrivals[..|arrivals| - 1] == Alternating(k);
    RepliesAppend(Alternating(k), ack);
    ReplyAppend(Replies(Alternating(k)), Ack(1));
    TurnsAreRepeats(k);
    TurnsValues(k);
    LateFirstLog(p, a, b);
    SameBag(Replies(Alternating(k)), a, b);
  }

  lemma SameBag(rs: seq<Reply>, ones: nat, twos: nat)
    requires Holds(rs, ones, twos)
    ensures multiset(rs + [Ack(1)]) == multiset(Repeat(Nack(1), ones) + ([Ack(1)] + Repeat(Nack(2), twos)))
  {
    hide Repeat;
  }

  lemma {:induction false} TurnsValues(k: nat)
    ensures NackValues(Alternating(k)) <= {1, 2}
  {
    hide Values, Replies;
    if k == 0 {
      NoReplies();
      assert Replies([]) == [];
    } else {
      TurnsValues(k - 1);
      RepliesAppend(Alternating(k - 1), Arrival(Nack(Turn(k)), 0.0));
      ReplyAppend(Replies(Alternating(k - 1)), Nack(Turn(k)));
    }
  }
}
