// The two lock-free exchanges between the kernel fiber and its callers
// (src/diffdrive/differential_drive.cpp), one field access at a time: the
// published output block with its odd/even counter, and the command mailbox
// with its single increment. A block is a sequence of field values; the writer stores
// them, and the reader loads them, in any order, each as often as it likes.
module Seqlock {
  const RANGE: nat := 0x1_0000_0000 // counters are uint32

  datatype Writer<V> = Resting | Storing(block: seq<V>, done: set<nat>)

  datatype Reader<V> = Away | Copying(start: nat, copy: map<nat, V>) | Returned(value: seq<V>)

  // `count` is the true number of increments; the counter the code compares is
  // count % RANGE. `committed` is the last block whose publication finished.
  datatype Shared<V> = Shared(
    count: nat,
    mem: seq<V>,
    committed: seq<V>,
    writer: Writer<V>,
    reader: Reader<V>)

  datatype Access<V> =
    | Begin(block: seq<V>) // ++outSeq_ to odd
    | Store(i: nat)        // one field
    | Commit               // ++outSeq_ to even
    | Start                // s1 = outSeq_
    | Load(i: nat)         // one field
    | Check                // s2 = outSeq_, and the loop condition

  // Every field of the block, whichever order they came in.
  predicate Every(n: nat, done: set<nat>) { forall i :: 0 <= i < n ==> i in done }

  function Whole<V>(n: nat, copy: map<nat, V>): (value: seq<V>)
    requires Every(n, copy.Keys)
    ensures |value| == n && forall i :: 0 <= i < n ==> value[i] == copy[i]
  {
    seq(n, i requires 0 <= i < n && Every(n, copy.Keys) => copy[i])
  }

  ghost function Step<V>(s: Shared<V>, a: Access<V>): Shared<V> {
    match a
    case Begin(block) =>
      if s.writer.Resting? && |block| == |s.mem|
      then s.(count := s.count + 1, writer := Storing(block, {})) else s
    case Store(i) =>
      if s.writer.Storing? && i < |s.mem| && i < |s.writer.block|
      then s.(mem := s.mem[i := s.writer.block[i]],
              writer := s.writer.(done := s.writer.done + {i})) else s
    case Commit =>
      if s.writer.Storing? && Every(|s.mem|, s.writer.done)
      then s.(count := s.count + 1, committed := s.writer.block, writer := Resting) else s
    case Start => s.(reader := Copying(s.count, map[]))
    case Load(i) =>
      if s.reader.Copying? && i < |s.mem|
      then s.(reader := s.reader.(copy := s.reader.copy[i := s.mem[i]])) else s
    case Check =>
      if s.reader.Copying? && Every(|s.mem|, s.reader.copy.Keys)
      then
        if s.reader.start % RANGE == s.count % RANGE && s.reader.start % RANGE % 2 == 0
        then s.(reader := Returned(Whole(|s.mem|, s.reader.copy)))
        else s.(reader := Away)
      else s
  }

  ghost function Run<V>(s: Shared<V>, accesses: seq<Access<V>>): Shared<V>
    decreases |accesses|
  {
    if accesses == [] then s else Run(Step(s, accesses[0]), accesses[1..])
  }

  ghost predicate Quiet<V>(s: Shared<V>) {
    s.writer.Resting? && s.count % 2 == 0 && s.mem == s.committed
  }

  // At every check of the run, fewer than 2^31 blocks went by since the start
  // of the attempt.
  ghost predicate Timely<V>(s: Shared<V>, accesses: seq<Access<V>>)
    decreases |accesses|
  {
    accesses == [] ||
    ((accesses[0].Check? && s.reader.Copying? ==> s.count < s.reader.start + RANGE) &&
     Timely(Step(s, accesses[0]), accesses[1..]))
  }

  ghost predicate Inv<V>(s: Shared<V>) {
    && |s.committed| == |s.mem|
    && (s.writer.Resting? <==> s.count % 2 == 0)
    && (s.writer.Resting? ==> s.mem == s.committed)
    && (s.writer.Storing? ==>
          && |s.writer.block| == |s.mem|
          && forall i :: 0 <= i < |s.mem| && i in s.writer.done ==> s.mem[i] == s.writer.block[i])
    && (s.reader.Copying? ==>
          && s.reader.start <= s.count
          && (s.reader.start == s.count && s.writer.Resting? ==> Copies(s.reader.copy, s.mem)))
  }

  ghost predicate Copies<V>(copy: map<nat, V>, mem: seq<V>) {
    forall i :: 0 <= i < |mem| && i in copy ==> copy[i] == mem[i]
  }

  lemma StepKeeps<V>(s: Shared<V>, a: Access<V>)
    requires Inv(s)
    ensures Inv(Step(s, a))
  {
    match a
    case Commit =>
      if s.writer.Storing? && Every(|s.mem|, s.writer.done) {
        assert forall i :: 0 <= i < |s.mem| ==> s.mem[i] == s.writer.block[i];
      }
    case _ =>
  }

  lemma SameCounter(start: nat, count: nat)
    requires start <= count < start + RANGE && start % RANGE == count % RANGE
    ensures start == count
  {
  }

  lemma CounterParity(n: nat)
    ensures n % RANGE % 2 == n % 2
  {
    assert n == RANGE * (n / RANGE) + n % RANGE;
  }

  lemma CheckIsConsistent<V>(s: Shared<V>)
    requires Inv(s) && s.reader.Copying? && s.count < s.reader.start + RANGE
    ensures var r := Step(s, Check).reader; r.Returned? ==> r.value == s.committed
  {
    var t := Step(s, Check);
    if t.reader.Returned? {
      SameCounter(s.reader.start, s.count);
      CounterParity(s.count);
      assert t.reader.value == s.mem;
    }
  }

  // An attempt that has copied every field ends the loop if and only if no block was
  // begun or finished during it and none is under way.
  lemma CheckReturnsIff<V>(s: Shared<V>)
    requires Inv(s) && s.reader.Copying? && Every(|s.mem|, s.reader.copy.Keys) && s.count < s.reader.start + RANGE
    ensures Step(s, Check).reader.Returned? <==> s.writer.Resting? && s.count == s.reader.start
  {
    CounterParity(s.count);
    if s.reader.start % RANGE == s.count % RANGE { SameCounter(s.reader.start, s.count); }
  }

  // Whatever the interleaving, the copy output() returns is one whole
  // committed block: the one committed last when the loop ended.
  lemma {:induction false} ReaderSeesWholeBlock<V>(s: Shared<V>, accesses: seq<Access<V>>)
    requires Inv(s) && Timely(s, accesses + [Check])
    requires Run(s, accesses).reader.Copying?
    ensures var r := Run(s, accesses + [Check]).reader;
            r.Returned? ==> r.value == Run(s, accesses).committed
    decreases |accesses|
  {
    if accesses == [] {
      assert accesses + [Check] == [Check];
      assert Run(Step(s, Check), []) == Step(s, Check);
      assert Run(s, [Check]) == Step(s, Check);
      CheckIsConsistent(s);
    } else {
      assert (accesses + [Check])[1..] == accesses[1..] + [Check];
      StepKeeps(s, accesses[0]);
      ReaderSeesWholeBlock(Step(s, accesses[0]), accesses[1..]);
    }
  }

  // ---- the 2^31 bound is tight ---------------------------------------------

  lemma RunAppend<V>(s: Shared<V>, a: seq<Access<V>>, b: seq<Access<V>>)
    ensures Run(s, a + b) == Run(Run(s, a), b)
    decreases |a|
  {
    if a == [] {
      assert a + b == b;
    } else {
      assert (a + b)[1..] == a[1..] + b;
      RunAppend(Step(s, a[0]), a[1..], b);
    }
  }

  ghost function Publish<V>(block: seq<V>): seq<Access<V>> {
    [Begin(block), Store(0), Store(1), Commit]
  }

  lemma PublishCommits<V>(s: Shared<V>, block: seq<V>)
    requires Quiet(s) && |s.mem| == |block| == 2
    ensures Run(s, Publish(block)) == s.(count := s.count + 2, mem := block, committed := block)
  {
    var p: seq<Access<V>> := Publish(block);
    var s1 := Step(s, Begin(block));
    var s2 := Step(s1, Store(0));
    var s3 := Step(s2, Store(1));
    assert s3.mem == block;
    assert p[1..] == [Store(0), Store(1), Commit] && p[1..][1..] == [Store(1), Commit] && p[1..][1..][1..] == [Commit];
    assert Run(s3, [Commit]) == Step(s3, Commit);
    assert Run(s2, [Store(1), Commit]) == Run(s3, [Commit]);
    assert Run(s1, [Store(0), Store(1), Commit]) == Run(s2, [Store(1), Commit]);
  }

  ghost function PublishTimes<V>(n: nat, block: seq<V>): seq<Access<V>> {
    if n == 0 then [] else Publish(block) + PublishTimes(n - 1, block)
  }

  lemma {:induction false} PublishTimesCommits<V>(s: Shared<V>, n: nat, block: seq<V>)
    requires Quiet(s) && |s.mem| == |block| == 2 && n > 0
    ensures Run(s, PublishTimes(n, block)) == s.(count := s.count + 2 * n, mem := block, committed := block)
    decreases n
  {
    PublishCommits(s, block);
    RunAppend(s, Publish(block), PublishTimes(n - 1, block));
    var t := s.(count := s.count + 2, mem := block, committed := block);
    if n > 1 {
      PublishTimesCommits(t, n - 1, block);
    } else {
      assert PublishTimes(0, block) == [];
    }
  }

  lemma RunTwo<V>(s: Shared<V>, a: Access<V>, b: Access<V>)
    ensures Run(s, [a, b]) == Step(Step(s, a), b)
  {
    assert [a, b][1..] == [b] && [b][1..] == [];
    assert Run(Step(s, a), [b]) == Step(Step(s, a), b);
  }

  // Exactly 2^31 publications between two loads bring the counter back to its
  // first value, and the loop accepts half of one block and half of another.
  lemma WrappedCounterTears<V>(s: Shared<V>, a: V, b: V, c: V, d: V)
    requires Quiet(s) && s.mem == [a, b]
    ensures Run(s, [Start, Load(0)] + PublishTimes(RANGE / 2, [c, d]) + [Load(1), Check]).reader == Returned([a, d])
  {
    hide Step, Run, PublishTimes, Whole, Every;
    var opening: seq<Access<V>> := [Start, Load(0)];
    var middle: seq<Access<V>> := PublishTimes(RANGE / 2, [c, d]);
    var closing: seq<Access<V>> := [Load(1), Check];
    RunAppend(s, opening + middle, closing);
    RunAppend(s, opening, middle);
    Opened(s);
    var s2 := Run(s, opening);
    PublishTimesCommits(s2, RANGE / 2, [c, d]);
    Closed(Run(s2, middle), a);
  }

  lemma Opened<V>(s: Shared<V>)
    requires |s.mem| > 0
    ensures Run(s, [Start, Load(0)]) == s.(reader := Copying(s.count, map[0 := s.mem[0]]))
  {
    hide Run;
    RunTwo(s, Start, Load(0));
  }

  lemma Closed<V>(s: Shared<V>, a: V)
    requires |s.mem| == 2 && s.count >= RANGE && s.reader == Copying(s.count - RANGE, map[0 := a]) && s.count % 2 == 0
    ensures Run(s, [Load(1), Check]).reader == Returned([a, s.mem[1]])
  {
    hide Run;
    RunTwo(s, Load(1), Check);
    CounterParity(s.count);
    var t := Step(s, Load(1));
    assert Whole(2, t.reader.copy) == [a, s.mem[1]];
  }

  // ---- the command mailbox: one increment, after the fields ----------------

  // Beside the code's own fields, what the theorem speaks of: the block as of the
  // last increment, the fields stored since, and those whose latest load in the
  // attempt under way came after such a store.
  datatype Mail<V> = Mail(count: nat, mem: seq<V>, reader: Reader<V>, posted: seq<V>, stored: set<nat>, dirty: set<nat>)

  datatype MailAccess<V> =
    | Put(block: seq<V>)          // all fields and ++cmdSeq_, unseen halfway
    | PutField(i: nat, value: V)  // one field of a copy in progress
    | Bump                        // ++cmdSeq_ after such a copy
    | MailStart
    | MailLoad(i: nat)
    | MailCheck

  ghost function MailStep<V>(s: Mail<V>, a: MailAccess<V>): Mail<V> {
    match a
    case Put(block) =>
      if |block| == |s.mem| then s.(count := s.count + 1, mem := block, posted := block, stored := {}) else s
    case PutField(i, value) =>
      if i < |s.mem| then s.(mem := s.mem[i := value], stored := s.stored + {i}) else s
    case Bump => s.(count := s.count + 1, posted := s.mem, stored := {})
    case MailStart => s.(reader := Copying(s.count, map[]), dirty := {})
    case MailLoad(i) =>
      if s.reader.Copying? && i < |s.mem|
      then s.(reader := s.reader.(copy := s.reader.copy[i := s.mem[i]]),
              dirty := if i in s.stored then s.dirty + {i} else s.dirty - {i}) else s
    case MailCheck =>
      if s.reader.Copying? && Every(|s.mem|, s.reader.copy.Keys)
      then
        if s.reader.start % RANGE == s.count % RANGE
        then s.(reader := Returned(Whole(|s.mem|, s.reader.copy)))
        else s.(reader := Away)
      else s
  }

  ghost function MailRun<V>(s: Mail<V>, accesses: seq<MailAccess<V>>): Mail<V>
    decreases |accesses|
  {
    if accesses == [] then s else MailRun(MailStep(s, accesses[0]), accesses[1..])
  }

  ghost predicate MailInv<V>(s: Mail<V>) {
    && |s.posted| == |s.mem|
    && (forall i :: 0 <= i < |s.mem| && i !in s.stored ==> s.mem[i] == s.posted[i])
    && (s.reader.Copying? ==>
          && s.reader.start <= s.count
          && (s.reader.start == s.count ==> CleanLoads(s.reader.copy, s.posted, s.dirty)))
  }

  // What was loaded before any store is as posted.
  ghost predicate CleanLoads<V>(copy: map<nat, V>, posted: seq<V>, dirty: set<nat>) {
    forall i :: 0 <= i < |posted| && i in copy && i !in dirty ==> copy[i] == posted[i]
  }

  // Every store so far has left its field other than it was posted, and what was
  // loaded after one shows it.
  ghost predicate Telling<V>(s: Mail<V>) {
    && (forall i :: 0 <= i < |s.mem| && i < |s.posted| && i in s.stored ==> s.mem[i] != s.posted[i])
    && (s.reader.Copying? && s.reader.start == s.count ==> DirtyLoads(s.reader.copy, s.posted, s.dirty))
  }

  ghost predicate DirtyLoads<V>(copy: map<nat, V>, posted: seq<V>, dirty: set<nat>) {
    forall i :: i in dirty ==> i < |posted| && i in copy && copy[i] != posted[i]
  }

  // Every field store of the run changes the field from what was posted.
  ghost predicate Changing<V>(s: Mail<V>, accesses: seq<MailAccess<V>>)
    decreases |accesses|
  {
    accesses == [] ||
    ((accesses[0].PutField? && accesses[0].i < |s.posted| ==> accesses[0].value != s.posted[accesses[0].i]) &&
     Changing(MailStep(s, accesses[0]), accesses[1..]))
  }

  lemma {:induction false} MailRunKeeps<V>(s: Mail<V>, accesses: seq<MailAccess<V>>)
    requires MailInv(s)
    ensures MailInv(MailRun(s, accesses))
    decreases |accesses|
  {
    if accesses != [] { MailRunKeeps(MailStep(s, accesses[0]), accesses[1..]); }
  }

  lemma {:induction false} MailRunTells<V>(s: Mail<V>, accesses: seq<MailAccess<V>>)
    requires MailInv(s) && Telling(s) && Changing(s, accesses)
    ensures Telling(MailRun(s, accesses))
    decreases |accesses|
  {
    hide Whole, Every;
    if accesses != [] { MailRunTells(MailStep(s, accesses[0]), accesses[1..]); }
  }

  // The reader accepts its copy, before the counter has come round.
  ghost predicate Accepts<V>(s: Mail<V>) {
    && s.reader.Copying? && s.count < s.reader.start + RANGE
    && MailStep(s, MailCheck).reader.Returned?
  }

  // Whatever the interleaving, an accepted copy is the command last posted if no
  // field was loaded after a store to it since the last increment ...
  lemma UnstoredIsWhole<V>(s: Mail<V>, accesses: seq<MailAccess<V>>)
    requires MailInv(s)
    ensures var t := MailRun(s, accesses);
            Accepts(t) && t.dirty == {} ==> MailStep(t, MailCheck).reader.value == t.posted
  {
    hide MailRun;
    MailRunKeeps(s, accesses);
    var t := MailRun(s, accesses);
    if Accepts(t) && t.dirty == {} { SameCounter(t.reader.start, t.count); }
  }

  // ... and only if, where each store changes its field: exactly then.
  lemma MailboxIsWholeIff<V>(s: Mail<V>, accesses: seq<MailAccess<V>>)
    requires MailInv(s) && Telling(s) && Changing(s, accesses)
    ensures var t := MailRun(s, accesses);
            Accepts(t) ==> (MailStep(t, MailCheck).reader.value == t.posted <==> t.dirty == {})
  {
    hide MailRun;
    UnstoredIsWhole(s, accesses);
    MailRunKeeps(s, accesses);
    MailRunTells(s, accesses);
    var t := MailRun(s, accesses);
    if Accepts(t) && t.dirty != {} {
      SameCounter(t.reader.start, t.count);
      var i :| i in t.dirty;
      assert MailStep(t, MailCheck).reader.value[i] != t.posted[i];
    }
  }

  ghost predicate AtomicWriter<V>(accesses: seq<MailAccess<V>>) {
    forall i :: 0 <= i < |accesses| ==> !accesses[i].PutField? && !accesses[i].Bump?
  }

  lemma {:induction false} AtomicStoresNothing<V>(s: Mail<V>, accesses: seq<MailAccess<V>>)
    requires MailInv(s) && s.stored == {} && s.dirty == {} && AtomicWriter(accesses)
    ensures var t := MailRun(s, accesses); t.stored == {} && t.dirty == {} && MailInv(t)
    decreases |accesses|
  {
    hide Whole, Every;
    if accesses != [] {
      forall i | 0 <= i < |accesses| - 1 ensures !accesses[1..][i].PutField? && !accesses[1..][i].Bump? {
        assert accesses[1..][i] == accesses[i + 1];
      }
      AtomicStoresNothing(MailStep(s, accesses[0]), accesses[1..]);
    }
  }

  // So if the writer's copy and increment look like one step to the reader, an
  // accepted copy is the whole command in the mailbox.
  lemma AtomicMailboxIsWhole<V>(s: Mail<V>, accesses: seq<MailAccess<V>>)
    requires MailInv(s) && s.stored == {} && s.dirty == {} && AtomicWriter(accesses)
    ensures var t := MailRun(s, accesses);
            Accepts(t) ==> MailStep(t, MailCheck).reader.value == t.posted == t.mem
  {
    hide MailRun, Accepts;
    AtomicStoresNothing(s, accesses);
    UnstoredIsWhole(s, accesses);
    var t := MailRun(s, accesses);
    assert t.posted == t.mem;
  }

  lemma MailFirst<V>(s: Mail<V>, a: MailAccess<V>, rest: seq<MailAccess<V>>)
    ensures MailRun(s, [a] + rest) == MailRun(MailStep(s, a), rest)
  {
    assert ([a] + rest)[1..] == rest;
  }

  // If they do not, the single increment cannot tell: a reader inside the copy
  // returns a command that was never written.
  lemma SplitMailboxTears<V>(s: Mail<V>, a: V, b: V, c: V, d: V)
    requires s.mem == [a, b]
    ensures var t := MailRun(s, [PutField(0, c), MailStart, MailLoad(0), MailLoad(1), MailCheck, PutField(1, d), Bump]);
            t.reader == Returned([c, b]) && t.posted == t.mem == [c, d]
  {
    hide MailRun, Whole;
    var closing: seq<MailAccess<V>> := [PutField(1, d), Bump];
    var reading: seq<MailAccess<V>> := [MailLoad(0), MailLoad(1), MailCheck] + closing;
    MailFirst(s, PutField(0, c), [MailStart] + reading);
    var s1 := MailStep(s, PutField(0, c));
    MailFirst(s1, MailStart, reading);
    var s2 := MailReads(MailStep(s1, MailStart), c, b, closing);
    assert [PutField(0, c)] + ([MailStart] + reading) ==
           [PutField(0, c), MailStart, MailLoad(0), MailLoad(1), MailCheck, PutField(1, d), Bump];
    MailFirst(s2, PutField(1, d), [Bump]);
    MailFirst(MailStep(s2, PutField(1, d)), Bump, []);
    var bump: seq<MailAccess<V>> := [Bump];
    assert bump + [] == bump && [PutField(1, d)] + bump == closing;
    MailEnds(MailStep(MailStep(s2, PutField(1, d)), Bump));
  }

  lemma MailEnds<V>(s: Mail<V>)
    ensures MailRun(s, []) == s
  {
  }

  lemma MailReads<V>(s: Mail<V>, x: V, y: V, rest: seq<MailAccess<V>>) returns (t: Mail<V>)
    requires s.mem == [x, y] && s.reader == Copying(s.count, map[])
    ensures t.mem == s.mem && t.reader == Returned([x, y])
    ensures MailRun(s, [MailLoad(0), MailLoad(1), MailCheck] + rest) == MailRun(t, rest)
  {
    hide MailRun;
    var s1 := MailStep(s, MailLoad(0));
    var s2 := MailStep(s1, MailLoad(1));
    t := MailStep(s2, MailCheck);
    assert Whole(2, s2.reader.copy) == [x, y];
    MailFirst(s, MailLoad(0), [MailLoad(1), MailCheck] + rest);
    MailFirst(s1, MailLoad(1), [MailCheck] + rest);
    MailFirst(s2, MailCheck, rest);
    assert [MailLoad(0)] + ([MailLoad(1), MailCheck] + rest) == [MailLoad(0), MailLoad(1), MailCheck] + rest;
    assert [MailLoad(1)] + ([MailCheck] + rest) == [MailLoad(1), MailCheck] + rest;
  }
}
