// DiffDriveAdapter (src/adapter/diffdrive_adapter.cpp): the seam between the
// wire's verbs and the wheel kernel.
module Adapter {
  import opened Options
  import opened Law
  import opened KernelCycle
  import opened Drive

  datatype Result = Accepted | Unknown | BadArg | OutOfRange | Full | Unimplemented | NotReady | Busy

  function ResultCode(r: Result): nat {
    match r
    case Accepted => 0
    case Unknown => 1
    case BadArg => 2
    case OutOfRange => 3
    case Full => 4
    case Unimplemented => 6
    case NotReady => 8
    case Busy => 10
  }

  function StatusToResult(s: Status): Result {
    match s
    case Ok => Accepted
    case RefusedUnconfigured => NotReady
    case RefusedNotBegun => NotReady
    case RefusedEstopped => NotReady
    case CadencePreserved => Accepted
  }

  const WHEELS_DURATION_CEILING: uint32 := 5000

  function WheelsVSpec(f: Front, countsPerLength: real, nowUs: nat, left: real, right: real, duration: uint32)
    : (Front, Result)
  {
    if duration > WHEELS_DURATION_CEILING then (f, OutOfRange)
    else
      var countsLeft, countsRight := left * countsPerLength, right * countsPerLength;
      var (f', status) :=
        DriveSpec(f, nowUs, (countsLeft + countsRight) * 0.5, (countsRight - countsLeft) * 0.5, duration);
      (f', StatusToResult(status))
  }

  // The kernel's bring-up values, hard-coded in the adapter.
  function ArmedSpec(f: Front): Front {
    var f := StageConfig(f, f.staged.(maxDuty := 100.0));
    var f := StageConfig(f, f.staged.(fullDutyVelocity := 1000.0));
    SetCyclePeriodSpec(f, 24)
  }

  // ---- the wire-reachable configuration fields --------------------------------

  datatype Field =
    | VMin | BiasMax | TauAdapt | ASteady | DeficitThreshold | DeficitWindow
    | PidKp | PidKi | PidIMax | PidKaff | PidMax | PosErrMax
    | StallSpeed | StallDemand | StallWindow

  function FieldName(f: Field): string {
    match f
    case VMin => "wheel_control.v_min"
    case BiasMax => "wheel_control.bias_max"
    case TauAdapt => "wheel_control.tau_adapt"
    case ASteady => "wheel_control.a_steady"
    case DeficitThreshold => "wheel_control.deficit_threshold"
    case DeficitWindow => "wheel_control.deficit_window"
    case PidKp => "wheel_control.pid_kp"
    case PidKi => "wheel_control.pid_ki"
    case PidIMax => "wheel_control.pid_i_max"
    case PidKaff => "wheel_control.pid_kaff"
    case PidMax => "wheel_control.pid_max"
    case PosErrMax => "wheel_control.pos_err_max"
    case StallSpeed => "wheel_control.stall_speed"
    case StallDemand => "wheel_control.stall_demand"
    case StallWindow => "wheel_control.stall_window"
  }

  const FIELDS: seq<Field> := [VMin, BiasMax, TauAdapt, ASteady, DeficitThreshold, DeficitWindow,
                               PidKp, PidKi, PidIMax, PidKaff, PidMax, PosErrMax,
                               StallSpeed, StallDemand, StallWindow]

  function FindFrom(i: nat, name: string): Option<Field>
    requires i <= |FIELDS|
    decreases |FIELDS| - i
  {
    if i == |FIELDS| then None
    else if FieldName(FIELDS[i]) == name then Some(FIELDS[i])
    else FindFrom(i + 1, name)
  }

  function Read(c: Config, f: Field): real {
    match f
    case VMin => c.vMin
    case BiasMax => c.biasMax
    case TauAdapt => c.tauAdapt
    case ASteady => c.aSteady
    case DeficitThreshold => c.deficitThreshold
    case DeficitWindow => c.deficitWindow
    case PidKp => c.kp
    case PidKi => c.ki
    case PidIMax => c.iMax
    case PidKaff => c.kaff
    case PidMax => c.pidMax
    case PosErrMax => c.posErrMax
    case StallSpeed => c.stallSpeed
    case StallDemand => c.stallDemand
    case StallWindow => c.stallWindow
  }

  function Put(c: Config, f: Field, v: real): Config {
    match f
    case VMin => c.(vMin := v)
    case BiasMax => c.(biasMax := v)
    case TauAdapt => c.(tauAdapt := v)
    case ASteady => c.(aSteady := v)
    case DeficitThreshold => c.(deficitThreshold := v)
    case DeficitWindow => c.(deficitWindow := v)
    case PidKp => c.(kp := v)
    case PidKi => c.(ki := v)
    case PidIMax => c.(iMax := v)
    case PidKaff => c.(kaff := v)
    case PidMax => c.(pidMax := v)
    case PosErrMax => c.(posErrMax := v)
    case StallSpeed => c.(stallSpeed := v)
    case StallDemand => c.(stallDemand := v)
    case StallWindow => c.(stallWindow := v)
  }

  function SetSpec(f: Front, name: string, value: real): (Front, Result) {
    match FindFrom(0, name)
    case None => (f, Unknown)
    case Some(field) =>
      var (f', status) := SetConfigSpec(f, Put(f.staged, field, value));
      (f', StatusToResult(status))
  }

  // ---- the other operations -----------------------------------------------------

  datatype TlmMode = Off | Pose | FullRate | Now | Auto | Buffer | Hdr

  // A telemetry column: its name, its value, and whether it is printed in hex.
  datatype Column = Column(name: string, value: int, hex: bool)

  // lround: to nearest, ties away from zero.
  function Round(v: real): int {
    if v < 0.0 then -((-v + 0.5).Floor) else (v + 0.5).Floor
  }

  function Flags(o: Output): nat {
    (if o.ready then 1 else 0) + (if o.estopped then 2 else 0) + (if o.leaseExpired then 4 else 0) +
    (if o.stallHalted then 8 else 0) + (if o.connectedLeft then 16 else 0) + (if o.connectedRight then 32 else 0) +
    (if o.wedgeLeft then 64 else 0) + (if o.wedgeRight then 128 else 0)
  }

  // static_cast<int32_t>: the 32-bit value with the same low bits.
  function Int32(n: int): int { Signed32(n % RANGE) }

  function RoundToInt32(v: real): int { Int32(Round(v)) }

  function Columns(o: Output, countsPerLength: real, seqNo: nat, full: bool): seq<Column>
    requires countsPerLength > 0.0
  {
    [Column("seq", Int32(seqNo), false), Column("now", Int32(o.now), false), Column("flags", Int32(Flags(o)), true),
     Column("posl", RoundToInt32(o.positionLeft / countsPerLength), false),
     Column("posr", RoundToInt32(o.positionRight / countsPerLength), false),
     Column("vell", RoundToInt32(o.velocityLeft / countsPerLength * 10.0), false),
     Column("velr", RoundToInt32(o.velocityRight / countsPerLength * 10.0), false)] +
    (if full then
      [Column("lambda", RoundToInt32(o.lambda * 1000.0), false), Column("biasl", RoundToInt32(o.biasLeft), false),
       Column("biasr", RoundToInt32(o.biasRight), false), Column("cyc", Int32(o.cycleCount), false)]
     else [])
  }

  // ---- what a snapshot's columns mean ---------------------------------------------

  function Bit(n: nat, k: nat): bool {
    if k == 0 then n % 2 == 1 else Bit(n / 2, k - 1)
  }

  // What the eight flags say, lowest bit first.
  function Conditions(o: Output): (c: seq<bool>)
    ensures |c| == 8
  {
    [o.ready, o.estopped, o.leaseExpired, o.stallHalted, o.connectedLeft, o.connectedRight, o.wedgeLeft, o.wedgeRight]
  }

  // A named decimal column within half a unit of a quantity that fits 32 bits.
  ghost predicate Shows(c: Column, name: string, quantity: real) {
    && c.name == name && !c.hex
    && (-2147483648.5 < quantity < 2147483647.5 ==> -0.5 <= c.value as real - quantity <= 0.5)
  }

  // A named decimal column with the bits of a 32-bit counter.
  ghost predicate Counts(c: Column, name: string, counter: uint32) {
    c.name == name && !c.hex && c.value % RANGE == counter
  }

  ghost predicate ShowsFlags(c: Column, o: Output) {
    c.name == "flags" && c.hex && 0 <= c.value < 256 && forall k: nat :: k < 8 ==> Bit(c.value, k) == Conditions(o)[k]
  }

  // Every column of a snapshot under its own name, each wheel's as its own, in
  // the wire's units.
  ghost predicate Truthful(cs: seq<Column>, o: Output, countsPerLength: real, seqNo: nat, full: bool)
    requires countsPerLength > 0.0
  {
    && |cs| == (if full then 11 else 7)
    && cs[0] == Column("seq", seqNo, false)
    && Counts(cs[1], "now", o.now)
    && ShowsFlags(cs[2], o)
    && Shows(cs[3], "posl", o.positionLeft / countsPerLength)
    && Shows(cs[4], "posr", o.positionRight / countsPerLength)
    && Shows(cs[5], "vell", o.velocityLeft / countsPerLength * 10.0)
    && Shows(cs[6], "velr", o.velocityRight / countsPerLength * 10.0)
    && (full ==>
          && Shows(cs[7], "lambda", o.lambda * 1000.0)
          && Shows(cs[8], "biasl", o.biasLeft) && Shows(cs[9], "biasr", o.biasRight)
          && Counts(cs[10], "cyc", o.cycleCount))
  }

  function WeighFrom(bits: seq<bool>, i: nat): nat
    decreases |bits| - i
  {
    if i >= |bits| then 0 else (if bits[i] then 1 else 0) + 2 * WeighFrom(bits, i + 1)
  }

  lemma {:induction false} WeighsItsBits(bits: seq<bool>, i: nat, k: nat)
    requires i + k < |bits|
    ensures Bit(WeighFrom(bits, i), k) == bits[i + k]
    decreases k
  {
    HalvesTo(bits[i], WeighFrom(bits, i + 1));
    if k > 0 { WeighsItsBits(bits, i + 1, k - 1); }
  }

  lemma HalvesTo(low: bool, n: nat)
    ensures var m := (if low then 1 else 0) + 2 * n; m / 2 == n && (m % 2 == 1 <==> low)
  {
  }

  function One(b: bool): nat { if b then 1 else 0 }

  lemma TwoWeigh(c: seq<bool>, i: nat)
    requires i + 2 <= |c|
    ensures WeighFrom(c, i) == One(c[i]) + 2 * One(c[i + 1]) + 4 * WeighFrom(c, i + 2)
  {
    assert WeighFrom(c, i + 1) == One(c[i + 1]) + 2 * WeighFrom(c, i + 2);
  }

  lemma EightWeigh(c: seq<bool>)
    requires |c| == 8
    ensures WeighFrom(c, 0) == One(c[0]) + 2 * One(c[1]) + 4 * One(c[2]) + 8 * One(c[3]) +
                               16 * One(c[4]) + 32 * One(c[5]) + 64 * One(c[6]) + 128 * One(c[7])
  {
    assert WeighFrom(c, 8) == 0;
    TwoWeigh(c, 6);
    TwoWeigh(c, 4);
    TwoWeigh(c, 2);
    TwoWeigh(c, 0);
  }

  // The published flags are eight independent bits, each its own condition.
  lemma FlagsAreBits(o: Output, k: nat)
    requires k < 8
    ensures Bit(Flags(o), k) == Conditions(o)[k]
  {
    hide Bit, WeighFrom;
    EightWeigh(Conditions(o));
    WeighsItsBits(Conditions(o), 0, k);
  }

  lemma RoundIsNearest(v: real)
    ensures -0.5 <= Round(v) as real - v <= 0.5
    ensures -2147483648.5 < v < 2147483647.5 ==> -0x8000_0000 <= Round(v) < 0x8000_0000
    ensures Round(-v) == -Round(v)
  {
  }

  lemma Int32IsExact(n: int)
    ensures Int32(n) % RANGE == n % RANGE && -0x8000_0000 <= Int32(n) < 0x8000_0000
    ensures -0x8000_0000 <= n < 0x8000_0000 ==> Int32(n) == n
  {
  }

  lemma RoundedShows(name: string, quantity: real)
    ensures Shows(Column(name, RoundToInt32(quantity), false), name, quantity)
  {
    hide Round, Int32;
    RoundIsNearest(quantity);
    Int32IsExact(Round(quantity));
  }

  // What a snapshot says of an output block is true of it.
  lemma SnapshotIsTruthful(o: Output, countsPerLength: real, seqNo: nat, full: bool)
    requires countsPerLength > 0.0 && seqNo < 128
    ensures Truthful(Columns(o, countsPerLength, seqNo, full), o, countsPerLength, seqNo, full)
  {
    hide Flags, Int32, RoundToInt32, Shows, Bit, Conditions;
    Int32IsExact(seqNo);
    Int32IsExact(o.now);
    Int32IsExact(o.cycleCount);
    RoundedShows("posl", o.positionLeft / countsPerLength);
    RoundedShows("posr", o.positionRight / countsPerLength);
    RoundedShows("vell", o.velocityLeft / countsPerLength * 10.0);
    RoundedShows("velr", o.velocityRight / countsPerLength * 10.0);
    RoundedShows("lambda", o.lambda * 1000.0);
    RoundedShows("biasl", o.biasLeft);
    RoundedShows("biasr", o.biasRight);
    FlagsAreEight(o);
    Int32IsExact(Flags(o));
    forall k: nat | k < 8 ensures Bit(Flags(o), k) == Conditions(o)[k] { FlagsAreBits(o, k); }
  }

  lemma FlagsAreEight(o: Output)
    ensures Flags(o) < 256
  {
  }

  class DiffDriveAdapter {
    const drive: DifferentialDrive
    var countsPerLength: real
    var mode: TlmMode
    var seqNo: nat

    ghost predicate Valid()
      reads this`countsPerLength
    {
      countsPerLength > 0.0
    }

    // A non-positive geometry falls back to 1; the kernel's bring-up values are
    // armed here.
    constructor (drive: DifferentialDrive, countsPerLength: real)
      modifies drive`staged, drive`cfgSeq, drive`lastError
      ensures Valid() && this.drive == drive
      ensures this.countsPerLength == if countsPerLength > 0.0 then countsPerLength else 1.0
      ensures mode == Off && seqNo == 0
      ensures drive.FrontView() == ArmedSpec(old(drive.FrontView()))
    {
      this.drive := drive;
      this.countsPerLength := if countsPerLength > 0.0 then countsPerLength else 1.0;
      mode := Off;
      seqNo := 0;
      new;
      drive.SetMaxDuty(100.0);
      drive.SetFullDutyVelocity(1000.0);
      drive.SetCyclePeriod(24);
    }

    method SetCountsPerLength(value: real)
      requires Valid()
      modifies this`countsPerLength
      ensures Valid() && countsPerLength == if value > 0.0 then value else old(countsPerLength)
    {
      if value > 0.0 { countsPerLength := value; }
    }

    method OnWheelsV(nowUs: nat, left: real, right: real, duration: uint32) returns (r: Result)
      modifies drive`lastError, drive`command, drive`cmdSeq
      ensures (drive.FrontView(), r) ==
              WheelsVSpec(old(drive.FrontView()), countsPerLength, nowUs, left, right, duration)
    {
      if duration > WHEELS_DURATION_CEILING { return OutOfRange; }
      var countsLeft := left * countsPerLength;
      var countsRight := right * countsPerLength;
      var velocity := (countsLeft + countsRight) * 0.5;
      var twist := (countsRight - countsLeft) * 0.5;
      var status := drive.Drive(nowUs, velocity, twist, duration);
      r := StatusToResult(status);
      assert (drive.FrontView(), status) ==
             DriveSpec(old(drive.FrontView()), nowUs, (countsLeft + countsRight) * 0.5,
                       (countsRight - countsLeft) * 0.5, duration);
    }

    method OnStop() returns (r: Result)
      modifies drive`command, drive`cmdSeq
      ensures drive.FrontView() == NeutralSpec(old(drive.FrontView())) && r == Accepted
    {
      drive.Stop();
      return Accepted;
    }

    method OnEstop()
      modifies drive`estopLatch
      ensures drive.FrontView() == old(drive.FrontView()).(estop := true)
    {
      drive.Estop();
    }

    method OnGet(name: string) returns (value: Option<real>)
      ensures value == match FindFrom(0, name) case None => None case Some(f) => Some(Read(drive.staged, f))
    {
      var field := FindField(name);
      if field.None? { return None; }
      return Some(Read(drive.staged, field.value));
    }

    method OnSet(name: string, value: real) returns (r: Result)
      modifies drive`staged, drive`cfgSeq, drive`lastError
      ensures (drive.FrontView(), r) == SetSpec(old(drive.FrontView()), name, value)
    {
      var field := FindField(name);
      if field.None? { return Unknown; }
      var status := drive.SetConfig(Put(drive.staged, field.value, value));
      return StatusToResult(status);
    }

    method FindField(name: string) returns (field: Option<Field>)
      ensures field == FindFrom(0, name)
    {
      for i := 0 to |FIELDS|
        invariant FindFrom(0, name) == FindFrom(i, name)
      {
        if FieldName(FIELDS[i]) == name { return Some(FIELDS[i]); }
      }
      return None;
    }

    // TLM NOW is a one-shot request, never the stored mode.
    method OnTlm(m: TlmMode) returns (r: Result)
      modifies this`mode
      ensures mode == (if m == Now then old(mode) else m) && r == Accepted
    {
      if m != Now { mode := m; }
      return Accepted;
    }

    // A snapshot is built column by column, under a counter that wraps at 128.
    method BuildSnapshot() returns (columns: seq<Column>)
      requires Valid()
      modifies this`seqNo
      ensures seqNo == (old(seqNo) + 1) % 128
      ensures columns == Columns(drive.out, countsPerLength, seqNo, mode == FullRate)
      ensures Truthful(columns, drive.out, countsPerLength, seqNo, mode == FullRate)
    {
      var o := drive.out;
      seqNo := (seqNo + 1) % 128;
      SnapshotIsTruthful(o, countsPerLength, seqNo, mode == FullRate);
      hide Truthful, Int32, RoundToInt32, Flags;
      columns := [Column("seq", Int32(seqNo), false)];
      columns := columns + [Column("now", Int32(o.now), false)];
      columns := columns + [Column("flags", Int32(Flags(o)), true)];
      columns := columns + [Column("posl", RoundToInt32(o.positionLeft / countsPerLength), false)];
      columns := columns + [Column("posr", RoundToInt32(o.positionRight / countsPerLength), false)];
      columns := columns + [Column("vell", RoundToInt32(o.velocityLeft / countsPerLength * 10.0), false)];
      columns := columns + [Column("velr", RoundToInt32(o.velocityRight / countsPerLength * 10.0), false)];
      if mode == FullRate {
        columns := columns + [Column("lambda", RoundToInt32(o.lambda * 1000.0), false)];
        columns := columns + [Column("biasl", RoundToInt32(o.biasLeft), false)];
        columns := columns + [Column("biasr", RoundToInt32(o.biasRight), false)];
        columns := columns + [Column("cyc", Int32(o.cycleCount), false)];
      }
    }
  }

  // ---- what the seam promises -----------------------------------------------------

  // The half-sum and half-difference undo each other: the kernel's raw wheel
  // targets are exactly the scaled wire values, left as left and right as right.
  lemma WheelTargetsAreExact(f: Front, countsPerLength: real, nowUs: nat, left: real, right: real, duration: uint32)
    requires WheelsVSpec(f, countsPerLength, nowUs, left, right, duration).1 == Accepted
    ensures var c := WheelsVSpec(f, countsPerLength, nowUs, left, right, duration).0.command;
            && c.mode == Velocity
            && c.velocity - c.twist == left * countsPerLength
            && c.velocity + c.twist == right * countsPerLength
  {
  }

  // A refused WHEELS_V leaves whatever was commanded running under its own lease.
  lemma RefusalKeepsMailbox(f: Front, countsPerLength: real, nowUs: nat, left: real, right: real, duration: uint32)
    requires WheelsVSpec(f, countsPerLength, nowUs, left, right, duration).1 != Accepted
    ensures var f' := WheelsVSpec(f, countsPerLength, nowUs, left, right, duration).0;
            f'.command == f.command && f'.cmdSeq == f.cmdSeq && f'.staged == f.staged
  {
  }

  // Constructing the adapter is enough for begin() to succeed, and for the
  // kernel then to accept both kinds of command.
  lemma ArmedKernelIsCommandable(f: Front)
    ensures BeginSpec(ArmedSpec(f)).1 == Ok
    ensures !f.estop ==> forall needsCalibration :: CheckCommandable(BeginSpec(ArmedSpec(f)).0, needsCalibration) == Ok
  {
  }

  // The bring-up values; a cadence begin() has frozen stays.
  lemma ArmedValues(f: Front)
    ensures ArmedSpec(f).staged ==
            f.staged.(maxDuty := 100.0, fullDutyVelocity := 1000.0,
                      cyclePeriod := if f.begun then f.staged.cyclePeriod else 24)
    ensures ArmedSpec(f).command == f.command && ArmedSpec(f).begun == f.begun && ArmedSpec(f).estop == f.estop
    ensures |FIELDS| == 15
  {
  }

  lemma FieldNamesDiffer(f: Field, g: Field)
    requires f != g
    ensures FieldName(f) != FieldName(g)
  {
    var a, b := FieldName(f), FieldName(g);
    if |a| == |b| {
      assert a[14..] != b[14..] by {
        assert a[14] != b[14] || a[15] != b[15] || a[18] != b[18] || a[|a| - 1] != b[|b| - 1];
      }
    }
  }

  lemma {:induction false} FindsEveryField(f: Field, i: nat)
    requires i <= |FIELDS| && f in FIELDS[i..]
    ensures FindFrom(i, FieldName(f)) == Some(f)
    decreases |FIELDS| - i
  {
    if FIELDS[i] != f {
      FieldNamesDiffer(f, FIELDS[i]);
      FindsEveryField(f, i + 1);
    }
  }

  lemma PutThenRead(c: Config, field: Field, value: real, other: Field)
    ensures Read(Put(c, field, value), field) == value
    ensures other != field ==> Read(Put(c, field, value), other) == Read(c, other)
    ensures Put(c, field, value).cyclePeriod == c.cyclePeriod
  {
  }

  // SET then GET: the field set reads back, and no other field moves.
  lemma SetThenGet(f: Front, field: Field, value: real, other: Field)
    ensures var (f', r) := SetSpec(f, FieldName(field), value);
            && r == Accepted
            && Read(f'.staged, field) == value
            && (other != field ==> Read(f'.staged, other) == Read(f.staged, other))
            && f'.command == f.command
  {
    hide Put, Read, FieldName, FindFrom, Next32;
    FindsEveryField(field, 0);
    PutThenRead(f.staged, field, value, other);
    assert field in FIELDS[0..];
  }

  // What the wire's names mean: SET under each of them puts the value in the law's
  // own field, and only there.
  lemma WheelNames(f: Front, v: real)
    ensures SetSpec(f, "wheel_control.v_min", v).0.staged == f.staged.(vMin := v)
    ensures SetSpec(f, "wheel_control.bias_max", v).0.staged == f.staged.(biasMax := v)
    ensures SetSpec(f, "wheel_control.tau_adapt", v).0.staged == f.staged.(tauAdapt := v)
    ensures SetSpec(f, "wheel_control.a_steady", v).0.staged == f.staged.(aSteady := v)
    ensures SetSpec(f, "wheel_control.deficit_threshold", v).0.staged == f.staged.(deficitThreshold := v)
    ensures SetSpec(f, "wheel_control.deficit_window", v).0.staged == f.staged.(deficitWindow := v)
  {
    hide SetSpec, Put;
    SetPuts(f, VMin, v);
    SetPuts(f, BiasMax, v);
    SetPuts(f, TauAdapt, v);
    SetPuts(f, ASteady, v);
    SetPuts(f, DeficitThreshold, v);
    SetPuts(f, DeficitWindow, v);
    PutsWheel(f.staged, v);
  }

  lemma PidNames(f: Front, v: real)
    ensures SetSpec(f, "wheel_control.pid_kp", v).0.staged == f.staged.(kp := v)
    ensures SetSpec(f, "wheel_control.pid_ki", v).0.staged == f.staged.(ki := v)
    ensures SetSpec(f, "wheel_control.pid_i_max", v).0.staged == f.staged.(iMax := v)
    ensures SetSpec(f, "wheel_control.pid_kaff", v).0.staged == f.staged.(kaff := v)
    ensures SetSpec(f, "wheel_control.pid_max", v).0.staged == f.staged.(pidMax := v)
    ensures SetSpec(f, "wheel_control.pos_err_max", v).0.staged == f.staged.(posErrMax := v)
  {
    hide SetSpec, Put;
    SetPuts(f, PidKp, v);
    SetPuts(f, PidKi, v);
    SetPuts(f, PidIMax, v);
    SetPuts(f, PidKaff, v);
    SetPuts(f, PidMax, v);
    SetPuts(f, PosErrMax, v);
    PutsPid(f.staged, v);
  }

  lemma StallNames(f: Front, v: real)
    ensures SetSpec(f, "wheel_control.stall_speed", v).0.staged == f.staged.(stallSpeed := v)
    ensures SetSpec(f, "wheel_control.stall_demand", v).0.staged == f.staged.(stallDemand := v)
    ensures SetSpec(f, "wheel_control.stall_window", v).0.staged == f.staged.(stallWindow := v)
  {
    hide SetSpec, Put;
    SetPuts(f, StallSpeed, v);
    SetPuts(f, StallDemand, v);
    SetPuts(f, StallWindow, v);
    PutsStall(f.staged, v);
  }

  lemma SetPuts(f: Front, field: Field, v: real)
    ensures SetSpec(f, FieldName(field), v).0.staged == Put(f.staged, field, v)
  {
    hide Put, FieldName, FindFrom, Next32;
    FindsEveryField(field, 0);
    PutThenRead(f.staged, field, v, field);
    assert field in FIELDS[0..];
  }

  lemma PutsWheel(c: Config, v: real)
    ensures Put(c, VMin, v) == c.(vMin := v) && Put(c, BiasMax, v) == c.(biasMax := v)
    ensures Put(c, TauAdapt, v) == c.(tauAdapt := v) && Put(c, ASteady, v) == c.(aSteady := v)
    ensures Put(c, DeficitThreshold, v) == c.(deficitThreshold := v)
    ensures Put(c, DeficitWindow, v) == c.(deficitWindow := v)
  {
  }

  lemma PutsPid(c: Config, v: real)
    ensures Put(c, PidKp, v) == c.(kp := v) && Put(c, PidKi, v) == c.(ki := v)
    ensures Put(c, PidIMax, v) == c.(iMax := v) && Put(c, PidKaff, v) == c.(kaff := v)
    ensures Put(c, PidMax, v) == c.(pidMax := v) && Put(c, PosErrMax, v) == c.(posErrMax := v)
  {
  }

  lemma PutsStall(c: Config, v: real)
    ensures Put(c, StallSpeed, v) == c.(stallSpeed := v) && Put(c, StallDemand, v) == c.(stallDemand := v)
    ensures Put(c, StallWindow, v) == c.(stallWindow := v)
  {
  }

  // Any other name is unknown, code 1, and changes nothing.
  lemma UnknownNames(f: Front, name: string, v: real)
    requires forall field :: FieldName(field) != name
    ensures SetSpec(f, name, v).0 == f && ResultCode(SetSpec(f, name, v).1) == 1
  {
    hide FieldName;
    FindsNothing(name, 0);
  }

  lemma {:induction false} FindsNothing(name: string, i: nat)
    requires i <= |FIELDS| && forall field :: FieldName(field) != name
    ensures FindFrom(i, name) == None
    decreases |FIELDS| - i
  {
    if i < |FIELDS| { FindsNothing(name, i + 1); }
  }
}
