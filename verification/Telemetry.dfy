// Telemetry emission (src/protocol/protocol_handler.cpp): the remembered header,
// when a `thdr` line is sent again, and what the fixed line buffer does to long
// ones. These are the handler's header fields, kept in a class of their own.
module Telemetry {
  import opened Options
  import opened Tokens
  import opened Ascii
  import opened Adapter
  import opened KernelCycle
  import opened Lines

  const MAX_COLUMNS: nat := 40
  const MAX_NAME: nat := 15          // kMaxHeaderNameBytes less its NUL
  const MAX_TEXT: nat := 255         // kMaxTelemetryLineBytes less its NUL

  // ---- the lines ------------------------------------------------------------------

  function HexDigit(d: nat): char
    requires d < 16
  {
    if d < 10 then CharOf(d) else ('a' as int + d - 10) as char
  }

  function Hex(n: nat): (s: string)
    ensures s != []
  {
    if n < 16 then [HexDigit(n)] else Hex(n / 16) + [HexDigit(n % 16)]
  }

  predicate IsHex(c: char) { IsDigit(c) || 'a' <= c <= 'f' }

  function HexOf(c: char): nat
    requires IsHex(c)
  {
    if IsDigit(c) then DigitOf(c) else c as int - 'a' as int + 10
  }

  // The number a run of hex digits spells, most significant first.
  function HexValue(s: string): nat
    requires forall i :: 0 <= i < |s| ==> IsHex(s[i])
  {
    if s == [] then 0 else 16 * HexValue(s[..|s| - 1]) + HexOf(s[|s| - 1])
  }

  lemma {:induction false} HexReads(n: nat)
    ensures forall i :: 0 <= i < |Hex(n)| ==> IsHex(Hex(n)[i])
    ensures HexValue(Hex(n)) == n
  {
    if n < 16 {
      assert Hex(n) == [HexDigit(n)] && [HexDigit(n)][..0] == [];
      assert HexValue([HexDigit(n)]) == 16 * HexValue([HexDigit(n)][..0]) + HexOf(HexDigit(n));
    } else {
      HexReads(n / 16);
      assert Hex(n)[..|Hex(n)| - 1] == Hex(n / 16);
    }
  }

  // A hex column prints the value's 32-bit pattern.
  function ValueText(c: Column): string {
    if c.hex then Hex(c.value % 0x1_0000_0000) else IntText(c.value)
  }

  function Names(cols: seq<Column>): (ns: seq<string>)
    ensures |ns| == |cols| && forall i :: 0 <= i < |cols| ==> ns[i] == cols[i].name
  {
    seq(|cols|, i requires 0 <= i < |cols| => cols[i].name)
  }

  function Values(cols: seq<Column>): (vs: seq<string>)
    ensures |vs| == |cols| && forall i :: 0 <= i < |cols| ==> vs[i] == ValueText(cols[i])
  {
    seq(|cols|, i requires 0 <= i < |cols| => ValueText(cols[i]))
  }

  function Spaced(words: seq<string>): string {
    if words == [] then [] else Spaced(words[..|words| - 1]) + " " + words[|words| - 1]
  }

  // What the line buffer keeps of a text: the LF goes first when it is too long.
  function Fit(text: string): string {
    if |text| <= MAX_TEXT then text else text[..MAX_TEXT]
  }

  function WholeHeader(cols: seq<Column>): string { "thdr" + Spaced(Names(cols)) + "\n" }

  function HeaderText(cols: seq<Column>): string { Fit(WholeHeader(cols)) }

  function FrameText(cols: seq<Column>): string { Fit("t" + Spaced(Values(cols)) + "\n") }

  // ---- the remembered header ----------------------------------------------------------

  datatype Memory = Memory(ever: bool, count: nat, names: seq<string>, hex: seq<bool>)

  ghost predicate Sized(m: Memory) { |m.names| == MAX_COLUMNS && |m.hex| == MAX_COLUMNS }

  function Kept(cols: seq<Column>): nat { if |cols| < MAX_COLUMNS then |cols| else MAX_COLUMNS }

  function Truncated(name: string): string { if |name| <= MAX_NAME then name else name[..MAX_NAME] }

  predicate ColumnDiffers(m: Memory, cols: seq<Column>, i: nat)
    requires |m.names| == MAX_COLUMNS && |m.hex| == MAX_COLUMNS && i < Kept(cols)
  {
    m.hex[i] != cols[i].hex || m.names[i] != cols[i].name
  }

  predicate Changed(m: Memory, cols: seq<Column>)
    requires |m.names| == MAX_COLUMNS && |m.hex| == MAX_COLUMNS
  {
    !m.ever || |cols| != m.count || exists i: nat :: i < Kept(cols) && ColumnDiffers(m, cols, i)
  }

  function Remember(m: Memory, cols: seq<Column>): Memory
    requires |m.names| == MAX_COLUMNS && |m.hex| == MAX_COLUMNS
  {
    Memory(true, |cols|,
           seq(MAX_COLUMNS,
               i requires 0 <= i < MAX_COLUMNS => if i < Kept(cols) then Truncated(cols[i].name) else m.names[i]),
           seq(MAX_COLUMNS, i requires 0 <= i < MAX_COLUMNS => if i < Kept(cols) then cols[i].hex else m.hex[i]))
  }

  // One emission: the memory after it and the lines written.
  function Emit(m: Memory, cols: seq<Column>): (Memory, seq<string>)
    requires |m.names| == MAX_COLUMNS && |m.hex| == MAX_COLUMNS
  {
    if Changed(m, cols) then (Remember(m, cols), [HeaderText(cols), FrameText(cols)])
    else (m, [FrameText(cols)])
  }

  // ---- the class ------------------------------------------------------------------------

  class TelemetryEmitter {
    const headerNames: array<string>
    const headerHex: array<bool>
    var headerCount: nat
    var everEmitted: bool

    ghost predicate Valid()
      reads this
    {
      headerNames.Length == MAX_COLUMNS && headerHex.Length == MAX_COLUMNS
    }

    ghost function View(): (m: Memory)
      requires Valid()
      reads this, headerNames, headerHex
      ensures Sized(m)
    {
      Memory(everEmitted, headerCount, headerNames[..], headerHex[..])
    }

    constructor ()
      ensures Valid() && fresh(headerNames) && fresh(headerHex)
      ensures !View().ever && View().count == 0
    {
      headerNames := new string[MAX_COLUMNS](i => "");
      headerHex := new bool[MAX_COLUMNS](i => false);
      headerCount := 0;
      everEmitted := false;
    }

    // TLM HDR: the next frame sends its header again.
    method Forget()
      modifies this`everEmitted
      ensures !everEmitted
    {
      everEmitted := false;
    }

    method HeaderChanged(cols: seq<Column>) returns (changed: bool)
      requires Valid()
      ensures changed == Changed(View(), cols)
    {
      if !everEmitted { return true; }
      if |cols| != headerCount { return true; }
      var limit := Kept(cols);
      for i := 0 to limit
        invariant forall j: nat :: j < i ==> !ColumnDiffers(View(), cols, j)
      {
        if headerHex[i] != cols[i].hex || headerNames[i] != cols[i].name {
          assert ColumnDiffers(View(), cols, i);
          return true;
        }
      }
      return false;
    }

    method RememberHeader(cols: seq<Column>)
      requires Valid()
      modifies this, headerNames, headerHex
      ensures Valid() && View() == Remember(old(View()), cols)
    {
      ghost var m := View();
      headerCount := |cols|;
      var limit := Kept(cols);
      for i := 0 to limit
        invariant Valid() && headerCount == |cols|
        invariant forall j :: 0 <= j < i ==> headerNames[j] == Truncated(cols[j].name) && headerHex[j] == cols[j].hex
        invariant forall j :: i <= j < MAX_COLUMNS ==> headerNames[j] == m.names[j] && headerHex[j] == m.hex[j]
      {
        headerNames[i] := Truncated(cols[i].name);
        headerHex[i] := cols[i].hex;
      }
      everEmitted := true;
      assert headerNames[..] == Remember(m, cols).names;
      assert headerHex[..] == Remember(m, cols).hex;
    }

    method EmitTelemetry(cols: seq<Column>) returns (lines: seq<string>)
      requires Valid()
      modifies this, headerNames, headerHex
      ensures Valid() && View() == Emit(old(View()), cols).0 && lines == Emit(old(View()), cols).1
    {
      hide Remember, Changed, HeaderText, FrameText;
      lines := [];
      var changed := HeaderChanged(cols);
      if changed {
        var header := RenderHeader(cols);
        lines := lines + [header];
        RememberHeader(cols);
      }
      var frame := RenderFrame(cols);
      lines := lines + [frame];
    }

    // Bytes past the buffer are dropped.
    static method Append(buf: array<char>, pos: nat, text: string, ghost sofar: string) returns (end: nat)
      requires buf.Length == MAX_TEXT + 1 && pos <= MAX_TEXT && buf[..pos] == Fit(sofar)
      modifies buf
      ensures end <= MAX_TEXT && buf[..end] == Fit(sofar + text)
    {
      end := pos;
      var i := 0;
      while i < |text| && end < buf.Length - 1
        invariant i <= |text| && end == pos + i <= MAX_TEXT
        invariant buf[..end] == Fit(sofar) + text[..i]
      {
        buf[end] := text[i];
        assert buf[..end + 1] == buf[..end] + [text[i]];
        assert text[..i + 1] == text[..i] + [text[i]];
        end := end + 1;
        i := i + 1;
      }
      FitAppend(sofar, text);
    }

    static method Render(head: string, words: seq<string>) returns (line: string)
      ensures line == Fit(head + Spaced(words) + "\n")
    {
      hide Spaced, Fit;
      var buf := new char[MAX_TEXT + 1](i => NUL);
      NoWords();
      assert buf[..0] == Fit([]);
      var pos: nat := Append(buf, 0, head, []);
      assert [] + head == head + Spaced([]);
      for i := 0 to |words|
        invariant pos <= MAX_TEXT && buf[..pos] == Fit(head + Spaced(words[..i]))
      {
        ghost var sofar := head + Spaced(words[..i]);
        pos := Append(buf, pos, " ", sofar);
        pos := Append(buf, pos, words[i], sofar + " ");
        OneMoreWord(words, i);
        assert sofar + " " + words[i] == head + Spaced(words[..i + 1]);
      }
      assert words[..|words|] == words;
      pos := Append(buf, pos, "\n", head + Spaced(words));
      line := buf[..pos];
    }

    static method RenderHeader(cols: seq<Column>) returns (line: string)
      ensures line == HeaderText(cols)
    {
      hide Spaced, Fit;
      var names := [];
      for i := 0 to |cols|
        invariant names == Names(cols)[..i]
      {
        names := names + [cols[i].name];
      }
      assert names == Names(cols);
      line := Render("thdr", names);
    }

    static method RenderFrame(cols: seq<Column>) returns (line: string)
      ensures line == FrameText(cols)
    {
      hide Spaced, Fit, ValueText;
      var values := [];
      for i := 0 to |cols|
        invariant values == Values(cols)[..i]
      {
        values := values + [ValueText(cols[i])];
      }
      assert values == Values(cols);
      line := Render("t", values);
    }
  }

  lemma NoWords()
    ensures Spaced([]) == [] && Fit([]) == []
  {
  }

  lemma OneMoreWord(words: seq<string>, i: nat)
    requires i < |words|
    ensures Spaced(words[..i + 1]) == Spaced(words[..i]) + " " + words[i]
  {
    assert words[..i + 1][..i] == words[..i];
  }

  // Appending to the kept part is keeping part of the appended text.
  lemma FitAppend(text: string, more: string)
    ensures var kept := Fit(text);
            var room := if |kept| + |more| <= MAX_TEXT then |more| else MAX_TEXT - |kept|;
            kept + more[..room] == Fit(text + more)
  {
  }

  // ---- self-description over a run -------------------------------------------------------

  datatype Op = Frame(cols: seq<Column>) | AskHeader

  ghost function MemoryAfter(m: Memory, ops: seq<Op>): (r: Memory)
    requires Sized(m)
    ensures Sized(r)
  {
    if ops == [] then m
    else
      var before := MemoryAfter(m, ops[..|ops| - 1]);
      match ops[|ops| - 1]
      case Frame(cols) => Emit(before, cols).0
      case AskHeader => before.(ever := false)
  }

  // The `thdr` line right before the last line, if there is one.
  function Announced(lines: seq<string>): Option<string> {
    if |lines| < 2 then None
    else
      var line := lines[|lines| - 2];
      if |line| >= 4 && line[..4] == "thdr" then Some(line) else None
  }

  // An emission ends in the frame, its header, if any, before it.
  lemma EmitAnnounces(m: Memory, cols: seq<Column>)
    requires Sized(m)
    ensures var lines := Emit(m, cols).1;
            && lines != [] && lines[|lines| - 1] == FrameText(cols)
            && Announced(lines) == if Changed(m, cols) then Some(HeaderText(cols)) else None
  {
    hide Changed, Remember, Spaced;
    assert WholeHeader(cols)[..4] == "thdr";
    assert HeaderText(cols)[..4] == WholeHeader(cols)[..4];
  }

  // The lines the last operation, a frame, put on the wire.
  ghost function LastLines(m: Memory, ops: seq<Op>): seq<string>
    requires Sized(m) && ops != [] && ops[|ops| - 1].Frame?
  {
    Emit(MemoryAfter(m, ops[..|ops| - 1]), ops[|ops| - 1].cols).1
  }

  // The latest `thdr` line on the wire.
  ghost function LatestHeader(m: Memory, ops: seq<Op>): Option<string>
    requires Sized(m)
  {
    if ops == [] then None
    else if ops[|ops| - 1].Frame? && Announced(LastLines(m, ops)).Some? then Announced(LastLines(m, ops))
    else LatestHeader(m, ops[..|ops| - 1])
  }

  // The columns of the last frame since a header was last asked for.
  function LastFrame(ops: seq<Op>): Option<seq<Column>> {
    if ops == [] || ops[|ops| - 1].AskHeader? then None else Some(ops[|ops| - 1].cols)
  }

  ghost predicate SameShape(a: seq<Column>, b: seq<Column>) {
    |a| == |b| && forall i :: 0 <= i < |a| ==> a[i].name == b[i].name && a[i].hex == b[i].hex
  }

  ghost predicate Small(cols: seq<Column>) {
    |cols| <= 40 && forall i :: 0 <= i < |cols| ==> |cols[i].name| <= 15
  }

  ghost predicate AllSmall(ops: seq<Op>) {
    forall i :: 0 <= i < |ops| && ops[i].Frame? ==> Small(ops[i].cols)
  }

  // The memory holds exactly this column set.
  ghost predicate Recalls(m: Memory, cols: seq<Column>) {
    && Sized(m) && m.ever && m.count == |cols|
    && forall i :: 0 <= i < Kept(cols) ==> m.names[i] == Truncated(cols[i].name) && m.hex[i] == cols[i].hex
  }

  // A header stays unsent exactly when what is remembered of the last columns
  // (40 of them, 15 characters each) matches the new ones.
  lemma UnsentIff(m: Memory, last: seq<Column>, cols: seq<Column>)
    requires Recalls(m, last)
    ensures !Changed(m, cols) <==>
            |cols| == |last| && forall i :: 0 <= i < Kept(cols) ==>
              cols[i].hex == last[i].hex && cols[i].name == Truncated(last[i].name)
  {
    if |cols| == |last| {
      assert forall i: nat :: i < Kept(cols) ==>
        (ColumnDiffers(m, cols, i) <==> cols[i].hex != last[i].hex || cols[i].name != Truncated(last[i].name));
    }
  }

  // So for small snapshots, exactly when the columns are the same.
  lemma SmallUnsentIff(m: Memory, last: seq<Column>, cols: seq<Column>)
    requires Recalls(m, last) && Small(last) && Small(cols)
    ensures !Changed(m, cols) <==> SameShape(last, cols)
  {
    UnsentIff(m, last, cols);
  }

  lemma EmitRecalls(m: Memory, last: seq<Column>, cols: seq<Column>)
    requires Sized(m) && (m.ever ==> Recalls(m, last) && Small(last)) && Small(cols)
    ensures Recalls(Emit(m, cols).0, cols)
  {
    if !Changed(m, cols) { SmallUnsentIff(m, last, cols); }
  }

  lemma ShapeIsHeader(a: seq<Column>, b: seq<Column>)
    requires SameShape(a, b)
    ensures HeaderText(a) == HeaderText(b)
  {
    assert Names(a) == Names(b);
  }

  lemma {:induction false} RunRecalls(m: Memory, ops: seq<Op>)
    requires Sized(m) && !m.ever && AllSmall(ops)
    ensures ops != [] && ops[|ops| - 1].Frame? ==> Recalls(MemoryAfter(m, ops), ops[|ops| - 1].cols)
    ensures LastFrame(ops).None? ==> !MemoryAfter(m, ops).ever
    ensures LastFrame(ops).Some? ==> LatestHeader(m, ops) == Some(HeaderText(LastFrame(ops).value))
  {
    hide Changed, Remember, Recalls, HeaderText, Small;
    if ops != [] {
      var init, op := ops[..|ops| - 1], ops[|ops| - 1];
      assert AllSmall(init) by { assert forall i :: 0 <= i < |init| ==> init[i] == ops[i]; }
      RunRecalls(m, init);
      if op.Frame? {
        var before := MemoryAfter(m, init);
        var last := if LastFrame(init).Some? then LastFrame(init).value else [];
        if LastFrame(init).Some? {
          assert init[|init| - 1] == ops[|init| - 1];
          SmallUnsentIff(before, last, op.cols);
          if SameShape(last, op.cols) { ShapeIsHeader(last, op.cols); }
        } else {
          NeverIsChanged(before, op.cols);
        }
        EmitAnnounces(before, op.cols);
        EmitRecalls(before, last, op.cols);
      }
    }
  }

  lemma NeverIsChanged(m: Memory, cols: seq<Column>)
    requires Sized(m) && !m.ever
    ensures Changed(m, cols)
  {
  }

  // A header is written at first use, on a change of columns and after TLM HDR,
  // and at no other frame.
  lemma HeaderWrittenIff(m: Memory, ops: seq<Op>)
    requires Sized(m) && !m.ever && AllSmall(ops)
    requires ops != [] && ops[|ops| - 1].Frame?
    ensures var before := LastFrame(ops[..|ops| - 1]);
            Announced(LastLines(m, ops)).Some? <==> before.None? || !SameShape(before.value, ops[|ops| - 1].cols)
  {
    hide Changed, Small;
    var init := ops[..|ops| - 1];
    assert AllSmall(init) by { assert forall i :: 0 <= i < |init| ==> init[i] == ops[i]; }
    RunRecalls(m, init);
    EmitAnnounces(MemoryAfter(m, init), ops[|ops| - 1].cols);
    if LastFrame(init).Some? {
      assert init[|init| - 1] == ops[|init| - 1];
      SmallUnsentIff(MemoryAfter(m, init), LastFrame(init).value, ops[|ops| - 1].cols);
    } else {
      NeverIsChanged(MemoryAfter(m, init), ops[|ops| - 1].cols);
    }
  }

  // Beyond 40 columns, or 15 characters, a change can go unannounced.
  lemma ManyColumnsGoStale(m: Memory, a: seq<Column>, x: Column, y: Column)
    requires Sized(m) && |a| == 40 && Small(a) && x.name != y.name
    ensures var first := Emit(m.(ever := false), a + [x]).0;
            !Changed(first, a + [y]) && !SameShape(a + [x], a + [y])
  {
    hide Changed, Remember, Recalls;
    var never := m.(ever := false);
    NeverIsChanged(never, a + [x]);
    RememberRecalls(never, a + [x]);
    UnsentIff(Remember(never, a + [x]), a + [x], a + [y]);
    assert (a + [x])[MAX_COLUMNS] == x && (a + [y])[MAX_COLUMNS] == y;
  }

  lemma RememberRecalls(m: Memory, cols: seq<Column>)
    requires Sized(m)
    ensures Recalls(Remember(m, cols), cols)
  {
  }

  lemma LongNamesGoStale(m: Memory, long: string)
    requires Sized(m) && |long| > 15
    ensures var before, after := [Column(long, 0, false)], [Column(long[..15], 0, false)];
            !Changed(Emit(m.(ever := false), before).0, after) && !SameShape(before, after)
  {
    assert |[Column(long, 0, false)][0].name| != |long[..15]|;
  }

  // ---- what fits on the line ---------------------------------------------------------------

  lemma {:induction false} SpacedIsJoined(head: string, words: seq<string>)
    ensures head + Spaced(words) == Join([head] + words)
    decreases |words|
  {
    if words == [] {
      assert head + Spaced(words) == head;
    } else {
      var init, last := words[..|words| - 1], words[|words| - 1];
      SpacedIsJoined(head, init);
      JoinSnoc([head] + init, last);
      assert [head] + words == [head] + init + [last];
      assert head + Spaced(words) == (head + Spaced(init)) + " " + last;
    }
  }

  lemma {:induction false} JoinSnoc(ts: seq<string>, t: string)
    requires ts != []
    ensures Join(ts + [t]) == Join(ts) + " " + t
  {
    if |ts| == 1 {
      assert (ts + [t])[1..] == [t];
    } else {
      JoinSnoc(ts[1..], t);
      assert (ts + [t])[1..] == ts[1..] + [t];
      assert ts[0] + " " + (Join(ts[1..]) + " " + t) == (ts[0] + " " + Join(ts[1..])) + " " + t;
    }
  }

  // The text is one line, whole, that reads as `thdr` and the names.
  ghost predicate Lists(text: string, names: seq<string>) {
    |Segments(text)| == 1 && Tail(text) == [] && Split(Segments(text)[0]) == ["thdr"] + names
  }

  ghost predicate Named(cols: seq<Column>) {
    forall i :: 0 <= i < |cols| ==> IsWord(cols[i].name) && LF !in cols[i].name
  }

  // A header lists its names exactly when it fits: a longer one has lost its LF,
  // and so runs into the next line.
  lemma HeaderReadsIff(cols: seq<Column>)
    requires Named(cols)
    ensures Lists(HeaderText(cols), Names(cols)) <==> |WholeHeader(cols)| <= 255
  {
    hide Join, SplitAt, SegmentsAt, TailAt, Spaced;
    var ts, body := ["thdr"] + Names(cols), "thdr" + Spaced(Names(cols));
    SpacedIsJoined("thdr", Names(cols));
    assert forall t :: t in ts ==> IsWord(t);
    SplitOfJoin(ts);
    NoLfInside(Names(cols));
    assert LF !in body;
    if |body| + 1 <= MAX_TEXT {
      OneLine(body, "");
      OneLine("", "");
      assert body + [LF] + "" == HeaderText(cols);
    } else {
      assert HeaderText(cols) == body[..MAX_TEXT];
      OneLine(body[..MAX_TEXT], "");
    }
  }

  // Over a run of small snapshots, the latest header before a frame lists exactly
  // that frame's columns if and only if the header fits its line.
  lemma FramesAreSelfDescribing(m: Memory, ops: seq<Op>)
    requires Sized(m) && !m.ever && AllSmall(ops)
    requires ops != [] && ops[|ops| - 1].Frame? && Named(ops[|ops| - 1].cols)
    ensures var cols, header := ops[|ops| - 1].cols, LatestHeader(m, ops);
            header.Some? && (Lists(header.value, Names(cols)) <==> |WholeHeader(cols)| <= 255)
  {
    hide AllSmall, Lists, WholeHeader, HeaderText, Named;
    RunRecalls(m, ops);
    HeaderReadsIff(ops[|ops| - 1].cols);
  }

  lemma {:induction false} NoLfInside(words: seq<string>)
    requires forall i :: 0 <= i < |words| ==> '\n' !in words[i]
    ensures '\n' !in Spaced(words)
  {
    if words != [] { NoLfInside(words[..|words| - 1]); }
  }

  // Forty names of fifteen characters, the most the memory holds, do not fit.
  lemma {:induction false} SpacedLength(words: seq<string>)
    requires forall i :: 0 <= i < |words| ==> |words[i]| == MAX_NAME
    ensures |Spaced(words)| == 16 * |words|
  {
    if words != [] { SpacedLength(words[..|words| - 1]); }
  }

  lemma FullMemoryOverflows(cols: seq<Column>)
    requires |cols| == 40 && forall i :: 0 <= i < |cols| ==> |cols[i].name| == 15
    ensures |WholeHeader(cols)| == 645
  {
    SpacedLength(Names(cols));
  }

  lemma {:induction false} SpacedAtMost(words: seq<string>)
    requires forall i :: 0 <= i < |words| ==> |words[i]| <= 11
    ensures |Spaced(words)| <= 12 * |words|
  {
    if words != [] { SpacedAtMost(words[..|words| - 1]); }
  }

  lemma {:induction false} HexGrows(n: nat, k: nat)
    requires k > 0 && n < Pow16(k)
    ensures |Hex(n)| <= k && |Hex(n)| >= 1
  {
    if n >= 16 { HexGrows(n / 16, k - 1); }
  }

  function Pow16(k: nat): nat { if k == 0 then 1 else 16 * Pow16(k - 1) }

  // One of the adapter's snapshots.
  ghost predicate FromAdapter(cols: seq<Column>) {
    exists o, countsPerLength: real, seqNo, full ::
      countsPerLength > 0.0 && cols == Columns(o, countsPerLength, seqNo, full)
  }

  lemma AdapterColumnsAreNamed(o: Output, countsPerLength: real, seqNo: nat, full: bool)
    requires countsPerLength > 0.0
    ensures var cols := Columns(o, countsPerLength, seqNo, full);
            && |cols| <= 11 && Named(cols)
            && forall i :: 0 <= i < |cols| ==> |cols[i].name| <= 6
  {
    hide RoundToInt32, Int32, Flags;
  }

  lemma AdapterColumnsFit(o: Output, countsPerLength: real, seqNo: nat, full: bool, i: nat)
    requires countsPerLength > 0.0 && i < |Columns(o, countsPerLength, seqNo, full)|
    ensures |ValueText(Columns(o, countsPerLength, seqNo, full)[i])| <= 11
  {
    hide Round, Flags, ValueText;
    var c := Columns(o, countsPerLength, seqNo, full)[i];
    ValueIsShort(c);
  }

  // A frame's field, read: a decimal as its number, a hex one as its 32-bit pattern.
  ghost predicate ReadsBack(text: string, c: Column) {
    if c.hex then (forall i :: 0 <= i < |text| ==> IsHex(text[i])) && HexValue(text) == c.value % 0x1_0000_0000
    else ParseInt32(text) == Some(c.value)
  }

  lemma ValueReads(c: Column)
    requires INT32_MIN <= c.value <= INT32_MAX
    ensures ReadsBack(ValueText(c), c) && IsWord(ValueText(c)) && LF !in ValueText(c)
  {
    if c.hex {
      HexReads(c.value % 0x1_0000_0000);
      var s := Hex(c.value % 0x1_0000_0000);
      assert forall k :: 0 <= k < |s| ==> IsHex(s[k]);
    } else {
      Int32RoundTrip(c.value);
      var s := if c.value < 0 then Dec(-c.value) else Dec(c.value);
      assert forall k :: 0 <= k < |s| ==> IsDigit(s[k]);
    }
  }

  // A frame that fits is one line: `t`, and then every column's own value, in order.
  lemma FrameReads(cols: seq<Column>) returns (line: string)
    requires forall i :: 0 <= i < |cols| ==> INT32_MIN <= cols[i].value <= INT32_MAX
    requires |"t" + Spaced(Values(cols)) + "\n"| <= 255
    ensures Segments(FrameText(cols)) == [line] && Tail(FrameText(cols)) == []
    ensures |Split(line)| == |cols| + 1 && Split(line)[0] == "t"
    ensures forall i :: 0 <= i < |cols| ==> ReadsBack(Split(line)[i + 1], cols[i])
  {
    hide Join, SplitAt, SegmentsAt, TailAt, Spaced, ValueText, ReadsBack;
    var vs := Values(cols);
    var ts := ["t"] + vs;
    forall i | 0 <= i < |vs| ensures ReadsBack(vs[i], cols[i]) && IsWord(vs[i]) && LF !in vs[i] {
      ValueReads(cols[i]);
    }
    line := "t" + Spaced(vs);
    SpacedIsJoined("t", vs);
    assert forall t :: t in ts ==> IsWord(t);
    SplitOfJoin(ts);
    NoLfInside(vs);
    assert LF !in line;
    OneLine(line, "");
    OneLine("", "");
    assert line + [LF] + "" == FrameText(cols);
  }

  // Every frame of the adapter reads back as its columns.
  lemma AdapterFrameReads(o: Output, countsPerLength: real, seqNo: nat, full: bool) returns (line: string)
    requires countsPerLength > 0.0
    ensures var cols := Columns(o, countsPerLength, seqNo, full);
            && Segments(FrameText(cols)) == [line] && Tail(FrameText(cols)) == []
            && |Split(line)| == |cols| + 1 && Split(line)[0] == "t"
            && forall i :: 0 <= i < |cols| ==> ReadsBack(Split(line)[i + 1], cols[i])
  {
    hide Columns, ValueText, Lists, Named, FrameText, ReadsBack;
    var cols := Columns(o, countsPerLength, seqNo, full);
    AdapterFramesFit(o, countsPerLength, seqNo, full);
    AdapterColumnsAreNamed(o, countsPerLength, seqNo, full);
    forall i | 0 <= i < |cols| ensures |Values(cols)[i]| <= 11 && INT32_MIN <= cols[i].value <= INT32_MAX {
      AdapterColumnsFit(o, countsPerLength, seqNo, full, i);
      AdapterColumnIsInt32(o, countsPerLength, seqNo, full, i);
    }
    SpacedAtMost(Values(cols));
    line := FrameReads(cols);
  }

  lemma AdapterColumnIsInt32(o: Output, countsPerLength: real, seqNo: nat, full: bool, i: nat)
    requires countsPerLength > 0.0 && i < |Columns(o, countsPerLength, seqNo, full)|
    ensures INT32_MIN <= Columns(o, countsPerLength, seqNo, full)[i].value <= INT32_MAX
  {
    hide Round, Flags;
  }

  // The adapter's own snapshots always fit, headers and frames alike.
  lemma AdapterFramesFit(o: Output, countsPerLength: real, seqNo: nat, full: bool)
    requires countsPerLength > 0.0
    ensures var cols := Columns(o, countsPerLength, seqNo, full);
            && Lists(HeaderText(cols), Names(cols))
            && FrameText(cols) == "t" + Spaced(Values(cols)) + "\n"
  {
    hide Columns, ValueText, Lists, Named;
    var cols := Columns(o, countsPerLength, seqNo, full);
    AdapterColumnsAreNamed(o, countsPerLength, seqNo, full);
    SpacedAtMost(Names(cols));
    HeaderReadsIff(cols);
    forall i | 0 <= i < |cols| ensures |Values(cols)[i]| <= 11 {
      AdapterColumnsFit(o, countsPerLength, seqNo, full, i);
    }
    SpacedAtMost(Values(cols));
  }

  // So with this adapter the latest header before every frame lists exactly that
  // frame's columns, in every run.
  lemma AdapterIsSelfDescribing(m: Memory, ops: seq<Op>)
    requires Sized(m) && !m.ever
    requires forall i :: 0 <= i < |ops| && ops[i].Frame? ==> FromAdapter(ops[i].cols)
    requires ops != [] && ops[|ops| - 1].Frame?
    ensures var header := LatestHeader(m, ops);
            header.Some? && Lists(header.value, Names(ops[|ops| - 1].cols))
  {
    hide Columns, Lists, Named, LatestHeader, HeaderText;
    forall i | 0 <= i < |ops| && ops[i].Frame? ensures Small(ops[i].cols) {
      var o, countsPerLength, seqNo, full :|
        countsPerLength > 0.0 && ops[i].cols == Columns(o, countsPerLength, seqNo, full);
      AdapterColumnsAreNamed(o, countsPerLength, seqNo, full);
    }
    var cols := ops[|ops| - 1].cols;
    var o, countsPerLength, seqNo, full :| countsPerLength > 0.0 && cols == Columns(o, countsPerLength, seqNo, full);
    AdapterFramesFit(o, countsPerLength, seqNo, full);
    RunRecalls(m, ops);
  }

  lemma ValueIsShort(c: Column)
    requires INT32_MIN <= c.value <= INT32_MAX
    ensures |ValueText(c)| <= 11
  {
    if c.hex {
      assert Pow16(4) == 65536 && Pow16(8) == 0x1_0000_0000;
      HexGrows(c.value % 0x1_0000_0000, 8);
    } else {
      Uint32IsShort(if c.value < 0 then -c.value else c.value);
    }
  }
}
