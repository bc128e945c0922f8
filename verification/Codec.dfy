// The host's line codec (src/host/robot_v6/codec.py), and the round trips
// between it and the robot's decoders.
module Codec {
  import opened Options
  import opened Tokens
  import opened Lines
  import opened Ascii
  import opened Verbs
  import opened Reliability

  // A Python value passed as a field. A finite float's digits are Python's own
  // shortest form and are not modelled; it can be passed here as its text.
  datatype Field = Int(n: int) | Text(s: string) | Bool(b: bool) | NonFinite

  // None where the codec raises.
  function FormatField(f: Field): Option<string> {
    match f
    case Int(n) => Some(IntText(n))
    case Text(s) => Some(s)
    case Bool(_) => None
    case NonFinite => None
  }

  function FormatFields(fs: seq<Field>): (r: Option<seq<string>>)
    ensures r.Some? ==> |r.value| == |fs|
  {
    if fs == [] then Some([])
    else
      match FormatFields(fs[..|fs| - 1])
      case None => None
      case Some(ts) =>
        match FormatField(fs[|fs| - 1])
        case None => None
        case Some(t) => Some(ts + [t])
  }

  function EncodeCommand(verb: string, fields: seq<Field>, seqId: Option<int>): Option<string> {
    if verb == [] || ' ' in verb || FormatFields(fields).None? then None
    else
      var tokens := [verb] + FormatFields(fields).value;
      match seqId
      case None => Some(Join(tokens))
      case Some(id) => if id < 0 then None else Some(Join(tokens + ["#" + Dec(id)]))
  }

  // When encode_command raises: for a verb that is empty or holds a space, for a
  // boolean or a float that is not finite, and for a negative id.
  lemma EncodeRaisesIff(verb: string, fields: seq<Field>, seqId: Option<int>)
    ensures EncodeCommand(verb, fields, seqId).None? <==>
              || verb == [] || ' ' in verb || (seqId.Some? && seqId.value < 0)
              || exists i :: 0 <= i < |fields| && (fields[i].Bool? || fields[i].NonFinite?)
  {
    FormatRaisesIff(fields);
  }

  lemma {:induction false} FormatRaisesIff(fields: seq<Field>)
    ensures FormatFields(fields).None? <==> exists i :: 0 <= i < |fields| && (fields[i].Bool? || fields[i].NonFinite?)
  {
    if fields != [] {
      var init := fields[..|fields| - 1];
      FormatRaisesIff(init);
      assert forall i :: 0 <= i < |init| ==> init[i] == fields[i];
    }
  }

  datatype HostReply = HostReply(verb: string, fields: seq<string>, id: Option<nat>)

  // Raises on a blank line. Only ' ' separates here: the robot emits no other
  // white space inside a reply.
  function ParseReply(line: string): Option<HostReply> {
    var tokens := Split(line);
    if tokens == [] then None
    else
      var rest := tokens[1..];
      if rest != [] && rest[|rest| - 1] != [] && rest[|rest| - 1][0] == '#' && Digits(rest[|rest| - 1][1..]).Some?
      then Some(HostReply(tokens[0], rest[..|rest| - 1], Digits(rest[|rest| - 1][1..])))
      else Some(HostReply(tokens[0], rest, None))
  }

  // ---- the host's lines, read by the robot ------------------------------------------

  lemma {:induction false} JoinEnds(ts: seq<string>)
    requires |ts| >= 2
    ensures var s, last := Join(ts), ts[|ts| - 1];
            && |ts[0]| + 1 + |last| <= |s|
            && s[..|ts[0]|] == ts[0] && s[|ts[0]|] == ' '
            && s[|s| - |last|..] == last && s[|s| - |last| - 1] == ' '
    decreases |ts|
  {
    var s := Join(ts);
    assert s == ts[0] + " " + Join(ts[1..]);
    if |ts| > 2 {
      JoinEnds(ts[1..]);
      var rest, last := Join(ts[1..]), ts[|ts| - 1];
      assert s[|s| - |last|..] == rest[|rest| - |last|..];
      assert s[|s| - |last| - 1] == rest[|rest| - |last| - 1];
    }
  }

  lemma EndsOfJoin(ts: seq<string>)
    requires |ts| >= 2 && IsWord(ts[0]) && IsWord(ts[|ts| - 1])
    ensures var s := Join(ts);
            |Split(s)| >= 2 && Split(s)[0] == ts[0] && LastToken(s) == Some(ts[|ts| - 1])
  {
    JoinEnds(ts);
    WordsAtEnds(Join(ts), ts[0], ts[|ts| - 1]);
  }

  lemma WordsAtEnds(s: string, first: string, last: string)
    requires IsWord(first) && IsWord(last) && |first| + 1 + |last| <= |s|
    requires s[..|first|] == first && s[|first|] == ' '
    requires s[|s| - |last|..] == last && s[|s| - |last| - 1] == ' '
    ensures |Split(s)| >= 2 && Split(s)[0] == first && LastToken(s) == Some(last)
  {
    hide WordEnd;
    var p := |s| - |last|;
    assert forall k :: 0 <= k < |first| ==> s[k] == first[k] && first[k] in first;
    assert forall k :: p <= k < |s| ==> s[k] == last[k - p] && last[k - p] in last;
    WordEndIs(s, 0, |first|);
    LastTokenIs(s, |first|, p, |s|);
    assert s[0..|first|] == first && s[p..|s|] == last;
  }

  predicate Unsequenceable(verb: string) { verb == "HELLO" || verb == "ESTOP" || verb == "PING" }

  // A character neither the verb nor any text field holds.
  ghost predicate Free(c: char, verb: string, fields: seq<Field>) {
    c !in verb && forall i :: 0 <= i < |fields| && fields[i].Text? ==> c !in fields[i].s
  }

  lemma {:induction false} InJoinIff(c: char, ts: seq<string>)
    requires c != ' '
    ensures c in Join(ts) <==> exists k :: 0 <= k < |ts| && c in ts[k]
  {
    if |ts| > 1 {
      InJoinIff(c, ts[1..]);
      if k: nat :| k < |ts| && c in ts[k] { assert k > 0 ==> c in ts[1..][k - 1]; }
      assert forall k :: 0 <= k < |ts[1..]| ==> ts[1..][k] == ts[k + 1];
    }
  }

  lemma {:induction false} FormattedFields(fields: seq<Field>)
    requires FormatFields(fields).Some?
    ensures forall i :: 0 <= i < |fields| ==> FormatField(fields[i]) == Some(FormatFields(fields).value[i])
  {
    hide FormatField;
    if fields != [] {
      var init := fields[..|fields| - 1];
      FormattedFields(init);
      assert forall i :: 0 <= i < |init| ==> init[i] == fields[i];
    }
  }

  lemma NoMarkInNumber(c: char, n: int)
    requires c == LF || c == NUL
    ensures c !in IntText(n) && (n >= 0 ==> c !in "#" + Dec(n))
  {
    var s := if n < 0 then Dec(-n) else Dec(n);
    assert forall k :: 0 <= k < |s| ==> IsDigit(s[k]);
  }

  // A line holds an LF, or a NUL, exactly when its verb or one of its texts does.
  lemma MarkIsFromText(c: char, verb: string, fields: seq<Field>, id: nat)
    requires c == LF || c == NUL
    requires EncodeCommand(verb, fields, Some(id)).Some?
    ensures c in EncodeCommand(verb, fields, Some(id)).value <==> !Free(c, verb, fields)
  {
    hide Dec, IntText, Join, FormatFields;
    var texts := FormatFields(fields).value;
    var ts := [verb] + texts + ["#" + Dec(id)];
    InJoinIff(c, ts);
    FormattedFields(fields);
    NoMarkInNumber(c, id);
    assert ts[0] == verb && ts[|ts| - 1] == "#" + Dec(id);
    forall i | 0 <= i < |fields|
      ensures ts[i + 1] == texts[i] && (c in texts[i] <==> fields[i].Text? && c in fields[i].s)
    {
      assert FormatField(fields[i]) == Some(texts[i]);
      if fields[i].Int? { NoMarkInNumber(c, fields[i].n); }
    }
  }

  // The bytes send() writes are one line, its own, exactly when no text holds an
  // LF; and that line reads to its end exactly when none holds a NUL.
  lemma EncodedIsOneLineIff(verb: string, fields: seq<Field>, id: nat)
    requires EncodeCommand(verb, fields, Some(id)).Some?
    ensures var line := EncodeCommand(verb, fields, Some(id)).value;
            && (Segments(line + "\n") == [line] <==> Free(LF, verb, fields))
            && (UpToNul(line) == line <==> Free(NUL, verb, fields))
  {
    hide EncodeCommand, CutAt, SegmentsAt, UpToNul;
    var line := EncodeCommand(verb, fields, Some(id)).value;
    MarkIsFromText(LF, verb, fields, id);
    MarkIsFromText(NUL, verb, fields, id);
    NulFreeIff(line);
    OnlyLineIff(line);
  }

  lemma OnlyLineIff(line: string)
    ensures Segments(line + "\n") == [line] <==> LF !in line
  {
    hide CutAt, SegmentsAt;
    var s := line + "\n";
    assert s[|line|] == LF;
    FirstLine(s);
    var n := CutAt(s, 0);
    if LF !in line {
      OneLine(line, "");
      OneLine("", "");
      assert line + [LF] + "" == s && [line] + [] == [line];
    } else {
      assert LF !in s[..n];
      assert Segments(s)[0] == s[..n];
    }
  }

  function Mark(id: nat): string { "#" + Dec(id) }

  // Whatever send() puts on the wire without an LF or a NUL in its texts is one
  // line that either carries its own id or cannot be executed: the assumption
  // the sequence layer makes of its lines.
  lemma EncodedIsNumbered(verb: string, fields: seq<Field>, id: nat)
    requires !Unsequenceable(verb) && EncodeCommand(verb, fields, Some(id)).Some?
    requires Free(LF, verb, fields) && Free(NUL, verb, fields)
    ensures var line := EncodeCommand(verb, fields, Some(id)).value;
            Segments(line + "\n") == [line] && Numbered(ClassifyRaw(line), id)
  {
    hide FormatFields, Dec, Join, SegmentsAt, Free, UpToNul, ClassifyRaw;
    EncodedIsOneLineIff(verb, fields, id);
    EndsInItsId([verb] + FormatFields(fields).value, id);
  }

  // A line that ends in its id and starts with a verb of the sequence.
  lemma EndsInItsId(words: seq<string>, id: nat)
    requires words != [] && IsWord(words[0]) && !Unsequenceable(words[0])
    requires UpToNul(Join(words + [Mark(id)])) == Join(words + [Mark(id)])
    ensures Numbered(ClassifyRaw(Join(words + [Mark(id)])), id)
  {
    hide Decode, ParseIdDigits, Dec, Join, SplitAt, StartsAt, UpToNul;
    var ts := words + [Mark(id)];
    var line := Join(ts);
    IdIsWord(id);
    EndsOfJoin(ts);
    NoCrAtEnd(ts, id);
    IdRoundTrip(id);
  }

  lemma NoCrAtEnd(ts: seq<string>, id: nat)
    requires |ts| >= 2 && ts[|ts| - 1] == Mark(id)
    ensures StripCr(Join(ts)) == Join(ts)
  {
    hide Dec, Join;
    IdIsWord(id);
    JoinEnds(ts);
    var line, last := Join(ts), Mark(id);
    assert line[|line| - 1] == line[|line| - |last|..][|last| - 1];
  }

  // A line of words, NUL-free, that ends in an id reads as those words.
  lemma LineOfWords(words: seq<string>, id: nat)
    requires words != [] && forall t :: t in words ==> IsWord(t) && NUL !in t
    ensures var ts := words + ["#" + Dec(id)];
            Split(Join(ts)) == ts && LastToken(Join(ts)) == Some("#" + Dec(id)) && Content(Join(ts)) == Join(ts)
  {
    hide Join, SplitAt, StartsAt, Dec, UpToNul;
    var ts := words + ["#" + Dec(id)];
    IdIsWord(id);
    NoMarkInNumber(NUL, id);
    SplitOfJoin(ts);
    EndsOfJoin(ts);
    NoCrAtEnd(ts, id);
    InJoinIff(NUL, ts);
    NulFreeIff(Join(ts));
  }

  lemma WordsDecode(words: seq<string>, id: nat)
    requires words != [] && forall t :: t in words ==> IsWord(t) && NUL !in t
    requires !LowercaseLed(words[0]) && !Unsequenceable(words[0]) && id <= UINT32_MAX
    requires |Join(words + ["#" + Dec(id)])| < MAX_LINE_BYTES
    ensures var request := Decode(words[0], words[1..]);
            ClassifyRaw(Join(words + ["#" + Dec(id)])) == Sequenced(id, request, !request.Refused?)
  {
    hide Join, SplitAt, StartsAt, Dec, Decode, ParseIdDigits;
    var ts := words + ["#" + Dec(id)];
    LineOfWords(words, id);
    IdRoundTrip(id);
    assert DataFields(ts) == words[1..];
  }

  // An LF in a text forges a line: the first of the two lines this one call
  // writes is a RUN under any id k the text names, and is not the call's own.
  lemma LfForgesALine(k: nat, id: nat)
    requires k <= UINT32_MAX && id <= UINT32_MAX
    ensures var line := EncodeCommand("RUN", [Text("f " + Mark(k) + "\nSTOP")], Some(id));
            var forged, own := "RUN f " + Mark(k), "STOP " + Mark(id);
            && line == Some(forged + "\n" + own)
            && Segments(line.value + "\n") == [forged, own]
            && ClassifyRaw(forged) == Sequenced(k, Run("f", []), true)
            && ClassifyRaw(own) == Sequenced(id, Stop(false), true)
  {
    hide EncodeCommand, SegmentsAt, ClassifyRaw, Dec;
    var forged, own := "RUN f " + Mark(k), "STOP " + Mark(id);
    OneTextLine("RUN", "f " + Mark(k) + "\nSTOP", id);
    assert "RUN" + " " + ("f " + Mark(k) + "\nSTOP") + " " + Mark(id) == forged + "\n" + own;
    ForgedRuns(k);
    OwnStops(id);
    TwoLines(forged, own);
  }

  lemma ForgedRuns(k: nat)
    requires k <= UINT32_MAX
    ensures LF !in "RUN f " + Mark(k)
    ensures ClassifyRaw("RUN f " + Mark(k)) == Sequenced(k, Run("f", []), true)
  {
    hide Dec, Join, ClassifyRaw;
    NoMarkInNumber(LF, k);
    Uint32IsShort(k);
    JoinThree("RUN", "f", Mark(k));
    assert "RUN" + " " + "f" + " " + Mark(k) == "RUN f " + Mark(k);
    assert ["RUN", "f"] + ["#" + Dec(k)] == ["RUN", "f", Mark(k)];
    WordsDecode(["RUN", "f"], k);
    assert ["RUN", "f"][1..] == ["f"] && ["f"][1..] == [];
  }

  lemma OwnStops(id: nat)
    requires id <= UINT32_MAX
    ensures LF !in "STOP " + Mark(id)
    ensures ClassifyRaw("STOP " + Mark(id)) == Sequenced(id, Stop(false), true)
  {
    hide Dec, Join, ClassifyRaw;
    NoMarkInNumber(LF, id);
    Uint32IsShort(id);
    JoinTwo("STOP", Mark(id));
    assert "STOP" + " " + Mark(id) == "STOP " + Mark(id);
    assert ["STOP"] + ["#" + Dec(id)] == ["STOP", Mark(id)];
    WordsDecode(["STOP"], id);
  }

  lemma JoinTwo(a: string, b: string)
    ensures Join([a, b]) == a + " " + b
  {
    assert [a, b][1..] == [b];
  }

  lemma JoinThree(a: string, b: string, c: string)
    ensures Join([a, b, c]) == a + " " + b + " " + c
  {
    hide Join;
    JoinTwo(b, c);
    JoinMore(a, [b, c]);
    assert [a] + [b, c] == [a, b, c];
    assert a + " " + (b + " " + c) == a + " " + b + " " + c;
  }

  lemma JoinMore(a: string, ts: seq<string>)
    requires ts != []
    ensures Join([a] + ts) == a + " " + Join(ts)
  {
    assert ([a] + ts)[1..] == ts;
  }

  lemma OneTextLine(verb: string, text: string, id: nat)
    requires IsWord(verb)
    ensures EncodeCommand(verb, [Text(text)], Some(id)) == Some(verb + " " + text + " " + Mark(id))
  {
    hide Dec, Join;
    OneFormatted(Text(text));
    JoinThree(verb, text, Mark(id));
    assert [verb] + [text] + [Mark(id)] == [verb, text, Mark(id)];
  }

  lemma OneFormatted(f: Field)
    requires FormatField(f).Some?
    ensures FormatFields([f]) == Some([FormatField(f).value])
  {
    assert [f][..0] == [];
    assert FormatFields([f][..0]) == Some([]);
    assert [] + [FormatField(f).value] == [FormatField(f).value];
  }

  lemma TwoLines(a: string, b: string)
    requires LF !in a && LF !in b
    ensures Segments(a + "\n" + b + "\n") == [a, b]
  {
    hide CutAt, SegmentsAt;
    OneLine(a, b + "\n");
    OneLine(b, "");
    OneLine("", "");
    assert a + "\n" + b + "\n" == a + [LF] + (b + "\n") && b + "\n" == b + [LF] + "";
  }

  lemma IdIsWord(id: nat)
    ensures IsWord("#" + Dec(id)) && ("#" + Dec(id))[|Dec(id)|] != CR
  {
    var t := "#" + Dec(id);
    assert t[1..] == Dec(id);
    NoSpace(t);
    assert t[|Dec(id)|] == Dec(id)[|Dec(id)| - 1];
    assert IsDigit(Dec(id)[|Dec(id)| - 1]);
  }

  function IntFields(ns: seq<int>): (fs: seq<Field>)
    ensures |fs| == |ns|
  {
    seq(|ns|, i requires 0 <= i < |ns| => Int(ns[i]))
  }

  function IntTexts(ns: seq<int>): (ts: seq<string>)
    ensures |ts| == |ns| && forall i :: 0 <= i < |ns| ==> ts[i] == IntText(ns[i])
  {
    seq(|ns|, i requires 0 <= i < |ns| => IntText(ns[i]))
  }

  lemma {:induction false} IntFieldsFormat(ns: seq<int>)
    ensures FormatFields(IntFields(ns)) == Some(IntTexts(ns))
  {
    if ns != [] {
      var init := ns[..|ns| - 1];
      IntFieldsFormat(init);
      assert IntFields(ns)[..|ns| - 1] == IntFields(init);
      assert IntTexts(ns) == IntTexts(init) + [IntText(ns[|ns| - 1])];
    }
  }

  predicate IsInt32(n: int) { INT32_MIN <= n <= INT32_MAX }

  predicate AllInt32(ns: seq<int>) { forall i :: 0 <= i < |ns| ==> IsInt32(ns[i]) }

  lemma {:induction false} IntsDecode(ns: seq<int>)
    ensures ParseInts(IntTexts(ns)) == if AllInt32(ns) then Some(ns) else None
  {
    hide ParseInt32, IntText, IsInt32;
    if ns != [] {
      var init, last := ns[..|ns| - 1], ns[|ns| - 1];
      IntsDecode(init);
      assert IntTexts(ns)[..|ns| - 1] == IntTexts(init);
      assert ParseInt32(IntText(last)) == if IsInt32(last) then Some(last) else None by { OneIntDecodes(last); }
      assert ns == init + [last];
      if AllInt32(init) && IsInt32(last) {
        assert AllInt32(ns);
      }
      if AllInt32(ns) {
        assert AllInt32(init) by { assert forall i :: 0 <= i < |init| ==> init[i] == ns[i]; }
      }
    }
  }

  lemma OneIntDecodes(n: int)
    ensures ParseInt32(IntText(n)) == if IsInt32(n) then Some(n) else None
  {
    Int32RoundTrip(n);
  }

  lemma IntTextIsWord(n: int)
    ensures IsWord(IntText(n))
  {
    var s := if n < 0 then Dec(-n) else Dec(n);
    forall c | c in IntText(n) ensures c != ' ' {
      var k :| 0 <= k < |IntText(n)| && IntText(n)[k] == c;
      if n < 0 && k > 0 { assert IsDigit(s[k - 1]); } else if n >= 0 { assert IsDigit(s[k]); }
    }
  }

  // The tokens of an all-integer command.
  function CommandTokens(verb: string, ns: seq<int>, id: nat): seq<string> {
    [verb] + IntTexts(ns) + ["#" + Dec(id)]
  }

  lemma IntCommandTokens(verb: string, ns: seq<int>, id: nat)
    requires IsWord(verb) && NUL !in verb
    ensures EncodeCommand(verb, IntFields(ns), Some(id)) == Some(Join(CommandTokens(verb, ns, id)))
    ensures Split(Join(CommandTokens(verb, ns, id))) == CommandTokens(verb, ns, id)
    ensures LastToken(Join(CommandTokens(verb, ns, id))) == Some("#" + Dec(id))
    ensures Content(Join(CommandTokens(verb, ns, id))) == Join(CommandTokens(verb, ns, id))
  {
    hide Join, SplitAt, StartsAt, Dec, IntText;
    IntFieldsFormat(ns);
    var words := [verb] + IntTexts(ns);
    forall t | t in words ensures IsWord(t) && NUL !in t {
      var k :| 0 <= k < |words| && words[k] == t;
      if k > 0 { IntTextIsWord(ns[k - 1]); NoMarkInNumber(NUL, ns[k - 1]); }
    }
    LineOfWords(words, id);
  }

  // An integer command within the line cap decodes, unchanged, exactly when its
  // values fit their fields; its id arrives whatever they are.
  lemma IntCommandDecodes(verb: string, ns: seq<int>, last: int, id: nat)
    requires IsWord(verb) && NUL !in verb && !LowercaseLed(verb) && !Unsequenceable(verb) && id <= UINT32_MAX
    requires |Join(CommandTokens(verb, ns + [last], id))| < MAX_LINE_BYTES
    ensures var p := ClassifyRaw(Join(CommandTokens(verb, ns + [last], id)));
            && p.Sequenced? && p.id == id
            && p.payload == Decode(verb, IntTexts(ns + [last])) && p.decodes == !p.payload.Refused?
    ensures IntsThenUint(IntTexts(ns + [last]), |ns| + 1) ==
            if AllInt32(ns) && 0 <= last <= UINT32_MAX then Some((ns, last)) else None
  {
    hide Join, SplitAt, StartsAt, Dec, IntText, Decode, ParseInt32, ParseUint32, ParseIdDigits, ClassifyRaw;
    var words := [verb] + IntTexts(ns + [last]);
    forall t | t in words ensures IsWord(t) && NUL !in t {
      var k :| 0 <= k < |words| && words[k] == t;
      if k > 0 { IntTextIsWord((ns + [last])[k - 1]); NoMarkInNumber(NUL, (ns + [last])[k - 1]); }
    }
    assert words + ["#" + Dec(id)] == CommandTokens(verb, ns + [last], id);
    WordsDecode(words, id);
    assert words[1..] == IntTexts(ns + [last]);
    IntsDecode(ns);
    Uint32RoundTrip(last);
    assert IntTexts(ns + [last])[..|ns|] == IntTexts(ns);
  }

  lemma WheelsVRoundTrip(left: int, right: int, duration: int, id: nat)
    requires id <= UINT32_MAX
    requires AllInt32([left, right]) && 0 <= duration <= UINT32_MAX
    ensures var encoded := EncodeCommand("WHEELS_V", [Int(left), Int(right), Int(duration)], Some(id));
            && encoded.Some? && |encoded.value| < MAX_LINE_BYTES
            && ClassifyRaw(encoded.value) == Sequenced(id, WheelsV(left, right, duration), true)
  {
    hide Join, SplitAt, StartsAt, Dec, IntText, ParseInt32, ParseUint32, ParseIdDigits, ClassifyRaw, IntsThenUint;
    var ns := [left, right];
    assert ns + [duration] == [left, right, duration];
    assert IntFields(ns + [duration]) == [Int(left), Int(right), Int(duration)];
    IntCommandTokens("WHEELS_V", ns + [duration], id);
    IntCommandIsShort("WHEELS_V", ns, duration, id);
    IntCommandDecodes("WHEELS_V", ns, duration, id);
  }

  lemma MotionRoundTrip(verb: string, ns: seq<int>, timeout: int, id: nat)
    requires id <= UINT32_MAX
    requires || (|ns| == 3 && (verb == "WHEELS_X" || verb == "MOVE_X"))
             || (|ns| == 2 && verb == "MOVE_V")
             || (|ns| == 4 && (verb == "GO_TO_R" || verb == "GO_TO_W"))
    requires AllInt32(ns) && 0 <= timeout <= UINT32_MAX
    ensures var encoded := EncodeCommand(verb, IntFields(ns + [timeout]), Some(id));
            && encoded.Some? && |encoded.value| < MAX_LINE_BYTES
            && ClassifyRaw(encoded.value) == Sequenced(id, Motion(verb, ns, timeout), true)
  {
    hide Join, SplitAt, StartsAt, Dec, IntText, ParseInt32, ParseUint32, ParseIdDigits, ClassifyRaw, IntsThenUint;
    IntCommandTokens(verb, ns + [timeout], id);
    IntCommandIsShort(verb, ns, timeout, id);
    IntCommandDecodes(verb, ns, timeout, id);
  }

  // A RUN of words within the cap decodes to its name and all its arguments, up to 16
  // of them; with more it does not decode.
  lemma RunDecodes(name: string, args: seq<string>, id: nat)
    requires id <= UINT32_MAX && forall t :: t in ["RUN", name] + args ==> IsWord(t) && NUL !in t
    requires |Join(["RUN", name] + args + ["#" + Dec(id)])| < MAX_LINE_BYTES
    ensures ClassifyRaw(Join(["RUN", name] + args + ["#" + Dec(id)])) ==
            if |args| <= 16 then Sequenced(id, Run(name, args), true) else Sequenced(id, Refused(2), false)
  {
    hide Join, Dec, ClassifyRaw;
    var words := ["RUN", name] + args;
    WordsDecode(words, id);
    assert words[0] == "RUN" && words[1..] == [name] + args;
    assert ([name] + args)[1..] == args;
  }

  // Without an id: the verbs outside the sequence go out as they are.
  lemma BareVerbEncodes(verb: string)
    requires IsWord(verb)
    ensures EncodeCommand(verb, [], None) == Some(verb)
  {
    assert [verb] + [] == [verb];
  }

  lemma Int32IsShort(n: int)
    requires INT32_MIN <= n <= INT32_MAX
    ensures |IntText(n)| <= 11
  {
    Uint32IsShort(if n < 0 then -n else n);
  }

  function TotalLength(ts: seq<string>): nat {
    if ts == [] then 0 else |ts[0]| + TotalLength(ts[1..])
  }

  lemma {:induction false} JoinLength(ts: seq<string>)
    requires ts != []
    ensures |Join(ts)| == TotalLength(ts) + |ts| - 1
  {
    if |ts| > 1 { JoinLength(ts[1..]); }
  }

  lemma {:induction false} TotalBounded(ts: seq<string>)
    requires forall i :: 0 <= i < |ts| ==> |ts[i]| <= 11
    ensures TotalLength(ts) <= 11 * |ts|
  {
    if ts != [] { TotalBounded(ts[1..]); }
  }

  lemma IntCommandIsShort(verb: string, ns: seq<int>, last: int, id: nat)
    requires |verb| <= 11 && |ns| <= 4 && AllInt32(ns) && 0 <= last <= UINT32_MAX && id <= UINT32_MAX
    ensures |Join(CommandTokens(verb, ns + [last], id))| < MAX_LINE_BYTES
  {
    hide Join, TotalLength, IntText, Dec;
    var ts := CommandTokens(verb, ns + [last], id);
    Uint32IsShort(id);
    assert IntText(last) == Dec(last) by { NonNegativeText(last); }
    Uint32IsShort(last);
    forall k | 0 <= k < |ts| ensures |ts[k]| <= 11 {
      if 0 < k <= |ns| { Int32IsShort(ns[k - 1]); }
    }
    JoinLength(ts);
    TotalBounded(ts);
  }

  lemma NonNegativeText(n: nat)
    ensures IntText(n) == Dec(n)
  {
  }

  // ---- the robot's replies, read by the host --------------------------------------------

  // replyAck and replyNack; `done` and `reason` are the adapter's.
  function ReplyTokens(r: Reply, done: nat, reason: string): seq<string> {
    [if r.Ack? then "ack" else "nack", Dec(r.n), Dec(done), reason]
  }

  function ReplyText(r: Reply, done: nat, reason: string): string { Join(ReplyTokens(r, done, reason)) }

  // What _handle_reply acts on: the verb and the bare integer after it.
  function Heeded(line: string): Option<Reply> {
    match ParseReply(line)
    case None => None
    case Some(r) =>
      if r.fields == [] || Digits(r.fields[0]).None? then None
      else if r.verb == "ack" then Some(Ack(Digits(r.fields[0]).value))
      else if r.verb == "nack" then Some(Nack(Digits(r.fields[0]).value))
      else None
  }

  predicate Reason(s: string) {
    s == "none" || s == "stop" || s == "timeout" || s == "estop" || s == "aborted"
  }

  lemma DecIsWord(n: nat)
    ensures IsWord(Dec(n)) && Digits(Dec(n)) == Some(n)
  {
    ValueOfDec(n);
    IntTextIsWord(n);
  }

  // A reply under an id, an `err` say, is read with its fields and its id apart.
  lemma TaggedReplyReads(verb: string, fields: seq<string>, id: nat)
    requires forall t :: t in [verb] + fields ==> IsWord(t)
    ensures ParseReply(Join([verb] + fields + ["#" + Dec(id)])) == Some(HostReply(verb, fields, Some(id)))
  {
    hide Join, SplitAt, Dec, Digits;
    var ts := [verb] + fields + ["#" + Dec(id)];
    IdIsWord(id);
    DecIsWord(id);
    SplitOfJoin(ts);
    var rest := ts[1..];
    assert rest == fields + ["#" + Dec(id)] && rest[..|rest| - 1] == fields;
    assert ("#" + Dec(id))[1..] == Dec(id);
  }

  // An ack or nack means to the host exactly what the robot meant, and carries
  // the completion pair beside it.
  lemma ReplyRoundTrip(r: Reply, done: nat, reason: string)
    requires Reason(reason)
    ensures Heeded(ReplyText(r, done, reason)) == Some(r)
    ensures ParseReply(ReplyText(r, done, reason)).value.fields == [Dec(r.n), Dec(done), reason]
  {
    hide Join, SplitAt, Dec, Digits;
    var ts := ReplyTokens(r, done, reason);
    DecIsWord(r.n);
    DecIsWord(done);
    assert forall t :: t in ts ==> IsWord(t);
    SplitOfJoin(ts);
    assert ts[1..] == [Dec(r.n), Dec(done), reason];
  }
}
