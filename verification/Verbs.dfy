// What one complete line says to the robot: dispatch() and the decode half of
// the command table (src/protocol/protocol_handler.cpp), as functions of the
// line alone. Deciding what to do about the id is the state machine's part.
module Verbs {
  import opened Options
  import opened Tokens
  import opened Lines
  import opened Ascii
  import opened Law
  import opened Adapter
  import opened Reliability

  datatype Request =
    | WheelsV(left: int, right: int, duration: uint32)
    | Motion(verb: string, ints: seq<int>, timeout: uint32) // WHEELS_X MOVE_X MOVE_V GO_TO_R GO_TO_W
    | Get(which: Option<string>)
    | Set(name: string, value: real)
    | Tlm(mode: TlmMode)
    | Stop(immediate: bool)
    | Run(name: string, args: seq<string>)
    | Query(verb: string)                                // ID VER STATUS HELP FUNCS
    | Refused(code: nat)                                 // does not decode

  const UNKNOWN: nat := 1
  const BAD_ARG: nat := 2
  const MAX_FIELD_TOKENS: nat := 20
  const MAX_RUN_ARGS: nat := 16

  // ---- decoding --------------------------------------------------------------------

  function ParseInts(fields: seq<string>): Option<seq<int>> {
    if fields == [] then Some([])
    else
      match ParseInts(fields[..|fields| - 1])
      case None => None
      case Some(ns) =>
        match ParseInt32(fields[|fields| - 1])
        case None => None
        case Some(n) => Some(ns + [n])
  }

  // Signed fields, then one unsigned.
  function IntsThenUint(fields: seq<string>, arity: nat): Option<(seq<int>, uint32)> {
    if |fields| != arity || arity == 0 then None
    else
      match ParseInts(fields[..arity - 1])
      case None => None
      case Some(ns) =>
        match ParseUint32(fields[arity - 1])
        case None => None
        case Some(u) => Some((ns, u))
  }

  // The number of fields of the planner verbs; 0 for any other.
  function MotionArity(verb: string): nat {
    if verb == "WHEELS_X" || verb == "MOVE_X" then 4
    else if verb == "MOVE_V" then 3
    else if verb == "GO_TO_R" || verb == "GO_TO_W" then 5
    else 0
  }

  function ParseTlmMode(s: string): Option<TlmMode> {
    if s == "OFF" then Some(Off)
    else if s == "POSE" then Some(Pose)
    else if s == "FULL" then Some(FullRate)
    else if s == "NOW" then Some(Now)
    else if s == "AUTO" then Some(Auto)
    else if s == "BUFFER" then Some(TlmMode.Buffer)
    else if s == "HDR" then Some(Hdr)
    else None
  }

  predicate IsQuery(verb: string) {
    verb == "ID" || verb == "VER" || verb == "STATUS" || verb == "HELP" || verb == "FUNCS"
  }

  function Decode(verb: string, fields: seq<string>): Request {
    if IsQuery(verb) then (if fields == [] then Query(verb) else Refused(BAD_ARG))
    else if verb == "GET" then
      if |fields| > 1 then Refused(BAD_ARG) else Get(if fields == [] then None else Some(fields[0]))
    else if verb == "SET" then
      if |fields| != 2 || ParseFloat(fields[1]).None? then Refused(BAD_ARG)
      else Set(fields[0], ParseFloat(fields[1]).value)
    else if verb == "TLM" then
      if |fields| != 1 || ParseTlmMode(fields[0]).None? then Refused(BAD_ARG)
      else Tlm(ParseTlmMode(fields[0]).value)
    else if verb == "WHEELS_V" then
      match IntsThenUint(fields, 3)
      case None => Refused(BAD_ARG)
      case Some((ns, duration)) => if |ns| == 2 then WheelsV(ns[0], ns[1], duration) else Refused(BAD_ARG)
    else if MotionArity(verb) > 0 then
      match IntsThenUint(fields, MotionArity(verb))
      case None => Refused(BAD_ARG)
      case Some((ns, timeout)) => Motion(verb, ns, timeout)
    else if verb == "STOP" then
      if fields == [] then Stop(false) else if fields == ["now"] then Stop(true) else Refused(BAD_ARG)
    else if verb == "RUN" then
      if fields == [] || |fields| > MAX_FIELD_TOKENS - 1 || |fields| - 1 > MAX_RUN_ARGS then Refused(BAD_ARG)
      else Run(fields[0], fields[1..])
    else Refused(UNKNOWN)
  }

  // Every pointer an accepted line's fields are read through was stored: the
  // verb and the fields fit the fixed token array.
  lemma DecodedFieldsAreStored(verb: string, fields: seq<string>)
    requires !Decode(verb, fields).Refused?
    ensures 1 + |fields| <= MAX_FIELD_TOKENS
  {
  }

  predicate Planned(verb: string) {
    verb == "WHEELS_X" || verb == "MOVE_X" || verb == "MOVE_V" || verb == "GO_TO_R" || verb == "GO_TO_W"
  }

  predicate Known(verb: string) {
    || verb == "ID" || verb == "VER" || verb == "STATUS" || verb == "HELP" || verb == "FUNCS"
    || verb == "GET" || verb == "SET" || verb == "TLM" || verb == "WHEELS_V" || Planned(verb)
    || verb == "STOP" || verb == "RUN"
  }

  // How many fields each verb takes.
  predicate Takes(verb: string, n: nat) {
    && (verb == "GET" || verb == "STOP" ==> n <= 1)
    && (verb == "SET" ==> n == 2)
    && (verb == "TLM" ==> n == 1)
    && (verb == "WHEELS_V" || verb == "MOVE_V" ==> n == 3)
    && (verb == "WHEELS_X" || verb == "MOVE_X" ==> n == 4)
    && (verb == "GO_TO_R" || verb == "GO_TO_W" ==> n == 5)
    && (verb == "RUN" ==> 1 <= n <= 17)
    && (verb == "ID" || verb == "VER" || verb == "STATUS" || verb == "HELP" || verb == "FUNCS" ==> n == 0)
  }

  // What does not decode is refused with code 1 if the verb is unknown and with
  // code 2 otherwise; a verb never decodes with another number of fields than its
  // own.
  lemma RefusalCodes(verb: string, fields: seq<string>)
    ensures Decode(verb, fields) == Refused(1) <==> !Known(verb)
    ensures Decode(verb, fields).Refused? && Known(verb) ==> Decode(verb, fields).code == 2
    ensures Known(verb) && !Takes(verb, |fields|) ==> Decode(verb, fields) == Refused(2)
  {
    hide ParseInts, ParseInt32, ParseUint32, ParseFloat, ParseTlmMode;
  }

  // The words of TLM, and no others.
  lemma TlmWords(word: string)
    ensures Decode("TLM", ["OFF"]) == Tlm(Off) && Decode("TLM", ["POSE"]) == Tlm(Pose)
    ensures Decode("TLM", ["FULL"]) == Tlm(FullRate) && Decode("TLM", ["NOW"]) == Tlm(Now)
    ensures Decode("TLM", ["AUTO"]) == Tlm(Auto) && Decode("TLM", ["BUFFER"]) == Tlm(TlmMode.Buffer)
    ensures Decode("TLM", ["HDR"]) == Tlm(Hdr)
    ensures !Decode("TLM", [word]).Refused? ==>
              || word == "OFF" || word == "POSE" || word == "FULL" || word == "NOW"
              || word == "AUTO" || word == "BUFFER" || word == "HDR"
  {
  }

  // ---- classifying -----------------------------------------------------------------

  predicate LowercaseLed(verb: string) { verb != [] && 'a' <= verb[0] <= 'z' }

  // Data fields are what stands between the verb and the id.
  function DataFields(tokens: seq<string>): seq<string> {
    if |tokens| >= 2 then tokens[1..|tokens| - 1] else []
  }

  function ClassifyTokens(tokens: seq<string>, last: Option<string>): Packet<Request>
    requires tokens != []
  {
    var verb := tokens[0];
    if LowercaseLed(verb) || verb == "ESTOP" || verb == "PING" then Unsequenced
    else if verb == "HELLO" then (if |tokens| == 1 then Hello else Unsequenced)
    else
      match ParseMandatoryId(last)
      case None => Unsequenced
      case Some(id) =>
        var request := Decode(verb, DataFields(tokens));
        Sequenced(id, request, !request.Refused?)
  }

  // The last token, when dispatch() is handed one.
  function LastToken(content: string): Option<string> {
    if LastField(content).None? || Split(content) == [] then None
    else Some(Split(content)[|Split(content)| - 1])
  }

  function Classify(content: string): Packet<Request> {
    if Split(content) == [] then Unsequenced else ClassifyTokens(Split(content), LastToken(content))
  }

  // A raw line, as it stood between two LFs.
  function ClassifyRaw(raw: string): Packet<Request> {
    if |raw| >= MAX_LINE_BYTES then Unsequenced else Classify(Content(raw))
  }

  // Lines the malformed counter counts, given the id expected next.
  predicate CountsMalformed(content: string, expected: nat) {
    Split(content) != [] &&
    var verb := Split(content)[0];
    !LowercaseLed(verb) && verb != "ESTOP" && verb != "PING" &&
    if verb == "HELLO" then |Split(content)| != 1
    else
      match ParseMandatoryId(LastToken(content))
      case None => true
      case Some(id) => id == expected && Decode(verb, DataFields(Split(content))).Refused?
  }

  predicate IsId(token: string) { ParseMandatoryId(Some(token)).Some? }

  // Extra spaces never change what a line says, but for one form: a line that is
  // nothing but an id, which only counts as an id when spaces stand before it.
  lemma SpacesOnlyMatterToABareId(s: string)
    requires Split(s) != []
    ensures Classify(s) == Classify(Join(Split(s))) <==> !(|Split(s)| == 1 && s[0] == ' ' && IsId(Split(s)[0]))
  {
    hide SplitAt, StartsAt, Decode, ParseMandatoryId;
    NormalizationKeepsTokens(s);
    IdIsNoVerb(Split(s)[0]);
  }

  lemma IdIsNoVerb(token: string)
    ensures IsId(token) ==> token != [] && token[0] == '#'
    ensures ParseMandatoryId(None).None?
  {
  }

  lemma BareIdSaysTwoThings(id: nat)
    requires id <= UINT32_MAX
    ensures Classify("#" + Dec(id)) == Unsequenced
    ensures Classify(" #" + Dec(id)) == Sequenced(id, Refused(UNKNOWN), false)
  {
    hide Dec, ParseMandatoryId, Decode, WordEnd;
    var t := "#" + Dec(id);
    IdRoundTrip(id);
    IdIsNoVerb(t);
    NoSpace(t);
    SplitOfJoin([t]);
    assert Join([t]) == t;
    var s := " #" + Dec(id);
    assert s == " " + t;
    SplitOfSuffix(" ", t, 0);
    assert Split(s) == [t];
    FieldIff(s);
    FieldIff(t);
    NoVerbStartsWithHash(t, []);
  }

  lemma NoVerbStartsWithHash(verb: string, fields: seq<string>)
    requires verb != [] && verb[0] == '#'
    ensures Decode(verb, fields) == Refused(UNKNOWN)
  {
  }

  lemma NoSpace(t: string)
    requires t != [] && t[0] == '#' && AllDigits(t[1..])
    ensures IsWord(t)
  {
    forall c | c in t ensures c != ' ' {
      var k :| 0 <= k < |t| && t[k] == c;
      if k > 0 { assert IsDigit(t[1..][k - 1]); }
    }
  }
}
