// Configuration over the wire: the bytes of a SET line to the staged field, the
// bytes of a GET line to the text of it, and one after the other.
module WireConfig {
  import opened Options
  import opened Law
  import opened Tokens
  import opened Lines
  import opened Ascii
  import opened Verbs
  import opened Codec
  import opened Station
  import A = Adapter
  import C = ConfigText
  import E = EndToEnd
  import K = KernelCycle
  import R = Reliability

  // What a host can put between two spaces of one line.
  ghost predicate Token(t: string) { IsWord(t) && NUL !in t && LF !in t }

  // The robot after the bytes of one line.
  function Heard(s: Station, x: Context, line: string): Station { RespondAll(s, x, Judged(Segments(line + "\n"))) }

  // A line of words in its turn is answered by what the words decode to.
  lemma WordsInTurn(s: Station, x: Context, words: seq<string>, id: uint32, line: string)
    requires words != [] && forall t :: t in words ==> Token(t)
    requires !LowercaseLed(words[0]) && !Unsequenceable(words[0])
    requires line == Join(words + ["#" + Dec(id)]) && |line| < MAX_LINE_BYTES && s.expected == id
    ensures Heard(s, x, line) == InOrder(s, x, id, Decode(words[0], words[1..]))
  {
    hide Join, Dec, Decode, InOrder, SegmentsAt, Judge, Classify, ClassifyRaw;
    WordsDecode(words, id);
    LineOfWords(words, id);
    LfFree(words, id);
    OnlyLineIff(line);
    JudgedOne(line);
    ClassifiedShort(line);
    E.WordsAreHeard(line);
    RespondAllOne(s, x, Complete(Content(line)));
    ClassifiedSanely(Content(line));
  }

  lemma ClassifiedShort(line: string)
    requires |line| < MAX_LINE_BYTES
    ensures ClassifyRaw(line) == Classify(Content(line))
  {
  }

  lemma LfFree(words: seq<string>, id: nat)
    requires forall t :: t in words ==> Token(t)
    ensures LF !in Join(words + ["#" + Dec(id)])
  {
    hide Join, Dec;
    NoMarkInNumber(LF, id);
    var ts := words + ["#" + Dec(id)];
    InJoinIff(LF, ts);
    forall k | 0 <= k < |ts| ensures LF !in ts[k] {
      if k < |words| { assert ts[k] == words[k] && words[k] in words; }
    }
  }

  // ---- SET ---------------------------------------------------------------------------

  // Lower-case letters, underscores and points alone.
  ghost predicate Clean(s: string) {
    s != [] && forall i :: 0 <= i < |s| ==> 'a' <= s[i] <= 'z' || s[i] == '_' || s[i] == '.'
  }

  lemma WheelNameIsClean(field: A.Field)
    requires field.VMin? || field.BiasMax? || field.TauAdapt? || field.ASteady? || field.DeficitThreshold? ||
             field.DeficitWindow?
    ensures Clean(A.FieldName(field)) && |A.FieldName(field)| <= 32
  {
  }

  lemma LoopNameIsClean(field: A.Field)
    requires field.PidKp? || field.PidKi? || field.PidIMax? || field.PidKaff? || field.PidMax? ||
             field.PosErrMax? || field.StallSpeed? || field.StallDemand? || field.StallWindow?
    ensures Clean(A.FieldName(field)) && |A.FieldName(field)| <= 32
  {
  }

  lemma NameIsToken(field: A.Field)
    ensures Token(A.FieldName(field)) && |A.FieldName(field)| <= 32
  {
    hide A.FieldName;
    if field.VMin? || field.BiasMax? || field.TauAdapt? || field.ASteady? || field.DeficitThreshold? ||
       field.DeficitWindow? {
      WheelNameIsClean(field);
    } else {
      LoopNameIsClean(field);
    }
  }

  lemma TwoTextLine(verb: string, a: string, b: string, id: nat)
    requires IsWord(verb)
    ensures EncodeCommand(verb, [Text(a), Text(b)], Some(id)) == Some(Join([verb, a, b] + ["#" + Dec(id)]))
  {
    hide Dec, Join;
    OneFormatted(Text(a));
    assert [Text(a), Text(b)][..1] == [Text(a)];
    assert FormatFields([Text(a), Text(b)]) == Some([a] + [b]);
    assert [verb] + ([a] + [b]) + ["#" + Dec(id)] == [verb, a, b] + ["#" + Dec(id)];
  }

  lemma LengthOfThree(verb: string, a: string, b: string, id: nat)
    requires id <= UINT32_MAX
    ensures |Join([verb, a, b] + ["#" + Dec(id)])| <= |verb| + |a| + |b| + 14
  {
    hide Dec, Join;
    Uint32IsShort(id);
    JoinThree(a, b, "#" + Dec(id));
    JoinMore(verb, [a, b, "#" + Dec(id)]);
    assert [verb, a, b] + ["#" + Dec(id)] == [verb] + [a, b, "#" + Dec(id)];
  }

  // The bytes of SET, in their turn, with any text for a value. If the text is a
  // number the line is acked and the field named holds exactly that number, every
  // other field and the mailbox as before; if not, it is nacked with code 2, its id
  // stays expected, and nothing changes.
  lemma SetLine(s: Station, x: Context, field: A.Field, text: string, id: uint32, line: string)
    requires Token(text) && |line| < 240 && s.expected == id
    requires EncodeCommand("SET", [Text(A.FieldName(field)), Text(text)], Some(id)) == Some(line)
    ensures var t := Heard(s, x, line);
            match ParseFloat(text)
            case Some(v) =>
              && t.expected == (id + 1) % 0x1_0000_0000 && t.sink == s.sink + [Answer(R.Ack(id))]
              && A.Read(t.body.front.staged, field) == v
              && (forall other :: other != field ==>
                    A.Read(t.body.front.staged, other) == A.Read(s.body.front.staged, other))
              && t.body.front.command == s.body.front.command
            case None =>
              && t.expected == id && t.body == s.body
              && t.sink == s.sink + [Answer(R.Nack(id)), ErrLine(2, id)]
  {
    hide Join, Dec, EncodeCommand, ParseFloat, A.FieldName, Heard, A.SetSpec, A.Read;
    var name := A.FieldName(field);
    NameIsToken(field);
    TwoTextLine("SET", name, text, id);
    WordsInTurn(s, x, ["SET", name, text], id, line);
    assert ["SET", name, text][1..] == [name, text];
    match ParseFloat(text)
    case None =>
    case Some(v) =>
      A.SetThenGet(s.body.front, field, v, field);
      forall other | other != field
        ensures A.Read(A.SetSpec(s.body.front, name, v).0.staged, other) == A.Read(s.body.front.staged, other)
      {
        A.SetThenGet(s.body.front, field, v, other);
      }
      assert [Answer(R.Ack(id))] + [] + ErrIf(0, id) == [Answer(R.Ack(id))];
  }

  // With one decimal place: SET <name> <w>.<d> leaves w + d/10 in the field.
  lemma SetTenths(s: Station, x: Context, field: A.Field, w: nat, d: nat, id: uint32, line: string)
    requires d < 10 && w <= UINT32_MAX && s.expected == id
    requires EncodeCommand("SET", [Text(A.FieldName(field)), Text(Dec(w) + "." + [CharOf(d)])], Some(id)) == Some(line)
    ensures var t := Heard(s, x, line);
            t.sink == s.sink + [Answer(R.Ack(id))] &&
            A.Read(t.body.front.staged, field) == (10 * w + d) as real / 10.0
  {
    hide Dec, EncodeCommand, ParseFloat, A.FieldName, Heard, A.Read;
    C.ParsesTenths(w, d);
    Uint32IsShort(w);
    NumberIsToken(Dec(w) + "." + [CharOf(d)]);
    NameIsToken(field);
    LengthOfThree("SET", A.FieldName(field), Dec(w) + "." + [CharOf(d)], id);
    TwoTextLine("SET", A.FieldName(field), Dec(w) + "." + [CharOf(d)], id);
    SetLine(s, x, field, Dec(w) + "." + [CharOf(d)], id, line);
  }

  lemma NumberIsToken(s: string)
    requires s != [] && forall i :: 0 <= i < |s| ==> IsDigit(s[i]) || s[i] == '.' || IsSign(s[i])
    ensures Token(s)
  {
  }

  // ---- GET ---------------------------------------------------------------------------

  lemma GetInTurn(s: Station, x: Context, field: A.Field, id: uint32)
    ensures var t := InOrder(s, x, id, Get(Some(A.FieldName(field))));
            && t.expected == (id + 1) % 0x1_0000_0000 && t.body == s.body
            && t.sink == s.sink + [Answer(R.Ack(id)), GetLineOf(s.body.front.staged, field)]
  {
    hide GetField, GetLineOf, A.FieldName;
    GetFieldAnswers(s.body.front.staged, field);
    var got := GetLineOf(s.body.front.staged, field);
    assert [Answer(R.Ack(id))] + [got] + ErrIf(0, id) == [Answer(R.Ack(id)), got];
  }

  // The bytes of GET, in their turn: acked and answered; nothing changes.
  lemma GetLineAnswers(s: Station, x: Context, field: A.Field, id: uint32, line: string)
    requires s.expected == id && EncodeCommand("GET", [Text(A.FieldName(field))], Some(id)) == Some(line)
    ensures var t := Heard(s, x, line);
            && t.expected == (id + 1) % 0x1_0000_0000 && t.body == s.body
            && t.sink == s.sink + [Answer(R.Ack(id)), GetLineOf(s.body.front.staged, field)]
  {
    hide Join, Dec, EncodeCommand, A.FieldName, Heard, GetLineOf, InOrder;
    var name := A.FieldName(field);
    NameIsToken(field);
    OneTextLine("GET", name, id);
    JoinThree("GET", name, "#" + Dec(id));
    assert ["GET", name] + ["#" + Dec(id)] == ["GET", name, "#" + Dec(id)];
    Uint32IsShort(id);
    WordsInTurn(s, x, ["GET", name], id, line);
    assert ["GET", name][1..] == [name];
    GetInTurn(s, x, field, id);
  }

  // An answer under the field's name whose text reads back within half a millionth
  // of v, as long as the formatter can write v.
  ghost predicate Says(o: Outgoing, field: A.Field, v: real) {
    && o.GetLine? && o.name == A.FieldName(field)
    && ParseFloat(o.text).Some?
    && (-4294.0 <= v <= 4294.0 ==> -0.0000005 <= ParseFloat(o.text).value - v <= 0.0000005)
  }

  // A number SET over the wire is what the next GET says.
  lemma SetThenGetOverWire(s: Station, x: Context, field: A.Field, text: string, id: uint32,
                           setLine: string, getLine: string)
    requires Token(text) && |setLine| < 240 && s.expected == id && ParseFloat(text).Some?
    requires EncodeCommand("SET", [Text(A.FieldName(field)), Text(text)], Some(id)) == Some(setLine)
    requires EncodeCommand("GET", [Text(A.FieldName(field))], Some((id + 1) % 0x1_0000_0000)) == Some(getLine)
    ensures exists o :: Says(o, field, ParseFloat(text).value) &&
                        Heard(Heard(s, x, setLine), x, getLine).sink ==
                        s.sink + [Answer(R.Ack(id))] + [Answer(R.Ack((id + 1) % 0x1_0000_0000)), o]
  {
    hide EncodeCommand, A.FieldName, Heard, A.Read, C.Format, ParseFloat;
    var v := ParseFloat(text).value;
    SetLine(s, x, field, text, id, setLine);
    var held := Heard(s, x, setLine);
    GetLineAnswers(held, x, field, Next32(id), getLine);
    C.RoundTripAccuracy(v);
    assert Says(GetLineOf(held.body.front.staged, field), field, v);
  }
}
