// Reassembling a byte stream into lines: what a whole history of bytes means,
// whatever blocks it arrived in. The robot's reassembler (onLineComplete of
// src/protocol/protocol_handler.cpp) caps a line at 239 content bytes, strips
// one CR and drops blank lines; the host's (src/host/robot_v6/transport.py)
// makes the same split with no cap and keeps the blanks.
module Lines {
  import opened Tokens

  const LF: char := '\n'
  const CR: char := '\r'

  // kMaxLineBytes counts the terminator.
  const MAX_LINE_BYTES: nat := 240

  // ---- the split ----------------------------------------------------------------

  // The index of the first LF from i on, or the length.
  function CutAt(s: string, i: nat): (n: nat)
    requires i <= |s|
    ensures i <= n <= |s| && forall k :: i <= k < n ==> s[k] != LF
    ensures n < |s| ==> s[n] == LF
    decreases |s| - i
  {
    if i == |s| || s[i] == LF then i else CutAt(s, i + 1)
  }

  // The complete lines from i on, without their LF, and what follows the last.
  function SegmentsAt(s: string, i: nat): seq<string>
    requires i <= |s|
    decreases |s| - i
  {
    if CutAt(s, i) == |s| then [] else [s[i..CutAt(s, i)]] + SegmentsAt(s, CutAt(s, i) + 1)
  }

  function TailAt(s: string, i: nat): (t: string)
    requires i <= |s|
    ensures LF !in t
    decreases |s| - i
  {
    if CutAt(s, i) == |s| then s[i..] else TailAt(s, CutAt(s, i) + 1)
  }

  function Segments(s: string): seq<string> { SegmentsAt(s, 0) }

  function Tail(s: string): (t: string)
    ensures LF !in t
  {
    TailAt(s, 0)
  }

  lemma CutIs(s: string, i: nat, n: nat)
    requires i <= n <= |s| && (forall k :: i <= k < n ==> s[k] != LF) && (n < |s| ==> s[n] == LF)
    ensures CutAt(s, i) == n
  {
  }

  lemma {:induction false} SplitOfLaterPart(a: string, b: string, i: nat)
    requires i <= |b|
    ensures SegmentsAt(a + b, |a| + i) == SegmentsAt(b, i) && TailAt(a + b, |a| + i) == TailAt(b, i)
    decreases |b| - i
  {
    hide CutAt;
    var n := CutAt(b, i);
    CutIs(a + b, |a| + i, |a| + n);
    if n < |b| {
      SplitOfLaterPart(a, b, n + 1);
      assert (a + b)[|a| + i..|a| + n] == b[i..n];
    } else {
      assert (a + b)[|a| + i..] == b[i..];
    }
  }

  // The first line, when there is one.
  lemma FirstLine(s: string)
    ensures var n := CutAt(s, 0);
            && (n < |s| ==> Segments(s) == [s[..n]] + Segments(s[n + 1..]) && Tail(s) == Tail(s[n + 1..]))
            && (n == |s| ==> Segments(s) == [] && Tail(s) == s)
  {
    hide CutAt;
    var n := CutAt(s, 0);
    if n < |s| {
      assert s == s[..n + 1] + s[n + 1..];
      SplitOfLaterPart(s[..n + 1], s[n + 1..], 0);
      assert s[0..n] == s[..n];
    } else {
      assert s[0..] == s;
    }
  }

  // An LF-free prefix goes to the first line.
  lemma OneLine(t: string, rest: string)
    requires LF !in t
    ensures Segments(t + [LF] + rest) == [t] + Segments(rest) && Tail(t + [LF] + rest) == Tail(rest)
    ensures Segments(t) == [] && Tail(t) == t
  {
    hide CutAt, SegmentsAt, TailAt;
    assert forall k :: 0 <= k < |t| ==> t[k] in t;
    var s := t + [LF] + rest;
    CutIs(s, 0, |t|);
    FirstLine(s);
    assert s[..|t|] == t && s[|t| + 1..] == rest;
    CutIs(t, 0, |t|);
    FirstLine(t);
  }

  // Splitting a + b is splitting a, then carrying its tail into b.
  lemma {:induction false} SplitCarriesAt(a: string, b: string, i: nat)
    requires i <= |a|
    ensures SegmentsAt(a + b, i) == SegmentsAt(a, i) + Segments(TailAt(a, i) + b)
    ensures TailAt(a + b, i) == Tail(TailAt(a, i) + b)
    decreases |a| - i
  {
    hide CutAt, Segments, Tail;
    var n := CutAt(a, i);
    if n < |a| {
      CutIs(a + b, i, n);
      assert (a + b)[i..n] == a[i..n];
      SplitCarriesAt(a, b, n + 1);
    } else {
      LastStretch(a, b, i);
    }
  }

  lemma LastStretch(a: string, b: string, i: nat)
    requires i <= |a| && CutAt(a, i) == |a|
    ensures SegmentsAt(a, i) == [] && TailAt(a, i) == a[i..]
    ensures SegmentsAt(a + b, i) == Segments(a[i..] + b) && TailAt(a + b, i) == Tail(a[i..] + b)
  {
    hide CutAt;
    assert a + b == a[..i] + (a[i..] + b);
    SplitOfLaterPart(a[..i], a[i..] + b, 0);
  }

  lemma SplitCarries(a: string, b: string)
    ensures Segments(a + b) == Segments(a) + Segments(Tail(a) + b)
    ensures Tail(a + b) == Tail(Tail(a) + b)
  {
    SplitCarriesAt(a, b, 0);
  }

  // One byte more.
  lemma ByteCarries(s: string, c: char)
    ensures c == LF ==> Segments(s + [c]) == Segments(s) + [Tail(s)] && Tail(s + [c]) == []
    ensures c != LF ==> Segments(s + [c]) == Segments(s) && Tail(s + [c]) == Tail(s) + [c]
  {
    hide SegmentsAt, TailAt;
    SplitCarries(s, [c]);
    if c == LF {
      OneLine(Tail(s), []);
      OneLine([], []);
      assert Tail(s) + [c] == Tail(s) + [LF] + [];
    } else {
      OneLine(Tail(s) + [c], []);
    }
  }

  // ---- what the robot makes of a complete line --------------------------------------

  datatype Heard = Complete(content: string) | TooLong

  function StripCr(raw: string): string {
    if raw != [] && raw[|raw| - 1] == CR then raw[..|raw| - 1] else raw
  }

  // What a line says, to C string functions: it ends at its first NUL.
  function Content(raw: string): string { UpToNul(StripCr(raw)) }

  // A CR counts toward the cap, and so does a NUL; a blank line is nothing at all.
  function Judge(raw: string): seq<Heard> {
    if |raw| >= MAX_LINE_BYTES then [TooLong]
    else if Blank(StripCr(raw)) then []
    else [Complete(Content(raw))]
  }

  // The lines the source's behaviour is defined on: all but those whose first
  // visible byte is a NUL, which pass the check for blanks and have no verb.
  predicate Readable(raw: string) {
    |raw| >= 240 || Blank(StripCr(raw)) || !Blank(Content(raw))
  }

  lemma ReadableIff(raw: string, k: nat)
    requires |raw| < 240 && k < |StripCr(raw)|
    requires StripCr(raw)[k] != ' ' && forall i :: 0 <= i < k ==> StripCr(raw)[i] == ' '
    ensures Readable(raw) <==> raw[k] != NUL
  {
    VerbFoundIff(StripCr(raw), k);
    BlankHasNoTokens(Content(raw));
  }

  // A CR before the LF changes nothing but the length, which it counts toward: it is
  // the 240th byte of a line that would just have fitted.
  lemma CrLfIsLf(raw: string)
    requires |raw| <= 239 && (raw == [] || raw[|raw| - 1] != '\r')
    ensures Judge(raw + "\r") == if |raw| == 239 then [TooLong] else Judge(raw)
  {
    var with := raw + "\r";
    assert with[..|with| - 1] == raw;
  }

  function Judged(raws: seq<string>): seq<Heard> {
    if raws == [] then [] else Judged(raws[..|raws| - 1]) + Judge(raws[|raws| - 1])
  }

  function CountTooLong(hs: seq<Heard>): nat {
    if hs == [] then 0 else CountTooLong(hs[..|hs| - 1]) + if hs[|hs| - 1].TooLong? then 1 else 0
  }

  function CountOver(raws: seq<string>): nat {
    if raws == [] then 0 else CountOver(raws[..|raws| - 1]) + if |raws[|raws| - 1]| > 239 then 1 else 0
  }

  lemma {:induction false} JudgedAppend(a: seq<string>, b: seq<string>)
    ensures Judged(a + b) == Judged(a) + Judged(b)
  {
    if b == [] {
      assert a + b == a;
    } else {
      assert (a + b)[..|a + b| - 1] == a + b[..|b| - 1];
      JudgedAppend(a, b[..|b| - 1]);
    }
  }

  lemma JudgedOne(raw: string)
    ensures Judged([raw]) == Judge(raw)
  {
    assert [raw][..0] == [];
    assert Judged([raw]) == Judged([raw][..0]) + Judge(raw);
  }

  // A content is dispatched exactly when it is what a whole line of the stream
  // says, the line at most 239 bytes long and not blank: never a prefix of one.
  lemma {:induction false} HeardIffWhole(raws: seq<string>, content: string)
    ensures Complete(content) in Judged(raws) <==>
            exists i :: 0 <= i < |raws| && |raws[i]| <= 239 && content == Content(raws[i]) && !Blank(StripCr(raws[i]))
  {
    hide Content, StripCr, Blank;
    if raws != [] {
      var init, last := raws[..|raws| - 1], raws[|raws| - 1];
      HeardIffWhole(init, content);
      assert Complete(content) in Judge(last) <==> |last| <= 239 && content == Content(last) && !Blank(StripCr(last));
      assert forall i :: 0 <= i < |init| ==> init[i] == raws[i];
    }
  }

  // Each over-long line counts once.
  lemma {:induction false} OverflowsCountOnce(raws: seq<string>)
    ensures CountTooLong(Judged(raws)) == CountOver(raws)
  {
    if raws != [] {
      var init, last := Judged(raws[..|raws| - 1]), Judge(raws[|raws| - 1]);
      OverflowsCountOnce(raws[..|raws| - 1]);
      if last == [] {
        assert init + last == init;
      } else {
        assert (init + last)[..|init + last| - 1] == init;
      }
    }
  }

  // ---- chunking ---------------------------------------------------------------------

  // What is heard when the stream arrives block by block, from a carried tail.
  function HeardInBlocks(tail: string, blocks: seq<string>): (seq<Heard>, string)
    decreases |blocks|
  {
    if blocks == [] then ([], tail)
    else
      var (later, end) := HeardInBlocks(Tail(tail + blocks[0]), blocks[1..]);
      (Judged(Segments(tail + blocks[0])) + later, end)
  }

  function Flatten(blocks: seq<string>): string {
    if blocks == [] then [] else blocks[0] + Flatten(blocks[1..])
  }

  lemma {:induction false} ChunkingIsInvisible(tail: string, blocks: seq<string>)
    requires LF !in tail
    ensures HeardInBlocks(tail, blocks) == (Judged(Segments(tail + Flatten(blocks))), Tail(tail + Flatten(blocks)))
    decreases |blocks|
  {
    hide Segments, Tail, Judged;
    if blocks == [] {
      assert tail + Flatten(blocks) == tail;
      OneLine(tail, []);
      NothingJudged();
    } else {
      var head, rest := tail + blocks[0], Flatten(blocks[1..]);
      ChunkingIsInvisible(Tail(head), blocks[1..]);
      BlockCarries(head, rest);
      assert Flatten(blocks) == blocks[0] + rest;
      assert tail + (blocks[0] + rest) == head + rest;
    }
  }

  lemma NothingJudged()
    ensures Judged([]) == []
  {
  }

  lemma BlockCarries(head: string, rest: string)
    ensures Judged(Segments(head + rest)) == Judged(Segments(head)) + Judged(Segments(Tail(head) + rest))
    ensures Tail(head + rest) == Tail(Tail(head) + rest)
  {
    hide Segments, Tail, Judged;
    SplitCarries(head, rest);
    JudgedAppend(Segments(head), Segments(Tail(head) + rest));
  }

  // ---- the host's reassembler --------------------------------------------------------

  function Stripped(raws: seq<string>): (ls: seq<string>)
    ensures |ls| == |raws|
  {
    if raws == [] then [] else Stripped(raws[..|raws| - 1]) + [StripCr(raws[|raws| - 1])]
  }

  lemma NothingStripped()
    ensures Stripped([]) == []
  {
  }

  lemma OneMore(raws: seq<string>, raw: string, rest: seq<string>)
    ensures Stripped(raws + [raw]) == Stripped(raws) + [StripCr(raw)]
    ensures raws + ([raw] + rest) == (raws + [raw]) + rest
  {
    assert (raws + [raw])[..|raws|] == raws;
  }

  class Transport {
    var buffer: string

    ghost predicate Valid()
      reads this
    {
      LF !in buffer
    }

    constructor ()
      ensures Valid() && buffer == []
    {
      buffer := [];
    }

    // `chunk` is what one read returned; empty when nothing came in time.
    method ReadLines(chunk: string) returns (lines: seq<string>)
      requires Valid()
      modifies this
      ensures Valid() && buffer == Tail(old(buffer) + chunk)
      ensures lines == Stripped(Segments(old(buffer) + chunk))
    {
      hide Segments, Tail, CutAt, Stripped;
      if chunk == [] {
        assert buffer + chunk == buffer;
        OneLine(buffer, []);
        NothingStripped();
        return [];
      }
      ghost var all := buffer + chunk;
      ghost var raws := [];
      buffer := buffer + chunk;
      lines := [];
      NothingStripped();
      while true
        invariant Segments(all) == raws + Segments(buffer) && Tail(all) == Tail(buffer)
        invariant lines == Stripped(raws)
        decreases |buffer|
      {
        var index := FindLf(buffer);
        FirstLine(buffer);
        if index < 0 {
          assert raws + [] == raws;
          break;
        }
        var raw := buffer[..index];
        OneMore(raws, raw, Segments(buffer[index + 1..]));
        raws := raws + [raw];
        buffer := buffer[index + 1..];
        if raw != [] && raw[|raw| - 1] == CR { raw := raw[..|raw| - 1]; }
        lines := lines + [raw];
      }
    }

    static method FindLf(s: string) returns (index: int)
      ensures if index < 0 then CutAt(s, 0) == |s| && LF !in s else index < |s| && index == CutAt(s, 0)
    {
      index := 0;
      while index < |s|
        invariant 0 <= index <= |s| && forall k :: 0 <= k < index ==> s[k] != LF
      {
        if s[index] == LF {
          CutIs(s, 0, index);
          return;
        }
        index := index + 1;
      }
      CutIs(s, 0, index);
      return -1;
    }
  }

  // The two ends split a stream alike: with no line over the cap and none
  // blank, the robot hears the lines the host's reassembler would list, one for
  // one, each up to its first NUL; so exactly those, if there is none.
  lemma {:induction false} BothEndsSplitAlike(raws: seq<string>)
    requires forall i :: 0 <= i < |raws| ==> |raws[i]| <= 239 && !Blank(StripCr(raws[i]))
    ensures |Judged(raws)| == |raws|
    ensures forall i :: 0 <= i < |raws| ==> Judged(raws)[i] == Complete(UpToNul(Stripped(raws)[i]))
    ensures forall i :: 0 <= i < |raws| ==>
      (Judged(raws)[i] == Complete(Stripped(raws)[i]) <==> NUL !in Stripped(raws)[i])
  {
    hide UpToNul;
    if raws != [] {
      BothEndsSplitAlike(raws[..|raws| - 1]);
      NulFreeIff(StripCr(raws[|raws| - 1]));
    }
  }
}
