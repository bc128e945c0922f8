// Splitting a line into tokens: the pure meaning, the in-place tokenizer of
// src/protocol/protocol_handler.cpp (NULs written over separators, a fixed
// number of token pointers kept), and the backward scan for the last token.
// A pointer into the line buffer is an index.
module Tokens {
  import opened Options

  const NUL: char := '\0'

  // ---- what a line's tokens are ---------------------------------------------------

  // The end of the space-free run that starts at i.
  function WordEnd(s: string, i: nat): (j: nat)
    requires i <= |s|
    ensures i <= j <= |s|
    ensures forall k :: i <= k < j ==> s[k] != ' '
    ensures j < |s| ==> s[j] == ' '
    decreases |s| - i
  {
    if i == |s| || s[i] == ' ' then i else WordEnd(s, i + 1)
  }

  // The tokens from index i on, and where they start.
  function SplitAt(s: string, i: nat): seq<string>
    requires i <= |s|
    decreases |s| - i
  {
    if i == |s| then []
    else if s[i] == ' ' then SplitAt(s, i + 1)
    else [s[i..WordEnd(s, i)]] + SplitAt(s, WordEnd(s, i))
  }

  function StartsAt(s: string, i: nat): (starts: seq<nat>)
    requires i <= |s|
    ensures |starts| == |SplitAt(s, i)|
    decreases |s| - i
  {
    if i == |s| then []
    else if s[i] == ' ' then StartsAt(s, i + 1)
    else [i] + StartsAt(s, WordEnd(s, i))
  }

  function Split(s: string): seq<string> { SplitAt(s, 0) }

  function Starts(s: string): seq<nat> { StartsAt(s, 0) }

  predicate Blank(s: string) { forall i :: 0 <= i < |s| ==> s[i] == ' ' }

  lemma {:induction false} SpacesHoldNoTokens(s: string, i: nat)
    requires i <= |s|
    ensures SplitAt(s, i) == [] <==> forall k :: i <= k < |s| ==> s[k] == ' '
    decreases |s| - i
  {
    if i < |s| && s[i] == ' ' { SpacesHoldNoTokens(s, i + 1); }
  }

  lemma BlankHasNoTokens(s: string)
    ensures Blank(s) <==> Split(s) == []
  {
    SpacesHoldNoTokens(s, 0);
  }

  ghost predicate IsWord(t: string) { t != [] && ' ' !in t }

  // Token k occupies a stretch of the line that a space or the end closes.
  ghost predicate TokenAt(s: string, o: nat, t: string) {
    && o + |t| <= |s| && s[o..o + |t|] == t && IsWord(t)
    && (o + |t| < |s| ==> s[o + |t|] == ' ')
  }

  lemma {:induction false} TokenPlace(s: string, i: nat, k: nat)
    requires i <= |s| && k < |SplitAt(s, i)|
    ensures TokenAt(s, StartsAt(s, i)[k], SplitAt(s, i)[k])
    ensures i <= StartsAt(s, i)[k]
    ensures (k > 0 || s[i] == ' ') ==> i < StartsAt(s, i)[k]
    decreases |s| - i
  {
    if s[i] == ' ' {
      TokenPlace(s, i + 1, k);
    } else {
      var w := WordEnd(s, i);
      assert ' ' !in s[i..w];
      if k > 0 { TokenPlace(s, w, k - 1); }
    }
  }

  lemma TokensAreWords(s: string)
    ensures forall t :: t in Split(s) ==> IsWord(t) && (forall c :: c in t ==> c in s)
  {
    forall t | t in Split(s) ensures IsWord(t) && (forall c :: c in t ==> c in s) {
      var k :| 0 <= k < |Split(s)| && Split(s)[k] == t;
      TokenPlace(s, 0, k);
    }
  }

  lemma WordEndIs(s: string, i: nat, j: nat)
    requires i <= j <= |s| && (forall k :: i <= k < j ==> s[k] != ' ') && (j < |s| ==> s[j] == ' ')
    ensures WordEnd(s, i) == j
  {
  }

  // ---- the last token ----------------------------------------------------------------

  // What findLastFieldToken returns: null for a line that is one token at its
  // very first byte, or for no token at all; otherwise where the last one starts.
  function LastField(s: string): Option<nat> {
    var starts := Starts(s);
    if starts == [] || starts[|starts| - 1] == 0 then None else Some(starts[|starts| - 1])
  }

  // A space-free stretch from p to q, with a space or an edge on the left and
  // nothing but spaces on the right, is the last token.
  lemma {:induction false} LastTokenIs(s: string, i: nat, p: nat, q: nat)
    requires i <= p < q <= |s|
    requires forall k :: p <= k < q ==> s[k] != ' '
    requires forall k :: q <= k < |s| ==> s[k] == ' '
    requires p == i || s[p - 1] == ' '
    ensures var n := |SplitAt(s, i)|;
            n > 0 && StartsAt(s, i)[n - 1] == p && SplitAt(s, i)[n - 1] == s[p..q]
    decreases |s| - i
  {
    if s[i] == ' ' {
      LastTokenIs(s, i + 1, p, q);
    } else if p == i {
      WordEndIs(s, i, q);
      SpacesHoldNoTokens(s, q);
    } else {
      var w := WordEnd(s, i);
      assert w <= p - 1;
      LastTokenIs(s, w, p, q);
    }
  }

  // ---- C strings ---------------------------------------------------------------------

  // Reading from `at` up to the next NUL yields t.
  ghost predicate ReadsAs(buf: string, at: int, t: string) {
    && 0 <= at && at + |t| < |buf| && buf[at + |t|] == NUL && NUL !in t
    && forall i :: at <= i < at + |t| ==> buf[i] == t[i - at]
  }

  lemma NoNulInside(buf: string, at: int, t: string)
    requires ReadsAs(buf, at, t)
    ensures forall i :: at <= i < at + |t| ==> buf[i] != NUL
  {
    assert forall k :: 0 <= k < |t| ==> t[k] in t;
  }

  lemma ReadsUniquely(buf: string, at: int, t: string, u: string)
    requires ReadsAs(buf, at, t) && ReadsAs(buf, at, u)
    ensures t == u
  {
    NoNulInside(buf, at, t);
    NoNulInside(buf, at, u);
    assert buf[at + |t|] == NUL && buf[at + |u|] == NUL;
    assert forall k :: 0 <= k < |t| ==> t[k] == buf[at + k];
    assert forall k :: 0 <= k < |u| ==> u[k] == buf[at + k];
  }

  // What a C string function sees of a line: everything before its first NUL.
  function UpToNul(s: string): (t: string)
    ensures |t| <= |s| && t == s[..|t|] && NUL !in t
    ensures |t| < |s| ==> s[|t|] == NUL
  {
    if s == [] || s[0] == NUL then [] else [s[0]] + UpToNul(s[1..])
  }

  lemma NulFreeIff(s: string)
    ensures UpToNul(s) == s <==> NUL !in s
  {
    var t := UpToNul(s);
    if |t| < |s| { assert s[|t|] in s; } else { assert s[..|s|] == s; }
  }

  // A line that is not blank has a verb if and only if its first visible byte is
  // not a NUL: there the check for blanks, which counts bytes, and the tokenizer,
  // which stops at a NUL, part ways.
  lemma VerbFoundIff(s: string, k: nat)
    requires k < |s| && s[k] != ' ' && forall i :: 0 <= i < k ==> s[i] == ' '
    ensures !Blank(s)
    ensures Split(UpToNul(s)) != [] <==> s[k] != NUL
  {
    var t := UpToNul(s);
    BlankHasNoTokens(t);
    assert forall i :: 0 <= i < |t| ==> t[i] == s[i] && t[i] in t;
    if s[k] != NUL {
      assert |t| < |s| ==> s[|t|] == NUL;
      assert k < |t|;
      assert t[k] != ' ';
    }
  }

  method ReadString(line: array<char>, at: nat, ghost t: string) returns (s: string)
    requires ReadsAs(line[..], at, t)
    ensures s == t
  {
    ghost var buf := line[..];
    assert forall k :: at <= k < at + |t| ==> buf[k] == t[k - at] && t[k - at] in t;
    var p := at;
    s := "";
    while line[p] != NUL
      invariant at <= p <= at + |t| < line.Length
      invariant s == t[..p - at]
      invariant p < at + |t| ==> buf[p] != NUL
      decreases line.Length - p
    {
      assert line[p] == buf[p];
      s := s + [line[p]];
      p := p + 1;
    }
    assert line[p] == buf[p];
  }

  // ---- the backward scan ---------------------------------------------------------------

  method FindLastFieldToken(line: array<char>, ghost content: string) returns (p: Option<nat>)
    requires ReadsAs(line[..], 0, content)
    ensures p == LastField(content)
  {
    ghost var buf := line[..];
    assert forall k :: 0 <= k < |content| ==> buf[k] == content[k] && content[k] in content;
    var end := 0;
    while line[end] != NUL
      invariant end <= |content|
      decreases |content| - end
    {
      assert line[end] == buf[end];
      end := end + 1;
    }
    assert line[end] == buf[end];
    var q := end;
    while q > 0 && line[q - 1] == ' '
      invariant q <= end
      invariant forall i :: q <= i < end ==> content[i] == ' '
    {
      assert line[q - 1] == buf[q - 1];
      q := q - 1;
    }
    assert q > 0 ==> line[q - 1] == buf[q - 1];
    var at := q;
    while at > 0 && line[at - 1] != ' '
      invariant at <= q
      invariant forall i :: at <= i < q ==> content[i] != ' '
    {
      assert line[at - 1] == buf[at - 1];
      at := at - 1;
    }
    assert at > 0 ==> line[at - 1] == buf[at - 1];
    if at < q {
      LastTokenIs(content, 0, at, q);
    } else {
      SpacesHoldNoTokens(content, 0);
    }
    return if at == 0 then None else Some(at);
  }

  // ---- the in-place tokenizer ------------------------------------------------------------

  // The first k tokens of `content` read back from the buffer and end before p.
  ghost predicate ReadBack(buf: string, content: string, k: nat, p: nat)
    requires k <= |Split(content)|
  {
    forall i :: 0 <= i < k ==>
      Starts(content)[i] + |Split(content)[i]| < p && ReadsAs(buf, Starts(content)[i], Split(content)[i])
  }

  // The buffer still holds the rest of the content, from p to its NUL.
  ghost predicate Untouched(buf: string, content: string, p: nat) {
    && p <= |content| < |buf| && buf[|content|] == NUL && NUL !in content
    && forall i :: p <= i < |content| ==> buf[i] == content[i]
  }

  // k tokens are behind p; the rest are those of the content from p on.
  ghost predicate Behind(content: string, k: nat, p: nat) {
    && k <= |Split(content)| && p <= |content|
    && Split(content)[k..] == SplitAt(content, p) && Starts(content)[k..] == StartsAt(content, p)
  }

  // Every token of `content` reads back from the mutated line; the first
  // tokens.Length starts are stored; the count is the true count.
  method TokenizeLine(line: array<char>, tokens: array<nat>, ghost content: string) returns (count: nat)
    requires ReadsAs(line[..], 0, content)
    modifies line, tokens
    ensures count == |Split(content)| && ReadBack(line[..], content, count, line.Length)
    ensures forall k :: 0 <= k < count && k < tokens.Length ==> tokens[k] == Starts(content)[k]
  {
    hide SplitAt, StartsAt, ReadsAs, WordEnd;
    count := 0;
    var p := 0;
    assert Untouched(line[..], content, 0) by { HoldsUntouched(line[..], content); }
    while true
      invariant Untouched(line[..], content, p) && Behind(content, count, p) && ReadBack(line[..], content, count, p)
      invariant forall k :: 0 <= k < count && k < tokens.Length ==> tokens[k] == Starts(content)[k]
      decreases |content| - p
    {
      p := SkipSpaces(line, p, count, content);
      if line[p] == NUL {
        NothingLeft(content, count, p);
        break;
      }
      if count < tokens.Length { tokens[count] := p; }
      ghost var start := p;
      p := SkipWord(line, p, content);
      OneToken(content, count, start, p);
      count := count + 1;
      if line[p] == NUL {
        ClosedToken(line[..], content, count - 1, start, p);
        NothingLeft(content, count, p);
        break;
      }
      ghost var before := line[..];
      line[p] := NUL;
      assert line[..] == before[p := NUL];
      CutToken(before, line[..], content, count - 1, start, p);
      p := p + 1;
    }
  }

  lemma HoldsUntouched(buf: string, content: string)
    requires ReadsAs(buf, 0, content)
    ensures Untouched(buf, content, 0)
  {
  }

  lemma NothingLeft(content: string, k: nat, p: nat)
    requires Behind(content, k, p) && p == |content|
    ensures k == |Split(content)|
  {
  }

  // One token at `start`, ending at p.
  lemma OneToken(content: string, k: nat, start: nat, p: nat)
    requires Behind(content, k, start) && start < p <= |content|
    requires forall i :: start <= i < p ==> content[i] != ' '
    requires p < |content| ==> content[p] == ' '
    ensures Behind(content, k + 1, p) && Split(content)[k] == content[start..p] && Starts(content)[k] == start
    ensures p < |content| ==> Behind(content, k + 1, p + 1)
  {
    WordEndIs(content, start, p);
    assert Split(content)[k] == Split(content)[k..][0] && Starts(content)[k] == Starts(content)[k..][0];
    assert Split(content)[k + 1..] == Split(content)[k..][1..] && Starts(content)[k + 1..] == Starts(content)[k..][1..];
  }

  // The token that runs up to the line's own NUL.
  lemma ClosedToken(buf: string, content: string, k: nat, start: nat, p: nat)
    requires Untouched(buf, content, p) && p == |content| && start < p
    requires forall i :: start <= i < p ==> buf[i] == content[i]
    requires k < |Split(content)| && Split(content)[k] == content[start..p] && Starts(content)[k] == start
    requires ReadBack(buf, content, k, start)
    ensures ReadBack(buf, content, k + 1, |buf|)
  {
    assert ReadsAs(buf, start, content[start..p]);
  }

  // Writing a NUL over the separator closes the token and disturbs no other.
  lemma CutToken(before: string, after: string, content: string, k: nat, start: nat, p: nat)
    requires start < p < |content| && Untouched(before, content, start) && after == before[p := NUL]
    requires k < |Split(content)| && Split(content)[k] == content[start..p] && Starts(content)[k] == start
    requires ReadBack(before, content, k, start)
    ensures ReadBack(after, content, k + 1, p + 1) && Untouched(after, content, p + 1)
  {
    hide SplitAt, StartsAt;
    forall i | 0 <= i < k + 1
      ensures Starts(content)[i] + |Split(content)[i]| < p + 1 && ReadsAs(after, Starts(content)[i], Split(content)[i])
    {
      if i < k { assert ReadsAs(before, Starts(content)[i], Split(content)[i]); }
    }
  }

  method SkipSpaces(line: array<char>, from: nat, ghost k: nat, ghost content: string) returns (p: nat)
    requires Untouched(line[..], content, from) && Behind(content, k, from)
    ensures from <= p && Untouched(line[..], content, p) && Behind(content, k, p)
    ensures line[p] != ' ' && (line[p] == NUL <==> p == |content|)
  {
    hide WordEnd;
    ghost var buf := line[..];
    p := from;
    while line[p] == ' '
      invariant from <= p && Untouched(buf, content, p) && Behind(content, k, p)
      decreases |content| - p
    {
      assert line[p] == buf[p] && p < |content|;
      p := p + 1;
    }
    assert line[p] == buf[p];
    assert p < |content| ==> content[p] in content;
  }

  method SkipWord(line: array<char>, from: nat, ghost content: string) returns (p: nat)
    requires Untouched(line[..], content, from) && from < |content| && line[from] != ' '
    ensures from < p <= |content| && Untouched(line[..], content, p)
    ensures (p < |content| ==> content[p] == ' ') && (line[p] == NUL <==> p == |content|)
    ensures forall i :: from <= i < p ==> content[i] != ' '
  {
    ghost var buf := line[..];
    assert forall i :: from <= i < |content| ==> buf[i] == content[i] && content[i] in content;
    assert line[from] == buf[from];
    p := from;
    while line[p] != NUL && line[p] != ' '
      invariant from <= p <= |content|
      invariant forall i :: from <= i < p ==> content[i] != ' '
      decreases |content| - p
    {
      assert line[p] == buf[p];
      p := p + 1;
    }
    assert line[p] == buf[p];
  }

  // ---- space normalization -----------------------------------------------------------------

  function Join(ts: seq<string>): string {
    if ts == [] then [] else if |ts| == 1 then ts[0] else ts[0] + " " + Join(ts[1..])
  }

  lemma {:induction false} WordEndOfSuffix(a: string, b: string, i: nat)
    requires i <= |b|
    ensures WordEnd(a + b, |a| + i) == |a| + WordEnd(b, i)
  {
    WordEndIs(a + b, |a| + i, |a| + WordEnd(b, i));
  }

  lemma {:induction false} SplitOfSuffix(a: string, b: string, i: nat)
    requires i <= |b|
    ensures SplitAt(a + b, |a| + i) == SplitAt(b, i)
    decreases |b| - i
  {
    hide WordEnd;
    var s := a + b;
    if i < |b| {
      assert s[|a| + i] == b[i];
      if b[i] == ' ' {
        SplitOfSuffix(a, b, i + 1);
      } else {
        var w := WordEnd(b, i);
        WordEndOfSuffix(a, b, i);
        WordAdvances(b, i);
        SplitOfSuffix(a, b, w);
        assert s[|a| + i..|a| + w] == b[i..w];
      }
    }
  }

  lemma WordAdvances(s: string, i: nat)
    requires i < |s| && s[i] != ' '
    ensures WordEnd(s, i) > i
  {
  }

  // A first word, then nothing or a space and the rest.
  lemma FirstWord(t: string, rest: string)
    requires IsWord(t)
    ensures Split(t) == [t]
    ensures Split(t + " " + rest) == [t] + Split(rest)
  {
    hide WordEnd;
    assert forall k :: 0 <= k < |t| ==> t[k] in t;
    WordEndIs(t, 0, |t|);
    assert t[0..|t|] == t && SplitAt(t, |t|) == [];
    var s := t + " " + rest;
    assert s[|t|] == ' ' && forall k :: 0 <= k < |t| ==> s[k] == t[k];
    WordEndIs(s, 0, |t|);
    assert s[0..|t|] == t;
    SplitOfSuffix(t + " ", rest, 0);
    assert SplitAt(s, |t|) == SplitAt(s, |t| + 1);
  }

  lemma {:induction false} SplitOfJoin(ts: seq<string>)
    requires forall t :: t in ts ==> IsWord(t)
    ensures Split(Join(ts)) == ts
    ensures ts != [] ==> Join(ts) != [] && Join(ts)[0] != ' '
    decreases |ts|
  {
    hide SplitAt;
    if ts == [] {
      SpacesHoldNoTokens([], 0);
    } else {
      assert IsWord(ts[0]) && ts[0][0] in ts[0];
      FirstWord(ts[0], Join(ts[1..]));
      if |ts| > 1 { SplitOfJoin(ts[1..]); }
      assert ts == [ts[0]] + ts[1..];
    }
  }

  // A line and its normal form have the same tokens, and the same last-field
  // pointer unless the line is a single token with spaces before it.
  lemma NormalizationKeepsTokens(s: string)
    ensures Split(Join(Split(s))) == Split(s)
    ensures LastField(Join(Split(s))).Some? <==> |Split(s)| >= 2
    ensures LastField(s).Some? <==> |Split(s)| >= 2 || (|Split(s)| == 1 && s[0] == ' ')
  {
    hide IsWord, WordEnd;
    TokensAreWords(s);
    SplitOfJoin(Split(s));
    FieldIff(s);
    FieldIff(Join(Split(s)));
  }

  lemma FieldIff(s: string)
    ensures LastField(s).Some? <==> |Split(s)| >= 2 || (|Split(s)| == 1 && s[0] == ' ')
  {
    var n := |Split(s)|;
    if n > 0 { TokenPlace(s, 0, n - 1); }
  }
}
