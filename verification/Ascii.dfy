// Numbers as text: decimal rendering, and the strict field decoders of
// src/protocol/protocol_handler.cpp (the whole field must be consumed).
module Ascii {
  import opened Options

  const UINT32_MAX: nat := 0xFFFF_FFFF
  const INT32_MIN: int := -0x8000_0000
  const INT32_MAX: int := 0x7FFF_FFFF

  predicate IsDigit(c: char) { '0' <= c <= '9' }

  predicate AllDigits(s: string) { forall i :: 0 <= i < |s| ==> IsDigit(s[i]) }

  function DigitOf(c: char): (d: nat)
    requires IsDigit(c)
    ensures d < 10
  {
    c as int - '0' as int
  }

  function CharOf(d: nat): (c: char)
    requires d < 10
    ensures IsDigit(c) && DigitOf(c) == d
  {
    ('0' as int + d) as char
  }

  // The number a run of digits spells, most significant first.
  function Value(s: string): nat
    requires AllDigits(s)
  {
    if s == [] then 0 else 10 * Value(s[..|s| - 1]) + DigitOf(s[|s| - 1])
  }

  function Dec(n: nat): (s: string)
    ensures s != [] && AllDigits(s)
  {
    if n < 10 then [CharOf(n)] else Dec(n / 10) + [CharOf(n % 10)]
  }

  lemma ValueSnoc(s: string, d: nat)
    requires AllDigits(s) && d < 10
    ensures AllDigits(s + [CharOf(d)]) && Value(s + [CharOf(d)]) == 10 * Value(s) + d
  {
    var t := s + [CharOf(d)];
    assert t[..|t| - 1] == s;
  }

  lemma {:induction false} ValueOfDec(n: nat)
    ensures Value(Dec(n)) == n
  {
    if n < 10 {
      ValueSnoc([], n);
      assert [] + [CharOf(n)] == [CharOf(n)];
    } else {
      ValueOfDec(n / 10);
      ValueSnoc(Dec(n / 10), n % 10);
    }
  }

  function Pow10(k: nat): (p: nat)
    ensures p > 0
  {
    if k == 0 then 1 else 10 * Pow10(k - 1)
  }

  lemma {:induction false} DecLength(n: nat, k: nat)
    requires k > 0 && n < Pow10(k)
    ensures |Dec(n)| <= k
  {
    if n >= 10 { DecLength(n / 10, k - 1); }
  }

  lemma Uint32IsShort(n: nat)
    requires n <= UINT32_MAX
    ensures |Dec(n)| <= 10
  {
    assert Pow10(2) == 100 && Pow10(4) == 10000;
    assert Pow10(6) == 1000000 && Pow10(8) == 100000000;
    assert Pow10(10) == 10000000000;
    DecLength(n, 10);
  }

  // ---- field decoders -------------------------------------------------------------

  predicate IsWireSpace(c: char) {
    c == ' ' || c == '\t' || c == '\n' || c == 11 as char || c == 12 as char || c == '\r'
  }

  function Digits(s: string): Option<nat> {
    if s != [] && AllDigits(s) then Some(Value(s)) else None
  }

  // A sign, then digits: what strtol consumes, when it consumes everything.
  function SignedDigits(s: string): Option<int> {
    var signed := s != [] && (s[0] == '-' || s[0] == '+');
    match Digits(if signed then s[1..] else s)
    case None => None
    case Some(n) => var m: int := n; Some(if signed && s[0] == '-' then 0 - m else m)
  }

  function ParseInt32(s: string): Option<int> {
    if s == [] || IsWireSpace(s[0]) then None
    else match SignedDigits(s)
      case None => None
      case Some(n) => if INT32_MIN <= n <= INT32_MAX then Some(n) else None
  }

  // A leading '-' is refused although strtoul would wrap it.
  function ParseUint32(s: string): (r: Option<nat>)
    ensures r.Some? ==> r.value <= UINT32_MAX
  {
    if s == [] || s[0] == '-' || IsWireSpace(s[0]) then None
    else match SignedDigits(s)
      case None => None
      case Some(n) => if 0 <= n <= UINT32_MAX then Some(n as nat) else None
  }

  // Digits only: not even a '+'.
  function ParseIdDigits(s: string): (r: Option<nat>)
    ensures r.Some? ==> r.value <= UINT32_MAX
  {
    match Digits(s)
    case None => None
    case Some(n) => if n <= UINT32_MAX then Some(n) else None
  }

  function ParseMandatoryId(token: Option<string>): (r: Option<nat>)
    ensures r.Some? ==> r.value <= UINT32_MAX
  {
    if token.None? || token.value == [] || token.value[0] != '#' then None
    else ParseIdDigits(token.value[1..])
  }

  function IntText(n: int): string {
    if n < 0 then "-" + Dec(-n) else Dec(n)
  }

  // Integers survive the wire exactly when they fit the field's width.
  lemma Int32RoundTrip(n: int)
    ensures ParseInt32(IntText(n)) == if INT32_MIN <= n <= INT32_MAX then Some(n) else None
  {
    var s := IntText(n);
    if n < 0 {
      ValueOfDec(-n);
      assert s[1..] == Dec(-n);
    } else {
      ValueOfDec(n);
      assert IsDigit(s[0]);
    }
  }

  lemma Uint32RoundTrip(n: int)
    ensures ParseUint32(IntText(n)) == if 0 <= n <= UINT32_MAX then Some(n) else None
  {
    if n >= 0 {
      ValueOfDec(n);
      assert IsDigit(Dec(n)[0]);
    }
  }

  lemma IdRoundTrip(n: nat)
    ensures ParseMandatoryId(Some("#" + Dec(n))) == if n <= UINT32_MAX then Some(n) else None
  {
    ValueOfDec(n);
    assert ("#" + Dec(n))[1..] == Dec(n);
  }

  predicate IsSign(c: char) { c == '-' || c == '+' }

  function Unsign(s: string): string { if s != [] && IsSign(s[0]) then s[1..] else s }

  // What each field kind makes of a sign and digits: an int32 takes either sign, a
  // uint32 and an id no '-', and an id no sign at all; each within its width.
  lemma FieldsRead(sign: string, digits: string)
    requires sign == "" || sign == "+" || sign == "-"
    requires digits != [] && AllDigits(digits)
    ensures var m := Value(digits);
            var n := (if sign == "-" then -1 else 1) * (m as int);
            && ParseInt32(sign + digits) == (if -2147483648 <= n <= 2147483647 then Some(n) else None)
            && ParseUint32(sign + digits) == (if sign != "-" && m <= 4294967295 then Some(m) else None)
            && ParseIdDigits(sign + digits) == (if sign == "" && m <= 4294967295 then Some(m) else None)
  {
    hide Digits, Value, AllDigits, SignedDigits;
    var s := sign + digits;
    SignedRead(sign, digits);
    DigitsAlone(sign, digits);
    assert s != [] && !IsWireSpace(s[0]) && (s[0] == '-' <==> sign == "-") by { HeadOf(sign, digits); }
  }

  lemma HeadOf(sign: string, digits: string)
    requires sign == "" || sign == "+" || sign == "-"
    requires digits != [] && AllDigits(digits)
    ensures var s := sign + digits; s != [] && !IsWireSpace(s[0]) && (s[0] == '-' <==> sign == "-")
  {
    assert IsDigit(digits[0]);
    assert sign == "" ==> sign + digits == digits;
  }

  lemma SignedRead(sign: string, digits: string)
    requires sign == "" || sign == "+" || sign == "-"
    requires digits != [] && AllDigits(digits)
    ensures SignedDigits(sign + digits) == Some((if sign == "-" then -1 else 1) * (Value(digits) as int))
  {
    hide Value;
    var s := sign + digits;
    assert IsDigit(digits[0]);
    if sign == "" { assert s == digits; } else { assert s[1..] == digits; }
  }

  lemma DigitsAlone(sign: string, digits: string)
    requires sign == "" || sign == "+" || sign == "-"
    requires digits != [] && AllDigits(digits)
    ensures Digits(sign + digits) == if sign == "" then Some(Value(digits)) else None
  {
    hide Value;
    var s := sign + digits;
    if sign == "" { assert s == digits; } else { assert s[0] == sign[0] && !IsDigit(s[0]); }
  }

  // Nothing else is a number: no blank, no second sign, nothing left over.
  lemma OnlyNumbersRead(s: string)
    requires ParseInt32(s).Some? || ParseUint32(s).Some? || ParseIdDigits(s).Some?
    ensures Unsign(s) != [] && AllDigits(Unsign(s))
  {
    if ParseIdDigits(s).Some? { assert IsDigit(s[0]); }
  }

  // ---- config values ----------------------------------------------------------------

  function DotIndex(s: string): (i: nat)
    ensures i <= |s| && (forall k :: 0 <= k < i ==> s[k] != '.') && (i < |s| ==> s[i] == '.')
  {
    if s == [] || s[0] == '.' then 0 else 1 + DotIndex(s[1..])
  }

  // digits, perhaps a point, perhaps more digits; at least one digit in all.
  function Unsigned(s: string): Option<real> {
    var i := DotIndex(s);
    var whole, frac := s[..i], if i < |s| then s[i + 1..] else [];
    if whole + frac == [] || !AllDigits(whole) || !AllDigits(frac) then None
    else Some(Value(whole) as real + Value(frac) as real / Pow10(|frac|) as real)
  }

  // Magnitudes from here on round to a float infinity.
  const FLOAT_OVERFLOW: real := 340282356779733661637539395458142568448.0

  predicate BarredInFloat(c: char) { c == 'e' || c == 'E' || c == 'x' || c == 'X' }

  // No exponent, no hex, no infinity. The value is kept exact: rounding to a
  // 32-bit float is not modelled.
  function ParseFloat(s: string): Option<real> {
    if s == [] || IsWireSpace(s[0]) || (exists i :: 0 <= i < |s| && BarredInFloat(s[i])) then None
    else
      var negative := s[0] == '-';
      match Unsigned(if negative || s[0] == '+' then s[1..] else s)
      case None => None
      case Some(v) => if v >= FLOAT_OVERFLOW then None else Some(if negative then -v else v)
  }
}
