// formatConfigValue (src/protocol/protocol_handler.cpp) against parseFloatField:
// what a configuration value survives of a trip over the wire, over the reals.
module ConfigText {
  import opened Options
  import opened Ascii

  // ---- what a value field decodes to -----------------------------------------------

  // Digits with at most one point among them, and at least one digit.
  ghost predicate Numeral(u: string) {
    && (forall i :: 0 <= i < |u| ==> IsDigit(u[i]) || u[i] == '.')
    && (forall i, j :: 0 <= i < j < |u| && u[i] == '.' ==> u[j] != '.')
    && (exists i :: 0 <= i < |u| && IsDigit(u[i]))
  }

  // The magnitude from which a float is infinite: 2^128 less half the last place.
  const OVERFLOW: real := 340282356779733661637539395458142568448.0

  // The number spelled by digits around a point.
  function Spelled(whole: string, frac: string): real
    requires AllDigits(whole) && AllDigits(frac)
  {
    Value(whole) as real + Value(frac) as real / Pow10(|frac|) as real
  }

  function Held(sign: string, v: real): Option<real> {
    if v >= OVERFLOW then None else Some(if sign == "-" then -v else v)
  }

  lemma DotAfter(whole: string, rest: string)
    requires AllDigits(whole) && (rest == [] || rest[0] == '.')
    ensures DotIndex(whole + rest) == |whole|
  {
    if whole != [] {
      assert (whole + rest)[1..] == whole[1..] + rest;
      DotAfter(whole[1..], rest);
    } else {
      assert whole + rest == rest;
    }
  }

  lemma UnsignedOfPoint(whole: string, frac: string)
    requires AllDigits(whole) && AllDigits(frac) && whole + frac != []
    ensures Unsigned(whole + "." + frac) == Some(Spelled(whole, frac))
  {
    var s := whole + "." + frac;
    assert s == whole + ("." + frac);
    DotAfter(whole, "." + frac);
    assert s[..|whole|] == whole && s[|whole| + 1..] == frac;
  }

  lemma UnsignedOfWhole(whole: string)
    requires AllDigits(whole) && whole != []
    ensures Unsigned(whole) == Some(Value(whole) as real)
  {
    assert whole + [] == whole;
    DotAfter(whole, []);
    assert whole[..|whole|] == whole;
  }

  lemma NumeralIsPlain(sign: string, u: string)
    requires (sign == [] || (|sign| == 1 && IsSign(sign[0]))) && u != []
    requires forall i :: 0 <= i < |u| ==> IsDigit(u[i]) || u[i] == '.'
    ensures var s := sign + u;
            && Unsign(s) == u && s != [] && !IsWireSpace(s[0])
            && (s[0] == '-' <==> sign == "-") && (s[0] == '+' <==> sign == "+")
            && forall i :: 0 <= i < |s| ==> !BarredInFloat(s[i])
  {
    var s := sign + u;
    assert s[|sign|..] == u;
    forall i | 0 <= i < |s| ensures !BarredInFloat(s[i]) {
      if i >= |sign| { assert s[i] == u[i - |sign|]; }
    }
    assert sign == [] ==> s[0] == u[0];
  }

  // Every decimal with a point, however many digits stand on either side of it and
  // whatever its sign, decodes to the number it spells: the digits before the point
  // plus those after it over the power of ten they have places. One side may be
  // empty. Only a float's overflow is refused.
  lemma ParsesPoint(sign: string, whole: string, frac: string)
    requires sign == "" || sign == "+" || sign == "-"
    requires AllDigits(whole) && AllDigits(frac) && whole + frac != []
    ensures ParseFloat(sign + whole + "." + frac) == Held(sign, Spelled(whole, frac))
  {
    hide Unsigned, IsDigit, IsWireSpace, BarredInFloat, Spelled;
    var u := whole + "." + frac;
    assert sign + whole + "." + frac == sign + u;
    forall i | 0 <= i < |u| ensures IsDigit(u[i]) || u[i] == '.' {
      if i < |whole| { assert u[i] == whole[i]; } else if i > |whole| { assert u[i] == frac[i - |whole| - 1]; }
    }
    NumeralIsPlain(sign, u);
    UnsignedOfPoint(whole, frac);
  }

  lemma ParsesWhole(sign: string, whole: string)
    requires sign == "" || sign == "+" || sign == "-"
    requires AllDigits(whole) && whole != []
    ensures ParseFloat(sign + whole) == Held(sign, Value(whole) as real)
  {
    hide Unsigned, IsWireSpace, BarredInFloat;
    NumeralIsPlain(sign, whole);
    UnsignedOfWhole(whole);
  }

  // So w and f/10^k, written out with k places, decode to w + f/10^k; with no
  // places ("5.") and with no point ("5") to w; and with nothing before the point
  // (".5") to f/10^k.
  lemma ParsesDecimal(sign: string, w: nat, f: nat, k: nat)
    requires (sign == "" || sign == "+" || sign == "-") && f < Pow10(k)
    ensures ParseFloat(sign + Dec(w) + "." + Pad(f, k)) == Held(sign, w as real + f as real / Pow10(k) as real)
    ensures ParseFloat(sign + Dec(w) + ".") == ParseFloat(sign + Dec(w)) == Held(sign, w as real)
    ensures k > 0 ==> ParseFloat(sign + "." + Pad(f, k)) == Held(sign, f as real / Pow10(k) as real)
  {
    hide ParseFloat, Held, Dec, Pad, Pow10;
    ValueOfDec(w);
    ValueOfPad(f, k);
    ParsesPoint(sign, Dec(w), Pad(f, k));
    ParsesPoint(sign, Dec(w), []);
    NoPlaces();
    assert sign + Dec(w) + "." + [] == sign + Dec(w) + ".";
    ParsesWhole(sign, Dec(w));
    if k > 0 {
      ParsesPoint(sign, [], Pad(f, k));
      assert sign + [] + "." + Pad(f, k) == sign + "." + Pad(f, k);
    }
  }

  lemma NoPlaces()
    ensures Value([]) == 0 && Pow10(0) == 1 && 0.0 / 1.0 == 0.0
  {
  }

  // One place: tenths.
  lemma ParsesTenths(w: nat, d: nat)
    requires d < 10 && w <= UINT32_MAX
    ensures ParseFloat(Dec(w) + "." + [CharOf(d)]) == Some((10 * w + d) as real / 10.0)
  {
    hide ParseFloat, Dec;
    assert Pow10(1) == 10;
    ParsesDecimal("", w, d, 1);
    assert Pad(d, 0) == [];
    assert Pad(d, 1) == [CharOf(d)];
    assert "" + Dec(w) + "." + Pad(d, 1) == Dec(w) + "." + [CharOf(d)];
  }

  // ---- and which fields decode at all ---------------------------------------------------

  lemma NumeralSplits(u: string)
    requires Unsigned(u).Some?
    ensures Numeral(u)
  {
    var i := DotIndex(u);
    var whole, frac := u[..i], if i < |u| then u[i + 1..] else [];
    forall j | 0 <= j < |u| && j != i ensures IsDigit(u[j]) {
      if j < i { assert u[j] == whole[j]; } else { assert u[j] == frac[j - i - 1]; }
    }
    if whole != [] { assert IsDigit(u[0]); } else { assert IsDigit(u[i + 1]); }
  }

  lemma SplitNumeral(u: string)
    requires Numeral(u)
    ensures Unsigned(u).Some?
  {
    var i := DotIndex(u);
    var whole, frac := u[..i], if i < |u| then u[i + 1..] else [];
    assert forall j :: 0 <= j < |whole| ==> whole[j] == u[j];
    assert forall j :: 0 <= j < |frac| ==> frac[j] == u[j + i + 1];
    var d :| 0 <= d < |u| && IsDigit(u[d]);
    assert d < i ==> whole[d] == u[d];
    assert d > i ==> frac[d - i - 1] == u[d];
  }

  // A field decodes if and only if, its sign apart, it is a numeral that does not
  // overflow a float: no blank, no exponent, no second sign, nothing left over.
  lemma ParsesIff(s: string)
    ensures Numeral(Unsign(s)) <==> Unsigned(Unsign(s)).Some?
    ensures ParseFloat(s).Some? <==>
            Numeral(Unsign(s)) && Unsigned(Unsign(s)).value < 340282356779733661637539395458142568448.0
  {
    hide Unsigned;
    var u := Unsign(s);
    if Numeral(u) {
      SplitNumeral(u);
      NumeralIsPlain(if s != [] && IsSign(s[0]) then s[..1] else [], u);
      assert s == (if s != [] && IsSign(s[0]) then s[..1] else []) + u;
    } else if Unsigned(u).Some? {
      NumeralSplits(u);
    }
  }

  // ---- what is written, read back -----------------------------------------------------

  const DIVISOR: nat := 1000000
  const MAX_SCALED: real := 4294967040.0

  function Magnitude(v: real): real { if v < 0.0 then -v else v }

  // The value in millionths, rounded half up and saturated.
  function Scaled(v: real): nat {
    var scaled := Magnitude(v) * 1000000.0 + 0.5;
    (if scaled > MAX_SCALED then MAX_SCALED else scaled).Floor
  }

  // k digits of f, with leading zeros.
  function Pad(f: nat, k: nat): (s: string)
    ensures |s| == k && AllDigits(s)
  {
    if k == 0 then [] else Pad(f / 10, k - 1) + [CharOf(f % 10)]
  }

  function Fixed(negative: bool, n: nat): string {
    (if negative then "-" else "") + Dec(n / DIVISOR) + "." + Pad(n % DIVISOR, 6)
  }

  function Format(v: real): string { Fixed(v < 0.0, Scaled(v)) }

  lemma {:induction false} ValueOfPad(f: nat, k: nat)
    requires f < Pow10(k)
    ensures Value(Pad(f, k)) == f
  {
    if k > 0 {
      ValueOfPad(f / 10, k - 1);
      ValueSnoc(Pad(f / 10, k - 1), f % 10);
    }
  }

  lemma SixDigits()
    ensures Pow10(6) == DIVISOR
  {
    assert Pow10(2) == 100 && Pow10(4) == 10000;
  }

  lemma ScaledIsBounded(v: real)
    ensures Scaled(v) <= 4294967040
  {
  }

  // What a signed fixed-point text decodes to.
  lemma ParseOfFixed(negative: bool, n: nat)
    requires n <= 4294967040
    ensures ParseFloat(Fixed(negative, n)) == Some(if negative then -(n as real / 1000000.0) else n as real / 1000000.0)
  {
    hide ParseFloat, Dec, Pad;
    SixDigits();
    ParsesDecimal(if negative then "-" else "", n / DIVISOR, n % DIVISOR, 6);
    assert n == (n / DIVISOR) * DIVISOR + n % DIVISOR;
    assert (n / DIVISOR) as real + (n % DIVISOR) as real / 1000000.0 == n as real / 1000000.0;
  }

  // Decoding the text gives back the millionths that were written.
  lemma FormatThenParse(v: real)
    ensures ParseFloat(Format(v)) ==
            Some(if v < 0.0 then -(Scaled(v) as real / 1000000.0) else Scaled(v) as real / 1000000.0)
  {
    hide ParseFloat, Fixed;
    ScaledIsBounded(v);
    ParseOfFixed(v < 0.0, Scaled(v));
  }

  // What is written: a sign for a negative value only, digits without a needless
  // leading zero, a point and exactly six places.
  lemma FormatShape(v: real) returns (whole: string, frac: string)
    ensures AllDigits(whole) && AllDigits(frac) && |frac| == 6 && 1 <= |whole| <= 4
    ensures |whole| > 1 ==> whole[0] != '0'
    ensures Format(v) == (if v < 0.0 then "-" else "") + whole + "." + frac
  {
    hide Dec, Pad;
    var n := Scaled(v);
    whole, frac := Dec(n / DIVISOR), Pad(n % DIVISOR, 6);
    ScaledIsBounded(v);
    assert n / DIVISOR <= 4294;
    NoLeadingZero(n / DIVISOR);
    assert Pow10(2) == 100 && Pow10(4) == 10000;
    DecLength(n / DIVISOR, 4);
  }

  lemma {:induction false} NoLeadingZero(n: nat)
    ensures n > 0 ==> Dec(n)[0] != '0'
    ensures n < 10 ==> |Dec(n)| == 1
  {
    if n >= 10 { NoLeadingZero(n / 10); }
  }

  // Over the wire and back: within half a millionth, or pinned at the largest
  // value the formatter can write.
  lemma RoundTripAccuracy(v: real)
    ensures var back := ParseFloat(Format(v));
            && back.Some?
            && (Magnitude(v) * 1000000.0 + 0.5 <= MAX_SCALED ==> Magnitude(back.value - v) <= 0.0000005)
            && (Magnitude(v) * 1000000.0 + 0.5 > MAX_SCALED ==>
                  back.value == if v < 0.0 then -4294.96704 else 4294.96704)
  {
    hide ParseFloat, Format;
    FormatThenParse(v);
  }

  lemma ScaledOfMillionths(n: nat, w: real)
    requires n <= 4294967040 && Magnitude(w) == n as real / 1000000.0
    ensures Scaled(w) == if n == 4294967040 then 4294967040 else n
  {
    assert Magnitude(w) * 1000000.0 == n as real;
  }

  // Writing what was read back gives the same text, unless the value was a
  // negative one that rounded to zero: "-0.000000" reads as 0 and is written
  // without its sign.
  lemma ReformatIsStableIff(v: real)
    ensures var back := ParseFloat(Format(v));
            back.Some? && (Format(back.value) == Format(v) <==> !(v < 0.0 && Scaled(v) == 0))
  {
    hide ParseFloat;
    FormatThenParse(v);
    ScaledIsBounded(v);
    var n := Scaled(v);
    var w := ParseFloat(Format(v)).value;
    ScaledOfMillionths(n, w);
    if v < 0.0 && n == 0 {
      assert Format(w) == Fixed(false, 0) && Format(v) == "-" + Fixed(false, 0);
      assert |Format(v)| == |Format(w)| + 1;
    } else {
      assert w < 0.0 <==> v < 0.0;
    }
  }
}
