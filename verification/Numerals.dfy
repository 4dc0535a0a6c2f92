/** Rust's `str::parse` for u32 and f64, and the facts about numerals that the
    comparison of the two policy evaluators rests on. */
module Numerals {
  import opened Options
  import opened Floats

  const U32_MAX := 0xFFFF_FFFF
  type u32 = n: int | 0 <= n <= U32_MAX

  predicate IsDigit(c: char) {
    '0' <= c <= '9'
  }

  predicate AllDigits(s: string) {
    forall i :: 0 <= i < |s| ==> IsDigit(s[i])
  }

  function DigitsValue(s: string): nat
    requires AllDigits(s)
  {
    if s == "" then 0 else 10 * DigitsValue(s[..|s| - 1]) + (s[|s| - 1] - '0') as int
  }

  function ParseU32(s: string): Option<u32> {
    var t := if s != "" && s[0] == '+' then s[1..] else s;
    if t != "" && AllDigits(t) && DigitsValue(t) <= U32_MAX then Some(DigitsValue(t)) else None
  }

  function LowerChar(c: char): char {
    if 'A' <= c <= 'Z' then c - 'A' + 'a' else c
  }

  /** to_ascii_lowercase */
  function Lower(s: string): (r: string)
    ensures |r| == |s| && forall i :: 0 <= i < |s| ==> r[i] == LowerChar(s[i])
  {
    seq(|s|, i requires 0 <= i < |s| => LowerChar(s[i]))
  }

  /** How many digits the string opens with. */
  function Span(s: string): (n: nat)
    ensures n <= |s| && AllDigits(s[..n])
    ensures n < |s| ==> !IsDigit(s[n])
  {
    if s != "" && IsDigit(s[0]) then
      var n := Span(s[1..]);
      assert s[..n + 1] == [s[0]] + s[1..][..n];
      n + 1
    else 0
  }

  /** A whole number with its point moved so many places. */
  function Moved(mantissa: nat, places: int): real
    decreases if places < 0 then -places else places
  {
    if places == 0 then mantissa as real
    else if places > 0 then 10.0 * Moved(mantissa, places - 1)
    else Moved(mantissa, places + 1) / 10.0
  }

  function Scale(mantissa: nat, exponent: int): Float {
    Finite(Moved(mantissa, exponent))
  }

  function Unsigned(s: string): string {
    if s != "" && (s[0] == '+' || s[0] == '-') then s[1..] else s
  }

  function Negate(x: Float): Float {
    match x
    case Finite(r) => Finite(-r)
    case PosInf => NegInf
    case NegInf => PosInf
    case NaN => NaN
  }

  function ParseExponent(s: string): Option<int> {
    var t := Unsigned(s);
    if t == "" || !AllDigits(t) then None
    else
      var v: int := DigitsValue(t);
      Some(if s[0] == '-' then -v else v)
  }

  /** The digits after a leading dot, if there is one. */
  function Fraction(s: string): (r: string)
    ensures AllDigits(r)
  {
    if s != "" && s[0] == '.' then s[1..][..Span(s[1..])] else ""
  }

  function AfterFraction(s: string): string {
    if s != "" && s[0] == '.' then s[1..][Span(s[1..])..] else s
  }

  /** What follows the digits: nothing, or a letter e and an exponent. */
  function TailExponent(tail: string): Option<int> {
    if tail == "" then Some(0)
    else if tail[0] == 'e' || tail[0] == 'E' then ParseExponent(tail[1..])
    else None
  }

  function DecimalOf(whole: string, frac: string, exponent: Option<int>): Option<Float>
    requires AllDigits(whole) && AllDigits(frac)
  {
    if whole + frac == "" || exponent.None? then None
    else Some(Scale(DigitsValue(whole + frac), exponent.value - |frac|))
  }

  function ParseDecimal(s: string): Option<Float> {
    var rest := s[Span(s)..];
    DecimalOf(s[..Span(s)], Fraction(rest), TailExponent(AfterFraction(rest)))
  }

  function ParseF64(s: string): Option<Float> {
    var t := Unsigned(s);
    var magnitude :=
      if Lower(t) == "inf" || Lower(t) == "infinity" then Some(PosInf)
      else if Lower(t) == "nan" then Some(NaN)
      else ParseDecimal(t);
    match magnitude
    case None => None
    case Some(m) => Some(if s != "" && s[0] == '-' then Negate(m) else m)
  }

  function ParseBool(s: string): Option<bool> {
    if Lower(s) == "true" then Some(true)
    else if Lower(s) == "false" then Some(false)
    else None
  }

  lemma {:induction false} SpanAll(s: string)
    requires AllDigits(s)
    ensures Span(s) == |s|
  {
    if s != "" { SpanAll(s[1..]); }
  }

  lemma LowerStartsWithDigit(t: string)
    requires t != "" && IsDigit(t[0])
    ensures Lower(t) != "inf" && Lower(t) != "infinity" && Lower(t) != "nan"
  {
    assert Lower(t)[0] == t[0];
  }

  /** Every u32 numeral is also an f64 numeral of the same value. */
  lemma U32IsF64(s: string)
    requires ParseU32(s).Some?
    ensures ParseF64(s) == Some(Finite(ParseU32(s).value as real))
  {
    var t := Unsigned(s);
    assert s[0] != '-';
    SpanAll(t);
    LowerStartsWithDigit(t);
    assert t[..|t|] == t && t + "" == t;
  }

  predicate NumeralChar(c: char) {
    IsDigit(c) || c == '+' || c == '-' || c == '.' || NumeralLetter(LowerChar(c))
  }

  /** The letters of `infinity`, `nan` and the exponent. */
  predicate NumeralLetter(c: char) {
    c == 'i' || c == 'n' || c == 'f' || c == 't' || c == 'y' || c == 'a' || c == 'e'
  }

  predicate NumeralText(s: string) {
    forall i :: 0 <= i < |s| ==> NumeralChar(s[i])
  }

  lemma LowerLetters(s: string, w: string)
    requires Lower(s) == w && forall i :: 0 <= i < |w| ==> NumeralLetter(w[i])
    ensures NumeralText(s)
  {
    forall i | 0 <= i < |s| ensures NumeralChar(s[i]) { assert LowerChar(s[i]) == w[i]; }
  }

  lemma FractionChars(s: string)
    requires NumeralText(AfterFraction(s))
    ensures NumeralText(s)
  {
    if s != "" && s[0] == '.' {
      assert s == ['.'] + Fraction(s) + AfterFraction(s);
    }
  }

  lemma DecimalChars(s: string)
    requires ParseDecimal(s).Some?
    ensures NumeralText(s)
  {
    var rest := s[Span(s)..];
    DecimalTail(s);
    TailChars(AfterFraction(rest));
    FractionChars(rest);
    NumeralAppend(s[..Span(s)], rest);
    assert s == s[..Span(s)] + rest;
  }

  lemma TailChars(tail: string)
    requires TailExponent(tail).Some?
    ensures NumeralText(tail)
  {
    if tail != "" { ExponentChars(tail); }
  }

  lemma DecimalTail(s: string)
    requires ParseDecimal(s).Some?
    ensures TailExponent(AfterFraction(s[Span(s)..])).Some?
  {
  }

  lemma NumeralAppend(a: string, b: string)
    requires AllDigits(a) && NumeralText(b)
    ensures NumeralText(a + b)
  {
  }

  lemma ExponentChars(tail: string)
    requires tail != "" && (tail[0] == 'e' || tail[0] == 'E') && ParseExponent(tail[1..]).Some?
    ensures NumeralText(tail)
  {
    var t := tail[1..];
    assert tail == [tail[0]] + t;
    assert AllDigits(Unsigned(t));
    if Unsigned(t) != t { assert t == [t[0]] + Unsigned(t); }
  }

  /** A numeral is made of digits, signs, dots and a few letters only. */
  lemma NumeralChars(s: string)
    requires ParseF64(s).Some?
    ensures NumeralText(s) && s != ""
  {
    var t := Unsigned(s);
    if Lower(t) == "inf" { LowerLetters(t, "inf"); }
    else if Lower(t) == "infinity" { LowerLetters(t, "infinity"); }
    else if Lower(t) == "nan" { LowerLetters(t, "nan"); }
    else { DecimalChars(t); }
  }

  // ----- Decimal numerals -----

  function DigitChar(d: nat): char
    requires d < 10
  {
    '0' + d as char
  }

  function Dec(n: nat): (s: string)
    ensures s != "" && AllDigits(s)
  {
    if n < 10 then [DigitChar(n)] else Dec(n / 10) + [DigitChar(n % 10)]
  }

  lemma {:induction false} DecValue(n: nat)
    ensures DigitsValue(Dec(n)) == n
  {
    if n >= 10 {
      DecValue(n / 10);
      assert Dec(n)[..|Dec(n)| - 1] == Dec(n / 10);
    }
  }

  lemma DecParses(n: u32)
    ensures ParseU32(Dec(n)) == Some(n)
  {
    DecValue(n);
    assert IsDigit(Dec(n)[0]);
  }

  /** A numeral as `Dec` writes it, of a u32. */
  predicate CanonicalU32(s: string) {
    s != "" && AllDigits(s) && (|s| == 1 || s[0] != '0') && DigitsValue(s) <= U32_MAX
  }

  lemma {:induction false} DecHead(n: nat)
    ensures n > 0 ==> Dec(n)[0] != '0'
  {
    if n >= 10 { DecHead(n / 10); }
  }

  lemma {:induction false} DecOfValue(s: string)
    requires s != "" && AllDigits(s) && (|s| == 1 || s[0] != '0')
    ensures Dec(DigitsValue(s)) == s
    ensures s[0] != '0' ==> DigitsValue(s) > 0
  {
    var last := |s| - 1;
    var t := s[..last];
    assert s == t + [s[last]];
    if last > 0 {
      DecOfValue(t);
      assert DigitsValue(s) == 10 * DigitsValue(t) + (s[last] - '0') as int;
      assert DigitsValue(s) / 10 == DigitsValue(t);
    } else {
      assert DigitsValue(t) == 0;
    }
  }

  lemma CanonicalIsDec(s: string)
    requires CanonicalU32(s)
    ensures Dec(DigitsValue(s)) == s
  {
    DecOfValue(s);
  }

  lemma DecIsCanonical(n: u32)
    ensures CanonicalU32(Dec(n)) && DigitsValue(Dec(n)) == n
  {
    DecValue(n);
    DecHead(n);
  }
}
