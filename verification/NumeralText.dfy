/** What number a text stands for, by its parts: the `parse::<f64>` of Rust's
    standard library, which policy/src/evaluator.rs reads bounds with. */
module NumeralText {
  import opened Options
  import opened Floats
  import opened Numerals

  function Tens(n: nat): (r: nat)
    ensures r > 0
  {
    if n == 0 then 1 else 10 * Tens(n - 1)
  }

  /** Decimal digits by their places. */
  lemma {:induction false} DigitsJoin(a: string, b: string)
    requires AllDigits(a) && AllDigits(b)
    ensures AllDigits(a + b) && DigitsValue(a + b) == DigitsValue(a) * Tens(|b|) + DigitsValue(b)
  {
    if b == "" {
      assert a + b == a;
    } else {
      var front, c := b[..|b| - 1], b[|b| - 1];
      assert b == front + [c];
      DigitsJoin(a, front);
      assert (a + b) == (a + front) + [c];
      LastDigit(a + front, c);
      LastDigit(front, c);
      Distributes(DigitsValue(a), Tens(|front|), DigitsValue(front));
    }
  }

  lemma LastDigit(s: string, c: char)
    requires AllDigits(s) && IsDigit(c)
    ensures AllDigits(s + [c]) && DigitsValue(s + [c]) == 10 * DigitsValue(s) + (c - '0') as int
  {
    assert (s + [c])[..|s|] == s;
  }

  lemma Distributes(a: nat, t: nat, f: nat)
    ensures 10 * (a * t + f) == a * (10 * t) + 10 * f
  {
  }

  lemma OneDigit(c: char)
    requires IsDigit(c)
    ensures DigitsValue([c]) == c as int - 48
  {
    assert [c][..0] == "";
  }

  /** Moving the point is multiplying or dividing by tens. */
  lemma {:induction false} MovedUp(m: nat, k: nat)
    ensures Moved(m, k) == (m * Tens(k)) as real
  {
    if k > 0 { MovedUp(m, k - 1); TenTimes(m, Tens(k - 1)); }
  }

  lemma TenTimes(m: nat, t: nat)
    ensures m * (10 * t) == 10 * (m * t)
  {
  }

  lemma {:induction false} MovedDown(m: nat, k: nat)
    ensures Moved(m, -(k as int)) * Tens(k) as real == m as real
  {
    if k > 0 { MovedDown(m, k - 1); TenthTimes(Moved(m, -((k - 1) as int)), Tens(k - 1)); }
  }

  lemma TenthTimes(x: real, t: nat)
    ensures x / 10.0 * (10 * t) as real == x * t as real
  {
  }

  // ----- The parts of a numeral -----

  /** Digits, perhaps a dot and more digits, perhaps a letter e and a signed exponent. */
  datatype Numeral = Numeral(whole: string, dot: bool, frac: string, e: string, sign: string, exponent: string) {
    predicate Proper() {
      && AllDigits(whole) && AllDigits(frac) && whole + frac != "" && (!dot ==> frac == "")
      && (e == "" || e == "e" || e == "E") && (sign == "" || sign == "+" || sign == "-")
      && AllDigits(exponent) && (if e == "" then sign == "" && exponent == "" else exponent != "")
    }

    function Tail(): string {
      e + (sign + exponent)
    }

    function Rest(): string {
      (if dot then "." + frac else "") + Tail()
    }

    function Text(): string {
      whole + Rest()
    }

    /** The number with these digits, so many of them behind the point. */
    function Value(): Float
      requires Proper()
    {
      var power: int := DigitsValue(exponent);
      Finite(Moved(DigitsValue(Digits()), (if sign == "-" then -power else power) - |frac|))
    }

    function Digits(): (d: string)
      requires Proper()
      ensures AllDigits(d)
    {
      whole + frac
    }
  }

  lemma {:induction false} SpanOf(digits: string, rest: string)
    requires AllDigits(digits) && (rest != "" ==> !IsDigit(rest[0]))
    ensures Span(digits + rest) == |digits|
  {
    if digits == "" {
      assert digits + rest == rest;
    } else {
      assert (digits + rest)[1..] == digits[1..] + rest && (digits + rest)[0] == digits[0];
      SpanOf(digits[1..], rest);
    }
  }

  lemma TailStart(n: Numeral)
    requires n.Proper()
    ensures n.Tail() != "" ==> !IsDigit(n.Tail()[0]) && n.Tail()[0] != '.' && (n.Tail()[0] == 'e' || n.Tail()[0] == 'E')
    ensures n.Tail() == "" <==> n.e == ""
  {
  }

  lemma WholeSpan(n: Numeral)
    requires n.Proper()
    ensures Span(n.Text()) == |n.whole|
  {
    TailStart(n);
    SpanOf(n.whole, n.Rest());
  }

  lemma FractionIs(n: Numeral)
    requires n.Proper()
    ensures Fraction(n.Rest()) == n.frac && AfterFraction(n.Rest()) == n.Tail()
  {
    TailStart(n);
    if n.dot {
      var rest := "." + n.frac + n.Tail();
      assert rest[1..] == n.frac + n.Tail();
      SpanOf(n.frac, n.Tail());
    } else {
      assert "" + n.Tail() == n.Tail();
    }
  }

  /** The power of ten the exponent asks for. */
  function Power(n: Numeral): int
    requires n.Proper()
  {
    var digits: int := DigitsValue(n.exponent);
    if n.sign == "-" then -digits else digits
  }

  lemma SignedExponent(sign: string, digits: string)
    requires AllDigits(digits) && digits != "" && (sign == "" || sign == "+" || sign == "-")
    ensures ParseExponent(sign + digits).Some?
    ensures var v: int := DigitsValue(digits); ParseExponent(sign + digits).value == if sign == "-" then -v else v
  {
    if sign == "" {
      assert sign + digits == digits;
      assert IsDigit(digits[0]);
    } else {
      assert (sign + digits)[1..] == digits;
    }
  }

  lemma ExponentIs(n: Numeral)
    requires n.Proper() && n.e != ""
    ensures n.Tail() != "" && ParseExponent(n.Tail()[1..]) == Some(Power(n))
  {
    assert n.Tail()[1..] == n.sign + n.exponent;
    SignedExponent(n.sign, n.exponent);
  }

  lemma NoPower(n: Numeral)
    requires n.Proper() && n.e == ""
    ensures Power(n) == 0
  {
  }

  /** The pieces the parser takes off one after the other. */
  lemma Pieces(n: Numeral)
    requires n.Proper()
    ensures Span(n.Text()) == |n.whole| && n.Text()[..|n.whole|] == n.whole && n.Text()[|n.whole|..] == n.Rest()
    ensures Fraction(n.Rest()) == n.frac && AfterFraction(n.Rest()) == n.Tail()
  {
    WholeSpan(n);
    FractionIs(n);
  }

  lemma TailReads(n: Numeral)
    requires n.Proper()
    ensures TailExponent(n.Tail()) == Some(Power(n))
  {
    TailStart(n);
    if n.e == "" { NoPower(n); } else { ExponentIs(n); }
  }

  lemma PiecesCut(s: string, whole: string, rest: string, frac: string, e: Option<int>)
    requires Span(s) == |whole| && s[..|whole|] == whole && s[|whole|..] == rest && AllDigits(whole) && AllDigits(frac)
    requires Fraction(rest) == frac && TailExponent(AfterFraction(rest)) == e
    ensures ParseDecimal(s) == DecimalOf(whole, frac, e)
  {
  }

  lemma ValueIs(n: Numeral)
    requires n.Proper()
    ensures DecimalOf(n.whole, n.frac, Some(Power(n))) == Some(n.Value())
  {
  }

  /** The text of a numeral is read as the number its parts stand for. */
  lemma UnsignedMeans(n: Numeral)
    requires n.Proper()
    ensures ParseDecimal(n.Text()) == Some(n.Value())
  {
    Pieces(n);
    TailReads(n);
    PiecesCut(n.Text(), n.whole, n.Rest(), n.frac, Some(Power(n)));
    ValueIs(n);
  }

  predicate IsSign(sign: string) {
    sign == "" || sign == "+" || sign == "-"
  }

  predicate NoWord(text: string) {
    var low := Lower(text);
    low != "inf" && low != "infinity" && low != "nan"
  }

  lemma NumeralIsNoWord(n: Numeral)
    requires n.Proper()
    ensures n.Text() != "" && n.Text()[0] != '+' && n.Text()[0] != '-'
    ensures NoWord(n.Text())
  {
    var t := n.Text();
    if n.whole != "" { assert t[0] == n.whole[0]; } else { assert t[0] == '.'; }
    assert Lower(t)[0] == LowerChar(t[0]);
  }

  lemma UnsignedText(s: string, text: string, x: Float)
    requires Unsigned(s) == text && NoWord(text) && ParseDecimal(text) == Some(x)
    ensures ParseF64(s) == Some(if s != "" && s[0] == '-' then Negate(x) else x)
  {
  }

  /** A signed numeral is read as the number its parts stand for. */
  lemma NumeralMeans(sign: string, n: Numeral)
    requires n.Proper() && IsSign(sign)
    ensures ParseF64(sign + n.Text()) == Some(if sign == "-" then Negate(n.Value()) else n.Value())
    ensures n.Value().Finite? && Negate(n.Value()) == Finite(-n.Value().r)
  {
    NumeralIsNoWord(n);
    UnsignedMeans(n);
    SignOfText(sign, n.Text());
    UnsignedText(sign + n.Text(), n.Text(), n.Value());
  }

  lemma SignOfText(sign: string, text: string)
    requires IsSign(sign) && text != "" && text[0] != '+' && text[0] != '-'
    ensures Unsigned(sign + text) == text
    ensures sign + text != "" && ((sign + text)[0] == '-' <==> sign == "-")
  {
    if sign == "" {
      assert sign + text == text;
    } else {
      assert (sign + text)[1..] == text && (sign + text)[0] == sign[0];
    }
  }

  // ----- Nothing else is a number -----

  /** The sign a text opens with, if it does. */
  function SignOf(s: string): (sign: string)
    ensures IsSign(sign) && s == sign + Unsigned(s)
  {
    if s != "" && (s[0] == '+' || s[0] == '-') then s[..1] else ""
  }

  function PartsOf(t: string): Numeral {
    var rest := t[Span(t)..];
    var tail := AfterFraction(rest);
    Numeral(t[..Span(t)], rest != "" && rest[0] == '.', Fraction(rest), tail[..if tail == "" then 0 else 1],
            if tail == "" then "" else SignOf(tail[1..]), if tail == "" then "" else Unsigned(tail[1..]))
  }

  lemma RestIs(rest: string)
    ensures rest == (if rest != "" && rest[0] == '.' then "." + Fraction(rest) else "") + AfterFraction(rest)
  {
    if rest != "" && rest[0] == '.' {
      assert rest == "." + rest[1..];
      var n := Span(rest[1..]);
      assert rest[1..] == rest[1..][..n] + rest[1..][n..];
    } else {
      assert "" + rest == rest;
    }
  }

  lemma TailIs(tail: string)
    requires tail != ""
    ensures tail == tail[..1] + (SignOf(tail[1..]) + Unsigned(tail[1..]))
  {
    assert tail == tail[..1] + tail[1..];
  }

  lemma PartsTail(t: string)
    ensures PartsOf(t).Tail() == AfterFraction(t[Span(t)..])
  {
    var tail := AfterFraction(t[Span(t)..]);
    if tail != "" { TailIs(tail); }
  }

  lemma PartsJoin(t: string)
    ensures PartsOf(t).Text() == t
  {
    var rest, n := t[Span(t)..], PartsOf(t);
    PartsTail(t);
    RestIs(rest);
    WholeAndRest(n, t[..Span(t)], rest);
    assert t == t[..Span(t)] + rest;
  }

  lemma WholeAndRest(n: Numeral, whole: string, rest: string)
    requires n.whole == whole && rest == (if n.dot then "." + n.frac else "") + n.Tail()
    ensures n.Text() == whole + rest
  {
  }

  lemma PartsProper(t: string)
    requires ParseDecimal(t).Some?
    ensures PartsOf(t).Proper()
  {
    var tail := AfterFraction(t[Span(t)..]);
    DecimalTail(t);
    if tail != "" { assert AllDigits(Unsigned(tail[1..])); }
  }

  ghost predicate IsNumeral(s: string) {
    exists sign, n: Numeral :: IsSign(sign) && n.Proper() && s == sign + n.Text()
  }

  /** The words for the two values that are no numbers, in any mixture of capitals. */
  predicate IsWord(s: string) {
    Lower(Unsigned(s)) == "inf" || Lower(Unsigned(s)) == "infinity" || Lower(Unsigned(s)) == "nan"
  }

  /** A text is read as a number exactly when it is a numeral or one of the words. */
  lemma NumbersExactly(s: string)
    ensures ParseF64(s).Some? <==> IsNumeral(s) || IsWord(s)
    ensures IsWord(s) ==> var nan := Lower(Unsigned(s)) == "nan";
                          ParseF64(s) == Some(if nan then NaN else if s[0] == '-' then NegInf else PosInf)
  {
    if ParseF64(s).Some? && !IsWord(s) {
      PartsProper(Unsigned(s));
      PartsJoin(Unsigned(s));
      assert s == SignOf(s) + PartsOf(Unsigned(s)).Text();
    }
    if sign, n: Numeral :| IsSign(sign) && n.Proper() && s == sign + n.Text() {
      NumeralMeans(sign, n);
    }
  }

  /** A text is read as a tier exactly when it is that many in digits, perhaps
      after a plus, and fits. */
  lemma TiersExactly(s: string, n: u32)
    ensures ParseU32(s) == Some(n) <==>
              exists digits :: (s == digits || s == "+" + digits) && digits != "" && AllDigits(digits) && DigitsValue(digits) == n
  {
    if ParseU32(s) == Some(n) {
      var digits := if s[0] == '+' then s[1..] else s;
      assert s == digits || s == "+" + digits;
    }
    if digits :| (s == digits || s == "+" + digits) && digits != "" && AllDigits(digits) && DigitsValue(digits) == n {
      assert s != digits ==> s[1..] == digits;
      assert IsDigit(digits[0]);
    }
  }
}
