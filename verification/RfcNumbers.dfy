/** The numbers of RFC 4627: what `sscanf` makes of them. */
module RfcNumbers {
  import opened CTypes
  import opened JsonValue
  import opened Decimal
  import opened JsonGrammar
  import S = Rfc4627

  /** No number goes on here. */
  predicate Delimited(s: string) {
    !IsNumberChar(Front(s))
  }

  lemma {:induction false} NumberLenIs(text: string, rest: string)
    requires (forall c :: c in text ==> IsNumberChar(c)) && Delimited(rest)
    ensures NumberLen(text + rest) == |text|
    decreases |text|
  {
    if text == "" {
      assert text + rest == rest;
    } else {
      assert (text + rest)[1..] == text[1..] + rest && text == [text[0]] + text[1..];
      NumberLenIs(text[1..], rest);
    }
  }

  lemma {:induction false} DigitRunIs(s: string, rest: string)
    requires S.Digits(s) && (rest == "" || !IsDigit(rest[0]))
    ensures DigitRun(s + rest) == |s|
    decreases |s|
  {
    if s == "" {
      assert s + rest == rest;
    } else {
      assert (s + rest)[1..] == s[1..] + rest && s == [s[0]] + s[1..];
      DigitRunIs(s[1..], rest);
    }
  }

  lemma {:induction false} MagnitudeIs(s: string)
    requires S.Digits(s)
    ensures (forall c :: c in s ==> IsDigit(c)) && NatValue(s) == S.Magnitude(s)
    decreases |s|
  {
    if s != "" {
      assert s == s[..|s| - 1] + [s[|s| - 1]];
      MagnitudeIs(s[..|s| - 1]);
    }
  }

  function Sign(minus: bool): string {
    if minus then "-" else ""
  }

  /** The text of a number behind its sign and digits. */
  function Fraction(t: S.Tree): string
    requires t.Number?
  {
    if t.fraction == "" then "" else "." + t.fraction
  }

  /** What stands behind the digits in front of the point. */
  function AfterWhole(t: S.Tree): string
    requires t.Number?
  {
    Fraction(t) + (t.mark + t.exponent)
  }

  lemma Regroup(a: string, b: string, c: string, d: string, e: string)
    ensures a + b + c + d + e == a + (b + (c + (d + e)))
  {
  }

  lemma NumberPieces(t: S.Tree)
    requires t.Number?
    ensures S.Text(t) == Sign(t.minus) + (t.whole + AfterWhole(t))
  {
    Regroup(Sign(t.minus), t.whole, Fraction(t), t.mark, t.exponent);
  }

  predicate NumberChars(s: string) {
    forall c :: c in s ==> IsNumberChar(c)
  }

  lemma BothMarked(a: string, b: string)
    ensures NumberChars(a + b) <==> NumberChars(a) && NumberChars(b)
    ensures DoubleMark(a + b) <==> DoubleMark(a) || DoubleMark(b)
  {
    hide IsNumberChar;
    assert forall c :: c in a + b <==> c in a || c in b;
  }

  lemma NumberMark(t: S.Tree)
    requires t.Number? && S.WellFormed(t)
    ensures NumberChars(S.Text(t))
    ensures DoubleMark(S.Text(t)) <==> t.fraction != "" || Front(t.mark) == 'e'
  {
    NumberPieces(t);
    NumberParts(t);
    DigitChars(t.whole);
    DigitChars(t.fraction);
    DigitChars(t.exponent);
    MarkChars(t.mark);
    assert NumberChars(Sign(t.minus)) && !DoubleMark(Sign(t.minus));
    assert NumberChars(".") && DoubleMark(".") && NumberChars("") && !DoubleMark("");
    hide S.WellFormed, S.Text, S.Digits, Sign, NumberChars, DoubleMark;
    BothMarked(Sign(t.minus), t.whole + AfterWhole(t));
    BothMarked(t.whole, AfterWhole(t));
    BothMarked(Fraction(t), t.mark + t.exponent);
    BothMarked(".", t.fraction);
    BothMarked(t.mark, t.exponent);
  }

  lemma MarkChars(mark: string)
    requires mark in {"", "e", "E", "e+", "E+", "e-", "E-"}
    ensures NumberChars(mark) && (DoubleMark(mark) <==> Front(mark) == 'e')
  {
  }

  lemma NumberParts(t: S.Tree)
    requires t.Number? && S.WellFormed(t)
    ensures S.Digits(t.whole) && t.whole != "" && S.Digits(t.fraction) && S.Digits(t.exponent)
    ensures t.mark == "" <==> t.exponent == ""
    ensures t.mark in {"", "e", "E", "e+", "E+", "e-", "E-"}
  {
  }

  lemma DigitChars(s: string)
    requires S.Digits(s)
    ensures NumberChars(s) && !DoubleMark(s)
  {
  }

  lemma IntegerScan(minus: bool, whole: string, more: string)
    requires S.Digits(whole) && whole != "" && (more == "" || !IsDigit(more[0]))
    ensures var n := S.Magnitude(whole);
      ScanInt(Sign(minus) + (whole + more)) == Some(Truncate(if minus then -n else n))
  {
    var s := Sign(minus) + (whole + more);
    assert whole[0] in whole && s[0] == if minus then '-' else whole[0];
    SignDropped(minus, whole, more);
    DigitRunIs(whole, more);
    assert (whole + more)[..|whole|] == whole;
    MagnitudeIs(whole);
  }

  lemma TruncateExactly(n: int)
    ensures Truncate(n) as int == n <==> -0x8000_0000 <= n < 0x8000_0000
  {
  }

  lemma DoubleScan(t: S.Tree)
    requires t.Number? && S.WellFormed(t) && (t.fraction != "" || t.exponent != "")
    ensures ScansAsDouble(S.Text(t))
  {
    NumberPieces(t);
    NumberParts(t);
    MarkFirst(t);
    ExponentScan(t.mark, t.exponent);
    var rest := t.mark + t.exponent;
    SignDropped(t.minus, t.whole, AfterWhole(t));
    if t.fraction != "" {
      assert AfterWhole(t) == "." + (t.fraction + rest);
      PointScan(S.Text(t), t.whole, t.fraction, rest);
    } else {
      assert AfterWhole(t) == rest;
      PlainScan(S.Text(t), t.whole, rest);
    }
  }

  predicate ExponentOrEnd(rest: string) {
    rest != "" ==> rest[0] in {'e', 'E'} && DigitRun(AfterSign(rest[1..])) > 0
  }

  lemma PointScan(s: string, whole: string, fraction: string, rest: string)
    requires AfterSign(s) == whole + ("." + (fraction + rest)) && S.Digits(whole) && whole != "" && S.Digits(fraction)
    requires ExponentOrEnd(rest)
    ensures ScansAsDouble(s)
  {
    var behind := "." + (fraction + rest);
    DigitRunIs(whole, behind);
    assert (whole + behind)[|whole|..] == behind && behind[1..] == fraction + rest;
    DigitRunIs(fraction, rest);
    assert behind[1 + |fraction|..] == rest;
    hide AfterSign, DigitRun;
  }

  lemma PlainScan(s: string, whole: string, rest: string)
    requires AfterSign(s) == whole + rest && S.Digits(whole) && whole != "" && ExponentOrEnd(rest)
    ensures ScansAsDouble(s)
  {
    DigitRunIs(whole, rest);
    assert (whole + rest)[|whole|..] == rest;
    hide AfterSign, DigitRun;
  }

  lemma SignDropped(minus: bool, whole: string, behind: string)
    requires S.Digits(whole) && whole != ""
    ensures AfterSign(Sign(minus) + (whole + behind)) == whole + behind
  {
    var s := Sign(minus) + (whole + behind);
    assert whole[0] in whole;
    if minus { assert s[1..] == whole + behind; } else { assert s == whole + behind; }
  }

  lemma MarkFirst(t: S.Tree)
    requires t.Number? && S.WellFormed(t)
    ensures var rest := t.mark + t.exponent; rest == "" || rest[0] in {'e', 'E'}
  {
  }

  lemma ExponentScan(mark: string, exponent: string)
    requires S.Digits(exponent) && (mark == "" <==> exponent == "")
    requires mark in {"", "e", "E", "e+", "E+", "e-", "E-"}
    ensures ExponentOrEnd(mark + exponent)
  {
    if exponent != "" {
      var rest := mark + exponent;
      assert exponent[0] in exponent;
      assert AfterSign(rest[1..]) == exponent by {
        if |mark| == 1 {
          assert rest[1..] == exponent;
        } else {
          assert rest[1..][1..] == exponent && rest[1] == mark[1];
        }
      }
      assert exponent + "" == exponent;
      DigitRunIs(exponent, "");
    }
  }

  /** Which numbers are read as what they stand for: an integer that fits, and otherwise one with a fraction or
      with a lower-case mark. */
  predicate NumberKept(t: S.Tree)
    requires t.Number?
  {
    if S.Integral(t) then -0x8000_0000 <= S.IntegerOf(t) < 0x8000_0000
    else t.fraction != "" || Front(t.mark) == 'e'
  }
}
