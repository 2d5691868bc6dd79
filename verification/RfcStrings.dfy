/** The strings of RFC 4627: which the reader knows, and what it keeps of them. */
module RfcStrings {
  import opened JsonValue
  import opened Tokener
  import opened JsonGrammar
  import R = Rfc3629
  import S = Rfc4627

  // ----- white space

  lemma {:induction false} SkipBlank(w: string, p: string)
    requires S.Blank(w) && Solid(p)
    ensures Skip(w + p) == Upto(p)
    decreases |w|
  {
    var s := w + p;
    if w == "" {
      assert s == p;
    } else {
      assert s[0] == w[0] && s[1..] == w[1..] + p && w[0] in w && w[0] in " \t\n\r";
      assert forall c :: c in w[1..] ==> c in w;
      SkipBlank(w[1..], p);
    }
  }

  // ----- strings

  /** The letters the reader knows: not `\f`, and no upper-case digit. */
  predicate Known(l: S.Letter) {
    match l
    case Plain(_) => true
    case Escaped(c) => c != 'f'
    case Unit(digits) => forall c :: c in digits ==> !('A' <= c <= 'F')
  }

  predicate AllKnown(ls: seq<S.Letter>) {
    forall l :: l in ls ==> Known(l)
  }

  /** One letter after the other, without regard to surrogates. */
  function Singly(ls: seq<S.Letter>): string {
    if ls == [] then "" else S.LetterBytes(ls[0]) + Singly(ls[1..])
  }

  /** No `\u0000`, and no two units for one code. */
  predicate Kept(ls: seq<S.Letter>) {
    NoZero(ls) && forall i :: 0 <= i < |ls| ==> !S.Surrogates(ls[i..])
  }

  lemma Utf8Is(u: int)
    requires 0 <= u < 65536
    ensures Utf8(u) == R.Encode(u)
  {
    assert u / 64 / 64 == u / 4096;
  }

  lemma HexDigitIs(c: char)
    requires S.IsHexDigit(c) && !('A' <= c <= 'F')
    ensures IsHex(c) && HexDigit(c) == S.HexValue(c)
  {
  }

  lemma DigitsAre(digits: string)
    requires |digits| == 4 && forall c :: c in digits ==> S.IsHexDigit(c) && !('A' <= c <= 'F')
    ensures AllHex(digits) && HexValue(digits, 0) == S.UnitCode(digits)
  {
    forall c | c in digits ensures IsHex(c) { HexDigitIs(c); }
    assert AllHex(digits);
    var d1, d2, d3 := digits[1..], digits[2..], digits[3..];
    assert d1[1..] == d2 && d2[1..] == d3 && d3[1..] == "";
    assert AllHex(d1) && AllHex(d2) && AllHex(d3) && AllHex("");
    assert forall i :: 0 <= i < 4 ==> digits[i] in digits;
    HexDigitIs(digits[0]);
    HexDigitIs(digits[1]);
    HexDigitIs(digits[2]);
    HexDigitIs(digits[3]);
    hide HexDigit, S.HexValue, IsHex, AllHex, S.IsHexDigit;
    assert Power16(0) == 1 && Power16(1) == 16 && Power16(2) == 256 && Power16(3) == 4096;
    assert HexValue("", 4) == 0;
    assert HexValue(d3, 3) == HexDigit(digits[3]);
    assert HexValue(d2, 2) == HexDigit(digits[2]) * 16 + HexValue(d3, 3);
    assert HexValue(d1, 1) == HexDigit(digits[1]) * 256 + HexValue(d2, 2);
    assert HexValue(digits, 0) == HexDigit(digits[0]) * 4096 + HexValue(d1, 1);
  }

  lemma EscapeIs(c: char)
    requires c in "\"\\/bfnrt"
    ensures SimpleEscape(c) == if c == 'f' then None else Some(S.EscapedByte(c) as char)
  {
  }

  /** One letter, in front of anything. */
  lemma OneLetter(l: S.Letter, rest: string)
    requires S.IsLetter(l)
    ensures var r := ReadText(S.SpellLetter(l) + rest, '"');
      if Known(l) then r == Before(S.LetterBytes(l), ReadText(rest, '"')) else r.NotRead?
  {
    hide ReadText;
    var s := S.SpellLetter(l) + rest;
    match l
    case Plain(c) =>
      assert s[0] == c && s[1..] == rest;
      PlainText(c, s);
    case Escaped(c) =>
      assert s[0] == '\\' && s[1] == c && s[2..] == rest;
      EscapeIs(c);
      EscapedText(c, s);
    case Unit(digits) =>
      assert s == "\\u" + (digits + rest);
      assert s[0] == '\\' && s[1] == 'u' && s[2..6] == digits && s[6..] == rest;
      UnitText(digits, s);
  }

  lemma PlainText(c: char, s: string)
    requires s != "" && s[0] == c && c != '"' && c != '\\'
    ensures ReadText(s, '"') == Before([c], ReadText(s[1..], '"'))
  {
  }

  lemma EscapedText(c: char, s: string)
    requires |s| >= 2 && s[0] == '\\' && s[1] == c && c != 'u'
    ensures ReadText(s, '"') ==
      match SimpleEscape(c)
      case Some(b) => Before([b], ReadText(s[2..], '"'))
      case None => NotRead(EscapeError(s))
  {
  }

  lemma UnitText(digits: string, s: string)
    requires |s| >= 6 && s[0] == '\\' && s[1] == 'u' && s[2..6] == digits
    requires forall c :: c in digits ==> S.IsHexDigit(c)
    ensures if Known(S.Unit(digits))
      then ReadText(s, '"') == Before(R.Encode(S.UnitCode(digits)), ReadText(s[6..], '"'))
      else ReadText(s, '"').NotRead?
  {
    hide S.UnitCode, R.Encode, Utf8, HexValue, S.IsHexDigit;
    DigitsText(digits, s);
    if Known(S.Unit(digits)) {
      DigitsAre(digits);
      Utf8Is(S.UnitCode(digits));
    } else {
      var c :| c in digits && 'A' <= c <= 'F';
      assert !IsHex(c);
    }
  }

  lemma DigitsText(digits: string, s: string)
    requires |s| >= 6 && s[0] == '\\' && s[1] == 'u' && s[2..6] == digits
    ensures if AllHex(digits) then ReadText(s, '"') == Before(Utf8(HexValue(digits, 0)), ReadText(s[6..], '"'))
      else ReadText(s, '"').NotRead?
  {
    hide AllHex, Utf8, HexValue;
  }

  /** The text of a string is read letter by letter, up to its quote. */
  lemma {:induction false} LettersRead(ls: seq<S.Letter>, rest: string)
    requires S.AreLetters(ls)
    ensures var r := ReadText(S.Spell(ls) + ("\"" + rest), '"');
      if AllKnown(ls) then r == Read(Singly(ls), rest) else r.NotRead?
    decreases |ls|
  {
    hide ReadText, S.IsLetter, S.SpellLetter, S.LetterBytes, Known;
    if ls == [] {
      assert S.Spell(ls) + ("\"" + rest) == "\"" + rest && ("\"" + rest)[1..] == rest;
      QuoteEnds("\"" + rest);
    } else {
      var more := S.Spell(ls[1..]) + ("\"" + rest);
      assert S.Spell(ls) + ("\"" + rest) == S.SpellLetter(ls[0]) + more;
      OneLetter(ls[0], more);
      LettersRead(ls[1..], rest);
      assert ls == [ls[0]] + ls[1..];
    }
  }

  lemma QuoteEnds(s: string)
    requires s != "" && s[0] == '"'
    ensures ReadText(s, '"') == Read("", s[1..])
  {
  }

  // ----- what of a string is kept

  lemma {:induction false} SinglyLonger(ls: seq<S.Letter>)
    requires S.AreLetters(ls)
    ensures |Singly(ls)| >= |S.Bytes(ls)|
    ensures Singly(ls) == S.Bytes(ls) <==> forall i :: 0 <= i < |ls| ==> !S.Surrogates(ls[i..])
    ensures (exists i :: 0 <= i < |ls| && S.Surrogates(ls[i..])) ==> |Singly(ls)| > |S.Bytes(ls)|
    decreases |ls|
  {
    hide S.IsLetter, S.UnitCode;
    if ls != [] {
      assert ls[0..] == ls;
      if S.Surrogates(ls) {
        SinglyLonger(ls[2..]);
        TwoUnits(ls);
      } else {
        SinglyLonger(ls[1..]);
        assert forall i :: 0 <= i < |ls| - 1 ==> ls[1..][i..] == ls[i + 1..];
        if i :| 0 <= i < |ls| && S.Surrogates(ls[i..]) { assert ls[1..][i - 1..] == ls[i..]; }
      }
    }
  }

  lemma TwoUnits(ls: seq<S.Letter>)
    requires S.Surrogates(ls)
    ensures |Singly(ls)| == 6 + |Singly(ls[2..])|
    ensures |S.Bytes(ls)| == 4 + |S.Bytes(ls[2..])|
  {
    hide S.UnitCode;
    assert ls[1..][1..] == ls[2..];
  }

  predicate NoZero(ls: seq<S.Letter>) {
    forall l :: l in ls && l.Unit? ==> S.UnitCode(l.digits) != 0
  }

  lemma LetterNulFree(l: S.Letter)
    requires S.IsLetter(l)
    ensures NulFree(S.LetterBytes(l)) <==> (l.Unit? ==> S.UnitCode(l.digits) != 0)
  {
    hide S.UnitCode;
    if l.Unit? { EncodeNulFree(S.UnitCode(l.digits)); }
  }

  lemma EncodeNulFree(u: int)
    requires R.IsCode(u)
    ensures NulFree(R.Encode(u)) <==> u != 0
  {
  }

  lemma {:induction false} BytesNulFree(ls: seq<S.Letter>)
    requires S.AreLetters(ls)
    ensures (NulFree(S.Bytes(ls)) <==> NoZero(ls)) && (NoZero(ls) ==> NulFree(Singly(ls)))
    decreases |ls|
  {
    hide S.IsLetter, S.UnitCode, S.LetterBytes, R.Encode;
    if ls != [] {
      LetterNulFree(ls[0]);
      assert ls == [ls[0]] + ls[1..];
      BytesNulFree(ls[1..]);
      if S.Surrogates(ls) {
        BytesNulFree(ls[2..]);
        assert ls == [ls[0], ls[1]] + ls[2..];
        EncodeNulFree(S.PairCode(S.UnitCode(ls[0].digits), S.UnitCode(ls[1].digits)));
      }
    }
  }

  /** What the reader keeps of a string are the bytes it stands for if and only if no unit is zero and no two
      units stand for one code. */
  lemma KeptExactly(ls: seq<S.Letter>)
    requires S.AreLetters(ls)
    ensures CString(Singly(ls)) == S.Bytes(ls) <==> Kept(ls)
  {
    hide S.IsLetter, S.UnitCode, S.Surrogates, Singly, S.Bytes;
    BytesNulFree(ls);
    SinglyLonger(ls);
  }
}
