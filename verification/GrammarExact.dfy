/** The state machine accepts exactly the texts that the grammar reads, with the values the grammar gives them. */
module GrammarExact {
  import opened CTypes
  import opened JsonValue
  import opened Sequences
  import opened Decimal
  import opened Tokener
  import opened JsonGrammar
  import opened TokenerRuns
  import RoundTrip

  // ----- white space and comments

  /** The end of the text comes inside a comment: the call succeeds behind a value, and fails elsewhere. */
  predicate Fades(t: Tok, s: string) {
    && Inv(t) && Run(t, s).err == (if t.top.saved == Finish then Success else ParseEof)
    && Run(t, s).tok.top.current == t.top.current && Run(t, s).tok.below == t.below
  }

  /** `u` is `t` but for the state and the buffer. */
  predicate SameLevels(t: Tok, u: Tok) {
    u == t.(top := t.top.(state := u.top.state), pb := u.pb)
  }

  lemma FadesLater(t: Tok, s: string, u: Tok, r: string)
    requires Leads(t, s, u, r) && SameLevels(t, u) && Fades(u, r)
    ensures Fades(t, s)
  {
  }

  predicate InComments(t: Tok) {
    Inv(t) && (t.top.state == Comment || t.top.state == CommentEnd || t.top.state == CommentEol)
  }

  lemma FadesNow(t: Tok)
    requires InComments(t)
    ensures Fades(t, Z(""))
  {
    ZFront("");
    StepKeepsInv(t, NUL);
    assert Dispatch(t, NUL).move.Advance? && SameLevels(t, Step(t, NUL)) && Step(t, NUL).top.state != Finish;
    hide Dispatch, Inv, Step;
  }

  /** One character inside a comment. */
  lemma CommentTurn(t: Tok, s: string) returns (u: Tok)
    requires InComments(t) && s != "" && s[0] != NUL
    ensures Leads(t, Z(s), u, Z(s[1..])) && SameLevels(t, u)
    ensures u.top.state == (match t.top.state
      case Comment => if s[0] == '*' then CommentEnd else Comment
      case CommentEol => if s[0] == '\n' then Eatws else CommentEol
      case _ => if s[0] == '/' then Eatws else Comment)
  {
    StepKeepsInv(t, s[0]);
    Take(t, s);
    u := Step(t, s[0]);
  }

  /** The machine does inside a comment what `end`, the text behind it, says. */
  predicate EndsAt(t: Tok, s: string, end: Option<string>, u: Tok) {
    match end
    case Some(rest) => Leads(t, Z(s), u, Z(rest)) && SameLevels(t, u) && u.top.state == Eatws
    case None => Fades(t, Z(s))
  }

  lemma EndsLater(t: Tok, s: string, t1: Tok, s1: string, end: Option<string>, u: Tok)
    requires Leads(t, Z(s), t1, Z(s1)) && SameLevels(t, t1) && EndsAt(t1, s1, end, u)
    ensures EndsAt(t, s, end, u)
  {
    hide Leads, Fades;
    match end
    case Some(rest) => Via(t, Z(s), t1, Z(s1));
    case None => FadesLater(t, Z(s), t1, Z(s1));
  }

  lemma {:induction false} BlockLeads(t: Tok, s: string) returns (u: Tok)
    requires Inv(t) && t.top.state == Comment && NulFree(s)
    ensures EndsAt(t, s, BlockEnd(s), u)
    decreases |s|
  {
    u := t;
    if s == "" {
      FadesNow(t);
    } else {
      assert s[0] in s;
      var t1 := CommentTurn(t, s);
      if s[0] != '*' {
        u := BlockLeads(t1, s[1..]);
        EndsLater(t, s, t1, s[1..], BlockEnd(s[1..]), u);
      } else if |s| < 2 {
        FadesNow(t1);
        EndsLater(t, s, t1, s[1..], None, u);
      } else {
        assert s[1] in s && s[1..][1..] == s[2..];
        var t2 := CommentTurn(t1, s[1..]);
        Via(t, Z(s), t1, Z(s[1..]));
        u := t2;
        if s[1] != '/' { u := BlockLeads(t2, s[2..]); EndsLater(t, s, t2, s[2..], BlockEnd(s[2..]), u); }
      }
      hide Leads, Fades;
    }
  }

  lemma {:induction false} LineLeads(t: Tok, s: string) returns (u: Tok)
    requires Inv(t) && t.top.state == CommentEol && NulFree(s)
    ensures EndsAt(t, s, LineEnd(s), u)
    decreases |s|
  {
    u := t;
    if s == "" {
      FadesNow(t);
    } else {
      assert s[0] in s;
      u := CommentTurn(t, s);
      if s[0] != '\n' {
        var t1 := u;
        u := LineLeads(t1, s[1..]);
        EndsLater(t, s, t1, s[1..], LineEnd(s[1..]), u);
      }
    }
  }

  /** The two characters that begin a comment. */
  lemma CommentBegins(t: Tok, s: string) returns (u: Tok)
    requires Inv(t) && t.top.state == Eatws && NulFree(s) && Front(s) == '/' && At(s, 1) in {'*', '/'}
    ensures Leads(t, Z(s), u, Z(s[2..])) && SameLevels(t, u)
    ensures u.top.state == if s[1] == '*' then Comment else CommentEol
  {
    hide Run, Leads;
    Take(t, s);
    var t1 := Step(t, s[0]);
    StepKeepsInv(t, s[0]);
    assert s[1..][0] == s[1] && s[1..][1..] == s[2..];
    Take(t1, s[1..]);
    StepKeepsInv(t1, s[1]);
    u := Step(t1, s[1]);
    Via(t, Z(s), t1, Z(s[1..]));
  }

  lemma NoComment(t: Tok, s: string)
    requires Inv(t) && t.top.state == Eatws && NulFree(s) && Front(s) == '/' && At(s, 1) !in {'*', '/'}
    ensures Rejects(t, Z(s), if At(s, 1) == NUL && t.top.saved != Finish then ParseEof else BadComment)
  {
    hide Run, Leads, Rejects;
    Take(t, s);
    var t1 := Step(t, s[0]);
    StepKeepsInv(t, s[0]);
    assert Front(s[1..]) == At(s, 1);
    Refuse(t1, s[1..], BadComment);
    Via(t, Z(s), t1, Z(s[1..]));
  }

  /** The machine passes over what the grammar skips. */
  predicate Skips(t: Tok, s: string, b: Blank, u: Tok) {
    match b
    case Upto(rest) => Leads(t, Z(s), u, Z(rest)) && u == t.(pb := u.pb)
    case Unended => Fades(t, Z(s))
    case Stray(last) => Rejects(t, Z(s), if last && t.top.saved != Finish then ParseEof else BadComment)
  }

  lemma SkipsLater(t: Tok, s: string, t1: Tok, s1: string, b: Blank, u: Tok)
    requires Leads(t, Z(s), t1, Z(s1)) && t1 == t.(pb := t1.pb) && Skips(t1, s1, b, u)
    ensures Skips(t, s, b, u)
  {
    hide Leads, Fades, Rejects;
    Via(t, Z(s), t1, Z(s1));
    if b == Unended { FadesLater(t, Z(s), t1, Z(s1)); }
  }

  lemma {:induction false} SkipLeads(t: Tok, s: string) returns (u: Tok)
    requires Inv(t) && t.top.state == Eatws && NulFree(s)
    ensures Skips(t, s, Skip(s), u)
    decreases |s|, 1
  {
    u := t;
    if IsSpace(Front(s)) {
      assert s != "" && s[0] in s;
      Take(t, s);
      assert Step(t, s[0]) == t;
      hide Inv, Dispatch, Step, Leads;
      u := SkipLeads(t, s[1..]);
      SkipsLater(t, s, t, s[1..], Skip(s[1..]), u);
    } else if Front(s) != '/' {
      Stay(t, Z(s));
    } else if At(s, 1) in {'*', '/'} {
      u := BehindLeads(t, s);
    } else {
      NoComment(t, s);
    }
  }

  lemma {:induction false} BehindLeads(t: Tok, s: string) returns (u: Tok)
    requires Inv(t) && t.top.state == Eatws && NulFree(s) && Front(s) == '/' && At(s, 1) in {'*', '/'}
    ensures Skips(t, s, Behind(s, if s[1] == '*' then BlockEnd(s[2..]) else LineEnd(s[2..])), u)
    decreases |s|, 0
  {
    var t1 := CommentBegins(t, s);
    hide Leads, Run, Dispatch, Step, Fades, BlockEnd, LineEnd;
    var end := if s[1] == '*' then BlockEnd(s[2..]) else LineEnd(s[2..]);
    var t2;
    if s[1] == '*' { t2 := BlockLeads(t1, s[2..]); } else { t2 := LineLeads(t1, s[2..]); }
    EndsLater(t, s, t1, s[2..], end, t2);
    u := t;
    match end
    case Some(rest) =>
      LeadsKeepsInv(t, Z(s), t2, Z(rest));
      u := SkipLeads(t2, rest);
      SkipsLater(t, s, t2, rest, Skip(rest), u);
    case None =>
  }

  lemma LeadsKeepsInv(t: Tok, s: string, u: Tok, r: string)
    requires Leads(t, s, u, r)
    ensures Inv(u)
  {
  }

  // ----- words

  /** `k` characters of a word have been read. */
  predicate InSpelling(t: Tok, below: seq<Level>, word: string, k: nat) {
    && RoundTrip.Word(word) && Inv(t) && k <= |word| && t.below == below && t.stPos == k == |t.pb|
    && (forall i :: 0 <= i < k ==> Lower(t.pb[i]) == word[i])
    && t.top == Level(if word == "null" then NullWord else Boolean, Start, Null, None)
  }

  function WordFault(word: string): Error {
    if word == "null" then NullExpected else BooleanExpected
  }

  /** What is wrong with `s` as the rest of a word. */
  function RestError(s: string, rest: string, e: Error): Error {
    if |s| < |rest| && Spelled(s, rest[..|s|]) then ParseEof else e
  }

  lemma SpellingStep(t: Tok, below: seq<Level>, word: string, k: nat, c: char)
    requires InSpelling(t, below, word, k) && k < |word| && (k == 0 && word != "null" ==> Lower(c) == word[0])
    ensures Lower(c) == word[k] ==> Dispatch(t, c).move.Advance? && InSpelling(Step(t, c), below, word, k + 1)
    ensures Lower(c) != word[k] ==> Dispatch(t, c).move == Out(WordFault(word)) && Step(t, c).top == t.top
  {
    StepKeepsInv(t, c);
    RoundTrip.MatchesNext(word, t.pb, c);
    if word != "null" {
      var other := if word == "true" then "false" else "true";
      if k > 0 {
        RoundTrip.OtherWord(word, other, t.pb, c);
      } else {
        RoundTrip.MatchesNext(other, t.pb, c);
        assert "true"[0] != "false"[0];
      }
    }
  }

  lemma SpellingEnd(t: Tok, below: seq<Level>, word: string, c: char)
    requires InSpelling(t, below, word, |word|)
    ensures Dispatch(t, c).move.Redo? && Done(Step(t, c), below, RoundTrip.WordValue(word))
  {
    StepKeepsInv(t, c);
    var pb := t.pb + [c];
    assert forall i :: 0 <= i < |word| ==> pb[i] == t.pb[i];
    if word == "false" { RoundTrip.OtherWord(word, "true", t.pb, c); }
  }

  /** From the `k`th character on, the word is completed or refused. */
  lemma {:induction false} Spelling(t: Tok, below: seq<Level>, word: string, k: nat, s: string) returns (u: Tok)
    requires InSpelling(t, below, word, k) && NulFree(s) && (k == 0 && word != "null" ==> Lower(Front(s)) == word[0])
    ensures Spelled(s, word[k..]) ==> Done(u, below, RoundTrip.WordValue(word)) && Leads(t, Z(s), u, Z(s[|word| - k..]))
    ensures !Spelled(s, word[k..]) ==> Rejects(t, Z(s), RestError(s, word[k..], WordFault(word)))
    decreases |word| - k
  {
    hide Dispatch, Step, Inv;
    var c := Front(s);
    u := t;
    if k == |word| {
      SpellingEnd(t, below, word, c);
      Stays(t, s) by { InSpellingInv(t, below, word, k); }
      u := Step(t, c);
      assert word[k..] == "" && s[0..] == s;
    } else {
      InSpellingInv(t, below, word, k);
      SpellingStep(t, below, word, k, c);
      if Lower(c) == word[k] {
        NotLetterEnd(word, k);
        Take(t, s);
        u := Spelling(Step(t, c), below, word, k + 1, s[1..]);
        Via(t, Z(s), Step(t, c), Z(s[1..]));
        SpelledNext(s, word, k);
      } else {
        Refuse(t, s, WordFault(word));
        assert word[k..][0] == word[k];
        InSpellingTop(t, below, word, k);
        if s != "" && |s| < |word| - k { assert word[k..][..|s|][0] == word[k]; }
      }
    }
  }

  lemma SpelledLonger(s: string, w: string)
    requires s != "" && w != "" && Lower(s[0]) == w[0] && |s| < |w|
    ensures Spelled(s, w[..|s|]) <==> Spelled(s[1..], w[1..][..|s| - 1])
  {
    var a, b := w[..|s|], w[1..][..|s| - 1];
    assert a[0] == w[0] && forall i :: 0 <= i < |b| ==> b[i] == a[i + 1] && s[1..][i] == s[i + 1];
    if Spelled(s[1..], b) {
      assert forall i :: 0 < i < |a| ==> s[i] == s[1..][i - 1] && a[i] == b[i - 1];
    }
  }

  lemma InSpellingTop(t: Tok, below: seq<Level>, word: string, k: nat)
    requires InSpelling(t, below, word, k)
    ensures t.top.state != Finish && t.top.saved != Finish
  {
  }

  lemma InSpellingInv(t: Tok, below: seq<Level>, word: string, k: nat)
    requires InSpelling(t, below, word, k)
    ensures Inv(t)
  {
  }

  lemma NotLetterEnd(word: string, k: nat)
    requires RoundTrip.Word(word) && k < |word|
    ensures word[k] != NUL && Lower(NUL) == NUL
  {
  }

  lemma SpelledNext(s: string, word: string, k: nat)
    requires s != "" && k < |word| && Lower(s[0]) == word[k]
    ensures Spelled(s, word[k..]) <==> Spelled(s[1..], word[k + 1..])
    ensures Spelled(s, word[k..]) ==> |word| - k <= |s| && s[|word| - k..] == s[1..][|word| - k - 1..]
    ensures forall e :: RestError(s, word[k..], e) == RestError(s[1..], word[k + 1..], e)
  {
    if |s| < |word| - k { SpelledLonger(s, word[k..]); }
    var w, w1 := word[k..], word[k + 1..];
    assert w[0] == word[k] && w[1..] == w1;
    if Spelled(s, w) {
      assert forall i :: 0 <= i < |w1| ==> s[1..][i] == s[i + 1] && w1[i] == w[i + 1];
    }
    if Spelled(s[1..], w1) {
      assert forall i :: 0 < i < |w| ==> s[i] == s[1..][i - 1] && w[i] == w1[i - 1];
    }
  }

  /** A fresh level and the first letter of a word. */
  lemma WordStart(t: Tok, p: string, word: string) returns (u: Tok)
    requires Inv(t) && t.top == FRESH && RoundTrip.Word(word) && p != "" && Lower(p[0]) == word[0]
    ensures InSpelling(u, t.below, word, 0) && Leads(t, Z(p), u, Z(p))
  {
    hide Run, Leads;
    Stays(t, p);
    var t1 := Step(t, p[0]);
    assert t1 == t.(top := FRESH.(state := Start));
    StepKeepsInv(t, p[0]);
    Stays(t1, p);
    u := Step(t1, p[0]);
    StepKeepsInv(t1, p[0]);
    Via(t, Z(p), t1, Z(p));
    Via(t, Z(p), u, Z(p));
  }

  lemma WordLeads(t: Tok, p: string, word: string) returns (u: Tok)
    requires Inv(t) && t.top == FRESH && NulFree(p) && RoundTrip.Word(word) && p != "" && Lower(p[0]) == word[0]
    ensures Spelled(p, word) ==> Done(u, t.below, RoundTrip.WordValue(word)) && Leads(t, Z(p), u, Z(p[|word|..]))
    ensures !Spelled(p, word) ==> Rejects(t, Z(p), WordError(p, word))
  {
    var t2 := WordStart(t, p, word);
    hide Dispatch, Step, Inv, Leads, Rejects, Done, InSpelling;
    assert word[0..] == word;
    u := Spelling(t2, t.below, word, 0, p);
    Via(t, Z(p), t2, Z(p));
  }

  // ----- numbers

  lemma {:induction false} Digits(t: Tok, below: seq<Level>, pb: string, s: string) returns (u: Tok)
    requires RoundTrip.InNumeral(t, below, pb) && NulFree(s)
    ensures var n := NumberLen(s); RoundTrip.InNumeral(u, below, pb + s[..n]) && Leads(t, Z(s), u, Z(s[n..]))
    decreases |s|
  {
    hide Dispatch, Step, Inv, RoundTrip.InNumeral;
    u := t;
    NumericInv(t, below, pb);
    if s != "" && IsNumberChar(s[0]) {
      var c := s[0];
      RoundTrip.NumeralStep(t, below, pb, c);
      Take(t, s);
      var n := NumberLen(s[1..]);
      u := Digits(Step(t, c), below, pb + [c], s[1..]);
      Via(t, Z(s), Step(t, c), Z(s[1..]));
      OneLonger(pb, s, n);
    } else {
      assert pb + s[..0] == pb && s[0..] == s;
      Stay(t, Z(s));
    }
  }

  lemma OneLonger(pb: string, s: string, n: nat)
    requires s != "" && n < |s|
    ensures pb + [s[0]] + s[1..][..n] == pb + s[..n + 1] && s[1..][n..] == s[n + 1..]
  {
    assert s[..n + 1] == [s[0]] + s[1..][..n];
    Assoc(pb, [s[0]], s[1..][..n]);
  }

  lemma NumericInv(t: Tok, below: seq<Level>, pb: string)
    requires RoundTrip.InNumeral(t, below, pb)
    ensures Inv(t)
  {
  }

  lemma NumberStart(t: Tok, p: string) returns (u: Tok)
    requires Inv(t) && t.top == FRESH && p != "" && (IsDigit(p[0]) || p[0] == '-')
    ensures RoundTrip.InNumeral(u, t.below, "") && Leads(t, Z(p), u, Z(p))
  {
    ZFront(p);
    u := RoundTrip.NumeralStart(t, Z(p));
  }

  lemma NumberLeads(t: Tok, p: string) returns (u: Tok)
    requires Inv(t) && t.top == FRESH && NulFree(p) && p != "" && (IsDigit(p[0]) || p[0] == '-')
    ensures match ReadNumber(p)
      case Read(v, rest) => Done(u, t.below, v) && Leads(t, Z(p), u, Z(rest))
      case NotRead(err) => Rejects(t, Z(p), err)
  {
    var t2 := NumberStart(t, p);
    hide Dispatch, Step, Inv, Leads, Rejects, Done, RoundTrip.InNumeral, Numeric;
    var n := NumberLen(p);
    var t3 := Digits(t2, t.below, "", p);
    assert "" + p[..n] == p[..n];
    Via(t, Z(p), t3, Z(p[n..]));
    u := NumberEnd(t3, t.below, p[..n], p[n..]);
  }

  lemma NumberEnd(t: Tok, below: seq<Level>, pb: string, s: string) returns (u: Tok)
    requires RoundTrip.InNumeral(t, below, pb) && !IsNumberChar(Front(s))
    ensures match Numeric(pb, DoubleMark(pb))
      case Some(v) => Done(u, below, v) && Leads(t, Z(s), u, Z(s))
      case None => Rejects(t, Z(s), Fault(s, NumberExpected))
  {
    hide Numeric;
    var c := Front(s);
    u := Step(t, c);
    StepKeepsInv(t, c);
    if Numeric(pb, DoubleMark(pb)).Some? {
      Stays(t, s);
    } else {
      Refuse(t, s, NumberExpected);
    }
  }

  // ----- strings and keys

  /** Inside a string or a key; the end of the text would be an error here. */
  predicate InQuotes(t: Tok) {
    Inv(t) && (t.top.state == String || t.top.state == ObjectField) && t.top.saved != Finish && IsQuote(t.quote)
  }

  /** `u` is `t` after reading `s` into the buffer. */
  predicate Collected(t: Tok, u: Tok, s: string) {
    && InQuotes(u) && u.below == t.below && u.pb == t.pb + s && u.quote == t.quote
    && u.top == t.top.(saved := u.top.saved) && u.obj == t.obj
  }

  lemma CollectedTwice(t: Tok, u: Tok, w: Tok, a: string, b: string)
    requires Collected(t, u, a) && Collected(u, w, b)
    ensures Collected(t, w, a + b)
  {
    assert t.pb + a + b == t.pb + (a + b);
  }

  lemma PlainStep(t: Tok, c: char)
    requires InQuotes(t) && c != t.quote && c != '\\'
    ensures Dispatch(t, c).move.Advance? && Collected(t, Step(t, c), [c])
  {
    StepKeepsInv(t, c);
  }

  /** Behind a backslash. */
  predicate AtEscape(t: Tok, u: Tok) {
    u == t.(top := t.top.(state := StringEscape, saved := t.top.state)) && Inv(u)
  }

  lemma BackslashStep(t: Tok)
    requires InQuotes(t)
    ensures Dispatch(t, '\\').move.Advance? && AtEscape(t, Step(t, '\\'))
  {
    StepKeepsInv(t, '\\');
  }

  /** The escape is wrong at `c`. */
  predicate Fails(t: Tok, u: Tok, c: char) {
    Dispatch(u, c).move == Out(BadString) && Step(u, c).top.saved == t.top.state && Step(u, c).top.state != Finish
  }

  lemma EscapeStep(t: Tok, u: Tok, c: char)
    requires InQuotes(t) && AtEscape(t, u)
    ensures SimpleEscape(c).Some? ==> Dispatch(u, c).move.Advance? && Collected(t, Step(u, c), [SimpleEscape(c).value])
    ensures c == 'u' ==> Dispatch(u, c).move.Advance? && AtDigit(t, Step(u, c), 0, 0)
    ensures SimpleEscape(c).None? && c != 'u' ==> Fails(t, u, c)
  {
    StepKeepsInv(u, c);
  }

  /** At the `k`th digit behind `\u`, with the value `ucs` so far. */
  predicate AtDigit(t: Tok, u: Tok, k: nat, ucs: nat) {
    && u == t.(top := t.top.(state := EscapeUnicode, saved := t.top.state), ucs := ucs, stPos := k)
    && Inv(u) && k < 4
  }

  lemma HexChars(c: char)
    ensures IsHex(c) ==> IsHexChar(c) && c != NUL && 0 <= HexDigit(c) < 16
    ensures !IsHex(c) && c != NUL ==> !IsHexChar(c)
  {
  }

  lemma Powers()
    ensures Power16(0) == 1 && Power16(1) == 16 && Power16(2) == 256 && Power16(3) == 4096 && Power16(4) == 65536
  {
  }

  lemma DigitStep(t: Tok, u: Tok, k: nat, ucs: nat, c: char)
    requires InQuotes(t) && AtDigit(t, u, k, ucs) && ucs < 65536
    ensures IsHex(c) ==> Dispatch(u, c).move.Advance?
    ensures IsHex(c) && k < 3 ==> AtDigit(t, Step(u, c), k + 1, ucs + HexDigit(c) * Power16(3 - k))
    ensures IsHex(c) && k == 3 ==> Collected(t, Step(u, c), Utf8(ucs + HexDigit(c)))
    ensures !IsHex(c) && c != NUL ==> Fails(t, u, c)
    ensures c == NUL ==>
      Dispatch(u, c).move.Advance? && Step(u, c).top.state != Finish && Step(u, c).top.saved != Finish
  {
    StepKeepsInv(u, c);
    HexChars(c);
    Powers();
    hide Utf8, IsHexChar;
    if IsHex(c) {
      assert ucs + HexDigit(c) * Power16(3 - k) < 0x1_0000_0000;
    }
  }

  lemma HexFront(s: string, k: nat)
    requires k < 4 && |s| >= 4 - k
    ensures AllHex(s[..4 - k]) <==> IsHex(s[0]) && AllHex(s[1..][..3 - k])
    ensures AllHex(s[..4 - k]) ==>
      HexValue(s[..4 - k], k) == HexDigit(s[0]) * Power16(3 - k) + HexValue(s[1..][..3 - k], k + 1)
  {
    var d := s[..4 - k];
    assert d[0] == s[0] && d[1..] == s[1..][..3 - k] && d == [s[0]] + s[1..][..3 - k];
  }

  lemma LastHex(s: string)
    requires s != ""
    ensures AllHex(s[..1]) <==> IsHex(s[0])
    ensures AllHex(s[..1]) ==> HexValue(s[..1], 3) == HexDigit(s[0])
  {
    assert s[..1][0] == s[0] && s[..1][1..] == "";
    Powers();
  }

  lemma DigitInv(t: Tok, u: Tok, k: nat, ucs: nat)
    requires AtDigit(t, u, k, ucs)
    ensures Inv(u) && k < 4
  {
  }

  lemma RoomForDigit(ucs: nat, k: nat, c: char)
    requires k < 4 && ucs + Power16(4 - k) <= 65536
    ensures ucs < 65536
    ensures IsHex(c) ==> HexDigit(c) >= 0 && ucs + HexDigit(c) * Power16(3 - k) + Power16(3 - k) <= 65536
  {
    Powers();
    HexChars(c);
    hide HexDigit;
  }

  /** What is left of four digits is read, or refused. */
  predicate DigitsRead(t: Tok, u: Tok, k: nat, ucs: nat, s: string, w: Tok)
    requires k < 4
  {
    if |s| >= 4 - k && AllHex(s[..4 - k]) then
      Collected(t, w, Utf8(ucs + HexValue(s[..4 - k], k))) && Leads(u, Z(s), w, Z(s[4 - k..]))
    else Rejects(u, Z(s), if |s| < 4 - k && AllHex(s) then ParseEof else BadString)
  }

  lemma OneDigitMore(t: Tok, u: Tok, u1: Tok, k: nat, ucs: nat, ucs1: nat, s: string, w: Tok)
    requires k < 3 && s != "" && IsHex(s[0]) && Leads(u, Z(s), u1, Z(s[1..]))
    requires ucs1 == ucs + HexDigit(s[0]) * Power16(3 - k) && DigitsRead(t, u1, k + 1, ucs1, s[1..], w)
    ensures DigitsRead(t, u, k, ucs, s, w)
  {
    hide Leads, Collected, Rejects, HexValue, AllHex, Utf8, HexDigit, IsHex, Power16;
    Via(u, Z(s), u1, Z(s[1..]));
    NotAllHex(s);
    if |s| >= 4 - k {
      HexFront(s, k);
      assert s[1..][3 - k..] == s[4 - k..];
    }
  }

  /** The digits from the `k`th on. */
  lemma {:induction false} HexDigits(t: Tok, u: Tok, k: nat, ucs: nat, s: string) returns (w: Tok)
    requires InQuotes(t) && AtDigit(t, u, k, ucs) && NulFree(s) && ucs + Power16(4 - k) <= 65536
    ensures DigitsRead(t, u, k, ucs, s, w)
    decreases 4 - k
  {
    var c := Front(s);
    hide Dispatch, Step, Inv, InQuotes, Collected, HexValue, AllHex, Utf8, HexDigit, IsHex, Power16;
    RoomForDigit(ucs, k, c);
    DigitStep(t, u, k, ucs, c);
    HexChars(c);
    w := u;
    DigitInv(t, u, k, ucs);
    hide AtDigit;
    if s == "" {
      EndInside(u);
      NoDigits(s);
    } else if !IsHex(c) {
      Refuse(u, s, BadString);
      FailsInside(t, u, c);
      if |s| >= 4 - k { HexFront(s, k); }
      NotAllHex(s);
    } else {
      Take(u, s);
      w := Step(u, c);
      if k < 3 {
        hide DigitsRead, Leads;
        var ucs1 := ucs + HexDigit(c) * Power16(3 - k);
        w := HexDigits(t, Step(u, c), k + 1, ucs1, s[1..]);
        OneDigitMore(t, u, Step(u, c), k, ucs, ucs1, s, w);
      } else {
        LastHex(s);
      }
    }
  }

  lemma NoDigits(s: string)
    requires s == ""
    ensures AllHex(s)
  {
  }

  lemma NotAllHex(s: string)
    requires s != ""
    ensures AllHex(s) <==> IsHex(s[0]) && AllHex(s[1..])
  {
    assert s == [s[0]] + s[1..];
  }

  lemma FailsInside(t: Tok, u: Tok, c: char)
    requires InQuotes(t) && Fails(t, u, c)
    ensures Dispatch(u, c).move == Out(BadString)
    ensures Step(u, c).top.state != Finish && Step(u, c).top.saved != Finish
  {
  }

  lemma QuotesInv(t: Tok)
    requires InQuotes(t)
    ensures Inv(t) && t.quote != NUL && t.quote != '\\'
  {
  }

  lemma Quoteless(t: Tok, u: Tok, s: string)
    requires Collected(t, u, s)
    ensures InQuotes(u) && u.quote == t.quote
  {
  }

  /** Behind a backslash: what is read, or an error. */
  lemma EscapeLeads(t: Tok, s: string) returns (u: Tok, n: nat, e: string)
    requires InQuotes(t) && NulFree(s) && s != "" && s[0] == '\\'
    ensures n == 0 ==> ReadText(s, t.quote) == NotRead(EscapeError(s)) && Rejects(t, Z(s), EscapeError(s))
    ensures n > 0 ==> 2 <= n <= |s| && ReadText(s, t.quote) == Before(e, ReadText(s[n..], t.quote))
    ensures n > 0 ==> Collected(t, u, e) && Leads(t, Z(s), u, Z(s[n..]))
  {
    QuotesInv(t);
    BackslashStep(t);
    var t1 := Step(t, '\\');
    Take(t, s);
    var s1 := s[1..];
    var c := Front(s1);
    EscapeStep(t, t1, c);
    u, n, e := t, 0, "";
    hide Dispatch, Step, InQuotes, Collected, Leads, Utf8;
    if SimpleEscape(c).Some? {
      Take(t1, s1);
      Via(t, Z(s), t1, Z(s1));
      u, n, e := Step(t1, c), 2, [SimpleEscape(c).value];
      assert s1[1..] == s[2..];
    } else if c == 'u' {
      Take(t1, s1);
      assert Power16(4) == 65536 by { Powers(); }
      var s2 := s1[1..];
      u := HexDigits(t, Step(t1, c), 0, 0, s2);
      Via(t1, Z(s1), Step(t1, c), Z(s2));
      Via(t, Z(s), t1, Z(s1));
      assert s2 == s[2..] && (|s2| >= 4 ==> s2[..4] == s[2..6] && s2[4..] == s[6..]);
      if |s2| >= 4 && AllHex(s2[..4]) {
        n, e := 6, Utf8(HexValue(s[2..6], 0));
      }
    } else {
      FailsInside(t, t1, c);
      Refuse(t1, s1, BadString);
      Via(t, Z(s), t1, Z(s1));
    }
  }

  lemma {:induction false} TextLeads(t: Tok, s: string) returns (u: Tok)
    requires InQuotes(t) && NulFree(s)
    ensures match ReadText(s, t.quote)
      case Read(buf, rest) => Collected(t, u, buf) && Leads(t, Z(s), u, Z([t.quote] + rest))
      case NotRead(err) => Rejects(t, Z(s), err)
    decreases |s|
  {
    QuotesInv(t);
    u := t;
    var q := t.quote;
    if s == "" {
      PlainStep(t, NUL);
      EndsInQuotes(t, Step(t, NUL), [NUL]);
      EndInside(t);
    } else if s[0] == q {
      assert [q] + s[1..] == s && Collected(t, t, "") by { assert t.pb + "" == t.pb; }
      Stay(t, Z(s));
    } else {
      var t1, n, e := t, 1, [s[0]];
      if s[0] == '\\' {
        t1, n, e := EscapeLeads(t, s);
      } else {
        PlainStep(t, s[0]);
        Take(t, s);
        t1 := Step(t, s[0]);
      }
      hide Dispatch, Step, Inv, InQuotes, Collected, Leads;
      if n > 0 {
        Quoteless(t, t1, e);
        u := TextLeads(t1, s[n..]);
        Via(t, Z(s), t1, Z(s[n..]));
        if ReadText(s[n..], q).Read? { CollectedTwice(t, t1, u, e, ReadText(s[n..], q).value); }
      }
    }
  }

  lemma EndsInQuotes(t: Tok, u: Tok, s: string)
    requires Collected(t, u, s)
    ensures u.top.state != Finish && u.top.saved != Finish
  {
  }

  // ----- arrays and objects

  /** Between two tokens of a container. */
  predicate Between(t: Tok, below: seq<Level>, next: State, v: Json, field: Option<string>) {
    Inv(t) && t.below == below && t.top == Level(Eatws, next, v, field)
  }

  lemma Arrive(t: Tok, below: seq<Level>, next: State, v: Json, field: Option<string>, s: string) returns (u: Tok)
    requires Between(t, below, next, v, field) && Solid(s)
    ensures u == t.(top := t.top.(state := next)) && Inv(u) && Leads(t, Z(s), u, Z(s))
  {
    StepKeepsInv(t, Front(s));
    Stays(t, s);
    u := Step(t, Front(s));
  }

  predicate Closes(c: char, next: State) {
    (c == ']' && (next == Array || next == ArraySep)) || (c == '}' && (next == ObjectFieldStart || next == ObjectSep))
  }

  lemma CloseBracket(t: Tok, below: seq<Level>, next: State, v: Json, s: string) returns (u: Tok)
    requires Between(t, below, next, v, None) && s != "" && Closes(s[0], next)
    ensures Done(u, below, v) && Leads(t, Z(s), u, Z(s[1..]))
  {
    var t1 := Arrive(t, below, next, v, None, s);
    StepKeepsInv(t1, s[0]);
    Take(t1, s);
    Via(t, Z(s), t1, Z(s));
    u := Step(t1, s[0]);
  }

  lemma Comma(t: Tok, below: seq<Level>, next: State, v: Json, s: string) returns (u: Tok)
    requires Between(t, below, next, v, None) && s != "" && s[0] == ',' && (next == ArraySep || next == ObjectSep)
    ensures Between(u, below, if next == ArraySep then Array else ObjectFieldStart, v, None) &&
      Leads(t, Z(s), u, Z(s[1..]))
  {
    var t1 := Arrive(t, below, next, v, None, s);
    StepKeepsInv(t1, s[0]);
    Take(t1, s);
    Via(t, Z(s), t1, Z(s));
    u := Step(t1, s[0]);
  }

  lemma NoSeparator(t: Tok, below: seq<Level>, next: State, v: Json, s: string)
    requires Between(t, below, next, v, None) && Solid(s) && (next == ArraySep || next == ObjectSep)
    requires Front(s) != ',' && !Closes(Front(s), next)
    ensures Rejects(t, Z(s), Fault(s, if next == ArraySep then ArraySeparator else ValueSeparator))
  {
    var t1 := Arrive(t, below, next, v, None, s);
    Refuse(t1, s, if next == ArraySep then ArraySeparator else ValueSeparator);
    Via(t, Z(s), t1, Z(s));
  }

  /** The level below, while the value above it is read. */
  function Waits(t: Tok): Level {
    t.top.(state := if t.top.saved == Array then ArrayAdd else ObjectValueAdd)
  }

  lemma OpenAt(t: Tok, below: seq<Level>, next: State, v: Json, field: Option<string>, s: string) returns (u: Tok)
    requires Between(t, below, next, v, field) && Solid(s)
    requires (next == Array && Front(s) != ']') || next == ObjectValue
    ensures |below| < MAX_DEPTH - 1 ==>
      Inv(u) && u.top == FRESH && u.below == below + [Waits(t)] && Waiting(Waits(t)) && Leads(t, Z(s), u, Z(s))
    ensures |below| >= MAX_DEPTH - 1 ==> Rejects(t, Z(s), Fault(s, TooDeep))
  {
    var t1 := Arrive(t, below, next, v, field, s);
    u := t1;
    if |below| < MAX_DEPTH - 1 {
      StepKeepsInv(t1, Front(s));
      Stays(t1, s);
      Via(t, Z(s), t1, Z(s));
      u := Step(t1, Front(s));
    } else {
      Refuse(t1, s, TooDeep);
      Via(t, Z(s), t1, Z(s));
    }
  }

  /** The container on the level below with the value added. */
  function Added(under: Level, v: Json): Json
    requires Waiting(under)
  {
    if under.state == ArrayAdd then Arr(under.current.items + [v])
    else Obj(AddMember(under.current.members, under.field.value, v))
  }

  lemma AddAt(t: Tok, below: seq<Level>, under: Level, v: Json, s: string) returns (u: Tok)
    requires Done(t, below + [under], v) && Waiting(under) && Solid(s)
    ensures Between(u, below, if under.state == ArrayAdd then ArraySep else ObjectSep, Added(under, v), None)
    ensures Leads(t, Z(s), u, Z(s))
  {
    ZFront(s);
    u := RoundTrip.CloseLevelAt(t, below, under, v, Z(s));
  }

  // ----- values

  lemma FreshIs(t: Tok)
    requires Inv(t) && t.top == FRESH
    ensures Between(t, t.below, Start, Null, None)
  {
  }

  lemma BracketStep(t: Tok, p: string) returns (u: Tok)
    requires Inv(t) && t.top == FRESH && p != "" && (p[0] == '[' || p[0] == '{')
    ensures if p[0] == '[' then Between(u, t.below, Array, Arr([]), None)
      else Between(u, t.below, ObjectFieldStart, Obj([]), None)
    ensures Leads(t, Z(p), u, Z(p[1..]))
  {
    var t1 := Arrive(t, t.below, Start, Null, None, p);
    StepKeepsInv(t1, p[0]);
    Take(t1, p);
    Via(t, Z(p), t1, Z(p));
    u := Step(t1, p[0]);
  }

  lemma NoValue(t: Tok, p: string)
    requires Inv(t) && t.top == FRESH && Solid(p)
    requires Front(p) !in {'{', '[', '-'} && !IsQuote(Front(p)) && !IsDigit(Front(p)) &&
      Lower(Front(p)) !in {'n', 't', 'f'}
    ensures Rejects(t, Z(p), Fault(p, Unexpected))
  {
    var t1 := Arrive(t, t.below, Start, Null, None, p);
    Refuse(t1, p, Unexpected);
    Via(t, Z(p), t1, Z(p));
  }

  lemma QuoteStep(t: Tok, p: string) returns (u: Tok)
    requires Inv(t) && t.top == FRESH && p != "" && IsQuote(p[0])
    ensures InQuotes(u) && u.below == t.below && u.top == FRESH.(state := String) && u.pb == "" && u.quote == p[0]
    ensures Leads(t, Z(p), u, Z(p[1..]))
  {
    var t1 := Arrive(t, t.below, Start, Null, None, p);
    StepKeepsInv(t1, p[0]);
    Take(t1, p);
    Via(t, Z(p), t1, Z(p));
    u := Step(t1, p[0]);
  }

  lemma CloseString(t: Tok, rest: string) returns (u: Tok)
    requires InQuotes(t) && t.top.state == String && t.top.field == None
    ensures Done(u, t.below, Str(CString(t.pb))) && Leads(t, Z([t.quote] + rest), u, Z(rest))
  {
    var s := [t.quote] + rest;
    StepKeepsInv(t, t.quote);
    assert s[1..] == rest;
    Take(t, s);
    u := Step(t, t.quote);
  }

  lemma StringLeads(t: Tok, p: string) returns (u: Tok)
    requires Inv(t) && t.top == FRESH && NulFree(p) && p != "" && IsQuote(p[0])
    ensures match ReadText(p[1..], p[0])
      case Read(buf, rest) => Done(u, t.below, Str(CString(buf))) && Leads(t, Z(p), u, Z(rest))
      case NotRead(err) => Rejects(t, Z(p), err)
  {
    hide Dispatch, Step, Inv, Leads;
    var t1 := QuoteStep(t, p);
    var t2 := TextLeads(t1, p[1..]);
    u := t2;
    Via(t, Z(p), t1, Z(p[1..]));
    match ReadText(p[1..], p[0])
    case Read(buf, rest) =>
      assert t1.pb + buf == buf;
      u := CloseString(t2, rest);
      Via(t, Z(p), t2, Z([t2.quote] + rest));
    case _ =>
  }

  /** The call succeeds with `v`; `inner` says that the containers around it are still open. */
  predicate Cuts(t: Tok, s: string, v: Json, inner: bool) {
    && Inv(t) && Run(t, s).err == Success && Run(t, s).tok.top.current == v
    && (Run(t, s).tok.below != [] <==> inner)
  }

  lemma CutsLater(t: Tok, s: string, u: Tok, r: string, v: Json, inner: bool)
    requires Leads(t, s, u, r) && Cuts(u, r, v, inner)
    ensures Cuts(t, s, v, inner)
  {
  }

  /** The machine does with `s` what the grammar reads: it finishes the level with that value, ends inside
      a comment behind that value, or rejects. */
  predicate Agrees(t: Tok, below: seq<Level>, s: string, r: Reading<Json>, u: Tok) {
    match r
    case Read(v, rest) => Done(u, below, v) && Leads(t, Z(s), u, Z(rest))
    case NotRead(err) => Rejects(t, Z(s), err)
    case Cut(v) => Cuts(t, Z(s), v, true)
  }

  lemma Back(t: Tok, s: string, t1: Tok, s1: string, below: seq<Level>, r: Reading<Json>, u: Tok)
    requires Leads(t, Z(s), t1, Z(s1)) && Agrees(t1, below, s1, r, u)
    ensures Agrees(t, below, s, r, u)
  {
    hide Leads, Done, Cuts;
    Via(t, Z(s), t1, Z(s1));
    if r.Cut? { CutsLater(t, Z(s), t1, Z(s1), r.value, true); }
  }

  /** White space and comments between two tokens. */
  lemma SkipBetween(t: Tok, below: seq<Level>, next: State, v: Json, field: Option<string>, s: string) returns (u: Tok)
    requires Between(t, below, next, v, field) && next != Finish && NulFree(s)
    ensures match Skip(s)
      case Upto(p) => Between(u, below, next, v, field) && Leads(t, Z(s), u, Z(p)) && u == t.(pb := u.pb)
      case b => Rejects(t, Z(s), BlankError(b))
  {
    u := SkipLeads(t, s);
    hide Dispatch, Step, Skip;
    if Skip(s).Upto? { LeadsKeepsInv(t, Z(s), u, Z(Skip(s).rest)); }
  }

  lemma SkipDone(t: Tok, below: seq<Level>, v: Json, s: string) returns (u: Tok)
    requires Done(t, below, v) && NulFree(s)
    ensures match Skip(s)
      case Upto(q) => Done(u, below, v) && Leads(t, Z(s), u, Z(q))
      case Unended => Cuts(t, Z(s), v, below != [])
      case Stray(_) => Rejects(t, Z(s), BadComment)
  {
    u := SkipLeads(t, s);
    hide Dispatch, Step, Skip;
    if Skip(s).Upto? { LeadsKeepsInv(t, Z(s), u, Z(Skip(s).rest)); }
  }

  lemma {:induction false} ValueLeads(t: Tok, s: string) returns (u: Tok)
    requires Inv(t) && t.top == FRESH && NulFree(s)
    ensures Agrees(t, t.below, s, ReadValue(s, |t.below|), u)
    decreases |s|, 0
  {
    FreshIs(t);
    var t1 := SkipBetween(t, t.below, Start, Null, None, s);
    u := t1;
    if Skip(s).Upto? {
      var p := Skip(s).rest;
      FreshStill(t1, t.below);
      hide Dispatch, Step, Inv, Leads, Rejects, Done, Skip, Between, ReadText, ReadItems, ReadMembers, ReadNumber,
        Spelled;
      u := SolidValueLeads(t1, p);
      SkipTwice(s);
      Back(t, s, t1, p, t.below, ReadValue(p, |t.below|), u);
    }
  }

  lemma FreshStill(t: Tok, below: seq<Level>)
    requires Between(t, below, Start, Null, None)
    ensures Inv(t) && t.top == FRESH && t.below == below
  {
  }

  lemma SkipSolid(p: string)
    requires Solid(p)
    ensures Skip(p) == Upto(p)
  {
  }

  lemma SkipTwice(s: string)
    requires Skip(s).Upto?
    ensures forall d :: ReadValue(Skip(s).rest, d) == ReadValue(s, d)
  {
    SkipSolid(Skip(s).rest);
    hide Skip, ReadText, ReadItems, ReadMembers, ReadNumber, ReadWord;
  }

  lemma {:induction false} SolidValueLeads(t: Tok, p: string) returns (u: Tok)
    requires Inv(t) && t.top == FRESH && NulFree(p) && Solid(p)
    ensures Agrees(t, t.below, p, ReadValue(p, |t.below|), u)
    decreases |p|, 0, 0
  {
    hide Dispatch, Step, Inv, Leads, Rejects, Done, ReadText, ReadItems, ReadMembers, ReadNumber, Spelled, Between,
      FRESH, Skip;
    var c := Front(p);
    SkipSolid(p);
    u := t;
    if c == '{' {
      var t1 := BracketStep(t, p);
      u := MembersLeads(t1, t.below, p[1..], []);
      Back(t, p, t1, p[1..], t.below, ReadMembers(p[1..], [], |t.below|), u);
    } else if c == '[' {
      var t1 := BracketStep(t, p);
      u := ItemsLeads(t1, t.below, p[1..], []);
      Back(t, p, t1, p[1..], t.below, ReadItems(p[1..], [], |t.below|), u);
    } else if IsQuote(c) {
      u := StringLeads(t, p);
    } else if Lower(c) == 'n' {
      u := WordLeads(t, p, "null");
    } else if Lower(c) == 't' {
      u := WordLeads(t, p, "true");
    } else if Lower(c) == 'f' {
      u := WordLeads(t, p, "false");
    } else if IsDigit(c) || c == '-' {
      u := NumberLeads(t, p);
    } else {
      NoValue(t, p);
    }
  }

  /** Behind an item or a field value: the container goes on, ends, or is wrong, or the text ends in a comment. */
  lemma AfterValue(t: Tok, below: seq<Level>, under: Level, v: Json, s: string) returns (u: Tok)
    requires Done(t, below + [under], v) && Waiting(under) && NulFree(s)
    ensures match Skip(s)
      case Upto(q) =>
        var next, all := if under.state == ArrayAdd then ArraySep else ObjectSep, Added(under, v);
        if Closes(Front(q), next) then Done(u, below, all) && Leads(t, Z(s), u, Z(q[1..]))
        else if Front(q) == ',' then
          Between(u, below, if next == ArraySep then Array else ObjectFieldStart, all, None) &&
            Leads(t, Z(s), u, Z(q[1..]))
        else Rejects(t, Z(s), Fault(q, if next == ArraySep then ArraySeparator else ValueSeparator))
      case Unended => Cuts(t, Z(s), v, true)
      case Stray(_) => Rejects(t, Z(s), BadComment)
  {
    hide Dispatch, Step, Inv, Leads, Rejects, Done, Cuts, Between, Waiting, Added, Skip;
    var t0 := SkipDone(t, below + [under], v, s);
    u := t0;
    if Skip(s).Upto? {
      var q := Skip(s).rest;
      var t1 := AddAt(t0, below, under, v, q);
      var next := if under.state == ArrayAdd then ArraySep else ObjectSep;
      Via(t, Z(s), t0, Z(q));
      Via(t, Z(s), t1, Z(q));
      u := t1;
      if Closes(Front(q), next) {
        u := CloseBracket(t1, below, next, Added(under, v), q);
      } else if Front(q) == ',' {
        u := Comma(t1, below, next, Added(under, v), q);
      } else {
        NoSeparator(t1, below, next, Added(under, v), q);
      }
    }
  }

  lemma {:induction false} MoreItemsLeads(t: Tok, below: seq<Level>, under: Level, v: Json, s: string, items: seq<Json>)
      returns (u: Tok)
    requires Done(t, below + [under], v) && under.state == ArrayAdd && Waiting(under) &&
      under.current == Arr(items) && NulFree(s)
    ensures Agrees(t, below, s, MoreItems(s, items, v, |below|), u)
    decreases |s|, 0
  {
    hide Dispatch, Step, Inv, Leads, Rejects, Done, Cuts, Between, ReadItems, Waiting, Skip;
    u := AfterValue(t, below, under, v, s);
    if Skip(s).Upto? && Front(Skip(s).rest) == ',' {
      var t1, q := u, Skip(s).rest;
      u := ItemsLeads(t1, below, q[1..], items + [v]);
      Back(t, s, t1, q[1..], below, ReadItems(q[1..], items + [v], |below|), u);
    }
  }

  lemma {:induction false} ItemsLeads(t: Tok, below: seq<Level>, s: string, items: seq<Json>) returns (u: Tok)
    requires Between(t, below, Array, Arr(items), None) && NulFree(s)
    ensures Agrees(t, below, s, ReadItems(s, items, |below|), u)
    decreases |s|, 1
  {
    hide Dispatch, Step, Inv, Leads, Rejects, Done, Cuts, Between, ReadValue, Waiting, Skip;
    var t0 := SkipBetween(t, below, Array, Arr(items), None, s);
    u := t0;
    if Skip(s).Upto? {
      var p := Skip(s).rest;
      if Front(p) == ']' {
        u := CloseBracket(t0, below, Array, Arr(items), p);
        Via(t, Z(s), t0, Z(p));
      } else {
        var t1 := OpenAt(t0, below, Array, Arr(items), None, p);
        BetweenWaits(t0, below, Array, Arr(items), None);
        Via(t, Z(s), t0, Z(p));
        if |below| < MAX_DEPTH - 1 {
          var t2 := ValueLeads(t1, p);
          Via(t, Z(s), t1, Z(p));
          Back(t, s, t1, p, t1.below, ReadValue(p, |below| + 1), t2);
          if ReadValue(p, |below| + 1).Read? {
            var v, more := ReadValue(p, |below| + 1).value, ReadValue(p, |below| + 1).rest;
            u := MoreItemsLeads(t2, below, Waits(t0), v, more, items);
            Back(t, s, t2, more, below, MoreItems(more, items, v, |below|), u);
          }
        }
      }
    }
  }

  lemma BetweenWaits(t: Tok, below: seq<Level>, next: State, v: Json, field: Option<string>)
    requires Between(t, below, next, v, field)
    ensures t.top.saved == next && Waits(t).current == v && Waits(t).field == field
  {
  }

  lemma KeyStart(t: Tok, below: seq<Level>, ms: seq<Member>, p: string) returns (u: Tok)
    requires Between(t, below, ObjectFieldStart, Obj(ms), None) && p != "" && IsQuote(p[0])
    ensures InQuotes(u) && u.below == below && u.quote == p[0] && u.pb == ""
    ensures u.top.state == ObjectField && u.top.current == Obj(ms) && u.top.field == None
    ensures Leads(t, Z(p), u, Z(p[1..]))
  {
    var t1 := Arrive(t, below, ObjectFieldStart, Obj(ms), None, p);
    StepKeepsInv(t1, p[0]);
    Take(t1, p);
    Via(t, Z(p), t1, Z(p));
    u := Step(t1, p[0]);
  }

  lemma CloseKey(t: Tok, ms: seq<Member>, rest: string) returns (u: Tok)
    requires InQuotes(t) && t.top.state == ObjectField && t.top.field == None && t.top.current == Obj(ms)
    ensures Between(u, t.below, ObjectFieldEnd, Obj(ms), Some(CString(t.pb))) &&
      Leads(t, Z([t.quote] + rest), u, Z(rest))
  {
    var s := [t.quote] + rest;
    StepKeepsInv(t, t.quote);
    assert s[1..] == rest;
    Take(t, s);
    u := Step(t, t.quote);
  }

  lemma Colon(t: Tok, below: seq<Level>, ms: seq<Member>, key: string, s: string) returns (u: Tok)
    requires Between(t, below, ObjectFieldEnd, Obj(ms), Some(key)) && Solid(s)
    ensures Front(s) == ':' ==> Between(u, below, ObjectValue, Obj(ms), Some(key)) && Leads(t, Z(s), u, Z(s[1..]))
    ensures Front(s) != ':' ==> Rejects(t, Z(s), Fault(s, KeySeparator))
  {
    var t1 := Arrive(t, below, ObjectFieldEnd, Obj(ms), Some(key), s);
    StepKeepsInv(t1, Front(s));
    Via(t, Z(s), t1, Z(s));
    u := Step(t1, Front(s));
    if Front(s) == ':' {
      Take(t1, s);
    } else {
      Refuse(t1, s, KeySeparator);
    }
  }

  lemma KeyLeads(t: Tok, below: seq<Level>, p: string, ms: seq<Member>) returns (u: Tok)
    requires Between(t, below, ObjectFieldStart, Obj(ms), None) && NulFree(p) && p != "" && IsQuote(p[0])
    ensures match ReadKey(p)
      case Read(key, rest) => Between(u, below, ObjectValue, Obj(ms), Some(key)) && Leads(t, Z(p), u, Z(rest))
      case NotRead(err) => Rejects(t, Z(p), err)
  {
    hide Dispatch, Step, Inv, Leads, Rejects, Between, InQuotes, ReadText, Skip;
    var t1 := KeyStart(t, below, ms, p);
    var t2 := TextLeads(t1, p[1..]);
    u := t2;
    Via(t, Z(p), t1, Z(p[1..]));
    match ReadText(p[1..], p[0])
    case Read(buf, more) =>
      assert t1.pb + buf == buf;
      var t3 := CloseKey(t2, ms, more);
      Via(t, Z(p), t2, Z([t2.quote] + more));
      Via(t, Z(p), t3, Z(more));
      u := ColonLeads(t3, below, ms, CString(buf), more);
    case _ =>
  }

  lemma ColonLeads(t: Tok, below: seq<Level>, ms: seq<Member>, key: string, s: string) returns (u: Tok)
    requires Between(t, below, ObjectFieldEnd, Obj(ms), Some(key)) && NulFree(s)
    ensures if Skip(s).Upto? && Front(Skip(s).rest) == ':' then
        Between(u, below, ObjectValue, Obj(ms), Some(key)) && Leads(t, Z(s), u, Z(Skip(s).rest[1..]))
      else Rejects(t, Z(s), if Skip(s).Upto? then Fault(Skip(s).rest, KeySeparator) else BlankError(Skip(s)))
  {
    hide Dispatch, Step, Inv, Leads, Rejects, Between, Skip;
    var t1 := SkipBetween(t, below, ObjectFieldEnd, Obj(ms), Some(key), s);
    u := t1;
    if Skip(s).Upto? {
      Via(t, Z(s), t1, Z(Skip(s).rest));
      u := Colon(t1, below, ms, key, Skip(s).rest);
    }
  }

  lemma {:induction false} MembersLeads(t: Tok, below: seq<Level>, s: string, ms: seq<Member>) returns (u: Tok)
    requires Between(t, below, ObjectFieldStart, Obj(ms), None) && NulFree(s)
    ensures Agrees(t, below, s, ReadMembers(s, ms, |below|), u)
    decreases |s|, 2
  {
    hide Dispatch, Step, Inv, Leads, Rejects, Done, Cuts, Between, ReadField, ReadKey, Waiting, Skip;
    var t0 := SkipBetween(t, below, ObjectFieldStart, Obj(ms), None, s);
    u := t0;
    if Skip(s).Upto? {
      var p := Skip(s).rest;
      Via(t, Z(s), t0, Z(p));
      if Front(p) == '}' {
        u := CloseBracket(t0, below, ObjectFieldStart, Obj(ms), p);
      } else if !IsQuote(Front(p)) {
        NoKey(t0, below, ms, p);
      } else {
        var t1 := KeyLeads(t0, below, p, ms);
        if ReadKey(p).Read? {
          var key, more := ReadKey(p).value, ReadKey(p).rest;
          u := FieldLeads(t1, below, more, ms, key);
          Back(t, s, t1, more, below, ReadField(more, ms, key, |below|), u);
        }
      }
    }
  }

  lemma NoKey(t: Tok, below: seq<Level>, ms: seq<Member>, s: string)
    requires Between(t, below, ObjectFieldStart, Obj(ms), None) && Solid(s) && !IsQuote(Front(s)) && Front(s) != '}'
    ensures Rejects(t, Z(s), Fault(s, KeyName))
  {
    var t1 := Arrive(t, below, ObjectFieldStart, Obj(ms), None, s);
    Refuse(t1, s, KeyName);
    Via(t, Z(s), t1, Z(s));
  }

  lemma {:induction false} MoreMembersLeads(t: Tok, below: seq<Level>, under: Level, v: Json, s: string,
        ms: seq<Member>, key: string) returns (u: Tok)
    requires Done(t, below + [under], v) && under.state == ObjectValueAdd && Waiting(under)
    requires under.current == Obj(ms) && under.field == Some(key) && NulFree(s)
    ensures Agrees(t, below, s, MoreMembers(s, AddMember(ms, key, v), v, |below|), u)
    decreases |s|, 0
  {
    hide Dispatch, Step, Inv, Leads, Rejects, Done, Cuts, Between, ReadMembers, Waiting, Skip, AddMember;
    u := AfterValue(t, below, under, v, s);
    if Skip(s).Upto? && Front(Skip(s).rest) == ',' {
      var t1, q, all := u, Skip(s).rest, AddMember(ms, key, v);
      u := MembersLeads(t1, below, q[1..], all);
      Back(t, s, t1, q[1..], below, ReadMembers(q[1..], all, |below|), u);
    }
  }

  /** The value of a field, and what follows it. */
  lemma {:induction false} FieldLeads(t: Tok, below: seq<Level>, s: string, ms: seq<Member>, key: string)
      returns (u: Tok)
    requires Between(t, below, ObjectValue, Obj(ms), Some(key)) && NulFree(s)
    ensures Agrees(t, below, s, ReadField(s, ms, key, |below|), u)
    decreases |s|, 3
  {
    hide Dispatch, Step, Inv, Leads, Rejects, Done, Cuts, Between, ReadValue, Waiting, Skip, AddMember;
    var t0 := SkipBetween(t, below, ObjectValue, Obj(ms), Some(key), s);
    u := t0;
    if Skip(s).Upto? {
      var p := Skip(s).rest;
      var t1 := OpenAt(t0, below, ObjectValue, Obj(ms), Some(key), p);
      BetweenWaits(t0, below, ObjectValue, Obj(ms), Some(key));
      Via(t, Z(s), t0, Z(p));
      if |below| < MAX_DEPTH - 1 {
        var t2 := ValueLeads(t1, p);
        Via(t, Z(s), t1, Z(p));
        Back(t, s, t1, p, t1.below, ReadValue(p, |below| + 1), t2);
        if ReadValue(p, |below| + 1).Read? {
          var v, more := ReadValue(p, |below| + 1).value, ReadValue(p, |below| + 1).rest;
          u := MoreMembersLeads(t2, below, Waits(t0), v, more, ms, key);
          Back(t, s, t2, more, below, MoreMembers(more, AddMember(ms, key, v), v, |below|), u);
        }
      }
    }
  }

  // ----- the theorem

  /** For every C string: the parser gives the verdict of the grammar, the value or the error. What is
      returned is a part of an array or object that was never closed if and only if the grammar finds the
      text cut inside a comment. */
  lemma LanguageExact(text: string)
    requires NulFree(text)
    ensures match ReadJson(text)
      case Valid(v) => Parse(text).err == Success && Value(Parse(text)) == v
      case Invalid(err) => Parse(text).err == err && err != Success && err != Continue
    ensures Parse(text).err == Success ==> (Parse(text).tok.below != [] <==> ReadValue(text, 0).Cut?)
  {
    hide ReadValue, Skip;
    var u := ValueLeads(NEW, text);
    match ReadValue(text, 0)
    case Read(v, rest) => Finished(NEW, text, u, v, rest);
    case _ =>
  }

  /** A finished value at the bottom of the stack ends the call, whatever follows but a bad comment. */
  lemma Finished(t: Tok, s: string, u: Tok, v: Json, rest: string)
    requires Leads(t, Z(s), u, Z(rest)) && Done(u, [], v) && NulFree(rest)
    ensures if Skip(rest).Stray? then Rejects(t, Z(s), BadComment) else Cuts(t, Z(s), v, false)
  {
    hide Skip;
    Via(t, Z(s), u, Z(rest));
    var w := SkipDone(u, [], v, rest);
    match Skip(rest)
    case Upto(q) =>
      FinishedAt(w, v, q);
      CutsLater(u, Z(rest), w, Z(q), v, false);
      CutsLater(t, Z(s), u, Z(rest), v, false);
    case Unended => CutsLater(t, Z(s), u, Z(rest), v, false);
    case Stray(_) =>
  }

  lemma FinishedAt(t: Tok, v: Json, q: string)
    requires Done(t, [], v) && Solid(q)
    ensures Cuts(t, Z(q), v, false)
  {
    var w := Arrive(t, [], Finish, v, None, q);
    ZFront(q);
    assert Dispatch(w, Front(q)).move == Out(Success) && Step(w, Front(q)) == w;
    hide Dispatch, Step, Inv;
  }
}
