/** What the printer prints, the parser reads back. */
module RoundTrip {
  import opened CTypes
  import opened JsonValue
  import opened Decimal
  import opened JsonPrinter
  import opened Sequences
  import opened Tokener
  import opened TokenerRuns

  // ----- concatenation

  lemma HeadFirst(s: string, rest: string)
    requires s != ""
    ensures s + rest == [s[0]] + (s[1..] + rest)
  {
  }

  lemma HeadMoves(buf: string, s: string)
    requires s != ""
    ensures buf + [s[0]] + s[1..] == buf + s
  {
  }

  /** What can follow a value in printed text. */
  predicate Delimits(s: string) {
    s != "" && (s[0] == ',' || s[0] == ' ' || s[0] == NUL)
  }

  // ----- literals

  predicate Word(s: string) {
    s == "null" || s == "true" || s == "false"
  }

  predicate InWord(t: Tok, below: seq<Level>, word: string, k: nat) {
    && Word(word) && Inv(t) && k <= |word|
    && t.below == below && t.pb == word[..k] && t.stPos == k
    && t.top == Level(if word == "null" then NullWord else Boolean, Start, Null, None)
  }

  lemma MatchesNext(word: string, pb: string, c: char)
    requires |pb| < |word| && forall i :: 0 <= i < |pb| ==> Lower(pb[i]) == word[i]
    ensures MatchesWord(word, pb + [c], |pb|) <==> Lower(c) == word[|pb|]
  {
    assert (pb + [c])[|pb|] == c;
  }

  lemma OtherWord(word: string, other: string, pb: string, c: char)
    requires word in {"true", "false"} && other in {"true", "false"} && word != other
    requires 0 < |pb| <= |word| && Lower(pb[0]) == word[0]
    ensures !MatchesWord(other, pb + [c], |pb|)
  {
    assert (pb + [c])[0] == pb[0] && "true"[0] != "false"[0];
  }

  lemma WordStep(t: Tok, below: seq<Level>, word: string, k: nat)
    requires InWord(t, below, word, k) && k < |word|
    ensures Dispatch(t, word[k]).move.Advance?
    ensures InWord(Step(t, word[k]), below, word, k + 1)
  {
    hide MatchesWord;
    var c := word[k];
    assert t.pb + [c] == word[..k + 1];
    StepKeepsInv(t, c);
    WordsInLowerCase(word);
    MatchesNext(word, t.pb, c);
    if word == "false" {
      if k > 0 { OtherWord(word, "true", t.pb, c); } else { MatchesNext("true", t.pb, c); }
    }
  }

  lemma WordsInLowerCase(word: string)
    requires Word(word)
    ensures forall i :: 0 <= i < |word| ==> Lower(word[i]) == word[i]
  {
  }

  lemma {:induction false} ReadWord(t: Tok, below: seq<Level>, word: string, k: nat, rest: string) returns (u: Tok)
    requires InWord(t, below, word, k)
    ensures InWord(u, below, word, |word|)
    ensures Leads(t, word[k..] + rest, u, rest)
    decreases |word| - k
  {
    if k == |word| {
      u := t;
      Nothing(rest);
      Stay(t, rest);
    } else {
      WordStep(t, below, word, k);
      HeadFirst(word[k..], rest);
      assert word[k..][1..] == word[k + 1..];
      Taking(t, word[k], word[k + 1..] + rest);
      u := ReadWord(Step(t, word[k]), below, word, k + 1, rest);
      Chain();
    }
  }

  function WordValue(word: string): Json {
    if word == "null" then Null else Bool(word == "true")
  }

  lemma {:induction false} WordEnd(t: Tok, below: seq<Level>, word: string, rest: string) returns (u: Tok)
    requires InWord(t, below, word, |word|) && rest != ""
    ensures Done(u, below, WordValue(word)) && Leads(t, rest, u, rest)
  {
    var pb := t.pb + [rest[0]];
    assert t.pb == word && pb[..|word|] == word;
    if word == "false" {
      assert Lower(pb[0]) != "true"[0];
    }
    Redoing(t, rest);
    u := Step(t, rest[0]);
  }

  lemma {:induction false} WordStart(t: Tok, word: string, rest: string) returns (u: Tok)
    requires Inv(t) && t.top == FRESH && Word(word)
    ensures InWord(u, t.below, word, 0)
    ensures Leads(t, word + rest, u, word + rest)
  {
    Redoing(t, word + rest);
    var t1 := Step(t, word[0]);
    Redoing(t1, word + rest);
    u := Step(t1, word[0]);
    Chain();
  }

  lemma {:induction false} ParseWord(t: Tok, word: string, rest: string) returns (u: Tok)
    requires Inv(t) && t.top == FRESH && Word(word) && rest != ""
    ensures Done(u, t.below, WordValue(word)) && Leads(t, word + rest, u, rest)
  {
    var t1 := WordStart(t, word, rest);
    assert word[0..] == word;
    var t2 := ReadWord(t1, t.below, word, 0, rest);
    u := WordEnd(t2, t.below, word, rest);
    Chain();
  }

  // ----- numbers

  predicate InNumeral(t: Tok, below: seq<Level>, pb: string) {
    && Inv(t) && t.below == below && t.top == Level(Number, Start, Null, None)
    && t.pb == pb && t.isDouble == DoubleMark(pb)
  }

  lemma NumeralStep(t: Tok, below: seq<Level>, pb: string, c: char)
    requires InNumeral(t, below, pb) && IsNumberChar(c)
    ensures c != NUL && Dispatch(t, c).move.Advance? && InNumeral(Step(t, c), below, pb + [c])
  {
    StepKeepsInv(t, c);
    MarkNext(pb, c);
  }

  lemma MarkNext(pb: string, c: char)
    ensures DoubleMark(pb + [c]) <==> DoubleMark(pb) || c == '.' || c == 'e'
  {
  }

  lemma {:induction false} ReadNumeral(t: Tok, below: seq<Level>, pb: string, s: string, rest: string) returns (u: Tok)
    requires InNumeral(t, below, pb) && forall c :: c in s ==> IsNumberChar(c)
    ensures InNumeral(u, below, pb + s) && Leads(t, s + rest, u, rest)
    decreases |s|
  {
    hide Dispatch, Step, Run;
    if s == "" {
      u := t;
      Nothing(rest);
      Nothing(pb);
      Stay(t, rest);
    } else {
      assert s[0] in s;
      HeadFirst(s, rest);
      HeadMoves(pb, s);
      NumeralStep(t, below, pb, s[0]);
      Taking(t, s[0], s[1..] + rest);
      u := ReadNumeral(Step(t, s[0]), below, pb + [s[0]], s[1..], rest);
      Chain();
    }
  }

  lemma {:induction false} NumeralStart(t: Tok, s: string) returns (u: Tok)
    requires Inv(t) && t.top == FRESH && s != "" && (IsDigit(s[0]) || s[0] == '-')
    ensures InNumeral(u, t.below, "") && Leads(t, s, u, s)
  {
    hide Run, Leads;
    Redoing(t, s);
    var t1 := Step(t, s[0]);
    assert t1 == t.(top := FRESH.(state := Start));
    Redoing(t1, s);
    u := Step(t1, s[0]);
    Chain();
  }

  lemma {:induction false} NumeralEnd(t: Tok, below: seq<Level>, v: Json, text: string, rest: string) returns (u: Tok)
    requires InNumeral(t, below, text) && Numeric(text, DoubleMark(text)) == Some(v) && Delimits(rest)
    ensures Done(u, below, v) && Leads(t, rest, u, rest)
  {
    hide Numeric, DoubleMark;
    Redoing(t, rest);
    u := Step(t, rest[0]);
  }

  lemma {:induction false} ParseNumber(t: Tok, text: string, v: Json, rest: string) returns (u: Tok)
    requires Inv(t) && t.top == FRESH && NumberText(text) && Numeric(text, DoubleMark(text)) == Some(v) &&
      Delimits(rest)
    ensures Done(u, t.below, v) && Leads(t, text + rest, u, rest)
  {
    hide Numeric, DoubleMark, Dispatch, Step, Run;
    assert (text + rest)[0] == text[0];
    var t1 := NumeralStart(t, text + rest);
    var t2 := ReadNumeral(t1, t.below, "", text, rest);
    Nothing(text);
    u := NumeralEnd(t2, t.below, v, text, rest);
    Chain();
  }

  /** A printed integer is read as an integer. */
  lemma IsNumeral(n: int32)
    ensures NumberText(PrintInt(n)) && Numeric(PrintInt(n), DoubleMark(PrintInt(n))) == Some(Int(n))
  {
    IntRoundTrip(n);
    var digits := PrintNat(if n < 0 then -(n as int) else n);
    assert digits[0] in digits;
    assert forall c :: c in PrintInt(n) ==> c == '-' || c in digits;
  }

  // ----- strings

  /** Inside a string or a key. */
  predicate InText(t: Tok) {
    Inv(t) && (t.top.state == String || t.top.state == ObjectField) && t.quote == '"'
  }

  /** `u` is `t` after reading `s` into the buffer. */
  predicate ReadInto(t: Tok, u: Tok, s: string) {
    && InText(u) && u.below == t.below && u.pb == t.pb + s
    && u.top == t.top.(saved := u.top.saved)
  }

  lemma {:induction false} ReadEscape(t: Tok, e: char, rest: string) returns (u: Tok)
    requires InText(t) && SimpleEscape(e).Some?
    ensures ReadInto(t, u, [SimpleEscape(e).value])
    ensures Leads(t, ['\\'] + ([e] + rest), u, rest)
  {
    Taking(t, '\\', [e] + rest);
    var t1 := Step(t, '\\');
    Taking(t1, e, rest);
    u := Step(t1, e);
    Chain();
  }

  lemma HexRoundTrip(d: nat)
    requires d < 16
    ensures IsHexChar(HexChar(d)) && HexChar(d) != NUL && HexDigit(HexChar(d)) == d
  {
  }

  predicate InUnicode(t: Tok, k: nat, ucs: nat) {
    Inv(t) && t.top.state == EscapeUnicode && t.stPos == k && t.ucs == ucs
  }

  lemma {:induction false} ReadHex(t: Tok, k: nat, ucs: nat, d: nat, rest: string) returns (u: Tok)
    requires InUnicode(t, k, ucs) && k < 3 && d < 16
    requires ucs + d * Power16(3 - k) < 0x1_0000_0000
    ensures InUnicode(u, k + 1, ucs + d * Power16(3 - k))
    ensures u == t.(ucs := u.ucs, stPos := k + 1)
    ensures Leads(t, [HexChar(d)] + rest, u, rest)
  {
    hide Run, Leads, HexChar;
    HexRoundTrip(d);
    Taking(t, HexChar(d), rest);
    u := Step(t, HexChar(d));
  }

  lemma {:induction false} ReadUnicodeMark(t: Tok, rest: string) returns (u: Tok)
    requires InText(t)
    ensures InUnicode(u, 0, 0)
    ensures u == t.(top := t.top.(state := EscapeUnicode, saved := t.top.state), ucs := 0, stPos := 0)
    ensures Leads(t, ['\\'] + (['u'] + rest), u, rest)
  {
    Taking(t, '\\', ['u'] + rest);
    var t1 := Step(t, '\\');
    Taking(t1, 'u', rest);
    u := Step(t1, 'u');
    Chain();
  }

  lemma {:induction false} ReadUnicodePrefix(t: Tok, rest: string) returns (u: Tok)
    requires InText(t)
    ensures InUnicode(u, 2, 0)
    ensures u == t.(top := t.top.(state := EscapeUnicode, saved := t.top.state), ucs := 0, stPos := 2)
    ensures Leads(t, ['\\'] + (['u'] + (['0'] + (['0'] + rest))), u, rest)
  {
    var t2 := ReadUnicodeMark(t, ['0'] + (['0'] + rest));
    assert HexChar(0) == '0';
    var t3 := ReadHex(t2, 0, 0, 0, ['0'] + rest);
    u := ReadHex(t3, 1, 0, 0, rest);
    Chain();
  }

  lemma {:induction false} ReadLastHex(t: Tok, ucs: nat, d: nat, rest: string) returns (u: Tok)
    requires InUnicode(t, 3, ucs) && d < 16 && ucs + d < 0x80
    ensures Inv(u) && u ==
      t.(top := t.top.(state := t.top.saved), pb := t.pb + [(ucs + d) as char], ucs := u.ucs, stPos := u.stPos)
    ensures Leads(t, [HexChar(d)] + rest, u, rest)
  {
    hide Run, Leads, HexChar;
    HexRoundTrip(d);
    assert AddHexDigit(ucs, HexChar(d), 3) == ucs + d && Utf8(ucs + d) == [(ucs + d) as char];
    hide AddHexDigit, Utf8;
    Taking(t, HexChar(d), rest);
    u := Step(t, HexChar(d));
  }

  lemma {:induction false} ReadControl(t: Tok, c: char, rest: string) returns (u: Tok)
    requires InText(t) && NUL < c < ' '
    ensures ReadInto(t, u, [c])
    ensures var h := HexChar(c as int / 16); var l := HexChar(c as int % 16);
      Leads(t, ['\\'] + (['u'] + (['0'] + (['0'] + ([h] + ([l] + rest))))), u, rest)
  {
    hide Run, Leads, HexChar, Dispatch, Step;
    var high, low := c as int / 16, c as int % 16;
    var t1 := ReadUnicodePrefix(t, [HexChar(high)] + ([HexChar(low)] + rest));
    assert Power16(1) == 16;
    var t2 := ReadHex(t1, 2, 0, high, [HexChar(low)] + rest);
    u := ReadLastHex(t2, 16 * high, low, rest);
    Chain();
  }

  lemma {:induction false} ReadPlain(t: Tok, c: char, rest: string) returns (u: Tok)
    requires InText(t) && c != NUL && c != '"' && c != '\\'
    ensures ReadInto(t, u, [c]) && Leads(t, [c] + rest, u, rest)
  {
    Taking(t, c, rest);
    u := Step(t, c);
  }

  lemma Unroll2(e: string, rest: string)
    requires |e| == 2
    ensures e + rest == [e[0]] + ([e[1]] + rest)
  {
  }

  lemma Unroll6(e: string, rest: string)
    requires |e| == 6
    ensures e + rest == [e[0]] + ([e[1]] + ([e[2]] + ([e[3]] + ([e[4]] + ([e[5]] + rest)))))
  {
  }

  lemma EscapeShape(c: char)
    requires c != NUL
    ensures var e := EscapeChar(c);
      || (|e| == 2 && e[0] == '\\' && SimpleEscape(e[1]) == Some(c))
      || (|e| == 6 && c < ' ' && e == ['\\', 'u', '0', '0', HexChar(c as int / 16), HexChar(c as int % 16)])
      || (e == [c] && c != '"' && c != '\\')
  {
  }

  lemma {:induction false} ReadEscapeChar(t: Tok, c: char, e: string, rest: string) returns (u: Tok)
    requires InText(t) && c != NUL && e == EscapeChar(c)
    ensures ReadInto(t, u, [c]) && Leads(t, e + rest, u, rest)
  {
    EscapeShape(c);
    if |e| == 2 {
      Unroll2(e, rest);
      u := ReadEscape(t, e[1], rest);
    } else if |e| == 6 {
      Unroll6(e, rest);
      u := ReadControl(t, c, rest);
    } else {
      u := ReadPlain(t, c, rest);
    }
  }

  lemma {:induction false} ReadIntoTwice(t: Tok, u: Tok, w: Tok, s: string)
    requires s != "" && ReadInto(t, u, [s[0]]) && ReadInto(u, w, s[1..])
    ensures ReadInto(t, w, s)
  {
    HeadMoves(t.pb, s);
  }

  lemma {:induction false} ReadText(t: Tok, s: string, rest: string) returns (u: Tok)
    requires InText(t) && NulFree(s)
    ensures ReadInto(t, u, s) && Leads(t, Escape(s) + rest, u, rest)
    decreases |s|
  {
    if s == "" {
      u := t;
      Nothing(rest);
      Nothing(t.pb);
      Stay(t, rest);
    } else {
      var e, more := EscapeChar(s[0]), Escape(s[1..]);
      Assoc(e, more, rest);
      var t1 := ReadEscapeChar(t, s[0], e, more + rest);
      u := ReadText(t1, s[1..], rest);
      ReadIntoTwice(t, t1, u, s);
      Chain();
    }
  }

  lemma QuotedText(s: string, rest: string)
    ensures Quoted(s) + rest == ['"'] + (Escape(s) + (['"'] + rest))
  {
  }

  /** A printed string or key, from the opening quote to before the closing one. */
  lemma {:induction false} ReadQuoted(t: Tok, s: string, rest: string) returns (u: Tok)
    requires Inv(t) && NulFree(s) && Dispatch(t, '"').move.Advance?
    requires InText(Step(t, '"')) && Step(t, '"').pb == ""
    ensures ReadInto(Step(t, '"'), u, s) && u.pb == s
    ensures Leads(t, Quoted(s) + rest, u, ['"'] + rest)
  {
    QuotedText(s, rest);
    Taking(t, '"', Escape(s) + (['"'] + rest));
    u := ReadText(Step(t, '"'), s, ['"'] + rest);
    Nothing(s);
    Chain();
  }

  lemma {:induction false} ParseString(t: Tok, s: string, rest: string) returns (u: Tok)
    requires Inv(t) && t.top == FRESH && NulFree(s)
    ensures Done(u, t.below, Str(s)) && Leads(t, Quoted(s) + rest, u, rest)
  {
    Redoing(t, Quoted(s) + rest);
    var t1 := Step(t, '"');
    var t2 := ReadQuoted(t1, s, rest);
    Taking(t2, '"', rest);
    u := Step(t2, '"');
    Chain();
  }

  // ----- nesting

  /** The run ends with the nesting error. */
  predicate Refused(t: Tok, s: string) {
    Inv(t) && Run(t, s).err == TooDeep
  }

  lemma LeadsToRefusal(t: Tok, s: string, u: Tok, r: string)
    requires Leads(t, s, u, r) && Refused(u, r)
    ensures Refused(t, s)
  {
  }

  /** Either way of going on carries over to where the run came from. */
  lemma Onwards(t: Tok, s: string, u: Tok, r: string, w: Tok, q: string)
    requires Leads(t, s, u, r)
    ensures Leads(u, r, w, q) ==> Leads(t, s, w, q)
    ensures Refused(u, r) ==> Refused(t, s)
  {
    Chain();
    if Refused(u, r) {
      LeadsToRefusal(t, s, u, r);
    }
  }

  lemma Shift<T>(done: seq<T>, x: T, others: seq<T>)
    ensures done + [x] + others == done + ([x] + others)
  {
  }

  lemma {:induction false} PrintStart(v: Json)
    requires Plain(v)
    ensures Print(v) != "" && var c := Print(v)[0]; !IsSpace(c) && c !in "/]}\0"
  {
    if v.Int? {
      IsNumeral(v.n);
    }
  }

  /** The first character of a value, met where an array item or a field value is expected. */
  lemma {:induction false} OpenLevel(t: Tok, s: string) returns (u: Tok)
    requires Inv(t) && t.top.state == Eatws && (t.top.saved == Array || t.top.saved == ObjectValue)
    requires s != "" && !IsSpace(s[0]) && s[0] !in "/]}\0"
    ensures |t.below| < MAX_DEPTH - 1 ==>
      && Inv(u) && Leads(t, s, u, s) && u.top == FRESH
      && u.below == t.below + [t.top.(state := if t.top.saved == Array then ArrayAdd else ObjectValueAdd)]
    ensures |t.below| == MAX_DEPTH - 1 ==> Refused(t, s)
  {
    Redoing(t, s);
    var t1 := Step(t, s[0]);
    if |t.below| < MAX_DEPTH - 1 {
      Redoing(t1, s);
      u := Step(t1, s[0]);
      Chain();
    } else {
      u := t1;
      assert Refused(t1, s);
      LeadsToRefusal(t, s, t1, s);
    }
  }

  /** What follows an item or a field value: a comma, or a blank and the closing bracket. */
  predicate Ends(s: string, bracket: char) {
    s != "" && (s[0] == ',' || (s[0] == ' ' && |s| > 1 && s[1] == bracket))
  }

  lemma {:induction false} CloseLevelAt(t: Tok, below: seq<Level>, under: Level, v: Json, s: string) returns (u: Tok)
    requires Done(t, below + [under], v) && s != "" && !IsSpace(s[0]) && s[0] != '/'
    requires Waiting(under)
    ensures Leads(t, s, u, s) && u.below == below && u.top.state == Eatws && u.top.field == None
    ensures under.state == ArrayAdd ==> u.top.saved == ArraySep && u.top.current == Arr(under.current.items + [v])
    ensures under.state == ObjectValueAdd ==>
      u.top.saved == ObjectSep && u.top.current == Obj(AddMember(under.current.members, under.field.value, v))
  {
    hide Run, Leads;
    Redoing(t, s);
    var t1 := Step(t, s[0]);
    Redoing(t1, s);
    var t2 := Step(t1, s[0]);
    assert t2.below == below && t2.top == under && t2.obj == v;
    Redoing(t2, s);
    u := Step(t2, s[0]);
    Chain();
  }

  lemma {:induction false} SpaceBoth(t: Tok, u: Tok, s: string)
    requires t.top.state == Eatws && u.top.state == Eatws && s != "" && s[0] == ' '
    requires Leads(t, s[1..], u, s[1..])
    ensures Leads(t, s, u, s)
  {
    var r := s[1..];
    assert s == " " + r;
    TakingSpace(t, r);
    TakingSpace(u, r);
  }

  /** A finished value is added to the container on the level below. */
  lemma {:induction false} CloseLevel(t: Tok, below: seq<Level>, under: Level, v: Json, s: string) returns (u: Tok)
    requires Done(t, below + [under], v) && Waiting(under)
    requires Ends(s, if under.state == ArrayAdd then ']' else '}')
    ensures Leads(t, s, u, s) && u.below == below && u.top.state == Eatws && u.top.field == None
    ensures under.state == ArrayAdd ==> u.top.saved == ArraySep && u.top.current == Arr(under.current.items + [v])
    ensures under.state == ObjectValueAdd ==>
      u.top.saved == ObjectSep && u.top.current == Obj(AddMember(under.current.members, under.field.value, v))
  {
    if s[0] == ',' {
      u := CloseLevelAt(t, below, under, v, s);
    } else {
      u := CloseLevelAt(t, below, under, v, s[1..]);
      SpaceBoth(t, u, s);
    }
  }

  // ----- arrays

  /** Between two items of an array. */
  predicate InItems(t: Tok, below: seq<Level>, done: seq<Json>) {
    Inv(t) && t.below == below && t.top == Level(Eatws, if done == [] then Array else ArraySep, Arr(done), None)
  }

  lemma {:induction false} ReadItemSeparator(t: Tok, below: seq<Level>, done: seq<Json>, rest: string) returns (u: Tok)
    requires InItems(t, below, done)
    ensures Inv(u) && u.below == below && u.top == Level(Eatws, Array, Arr(done), None)
    ensures Leads(t, Separator(done == []) + rest, u, rest)
  {
    if done == [] {
      u := t;
      TakingSpace(t, rest);
    } else {
      assert ", " + rest == [','] + (" " + rest);
      Redoing(t, [','] + (" " + rest));
      var t1 := Step(t, ',');
      Taking(t1, ',', " " + rest);
      u := Step(t1, ',');
      TakingSpace(u, rest);
      Chain();
    }
  }

  lemma {:induction false} ReadItemsEnd(t: Tok, below: seq<Level>, done: seq<Json>, rest: string) returns (u: Tok)
    requires InItems(t, below, done)
    ensures Done(u, below, Arr(done)) && Leads(t, " ]" + rest, u, rest)
  {
    assert " ]" + rest == " " + ([']'] + rest);
    TakingSpace(t, [']'] + rest);
    Redoing(t, [']'] + rest);
    var t1 := Step(t, ']');
    Taking(t1, ']', rest);
    u := Step(t1, ']');
    Chain();
  }

  lemma ItemsText(items: seq<Json>, first: bool, rest: string)
    requires items != []
    ensures PrintItems(items, first) + rest ==
      Separator(first) + (Print(items[0]) + (PrintItems(items[1..], false) + rest))
  {
  }

  lemma ItemsEnd(items: seq<Json>, rest: string)
    ensures Ends(PrintItems(items, false) + (" ]" + rest), ']')
  {
    if items != [] {
      ItemsText(items, false, " ]" + rest);
    } else {
      Nothing(" ]" + rest);
    }
  }

  /** A tree the C structures can hold, whose doubles are written as the tokener reads them. */
  predicate Plain(v: Json) {
    Representable(v) && Doubles(v, DoubleText)
  }

  lemma {:induction false} ReadItem(t: Tok, below: seq<Level>, done: seq<Json>, x: Json, more: string) returns (u: Tok)
    requires InItems(t, below, done) && Plain(x) && Ends(more, ']')
    ensures |below| + 1 + Height(x) < MAX_DEPTH ==>
      InItems(u, below, done + [x]) && Leads(t, Separator(done == []) + (Print(x) + more), u, more)
    ensures |below| + 1 + Height(x) >= MAX_DEPTH ==> Refused(t, Separator(done == []) + (Print(x) + more))
    decreases x, 2
  {
    var text := Separator(done == []) + (Print(x) + more);
    var t1 := ReadItemSeparator(t, below, done, Print(x) + more);
    PrintStart(x);
    assert (Print(x) + more)[0] == Print(x)[0];
    u := OpenLevel(t1, Print(x) + more);
    if |below| < MAX_DEPTH - 1 {
      var t2 := u;
      u := ParseValue(t2, x, more);
      Chain();
      if |below| + 1 + Height(x) < MAX_DEPTH {
        u := CloseLevel(u, below, t1.top.(state := ArrayAdd), x, more);
      } else {
        LeadsToRefusal(t, text, t2, Print(x) + more);
      }
    } else {
      LeadsToRefusal(t, text, t1, Print(x) + more);
    }
  }

  lemma {:induction false} ReadItems(t: Tok, below: seq<Level>, done: seq<Json>, items: seq<Json>, rest: string)
      returns (u: Tok)
    requires InItems(t, below, done) && forall x :: x in items ==> Plain(x)
    ensures |below| + ItemsHeight(items) < MAX_DEPTH ==>
      Done(u, below, Arr(done + items)) && Leads(t, PrintItems(items, done == []) + (" ]" + rest), u, rest)
    ensures |below| + ItemsHeight(items) >= MAX_DEPTH ==> Refused(t, PrintItems(items, done == []) + (" ]" + rest))
    decreases items, 0
  {
    if items == [] {
      Nothing(" ]" + rest);
      u := ReadItemsEnd(t, below, done, rest);
      assert done + items == done;
    } else {
      var x, others := items[0], items[1..];
      assert items == [x] + others;
      var more := PrintItems(others, false) + (" ]" + rest);
      ItemsText(items, done == [], " ]" + rest);
      ItemsEnd(others, rest);
      u := ReadItem(t, below, done, x, more);
      if |below| + 1 + Height(x) < MAX_DEPTH {
        var t1 := u;
        Shift(done, x, others);
        u := ReadItems(t1, below, done + [x], others, rest);
        Onwards(t, PrintItems(items, done == []) + (" ]" + rest), t1, more, u, rest);
      }
    }
  }

  // ----- objects

  /** Between two fields of an object. */
  predicate InMembers(t: Tok, below: seq<Level>, done: seq<Member>) {
    && Inv(t) && t.below == below
    && t.top == Level(Eatws, if done == [] then ObjectFieldStart else ObjectSep, Obj(done), None)
  }

  lemma {:induction false} ReadMemberSeparator(t: Tok, below: seq<Level>, done: seq<Member>, rest: string)
      returns (u: Tok)
    requires InMembers(t, below, done)
    ensures Inv(u) && u.below == below && u.top == Level(Eatws, ObjectFieldStart, Obj(done), None)
    ensures Leads(t, Separator(done == []) + rest, u, rest)
  {
    if done == [] {
      u := t;
      TakingSpace(t, rest);
    } else {
      assert ", " + rest == [','] + (" " + rest);
      Redoing(t, [','] + (" " + rest));
      var t1 := Step(t, ',');
      Taking(t1, ',', " " + rest);
      u := Step(t1, ',');
      TakingSpace(u, rest);
      Chain();
    }
  }

  lemma {:induction false} ReadMembersEnd(t: Tok, below: seq<Level>, done: seq<Member>, rest: string) returns (u: Tok)
    requires InMembers(t, below, done)
    ensures Done(u, below, Obj(done)) && Leads(t, " }" + rest, u, rest)
  {
    assert " }" + rest == " " + (['}'] + rest);
    TakingSpace(t, ['}'] + rest);
    Redoing(t, ['}'] + rest);
    var t1 := Step(t, '}');
    Taking(t1, '}', rest);
    u := Step(t1, '}');
    Chain();
  }

  lemma {:induction false} KeyQuote(t: Tok, done: seq<Member>, key: string, rest: string) returns (u: Tok)
    requires Inv(t) && t.top == Level(Eatws, ObjectFieldStart, Obj(done), None) && NulFree(key)
    ensures Inv(u) && u.below == t.below && u.top == Level(Eatws, ObjectFieldEnd, Obj(done), Some(key))
    ensures Leads(t, Quoted(key) + rest, u, rest)
  {
    Redoing(t, Quoted(key) + rest);
    var t1 := Step(t, '"');
    var t2 := ReadQuoted(t1, key, rest);
    Taking(t2, '"', rest);
    u := Step(t2, '"');
    Chain();
  }

  lemma {:induction false} ReadColon(t: Tok, done: seq<Member>, key: string, rest: string) returns (u: Tok)
    requires Inv(t) && t.top == Level(Eatws, ObjectFieldEnd, Obj(done), Some(key))
    ensures Inv(u) && u.below == t.below && u.top == Level(Eatws, ObjectValue, Obj(done), Some(key))
    ensures Leads(t, ": " + rest, u, rest)
  {
    assert ": " + rest == [':'] + (" " + rest);
    Redoing(t, [':'] + (" " + rest));
    var t1 := Step(t, ':');
    Taking(t1, ':', " " + rest);
    u := Step(t1, ':');
    TakingSpace(u, rest);
    Chain();
  }

  lemma {:induction false} ReadKey(t: Tok, done: seq<Member>, key: string, rest: string) returns (u: Tok)
    requires Inv(t) && t.top == Level(Eatws, ObjectFieldStart, Obj(done), None) && NulFree(key)
    ensures Inv(u) && u.below == t.below && u.top == Level(Eatws, ObjectValue, Obj(done), Some(key))
    ensures Leads(t, Quoted(key) + (": " + rest), u, rest)
  {
    var t1 := KeyQuote(t, done, key, ": " + rest);
    u := ReadColon(t1, done, key, rest);
    Chain();
  }

  /** A printed field and what follows it. */
  function MemberThen(first: bool, m: Member, more: string): string
  {
    Separator(first) + (Quoted(m.key) + (": " + (Print(m.value) + more)))
  }

  lemma MembersText(members: seq<Member>, first: bool, rest: string)
    requires members != []
    ensures PrintMembers(members, first) + rest ==
      MemberThen(first, members[0], PrintMembers(members[1..], false) + rest)
  {
  }

  lemma MembersEnd(members: seq<Member>, rest: string)
    ensures Ends(PrintMembers(members, false) + (" }" + rest), '}')
  {
    if members != [] {
      MembersText(members, false, " }" + rest);
    } else {
      Nothing(" }" + rest);
    }
  }

  lemma {:induction false} NewKey(done: seq<Member>, members: seq<Member>)
    requires members != [] && DistinctKeys(done + members)
    ensures DistinctKeys(done + [members[0]] + members[1..])
    ensures AddMember(done, members[0].key, members[0].value) == done + [members[0]]
  {
    var all := done + members;
    assert all[|done|] == members[0];
    forall m | m in done ensures m.key != members[0].key {
      var i :| 0 <= i < |done| && done[i] == m;
      assert all[i] == m;
    }
    WithoutAbsent(done, members[0].key);
    assert done + [members[0]] + members[1..] == all;
  }

  lemma {:induction false} ReadMember(t: Tok, below: seq<Level>, done: seq<Member>, m: Member, more: string)
      returns (u: Tok)
    requires InMembers(t, below, done) && NulFree(m.key) && Plain(m.value) && Ends(more, '}')
    requires AddMember(done, m.key, m.value) == done + [m]
    ensures |below| + 1 + Height(m.value) < MAX_DEPTH ==>
      InMembers(u, below, done + [m]) && Leads(t, MemberThen(done == [], m, more), u, more)
    ensures |below| + 1 + Height(m.value) >= MAX_DEPTH ==> Refused(t, MemberThen(done == [], m, more))
    decreases m, 2
  {
    var text, value := MemberThen(done == [], m, more), Print(m.value) + more;
    var t0 := ReadMemberSeparator(t, below, done, Quoted(m.key) + (": " + value));
    var t1 := ReadKey(t0, done, m.key, value);
    PrintStart(m.value);
    assert value[0] == Print(m.value)[0];
    Chain();
    u := OpenLevel(t1, value);
    if |below| < MAX_DEPTH - 1 {
      var t2 := u;
      u := ParseValue(t2, m.value, more);
      if |below| + 1 + Height(m.value) < MAX_DEPTH {
        u := CloseLevel(u, below, t1.top.(state := ObjectValueAdd), m.value, more);
      } else {
        LeadsToRefusal(t, text, t2, value);
      }
    } else {
      LeadsToRefusal(t, text, t1, value);
    }
  }

  lemma {:induction false} ReadMembers(t: Tok, below: seq<Level>, done: seq<Member>, members: seq<Member>, rest: string)
      returns (u: Tok)
    requires InMembers(t, below, done) && DistinctKeys(done + members)
    requires forall m :: m in members ==> NulFree(m.key) && Plain(m.value)
    ensures |below| + MembersHeight(members) < MAX_DEPTH ==>
      Done(u, below, Obj(done + members)) && Leads(t, PrintMembers(members, done == []) + (" }" + rest), u, rest)
    ensures |below| + MembersHeight(members) >= MAX_DEPTH ==>
      Refused(t, PrintMembers(members, done == []) + (" }" + rest))
    decreases members, 0
  {
    if members == [] {
      Nothing(" }" + rest);
      u := ReadMembersEnd(t, below, done, rest);
      assert done + members == done;
    } else {
      var m, others := members[0], members[1..];
      assert members == [m] + others;
      var more := PrintMembers(others, false) + (" }" + rest);
      MembersText(members, done == [], " }" + rest);
      MembersEnd(others, rest);
      NewKey(done, members);
      u := ReadMember(t, below, done, m, more);
      if |below| + 1 + Height(m.value) < MAX_DEPTH {
        var t1 := u;
        Shift(done, m, others);
        u := ReadMembers(t1, below, done + [m], others, rest);
        Onwards(t, PrintMembers(members, done == []) + (" }" + rest), t1, more, u, rest);
      }
    }
  }

  // ----- values

  lemma {:induction false} OpenBracket(t: Tok, c: char, rest: string) returns (u: Tok)
    requires Inv(t) && t.top == FRESH && (c == '[' || c == '{')
    ensures Leads(t, [c] + rest, u, rest)
    ensures c == '[' ==> InItems(u, t.below, [])
    ensures c == '{' ==> InMembers(u, t.below, [])
  {
    Redoing(t, [c] + rest);
    var t1 := Step(t, c);
    Taking(t1, c, rest);
    u := Step(t1, c);
    Chain();
  }

  lemma Bracketed(open: string, body: string, close: string, rest: string)
    ensures open + body + close + rest == open + (body + (close + rest))
  {
  }

  /** A printed value is read back exactly when its nesting fits on the stack. */
  lemma {:induction false} ParseValue(t: Tok, v: Json, rest: string) returns (u: Tok)
    requires Inv(t) && t.top == FRESH && Plain(v) && Delimits(rest)
    ensures |t.below| + Height(v) < MAX_DEPTH ==> Done(u, t.below, v) && Leads(t, Print(v) + rest, u, rest)
    ensures |t.below| + Height(v) >= MAX_DEPTH ==> Refused(t, Print(v) + rest)
    decreases v, 1
  {
    match v
    case Null => u := ParseWord(t, "null", rest);
    case Bool(b) => u := ParseWord(t, if b then "true" else "false", rest);
    case Int(n) =>
      IsNumeral(n);
      u := ParseNumber(t, PrintInt(n), v, rest);
    case Double(text) => u := ParseNumber(t, text, v, rest);
    case Str(s) => u := ParseString(t, s, rest);
    case Arr(items) =>
      Bracketed("[", PrintItems(items, true), " ]", rest);
      var body := PrintItems(items, true) + (" ]" + rest);
      var t1 := OpenBracket(t, '[', body);
      u := ReadItems(t1, t.below, [], items, rest);
      assert [] + items == items;
      Onwards(t, Print(v) + rest, t1, body, u, rest);
    case Obj(members) =>
      Bracketed("{", PrintMembers(members, true), " }", rest);
      var body := PrintMembers(members, true) + (" }" + rest);
      var t1 := OpenBracket(t, '{', body);
      assert [] + members == members;
      u := ReadMembers(t1, t.below, [], members, rest);
      Onwards(t, Print(v) + rest, t1, body, u, rest);
  }

  /**
   * Round trip. For every tree the C structures can hold, whose doubles are written as the tokener reads
   * them, parsing the printed text succeeds with the same tree, in the same member order, exactly when it
   * nests at most 31 levels; otherwise the nesting error is reported.
   */
  lemma {:induction false} ParsePrint(v: Json)
    requires Plain(v)
    ensures Height(v) < MAX_DEPTH ==>
      Parse(Print(v)).err == Success && Value(Parse(Print(v))) == v && Parse(Print(v)).unread == 1
    ensures Height(v) >= MAX_DEPTH ==> Parse(Print(v)).err == TooDeep
  {
    var text := Print(v) + [NUL];
    var u := ParseValue(NEW, v, [NUL]);
    if Height(v) < MAX_DEPTH {
      Redoing(u, [NUL]);
      var last := Step(u, NUL);
      assert Run(NEW, text) == Run(last, [NUL]);
      assert Run(last, [NUL]) == Outcome(last, Success, 1);
    }
  }
}
