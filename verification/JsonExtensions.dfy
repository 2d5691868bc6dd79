/** What the reader takes beyond RFC 4627, and which errors it reports, on texts that are spelled out. */
module JsonExtensions {
  import opened CTypes
  import opened JsonValue
  import opened Tokener
  import opened JsonGrammar
  import opened Decimal
  import GrammarExact
  import RfcNumbers
  import RfcReading
  import RfcStrings
  import S = Rfc4627

  function WordValue(word: string): Json {
    match word
    case "null" => Null
    case "true" => Bool(true)
    case _ => Bool(false)
  }

  /** Each letter of a word can be a capital. */
  lemma WordsInAnyCase(word: string, text: string)
    requires word in {"null", "true", "false"} && |text| == |word|
    requires forall i :: 0 <= i < |word| ==> text[i] == word[i] || text[i] as int == word[i] as int - 32
    ensures Parse(text).err == Success && Value(Parse(text)) == WordValue(word)
  {
    assert forall i :: 0 <= i < |word| ==> Lower(text[i]) == word[i];
    assert Spelled(text, word) && text[|word|..] == "" && Skip("") == Upto("");
    assert NulFree(text);
    GrammarExact.SkipSolid(text);
    WordFront(word, text);
    hide Parse, ReadValue, Skip;
    GrammarExact.LanguageExact(text);
  }

  lemma WordFront(word: string, text: string)
    requires word in {"null", "true", "false"} && Spelled(text, word) && |text| == |word|
    ensures ReadValue(text, 0) == Read(WordValue(word), "")
  {
    assert Lower(text[0]) == word[0] && text[|word|..] == "";
    GrammarExact.SkipSolid(text);
    hide Skip, ReadItems, ReadMembers, ReadText, ReadNumber, Spelled;
  }

  /** A string can stand in single quotes. */
  lemma SingleQuotes(s: string)
    requires forall i :: 0 <= i < |s| ==> s[i] !in {'\'', '\\', NUL}
    ensures Parse("'" + s + "'").err == Success && Value(Parse("'" + s + "'")) == Str(s)
  {
    var text := "'" + s + "'";
    assert text[0] == '\'' && text[1..] == s + "'";
    PlainRead(s);
    QuotedFront(text);
    assert Skip("") == Upto("");
    hide Parse, ReadValue, ReadText, Skip;
    GrammarExact.LanguageExact(text);
  }

  lemma QuotedFront(p: string)
    requires Front(p) == '\''
    ensures ReadValue(p, 0) == match ReadText(p[1..], '\'')
      case Read(buf, rest) => Read(Str(CString(buf)), rest)
      case NotRead(err) => NotRead(err)
  {
    GrammarExact.SkipSolid(p);
    hide Skip, ReadItems, ReadMembers, ReadText, ReadWord, ReadNumber;
  }

  lemma {:induction false} PlainRead(s: string)
    requires forall i :: 0 <= i < |s| ==> s[i] !in {'\'', '\\', NUL}
    ensures ReadText(s + "'", '\'') == Read(s, "")
    decreases |s|
  {
    if s == "" {
      assert "" + "'" == "'" && "'"[1..] == "";
    } else {
      assert (s + "'")[1..] == s[1..] + "'" && s == [s[0]] + s[1..];
      PlainRead(s[1..]);
    }
  }

  /** A comma can stand in front of the bracket that closes an array. */
  lemma CommaBeforeBracket(x: S.Item)
    requires S.WellFormedItem(x) && RfcReading.Taken(x.value, 1)
    ensures var o := Parse("[" + (S.ItemText(x) + ",]"));
      o.err == Success && Value(o).Arr? && |Value(o).items| == 1 && S.Denotes(x.value, Value(o).items[0])
  {
    hide Skip, ReadValue, S.Text, S.ItemText, RfcReading.Taken, S.Denotes, Parse, ReadItems, S.WellFormedItem;
    var inner := S.ItemText(x) + ",]";
    var text := "[" + inner;
    RfcReading.ItemNulFree(x);
    assert text[0] == '[' && text[1..] == inner && NulFree(text);
    RfcReading.ByFront(text, 0);
    var taken, v := RfcReading.ItemRead(x, ",]", [], 0);
    assert ",]"[1..] == "]" && [] + [v] == [v];
    RfcReading.EmptyArrayEnd([v]);
    GrammarExact.SkipSolid("");
    GrammarExact.LanguageExact(text);
  }

  /** A character that is no white space, begins no comment, and is not the end. */
  predicate Visible(c: char) {
    c !in " \t\n\r/" && c as int !in {0, 11, 12}
  }

  lemma VisibleSolid(c: char, rest: string)
    requires Visible(c)
    ensures Solid([c] + rest) && Front([c] + rest) == c
  {
  }

  /** What stands behind a value does not matter. */
  lemma WhateverBehind(t: S.Tree, c: char, rest: string)
    requires S.WellFormed(t) && RfcReading.Taken(t, 0) && Visible(c) && !IsNumberChar(c) && NulFree(rest)
    ensures var o := Parse(S.Text(t) + ([c] + rest)); o.err == Success && S.Denotes(t, Value(o))
  {
    hide Skip, ReadValue, S.Text, S.WellFormed, RfcReading.Taken, S.Denotes, Parse;
    RfcReading.TextNulFree(t);
    VisibleSolid(c, rest);
    GrammarExact.SkipSolid([c] + rest);
    RfcReading.TreeRead(t, [c] + rest, 0);
    GrammarExact.LanguageExact(S.Text(t) + ([c] + rest));
  }

  // ----- errors

  /** What begins no value. */
  lemma UnexpectedCharacter(c: char, rest: string)
    requires NulFree([c] + rest) && c !in " \t\n\r/" && c as int !in {11, 12}
    requires c !in "{[\"'-0123456789nNtTfF"
    ensures Parse([c] + rest).err == Unexpected
  {
    var p := [c] + rest;
    assert p[0] == c && c != NUL by { assert c in p; }
    GrammarExact.SkipSolid(p);
    NoFront(p);
    hide Parse, ReadValue, Skip;
    GrammarExact.LanguageExact(p);
  }

  lemma NoFront(p: string)
    requires p != "" && Solid(p) && p[0] != NUL && p[0] !in "{[\"'-0123456789nNtTfF"
    ensures ReadValue(p, 0) == NotRead(Unexpected)
  {
    NoneOf(p[0]);
    GrammarExact.SkipSolid(p);
    hide Skip, ReadItems, ReadMembers, ReadText, ReadNumber, ReadWord, Lower, IsDigit;
  }

  lemma DigitIn(c: char)
    requires IsDigit(c)
    ensures c in "0123456789"
  {
    assert "0123456789"[c as int - 48] == c;
  }

  lemma NoneOf(c: char)
    requires c !in "{[\"'-0123456789nNtTfF"
    ensures c !in {'{', '[', '"', '\'', '-'} && !IsDigit(c) && Lower(c) !in {'n', 't', 'f'}
  {
    if IsDigit(c) { DigitIn(c); }
    assert "{[\"'-0123456789nNtTfF" == "{[\"'-" + "0123456789" + "nNtTfF";
  }

  lemma Reported(text: string, err: Error)
    requires NulFree(text) && ReadValue(text, 0) == NotRead(err)
    ensures Parse(text).err == err
  {
    hide Parse, ReadValue;
    GrammarExact.LanguageExact(text);
  }

  lemma BlankThen(w: string, c: char, rest: string)
    requires S.Blank(w) && Visible(c)
    ensures Skip(w + ([c] + rest)) == Upto([c] + rest)
  {
    VisibleSolid(c, rest);
    RfcStrings.SkipBlank(w, [c] + rest);
  }

  /** Behind an item only a comma or the closing bracket goes on. */
  lemma ItemSeparator(x: S.Item, c: char, rest: string)
    requires S.WellFormedItem(x) && RfcReading.Taken(x.value, 1) && Visible(c) && c !in {',', ']'} && NulFree(rest)
    requires RfcNumbers.Delimited(x.after + ([c] + rest))
    ensures Parse("[" + (S.ItemText(x) + ([c] + rest))).err == ArraySeparator
  {
    hide Skip, ReadValue, ReadItems, S.Text, S.ItemText, RfcReading.Taken, S.Denotes, Parse;
    var p := [c] + rest;
    var inner := S.ItemText(x) + p;
    var text := "[" + inner;
    RfcReading.ItemNulFree(x);
    assert text[0] == '[' && text[1..] == inner && NulFree(text);
    RfcReading.ByFront(text, 0);
    RfcReading.ItemSteps(x, p, [], 0);
    RfcReading.TreeRead(x.value, x.after + p, 1);
    BlankThen(x.after, c, rest);
    Reported(text, ArraySeparator);
  }

  /** Behind a member only a comma or the closing bracket goes on. */
  lemma PairSeparator(p: S.Pair, c: char, rest: string)
    requires S.WellFormedPair(p) && RfcReading.PairTaken(p, 0) && Visible(c) && c !in {',', '}'} && NulFree(rest)
    requires RfcNumbers.Delimited(p.item.after + ([c] + rest))
    ensures Parse("{" + (S.PairText(p) + ([c] + rest))).err == ValueSeparator
  {
    hide Skip, ReadValue, ReadMembers, S.Text, S.PairText, RfcReading.Taken, S.Denotes, Parse, AddMember;
    var q := [c] + rest;
    var inner := S.PairText(p) + q;
    var text := "{" + inner;
    RfcReading.PairNulFree(p);
    assert text[0] == '{' && text[1..] == inner && NulFree(text);
    RfcReading.ByFront(text, 0);
    RfcReading.PairSteps(p, q, [], 0);
    RfcReading.TreeRead(p.item.value, p.item.after + q, 1);
    BlankThen(p.item.after, c, rest);
    Reported(text, ValueSeparator);
  }

  /** A member begins with a quote. */
  lemma NameExpected(blank: string, c: char, rest: string)
    requires S.Blank(blank) && Visible(c) && c !in {'"', '\'', '}'} && NulFree(rest)
    ensures NulFree(blank) && Parse("{" + (blank + ([c] + rest))).err == KeyName
  {
    hide Skip, ReadValue, Parse, ReadKey;
    var inner := blank + ([c] + rest);
    var text := "{" + inner;
    assert NulFree(blank);
    assert text[0] == '{' && text[1..] == inner && NulFree(text);
    RfcReading.ByFront(text, 0);
    BlankThen(blank, c, rest);
    Reported(text, KeyName);
  }

  /** Behind a name only a colon goes on. */
  lemma ColonExpected(name: seq<S.Letter>, space: string, c: char, rest: string)
    requires S.AreLetters(name) && RfcStrings.AllKnown(name) && S.Blank(space)
    requires Visible(c) && c != ':' && NulFree(rest)
    ensures Parse("{" + (S.Quote(name) + (space + ([c] + rest)))).err == KeySeparator
  {
    hide Skip, ReadValue, ReadText, S.Spell, Parse, CString, RfcStrings.Singly;
    var behind := space + ([c] + rest);
    var s := S.Quote(name) + behind;
    var text := "{" + s;
    RfcReading.SpellNulFree(name);
    assert NulFree(space) && NulFree(text);
    assert text[0] == '{' && text[1..] == s;
    assert s == "\"" + (S.Spell(name) + ("\"" + behind));
    assert s[0] == '"' && s[1..] == S.Spell(name) + ("\"" + behind);
    RfcReading.ByFront(text, 0);
    RfcStrings.LettersRead(name, behind);
    BlankThen(space, c, rest);
    GrammarExact.SkipSolid(s);
    Reported(text, KeySeparator);
  }

  /** A word that goes on with another character. */
  lemma WordBroken(word: string, k: nat, c: char, rest: string)
    requires word in {"null", "true", "false"} && 0 < k < |word| && NulFree([c] + rest)
    requires c != word[k] && c as int != word[k] as int - 32
    ensures Parse(word[..k] + ([c] + rest)).err == if word == "null" then NullExpected else BooleanExpected
  {
    var text := word[..k] + ([c] + rest);
    assert text[0] == word[0] && text[k] == c && NulFree(text);
    RfcReading.ByFront(text, 0);
    OtherLetter(word, k, c);
    assert !Spelled(text, word) by { assert Lower(text[k]) != word[k]; }
    assert |text| < |word| ==> word[..|text|][k] == word[k];
    hide ReadValue, Parse;
    Reported(text, if word == "null" then NullExpected else BooleanExpected);
  }

  lemma OtherLetter(word: string, k: nat, c: char)
    requires word in {"null", "true", "false"} && 0 < k < |word| && c != word[k] && c as int != word[k] as int - 32
    ensures Lower(c) != word[k]
  {
  }

  /** A minus alone is no number. */
  lemma MinusAlone(c: char, rest: string)
    requires NulFree([c] + rest) && c !in "0123456789+-.eE"
    ensures Parse("-" + ([c] + rest)).err == NumberExpected
  {
    assert "-"[1..] == "" && Numeric("-", DoubleMark("-")) == None;
    hide ReadValue, Parse, Numeric;
    var text := "-" + ([c] + rest);
    assert text[0] == '-' && text[1..] == [c] + rest && NulFree(text) && c != NUL by { assert c in [c] + rest; }
    assert "0123456789+-.eE" == "0123456789" + "+-.eE";
    if IsDigit(c) { DigitIn(c); }
    RfcNumbers.NumberLenIs("-", [c] + rest);
    assert text[..1] == "-";
    RfcReading.ByFront(text, 0);
    Reported(text, NumberExpected);
  }

  /** An escape that is none, and a slash that begins no comment. */
  lemma StrayCharacters(c: char, rest: string)
    requires NulFree([c] + rest)
    ensures c !in "\"\\/bnrtu" ==> Parse("\"\\" + ([c] + rest)).err == BadString
    ensures c !in {'*', '/'} ==> Parse("/" + ([c] + rest)).err == BadComment
  {
    assert c != NUL by { assert c in [c] + rest; }
    if c !in "\"\\/bnrtu" { StrayEscape(c, rest); }
    if c !in {'*', '/'} {
      var text := "/" + ([c] + rest);
      assert text[0] == '/' && text[1] == c && NulFree(text);
      assert Skip(text) == Stray(false);
      hide Skip, Parse, ReadItems, ReadMembers, ReadText, ReadNumber, ReadWord;
      Reported(text, BadComment);
    }
  }

  lemma StrayEscape(c: char, rest: string)
    requires NulFree([c] + rest) && c !in "\"\\/bnrtu"
    ensures Parse("\"\\" + ([c] + rest)).err == BadString
  {
    var text := "\"\\" + ([c] + rest);
    assert text[0] == '"' && text[1] == '\\' && text[2] == c && NulFree(text);
    var s := text[1..];
    assert s[0] == '\\' && s[1] == c && |s| >= 2;
    assert ReadText(s, '"') == NotRead(BadString);
    RfcReading.QuoteInFront(text, 0);
    hide ReadValue, Parse, ReadText;
    Reported(text, BadString);
  }
}
