/** Where a block comment ends, and what the end of the text inside a comment gives. */
module JsonComments {
  import opened JsonValue
  import opened Tokener
  import opened JsonGrammar
  import GrammarExact

  /** The text up to the first star with a slash behind it. */
  predicate NoEnd(b: string) {
    forall i :: 0 <= i < |b| - 1 ==> b[i] != '*' || b[i + 1] != '/'
  }

  /** The stars at the end of `b`. */
  function Stars(b: string): (n: nat)
    ensures n <= |b|
  {
    if b != "" && b[|b| - 1] == '*' then 1 + Stars(b[..|b| - 1]) else 0
  }

  lemma {:induction false} OneMoreInFront(b: string)
    requires b != ""
    ensures Stars(b) == Stars(b[1..]) + if b[0] == '*' && Stars(b[1..]) == |b| - 1 then 1 else 0
    decreases |b|
  {
    if |b| > 1 {
      var c := b[..|b| - 1];
      assert c[1..] == b[1..][..|b| - 2];
      if b[|b| - 1] == '*' { OneMoreInFront(c); }
    }
  }

  lemma Later(b: string, rest: string, k: nat)
    requires k <= |b|
    ensures (b + "*/" + rest)[k..] == b[k..] + "*/" + rest
    ensures NoEnd(b + "*") ==> NoEnd(b[k..] + "*")
    ensures k == 2 ==> b[1..][1..] == b[2..]
  {
    assert forall i :: 0 <= i <= |b| - k ==> (b[k..] + "*")[i] == (b + "*")[i + k];
  }

  /** A block comment ends at the first star with a slash behind it if and only if an even number of stars
      stands in front of that star. */
  lemma {:induction false} CommentExactly(b: string, rest: string)
    requires NoEnd(b + "*")
    ensures BlockEnd(b + "*/" + rest) == Some(rest) <==> Stars(b) % 2 == 0
    decreases |b|
  {
    var s := b + "*/" + rest;
    if b == "" {
      assert s == "*/" + rest && s[2..] == rest;
    } else {
      OneMoreInFront(b);
      if b[0] != '*' {
        assert BlockEnd(s) == BlockEnd(s[1..]);
        hide BlockEnd, Stars;
        Later(b, rest, 1);
        CommentExactly(b[1..], rest);
      } else if |b| == 1 {
        assert s[2..] == "/" + rest;
      } else {
        assert (b + "*")[0] == '*' && (b + "*")[1] == b[1] != '/';
        assert BlockEnd(s) == BlockEnd(s[2..]);
        OneMoreInFront(b[1..]);
        hide BlockEnd, Stars;
        Later(b, rest, 2);
        CommentExactly(b[2..], rest);
      }
    }
  }

  /** A comment that ends there is nothing in front of a text. */
  lemma CommentIsBlank(b: string, text: string)
    requires NoEnd(b + "*") && Stars(b) % 2 == 0 && NulFree(b) && NulFree(text)
    ensures NulFree("/*" + (b + "*/" + text))
    ensures var o := Parse("/*" + (b + "*/" + text));
      (o.err == Success <==> Parse(text).err == Success) && Value(o) == Value(Parse(text))
  {
    var s := "/*" + (b + "*/" + text);
    CommentExactly(b, text);
    assert s[2..] == b + "*/" + text && s[0] == '/' && s[1] == '*';
    assert Skip(s) == Skip(text) by { hide BlockEnd; }
    GrammarExact.LanguageExact(s);
    GrammarExact.LanguageExact(text);
    SameSkip(s, text);
    hide ReadValue, Parse, Skip, BlockEnd;
  }

  lemma SameSkip(s: string, s': string)
    requires Skip(s) == Skip(s')
    ensures ReadValue(s, 0) == ReadValue(s', 0)
  {
    hide Skip, ReadText, ReadItems, ReadMembers, ReadNumber, ReadWord;
  }

  lemma {:induction false} LineEnds(b: string, text: string)
    requires forall i :: 0 <= i < |b| ==> b[i] != '\n'
    ensures LineEnd(b + ("\n" + text)) == Some(text)
    decreases |b|
  {
    var s := b + ("\n" + text);
    if b == "" {
      assert s == "\n" + text && s[1..] == text;
    } else {
      assert s[0] == b[0] && s[1..] == b[1..] + ("\n" + text);
      LineEnds(b[1..], text);
    }
  }

  /** Nor does a comment that ends with its line. */
  lemma LineCommentIsBlank(b: string, text: string)
    requires (forall i :: 0 <= i < |b| ==> b[i] != '\n') && NulFree(b) && NulFree(text)
    ensures NulFree("//" + (b + ("\n" + text)))
    ensures var o := Parse("//" + (b + ("\n" + text)));
      (o.err == Success <==> Parse(text).err == Success) && Value(o) == Value(Parse(text))
  {
    var s := "//" + (b + ("\n" + text));
    LineEnds(b, text);
    assert s[2..] == b + ("\n" + text) && s[0] == '/' && s[1] == '/';
    assert Skip(s) == Skip(text) by { hide LineEnd; }
    GrammarExact.LanguageExact(s);
    GrammarExact.LanguageExact(text);
    SameSkip(s, text);
    hide ReadValue, Parse, Skip, LineEnd;
  }

  /** `**` and a slash end no comment. */
  lemma StarsHideTheEnd()
    ensures Parse("/***/1").err != Success
  {
    var s := "/***/1";
    assert s[2..] == "**/1" && "**/1"[2..] == "/1" && "/1"[1..] == "1";
    assert Skip(s) == Unended;
    GrammarExact.LanguageExact(s);
    hide Skip, Parse;
  }

  /** What stands behind white space and comments. */
  function Rest(s: string): string {
    if Skip(s).Upto? then Skip(s).rest else ""
  }

  lemma SameRest(s: string)
    requires Skip(s).Upto?
    ensures ReadValue(Rest(s), 1) == ReadValue(s, 1)
  {
    GrammarExact.SkipTwice(s);
  }

  /** For every text: the call succeeds with a part of an array or object that was never closed if and only if the
      grammar finds the text cut inside a comment, and the part is the value in front of that comment. */
  lemma InnerExactly(text: string)
    requires NulFree(text)
    ensures Parse(text).err == Success && Parse(text).tok.below != [] <==> ReadValue(text, 0).Cut?
    ensures ReadValue(text, 0).Cut? ==> Value(Parse(text)) == ReadValue(text, 0).value
  {
    GrammarExact.LanguageExact(text);
    hide Parse, ReadValue, Skip;
  }

  lemma InBracket(t: string)
    ensures ReadValue("[" + t, 0) == ReadItems(t, [], 0)
  {
    assert ("[" + t)[1..] == t && Skip("[" + t) == Upto("[" + t);
    hide Skip, ReadItems, ReadMembers, ReadText, ReadWord, ReadNumber;
  }

  lemma ItemCut(t: string, v: Json)
    requires ReadValue(t, 1) == Read(v, "/*") && Front(Rest(t)) != ']'
    ensures ReadItems(t, [], 0) == Cut(v)
  {
    assert Skip("/*") == Unended by { assert "/*"[2..] == ""; }
    if Skip(t).Upto? { SameRest(t); }
    hide Skip;
  }

  /** A comment that is not ended behind the first item of an array gives that item, and not the array. */
  lemma InnerValueReturned(item: string, v: Json)
    requires NulFree(item) && ReadValue(item + "/*", 1) == Read(v, "/*") && Front(Rest(item + "/*")) != ']'
    ensures var o := Parse("[" + (item + "/*")); o.err == Success && Value(o) == v && o.tok.below != []
  {
    hide ReadValue, ReadItems, Parse, Rest;
    GrammarExact.LanguageExact("[" + (item + "/*"));
    InBracket(item + "/*");
    ItemCut(item + "/*", v);
  }

  /** For example. */
  lemma TrueReturned()
    ensures var o := Parse("[true/*"); o.err == Success && Value(o) == Bool(true) && o.tok.below != []
  {
    hide Parse;
    assert Skip("true/*") == Upto("true/*");
    assert "true/*"[4..] == "/*" && Spelled("true/*", "true");
    assert "[" + ("true" + "/*") == "[true/*";
    InnerValueReturned("true", Bool(true));
  }
}
