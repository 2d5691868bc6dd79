/** Named classes in bracket sets: all of them are marked, but only the one asked for first is looked at. */
module GlobClasses {
  import opened CTypes
  import opened JsonValue
  import opened Glob
  import opened GlobBodies
  import opened GlobScan

  // ----- from the text to the marks

  function Nameds(ks: seq<Class>): seq<Piece> {
    seq(|ks|, i requires 0 <= i < |ks| => Named(ks[i]))
  }

  /** The body of a set: named classes, one after the other. */
  function ClassBody(ks: seq<Class>): string {
    Texts(Nameds(ks))
  }

  function ClassesOf(ks: seq<Class>): set<Class> {
    set k | k in ks
  }

  lemma {:induction false} NamedsComplete(ps: seq<Piece>, after: string)
    requires forall i :: 0 <= i < |ps| ==> ps[i].Named?
    ensures AllComplete(ps, after)
    decreases |ps|
  {
    if ps != [] { NamedsComplete(ps[1..], after); }
  }

  /** A set of named classes marks all of them. */
  lemma ClassesMarked(ks: seq<Class>, after: string)
    requires ks != [] && NulFree(ClassBody(ks) + ("]" + after))
    ensures ScanSet(SCAN_START, ClassBody(ks) + ("]" + after)) == Ok(CharSet({}, ClassesOf(ks), false), "]" + after)
  {
    var ps, rest, cs := Nameds(ks), "]" + after, CharSet({}, ClassesOf(ks), false);
    hide ScanSet, Texts;
    NamedsComplete(ps, rest);
    assert IsBody("", ps, rest) by { hide AllComplete; }
    assert Means(cs, "", ps) by {
      forall k ensures k in ks <==> Named(k) in ps {
        if i :| 0 <= i < |ks| && ks[i] == k { assert ps[i] == Named(k); }
      }
    }
    hide IsBody, Means;
    assert ClassBody(ks) + rest == "" + (Texts(ps) + rest);
    SetMeansExactly(ClassBody(ks) + rest, cs, rest);
  }

  // ----- which of the marked classes count

  /** The classes that a class contains. */
  function Contained(k: Class): set<Class> {
    match k
    case Alnum => {Alnum, Alpha, Digit, XDigit, Upper, Lower}
    case Alpha => {Alpha, Upper, Lower}
    case Digit => {Digit}
    case XDigit => {XDigit, Digit}
    case Print => {Print, Graph, Alnum, Alpha, Digit, XDigit, Upper, Lower}
    case Space => {Space, Blank}
    case Upper => {Upper}
    case Lower => {Lower}
    case Blank => {Blank}
    case Graph => {Graph, Alnum, Alpha, Digit, XDigit, Upper, Lower}
  }

  /** A character of class `j` that is not in class `k`, if there is one. */
  function Outside(j: Class, k: Class): char {
    if InClass(j, '5') && !InClass(k, '5') then '5'
    else if InClass(j, 'a') && !InClass(k, 'a') then 'a'
    else if InClass(j, 'z') && !InClass(k, 'z') then 'z'
    else if InClass(j, 'A') && !InClass(k, 'A') then 'A'
    else if InClass(j, 'Z') && !InClass(k, 'Z') then 'Z'
    else if InClass(j, '!') && !InClass(k, '!') then '!'
    else if InClass(j, '\t') && !InClass(k, '\t') then '\t'
    else if InClass(j, '\n') && !InClass(k, '\n') then '\n'
    else ' '
  }

  /** The table is exact. */
  lemma ContainedExactly(j: Class, k: Class)
    ensures j in Contained(k) <==> forall c :: InClass(j, c) ==> InClass(k, c)
    ensures j !in Contained(k) ==> InClass(j, Outside(j, k)) && !InClass(k, Outside(j, k))
  {
    if j in Contained(k) { IsContained(j, k); } else { NotContained(j, k); }
  }

  lemma IsContained(j: Class, k: Class)
    requires j in Contained(k)
    ensures forall c :: InClass(j, c) ==> InClass(k, c)
  {
  }

  lemma NotContained(j: Class, k: Class)
    requires j !in Contained(k)
    ensures InClass(j, Outside(j, k)) && !InClass(k, Outside(j, k))
  {
  }

  ghost predicate InSome(classes: set<Class>, c: char) {
    exists k :: k in classes && InClass(k, c)
  }

  /** What is found is what the marked classes contain together if and only if the class asked for first
      contains every other marked class. */
  lemma UnionExactly(classes: set<Class>)
    ensures (forall c :: InFirstAsked(classes, c) <==> InSome(classes, c))
      <==> match FirstAsked(classes, ASKED) case None => true case Some(k) => classes <= Contained(k)
  {
    AskedFinds(classes, ASKED);
    forall k: Class ensures k in ASKED { AllAsked(k); }
    var first := FirstAsked(classes, ASKED);
    hide InClass, Contained, Outside, FirstAsked;
    if first.Some? {
      var k := first.value;
      if j :| j in classes && j !in Contained(k) {
        ContainedExactly(j, k);
        assert InSome(classes, Outside(j, k)) && !InFirstAsked(classes, Outside(j, k));
      } else {
        forall c ensures InFirstAsked(classes, c) <==> InSome(classes, c) {
          if InSome(classes, c) {
            var j :| j in classes && InClass(j, c);
            ContainedExactly(j, k);
          }
        }
      }
    } else {
      forall c ensures !InSome(classes, c) {
      }
    }
  }

  /** In particular with at most one class marked. */
  lemma OneClassExact(cs: CharSet, c: char)
    requires forall j, k :: j in cs.classes && k in cs.classes ==> j == k
    ensures Found(cs, c) <==> c in cs.chars || exists k :: k in cs.classes && InClass(k, c)
  {
    AskedFinds(cs.classes, ASKED);
    forall k: Class ensures k in ASKED { AllAsked(k); }
  }

  lemma AllAsked(k: Class)
    ensures k in ASKED
  {
    assert ASKED[0] == Alnum && ASKED[1] == Alpha && ASKED[2] == Digit && ASKED[3] == XDigit && ASKED[4] == Print;
    assert ASKED[5] == Space && ASKED[6] == Upper && ASKED[7] == Lower && ASKED[8] == Blank && ASKED[9] == Graph;
  }

  lemma {:induction false} AskedFinds(classes: set<Class>, asked: seq<Class>)
    ensures var k := FirstAsked(classes, asked);
      if k.Some? then k.value in classes else forall j :: j in asked ==> j !in classes
  {
    if asked != [] {
      AskedFinds(classes, asked[1..]);
      assert asked == [asked[0]] + asked[1..];
    }
  }

  /** A pattern that is one set, against one character. */
  lemma OneSet(body: string, cs: CharSet, c: char)
    requires NulFree(body) && c != NUL && ScanSet(SCAN_START, body) == Ok(cs, "]")
    ensures Loop("[" + body, [c]) == if InSet(cs, c) then Match else NoMatch
  {
    hide ScanSet, InSet;
    var p := "[" + body;
    assert p[1..] == body && "]"[1..] == "" && [c][1..] == "";
    assert Loop("", "") == Match;
  }

  // ----- the order of the classes, and what a set matches

  /** Which of two marked classes is looked at: the one that stands first here. */
  function Rank(k: Class): nat {
    match k
    case Alnum => 0
    case Alpha => 1
    case Digit => 2
    case XDigit => 3
    case Print => 4
    case Space => 5
    case Upper => 6
    case Lower => 7
    case Blank => 8
    case Graph => 9
  }

  lemma FirstAskedExactly(classes: set<Class>, k: Class)
    ensures FirstAsked(classes, ASKED) == Some(k) <==> k in classes && forall j :: j in classes ==> Rank(k) <= Rank(j)
  {
    forall i: nat | i < |ASKED| ensures Rank(ASKED[i]) == i {}
    AskedInOrder(classes, ASKED, 0);
    AllAsked(k);
    forall j: Class ensures j in ASKED { AllAsked(j); }
  }

  lemma {:induction false} AskedInOrder(classes: set<Class>, asked: seq<Class>, n: nat)
    requires forall i :: 0 <= i < |asked| ==> Rank(asked[i]) == n + i
    ensures match FirstAsked(classes, asked)
      case Some(k) => k in asked && k in classes && forall j :: j in asked && j in classes ==> Rank(k) <= Rank(j)
      case None => forall j :: j in asked ==> j !in classes
    decreases |asked|
  {
    hide Rank;
    if asked != [] {
      AskedInOrder(classes, asked[1..], n + 1);
      assert asked == [asked[0]] + asked[1..];
    }
  }

  /** Of the classes that are written, the first in that order holds the character. */
  ghost predicate ClassMarked(ps: seq<Piece>, c: char) {
    exists k :: Named(k) in ps && InClass(k, c) && forall j :: Named(j) in ps ==> Rank(k) <= Rank(j)
  }

  lemma MarksFound(cs: CharSet, mark: string, ps: seq<Piece>, c: char)
    requires Means(cs, mark, ps)
    ensures Found(cs, c) <==> Marked(ps, c) || ClassMarked(ps, c)
  {
    hide InClass, Marked, Rank, FirstAsked;
    forall k: Class
      ensures FirstAsked(cs.classes, ASKED) == Some(k) <==>
        Named(k) in ps && forall j :: Named(j) in ps ==> Rank(k) <= Rank(j)
    {
      FirstAskedExactly(cs.classes, k);
    }
  }

  /** A set, with everything a body can be made of, against one character. */
  lemma SetMatchesExactly(mark: string, ps: seq<Piece>, c: char)
    requires IsBody(mark, ps, "]") && NulFree(mark + (Texts(ps) + "]")) && c != NUL
    ensures Loop("[" + (mark + (Texts(ps) + "]")), [c]) ==
      if (Marked(ps, c) || ClassMarked(ps, c)) <==> mark == "" then Match else NoMatch
  {
    hide ScanSet, IsBody, Texts, Loop, Found, Marked, ClassMarked, AddAll;
    var body, cs := mark + (Texts(ps) + "]"), AddAll(Started(mark).cs, ps);
    AddAllMeans(mark, ps);
    assert cs.negate == (mark != "");
    hide Means;
    SetMeansExactly(body, cs, "]");
    MarksFound(cs, mark, ps, c);
    OneSet(body, cs, c);
  }

  /** A character that has no meaning of its own stands for itself, an opening bracket among them. */
  lemma SingleMatches(c: char, d: char)
    requires !IsAlnum(c) && c !in {']', '\\', '!', '^', NUL} && d != NUL
    ensures Loop("[" + [c] + "]", [d]) == if d == c then Match else NoMatch
  {
    OnePieceMatches(Single(c), c, d);
  }

  /** So does every printable character behind a backslash. */
  lemma EscapedMatches(c: char, d: char)
    requires IsPrint(c) && d != NUL
    ensures Loop("[\\" + [c] + "]", [d]) == if d == c then Match else NoMatch
  {
    var xs := "\\" + [c];
    assert xs[2..] == "" && LetterAt(xs) && Letters("");
    assert Unescaped(xs) == {c} + Unescaped("") == {c};
    OnePieceMatches(Several(xs), c, d);
    assert "[" + xs + "]" == "[\\" + [c] + "]";
  }

  const CLASS_NAMES :=
    {"alnum", "alpha", "digit", "xdigit", "print", "space", "upper", "lower", "blank", "graph"}

  /** The character codes that a class name stands for in ASCII. */
  predicate HasCode(name: string, n: int) {
    var upper, lower, digit := 65 <= n <= 90, 97 <= n <= 122, 48 <= n <= 57;
    match name
    case "alnum" => upper || lower || digit
    case "alpha" => upper || lower
    case "digit" => digit
    case "xdigit" => digit || 65 <= n <= 70 || 97 <= n <= 102
    case "print" => 32 <= n <= 126
    case "space" => n == 32 || 9 <= n <= 13
    case "upper" => upper
    case "lower" => lower
    case "blank" => n == 32 || n == 9
    case _ => name == "graph" && 33 <= n <= 126
  }

  /** A set that is one class matches the characters with these codes. */
  lemma NamedMatches(name: string, d: char)
    requires name in CLASS_NAMES && d != NUL
    ensures Loop("[[:" + name + ":]]", [d]) == if HasCode(name, d as int) then Match else NoMatch
  {
    var k := NamedClass(name, d);
    hide Loop, InClass, NameOf, HasCode;
    var ps := [Named(k)];
    assert ps[0] == Named(k) && ps[1..] == [] && Texts([]) == "" && Texts(ps) == ClassText(k) + "";
    NamedsComplete(ps, "]");
    assert IsBody("", ps, "]") && !Marked(ps, d);
    assert ClassMarked(ps, d) <==> InClass(k, d) by { hide IsBody, Marked; }
    hide IsBody, Marked, ClassMarked, Texts;
    SetMatchesExactly("", ps, d);
    assert "[" + ("" + (("[:" + name + ":]") + "" + "]")) == "[[:" + name + ":]]";
  }

  lemma NamedClass(name: string, d: char) returns (k: Class)
    requires name in CLASS_NAMES
    ensures NameOf(k) == name && NulFree(ClassText(k) + "]") && (InClass(k, d) <==> HasCode(name, d as int))
  {
    k := ClassOf(name).value;
  }

  lemma OnePieceMatches(x: Piece, c: char, d: char)
    requires (x.Single? && Complete(x, "]")) || (x.Several? && Closes(x))
    requires !IsMark(x) && NulFree(Text(x)) && Names(x) == {c} && d != NUL
    ensures Loop("[" + Text(x) + "]", [d]) == if d == c then Match else NoMatch
  {
    hide Complete, Closes, Loop, Names, Text;
    var ps := [x];
    assert ps[1..] == [] && ps[..0] == [] && Texts([]) == "" && "" + "]" == "]" && Text(x) + "" == Text(x);
    assert AllComplete([], Text(x) + "]") && Texts(ps) == Text(x);
    assert Complete(x, "]") ==> AllComplete(ps, "]");
    assert IsBody("", ps, "]");
    assert Marked(ps, d) <==> d == c by { assert ps[0] == x && NoneFills(ps[1..]); }
    assert !ClassMarked(ps, d) by { assert ps[0] == x; }
    hide IsBody, Marked, ClassMarked, Texts;
    assert "" + (Text(x) + "]") == Text(x) + "]" && "[" + (Text(x) + "]") == "[" + Text(x) + "]";
    SetMatchesExactly("", ps, d);
  }

  /** `[[:digit:][:alpha:]]` marks two classes, but it does not match a digit. */
  lemma SecondClassIgnored()
    ensures var body := ClassBody([Digit, Alpha]) + "]";
      && "[" + body == "[[:digit:][:alpha:]]"
      && ScanSet(SCAN_START, body) == Ok(CharSet({}, {Digit, Alpha}, false), "]")
      && Loop("[" + body, "5") == NoMatch && Loop("[" + body, "x") == Match
  {
    DigitAlphaText();
    hide ScanSet, Loop, ClassBody;
    var ks, body := [Digit, Alpha], ClassBody([Digit, Alpha]) + "]";
    assert "]" + "" == "]" && ClassBody(ks) + ("]" + "") == body;
    ClassesMarked(ks, "");
    var cs := CharSet({}, {Digit, Alpha}, false);
    assert ClassesOf(ks) == {Digit, Alpha};
    FirstOfTwo();
    OneSet(body, cs, '5');
    OneSet(body, cs, 'x');
  }

  lemma DigitAlphaText()
    ensures "[" + (ClassBody([Digit, Alpha]) + "]") == "[[:digit:][:alpha:]]" &&
      NulFree(ClassBody([Digit, Alpha]) + "]")
  {
    DigitAlphaBody();
    hide ClassBody;
    assert "[:digit:]" + ("[:alpha:]" + "") == "[:digit:][:alpha:]";
    assert "[:digit:][:alpha:]" + "]" == "[:digit:][:alpha:]]";
    assert "[" + "[:digit:][:alpha:]]" == "[[:digit:][:alpha:]]";
  }

  lemma DigitAlphaBody()
    ensures ClassBody([Digit, Alpha]) == "[:digit:]" + ("[:alpha:]" + "")
  {
    assert ClassText(Digit) == "[:digit:]" && ClassText(Alpha) == "[:alpha:]";
    hide ClassText;
    assert [Digit, Alpha][1..] == [Alpha] && [Alpha][1..] == [] && ClassBody([]) == "";
    assert ClassBody([Alpha]) == "[:alpha:]" + "";
  }

  lemma FirstOfTwo()
    ensures !InSet(CharSet({}, {Digit, Alpha}, false), '5') && InSet(CharSet({}, {Digit, Alpha}, false), 'x')
  {
    var classes := {Digit, Alpha};
    assert ASKED[0] == Alnum && ASKED[1..][0] == Alpha;
    assert FirstAsked(classes, ASKED) == FirstAsked(classes, ASKED[1..]) == Some(Alpha);
  }
}
