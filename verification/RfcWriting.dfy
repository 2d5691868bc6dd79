/** The writer writes JSON as RFC 4627 defines it, and the text stands for the value. */
module RfcWriting {
  import opened JsonValue
  import opened Rfc4627
  import opened JsonPrinter
  import opened Decimal

  /** A number with a fraction or an exponent, as the standard spells it. */
  ghost predicate IsRfcDouble(text: string) {
    exists t: Tree :: t.Number? && WellFormed(t) && !Integral(t) && Text(t) == text
  }

  // ----- how the writer chooses among the ways to write a value

  predicate LaidLetter(l: Letter) {
    match l
    case Plain(c) => c != '/'
    case Escaped(c) => c != 'f'
    case Unit(digits) =>
      UnitCode(digits) < 32 && UnitCode(digits) !in {8, 9, 10, 13} && forall c :: c in digits ==> !('A' <= c <= 'F')
  }

  predicate LaidLetters(ls: seq<Letter>) {
    forall l :: l in ls ==> LaidLetter(l)
  }

  /** One blank behind an opening bracket, behind a comma, behind a colon and in front of a closing bracket. */
  predicate Laid(t: Tree)
    decreases t, 1
  {
    match t
    case Word(_) => true
    case Number(_, _, _, _, _) => Integral(t) && t.whole == "0" ==> !t.minus
    case Quoted(ls) => LaidLetters(ls)
    case Array(blank, items) => blank == " " && forall i :: 0 <= i < |items| ==> LaidItem(items[i], i == |items| - 1)
    case Object(blank, pairs) => blank == " " && forall i :: 0 <= i < |pairs| ==> LaidPair(pairs[i], i == |pairs| - 1)
  }

  predicate LaidItem(x: Item, last: bool)
    decreases x, 0
  {
    x.before == " " && Laid(x.value) && x.after == if last then " " else ""
  }

  predicate LaidPair(p: Pair, last: bool)
    decreases p, 0
  {
    p.before == " " && LaidLetters(p.name) && p.space == "" && LaidItem(p.item, last)
  }

  // ----- strings

  lemma LetterOf(c: char) returns (l: Letter)
    ensures IsLetter(l) && LaidLetter(l) && SpellLetter(l) == EscapeChar(c) && Bytes([l]) == [c]
    ensures l.Unit? ==> UnitCode(l.digits) < 32
  {
    if c as int in {8, 10, 13, 9, 34, 92, 47} {
      var e := EscapeChar(c);
      l := Escaped(e[1]);
      assert e == "\\" + [e[1]];
    } else if c < ' ' {
      l := ControlLetter(c);
    } else {
      l := Plain(c);
    }
    hide EscapeChar, UnitCode;
    assert [l][1..] == [] && Bytes([]) == "";
  }

  lemma ControlLetter(c: char) returns (l: Letter)
    requires c < ' ' && c as int !in {8, 10, 13, 9}
    ensures l.Unit? && IsLetter(l) && LaidLetter(l) && SpellLetter(l) == EscapeChar(c) && UnitCode(l.digits) == c as int
  {
    var high, low := HexChar(c as int / 16), HexChar(c as int % 16);
    HexCharIs(c as int / 16);
    HexCharIs(c as int % 16);
    assert EscapeChar(c) == "\\u00" + [high, low];
    hide EscapeChar, HexChar;
    l := Unit(['0', '0', high, low]);
    assert "\\u" + ['0', '0', high, low] == "\\u00" + [high, low];
  }

  lemma HexCharIs(d: nat)
    requires d < 16
    ensures IsHexDigit(HexChar(d)) && HexValue(HexChar(d)) == d && !('A' <= HexChar(d) <= 'F')
  {
  }

  lemma {:induction false} LettersOf(s: string) returns (ls: seq<Letter>)
    ensures AreLetters(ls) && LaidLetters(ls) && Spell(ls) == Escape(s) && Bytes(ls) == s
    ensures forall l :: l in ls && l.Unit? ==> UnitCode(l.digits) < 32
  {
    hide IsLetter, LaidLetter, SpellLetter, EscapeChar, UnitCode;
    if s == "" {
      ls := [];
    } else {
      var l := LetterOf(s[0]);
      var rest := LettersOf(s[1..]);
      ls := [l] + rest;
      assert ls[1..] == rest && ls[0] == l;
      FirstByte(l, rest);
      assert s == [s[0]] + s[1..];
    }
  }

  lemma FirstByte(l: Letter, rest: seq<Letter>)
    requires l.Unit? ==> UnitCode(l.digits) < 32
    ensures Bytes([l] + rest) == Bytes([l]) + Bytes(rest)
  {
    hide UnitCode;
    assert ([l] + rest)[1..] == rest && [l][1..] == [] && Bytes([]) == "";
  }

  // ----- numbers

  lemma {:induction false} NatIs(n: nat)
    ensures var s := PrintNat(n); Digits(s) && s != "" && (s[0] == '0' ==> s == "0") && Magnitude(s) == n
    ensures PrintNat(n)[0] == '0' ==> n == 0
  {
    var s := PrintNat(n);
    if n < 10 {
      assert s[..0] == "" && Magnitude("") == 0;
    } else {
      NatIs(n / 10);
      assert s[..|s| - 1] == PrintNat(n / 10);
    }
  }

  lemma IntTree(n: int32) returns (t: Tree)
    ensures WellFormed(t) && Laid(t) && Text(t) == PrintInt(n as int) && Denotes(t, Int(n))
  {
    var size := if n < 0 then -(n as int) else n as int;
    var digits := PrintNat(size);
    assert PrintInt(n as int) == (if n < 0 then "-" else "") + digits by { assert "" + digits == digits; }
    NatIs(size);
    hide PrintNat, PrintInt, Digits, Magnitude;
    t := Number(n < 0, digits, "", "", "");
    assert Text(t) == (if n < 0 then "-" else "") + digits + "" + "" + "";
    NothingBehind((if n < 0 then "-" else "") + digits);
  }

  lemma NothingBehind(s: string)
    ensures s + "" + "" + "" == s
  {
  }

  // ----- arrays and objects

  lemma LaterItems(items: seq<Json>)
    requires items != []
    ensures PrintItems(items, false) == "," + PrintItems(items, true)
  {
    assert ", " == "," + " ";
  }

  lemma LaterMembers(members: seq<Member>)
    requires members != []
    ensures PrintMembers(members, false) == "," + PrintMembers(members, true)
  {
    hide Print, JsonPrinter.Quoted;
    assert ", " == "," + " ";
  }

  predicate Lists(xs: seq<Item>, items: seq<Json>) {
    && |xs| == |items|
    && forall i :: 0 <= i < |xs| ==>
      WellFormedItem(xs[i]) && LaidItem(xs[i], i == |xs| - 1) && Denotes(xs[i].value, items[i])
  }

  predicate ListsPairs(ps: seq<Pair>, members: seq<Member>) {
    && |ps| == |members|
    && (forall i :: 0 <= i < |ps| ==> WellFormedPair(ps[i]) && LaidPair(ps[i], i == |ps| - 1))
    && forall i :: 0 <= i < |ps| ==>
      Bytes(ps[i].name) == members[i].key && Denotes(ps[i].item.value, members[i].value)
  }

  lemma {:induction false} ItemsTree(items: seq<Json>) returns (xs: seq<Item>)
    requires items != [] && forall x :: x in items ==> Doubles(x, IsRfcDouble)
    ensures Lists(xs, items) && xs != [] && ItemsText(xs) == PrintItems(items, true) + " "
    decreases items, 0
  {
    hide Print, Text, WellFormed, Laid, Denotes, Doubles;
    var t := TreeOf(items[0]);
    if |items| == 1 {
      assert items[1..] == [] && PrintItems([], false) == "";
      xs := [Item(" ", t, " ")];
      assert Blank(" ");
      assert ItemsText(xs) == ItemText(xs[0]);
    } else {
      var rest := ItemsTree(items[1..]);
      LaterItems(items[1..]);
      var x := Item(" ", t, "");
      xs := [x] + rest;
      assert xs[1..] == rest;
      assert Blank(" ") && Blank("");
      assert ItemsText(xs) == ItemText(x) + "," + ItemsText(rest);
      hide WellFormedItem, LaidItem, PrintItems, ItemsText;
    }
  }

  lemma {:induction false} TreeOf(v: Json) returns (t: Tree)
    requires Doubles(v, IsRfcDouble)
    ensures WellFormed(t) && Laid(t) && Text(t) == Print(v) && Denotes(t, v)
    decreases v, 1
  {
    hide Bytes;
    match v
    case Null => t := Word("null");
    case Bool(b) => t := Word(if b then "true" else "false");
    case Int(n) => t := IntTree(n);
    case Double(text) =>
      t :| t.Number? && WellFormed(t) && !Integral(t) && Text(t) == text;
    case Str(s) =>
      var ls := LettersOf(s);
      t := Quoted(ls);
    case Arr(items) =>
      if items == [] {
        t := Array(" ", []);
      } else {
        var xs := ItemsTree(items);
        t := Array(" ", xs);
        ArrayTree(xs, items);
      }
    case Obj(members) =>
      if members == [] {
        t := Object(" ", []);
      } else {
        var ps := PairsTree(members);
        t := Object(" ", ps);
        ObjectTree(ps, members);
      }
  }

  lemma ArrayTree(xs: seq<Item>, items: seq<Json>)
    requires Lists(xs, items) && xs != [] && ItemsText(xs) == PrintItems(items, true) + " "
    ensures var t := Array(" ", xs);
      WellFormed(t) && Laid(t) && Text(t) == Print(Arr(items)) && Denotes(t, Arr(items))
  {
    assert Blank(" ") && " " + "]" == " ]";
    hide ItemsText, PrintItems, WellFormedItem, LaidItem;
  }

  lemma ObjectTree(ps: seq<Pair>, members: seq<Member>)
    requires ListsPairs(ps, members) && ps != [] && PairsText(ps) == PrintMembers(members, true) + " "
    ensures var t := Object(" ", ps);
      WellFormed(t) && Laid(t) && Text(t) == Print(Obj(members)) && Denotes(t, Obj(members))
  {
    hide PairsText, PrintMembers, WellFormedPair, LaidPair, Bytes, Denotes;
    assert Blank(" ") && " " + "}" == " }";
    DenotesObject(ps, members);
  }

  lemma DenotesObject(ps: seq<Pair>, members: seq<Member>)
    requires ListsPairs(ps, members)
    ensures Denotes(Object(" ", ps), Obj(members))
  {
    hide WellFormedPair, LaidPair, Bytes;
  }

  /** One member, and what stands behind it. */
  lemma OnePair(m: Member, last: bool) returns (p: Pair)
    requires Doubles(m.value, IsRfcDouble)
    ensures WellFormedPair(p) && LaidPair(p, last) && Bytes(p.name) == m.key && Denotes(p.item.value, m.value)
    ensures PairText(p) ==
      Separator(true) + JsonPrinter.Quoted(m.key) + ": " + Print(m.value) + if last then " " else ""
    decreases m, 2
  {
    hide Print, Text, WellFormed, Laid, Denotes, Doubles, Bytes, AreLetters, LaidLetters, IsRfcDouble;
    var name := LettersOf(m.key);
    var t := TreeOf(m.value);
    p := Pair(" ", name, "", Item(" ", t, if last then " " else ""));
    assert Blank(" ") && Blank("");
    assert Quote(name) == JsonPrinter.Quoted(m.key);
    hide Quote, JsonPrinter.Quoted;
    assert Quote(name) + "" + ":" + ItemText(p.item) == Quote(name) + ": " + Text(t) + p.item.after;
  }

  lemma {:induction false} PairsTree(members: seq<Member>) returns (ps: seq<Pair>)
    requires members != [] && forall m :: m in members ==> Doubles(m.value, IsRfcDouble)
    ensures ListsPairs(ps, members) && ps != [] && PairsText(ps) == PrintMembers(members, true) + " "
    decreases members, 0
  {
    hide Print, Denotes, Doubles, Bytes, WellFormedPair, LaidPair, PairText, JsonPrinter.Quoted;
    var p := OnePair(members[0], |members| == 1);
    if |members| == 1 {
      assert members[1..] == [] && PrintMembers([], false) == "";
      ps := [p];
    } else {
      var rest := PairsTree(members[1..]);
      LaterMembers(members[1..]);
      ps := [p] + rest;
      assert ps[1..] == rest;
      assert PairsText(ps) == PairText(p) + "," + PairsText(rest);
      hide PrintMembers, PairsText;
    }
  }

  // ----- the theorem

  /** Where a tree denotes a value, the value's doubles are numbers of the standard. */
  lemma {:induction false} DenotedDoubles(t: Tree, v: Json)
    requires WellFormed(t) && Denotes(t, v)
    ensures Doubles(v, IsRfcDouble)
    decreases t
  {
    hide Text, Bytes, Magnitude;
    match t
    case Number(_, _, _, _, _) =>
      if !Integral(t) { assert IsRfcDouble(Text(t)); }
    case Array(_, items) =>
      forall x | x in v.items ensures Doubles(x, IsRfcDouble) {
        var i :| 0 <= i < |items| && v.items[i] == x;
        assert WellFormedItem(items[i]);
        DenotedDoubles(items[i].value, x);
      }
    case Object(_, pairs) =>
      forall m | m in v.members ensures Doubles(m.value, IsRfcDouble) {
        var i :| 0 <= i < |pairs| && v.members[i] == m;
        assert WellFormedPair(pairs[i]) && WellFormedItem(pairs[i].item);
        DenotedDoubles(pairs[i].item.value, m.value);
      }
    case _ =>
  }

  /** For every value: what is printed is a text of the standard that stands for that value if and only if the
      doubles are numbers of the standard; and then it is laid out with single blanks. */
  lemma PrintIsJson(v: Json)
    ensures (exists t :: WellFormed(t) && Text(t) == Print(v) && Denotes(t, v)) <==> Doubles(v, IsRfcDouble)
    ensures Doubles(v, IsRfcDouble) ==> exists t :: WellFormed(t) && Text(t) == Print(v) && Denotes(t, v) && Laid(t)
  {
    hide *;
    if Doubles(v, IsRfcDouble) {
      var t := TreeOf(v);
    }
    if t :| WellFormed(t) && Text(t) == Print(v) && Denotes(t, v) {
      DenotedDoubles(t, v);
    }
  }
}
