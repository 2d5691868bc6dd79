/** What the values under construction satisfy, and what that says about every parsed value. */
module TokenerValues {
  import opened CTypes
  import opened JsonValue
  import opened Decimal
  import opened JsonPrinter
  import opened Tokener
  import opened JsonGrammar
  import GrammarExact
  import RoundTrip

  // ----- the switch itself never touches a value: only its effect does

  predicate FieldKept(t: Tok, u: Tok) {
    u.top.field == t.top.field || (u.top.field.Some? && NulFree(u.top.field.value))
  }

  /** A value made by the switch is a leaf or an empty container. */
  predicate Leaf(v: Json) {
    match v
    case Str(s) => NulFree(s)
    case Arr(items) => items == []
    case Obj(members) => members == []
    case _ => true
  }

  predicate ControlOnly(t: Tok, r: Result) {
    && r.tok.below == t.below && r.tok.obj == t.obj && r.tok.top.current == t.top.current
    && FieldKept(t, r.tok)
    && (r.effect.Make? ==> Leaf(r.effect.v))
    && (r.effect.Push? ==> t.Depth() < MAX_DEPTH - 1)
    && (r.effect.Pop? ==> t.below != [])
    && (r.move.Out? ==> r.effect.Keep?)
  }

  lemma {:induction false} ScalarControl(t: Tok, c: char)
    ensures ControlOnly(t, InStart(t, c)) && ControlOnly(t, InNull(t, c))
    ensures ControlOnly(t, InBoolean(t, c)) && ControlOnly(t, InNumber(t, c))
  {
    hide MatchesWord, NulFree, Lower;
  }

  lemma {:induction false} TextControl(t: Tok, c: char)
    ensures ControlOnly(t, InString(t, c)) && ControlOnly(t, InStringEscape(t, c))
    ensures ControlOnly(t, InEscapeUnicode(t, c)) && ControlOnly(t, InKey(t, c))
  {
    hide Utf8, AddHexDigit;
  }

  lemma {:induction false} ContainerControl(t: Tok, c: char)
    ensures ControlOnly(t, InArray(t, c)) && ControlOnly(t, InValue(t, c))
    ensures ControlOnly(t, InObjectSep(t, c)) && ControlOnly(t, InComment(t, c))
  {
  }

  lemma {:induction false} DispatchControl(t: Tok, c: char)
    ensures ControlOnly(t, Dispatch(t, c))
  {
    match t.top.state
    case Eatws | Finish =>
    case Start | NullWord | Boolean | Number => ScalarControl(t, c);
    case String | StringEscape | EscapeUnicode | ObjectFieldStart | ObjectField => TextControl(t, c);
    case _ => ContainerControl(t, c);
  }

  // ----- the invariant

  /** The value at depth `d` can be held by the C structures and leaves room for the levels below it. */
  predicate Fits(l: Level, d: nat) {
    && Representable(l.current) && Height(l.current) + d < MAX_DEPTH
    && (l.field.Some? ==> NulFree(l.field.value))
  }

  predicate Sound(t: Tok) {
    && (forall i :: 0 <= i < |t.below| ==> Fits(t.below[i], i))
    && Fits(t.top, |t.below|)
    && (!Quiet(t) ==> Representable(t.obj) && Height(t.obj) + |t.below| + 1 < MAX_DEPTH)
  }

  lemma {:induction false} AddItemFits(l: Level, d: nat, v: Json)
    requires Fits(l, d) && l.current.Arr? && Representable(v) && Height(v) + d + 1 < MAX_DEPTH
    ensures Fits(l.(current := Arr(l.current.items + [v])), d)
  {
    ItemsHeightAppend(l.current.items, v);
  }

  lemma {:induction false} AddFieldFits(l: Level, d: nat, v: Json)
    requires Fits(l, d) && l.current.Obj? && l.field.Some? && Representable(v) && Height(v) + d + 1 < MAX_DEPTH
    ensures Fits(l.(current := Obj(AddMember(l.current.members, l.field.value, v)), field := None), d)
  {
    var ms, key := l.current.members, l.field.value;
    AddMemberDistinct(ms, key, v);
    WithoutHeight(ms, key);
    MembersHeightAppend(Without(ms, key), Member(key, v));
  }

  lemma {:induction false} LeafFits(v: Json, d: nat)
    requires Leaf(v) && d < MAX_DEPTH
    ensures Representable(v) && Height(v) + d < MAX_DEPTH
  {
  }

  lemma {:induction false} ApplySound(t: Tok, u: Tok, e: Effect)
    requires Inv(t) && Sound(t)
    requires ControlOnly(t, Result(Redo, u, e))
    requires e.AddItem? || e.AddField? ==> !Quiet(t)
    requires e.Pop? || Quiet(Apply(u, e))
    ensures Sound(Apply(u, e))
  {
    match e
    case Keep =>
    case Make(v) => LeafFits(v, |t.below|);
    case Push =>
    case Pop =>
    case AddItem =>
      if u.top.current.Arr? {
        AddItemFits(u.top, |u.below|, u.obj);
      }
    case AddField =>
      if u.top.current.Obj? && u.top.field.Some? {
        AddFieldFits(u.top, |u.below|, u.obj);
      }
  }

  /** Adding happens only in the two adding states, and leaves them. */
  lemma {:induction false} AddsOnlyThere(t: Tok, c: char)
    requires Inv(t)
    ensures var r := Dispatch(t, c);
      && (r.effect.AddItem? || r.effect.AddField? ==> !Quiet(t))
      && (!r.move.Out? ==> r.effect.Pop? || Quiet(Step(t, c)))
  {
    StepKeepsInv(t, c);
  }

  lemma {:induction false} StepSound(t: Tok, c: char)
    requires Inv(t) && Sound(t) && !Dispatch(t, c).move.Out?
    ensures Sound(Step(t, c))
  {
    DispatchControl(t, c);
    AddsOnlyThere(t, c);
    ApplySound(t, Dispatch(t, c).tok, Dispatch(t, c).effect);
  }

  lemma {:induction false} SettleSound(t: Tok, c: char)
    requires Inv(t) && Sound(t)
    ensures Settle(t, c).1.Advance? || Settle(t, c).1 == Out(Success) ==> Sound(Settle(t, c).0)
    decreases Rank(t)
  {
    StepKeepsInv(t, c);
    if !Dispatch(t, c).move.Out? {
      StepSound(t, c);
    }
    if Dispatch(t, c).move.Redo? {
      SettleSound(Step(t, c), c);
    }
  }

  lemma {:induction false} RunSound(t: Tok, text: string)
    requires Inv(t) && Sound(t)
    ensures var o := Run(t, text); o.err == Success || o.err == Continue ==> Sound(o.tok)
    decreases |text|
  {
    if text != "" {
      SettleSound(t, text[0]);
      if Settle(t, text[0]).1.Advance? && text[0] != NUL {
        RunSound(Settle(t, text[0]).0, text[1..]);
      }
    }
  }

  // ----- the texts of doubles

  predicate DoublesRead(r: Reading<Json>) {
    r.NotRead? || Doubles(r.value, DoubleText)
  }

  lemma NumberDoubles(p: string)
    requires p != "" && (IsDigit(p[0]) || p[0] == '-')
    ensures DoublesRead(ReadNumber(p))
  {
    var n := NumberLen(p);
    if n > 0 { assert p[..n][0] == p[0]; }
  }

  lemma {:induction false} ValueDoubles(s: string, d: nat)
    ensures DoublesRead(ReadValue(s, d))
    decreases |s|, 0
  {
    hide ReadItems, ReadMembers, ReadNumber, ReadText, Skip;
    if Skip(s).Upto? {
      var p := Skip(s).rest;
      if Front(p) == '[' {
        ItemsDoubles(p[1..], [], d);
      } else if Front(p) == '{' {
        MembersDoubles(p[1..], [], d);
      } else if IsDigit(Front(p)) || Front(p) == '-' {
        NumberDoubles(p);
      }
    }
  }

  lemma {:induction false} ItemsDoubles(s: string, items: seq<Json>, d: nat)
    requires forall x :: x in items ==> Doubles(x, DoubleText)
    ensures DoublesRead(ReadItems(s, items, d))
    decreases |s|, 1
  {
    hide ReadValue, MoreItems, Skip;
    if Skip(s).Upto? && d + 1 < MAX_DEPTH {
      var r := ReadValue(Skip(s).rest, d + 1);
      ValueDoubles(Skip(s).rest, d + 1);
      if r.Read? { MoreItemsDoubles(r.rest, items, r.value, d); }
    }
  }

  lemma {:induction false} MoreItemsDoubles(s: string, items: seq<Json>, v: Json, d: nat)
    requires Doubles(v, DoubleText) && forall x :: x in items ==> Doubles(x, DoubleText)
    ensures DoublesRead(MoreItems(s, items, v, d))
    decreases |s|, 0
  {
    hide ReadItems, Skip;
    if Skip(s).Upto? && Front(Skip(s).rest) == ',' { ItemsDoubles(Skip(s).rest[1..], items + [v], d); }
  }

  predicate MembersRead(ms: seq<Member>) {
    forall m :: m in ms ==> Doubles(m.value, DoubleText)
  }

  lemma {:induction false} MembersDoubles(s: string, ms: seq<Member>, d: nat)
    requires MembersRead(ms)
    ensures DoublesRead(ReadMembers(s, ms, d))
    decreases |s|, 1
  {
    hide ReadField, ReadKey, Skip;
    if Skip(s).Upto? && IsQuote(Front(Skip(s).rest)) {
      var key := ReadKey(Skip(s).rest);
      if key.Read? { FieldDoubles(key.rest, ms, key.value, d); }
    }
  }

  lemma {:induction false} FieldDoubles(s: string, ms: seq<Member>, key: string, d: nat)
    requires MembersRead(ms)
    ensures DoublesRead(ReadField(s, ms, key, d))
    decreases |s|, 2
  {
    hide ReadValue, MoreMembers, Skip;
    if Skip(s).Upto? && d + 1 < MAX_DEPTH {
      var r := ReadValue(Skip(s).rest, d + 1);
      ValueDoubles(Skip(s).rest, d + 1);
      if r.Read? { MoreMembersDoubles(r.rest, AddMember(ms, key, r.value), r.value, d); }
    }
  }

  lemma {:induction false} MoreMembersDoubles(s: string, ms: seq<Member>, v: Json, d: nat)
    requires MembersRead(ms) && Doubles(v, DoubleText)
    ensures DoublesRead(MoreMembers(s, ms, v, d))
    decreases |s|, 0
  {
    hide ReadMembers, Skip;
    if Skip(s).Upto? && Front(Skip(s).rest) == ',' { MembersDoubles(Skip(s).rest[1..], ms, d); }
  }

  /** The parser sees of a text what a C string is. */
  lemma {:induction false} UpToTheTerminator(t: Tok, text: string)
    requires Inv(t)
    ensures var o, o' := Run(t, text + [NUL]), Run(t, CString(text) + [NUL]); o.err == o'.err && o.tok == o'.tok
    decreases |text|
  {
    hide Settle, CheckEof;
    var s, s' := text + [NUL], CString(text) + [NUL];
    assert s[0] == s'[0];
    if text != "" && text[0] != NUL {
      assert s[1..] == text[1..] + [NUL] && s'[1..] == CString(text[1..]) + [NUL];
      if Settle(t, s[0]).1.Advance? { UpToTheTerminator(Settle(t, s[0]).0, text[1..]); }
    }
  }

  // ----- what every parsed value satisfies

  /**
   * Whatever text is parsed, a value that comes out can be held by the C structures and is written as the
   * tokener reads it: strings and keys hold no NUL, the keys of an object differ, every double has the text
   * of a double; and at most 31 levels nest.
   */
  lemma {:induction false} ParsedValues(text: string)
    requires Parse(text).err == Success
    ensures RoundTrip.Plain(Value(Parse(text))) && Height(Value(Parse(text))) < MAX_DEPTH
  {
    RunSound(NEW, text + [NUL]);
    UpToTheTerminator(NEW, text);
    var s := CString(text);
    assert Value(Parse(text)) == Value(Parse(s)) && Parse(s).err == Success;
    GrammarExact.LanguageExact(s);
    ValueDoubles(s, 0);
    hide Run, ReadValue, Skip, Representable, Doubles;
  }

  /** Printing a parsed value and parsing it again changes nothing, for every text. */
  lemma {:induction false} Reparse(text: string)
    requires Parse(text).err == Success
    ensures var v := Value(Parse(text)); Parse(Print(v)).err == Success && Value(Parse(Print(v))) == v
  {
    ParsedValues(text);
    RoundTrip.ParsePrint(Value(Parse(text)));
  }

  /** What the printer writes for a tree is read back as what was written, if and only if the tree nests at most
      31 levels and every double is written as the tokener reads one. */
  lemma WrittenExactly(v: Json, fmt: string -> string)
    requires Representable(v)
    ensures var w := Formatted(v, fmt); var o := Parse(Print(w));
      o.err == Success && Value(o) == w <==> Height(v) < MAX_DEPTH && Doubles(w, DoubleText)
  {
    var w := Formatted(v, fmt);
    FormattedFits(v, fmt);
    if Height(v) < MAX_DEPTH && Doubles(w, DoubleText) { RoundTrip.ParsePrint(w); }
    if Parse(Print(w)).err == Success && Value(Parse(Print(w))) == w { ParsedValues(Print(w)); }
  }

  /** A number too large for a double is written as `inf`, and that is refused. */
  lemma InfinityLost(fmt: string -> string)
    requires fmt("1e999") == "inf"
    ensures Parse("1e999").err == Success && Value(Parse("1e999")) == Double("1e999")
    ensures Parse(Print(Formatted(Double("1e999"), fmt))).err != Success
  {
    assert Print(Formatted(Double("1e999"), fmt)) == "inf";
    assert Print(Double("1e999")) == "1e999";
    hide Parse, ReadValue, Print, Formatted, DoubleText;
    InfRefused();
    OverflowText();
    RoundTrip.ParsePrint(Double("1e999"));
  }

  lemma InfRefused()
    ensures Parse("inf").err != Success
  {
    assert Skip("inf") == Upto("inf");
    GrammarExact.LanguageExact("inf");
    hide Parse, Skip, ReadNumber, ReadText, ReadItems, ReadMembers;
  }

  lemma OverflowText()
    ensures DoubleText("1e999")
  {
    var s := "1e999";
    assert DigitRun("e999") == 0 && DigitRun(s) == 1 && s[1..] == "e999" && "e999"[1..] == "999";
    assert DigitRun("999") > 0;
    assert s[1] == 'e';
  }
}
