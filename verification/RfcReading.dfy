/** Which texts of RFC 4627 the reader reads as what they stand for. */
module RfcReading {
  import opened CTypes
  import opened JsonValue
  import opened Decimal
  import opened Tokener
  import opened JsonGrammar
  import opened RfcStrings
  import opened RfcNumbers
  import GrammarExact
  import R = Rfc3629
  import S = Rfc4627

  // ----- values

  predicate StringKept(ls: seq<S.Letter>) {
    AllKnown(ls) && Kept(ls)
  }

  predicate DistinctNames(pairs: seq<S.Pair>) {
    forall i, j :: 0 <= i < j < |pairs| ==> S.Bytes(pairs[i].name) != S.Bytes(pairs[j].name)
  }

  /** Which trees are read as what they stand for, `d` levels down. */
  predicate Taken(t: S.Tree, d: nat)
    decreases t
  {
    match t
    case Word(_) => true
    case Number(_, _, _, _, _) => NumberKept(t)
    case Quoted(ls) => StringKept(ls)
    case Array(_, items) => items != [] ==> d < 31 && forall x :: x in items ==> Taken(x.value, d + 1)
    case Object(_, pairs) =>
      pairs != [] ==>
        d < 31 && DistinctNames(pairs) && forall p :: p in pairs ==> StringKept(p.name) && Taken(p.item.value, d + 1)
  }

  /** The reading ends behind the tree, with what the tree stands for exactly when it is one of those. */
  predicate Exact(r: Reading<Json>, t: S.Tree, rest: string, d: nat) {
    match r
    case Read(v, more) => more == rest && (S.Denotes(t, v) <==> Taken(t, d))
    case NotRead(_) => !Taken(t, d)
    case Cut(_) => false
  }

  /** The first character decides what is read. */
  lemma ByFront(p: string, d: nat)
    requires Solid(p)
    ensures var c := Front(p);
      && (c == '[' ==> ReadValue(p, d) == ReadItems(p[1..], [], d))
      && (c == '{' ==> ReadValue(p, d) == ReadMembers(p[1..], [], d))
      && (IsDigit(c) || c == '-' ==> ReadValue(p, d) == ReadNumber(p))
      && (c == 'n' ==> ReadValue(p, d) == ReadWord(p, "null", Null))
      && (c == 't' ==> ReadValue(p, d) == ReadWord(p, "true", Bool(true)))
      && (c == 'f' ==> ReadValue(p, d) == ReadWord(p, "false", Bool(false)))
  {
    GrammarExact.SkipSolid(p);
    hide Skip, ReadItems, ReadMembers, ReadText, ReadWord, ReadNumber;
  }

  lemma QuoteInFront(p: string, d: nat)
    requires Front(p) == '"'
    ensures ReadValue(p, d) == match ReadText(p[1..], '"')
      case Read(buf, rest) => Read(Str(CString(buf)), rest)
      case NotRead(err) => NotRead(err)
  {
    GrammarExact.SkipSolid(p);
    hide Skip, ReadItems, ReadMembers, ReadText, ReadWord, ReadNumber;
  }

  lemma WordExact(t: S.Tree, rest: string, d: nat)
    requires t.Word? && S.WellFormed(t)
    ensures Exact(ReadValue(S.Text(t) + rest, d), t, rest, d)
  {
    var p := t.word + rest;
    assert p[0] == t.word[0] && p[|t.word|..] == rest;
    assert forall i :: 0 <= i < |t.word| ==> p[i] == t.word[i];
    assert Spelled(p, t.word);
    ByFront(p, d);
    hide ReadValue, Spelled;
  }

  lemma NumberExact(t: S.Tree, rest: string, d: nat)
    requires t.Number? && S.WellFormed(t) && Delimited(rest)
    ensures Exact(ReadValue(S.Text(t) + rest, d), t, rest, d)
  {
    hide ReadValue, Numeric, S.Text, S.WellFormed, NumberKept, S.Digits, Sign, AfterWhole;
    var text, p := S.Text(t), S.Text(t) + rest;
    NumberPieces(t);
    NumberParts(t);
    NumberMark(t);
    NumberLenIs(text, rest);
    assert p[..|text|] == text && p[|text|..] == rest;
    NumberFront(t.minus, t.whole, AfterWhole(t));
    assert p[0] == text[0];
    ByFront(p, d);
    NumericIs(t);
  }

  lemma NumberFront(minus: bool, whole: string, behind: string)
    requires S.Digits(whole) && whole != ""
    ensures var s := Sign(minus) + (whole + behind); s != "" && (s[0] == '-' || IsDigit(s[0]))
  {
  }

  lemma NumericIs(t: S.Tree)
    requires t.Number? && S.WellFormed(t)
    ensures var r := Numeric(S.Text(t), DoubleMark(S.Text(t)));
      r.Some? && (S.Denotes(t, r.value) <==> NumberKept(t))
  {
    NumberPieces(t);
    NumberParts(t);
    NumberMark(t);
    MarkFirst(t);
    hide S.WellFormed, S.Text, DoubleMark;
    if t.fraction != "" || Front(t.mark) == 'e' {
      DoubleScan(t);
    } else {
      assert AfterWhole(t) == t.mark + t.exponent;
      IntegerScan(t.minus, t.whole, AfterWhole(t));
      var n := if t.minus then -S.Magnitude(t.whole) else S.Magnitude(t.whole);
      TruncateExactly(n);
      hide ScanInt, Truncate;
    }
  }

  lemma QuotedExact(t: S.Tree, rest: string, d: nat)
    requires t.Quoted? && S.WellFormed(t)
    ensures Exact(ReadValue(S.Text(t) + rest, d), t, rest, d)
  {
    var p := S.Text(t) + rest;
    assert p == "\"" + (S.Spell(t.letters) + ("\"" + rest));
    assert p[0] == '"' && p[1..] == S.Spell(t.letters) + ("\"" + rest);
    LettersRead(t.letters, rest);
    KeptExactly(t.letters);
    QuoteInFront(p, d);
    hide ReadValue, ReadText, S.Spell, S.Bytes, Singly, AllKnown, Kept, S.AreLetters, CString;
  }

  // ----- arrays

  /** What can stand behind a value in an array or object. */
  lemma BlankDelimits(w: string, p: string)
    requires S.Blank(w) && Front(p) in {',', ']', '}'}
    ensures Delimited(w + p) && Skip(w + p) == Upto(p)
  {
    SkipBlank(w, p);
    assert w == "" ==> w + p == p;
    assert w != "" ==> w[0] in w && w[0] in " \t\n\r" && (w + p)[0] == w[0];
    hide Skip;
  }

  lemma SolidText(t: S.Tree, rest: string)
    requires S.WellFormed(t)
    ensures Solid(S.Text(t) + rest) && Front(S.Text(t) + rest) !in {']', '}'}
  {
    var p := S.Text(t) + rest;
    assert S.Text(t) != "" && p[0] == S.Text(t)[0] by {
      if t.Number? {
        NumberPieces(t);
        NumberParts(t);
        hide S.Text;
      }
    }
    if t.Number? {
      NumberPieces(t);
      NumberParts(t);
      hide S.Text;
    }
  }

  /** One item, from the bracket or comma in front of it. */
  lemma ItemSteps(x: S.Item, p: string, done: seq<Json>, d: nat)
    requires S.WellFormedItem(x) && d < 31
    ensures var q := S.Text(x.value) + (x.after + p);
      var r := ReadValue(q, d + 1);
      ReadItems(S.ItemText(x) + p, done, d) == if r.Read? then MoreItems(r.rest, done, r.value, d) else r
  {
    hide Skip, ReadValue, S.Text, MoreItems;
    var q := S.Text(x.value) + (x.after + p);
    assert S.ItemText(x) + p == x.before + q;
    SolidText(x.value, x.after + p);
    SkipBlank(x.before, q);
  }

  lemma ItemsEnd(w: string, p: string, done: seq<Json>, v: Json, d: nat)
    requires S.Blank(w) && Front(p) in {',', ']'}
    ensures MoreItems(w + p, done, v, d) ==
      if p[0] == ']' then Read(Arr(done + [v]), p[1..]) else ReadItems(p[1..], done + [v], d)
  {
    SkipBlank(w, p);
    hide Skip, ReadItems;
  }

  /** The items behind `done` are read in order, each as what it stands for or not. */
  predicate ItemsExact(r: Reading<Json>, xs: seq<S.Item>, done: seq<Json>, rest: string, d: nat) {
    if r.Read? then
      && r.rest == rest && r.value.Arr? && |r.value.items| == |done| + |xs| && r.value.items[..|done|] == done
      && (AllDenote(xs, r.value.items[|done|..]) <==> AllTaken(xs, d))
    else r.NotRead? && !AllTaken(xs, d)
  }

  predicate AllDenote(xs: seq<S.Item>, items: seq<Json>) {
    |xs| == |items| && forall i :: 0 <= i < |xs| ==> S.Denotes(xs[i].value, items[i])
  }

  predicate AllTaken(xs: seq<S.Item>, d: nat) {
    forall x :: x in xs ==> Taken(x.value, d + 1)
  }

  /** One item, from the bracket or comma in front of it to the one behind it. */
  lemma {:induction false} ItemRead(x: S.Item, p: string, done: seq<Json>, d: nat) returns (taken: bool, v: Json)
    requires S.WellFormedItem(x) && Front(p) in {',', ']'} && d < 31
    ensures var r := ReadItems(S.ItemText(x) + p, done, d);
      if !taken then r.NotRead? && !Taken(x.value, d + 1)
      else
        && (S.Denotes(x.value, v) <==> Taken(x.value, d + 1))
        && r == if p[0] == ']' then Read(Arr(done + [v]), p[1..]) else ReadItems(p[1..], done + [v], d)
    decreases x, 0
  {
    hide ReadItems, MoreItems, ReadValue, Taken, S.Denotes, S.Text, S.WellFormed, S.ItemText, Skip;
    ItemSteps(x, p, done, d);
    BlankDelimits(x.after, p);
    TreeRead(x.value, x.after + p, d + 1);
    var r := ReadValue(S.Text(x.value) + (x.after + p), d + 1);
    taken, v := r.Read?, Null;
    if taken {
      v := r.value;
      ItemsEnd(x.after, p, done, v, d);
    }
  }

  lemma {:induction false} ItemsRead(xs: seq<S.Item>, done: seq<Json>, rest: string, d: nat)
    requires xs != [] && (forall x :: x in xs ==> S.WellFormedItem(x)) && d < 31
    ensures ItemsExact(ReadItems(S.ItemsText(xs) + ("]" + rest), done, d), xs, done, rest, d)
    decreases xs, 0
  {
    hide ReadItems, Taken, S.Denotes, S.ItemText, S.WellFormedItem;
    var x := xs[0];
    var p := if |xs| == 1 then "]" + rest else "," + (S.ItemsText(xs[1..]) + ("]" + rest));
    assert S.ItemsText(xs) + ("]" + rest) == S.ItemText(x) + p;
    var taken, v := ItemRead(x, p, done, d);
    if !taken {
      assert xs[0] in xs;
    } else if |xs| == 1 {
      assert p[1..] == rest;
      LastItem(x, done, v, rest, d);
      assert xs == [x];
    } else {
      assert p[1..] == S.ItemsText(xs[1..]) + ("]" + rest);
      ItemsRead(xs[1..], done + [v], rest, d);
      var r := ReadItems(p[1..], done + [v], d);
      hide S.ItemsText;
      if S.Denotes(x.value, v) <==> Taken(x.value, d + 1) { OneMoreItem(r, xs, done, v, rest, d); }
      assert xs == [x] + xs[1..];
    }
  }

  lemma LastItem(x: S.Item, done: seq<Json>, v: Json, rest: string, d: nat)
    ensures ItemsExact(Read(Arr(done + [v]), rest), [x], done, rest, d) <==>
      (S.Denotes(x.value, v) <==> Taken(x.value, d + 1))
  {
    hide S.Denotes, Taken;
    assert (done + [v])[|done|..] == [v] && (done + [v])[..|done|] == done && [x][0] == x;
    assert AllDenote([x], [v]) <==> S.Denotes(x.value, v) by { assert [v][0] == v; }
  }

  lemma OneMoreItem(r: Reading<Json>, xs: seq<S.Item>, done: seq<Json>, v: Json, rest: string, d: nat)
    requires xs != [] && ItemsExact(r, xs[1..], done + [v], rest, d)
    requires S.Denotes(xs[0].value, v) <==> Taken(xs[0].value, d + 1)
    ensures ItemsExact(r, xs, done, rest, d)
  {
    hide Taken, S.Denotes;
    assert xs == [xs[0]] + xs[1..];
    if r.Read? {
      var items := r.value.items;
      assert items[|done|] == items[..|done| + 1][|done|] == v;
      assert items[..|done|] == items[..|done| + 1][..|done|];
      assert items[|done|..] == [v] + items[|done| + 1..];
      assert |done + [v]| == |done| + 1;
      DenoteFirst(xs, v, items[|done| + 1..]);
    }
  }

  lemma DenoteFirst(xs: seq<S.Item>, v: Json, items: seq<Json>)
    requires xs != []
    ensures AllDenote(xs, [v] + items) <==> S.Denotes(xs[0].value, v) && AllDenote(xs[1..], items)
  {
    hide S.Denotes;
    var all := [v] + items;
    assert forall i :: 0 <= i < |items| ==> all[i + 1] == items[i];
    assert forall i :: 0 < i < |xs| ==> xs[i] == xs[1..][i - 1];
    if AllDenote(xs[1..], items) && S.Denotes(xs[0].value, v) {
      forall i | 0 <= i < |xs| ensures S.Denotes(xs[i].value, all[i]) {
        if i > 0 { assert S.Denotes(xs[1..][i - 1].value, items[i - 1]); }
      }
    }
    if AllDenote(xs, all) {
      forall i | 0 <= i < |items| ensures S.Denotes(xs[1..][i].value, items[i]) {
        assert S.Denotes(xs[i + 1].value, all[i + 1]);
      }
    }
  }

  // ----- objects

  /** Adding members one after the other. */
  function AddEach(done: seq<Member>, ms: seq<Member>): seq<Member>
    decreases |ms|
  {
    if ms == [] then done else AddEach(AddMember(done, ms[0].key, ms[0].value), ms[1..])
  }

  lemma {:induction false} WithoutShorter(ms: seq<Member>, key: string)
    ensures |Without(ms, key)| <= |ms|
    ensures |Without(ms, key)| == |ms| ==> forall m :: m in ms ==> m.key != key
  {
    if ms != [] { WithoutShorter(ms[1..], key); }
  }

  /** Nothing is replaced exactly when all keys differ. */
  lemma {:induction false} AddEachExactly(done: seq<Member>, ms: seq<Member>)
    requires DistinctKeys(done)
    ensures |AddEach(done, ms)| <= |done| + |ms|
    ensures |AddEach(done, ms)| == |done| + |ms| <==> DistinctKeys(done + ms)
    ensures DistinctKeys(done + ms) ==> AddEach(done, ms) == done + ms
    decreases |ms|
  {
    hide Without;
    if ms == [] {
      assert done + ms == done;
    } else {
      var m := ms[0];
      var next := AddMember(done, m.key, m.value);
      AddMemberDistinct(done, m.key, m.value);
      AddEachExactly(next, ms[1..]);
      WithoutShorter(done, m.key);
      if forall n :: n in done ==> n.key != m.key {
        WithoutAbsent(done, m.key);
        assert next + ms[1..] == done + ms;
      } else {
        var i :| 0 <= i < |done| && done[i].key == m.key;
        assert (done + ms)[i] == done[i] && (done + ms)[|done|] == m;
      }
    }
  }

  /** What has been read for a pair: its key and its value are what they stand for exactly when they are kept. */
  predicate PairRead(m: Member, p: S.Pair, d: nat) {
    && (m.key == S.Bytes(p.name) <==> StringKept(p.name))
    && (S.Denotes(p.item.value, m.value) <==> Taken(p.item.value, d + 1))
  }

  predicate PairsRead(ms: seq<Member>, ps: seq<S.Pair>, d: nat) {
    |ms| == |ps| && forall i :: 0 <= i < |ps| ==> PairRead(ms[i], ps[i], d)
  }

  predicate PairTaken(p: S.Pair, d: nat) {
    StringKept(p.name) && Taken(p.item.value, d + 1)
  }

  predicate PairsDenote(ps: seq<S.Pair>, ms: seq<Member>) {
    && |ms| == |ps|
    && forall i :: 0 <= i < |ps| ==> ms[i].key == S.Bytes(ps[i].name) && S.Denotes(ps[i].item.value, ms[i].value)
  }

  lemma DenotesPairs(blank: string, ps: seq<S.Pair>, ms: seq<Member>)
    ensures S.Denotes(S.Object(blank, ps), Obj(ms)) <==> PairsDenote(ps, ms)
  {
    hide S.Bytes;
  }

  lemma TakenPairs(blank: string, ps: seq<S.Pair>, d: nat)
    requires ps != []
    ensures Taken(S.Object(blank, ps), d) <==>
      d < 31 && DistinctNames(ps) && forall i :: 0 <= i < |ps| ==> PairTaken(ps[i], d)
  {
    hide DistinctNames, StringKept;
    if Taken(S.Object(blank, ps), d) {
      forall i | 0 <= i < |ps| ensures PairTaken(ps[i], d) { assert ps[i] in ps; }
    }
  }

  lemma PairsExact(ms: seq<Member>, blank: string, ps: seq<S.Pair>, d: nat)
    requires PairsRead(ms, ps, d) && ps != [] && d < 31
    ensures S.Denotes(S.Object(blank, ps), Obj(AddEach([], ms))) <==> Taken(S.Object(blank, ps), d)
  {
    hide S.Denotes, Taken, StringKept, S.Bytes, AddEach;
    DenotesPairs(blank, ps, AddEach([], ms));
    TakenPairs(blank, ps, d);
    AddEachExactly([], ms);
    assert [] + ms == ms;
    if PairsDenote(ps, AddEach([], ms)) {
      assert |AddEach([], ms)| == |ms|;
      NamesAreKeys(ms, ps, d);
    }
    if DistinctNames(ps) && forall i :: 0 <= i < |ps| ==> PairTaken(ps[i], d) {
      KeysAreNames(ms, ps, d);
    }
  }

  lemma NamesAreKeys(ms: seq<Member>, ps: seq<S.Pair>, d: nat)
    requires PairsRead(ms, ps, d) && DistinctKeys(ms) && PairsDenote(ps, ms)
    ensures DistinctNames(ps) && forall i :: 0 <= i < |ps| ==> PairTaken(ps[i], d)
  {
    hide StringKept, S.Bytes, S.Denotes, Taken;
    forall i | 0 <= i < |ps| ensures PairTaken(ps[i], d) {
      assert PairRead(ms[i], ps[i], d);
    }
  }

  lemma KeysAreNames(ms: seq<Member>, ps: seq<S.Pair>, d: nat)
    requires PairsRead(ms, ps, d) && DistinctNames(ps) && forall i :: 0 <= i < |ps| ==> PairTaken(ps[i], d)
    ensures DistinctKeys(ms) && PairsDenote(ps, ms)
  {
    hide StringKept, S.Bytes, S.Denotes, Taken;
    forall i | 0 <= i < |ps| ensures ms[i].key == S.Bytes(ps[i].name) && S.Denotes(ps[i].item.value, ms[i].value) {
      assert PairTaken(ps[i], d) && PairRead(ms[i], ps[i], d);
    }
  }

  /** A key from its quote to behind its colon. */
  lemma KeyRead(p: S.Pair, behind: string)
    requires S.WellFormedPair(p)
    ensures var r := ReadKey(S.Quote(p.name) + (p.space + (":" + behind)));
      if AllKnown(p.name) then r == Read(CString(Singly(p.name)), behind) else r.NotRead?
  {
    hide Skip, ReadText, S.Spell, AllKnown, Singly, CString, S.AreLetters, S.WellFormedItem;
    var rest := p.space + (":" + behind);
    var s := S.Quote(p.name) + rest;
    assert s == "\"" + (S.Spell(p.name) + ("\"" + rest));
    assert s[0] == '"' && s[1..] == S.Spell(p.name) + ("\"" + rest);
    hide S.Quote;
    LettersRead(p.name, rest);
    assert (":" + behind)[1..] == behind;
    SkipBlank(p.space, ":" + behind);
  }

  lemma QuoteFront(ls: seq<S.Letter>)
    ensures S.Quote(ls) != "" && S.Quote(ls)[0] == '"'
  {
  }

  /** One pair, from the bracket or comma in front of it. */
  lemma PairSteps(p: S.Pair, after: string, done: seq<Member>, d: nat)
    requires S.WellFormedPair(p) && d < 31
    ensures var q := S.Text(p.item.value) + (p.item.after + after);
      var r, key := ReadValue(q, d + 1), CString(Singly(p.name));
      var next := if r.Read? then MoreMembers(r.rest, AddMember(done, key, r.value), r.value, d) else r;
      var all := ReadMembers(S.PairText(p) + after, done, d);
      if AllKnown(p.name) then all == next else all.NotRead?
  {
    hide Skip, ReadValue, ReadKey, ReadField, MoreMembers, S.Text, S.Quote, S.ItemText, AllKnown, CString, Singly;
    hide AddMember, S.WellFormedItem, S.AreLetters;
    QuoteFront(p.name);
    var behind := S.ItemText(p.item) + after;
    var s := S.Quote(p.name) + (p.space + (":" + behind));
    assert S.PairText(p) + after == p.before + s;
    assert Front(s) == '"';
    SkipBlank(p.before, s);
    KeyRead(p, behind);
    if AllKnown(p.name) { FieldSteps(p.item, after, done, CString(Singly(p.name)), d); }
  }

  lemma FieldSteps(x: S.Item, after: string, done: seq<Member>, key: string, d: nat)
    requires S.WellFormedItem(x) && d < 31
    ensures var r := ReadValue(S.Text(x.value) + (x.after + after), d + 1);
      ReadField(S.ItemText(x) + after, done, key, d) ==
        if r.Read? then MoreMembers(r.rest, AddMember(done, key, r.value), r.value, d) else r
  {
    hide Skip, ReadValue, S.Text, MoreMembers, AddMember;
    var q := S.Text(x.value) + (x.after + after);
    assert S.ItemText(x) + after == x.before + q;
    SolidText(x.value, x.after + after);
    SkipBlank(x.before, q);
  }

  lemma MembersEnd(w: string, p: string, done: seq<Member>, v: Json, d: nat)
    requires S.Blank(w) && Front(p) in {',', '}'}
    ensures MoreMembers(w + p, done, v, d) ==
      if p[0] == '}' then Read(Obj(done), p[1..]) else ReadMembers(p[1..], done, d)
  {
    SkipBlank(w, p);
    hide Skip, ReadMembers;
  }

  /** One pair, from the bracket or comma in front of it to the one behind it. */
  lemma {:induction false} OnePairRead(p: S.Pair, after: string, done: seq<Member>, d: nat)
      returns (taken: bool, m: Member)
    requires S.WellFormedPair(p) && Front(after) in {',', '}'} && d < 31
    ensures var r := ReadMembers(S.PairText(p) + after, done, d);
      if !taken then r.NotRead? && !PairTaken(p, d)
      else
        && PairRead(m, p, d)
        && var next := AddMember(done, m.key, m.value);
          r == if after[0] == '}' then Read(Obj(next), after[1..]) else ReadMembers(after[1..], next, d)
    decreases p, 0
  {
    hide ReadMembers, MoreMembers, ReadValue, Taken, S.Denotes, S.Text, S.WellFormed, S.PairText, S.Bytes, Skip;
    hide CString, Singly, AllKnown, Kept, AddMember, S.AreLetters;
    PairSteps(p, after, done, d);
    BlankDelimits(p.item.after, after);
    TreeRead(p.item.value, p.item.after + after, d + 1);
    KeptExactly(p.name);
    var r := ReadValue(S.Text(p.item.value) + (p.item.after + after), d + 1);
    m := Member(CString(Singly(p.name)), if r.Read? then r.value else Null);
    taken := AllKnown(p.name) && r.Read?;
    if taken { MembersEnd(p.item.after, after, AddMember(done, m.key, m.value), r.value, d); }
  }

  lemma {:induction false} MembersRead(ps: seq<S.Pair>, done: seq<Member>, rest: string, d: nat)
      returns (ms: seq<Member>)
    requires ps != [] && (forall p :: p in ps ==> S.WellFormedPair(p)) && d < 31
    ensures var r := ReadMembers(S.PairsText(ps) + ("}" + rest), done, d);
      if r.Read? then r.rest == rest && r.value == Obj(AddEach(done, ms)) && PairsRead(ms, ps, d)
      else r.NotRead? && exists i :: 0 <= i < |ps| && !PairTaken(ps[i], d)
    decreases ps, 0
  {
    hide ReadMembers, PairRead, PairTaken, S.PairText, S.WellFormedPair, AddMember;
    ms := [];
    var p := ps[0];
    var after := if |ps| == 1 then "}" + rest else "," + (S.PairsText(ps[1..]) + ("}" + rest));
    assert S.PairsText(ps) + ("}" + rest) == S.PairText(p) + after;
    var taken, m := OnePairRead(p, after, done, d);
    var next := AddMember(done, m.key, m.value);
    if !taken {
      assert !PairTaken(ps[0], d);
    } else if |ps| == 1 {
      ms := [m];
      assert after[1..] == rest && ms[1..] == [];
    } else {
      assert after[1..] == S.PairsText(ps[1..]) + ("}" + rest);
      var more := MembersRead(ps[1..], next, rest, d);
      ms := [m] + more;
      assert ms[1..] == more && ps == [p] + ps[1..];
      if i :| 0 <= i < |ps[1..]| && !PairTaken(ps[1..][i], d) { assert ps[1..][i] == ps[i + 1]; }
    }
  }

  // ----- every tree

  lemma EmptyArray(blank: string, rest: string, d: nat)
    requires S.Blank(blank)
    ensures ReadItems(blank + ("]" + rest), [], d) == Read(Arr([]), rest)
  {
    SkipBlank(blank, "]" + rest);
    assert ("]" + rest)[1..] == rest;
    hide Skip, ReadValue;
  }

  lemma EmptyArrayEnd(done: seq<Json>)
    ensures ReadItems("]", done, 0) == Read(Arr(done), "")
  {
    GrammarExact.SkipSolid("]");
    assert "]"[1..] == "";
    hide Skip, ReadValue;
  }

  lemma EmptyObject(blank: string, rest: string, d: nat)
    requires S.Blank(blank)
    ensures ReadMembers(blank + ("}" + rest), [], d) == Read(Obj([]), rest)
  {
    SkipBlank(blank, "}" + rest);
    assert ("}" + rest)[1..] == rest;
    hide Skip, ReadKey;
  }

  lemma DeepArray(xs: seq<S.Item>, rest: string, d: nat)
    requires xs != [] && S.WellFormedItem(xs[0]) && d >= 31
    ensures ReadItems(S.ItemsText(xs) + ("]" + rest), [], d).NotRead?
  {
    hide Skip, ReadValue, S.Text;
    var x, more := xs[0], if |xs| == 1 then "]" + rest else "," + S.ItemsText(xs[1..]) + ("]" + rest);
    var q := S.Text(x.value) + (x.after + more);
    assert S.ItemsText(xs) + ("]" + rest) == x.before + q;
    SolidText(x.value, x.after + more);
    SkipBlank(x.before, q);
  }

  lemma DeepObject(ps: seq<S.Pair>, rest: string, d: nat)
    requires ps != [] && S.WellFormedPair(ps[0]) && d >= 31
    ensures ReadMembers(S.PairsText(ps) + ("}" + rest), [], d).NotRead?
  {
    hide Skip, ReadKey, ReadField, CString, Singly, AllKnown, S.Quote, S.ItemText, S.WellFormedItem, S.AreLetters;
    QuoteFront(ps[0].name);
    var p, more := ps[0], if |ps| == 1 then "}" + rest else "," + S.PairsText(ps[1..]) + ("}" + rest);
    var behind := S.ItemText(p.item) + more;
    var s := S.Quote(p.name) + (p.space + (":" + behind));
    assert S.PairsText(ps) + ("}" + rest) == p.before + s;
    assert Front(s) == '"';
    SkipBlank(p.before, s);
    KeyRead(p, behind);
    DeepField(p.item, more, CString(Singly(p.name)), d);
  }

  lemma DeepField(x: S.Item, more: string, key: string, d: nat)
    requires S.WellFormedItem(x) && d >= 31
    ensures ReadField(S.ItemText(x) + more, [], key, d).NotRead?
  {
    hide Skip, ReadValue, S.Text;
    var q := S.Text(x.value) + (x.after + more);
    assert S.ItemText(x) + more == x.before + q;
    SolidText(x.value, x.after + more);
    SkipBlank(x.before, q);
  }

  lemma {:induction false} ArrayRead(t: S.Tree, rest: string, d: nat)
    requires t.Array? && S.WellFormed(t)
    ensures Exact(ReadValue(S.Text(t) + rest, d), t, rest, d)
    decreases t, 0
  {
    var inner := (if t.items == [] then t.blank else S.ItemsText(t.items)) + ("]" + rest);
    var p := S.Text(t) + rest;
    assert p == "[" + inner && p[0] == '[' && p[1..] == inner by { hide S.ItemsText; }
    ByFront(p, d);
    hide ReadValue, ReadItems, S.Text, S.Denotes, Taken;
    ArrayMeans(t.blank, t.items, d);
    if t.items == [] {
      EmptyArray(t.blank, rest, d);
    } else if d < 31 {
      ItemsRead(t.items, [], rest, d);
      var r := ReadItems(inner, [], d);
      if r.Read? { assert r.value.items[0..] == r.value.items; }
    } else {
      DeepArray(t.items, rest, d);
    }
  }

  lemma ArrayMeans(blank: string, xs: seq<S.Item>, d: nat)
    ensures forall items :: S.Denotes(S.Array(blank, xs), Arr(items)) <==> AllDenote(xs, items)
    ensures Taken(S.Array(blank, xs), d) <==> (xs != [] ==> d < 31 && AllTaken(xs, d))
  {
  }

  lemma {:induction false} ObjectRead(t: S.Tree, rest: string, d: nat)
    requires t.Object? && S.WellFormed(t)
    ensures Exact(ReadValue(S.Text(t) + rest, d), t, rest, d)
    decreases t, 0
  {
    var inner := (if t.pairs == [] then t.blank else S.PairsText(t.pairs)) + ("}" + rest);
    var p := S.Text(t) + rest;
    assert p == "{" + inner && p[0] == '{' && p[1..] == inner by { hide S.PairsText; }
    ByFront(p, d);
    hide ReadValue, ReadMembers, S.Text, S.PairsText;
    if t.pairs == [] {
      EmptyObject(t.blank, rest, d);
    } else if d < 31 {
      var ms := MembersRead(t.pairs, [], rest, d);
      TakenPairs(t.blank, t.pairs, d);
      if ReadMembers(inner, [], d).Read? { PairsExact(ms, t.blank, t.pairs, d); }
      hide Taken, S.Denotes, PairTaken, PairsRead, AddEach;
    } else {
      DeepObject(t.pairs, rest, d);
    }
  }

  lemma {:induction false} TreeRead(t: S.Tree, rest: string, d: nat)
    requires S.WellFormed(t) && Delimited(rest)
    ensures Exact(ReadValue(S.Text(t) + rest, d), t, rest, d)
    decreases t, 1
  {
    hide ReadValue, S.Text, Exact, S.WellFormed;
    match t
    case Word(_) => WordExact(t, rest, d);
    case Number(_, _, _, _, _) => NumberExact(t, rest, d);
    case Quoted(_) => QuotedExact(t, rest, d);
    case Array(_, _) => ArrayRead(t, rest, d);
    case Object(_, _) => ObjectRead(t, rest, d);
  }

  // ----- whole texts

  lemma {:induction false} TextNulFree(t: S.Tree)
    requires S.WellFormed(t)
    ensures NulFree(S.Text(t))
    decreases t, 1
  {
    match t
    case Word(_) =>
    case Number(_, _, _, _, _) =>
      NumberMark(t);
      hide S.Text;
    case Quoted(ls) => SpellNulFree(ls);
    case Array(_, items) => if items != [] { ItemsNulFree(items); }
    case Object(_, pairs) => if pairs != [] { PairsNulFree(pairs); }
  }

  lemma {:induction false} SpellNulFree(ls: seq<S.Letter>)
    requires S.AreLetters(ls)
    ensures NulFree(S.Spell(ls))
  {
    if ls != [] {
      assert ls == [ls[0]] + ls[1..];
      SpellNulFree(ls[1..]);
      assert S.IsLetter(ls[0]);
      assert NulFree(S.SpellLetter(ls[0]));
    }
  }

  lemma {:induction false} ItemsNulFree(xs: seq<S.Item>)
    requires xs != [] && forall x :: x in xs ==> S.WellFormedItem(x)
    ensures NulFree(S.ItemsText(xs))
    decreases xs, 0
  {
    hide S.Text, S.WellFormed;
    ItemNulFree(xs[0]);
    if |xs| > 1 { ItemsNulFree(xs[1..]); }
  }

  lemma {:induction false} ItemNulFree(x: S.Item)
    requires S.WellFormedItem(x)
    ensures NulFree(S.ItemText(x))
    decreases x, 0
  {
    TextNulFree(x.value);
    hide S.Text, S.WellFormed;
  }

  lemma {:induction false} PairsNulFree(ps: seq<S.Pair>)
    requires ps != [] && forall p :: p in ps ==> S.WellFormedPair(p)
    ensures NulFree(S.PairsText(ps))
    decreases ps, 0
  {
    hide S.PairText, S.WellFormedPair;
    PairNulFree(ps[0]);
    if |ps| > 1 { PairsNulFree(ps[1..]); }
  }

  lemma {:induction false} PairNulFree(p: S.Pair)
    requires S.WellFormedPair(p)
    ensures NulFree(S.PairText(p))
    decreases p, 0
  {
    SpellNulFree(p.name);
    ItemNulFree(p.item);
    hide S.ItemText, S.WellFormedItem, S.Spell, S.AreLetters;
  }

  /** For every value of the standard between any white space: the reader takes the text and gives what it stands
      for if and only if the tree is one of those above, so that `\f`, upper-case digits and `\u0000`, two units for
      one code, integers that do not fit, an upper-case mark without a fraction, equal names and more than 31 levels
      are all that goes wrong. */
  lemma TextsExactly(before: string, t: S.Tree, after: string)
    requires S.WellFormed(t) && S.Blank(before) && S.Blank(after)
    ensures var o := Parse(before + (S.Text(t) + after));
      (o.err == Success && S.Denotes(t, Value(o))) <==> Taken(t, 0)
  {
    hide Parse, ReadValue, S.Text, S.WellFormed, S.Denotes, Taken;
    var text := before + (S.Text(t) + after);
    TextNulFree(t);
    assert NulFree(text);
    SolidText(t, after);
    SkipBlank(before, S.Text(t) + after);
    SkipBlank(after, "");
    assert after + "" == after && Delimited(after);
    TreeRead(t, after, 0);
    GrammarExact.SkipTwice(text);
    GrammarExact.LanguageExact(text);
  }

  // ----- escapes

  /** A string of letters that the reader knows is read as their bytes, up to the first NUL. */
  lemma KnownRead(ls: seq<S.Letter>)
    requires S.AreLetters(ls) && AllKnown(ls)
    ensures var o := Parse(S.Quote(ls)); o.err == Success && Value(o) == Str(CString(Singly(ls)))
  {
    var text := S.Quote(ls);
    SpellNulFree(ls);
    assert text == "\"" + (S.Spell(ls) + ("\"" + ""));
    assert text[0] == '"' && text[1..] == S.Spell(ls) + ("\"" + "");
    LettersRead(ls, "");
    QuoteInFront(text, 0);
    assert Skip("") == Upto("");
    GrammarExact.LanguageExact(text);
    hide Parse, ReadValue, ReadText, S.Spell, S.Quote, Singly, CString, Skip;
  }

  const HEX_DIGITS := "0123456789abcdef"

  /** For every four digits of a `\u` escape but zeros: the string that is read is the UTF-8 encoding of their
      number. Four zeros give the empty string. */
  lemma EscapeDecodes(d0: nat, d1: nat, d2: nat, d3: nat)
    requires d0 < 16 && d1 < 16 && d2 < 16 && d3 < 16
    ensures var u := 4096 * d0 + 256 * d1 + 16 * d2 + d3;
      var o := Parse("\"\\u" + [HEX_DIGITS[d0], HEX_DIGITS[d1], HEX_DIGITS[d2], HEX_DIGITS[d3]] + "\"");
      && o.err == Success && Value(o).Str?
      && (u > 0 ==> R.Decode(Value(o).s) == Some([u]))
      && (u == 0 ==> Value(o).s == "")
  {
    var digits := [HEX_DIGITS[d0], HEX_DIGITS[d1], HEX_DIGITS[d2], HEX_DIGITS[d3]];
    DigitIs(d0);
    DigitIs(d1);
    DigitIs(d2);
    DigitIs(d3);
    var u := S.UnitCode(digits);
    assert u == 4096 * d0 + 256 * d1 + 16 * d2 + d3;
    OneUnit(digits);
    hide Parse, S.UnitCode, S.IsHexDigit;
    EncodeNulFree(u);
    if u > 0 {
      assert R.EncodeAll([u]) == R.Encode(u) + R.EncodeAll([u][1..]) && [u][1..] == [];
      R.DecodeExactly(R.Encode(u), [u]);
    } else {
      assert R.Encode(0) == [NUL];
    }
  }

  lemma DigitIs(d: nat)
    requires d < 16
    ensures var c := HEX_DIGITS[d]; S.IsHexDigit(c) && S.HexValue(c) == d && !('A' <= c <= 'F')
  {
  }

  lemma OneUnit(digits: string)
    requires |digits| == 4 && forall c :: c in digits ==> S.IsHexDigit(c) && !('A' <= c <= 'F')
    ensures var o := Parse("\"\\u" + digits + "\"");
      o.err == Success && Value(o) == Str(CString(R.Encode(S.UnitCode(digits))))
  {
    var l := S.Unit(digits);
    var ls := [l];
    assert ls[0] == l && ls[1..] == [] && S.Spell([]) == "" && Singly([]) == "";
    assert S.Spell(ls) == "\\u" + digits + "";
    assert S.Quote(ls) == "\"\\u" + digits + "\"";
    hide Parse, S.Quote, S.UnitCode, R.Encode;
    assert Singly(ls) == R.Encode(S.UnitCode(digits)) + "" == R.Encode(S.UnitCode(digits));
    KnownRead(ls);
  }

  // ----- what goes wrong

  lemma LetterRefused(l: S.Letter)
    requires S.IsLetter(l) && !Known(l)
    ensures Parse("\"" + S.SpellLetter(l) + "\"").err != Success
  {
    hide Parse, ReadValue, ReadText, S.SpellLetter, Known, S.IsLetter;
    var ls := [l];
    assert ls[0] == l && ls[1..] == [] && S.Spell([]) == "" && S.Spell(ls) == S.SpellLetter(l) + "";
    var text := "\"" + S.SpellLetter(l) + "\"";
    assert text == S.Quote(ls);
    SpellNulFree(ls);
    assert text == "\"" + (S.Spell(ls) + ("\"" + ""));
    assert text[0] == '"' && text[1..] == S.Spell(ls) + ("\"" + "");
    LettersRead(ls, "");
    QuoteInFront(text, 0);
    GrammarExact.LanguageExact(text);
  }

  /** To 64 bits, saturating. */
  function Saturated(n: int): int {
    if n > 9223372036854775807 then 9223372036854775807
    else if n < -9223372036854775808 then -9223372036854775808
    else n
  }

  function UpperExponent(digits: string): string {
    if digits == "" then "" else "E" + digits
  }

  /** Digits with a minus or without, leading zeros or not, and perhaps an upper-case exponent: what is read is the
      number saturated to 64 bits and cut to 32, whatever the exponent is. */
  lemma IntegersRead(minus: bool, whole: string, digits: string)
    requires S.Digits(whole) && whole != "" && S.Digits(digits)
    ensures var text := Sign(minus) + (whole + UpperExponent(digits));
      var n := Saturated(if minus then -S.Magnitude(whole) else S.Magnitude(whole));
      && Parse(text).err == Success && Value(Parse(text)).Int?
      && (n - Value(Parse(text)).n as int) % 4294967296 == 0
  {
    hide Parse, Saturated, Sign, ScanInt, Truncate, S.Magnitude, DoubleMark, NumberChars;
    var text := Sign(minus) + (whole + UpperExponent(digits));
    var n := if minus then -S.Magnitude(whole) else S.Magnitude(whole);
    IntegerScan(minus, whole, UpperExponent(digits));
    NumberFront(minus, whole, UpperExponent(digits));
    IntegerChars(minus, whole, digits);
    hide S.Digits, UpperExponent;
    TruncateIs(n);
    LoneInteger(text, Truncate(n));
  }

  lemma LoneInteger(text: string, n: int32)
    requires text != "" && NumberChars(text) && (text[0] == '-' || IsDigit(text[0]))
    requires !DoubleMark(text) && ScanInt(text) == Some(n)
    ensures Parse(text).err == Success && Value(Parse(text)) == Int(n)
  {
    hide Parse, ScanInt, ScansAsDouble;
    LoneNumber(text, Int(n));
  }

  lemma IntegerChars(minus: bool, whole: string, digits: string)
    requires S.Digits(whole) && S.Digits(digits)
    ensures var text := Sign(minus) + (whole + UpperExponent(digits)); NumberChars(text) && !DoubleMark(text)
  {
    DigitChars(whole);
    DigitChars(digits);
    assert NumberChars("E") && !DoubleMark("E") && NumberChars("") && !DoubleMark("");
    assert NumberChars(Sign(minus)) && !DoubleMark(Sign(minus));
    hide S.Digits, NumberChars, DoubleMark, Sign;
    BothMarked("E", digits);
    BothMarked(whole, UpperExponent(digits));
    BothMarked(Sign(minus), whole + UpperExponent(digits));
  }

  /** A text that is one number. */
  lemma LoneNumber(text: string, v: Json)
    requires text != "" && NumberChars(text) && (text[0] == '-' || IsDigit(text[0]))
    requires Numeric(text, DoubleMark(text)) == Some(v)
    ensures Parse(text).err == Success && Value(Parse(text)) == v
  {
    hide Parse, ReadValue, Numeric;
    NumberLenIs(text, "");
    assert text + "" == text && text[..|text|] == text && text[|text|..] == "" && Skip("") == Upto("");
    ByFront(text, 0);
    GrammarExact.LanguageExact(text);
  }

  lemma TruncateIs(n: int)
    ensures (Saturated(n) - Truncate(n) as int) % 4294967296 == 0
  {
  }

  /** `"\f"` and `"\u00E9"` are refused, and `1E5` is read as 1. */
  lemma WrongInputs()
    ensures Parse("\"\\f\"").err != Success && Parse("\"\\u00E9\"").err != Success
    ensures Parse("1E5").err == Success && Value(Parse("1E5")) == Int(1)
  {
    hide Parse;
    LetterRefused(S.Escaped('f'));
    assert "\"" + ("\\" + ['f']) + "\"" == "\"\\f\"";
    assert 'E' in "00E9" by { assert "00E9"[2] == 'E'; }
    assert S.IsLetter(S.Unit("00E9")) && !Known(S.Unit("00E9"));
    LetterRefused(S.Unit("00E9"));
    assert "\"" + ("\\u" + "00E9") + "\"" == "\"\\u00E9\"";
    assert "1"[..0] == "" && S.Magnitude("1") == 1 && "" + ("1" + ("E" + "5")) == "1E5";
    IntegersRead(false, "1", "5");
  }
}
