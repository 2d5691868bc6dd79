/** Bracket sets piece by piece: which texts behind an opening bracket make `setcharset` hang, and which make
    it leave the pattern. */
module GlobScan {
  import opened CTypes
  import opened JsonValue
  import opened Glob

  // ----- the pieces of a set

  /** A letter, a digit, or an escaped printable character stands at the front of `p`. */
  predicate LetterAt(p: string) {
    p != "" && (IsAlnum(p[0]) || (p[0] == '\\' && IsPrint(At(p, 1))))
  }

  function LetterLen(p: string): (n: nat)
    requires LetterAt(p)
    ensures 0 < n <= |p|
  {
    if p[0] == '\\' then 2 else 1
  }

  /** Letters, digits and escaped characters only. */
  predicate Letters(s: string)
    decreases |s|
  {
    s == "" || (LetterAt(s) && Letters(s[LetterLen(s)..]))
  }

  predicate IsRun(s: string) {
    s != "" && Letters(s)
  }

  /** The characters a run is spelled with, without the backslashes. */
  function Unescaped(xs: string): set<char>
    decreases |xs|
  {
    if !LetterAt(xs) then {} else {xs[LetterLen(xs) - 1]} + Unescaped(xs[LetterLen(xs)..])
  }

  /** A range counts from the first letter of its run. */
  function RunStart(s: string): (c: char)
    requires IsRun(s)
    ensures IsPrint(c)
  {
    s[LetterLen(s) - 1]
  }

  /** The texts behind a `-` that complete a range from `r` and leave the scanner in its default state.
      Behind two backslashes a lower end is skipped, and a higher one takes one more character along. */
  predicate Completes(r: char, e: string) {
    || (|e| == 1 && e[0] >= r && SameKind(e[0], r))
    || (|e| == 2 && e[0] == '\\' && e[1] >= r && SameKind(e[1], r))
    || (|e| == 3 && e[..2] == "\\\\" && IsPrint(e[2]) && e[2] < r)
    || (|e| == 4 && e[..2] == "\\\\" && e[2] >= r && SameKind(e[2], r))
  }

  /** How a class is written. */
  function NameOf(k: Class): (name: string)
    ensures 0 < |name| <= 8 && ClassOf(name) == Some(k) && forall i :: 0 <= i < |name| ==> IsLower(name[i])
  {
    match k
    case Alnum => "alnum"
    case Alpha => "alpha"
    case Digit => "digit"
    case XDigit => "xdigit"
    case Print => "print"
    case Space => "space"
    case Upper => "upper"
    case Lower => "lower"
    case Blank => "blank"
    case Graph => "graph"
  }

  function ClassText(k: Class): string {
    "[:" + NameOf(k) + ":]"
  }

  /** A closing bracket that is meant literally with what is taken along behind it, another character, a named
      class, a run, and a run with its range. */
  datatype Piece = Literal(text: string) | Single(c: char) | Named(k: Class) | Several(xs: string)
    | Range(xs: string, end: string)

  function Text(x: Piece): string {
    match x
    case Literal(t) => t
    case Single(c) => [c]
    case Named(k) => ClassText(k)
    case Several(xs) => xs
    case Range(xs, end) => xs + ("-" + end)
  }

  function Texts(ps: seq<Piece>): string {
    if ps == [] then "" else Text(ps[0]) + Texts(ps[1..])
  }

  predicate LiteralBracket(h: string) {
    || (|h| == 2 && h[0] == ']' && IsPrint(h[1]) && h[1] !in {'[', ']'})
    || (|h| == 3 && h[..2] == "][" && h[2] !in {']', NUL})
  }

  /** In front of the text `after` the piece is complete: a run ends at an opening bracket. */
  predicate Complete(x: Piece, after: string) {
    match x
    case Literal(t) => LiteralBracket(t)
    case Single(c) => !IsAlnum(c) && c !in {']', '\\', NUL} && (c == '[' ==> At(after, 0) != ':')
    case Named(_) => true
    case Several(xs) => IsRun(xs) && At(after, 0) == '['
    case Range(xs, end) => IsRun(xs) && Completes(RunStart(xs), end)
  }

  predicate AllComplete(ps: seq<Piece>, after: string) {
    ps == [] || (Complete(ps[0], Texts(ps[1..]) + after) && AllComplete(ps[1..], after))
  }

  predicate IsMark(x: Piece) {
    x in {Single('!'), Single('^')}
  }

  predicate NoLiteral(ps: seq<Piece>) {
    forall i :: 0 <= i < |ps| ==> !ps[i].Literal?
  }

  /** A negation mark or none, and then the pieces: only the first can be a literal bracket, or a mark if
      there is a mark already. */
  predicate Opening(mark: string, ps: seq<Piece>) {
    && mark in {"", "!", "^"}
    && (ps != [] ==> NoLiteral(ps[1..]) && (mark == "" ==> !IsMark(ps[0])))
  }

  /** Complete pieces, then a run, a `-`, and `e`. */
  ghost predicate OpenRange(p: string, mark: string, ps: seq<Piece>, run: string, e: string) {
    p == mark + (Texts(ps) + (run + ("-" + e))) && Opening(mark, ps) && AllComplete(ps, run + ("-" + e)) && IsRun(run)
  }

  /** The end of the range is below its start: the end of the text is, and so is any lower character
      but the closing bracket. */
  predicate Below(r: char, e: string) {
    if At(e, 0) == '\\' then IsPrint(At(e, 1)) && e[1] !in {']', '\\'} && e[1] < r
    else At(e, 0) != ']' && At(e, 0) < r
  }

  /** Two backslashes and a proper end, which is the last character of the pattern. */
  predicate LastEnd(r: char, e: string) {
    |e| == 3 && e[..2] == "\\\\" && e[2] >= r && SameKind(e[2], r)
  }

  ghost predicate Hangs(p: string) {
    exists mark, ps, run, e :: OpenRange(p, mark, ps, run, e) && Below(RunStart(run), e)
  }

  ghost predicate Strays(p: string) {
    || p in {"][", "!][", "^]["}
    || exists mark, ps, run, e :: OpenRange(p, mark, ps, run, e) && LastEnd(RunStart(run), e)
  }

  // ----- what a piece marks

  function CharsOf(s: string): set<char> {
    set c | c in s
  }

  /** Where a range goes to: behind two backslashes the next character is passed over. */
  function RangeLast(end: string): char
    requires end != ""
  {
    if |end| <= 2 then end[|end| - 1] else end[2]
  }

  /** The range goes up, so that the characters in between are marked. */
  predicate Fills(x: Piece) {
    x.Range? && IsRun(x.xs) && x.end != "" && RunStart(x.xs) <= RangeLast(x.end) &&
    SameKind(RangeLast(x.end), RunStart(x.xs))
  }

  /** What a piece names. A range that goes nowhere leaves its `-`, and a character behind two backslashes. */
  function Names(x: Piece): set<char> {
    match x
    case Literal(t) => CharsOf(t)
    case Single(c) => {c}
    case Named(_) => {}
    case Several(xs) => Unescaped(xs)
    case Range(xs, end) =>
      if Fills(x) then Unescaped(xs) - {'-'} + CharsUpTo(RunStart(xs), RangeLast(end))
      else Unescaped(xs) + {'-'} + CharsOf(if |end| == 3 then end[2..] else "")
  }

  /** The marks after one more piece: a range that goes up takes back every `-` in front of it. */
  function Add(cs: CharSet, x: Piece): CharSet {
    cs.(chars := (if Fills(x) then cs.chars - {'-'} else cs.chars) + Names(x),
        classes := cs.classes + if x.Named? then {x.k} else {})
  }

  function AddAll(cs: CharSet, ps: seq<Piece>): CharSet
    decreases |ps|
  {
    if ps == [] then cs else AddAll(Add(cs, ps[0]), ps[1..])
  }

  // ----- single turns

  function With(cs: CharSet, marks: set<char>): CharSet {
    cs.(chars := cs.chars + marks)
  }

  lemma OneTurn(z: Scan, p: string, z': Scan, n: nat, rest: string)
    requires NulFree(p) && n <= |p| && rest == p[n..] && SetTurn(z, p) == Go(z', n)
    ensures NulFree(rest) && ScanSet(z, p) == ScanSet(z', rest)
  {
    hide SetTurn;
  }

  lemma DropFront(s: string, rest: string, n: nat)
    requires n <= |s|
    ensures (s + rest)[n..] == s[n..] + rest
  {
  }

  lemma LetterTurn(z: Scan, p: string) returns (z': Scan)
    requires NulFree(p) && LetterAt(p) && z.state in {Default, MayRange}
    ensures SetTurn(z, p) == Go(z', LetterLen(p)) && z'.state == MayRange
    ensures z'.rangeStart == if z.state == Default then p[LetterLen(p) - 1] else z.rangeStart
    ensures z.state == Default || z.found ==> z'.found
    ensures z'.cs == With(z.cs, {p[LetterLen(p) - 1]})
  {
    z' := SetTurn(z, p).z;
  }

  lemma {:induction false} LettersScan(z: Scan, xs: string, rest: string) returns (z': Scan)
    requires NulFree(xs + rest) && Letters(xs) && z.state == MayRange && z.found
    ensures NulFree(rest) && ScanSet(z, xs + rest) == ScanSet(z', rest)
    ensures z'.state == MayRange && z'.rangeStart == z.rangeStart && z'.found
    ensures z'.cs == With(z.cs, Unescaped(xs))
    decreases |xs|
  {
    hide ScanSet, SetTurn, IsAlnum, IsPrint;
    if xs == "" {
      assert xs + rest == rest && z.cs.chars + {} == z.cs.chars;
      z' := z;
    } else {
      var n := LetterLen(xs);
      LetterInFront(xs, rest);
      var z1 := LetterTurn(z, xs + rest);
      DropFront(xs, rest, n);
      OneTurn(z, xs + rest, z1, n, xs[n..] + rest);
      z' := LettersScan(z1, xs[n..], rest);
      assert (xs + rest)[n - 1] == xs[n - 1];
      assert z'.cs.chars == z.cs.chars + Unescaped(xs);
    }
  }

  lemma LetterInFront(xs: string, rest: string)
    requires LetterAt(xs)
    ensures LetterAt(xs + rest) && LetterLen(xs + rest) == LetterLen(xs)
  {
    assert (xs + rest)[0] == xs[0];
    if xs[0] == '\\' { assert !IsPrint(NUL) && (xs + rest)[1] == xs[1]; }
  }

  /** A run from the default state. */
  lemma RunScan(z: Scan, xs: string, rest: string) returns (z': Scan)
    requires NulFree(xs + rest) && IsRun(xs) && z.state == Default
    ensures NulFree(rest) && ScanSet(z, xs + rest) == ScanSet(z', rest)
    ensures z'.state == MayRange && z'.rangeStart == RunStart(xs) && z'.found
    ensures z'.cs == With(z.cs, Unescaped(xs))
  {
    hide ScanSet, SetTurn, IsAlnum, IsPrint;
    var n := LetterLen(xs);
    LetterInFront(xs, rest);
    var z1 := LetterTurn(z, xs + rest);
    DropFront(xs, rest, n);
    OneTurn(z, xs + rest, z1, n, xs[n..] + rest);
    z' := LettersScan(z1, xs[n..], rest);
    assert (xs + rest)[n - 1] == xs[n - 1];
    assert z'.cs.chars == z.cs.chars + Unescaped(xs);
  }

  /** A run and a dash: the scanner waits for the end of the range. */
  lemma DashScan(z: Scan, run: string, e: string) returns (z': Scan)
    requires NulFree(run + ("-" + e)) && IsRun(run) && z.state == Default
    ensures NulFree(e) && ScanSet(z, run + ("-" + e)) == ScanSet(z', e)
    ensures z'.state == MayRange2 && z'.rangeStart == RunStart(run) && z'.found
    ensures z'.cs == With(z.cs, Unescaped(run) + {'-'})
  {
    hide ScanSet, IsAlnum, IsPrint;
    var z1 := RunScan(z, run, "-" + e);
    z' := z1.Mark('-').To(MayRange2);
    assert ("-" + e)[1..] == e;
    assert SetTurn(z1, "-" + e) == Go(z', 1);
    assert z'.cs.chars == z.cs.chars + (Unescaped(run) + {'-'});
    OneTurn(z1, "-" + e, z', 1, e);
  }

  /** The scanner at the end of a range: it hangs, leaves the text, goes on behind a completed range, or returns. */
  lemma RangeTurn(z: Scan, e: string)
    requires NulFree(e) && z.state == MayRange2 && IsPrint(z.rangeStart)
    ensures var r, t := z.rangeStart, SetTurn(z, e);
      && (Below(r, e) <==> t == Return(SetHang))
      && (LastEnd(r, e) <==> t == Return(SetOverrun))
      && (t.Go? ==> t.z.state == Default && t.z.found == z.found && 0 < t.skip <= |e| && Completes(r, e[..t.skip]))
  {
  }

  /** The range is complete: either it goes up and everything in between is marked, or it leaves the `-`. */
  lemma CompletedTurn(z: Scan, run: string, e: string, rest: string)
    requires NulFree(e + rest) && z.state == MayRange2 && IsRun(run) && z.rangeStart == RunStart(run)
    requires Completes(RunStart(run), e) && RunStart(run) in z.cs.chars
    ensures var t := SetTurn(z, e + rest);
      && t.Go? && t.skip == |e| && t.z.state == Default && t.z.found == z.found
      && t.z.cs == if Fills(Range(run, e)) then
          z.cs.(chars := z.cs.chars - {'-'} + (CharsUpTo(RunStart(run), RangeLast(e)) - {RunStart(run)}))
        else With(z.cs, CharsOf(if |e| == 3 then e[2..] else ""))
  {
    hide Letters, LetterAt;
    var p := e + rest;
    assert p[0] == e[0] && (|e| > 1 ==> p[1] == e[1]) && (|e| > 2 ==> p[2] == e[2]);
    CompletedSet(z.cs, run, e);
  }

  /** The character behind two backslashes is marked by itself and in the range. */
  lemma CompletedSet(cs: CharSet, run: string, e: string)
    requires IsRun(run) && Completes(RunStart(run), e) && RunStart(run) in cs.chars
    ensures |e| == 3 ==> CharsOf(e[2..]) == {e[2]} && !Fills(Range(run, e))
    ensures |e| != 3 ==> CharsOf("") == {} && Fills(Range(run, e))
    ensures var between := CharsUpTo(RunStart(run), RangeLast(e)) - {RunStart(run)};
      |e| == 4 ==> cs.chars + {e[2]} - {'-'} + between == cs.chars - {'-'} + between
  {
    if |e| == 3 { assert e[2..] == [e[2]]; }
  }

  // ----- class names

  lemma {:induction false} LowerRunLonger(p: string, rest: string, max: nat)
    requires LowerRun(p, max) < |p|
    ensures LowerRun(p + rest, max) == LowerRun(p, max)
    decreases max
  {
    assert p != "" && (p + rest)[0] == p[0] && (p + rest)[1..] == p[1..] + rest;
    if max > 0 && IsLower(p[0]) { LowerRunLonger(p[1..], rest, max - 1); }
  }

  lemma {:induction false} LowerRunIs(name: string, rest: string, max: nat)
    requires (forall i :: 0 <= i < |name| ==> IsLower(name[i])) && |name| <= max && !IsLower(At(rest, 0))
    ensures LowerRun(name + rest, max) == |name|
    decreases |name|
  {
    var p := name + rest;
    if name != "" {
      assert p[0] == name[0] && p[1..] == name[1..] + rest;
      LowerRunIs(name[1..], rest, max - 1);
    } else {
      assert p == rest;
    }
  }

  lemma KeywordIs(k: Class, rest: string)
    ensures Keyword(NameOf(k) + (":]" + rest)) == Some((k, rest))
  {
    var name := NameOf(k);
    hide NameOf, ClassOf;
    var p := name + (":]" + rest);
    LowerRunIs(name, ":]" + rest, 8);
    assert p[..|name|] == name && p[|name| + 2..] == rest && p[|name|] == ':' && p[|name| + 1] == ']';
  }

  /** A keyword that is recognised is the name of its class. */
  lemma KeywordText(p: string)
    requires Keyword(p).Some?
    ensures var (k, rest) := Keyword(p).value; p == NameOf(k) + (":]" + rest)
  {
    var n := LowerRun(p, 8);
    var k := Keyword(p).value.0;
    NameOnly(p[..n]);
    hide NameOf, ClassOf;
    assert p[n..n + 2] == ":]" && p == p[..n] + (p[n..n + 2] + p[n + 2..]);
  }

  lemma NameOnly(name: string)
    requires ClassOf(name).Some?
    ensures name == NameOf(ClassOf(name).value)
  {
  }

  lemma OtherTurn(z: Scan, p: string)
    requires NulFree(p) && p != "" && z.state == Default && !IsAlnum(p[0]) && p[0] !in {']', '\\'}
    requires p[0] == '[' ==> At(p, 1) != ':'
    requires z.found || z.cs.negate || p[0] !in {'!', '^'}
    ensures SetTurn(z, p) == Go(z.(found := true, cs := With(z.cs, {p[0]})), 1)
  {
  }

  lemma ClassTurn(z: Scan, p: string)
    requires NulFree(p) && z.state == Default && |p| >= 2 && p[..2] == "[:"
    ensures SetTurn(z, p) == match Keyword(p[2..])
      case Some((k, rest)) => Go(z.(found := true, cs := z.cs.(classes := z.cs.classes + {k})), |p| - |rest|)
      case None => Return(Bad)
  {
    assert p[0] == p[..2][0] && p[1] == p[..2][1];
    hide Keyword;
  }

  lemma BracketTurn(z: Scan, p: string)
    requires NulFree(p) && At(p, 0) == '[' && z.state == MayRange
    ensures SetTurn(z, p) == Go(z.To(Default), 0)
  {
  }

  // ----- complete pieces lead from the default state to the default state

  lemma RangeScan(z: Scan, run: string, e: string, rest: string) returns (z': Scan)
    requires NulFree(run + ("-" + e) + rest) && z.state == Default && IsRun(run) && Completes(RunStart(run), e)
    ensures NulFree(rest) && ScanSet(z, run + ("-" + e) + rest) == ScanSet(z', rest)
    ensures z'.state == Default && z'.found && z'.cs == Add(z.cs, Range(run, e))
  {
    hide ScanSet, SetTurn, IsRun, Completes;
    assert run + ("-" + e) + rest == run + ("-" + (e + rest));
    var z1 := DashScan(z, run, e + rest);
    StartMarked(run);
    CompletedTurn(z1, run, e, rest);
    z' := SetTurn(z1, e + rest).z;
    DropFront(e, rest, |e|);
    assert e[|e|..] + rest == rest;
    OneTurn(z1, e + rest, z', |e|, rest);
    RangeAdds(z.cs, run, e);
  }

  /** The `-` of a range that goes up does not stay, nor does one of its run. */
  lemma RangeAdds(cs: CharSet, run: string, e: string)
    requires IsRun(run) && Completes(RunStart(run), e)
    ensures RunStart(run) in Unescaped(run)
    ensures var marked := With(cs, Unescaped(run) + {'-'});
      Add(cs, Range(run, e)) == if Fills(Range(run, e)) then
          marked.(chars := marked.chars - {'-'} + (CharsUpTo(RunStart(run), RangeLast(e)) - {RunStart(run)}))
        else With(marked, CharsOf(if |e| == 3 then e[2..] else ""))
  {
    hide CharsUpTo, CharsOf;
    StartMarked(run);
    hide Letters, Unescaped;
    var first, chars := RunStart(run), cs.chars;
    if Fills(Range(run, e)) {
      var between := CharsUpTo(first, RangeLast(e));
      assert chars + (Unescaped(run) + {'-'}) - {'-'} + (between - {first}) ==
        chars - {'-'} + (Unescaped(run) - {'-'} + between);
    }
    assert cs.classes + {} == cs.classes;
  }

  lemma StartMarked(run: string)
    requires IsRun(run)
    ensures RunStart(run) in Unescaped(run)
  {
  }

  lemma ClassScan(z: Scan, k: Class, rest: string) returns (z': Scan)
    requires NulFree(ClassText(k) + rest) && z.state == Default
    ensures NulFree(rest) && ScanSet(z, ClassText(k) + rest) == ScanSet(z', rest)
    ensures z'.state == Default && z'.found && z'.cs == Add(z.cs, Named(k))
  {
    hide Keyword, NameOf, ScanSet;
    var p := ClassText(k) + rest;
    assert p[2..] == NameOf(k) + (":]" + rest) && p[..2] == "[:";
    KeywordIs(k, rest);
    ClassTurn(z, p);
    z' := z.(found := true, cs := z.cs.(classes := z.cs.classes + {k}));
    assert z.cs.chars + {} == z.cs.chars;
    OneTurn(z, p, z', |p| - |rest|, rest) by { hide *; }
  }

  lemma LiteralTurn(z: Scan, p: string)
    requires NulFree(p) && z.state == Default && !z.found && At(p, 0) == ']'
    ensures SetTurn(z, p) == Go(z.(found := true).Mark(']').To(RightBr), 1)
  {
  }

  lemma PairTurn(z: Scan, p: string)
    requires NulFree(p) && z.state == RightBr && At(p, 0) == '['
    ensures SetTurn(z, p) == Go(z.Mark('[').To(RightBrLeftBr), 1)
  {
  }

  /** The character behind a literal `]` or `][`. */
  lemma TakenTurn(z: Scan, p: string)
    requires NulFree(p) && p != "" && p[0] != ']'
    requires z.state == RightBrLeftBr || (z.state == RightBr && p[0] != '[' && IsPrint(p[0]))
    ensures SetTurn(z, p) == Go(z.Mark(p[0]).To(Default), 1)
  {
  }

  lemma LiteralChars(h: string)
    requires LiteralBracket(h)
    ensures h[0] == ']' && (|h| == 2 || h[1] == '[')
    ensures CharsOf(h) == {']'} + (if |h| == 2 then {} else {'['}) + {h[|h| - 1]}
  {
    if |h| == 3 { assert h[0] == h[..2][0] && h[1] == h[..2][1]; }
    assert h == [']'] + (if |h| == 2 then [] else ['[']) + [h[|h| - 1]];
  }

  lemma LiteralScan(z: Scan, h: string, rest: string) returns (z': Scan)
    requires NulFree(h + rest) && z.state == Default && !z.found && LiteralBracket(h)
    ensures NulFree(rest) && ScanSet(z, h + rest) == ScanSet(z', rest) && z'.state == Default && z'.found
    ensures z'.cs == Add(z.cs, Literal(h))
  {
    hide ScanSet, SetTurn, CharsOf;
    LiteralChars(h);
    DropFront(h, rest, 1);
    LiteralTurn(z, h + rest);
    var z1, p1 := z.(found := true).Mark(']').To(RightBr), h[1..] + rest;
    OneTurn(z, h + rest, z1, 1, p1);
    if |h| == 3 {
      PairTurn(z1, p1);
      DropFront(h[1..], rest, 1);
      var z2 := z1.Mark('[').To(RightBrLeftBr);
      OneTurn(z1, p1, z2, 1, h[2..] + rest);
      z1, p1 := z2, h[2..] + rest;
    }
    assert p1[0] == h[|h| - 1] && p1[1..] == rest;
    TakenTurn(z1, p1);
    z' := z1.Mark(p1[0]).To(Default);
    OneTurn(z1, p1, z', 1, rest);
    assert z.cs.classes + {} == z.cs.classes && z'.cs.chars == z.cs.chars + CharsOf(h);
  }

  /** The scanner has found nothing yet only in front of the first piece. */
  predicate MayFollow(z: Scan, x: Piece) {
    z.state == Default && (x.Literal? ==> !z.found) && (IsMark(x) ==> z.found || z.cs.negate)
  }

  lemma PieceScan(z: Scan, x: Piece, rest: string) returns (z': Scan)
    requires NulFree(Text(x) + rest) && Complete(x, rest) && MayFollow(z, x)
    ensures NulFree(rest) && ScanSet(z, Text(x) + rest) == ScanSet(z', rest)
    ensures z'.state == Default && z'.found && z'.cs == Add(z.cs, x)
  {
    hide ScanSet, SetTurn, IsAlnum, IsPrint, Letters, LiteralBracket, Completes, ClassText;
    match x
    case Literal(t) => z' := LiteralScan(z, t, rest);
    case Named(k) => z' := ClassScan(z, k, rest);
    case Range(run, e) => z' := RangeScan(z, run, e, rest);
    case Several(xs) =>
      var z1 := RunScan(z, xs, rest);
      z' := z1.To(Default);
      assert z.cs.classes + {} == z.cs.classes;
      BracketTurn(z1, rest);
      OneTurn(z1, rest, z', 0, rest);
    case Single(c) =>
      var p := [c] + rest;
      assert p[0] == c && At(p, 1) == At(rest, 0) && p[1..] == rest && z.cs.classes + {} == z.cs.classes;
      OtherTurn(z, p);
      z' := z.(found := true, cs := With(z.cs, {c}));
      OneTurn(z, p, z', 1, rest);
  }

  lemma {:induction false} PiecesScan(z: Scan, ps: seq<Piece>, rest: string) returns (z': Scan)
    requires NulFree(Texts(ps) + rest) && AllComplete(ps, rest) && z.state == Default
    requires ps != [] ==> MayFollow(z, ps[0]) && NoLiteral(ps[1..])
    ensures NulFree(rest) && ScanSet(z, Texts(ps) + rest) == ScanSet(z', rest)
    ensures z'.state == Default && (z.found || ps != [] ==> z'.found) && z'.cs == AddAll(z.cs, ps)
    ensures ps == [] ==> z' == z
    decreases |ps|
  {
    hide ScanSet, Complete, Text, Add;
    if ps == [] {
      assert Texts(ps) + rest == rest;
      z' := z;
    } else {
      var rest1 := Texts(ps[1..]) + rest;
      assert Texts(ps) + rest == Text(ps[0]) + rest1;
      var z1 := PieceScan(z, ps[0], rest1);
      if ps[1..] != [] { assert !ps[1..][0].Literal? && NoLiteral(ps[1..][1..]); }
      z' := PiecesScan(z1, ps[1..], rest);
    }
  }

  /** The scanner behind a negation mark, or at the start when there is none. */
  function Started(mark: string): Scan {
    if mark == "" then SCAN_START else SCAN_START.(cs := NOTHING.(negate := true))
  }

  lemma MarkScan(mark: string, rest: string)
    requires NulFree(mark + rest) && mark in {"", "!", "^"}
    ensures NulFree(rest) && ScanSet(SCAN_START, mark + rest) == ScanSet(Started(mark), rest)
  {
    hide ScanSet;
    var p := mark + rest;
    if mark == "" {
      assert p == rest;
    } else {
      assert p[1..] == rest && p[0] == mark[0];
      assert SetTurn(SCAN_START, p) == Go(Started(mark), 1);
      OneTurn(SCAN_START, p, Started(mark), 1, rest) by { hide *; }
    }
  }

  lemma OpeningScan(mark: string, ps: seq<Piece>, rest: string) returns (z: Scan)
    requires NulFree(mark + (Texts(ps) + rest)) && Opening(mark, ps) && AllComplete(ps, rest)
    ensures NulFree(rest) && ScanSet(SCAN_START, mark + (Texts(ps) + rest)) == ScanSet(z, rest)
    ensures z.state == Default && (ps != [] ==> z.found) && z.cs == AddAll(Started(mark).cs, ps)
    ensures ps == [] ==> z == Started(mark)
  {
    hide ScanSet, AllComplete, IsMark;
    MarkScan(mark, Texts(ps) + rest);
    z := PiecesScan(Started(mark), ps, rest);
  }

  /** The scan of an open range comes to the end of the range. */
  lemma OpenRangeScan(p: string, mark: string, ps: seq<Piece>, run: string, e: string) returns (z: Scan)
    requires NulFree(p) && OpenRange(p, mark, ps, run, e)
    ensures NulFree(e) && ScanSet(SCAN_START, p) == ScanSet(z, e) && z.state == MayRange2 &&
      z.rangeStart == RunStart(run)
  {
    hide ScanSet, Opening, AllComplete, IsRun;
    var z1 := OpeningScan(mark, ps, run + ("-" + e));
    z := DashScan(z1, run, e);
  }

  // ----- every text is complete pieces and a rest at which the scan ends

  /** What the last piece can be when the set is closed right behind it. */
  predicate Closes(x: Piece) {
    match x
    case Literal(t) => t in {"]", "]["}
    case Several(xs) => IsRun(xs)
    case Range(xs, end) => IsRun(xs) && end in {"", "\\"}
    case _ => false
  }

  /** How the scan ends at `p`: at the closing bracket, or within one more piece. */
  predicate EndsIn(r: SetResult, x: Piece, p: string) {
    match r
    case SetHang => x.Range? && p == Text(x) && IsRun(x.xs) && Below(RunStart(x.xs), x.end)
    case SetOverrun =>
      p == Text(x) && (x == Literal("][") || (x.Range? && IsRun(x.xs) && LastEnd(RunStart(x.xs), x.end)))
    case Ok(_, rest) => At(rest, 0) == ']' && (p == rest || (p == Text(x) + rest && Closes(x)))
    case Bad => true
  }

  /** The text is in front of the scanner and no bracket or mark in it has a special meaning. */
  predicate Ready(z: Scan, p: string) {
    z.state == Default && (z.found || (At(p, 0) != ']' && (At(p, 0) in {'!', '^'} ==> z.cs.negate)))
  }

  function RunLen(p: string): (n: nat)
    ensures n <= |p| && Letters(p[..n]) && !LetterAt(p[n..])
    ensures LetterAt(p) ==> n > 0
    decreases |p|
  {
    if !LetterAt(p) then 0
    else
      var k := LetterLen(p);
      var n := RunLen(p[k..]);
      assert p[..k + n][k..] == p[k..][..n] && p[k + n..] == p[k..][n..];
      LetterKept(p, k + n);
      k + n
  }

  lemma LetterKept(p: string, n: nat)
    requires LetterAt(p) && LetterLen(p) <= n <= |p|
    ensures LetterAt(p[..n]) && LetterLen(p[..n]) == LetterLen(p)
  {
  }

  lemma ByTurn(z: Scan, p: string)
    requires NulFree(p)
    ensures match SetTurn(z, p)
      case Go(z', n) => NulFree(p[n..]) && ScanSet(z, p) == ScanSet(z', p[n..])
      case Return(r) => ScanSet(z, p) == r
  {
    hide SetTurn;
  }

  /** The end of a run: only a dash or a bracket goes on. */
  lemma RunEndTurn(z: Scan, p: string)
    requires NulFree(p) && z.state == MayRange && !LetterAt(p) && At(p, 0) !in {'-', '['}
    ensures SetTurn(z, p) == Return(if At(p, 0) == ']' then Ok(z.cs, p) else Bad)
  {
  }

  /** Nothing but a run, a class name or a single character goes on from the default state. */
  lemma DefaultEnds(z: Scan, p: string)
    requires NulFree(p) && Ready(z, p) && !LetterAt(p) && (p == "" || p[0] in {']', '\\'})
    ensures SetTurn(z, p) == Return(if At(p, 0) == ']' then Ok(z.cs, p) else Bad)
  {
  }

  lemma EndsHere(cs: CharSet, x: Piece, p: string)
    ensures At(p, 0) == ']' ==> EndsIn(Ok(cs, p), x, p)
    ensures EndsIn(Bad, x, p)
  {
  }

  /** One more piece in front. */
  lemma OneMore(x: Piece, ps: seq<Piece>, rest: string)
    requires Complete(x, Texts(ps) + rest) && AllComplete(ps, rest)
    ensures Texts([x] + ps) + rest == Text(x) + (Texts(ps) + rest) && AllComplete([x] + ps, rest)
  {
    hide Complete, Text;
    assert ([x] + ps)[1..] == ps;
  }

  lemma {:induction false} FindPieces(z: Scan, p: string) returns (ps: seq<Piece>, x: Piece, rest: string)
    requires NulFree(p) && Ready(z, p)
    ensures p == Texts(ps) + rest && AllComplete(ps, rest) && NoLiteral(ps) && EndsIn(ScanSet(z, p), x, rest)
    ensures (At(p, 0) in {'!', '^'} || ps == [] || !IsMark(ps[0])) && !x.Literal?
    decreases |p|, 2
  {
    hide ScanSet, SetTurn, IsAlnum, IsPrint, Keyword, Letters, EndsIn;
    ps, x, rest := [], Single(' '), p;
    assert Texts([]) + p == p;
    if LetterAt(p) {
      ps, x, rest := FindInRun(z, p);
    } else if p == "" || p[0] in {']', '\\'} {
      DefaultEnds(z, p);
      ByTurn(z, p);
      EndsHere(z.cs, x, p);
    } else if p[0] == '[' && At(p, 1) == ':' {
      ps, x, rest := FindInClass(z, p);
    } else {
      NotAlnum(p);
      OtherComplete(p);
      hide Complete, AllComplete, Text;
      ps, x, rest := FindBehind(z, Single(p[0]), p[1..]);
    }
  }

  lemma OtherComplete(p: string)
    requires NulFree(p) && p != "" && !IsAlnum(p[0]) && p[0] !in {']', '\\'} && (p[0] == '[' ==> At(p, 1) != ':')
    ensures Complete(Single(p[0]), p[1..]) && p == Text(Single(p[0])) + p[1..]
  {
  }

  lemma {:induction false} FindInClass(z: Scan, p: string) returns (ps: seq<Piece>, x: Piece, rest: string)
    requires NulFree(p) && Ready(z, p) && |p| >= 2 && p[0] == '[' && p[1] == ':'
    ensures p == Texts(ps) + rest && AllComplete(ps, rest) && NoLiteral(ps) && EndsIn(ScanSet(z, p), x, rest)
    ensures (ps == [] || !IsMark(ps[0])) && !x.Literal?
    decreases |p|, 1
  {
    hide ScanSet, SetTurn, Keyword, EndsIn;
    assert p[..2] == "[:" && p == "[:" + p[2..];
    if Keyword(p[2..]).Some? {
      KeywordText(p[2..]);
      var (k, q) := Keyword(p[2..]).value;
      assert p == ClassText(k) + q;
      hide ClassText;
      ps, x, rest := FindBehind(z, Named(k), q);
    } else {
      ps, x, rest := [], Single(' '), p;
      assert Texts([]) + p == p;
      ClassTurn(z, p);
      ByTurn(z, p);
      EndsHere(z.cs, x, p);
    }
  }

  lemma NotAlnum(p: string)
    requires p != "" && !LetterAt(p)
    ensures !IsAlnum(p[0])
  {
  }

  lemma {:induction false} FindBehind(z: Scan, y: Piece, q: string) returns (ps: seq<Piece>, x: Piece, rest: string)
    requires NulFree(Text(y) + q) && Complete(y, q) && MayFollow(z, y) && !y.Literal? && Text(y) != ""
    ensures Text(y) + q == Texts(ps) + rest && AllComplete(ps, rest) && NoLiteral(ps)
    ensures EndsIn(ScanSet(z, Text(y) + q), x, rest) && !x.Literal? && ps != [] && ps[0] == y
    decreases |q|, 3
  {
    hide ScanSet, Complete, Text, EndsIn;
    var z1 := PieceScan(z, y, q);
    ps, x, rest := FindPieces(z1, q);
    OneMore(y, ps, rest);
    ps := [y] + ps;
  }

  lemma {:induction false} FindInRun(z: Scan, p: string) returns (ps: seq<Piece>, x: Piece, rest: string)
    requires NulFree(p) && Ready(z, p) && LetterAt(p)
    ensures p == Texts(ps) + rest && AllComplete(ps, rest) && NoLiteral(ps) && EndsIn(ScanSet(z, p), x, rest)
    ensures (ps == [] || !IsMark(ps[0])) && !x.Literal?
    decreases |p|, 1
  {
    hide ScanSet, SetTurn, IsAlnum, IsPrint, EndsIn, LetterAt;
    var n := RunLen(p);
    var first, q := p[..n], p[n..];
    assert p == first + q && IsRun(first);
    hide Letters, IsRun, AllComplete;
    if At(q, 0) == '[' {
      ps, x, rest := FindBehind(z, Several(first), q);
    } else if At(q, 0) == '-' {
      assert q == "-" + q[1..];
      ps, x, rest := FindBehindDash(z, first, q[1..]);
    } else {
      ps, x, rest := [], Several(first), p;
      assert Texts([]) + p == p;
      assert AllComplete([], p) by { NoPieces(p); }
      RunEnds(z, first, q);
    }
  }

  lemma NoPieces(p: string)
    ensures AllComplete([], p)
  {
  }

  /** The scan ends behind a run. */
  lemma RunEnds(z: Scan, run: string, q: string)
    requires NulFree(run + q) && z.state == Default && IsRun(run) && !LetterAt(q) && At(q, 0) !in {'-', '['}
    ensures EndsIn(ScanSet(z, run + q), Several(run), run + q)
  {
    hide ScanSet, SetTurn, EndsIn, IsRun, LetterAt;
    var z1 := RunScan(z, run, q);
    RunEndTurn(z1, q);
    ByTurn(z1, q);
    EndsHere(z1.cs, Several(run), run + q);
    if At(q, 0) == ']' { RunCloses(z1.cs, run, q); }
  }

  lemma {:induction false} FindBehindDash(z: Scan, run: string, e: string)
      returns (ps: seq<Piece>, x: Piece, rest: string)
    requires NulFree(run + ("-" + e)) && z.state == Default && IsRun(run)
    ensures run + ("-" + e) == Texts(ps) + rest && AllComplete(ps, rest) && NoLiteral(ps)
    ensures EndsIn(ScanSet(z, run + ("-" + e)), x, rest) && (ps == [] || !IsMark(ps[0])) && !x.Literal?
    decreases |run| + 1 + |e|, 0
  {
    hide ScanSet, SetTurn, IsRun, Completes, EndsIn, Below, LastEnd, Complete, Text;
    var z2 := DashScan(z, run, e);
    RangeTurn(z2, e);
    ByTurn(z2, e);
    if SetTurn(z2, e).Go? {
      var k := SetTurn(z2, e).skip;
      RangeComplete(run, e, k);
      hide Texts, AllComplete;
      ps, x, rest := FindBehind(z, Range(run, e[..k]), e[k..]);
    } else {
      ps, rest := [], run + ("-" + e);
      assert Texts([]) + rest == rest;
      x := RangeEnds(z2, run, e);
    }
  }

  lemma RangeComplete(run: string, e: string, k: nat)
    requires IsRun(run) && 0 < k <= |e| && Completes(RunStart(run), e[..k])
    ensures var x := Range(run, e[..k]);
      Complete(x, e[k..]) && Text(x) != "" && run + ("-" + e) == Text(x) + e[k..]
  {
    hide Completes, IsRun;
    assert e == e[..k] + e[k..];
  }

  lemma RunCloses(cs: CharSet, run: string, q: string)
    requires IsRun(run) && At(q, 0) == ']'
    ensures EndsIn(Ok(cs, q), Several(run), run + q)
  {
  }

  /** The scan ends within the end of a range. */
  lemma RangeEnds(z: Scan, run: string, e: string) returns (x: Piece)
    requires NulFree(e) && z.state == MayRange2 && IsRun(run) && z.rangeStart == RunStart(run)
    requires SetTurn(z, e).Return?
    ensures EndsIn(SetTurn(z, e).r, x, run + ("-" + e)) && x.Range?
  {
    RangeTurn(z, e);
    x := Range(run, e);
    if At(e, 0) == ']' {
      x := Range(run, "");
      assert run + ("-" + e) == run + ("-" + "") + e;
    } else if At(e, 0) == '\\' && At(e, 1) == ']' {
      x := Range(run, "\\");
      assert e == "\\" + e[1..];
      assert run + ("-" + e) == run + ("-" + "\\") + e[1..];
    }
  }

  /** A literal bracket at the front that is not complete. */
  lemma LiteralEnds(z: Scan, p: string) returns (x: Piece)
    requires NulFree(p) && z.state == Default && !z.found && At(p, 0) == ']'
    requires forall k :: 0 <= k <= |p| ==> !LiteralBracket(p[..k])
    ensures EndsIn(ScanSet(z, p), x, p)
  {
    hide ScanSet, SetTurn, EndsIn, LiteralBracket;
    var z1 := z.(found := true).Mark(']').To(RightBr);
    var q := p[1..];
    LiteralTurn(z, p);
    ByTurn(z, p);
    assert p == "]" + q;
    NotLiteral(p);
    if At(q, 0) == '[' {
      x := Literal("][");
      PairEnds(z1, q);
    } else {
      x := Literal("]");
      BracketEnds(z1, q);
    }
  }

  lemma NotLiteral(p: string)
    requires At(p, 0) == ']' && forall k :: 0 <= k <= |p| ==> !LiteralBracket(p[..k])
    ensures if At(p, 1) == '[' then |p| > 2 ==> p[2] in {']', NUL} else At(p, 1) == ']' || !IsPrint(At(p, 1))
  {
    if |p| > 1 { assert p[..2] == [']', p[1]] && !LiteralBracket(p[..2]); }
    if |p| > 2 && p[1] == '[' { assert p[..3] == [']', '[', p[2]] && p[..3][..2] == "][" && !LiteralBracket(p[..3]); }
  }

  lemma BracketEnds(z: Scan, q: string)
    requires NulFree(q) && z.state == RightBr && At(q, 0) != '[' && (At(q, 0) == ']' || !IsPrint(At(q, 0)))
    ensures EndsIn(ScanSet(z, q), Literal("]"), "]" + q)
  {
    ByTurn(z, q);
    hide ScanSet;
  }

  lemma PairEnds(z: Scan, q: string)
    requires NulFree(q) && z.state == RightBr && At(q, 0) == '[' && (|q| > 1 ==> q[1] == ']')
    ensures EndsIn(ScanSet(z, q), Literal("]["), "]" + q)
  {
    hide ScanSet, SetTurn;
    PairTurn(z, q);
    ByTurn(z, q);
    var z2, rest := z.Mark('[').To(RightBrLeftBr), q[1..];
    PairEndTurn(z2, rest);
    ByTurn(z2, rest);
    assert "]" + q == "][" + rest;
  }

  lemma PairEndTurn(z: Scan, p: string)
    requires NulFree(p) && z.state == RightBrLeftBr && At(p, 0) in {']', NUL}
    ensures SetTurn(z, p) == Return(if p == "" then SetOverrun else Ok(z.cs, p))
  {
  }

  lemma FindBehindMark(mark: string, p: string) returns (ps: seq<Piece>, x: Piece, rest: string)
    requires NulFree(p) && mark in {"", "!", "^"} && (mark == "" ==> At(p, 0) !in {'!', '^'})
    ensures p == Texts(ps) + rest && AllComplete(ps, rest) && Opening(mark, ps)
    ensures EndsIn(ScanSet(Started(mark), p), x, rest) && (x.Literal? ==> ps == [])
  {
    hide ScanSet, EndsIn, LiteralBracket;
    var z := Started(mark);
    if At(p, 0) == ']' {
      ps, rest := [], p;
      assert Texts([]) + p == p;
      if k :| 0 <= k <= |p| && LiteralBracket(p[..k]) {
        assert p == p[..k] + p[k..];
        var z1 := PieceScan(z, Literal(p[..k]), p[k..]);
        ps, x, rest := FindPieces(z1, p[k..]);
        OneMore(Literal(p[..k]), ps, rest);
        assert ([Literal(p[..k])] + ps)[1..] == ps;
        ps := [Literal(p[..k])] + ps;
      } else {
        x := LiteralEnds(z, p);
      }
    } else {
      ps, x, rest := FindPieces(z, p);
    }
  }

  /** Every text behind the opening bracket: a mark or none, complete pieces, and a rest at which the scan ends. */
  lemma FindAll(p: string) returns (mark: string, ps: seq<Piece>, x: Piece, rest: string)
    requires NulFree(p)
    ensures p == mark + (Texts(ps) + rest) && Opening(mark, ps) && AllComplete(ps, rest)
    ensures EndsIn(ScanSet(SCAN_START, p), x, rest) && (x.Literal? ==> ps == [])
  {
    hide ScanSet, EndsIn, AllComplete, Opening;
    mark := if At(p, 0) in {'!', '^'} then p[..1] else "";
    var q := p[|mark|..];
    assert p == mark + q;
    assert mark in {"", "!", "^"} by { if mark != "" { assert mark == [p[0]]; } }
    MarkScan(mark, q);
    ps, x, rest := FindBehindMark(mark, q);
  }

  /** For every text: the scanner hangs exactly when complete pieces, a run and a dash are followed by an
      end below the first letter of the run. */
  lemma HangsExactly(p: string)
    requires NulFree(p)
    ensures ScanSet(SCAN_START, p) == SetHang <==> Hangs(p)
  {
    var mark, ps, x, rest := FindAll(p);
    hide ScanSet, SetTurn, AllComplete, Opening;
    if ScanSet(SCAN_START, p) == SetHang {
      assert OpenRange(p, mark, ps, x.xs, x.end);
    }
    if mark, ps, run, e :| OpenRange(p, mark, ps, run, e) && Below(RunStart(run), e) {
      var z := OpenRangeScan(p, mark, ps, run, e);
      RangeTurn(z, e);
      ByTurn(z, e);
    }
  }

  /** For every text: the scanner leaves the pattern exactly when the pattern ends behind an opening `][`,
      or with two backslashes and a proper end of a range. */
  lemma StraysExactly(p: string)
    requires NulFree(p)
    ensures ScanSet(SCAN_START, p) == SetOverrun <==> Strays(p)
  {
    var mark, ps, x, rest := FindAll(p);
    hide ScanSet, SetTurn, AllComplete;
    if ScanSet(SCAN_START, p) == SetOverrun {
      if x == Literal("][") {
        assert p == mark + "][";
        MarkedPair(mark);
      } else {
        assert OpenRange(p, mark, ps, x.xs, x.end);
      }
    }
    hide Texts, Opening, LastEnd, IsRun;
    if p in {"][", "!][", "^]["} {
      BracketPairStrays(p);
    } else if mark, ps, run, e :| OpenRange(p, mark, ps, run, e) && LastEnd(RunStart(run), e) {
      var z := OpenRangeScan(p, mark, ps, run, e);
      RangeTurn(z, e);
      ByTurn(z, e);
    }
  }

  lemma MarkedPair(mark: string)
    requires mark in {"", "!", "^"}
    ensures mark + "][" in {"][", "!][", "^]["}
  {
    assert "!" + "][" == "!][" && "^" + "][" == "^][" && "" + "][" == "][";
  }

  /** The bracket behind an opening `][` would be meant literally, but there is none. */
  lemma BracketPairStrays(p: string)
    requires NulFree(p) && p in {"][", "!][", "^]["}
    ensures ScanSet(SCAN_START, p) == SetOverrun
  {
    hide ScanSet;
    var mark := if p == "][" then "" else p[..1];
    assert mark in {"", "!", "^"} by { if p != "][" { assert p[0] in {'!', '^'} && mark == [p[0]]; } }
    assert p == mark + "][";
    MarkScan(mark, "][");
    PairStrays(Started(mark));
  }

  lemma PairStrays(z: Scan)
    requires z.state == Default && !z.found
    ensures ScanSet(z, "][") == SetOverrun
  {
    hide ScanSet, SetTurn;
    LiteralTurn(z, "][");
    ByTurn(z, "][");
    assert "]["[1..] == "[" && "["[1..] == "";
    var z1 := z.(found := true).Mark(']').To(RightBr);
    PairTurn(z1, "[");
    ByTurn(z1, "[");
    var z2 := z1.Mark('[').To(RightBrLeftBr);
    PairEndTurn(z2, "");
    ByTurn(z2, "");
  }

  /** The pattern `[][` reads behind its own terminator, whatever the string is. */
  lemma BracketPairOverruns(s: string)
    ensures Loop("[][", s) == Overrun
  {
    hide ScanSet;
    assert "[]["[1..] == "][";
    BracketPairStrays("][");
  }

  /** A range hangs at the end of the pattern, or at a lower character that is no letter. */
  lemma UnfinishedHangs(after: string)
    requires NulFree(after)
    ensures ScanSet(SCAN_START, "a-") == SetHang
    ensures NulFree("a-*" + after) && ScanSet(SCAN_START, "a-*" + after) == SetHang
  {
    hide ScanSet;
    assert IsRun("a") && Texts([]) == "";
    assert "a-" == "" + ("" + ("a" + ("-" + "")));
    assert OpenRange("a-", "", [], "a", "") && Below(RunStart("a"), "");
    HangsExactly("a-");
    var e := "*" + after;
    assert "a-*" + after == "" + ("" + ("a" + ("-" + e)));
    assert OpenRange("a-*" + after, "", [], "a", e) && Below(RunStart("a"), e);
    HangsExactly("a-*" + after);
  }
}
