/** What a bracket set contains when its body is made of letters, digits and `-`. */
module GlobSets {
  import opened CTypes
  import opened JsonValue
  import opened Glob
  import opened GlobBodies
  import opened GlobScan
  import GlobClasses
  import GlobMeaning

  /** A run of letters or digits, a `-`, and the end of the range: `a-d`, or `ac-d`. */
  datatype Run = Run(letters: string, last: char)

  predicate Plain(s: string) {
    forall i :: 0 <= i < |s| ==> IsAlnum(s[i])
  }

  /** The range is counted from the FIRST letter of the run. */
  predicate Ascending(r: Run) {
    r.letters != "" && Plain(r.letters) && SameKind(r.last, r.letters[0]) && r.letters[0] <= r.last
  }

  function RunText(r: Run): string {
    r.letters + "-" + [r.last]
  }

  /** The body of a set: runs with their ranges, then single letters. */
  function Body(runs: seq<Run>, tail: string): string {
    if runs == [] then tail else RunText(runs[0]) + Body(runs[1..], tail)
  }

  function RunChars(r: Run): set<char>
    requires r.letters != ""
  {
    CharsOf(r.letters) + CharsUpTo(r.letters[0], r.last)
  }

  function BodyChars(runs: seq<Run>, tail: string): set<char>
    requires forall i :: 0 <= i < |runs| ==> Ascending(runs[i])
  {
    if runs == [] then CharsOf(tail)
    else
      assert Ascending(runs[0]);
      RunChars(runs[0]) + BodyChars(runs[1..], tail)
  }

  // ----- a run, a whole range

  function Marks(z: Scan, chars: set<char>): Scan {
    z.(cs := With(z.cs, chars))
  }

  lemma {:induction false} PlainLetters(xs: string)
    requires Plain(xs)
    ensures Letters(xs) && Unescaped(xs) == CharsOf(xs) && (xs != "" ==> RunStart(xs) == xs[0])
    decreases |xs|
  {
    if xs != "" {
      PlainLetters(xs[1..]);
      assert xs == [xs[0]] + xs[1..];
    }
  }

  lemma NoDash(r: Run)
    requires Ascending(r)
    ensures '-' !in RunChars(r)
  {
  }

  lemma OneRange(z: Scan, r: Run, after: string) returns (z': Scan)
    requires NulFree(RunText(r) + after) && Ascending(r) && z.state == Default && '-' !in z.cs.chars
    ensures NulFree(after) && ScanSet(z, RunText(r) + after) == ScanSet(z', after)
    ensures z'.state == Default && z'.found && z'.cs == Marks(z, RunChars(r)).cs && '-' !in z'.cs.chars
  {
    hide ScanSet;
    var x := Range(r.letters, [r.last]);
    PlainLetters(r.letters);
    NoDash(r);
    assert Text(x) == RunText(r);
    z' := PieceScan(z, x, after);
    assert z.cs.chars - {'-'} == z.cs.chars && z.cs.classes + {} == z.cs.classes;
    assert Names(x) == RunChars(r);
  }

  // ----- the whole body

  lemma {:induction false} ScanBody(z: Scan, runs: seq<Run>, tail: string, after: string)
    requires forall i :: 0 <= i < |runs| ==> Ascending(runs[i])
    requires Plain(tail) && NulFree(Body(runs, tail) + "]" + after)
    requires z.state == Default && '-' !in z.cs.chars && (z.found || runs != [] || tail != "")
    ensures ScanSet(z, Body(runs, tail) + "]" + after) == Ok(Marks(z, BodyChars(runs, tail)).cs, "]" + after)
    decreases |runs|
  {
    hide ScanSet, SetTurn, IsAlnum;
    var text := Body(runs, tail) + "]" + after;
    if runs == [] {
      if tail == "" {
        assert text == "]" + after && Marks(z, BodyChars(runs, tail)).cs == z.cs;
        BracketCloses(z, "]" + after);
      } else {
        assert text == tail + ("]" + after);
        PlainLetters(tail);
        var z1 := RunScan(z, tail, "]" + after);
        BracketCloses(z1, "]" + after);
      }
    } else {
      var rest := Body(runs[1..], tail) + "]" + after;
      assert text == RunText(runs[0]) + rest;
      var z1 := OneRange(z, runs[0], rest);
      ScanBody(z1, runs[1..], tail, after);
      assert Marks(z1, BodyChars(runs[1..], tail)).cs == Marks(z, BodyChars(runs, tail)).cs;
    }
  }

  function Mark(negate: bool): string {
    if negate then "!" else ""
  }

  lemma BehindMark(negate: bool, text: string)
    requires NulFree(text)
    ensures NulFree(Mark(negate) + text)
    ensures ScanSet(SCAN_START, Mark(negate) + text) == ScanSet(Started(Mark(negate)), text)
  {
    hide ScanSet;
    MarkScan(Mark(negate), text);
  }

  lemma MarkedAtStart(chars: set<char>, negate: bool)
    ensures Marks(Started(Mark(negate)), chars).cs == CharSet(chars, {}, negate)
  {
  }

  /** A negated or plain set whose body is made of ascending runs and letters: the scanner stops at
      the bracket that closes the set and has marked exactly the body's characters, and no `-`. */
  lemma BodyExact(runs: seq<Run>, tail: string, negate: bool, after: string)
    requires forall i :: 0 <= i < |runs| ==> Ascending(runs[i])
    requires Plain(tail) && (runs != [] || tail != "")
    requires NulFree(Body(runs, tail) + "]" + after)
    ensures var text := Mark(negate) + (Body(runs, tail) + "]" + after);
      NulFree(text) && ScanSet(SCAN_START, text) == Ok(CharSet(BodyChars(runs, tail), {}, negate), "]" + after)
  {
    hide ScanSet, Body, BodyChars, Ascending, Plain, Mark, Marks;
    BehindMark(negate, Body(runs, tail) + "]" + after);
    ScanBody(Started(Mark(negate)), runs, tail, after);
    MarkedAtStart(BodyChars(runs, tail), negate);
  }

  /** With one letter in front of every `-` the marked characters are the union of the ranges written. */
  lemma {:induction false} RangesExact(ranges: seq<(char, char)>, c: char)
    requires forall i :: 0 <= i < |ranges| ==> Ascending(Run([ranges[i].0], ranges[i].1))
    ensures var runs := seq(|ranges|, i requires 0 <= i < |ranges| => Run([ranges[i].0], ranges[i].1));
      c in BodyChars(runs, "") <==> exists i :: 0 <= i < |ranges| && Between(ranges[i].0, c, ranges[i].1)
  {
    var runs := seq(|ranges|, i requires 0 <= i < |ranges| => Run([ranges[i].0], ranges[i].1));
    if ranges != [] {
      var rest := ranges[1..];
      RangesExact(rest, c);
      assert runs[1..] == seq(|rest|, i requires 0 <= i < |rest| => Run([rest[i].0], rest[i].1));
      assert c in RunChars(runs[0]) <==> Between(ranges[0].0, c, ranges[0].1);
      assert forall i :: 0 < i < |ranges| ==> ranges[i] == rest[i - 1];
    }
  }

  lemma OneRun(r: Run)
    requires Ascending(r)
    ensures Body([r], "") == RunText(r) && BodyChars([r], "") == RunChars(r)
  {
    hide RunText, RunChars, Plain;
    assert [r][1..] == [] && BodyChars([], "") == {} && Body([], "") == "";
    assert RunText(r) + "" == RunText(r) && RunChars(r) + {} == RunChars(r);
  }

  // ----- the usual reading of a run: a range from its last letter

  function UsualChars(r: Run): set<char>
    requires r.letters != ""
  {
    CharsOf(r.letters) + CharsUpTo(r.letters[|r.letters| - 1], r.last)
  }

  /** The run names every character between its first and its last letter, as far as the range goes. */
  predicate NoGap(r: Run)
    requires r.letters != ""
  {
    var first, start := r.letters[0], r.letters[|r.letters| - 1];
    forall c :: (if first <= start then first <= c < start else start <= c < first) && c <= r.last ==> c in r.letters
  }

  /** A set that is one run contains what it is usually read as if and only if the run has no gap. */
  lemma UsualExactly(r: Run, negate: bool, after: string)
    requires Ascending(r) && NulFree(Body([r], "") + "]" + after)
    ensures var text := Mark(negate) + (Body([r], "") + "]" + after);
      NulFree(text) && (ScanSet(SCAN_START, text) == Ok(CharSet(UsualChars(r), {}, negate), "]" + after) <==> NoGap(r))
  {
    BodyExact([r], "", negate, after);
    hide ScanSet;
    OneRun(r);
    GapExactly(r);
  }

  lemma GapExactly(r: Run)
    requires Ascending(r)
    ensures RunChars(r) == UsualChars(r) <==> NoGap(r)
  {
    var first, start := r.letters[0], r.letters[|r.letters| - 1];
    forall c
      ensures c in RunChars(r) <==> c in r.letters || Between(first, c, r.last)
      ensures c in UsualChars(r) <==> c in r.letters || Between(start, c, r.last)
    {
    }
    if RunChars(r) == UsualChars(r) {
      forall c | (if first <= start then first <= c < start else start <= c < first) && c <= r.last
        ensures c in r.letters
      {
        assert c in RunChars(r) <==> c in UsualChars(r);
      }
    }
  }

  /** In `[ac-d]` the range begins at the first letter of the run: `b` is in the set, and in the usual reading
      it is not. */
  lemma StaleRangeStart()
    ensures var run := Run("ac", 'd');
      ScanSet(SCAN_START, "ac-d]") == Ok(CharSet(RunChars(run), {}, false), "]") && 'b' in RunChars(run) &&
        'b' !in UsualChars(run)
  {
    var run := Run("ac", 'd');
    OneRun(run);
    BInside();
    hide ScanSet, Body, BodyChars, RunChars, UsualChars;
    assert "" + (RunText(run) + "]" + "") == "ac-d]";
    BodyExact([run], "", false, "");
  }

  lemma BInside()
    ensures 'b' in RunChars(Run("ac", 'd')) && 'b' !in UsualChars(Run("ac", 'd'))
  {
    assert 'b' !in "ac" && Between('a', 'b', 'd');
  }

  // ----- runs that do not ascend

  /** The end of a range that does not go up. */
  lemma OffTurn(z: Scan, p: string)
    requires NulFree(p) && p != "" && z.state == MayRange2 && p[0] !in {']', '\\'}
    requires p[0] < z.rangeStart || !SameKind(p[0], z.rangeStart)
    ensures SetTurn(z, p) == Return(if p[0] < z.rangeStart then SetHang else Bad)
  {
  }

  lemma OffScan(z: Scan, p: string)
    requires NulFree(p) && p != "" && z.state == MayRange2 && p[0] !in {']', '\\'}
    requires p[0] < z.rangeStart || !SameKind(p[0], z.rangeStart)
    ensures ScanSet(z, p) == if p[0] < z.rangeStart then SetHang else Bad
  {
    hide ScanSet, SetTurn;
    OffTurn(z, p);
    ByTurn(z, p);
  }

  /** A descending range at the front of a set is never left, whatever follows. */
  lemma DescendingHangs(xs: string, last: char, after: string)
    requires Plain(xs) && xs != "" && IsAlnum(last) && last < xs[0] && NulFree(xs + "-" + [last] + after)
    ensures ScanSet(SCAN_START, xs + "-" + [last] + after) == SetHang
  {
    assert xs + "-" + [last] + after == RunText(Run(xs, last)) + after;
    OffRange(SCAN_START, Run(xs, last), after);
  }

  predicate Shaped(r: Run) {
    r.letters != "" && Plain(r.letters) && IsAlnum(r.last)
  }

  predicate Descending(r: Run) {
    Shaped(r) && r.last < r.letters[0]
  }

  lemma OffRange(z: Scan, r: Run, after: string)
    requires NulFree(RunText(r) + after) && Shaped(r) && !Ascending(r) && z.state == Default
    ensures ScanSet(z, RunText(r) + after) == if Descending(r) then SetHang else Bad
  {
    assert r.last !in {']', '\\'};
    hide ScanSet, SetTurn, IsAlnum;
    assert RunText(r) + after == r.letters + ("-" + ([r.last] + after));
    PlainLetters(r.letters);
    var z2 := DashScan(z, r.letters, [r.last] + after);
    OffScan(z2, [r.last] + after);
  }

  /** The first run that does not ascend. */
  function FirstOff(runs: seq<Run>): (k: nat)
    ensures k <= |runs| && (k < |runs| ==> !Ascending(runs[k])) && forall i :: 0 <= i < k ==> Ascending(runs[i])
  {
    if runs == [] || !Ascending(runs[0]) then 0 else 1 + FirstOff(runs[1..])
  }

  lemma {:induction false} ScanOff(z: Scan, runs: seq<Run>, tail: string, after: string)
    requires forall i :: 0 <= i < |runs| ==> Shaped(runs[i])
    requires FirstOff(runs) < |runs| && NulFree(Body(runs, tail) + "]" + after)
    requires z.state == Default && '-' !in z.cs.chars
    ensures ScanSet(z, Body(runs, tail) + "]" + after) == if Descending(runs[FirstOff(runs)]) then SetHang else Bad
    decreases |runs|
  {
    hide ScanSet, SetTurn, IsAlnum, Shaped, Descending;
    var rest := Body(runs[1..], tail) + "]" + after;
    assert Body(runs, tail) + "]" + after == RunText(runs[0]) + rest;
    if Ascending(runs[0]) {
      var z1 := OneRange(z, runs[0], rest);
      ScanOff(z1, runs[1..], tail, after);
    } else {
      OffRange(z, runs[0], rest);
    }
  }

  /** The verdict on every body of runs of letters and digits: it is accepted exactly when all runs ascend, the
      scanner hangs exactly when the first run that does not ascend goes down, and it never leaves the pattern. */
  lemma BodyVerdict(runs: seq<Run>, tail: string, negate: bool, after: string)
    requires forall i :: 0 <= i < |runs| ==> Shaped(runs[i])
    requires Plain(tail) && (runs != [] || tail != "") && NulFree(Body(runs, tail) + "]" + after)
    ensures var text := Mark(negate) + (Body(runs, tail) + "]" + after);
      && NulFree(text)
      && var r, k := ScanSet(SCAN_START, text), FirstOff(runs);
      && (r.Ok? <==> k == |runs|)
      && (r == SetHang <==> k < |runs| && Descending(runs[k]))
      && r != SetOverrun
  {
    hide ScanSet, SetTurn, IsAlnum, Shaped, Descending, Mark;
    if FirstOff(runs) == |runs| {
      BodyExact(runs, tail, negate, after);
    } else {
      BehindMark(negate, Body(runs, tail) + "]" + after);
      ScanOff(Started(Mark(negate)), runs, tail, after);
    }
  }

  /** Two digits, two upper-case or two lower-case letters, by their codes in ASCII. */
  predicate OneAlphabet(a: int, b: int) {
    (48 <= a <= 57 && 48 <= b <= 57) || (65 <= a <= 90 && 65 <= b <= 90) || (97 <= a <= 122 && 97 <= b <= 122)
  }

  /** A set that is one range from a letter or a digit, against one character. */
  lemma OneRangeMatches(a: char, b: char, d: char)
    requires OneAlphabet(a as int, a as int) && b !in {']', '\\', NUL} && d != NUL
    ensures Loop(['[', a, '-', b, ']'], [d]) ==
      if b < a then Hang
      else if !OneAlphabet(a as int, b as int) then Fail
      else if a <= d <= b then Match
      else NoMatch
  {
    hide Loop, ScanSet, RunChars;
    var text := [a] + ("-" + ([b] + "]"));
    assert ['[', a, '-', b, ']'] == "[" + text;
    assert OneAlphabet(a as int, b as int) <==> SameKind(b, a);
    if b < a || !SameKind(b, a) {
      RangeRefused(a, b);
      LostSet(text, d);
    } else {
      AscendingSet(a, b);
      hide Body, BodyChars;
      GlobClasses.OneSet(text, CharSet(RunChars(Run([a], b)), {}, false), d);
      assert d in RunChars(Run([a], b)) <==> a <= d <= b by { RunCharsIs(a, b, d); }
    }
  }

  lemma RunCharsIs(a: char, b: char, d: char)
    requires a <= b
    ensures d in RunChars(Run([a], b)) <==> a <= d <= b
  {
  }

  lemma AscendingSet(a: char, b: char)
    requires IsAlnum(a) && SameKind(b, a) && a <= b
    ensures ScanSet(SCAN_START, [a] + ("-" + ([b] + "]"))) == Ok(CharSet(RunChars(Run([a], b)), {}, false), "]")
  {
    var r := Run([a], b);
    OneRun(r);
    hide ScanSet, RunChars, Body, BodyChars;
    assert "" + (RunText(r) + "]" + "") == [a] + ("-" + ([b] + "]"));
    BodyExact([r], "", false, "");
  }

  lemma RangeRefused(a: char, b: char)
    requires IsAlnum(a) && b !in {']', '\\', NUL} && (b < a || !SameKind(b, a))
    ensures ScanSet(SCAN_START, [a] + ("-" + ([b] + "]"))) == if b < a then SetHang else Bad
  {
    hide ScanSet, SetTurn;
    PlainLetters([a]);
    hide IsAlnum, Plain, Letters;
    var z := DashScan(SCAN_START, [a], [b] + "]");
    OffScan(z, [b] + "]");
  }

  lemma LostSet(text: string, d: char)
    requires NulFree(text) && ScanSet(SCAN_START, text) in {SetHang, Bad}
    ensures NulFree("[" + text)
    ensures Loop("[" + text, [d]) == if ScanSet(SCAN_START, text) == Bad then Fail else Hang
  {
    assert ("[" + text)[1..] == text;
    hide ScanSet;
  }

  /** A later range hangs like the first one. */
  lemma SecondRangeHangs()
    ensures ScanSet(SCAN_START, "a-bd-c]") == SetHang
  {
    var runs := [Run("a", 'b'), Run("d", 'c')];
    assert runs[1..] == [runs[1]] && runs[1..][1..] == [];
    assert Ascending(runs[0]) && Descending(runs[1]) && FirstOff(runs) == 1 by { assert FirstOff(runs[1..]) == 0; }
    hide ScanSet, Ascending, Descending, FirstOff;
    TwoRunsText();
    BodyVerdict(runs, "", false, "");
  }

  lemma TwoRunsText()
    ensures Mark(false) + (Body([Run("a", 'b'), Run("d", 'c')], "") + "]" + "") == "a-bd-c]"
    ensures NulFree(Body([Run("a", 'b'), Run("d", 'c')], "") + "]" + "")
  {
    var runs := [Run("a", 'b'), Run("d", 'c')];
    assert runs[1..] == [runs[1]] && runs[1..][1..] == [] && Body([], "") == "";
    assert Body(runs[1..], "") == "d-c" && Body(runs, "") == "a-b" + "d-c";
    hide Body;
    assert "a-b" + "d-c" == "a-bd-c" && "a-bd-c" + "]" + "" == "a-bd-c]" && "" + "a-bd-c]" == "a-bd-c]";
  }

  /** A pattern that begins with a negated set takes the search behind an empty string, and it is read there
      unless a refusal or a hanging scan comes first. */
  lemma NegatedSetFirst(p: string)
    requires NulFree(p) && p != "" && p[0] == '[' && ScanSet(SCAN_START, p[1..]).Ok? &&
      ScanSet(SCAN_START, p[1..]).cs.negate
    ensures var pat := Compile(p);
      && (Loop(p, "") == Fail <==> |pat.es| == 1 && pat.end == Malformed)
      && (Loop(p, "") == Hang <==> |pat.es| == 1 && pat.end == Hanging)
      && (Loop(p, "") == Overrun <==> |pat.es| > 1 || pat.end in {Done, Straying})
  {
    hide ScanSet, InSet, Past;
    GlobMeaning.TerminatorInSet(p[1..]);
    GlobMeaning.PastIs(ScanSet(SCAN_START, p[1..]).rest[1..]);
  }

  lemma NotASet(after: string)
    requires NulFree("!a]" + after)
    ensures ScanSet(SCAN_START, "!a]" + after) == Ok(CharSet({'a'}, {}, true), "]" + after)
  {
    assert Mark(true) + (Body([], "a") + "]" + after) == "!a]" + after && Body([], "a") == "a";
    BodyExact([], "a", true, after);
    hide ScanSet;
    assert BodyChars([], "a") == {'a'};
  }

  lemma PastRefused()
    ensures Past("\\") == Fail && Past("[") == Fail
  {
    assert "["[1..] == "" && ScanSet(SCAN_START, "") == Bad;
    hide ScanSet;
  }

  lemma PastHangs()
    ensures Past("[a-") == Hang
  {
    hide ScanSet, Hangs;
    UnfinishedHangs("");
    assert "[a-"[1..] == "a-";
  }

  lemma NegatedTurn(text: string)
    requires NulFree(text) && ScanSet(SCAN_START, text).Ok? && ScanSet(SCAN_START, text).cs.negate
    ensures NulFree("[" + text) && Loop("[" + text, "") == Past(ScanSet(SCAN_START, text).rest[1..])
  {
    assert ("[" + text)[1..] == text;
    hide ScanSet, InSet, Past;
    GlobMeaning.TerminatorInSet(text);
  }

  lemma BehindNotA(after: string)
    requires NulFree(after)
    ensures NulFree("[!a]" + after) && Loop("[!a]" + after, "") == Past(after)
  {
    hide Loop, ScanSet, Past;
    var text := "!a]" + after;
    assert text[..3] == "!a]";
    assert NulFree("!a]") && NulFree(text);
    NotASet(after);
    NegatedTurn(text);
    assert "[!a]" + after == "[" + text && ("]" + after)[1..] == after;
  }

  lemma OneStarInFront(p: string)
    requires NulFree(p) && p != "" && p[0] != '*' && Loop(p, "") == Fail
    ensures NulFree("*" + p) && Loop("*" + p, "") == NoMatch
  {
    assert ("*" + p)[1..] == p && SkipStars(p) == p;
    hide ScanSet, Past, InSet;
  }

  /** Behind `[!a]` a backslash at the end, or a bracket at the end, fails before the string is read again, and
      an unfinished range hangs. */
  lemma RefusedBehindTheString()
    ensures Loop("[!a]\\", "") == Fail && Loop("[!a][", "") == Fail && Loop("*[!a]\\", "") == NoMatch
    ensures Loop("[!a][a-", "") == Hang
  {
    hide Loop, Past;
    PastRefused();
    PastHangs();
    BehindNotA("\\");
    BehindNotA("[");
    BehindNotA("[a-");
    assert "[!a]" + "\\" == "[!a]\\" && "[!a]" + "[" == "[!a][" && "[!a]" + "[a-" == "[!a][a-";
    OneStarInFront("[!a]\\");
    assert "*" + "[!a]\\" == "*[!a]\\";
  }

  /** The smallest pattern and string that read behind the string. */
  lemma NegatedSetAtEnd()
    ensures Loop("[!a]", "") == Overrun
  {
    hide ScanSet, Loop;
    BodyExact([], "a", true, "");
    assert "!" + (Body([], "a") + "]" + "") == "!a]" && "[!a]"[1..] == "!a]";
    NegatedSetFirst("[!a]");
  }
}
