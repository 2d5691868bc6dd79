/** The loops of `curl_fnmatch`: they compute what `Glob` says. */
module GlobMatcher {
  import opened CTypes
  import opened JsonValue
  import opened Glob
  import opened GlobMeaning
  import GlobScan

  // ----- parsekeyword

  /** A class name behind `[:`; `n` characters have been read when it succeeds. */
  method ParseKeyword(p: string) returns (found: bool, k: Class, n: nat)
    requires NulFree(p)
    ensures found ==> n <= |p| && Keyword(p) == Some((k, p[n..]))
    ensures !found ==> Keyword(p) == None
  {
    var keyword, i := "", 0;
    k := Digit;
    n := 0;
    while i < 8 && i < |p| && IsLower(p[i])
      invariant i <= |p| && i <= 8 && keyword == p[..i]
      invariant LowerRun(p, 8) == i + LowerRun(p[i..], 8 - i)
    {
      assert p[i..][1..] == p[i + 1..];
      keyword := keyword + [p[i]];
      i := i + 1;
    }
    found := At(p, i) == ':' && At(p, i + 1) == ']';
    if found {
      var named := ClassOf(keyword);
      match named
      case Some(named) => k, n := named, i + 2;
      case None => found := false;
    }
  }

  // ----- setcharset

  /** The inner loop that marks the characters behind the first one of a range. */
  method MarkRange(cs: CharSet, first: char, last: char) returns (marked: CharSet, rangeStart: char)
    requires first <= last <= 'z'
    ensures marked == cs.(chars := cs.chars + (CharsUpTo(first, last) - {first}))
    ensures rangeStart == last + 2 as char
  {
    marked, rangeStart := cs, first + 1 as char;
    while rangeStart <= last
      invariant first < rangeStart <= last + 1 as char
      invariant marked.classes == cs.classes && marked.negate == cs.negate
      invariant forall c :: c in marked.chars <==> c in cs.chars || first < c < rangeStart
      decreases last as int - rangeStart as int
    {
      rangeStart := rangeStart + 1 as char;
      marked := marked.(chars := marked.chars + {rangeStart - 1 as char});
    }
    rangeStart := rangeStart + 1 as char;
  }

  /** What a turn in the middle of the text did: `z` and `i` are the new values of the variables. */
  ghost predicate Turned(t: Turn, p: string, i: nat, done: bool, ok: bool, z': Scan, i': nat) {
    match t
    case Go(z2, skip) => !done && z' == z2 && i' == i + skip
    case Return(Ok(cs, rest)) => done && ok && z'.cs == cs && i' < |p| && p[i'..] == rest
    case Return(r) => r == Bad && done && !ok
  }

  /** A turn that neither hangs nor leaves the text. */
  predicate Fine(t: Turn) {
    t.Return? ==> t.r != SetHang && t.r != SetOverrun
  }

  method DefaultTurn(p: string, i: nat, z: Scan) returns (done: bool, ok: bool, z': Scan, i': nat)
    requires NulFree(p) && i <= |p| && z.state == Default
    ensures i' <= |p| && Turned(SetTurn(z, p[i..]), p, i, done, ok, z', i')
  {
    assert !IsAlnum(NUL) && !IsPrint(NUL);
    hide IsAlnum, IsPrint;
    var c := At(p, i);
    done, ok, z', i' := false, false, z, i + 1;
    if IsAlnum(c) {
      z' := z.(rangeStart := c, state := MayRange, found := true).Mark(c);
    } else if c == ']' {
      if z.found { return true, true, z, i; }
      z' := z.(found := true, state := RightBr).Mark(c);
    } else if c == '[' {
      if At(p, i + 1) == ':' {
        assert p[i..][2..] == p[i + 2..];
        var named, k, n := ParseKeyword(p[i + 2..]);
        if !named { return true, false, z, i; }
        assert p[i + 2..][n..] == p[i + 2 + n..];
        z' := z.(cs := z.cs.(classes := z.cs.classes + {k}));
        i' := i + 2 + n;
      } else {
        z' := z.Mark(c);
      }
      z' := z'.(found := true);
    } else if c == '^' || c == '!' {
      if z.found {
        z' := z.Mark(c);
      } else if z.cs.negate {
        z' := z.Mark(c).(found := true);
      } else {
        z' := z.(cs := z.cs.(negate := true));
      }
    } else if c == '\\' {
      c := At(p, i + 1);
      if !IsPrint(c) { return true, false, z, i; }
      z' := z.(found := true, state := MayRange, rangeStart := c).Mark(c);
      i' := i + 2;
    } else if c == NUL {
      return true, false, z, i;
    } else {
      z' := z.(found := true).Mark(c);
    }
  }

  method MayRangeTurn(p: string, i: nat, z: Scan) returns (done: bool, ok: bool, z': Scan, i': nat)
    requires NulFree(p) && i <= |p| && z.state == MayRange
    ensures i' <= |p| && Turned(SetTurn(z, p[i..]), p, i, done, ok, z', i')
  {
    var c := At(p, i);
    done, ok, z', i' := false, false, z, i + 1;
    if c == '-' {
      z' := z.(state := MayRange2).Mark(c);
    } else if c == '[' {
      z', i' := z.(state := Default), i;
    } else if IsAlnum(c) {
      z' := z.Mark(c);
    } else if c == '\\' {
      c := At(p, i + 1);
      if !IsPrint(c) { return true, false, z, i; }
      z', i' := z.Mark(c), i + 2;
    } else {
      return true, c == ']', z, i;
    }
  }

  method MayRange2Turn(p: string, i: nat, z: Scan) returns (done: bool, ok: bool, z': Scan, i': nat)
    requires NulFree(p) && i <= |p| && z.state == MayRange2 && Fine(SetTurn(z, p[i..]))
    ensures i' <= |p| && Turned(SetTurn(z, p[i..]), p, i, done, ok, z', i')
  {
    hide IsPrint;
    var c := At(p, i);
    done, ok, z', i' := false, false, z, i;
    if c == '\\' {
      i' := i' + 1;
      c := At(p, i');
      if !IsPrint(c) { return true, false, z, i; }
    }
    if c == ']' { return true, true, z, i'; }
    if c == '\\' {
      i' := i' + 1;
      c := At(p, i');
      if !IsPrint(c) { return true, false, z, i; }
      z' := z.(state := Default).Mark(c);
      i' := i' + 1;
    }
    if c >= z.rangeStart {
      if !SameKind(c, z.rangeStart) { return true, false, z, i; }
      var cs, rangeStart := MarkRange(z'.cs.(chars := z'.cs.chars - {'-'}), z.rangeStart, c);
      z' := z'.(cs := cs, rangeStart := rangeStart, state := Default);
      i' := i' + 1;
    }
  }

  method RightBrTurn(p: string, i: nat, z: Scan) returns (done: bool, ok: bool, z': Scan, i': nat)
    requires NulFree(p) && i <= |p| && z.state in {RightBr, RightBrLeftBr} && Fine(SetTurn(z, p[i..]))
    ensures i' <= |p| && Turned(SetTurn(z, p[i..]), p, i, done, ok, z', i')
  {
    var c := At(p, i);
    done, ok, z', i' := false, false, z.(state := Default).Mark(c), i + 1;
    if c == ']' { return true, true, z, i; }
    if z.state == RightBr {
      if c == '[' {
        z' := z.(state := RightBrLeftBr).Mark(c);
      } else if !IsPrint(c) {
        return true, false, z, i;
      }
    }
  }

  /** The variables of the loop mean the same set as before; or the loop is left with that set. */
  ghost predicate Onward(p: string, i: nat, z: Scan, done: bool, ok: bool, z': Scan, i': nat)
    requires NulFree(p) && i <= |p|
  {
    i' <= |p| &&
    if !done then
      && ScanSet(z, p[i..]) == ScanSet(z', p[i'..])
      && i <= i' && (i == i' ==> z.state == MayRange && z'.state == Default)
    else if ok then i' < |p| && ScanSet(z, p[i..]) == Ok(z'.cs, p[i'..])
    else ScanSet(z, p[i..]) == Bad
  }

  lemma TurnedOnward(p: string, i: nat, z: Scan, done: bool, ok: bool, z': Scan, i': nat)
    requires NulFree(p) && i <= |p| && Turned(SetTurn(z, p[i..]), p, i, done, ok, z', i')
    requires i' <= |p|
    ensures Onward(p, i, z, done, ok, z', i')
  {
    hide SetTurn;
    if !done { assert p[i..][i' - i..] == p[i'..]; }
  }

  lemma FineWhen(p: string, i: nat, z: Scan)
    requires NulFree(p) && i <= |p| && ScanSet(z, p[i..]) !in {SetHang, SetOverrun}
    ensures Fine(SetTurn(z, p[i..]))
  {
    hide SetTurn;
  }

  method OneTurn(p: string, i: nat, z: Scan) returns (done: bool, ok: bool, z': Scan, i': nat)
    requires NulFree(p) && i <= |p| && ScanSet(z, p[i..]) !in {SetHang, SetOverrun}
    ensures Onward(p, i, z, done, ok, z', i')
  {
    hide ScanSet, SetTurn, Onward, Turned;
    FineWhen(p, i, z);
    if z.state == Default {
      done, ok, z', i' := DefaultTurn(p, i, z);
    } else if z.state == MayRange {
      done, ok, z', i' := MayRangeTurn(p, i, z);
    } else if z.state == MayRange2 {
      done, ok, z', i' := MayRange2Turn(p, i, z);
    } else {
      done, ok, z', i' := RightBrTurn(p, i, z);
    }
    TurnedOnward(p, i, z, done, ok, z', i');
  }

  /** `setcharset` on the text behind the opening bracket; `i` is where the pattern pointer stops. */
  method SetCharset(p: string) returns (ok: bool, i: nat, cs: CharSet)
    requires NulFree(p) && !GlobScan.Hangs(p) && !GlobScan.Strays(p)
    ensures ok ==> i < |p| && ScanSet(SCAN_START, p) == Ok(cs, p[i..])
    ensures !ok ==> ScanSet(SCAN_START, p) == Bad
  {
    GlobScan.HangsExactly(p);
    GlobScan.StraysExactly(p);
    hide ScanSet, GlobScan.Hangs, GlobScan.Strays;
    var z, done := SCAN_START, false;
    i, ok := 0, false;
    assert p[0..] == p;
    while !done
      invariant i <= |p|
      invariant if !done then ScanSet(z, p[i..]) == ScanSet(SCAN_START, p)
        else if ok then i < |p| && ScanSet(SCAN_START, p) == Ok(z.cs, p[i..])
        else ScanSet(SCAN_START, p) == Bad
      decreases !done, |p| - i, z.state == MayRange
    {
      done, ok, z, i := OneTurn(p, i, z);
    }
    cs := z.cs;
  }

  // ----- loop

  /** Leaving out one of two stars changes nothing. */
  lemma {:induction false} OneStarLess(p: string, s: string)
    requires NulFree(p) && |p| >= 2 && p[0] == '*' && p[1] == '*'
    ensures Loop(p, s) == Loop(p[1..], s)
    decreases |s|
  {
    assert SkipStars(p[1..]) == SkipStars(p[2..]) && p[1..][1..] == p[2..];
    if s != "" { OneStarLess(p, s[1..]); }
  }

  /** At a star: nothing eaten first, then one character. */
  lemma StarStep(p: string, s: string)
    requires NulFree(p) && p != "" && p[0] == '*' && (|p| > 1 ==> p[1] != '*')
    ensures s == "" && |p| == 1 ==> Loop(p, s) == Match
    ensures s != "" || |p| > 1 ==>
      var rc := Loop(p[1..], s);
      Loop(p, s) == if rc == Match || Gone(rc) then rc else if s == "" then NoMatch else Loop(p, s[1..])
  {
    assert SkipStars(p[1..]) == p[1..];
  }

  /** There is a match, or no way of matching comes to a place where the search is lost. */
  ghost predicate ComesBack(p: string, s: string)
    requires NulFree(p)
  {
    Accepts(Compile(p), s) || !Loses(Compile(p), s)
  }

  lemma ReturnsExactly(p: string, s: string)
    requires NulFree(p) && NulFree(s)
    ensures ComesBack(p, s) <==> !Gone(Loop(p, s))
  {
    GoneExactly(p, s);
    hide Accepts, Loses, Loop, Compile;
  }

  /** The character at a pointer, which is not behind the terminator: all reads of the search are of this kind. */
  function Peek(s: string, j: nat): char
    requires j <= |s|
  {
    At(s, j)
  }

  /** The search from `i` and `j`, where the string pointer may be just behind the terminator. */
  function From(p: string, i: nat, s: string, j: nat): Rc
    requires NulFree(p) && i <= |p| && j <= |s| + 1
  {
    if j <= |s| then Loop(p[i..], s[j..]) else Past(p[i..])
  }

  /** It comes back: at the string as above, and behind it when the rest of the pattern is refused at once. */
  ghost predicate ComesBackFrom(p: string, i: nat, s: string, j: nat)
    requires NulFree(p) && i <= |p| && j <= |s| + 1
  {
    if j <= |s| then ComesBack(p[i..], s[j..]) else Compile(p[i..]) == Pattern([], Malformed)
  }

  lemma ReturnsFrom(p: string, i: nat, s: string, j: nat)
    requires NulFree(p) && NulFree(s) && i <= |p| && j <= |s| + 1
    ensures ComesBackFrom(p, i, s, j) <==> !Gone(From(p, i, s, j))
  {
    hide Loop, ComesBack, Compile, Past;
    if j <= |s| { ReturnsExactly(p[i..], s[j..]); } else { PastIs(p[i..]); }
  }

  /** Behind the terminator only a backslash or a bracket does not look at the string. */
  lemma PastStep(p: string, i: nat)
    requires NulFree(p) && i <= |p| && !Gone(Past(p[i..]))
    ensures i < |p| && Past(p[i..]) == Fail
    ensures (p[i] == '\\' && !IsPrint(At(p, i + 1))) || (p[i] == '[' && ScanSet(SCAN_START, p[i + 1..]) == Bad)
  {
    hide ScanSet, IsPrint;
    assert At(p[i..], 0) == At(p, i) && At(p[i..], 1) == At(p, i + 1);
    if i < |p| { assert p[i..][1..] == p[i + 1..]; }
  }

  lemma EscapeStep(p: string, s: string, i: nat, j: nat)
    requires NulFree(p) && NulFree(s) && i < |p| && j <= |s| && p[i] == '\\'
    ensures var c, rc := At(p, i + 1), Loop(p[i..], s[j..]);
      if !IsPrint(c) then rc == Fail
      else if c != At(s, j) then rc == NoMatch
      else i + 2 <= |p| && j + 1 <= |s| && rc == Loop(p[i + 2..], s[j + 1..])
  {
    var c := At(p, i + 1);
    assert At(p[i..], 1) == c && At(s[j..], 0) == At(s, j);
    if IsPrint(c) && c == At(s, j) {
      assert p[i..][2..] == p[i + 2..] && s[j..][1..] == s[j + 1..];
    }
  }

  lemma EndStep(s: string)
    ensures Loop("", s) == if s == "" then Match else NoMatch
  {
  }

  lemma PlainStep(p: string, s: string, i: nat, j: nat)
    requires NulFree(p) && NulFree(s) && i < |p| && j <= |s| && p[i] != '*' && p[i] != '\\' && p[i] != '['
    ensures var d, rc := At(s, j), Loop(p[i..], s[j..]);
      if (if p[i] == '?' then IsPrint(d) else p[i] == d) then j < |s| && rc == Loop(p[i + 1..], s[j + 1..])
      else if p[i] == '?' && d != NUL then rc == Fail
      else rc == NoMatch
  {
    assert !IsPrint(NUL);
    hide IsPrint;
    assert p[i..][1..] == p[i + 1..] && (j < |s| ==> s[j..][1..] == s[j + 1..]);
  }

  lemma SetStep(p: string, s: string, i: nat, j: nat)
    requires NulFree(p) && NulFree(s) && i < |p| && j <= |s| + 1 && p[i] == '['
    ensures var rc := From(p, i, s, j);
      match ScanSet(SCAN_START, p[i + 1..])
      case Bad => rc == Fail
      case SetHang => rc == Hang
      case SetOverrun => rc == Overrun
      case Ok(cs, rest) =>
        if j > |s| then rc == Overrun
        else if !InSet(cs, At(s, j)) then rc == NoMatch
        else rc == if j == |s| then Past(rest[1..]) else Loop(rest[1..], s[j + 1..])
  {
    hide ScanSet, InSet;
    assert p[i..][1..] == p[i + 1..] && (j < |s| ==> s[j..][1..] == s[j + 1..]);
  }

  /** What the verdict on a set means for the search. */
  lemma SetVerdict(p: string, s: string, i: nat, j: nat, ok: bool, k: nat, cs: CharSet)
    requires NulFree(p) && NulFree(s) && i < |p| && j <= |s| + 1 && p[i] == '['
    requires var text := p[i + 1..];
      if ok then k < |text| && ScanSet(SCAN_START, text) == Ok(cs, text[k..]) else ScanSet(SCAN_START, text) == Bad
    ensures var rc := From(p, i, s, j);
      if !ok then rc == Fail
      else if j > |s| then rc == Overrun
      else if !InSet(cs, At(s, j)) then rc == NoMatch
      else i + k + 2 <= |p| && rc == From(p, i + k + 2, s, j + 1)
  {
    SetStep(p, s, i, j);
    hide Loop, Past, ScanSet, InSet;
    if ok { assert p[i + 1..][k..][1..] == p[i + k + 2..]; }
  }

  /** A search that comes back scans only sets whose scan comes back. */
  lemma SetScans(p: string, s: string, i: nat, j: nat)
    requires NulFree(p) && NulFree(s) && i < |p| && j <= |s| + 1 && p[i] == '[' && ComesBackFrom(p, i, s, j)
    ensures !GlobScan.Hangs(p[i + 1..]) && !GlobScan.Strays(p[i + 1..])
  {
    ReturnsFrom(p, i, s, j);
    SetStep(p, s, i, j);
    hide From, ScanSet, InSet, ComesBackFrom;
    GlobScan.HangsExactly(p[i + 1..]);
    GlobScan.StraysExactly(p[i + 1..]);
    hide GlobScan.Hangs, GlobScan.Strays;
  }

  /** A set against the next character; `Match` says that the search goes on behind it. */
  method CompareSet(p: string, s: string, i: nat, j: nat) returns (rc: Rc, i': nat)
    requires NulFree(p) && NulFree(s) && i < |p| && j <= |s| + 1 && p[i] == '[' && ComesBackFrom(p, i, s, j)
    ensures rc == Match ==> i < i' <= |p| && j <= |s|
    ensures From(p, i, s, j) == if rc == Match then From(p, i', s, j + 1) else rc
  {
    hide From, ScanSet, InSet, ComesBackFrom, GlobScan.Hangs, GlobScan.Strays;
    SetScans(p, s, i, j);
    ReturnsFrom(p, i, s, j);
    var ok, k, cs := SetCharset(p[i + 1..]);
    SetVerdict(p, s, i, j, ok, k, cs);
    if !ok { return Fail, i; }
    if !InSet(cs, Peek(s, j)) { return NoMatch, i; }
    return Match, i + k + 2;
  }

  /** An element that stands for one character; `Match` says that the search goes on behind it. */
  method CompareOne(p: string, s: string, i: nat, j: nat) returns (rc: Rc, i': nat, j': nat)
    requires NulFree(p) && NulFree(s) && i < |p| && j <= |s| + 1 && p[i] != '*' && p[i] != '\\'
    requires ComesBackFrom(p, i, s, j)
    ensures rc == Match ==> i < i' <= |p| && j' <= |s| + 1
    ensures From(p, i, s, j) == if rc == Match then From(p, i', s, j') else rc
  {
    hide Loop, Past, IsPrint, ComesBackFrom, ScanSet;
    rc, i', j' := Match, i + 1, j + 1;
    if p[i] == '[' {
      rc, i' := CompareSet(p, s, i, j);
    } else {
      InFront(p, i, s, j);
      PlainStep(p, s, i, j);
      var d := Peek(s, j);
      if p[i] == '?' {
        if !IsPrint(d) { rc := if d == NUL then NoMatch else Fail; }
      } else if p[i] != d {
        rc := NoMatch;
      }
    }
  }

  /** A search that comes back is behind the terminator only at an escape or at a set. */
  lemma InFront(p: string, i: nat, s: string, j: nat)
    requires NulFree(p) && NulFree(s) && i <= |p| && j <= |s| + 1 && ComesBackFrom(p, i, s, j)
    requires At(p, i) != '\\' && At(p, i) != '['
    ensures j <= |s|
  {
    ReturnsFrom(p, i, s, j);
    hide Loop, ComesBackFrom, Past, ScanSet, IsPrint;
    if j > |s| { PastStep(p, i); }
  }

  /** The loop over repeated stars. */
  method LastStar(p: string, s: string, i: nat, j: nat) returns (i': nat)
    requires NulFree(p) && i < |p| && j <= |s| && p[i] == '*'
    ensures i <= i' < |p| && p[i'] == '*' && At(p, i' + 1) != '*'
    ensures Loop(p[i'..], s[j..]) == Loop(p[i..], s[j..])
  {
    hide Loop;
    i' := i;
    while At(p, i' + 1) == '*'
      invariant i <= i' < |p| && p[i'] == '*' && Loop(p[i'..], s[j..]) == Loop(p[i..], s[j..])
      decreases |p| - i'
    {
      OneStarLess(p[i'..], s[j..]);
      assert p[i'..][1..] == p[i' + 1..];
      i' := i' + 1;
    }
  }

  /** A search at its last star: it is over, or it goes on behind the star, and then behind the next character. */
  lemma StarAt(p: string, s: string, i: nat, j: nat)
    requires NulFree(p) && NulFree(s) && i < |p| && j <= |s| && p[i] == '*' && At(p, i + 1) != '*'
    ensures var rc := Loop(p[i..], s[j..]);
      if j == |s| && i + 1 == |p| then rc == Match
      else
        var now := Loop(p[i + 1..], s[j..]);
        rc == (if now == Match || Gone(now) then now else if j == |s| then NoMatch else Loop(p[i..], s[j + 1..]))
  {
    assert p[i..][1..] == p[i + 1..] && (j < |s| ==> s[j..][1..] == s[j + 1..]);
    StarStep(p[i..], s[j..]);
    hide Loop;
  }

  lemma AtEnd(s: string, j: nat)
    requires NulFree(s) && j <= |s|
    ensures At(s, j) == NUL <==> j == |s|
  {
  }

  /** The character behind a backslash; `Match` says that the search goes on behind it. */
  method CompareEscaped(p: string, s: string, i: nat, j: nat) returns (rc: Rc)
    requires NulFree(p) && NulFree(s) && 0 < i <= |p| && j <= |s| + 1 && p[i - 1] == '\\'
    requires ComesBackFrom(p, i - 1, s, j)
    ensures rc == Match ==> i < |p| && j < |s|
    ensures From(p, i - 1, s, j) == if rc == Match then From(p, i + 1, s, j + 1) else rc
  {
    hide Loop, Past, IsPrint, ComesBackFrom, ScanSet;
    ReturnsFrom(p, i - 1, s, j);
    if j <= |s| { EscapeStep(p, s, i - 1, j); } else { PastStep(p, i - 1); }
    var c := Peek(p, i);
    if !IsPrint(c) { return Fail; }
    return if c != Peek(s, j) then NoMatch else Match;
  }

  /** `loop`, as far as it comes back: the search with its recursion at every star. */
  method Search(p: string, s: string) returns (rc: Rc)
    requires NulFree(p) && NulFree(s) && ComesBack(p, s)
    ensures rc == Loop(p, s)
    decreases |p|, |s|
  {
    hide Loop, Past, ScanSet, InSet, IsPrint, ComesBack, ComesBackFrom;
    ReturnsExactly(p, s);
    var i: nat, j: nat, escaped := 0, 0, false;
    assert p[0..] == p && s[0..] == s;
    while true
      invariant i <= |p| && j <= |s| + 1 && (escaped ==> i > 0 && p[i - 1] == '\\')
      invariant From(p, if escaped then i - 1 else i, s, j) == Loop(p, s)
      decreases |p| - i, |s| + 1 - j
    {
      ReturnsFrom(p, if escaped then i - 1 else i, s, j);
      if escaped {
        rc := CompareEscaped(p, s, i, j);
        if rc != Match { return; }
        i, j, escaped := i + 1, j + 1, false;
      } else if Peek(p, i) == '*' {
        InFront(p, i, s, j);
        i := LastStar(p, s, i, j);
        StarAt(p, s, i, j);
        AtEnd(p, i + 1);
        AtEnd(s, j);
        if Peek(s, j) == NUL && Peek(p, i + 1) == NUL { return Match; }
        ReturnsExactly(p[i + 1..], s[j..]);
        rc := Search(p[i + 1..], s[j..]);
        if rc == Match { return; }
        if Peek(s, j) == NUL { return NoMatch; }
        j := j + 1;
      } else if Peek(p, i) == NUL {
        InFront(p, i, s, j);
        AtEnd(p, i);
        AtEnd(s, j);
        EndStep(s[j..]);
        assert p[i..] == "";
        return if Peek(s, j) == NUL then Match else NoMatch;
      } else if Peek(p, i) == '\\' {
        i, escaped := i + 1, true;
      } else {
        rc, i, j := CompareOne(p, s, i, j);
        if rc != Match { return; }
      }
    }
  }

  /** `Curl_fnmatch`: a missing pattern or string fails; a call that comes back says MATCH exactly
      when the pattern is well formed and the string can be cut as it says. */
  method Fnmatch(pattern: Option<string>, text: Option<string>) returns (rc: Rc)
    requires pattern.Some? ==> NulFree(pattern.value)
    requires text.Some? ==> NulFree(text.value)
    requires pattern.Some? && text.Some? ==> ComesBack(pattern.value, text.value)
    ensures rc in {Match, NoMatch, Fail} && (pattern.None? || text.None? ==> rc == Fail)
    ensures pattern.Some? && text.Some? ==> (rc == Match <==> Accepts(Compile(pattern.value), text.value))
  {
    if pattern.None? || text.None? { return Fail; }
    ReturnsExactly(pattern.value, text.value);
    MatchExact(pattern.value, text.value);
    hide ComesBack, Accepts, Loop, Compile;
    rc := Search(pattern.value, text.value);
  }
}
