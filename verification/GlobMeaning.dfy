/** The search of `loop` finds exactly the declarative matches, and where it leaves its buffers. */
module GlobMeaning {
  import opened CTypes
  import opened JsonValue
  import opened Sequences
  import opened Glob

  // ----- unfolding the declarative relation

  lemma NothingMatches(s: string)
    ensures Matches([], s) <==> s == ""
  {
    if s == "" { assert SplitsInto([], [], s); }
  }

  lemma TakeFirst(es: seq<Elem>, s: string)
    requires es != [] && Matches(es, s)
    ensures exists k :: 0 <= k <= |s| && Spells(es[0], s[..k]) && Matches(es[1..], s[k..])
  {
    var parts :| SplitsInto(es, parts, s);
    var k := |parts[0]|;
    assert s[..k] == parts[0] && s[k..] == Concat(parts[1..]);
    assert SplitsInto(es[1..], parts[1..], s[k..]);
  }

  lemma PutFirst(es: seq<Elem>, s: string, k: nat)
    requires es != [] && k <= |s| && Spells(es[0], s[..k]) && Matches(es[1..], s[k..])
    ensures Matches(es, s)
  {
    var parts :| SplitsInto(es[1..], parts, s[k..]);
    var all := [s[..k]] + parts;
    assert all[1..] == parts && s[..k] + s[k..] == s;
    forall i | 0 <= i < |es| ensures Spells(es[i], all[i]) {
      if i > 0 { assert es[i] == es[1..][i - 1]; }
    }
    assert SplitsInto(es, all, s);
  }

  /** Any element but a star stands for one character. */
  predicate Fits(e: Elem, s: string) {
    !e.Any? && s != "" && Spells(e, [s[0]])
  }

  lemma MatchesOne(es: seq<Elem>, s: string)
    requires es != [] && !es[0].Any?
    ensures Matches(es, s) <==> Fits(es[0], s) && Matches(es[1..], s[1..])
  {
    if Matches(es, s) {
      TakeFirst(es, s);
      var k :| 0 <= k <= |s| && Spells(es[0], s[..k]) && Matches(es[1..], s[k..]);
      assert k == 1 && s[..k] == [s[0]];
    }
    if Fits(es[0], s) && Matches(es[1..], s[1..]) {
      assert s[..1] == [s[0]];
      PutFirst(es, s, 1);
    }
  }

  /** A star stands for nothing, or eats one character and stays. */
  lemma MatchesAny(es: seq<Elem>, s: string)
    requires es != [] && es[0].Any?
    ensures Matches(es, s) <==> Matches(es[1..], s) || (s != "" && Matches(es, s[1..]))
  {
    if Matches(es, s) {
      TakeFirst(es, s);
      var k :| 0 <= k <= |s| && Spells(es[0], s[..k]) && Matches(es[1..], s[k..]);
      if k == 0 {
        assert s[0..] == s;
      } else {
        assert s[1..][k - 1..] == s[k..];
        PutFirst(es, s[1..], k - 1);
      }
    }
    if Matches(es[1..], s) {
      assert s[0..] == s;
      PutFirst(es, s, 0);
    }
    if s != "" && Matches(es, s[1..]) {
      TakeFirst(es, s[1..]);
      var k :| 0 <= k <= |s[1..]| && Spells(es[0], s[1..][..k]) && Matches(es[1..], s[1..][k..]);
      assert s[k + 1..] == s[1..][k..];
      PutFirst(es, s, k + 1);
    }
  }

  // ----- the same for a stranded search

  function Tail(pat: Pattern): Pattern
    requires pat.es != []
  {
    pat.(es := pat.es[1..])
  }

  lemma StrandedStep(pat: Pattern, i: nat)
    requires 0 < i < |pat.es|
    ensures var es := pat.es;
      es[..i][0] == es[0] && es[..i][1..] == es[1..][..i - 1] && es[i] == es[1..][i - 1]
    ensures LooksBehind(Tail(pat), i - 1) <==> LooksBehind(pat, i)
  {
  }

  lemma StrandedOne(pat: Pattern, s: string)
    requires pat.es != [] && !pat.es[0].Any?
    ensures Stranded(pat, s) <==>
      || (s == "" && Negated(pat.es[0]) && LooksBehind(pat, 0))
      || (Fits(pat.es[0], s) && Stranded(Tail(pat), s[1..]))
  {
    var es := pat.es;
    if Stranded(pat, s) {
      var i :| 0 <= i < |es| && Negated(es[i]) && LooksBehind(pat, i) && Matches(es[..i], s);
      if i == 0 {
        assert es[..0] == [];
        NothingMatches(s);
      } else {
        StrandedStep(pat, i);
        MatchesOne(es[..i], s);
      }
    }
    if s == "" && Negated(es[0]) && LooksBehind(pat, 0) {
      NothingMatches(s);
      assert es[..0] == [];
    }
    if Fits(es[0], s) && Stranded(Tail(pat), s[1..]) {
      var i :| 0 <= i < |es[1..]| && Negated(es[1..][i]) && LooksBehind(Tail(pat), i) && Matches(es[1..][..i], s[1..]);
      StrandedStep(pat, i + 1);
      MatchesOne(es[..i + 1], s);
      assert Negated(es[i + 1]) && LooksBehind(pat, i + 1) && Matches(es[..i + 1], s);
    }
  }

  lemma StrandedAny(pat: Pattern, s: string)
    requires pat.es != [] && pat.es[0].Any?
    ensures Stranded(pat, s) <==> Stranded(Tail(pat), s) || (s != "" && Stranded(pat, s[1..]))
  {
    var es := pat.es;
    if Stranded(pat, s) {
      var i :| 0 <= i < |es| && Negated(es[i]) && LooksBehind(pat, i) && Matches(es[..i], s);
      StrandedStep(pat, i);
      MatchesAny(es[..i], s);
    }
    if Stranded(Tail(pat), s) {
      var i :| 0 <= i < |es[1..]| && Negated(es[1..][i]) && LooksBehind(Tail(pat), i) && Matches(es[1..][..i], s);
      StrandedStep(pat, i + 1);
      MatchesAny(es[..i + 1], s);
      assert Negated(es[i + 1]) && LooksBehind(pat, i + 1) && Matches(es[..i + 1], s);
    }
    if s != "" && Stranded(pat, s[1..]) {
      var i :| 0 <= i < |es| && Negated(es[i]) && LooksBehind(pat, i) && Matches(es[..i], s[1..]);
      StrandedStep(pat, i);
      MatchesAny(es[..i], s);
    }
  }

  // ----- and for a search that comes to the end of the elements

  lemma ReachesOne(es: seq<Elem>, s: string)
    requires es != [] && !es[0].Any?
    ensures Reaches(es, s) <==> Fits(es[0], s) && Reaches(es[1..], s[1..])
  {
    if Reaches(es, s) {
      var k :| 0 <= k <= |s| && Matches(es, s[..k]);
      MatchesOne(es, s[..k]);
      assert s[..k][0] == s[0] && s[..k][1..] == s[1..][..k - 1];
    }
    if Fits(es[0], s) && Reaches(es[1..], s[1..]) {
      var k :| 0 <= k <= |s[1..]| && Matches(es[1..], s[1..][..k]);
      assert s[..k + 1][0] == s[0] && s[..k + 1][1..] == s[1..][..k];
      MatchesOne(es, s[..k + 1]);
    }
  }

  lemma ReachesAny(es: seq<Elem>, s: string)
    requires es != [] && es[0].Any?
    ensures Reaches(es, s) <==> Reaches(es[1..], s) || (s != "" && Reaches(es, s[1..]))
  {
    if Reaches(es, s) {
      var k :| 0 <= k <= |s| && Matches(es, s[..k]);
      MatchesAny(es, s[..k]);
      if k > 0 { assert s[..k][1..] == s[1..][..k - 1]; }
    }
    if Reaches(es[1..], s) {
      var k :| 0 <= k <= |s| && Matches(es[1..], s[..k]);
      MatchesAny(es, s[..k]);
    }
    if s != "" && Reaches(es, s[1..]) {
      var k :| 0 <= k <= |s[1..]| && Matches(es, s[1..][..k]);
      assert s[..k + 1][1..] == s[1..][..k];
      MatchesAny(es, s[..k + 1]);
    }
  }

  lemma LosesOne(pat: Pattern, s: string)
    requires pat.es != [] && !pat.es[0].Any?
    ensures Loses(pat, s) <==>
      || (s == "" && Negated(pat.es[0]) && LooksBehind(pat, 0))
      || (Fits(pat.es[0], s) && Loses(Tail(pat), s[1..]))
  {
    StrandedOne(pat, s);
    ReachesOne(pat.es, s);
  }

  lemma LosesAny(pat: Pattern, s: string)
    requires pat.es != [] && pat.es[0].Any?
    ensures Loses(pat, s) <==> Loses(Tail(pat), s) || (s != "" && Loses(pat, s[1..]))
  {
    StrandedAny(pat, s);
    ReachesAny(pat.es, s);
  }

  // ----- a set never contains the terminator

  ghost predicate NoTerminator(z: Scan) {
    NUL !in z.cs.chars && (z.state in {MayRange, MayRange2} ==> z.rangeStart != NUL)
  }

  lemma TurnKeepsNoTerminator(z: Scan, p: string)
    requires NulFree(p) && NoTerminator(z)
    ensures SetTurn(z, p).Go? ==> NoTerminator(SetTurn(z, p).z)
    ensures SetTurn(z, p).Return? && SetTurn(z, p).r.Ok? ==> NUL !in SetTurn(z, p).r.cs.chars
  {
  }

  lemma {:induction false} SetHasNoTerminator(z: Scan, p: string)
    requires NulFree(p) && NoTerminator(z)
    ensures ScanSet(z, p).Ok? ==> NUL !in ScanSet(z, p).cs.chars
    decreases |p|, if z.state == MayRange then 1 else 0
  {
    TurnKeepsNoTerminator(z, p);
    match SetTurn(z, p)
    case Go(z', skip) => SetHasNoTerminator(z', p[skip..]);
    case Return(_) =>
  }

  lemma {:induction false} ClassHasNoTerminator(classes: set<Class>, asked: seq<Class>)
    ensures var k := FirstAsked(classes, asked); k.Some? ==> !InClass(k.value, NUL)
  {
    if asked != [] { ClassHasNoTerminator(classes, asked[1..]); }
  }

  /** At the end of the string only a negated set lets the search go on. */
  lemma TerminatorInSet(p: string)
    requires NulFree(p) && ScanSet(SCAN_START, p).Ok?
    ensures var cs := ScanSet(SCAN_START, p).cs; InSet(cs, NUL) <==> cs.negate
  {
    SetHasNoTerminator(SCAN_START, p);
    ClassHasNoTerminator(ScanSet(SCAN_START, p).cs.classes, ASKED);
  }

  // ----- repeated stars

  /** A pattern that starts with stars means what it means with one. */
  lemma {:induction false} StarsCollapse(p: string, s: string)
    requires NulFree(p) && p != "" && p[0] == '*'
    ensures var one := Then(Any, Compile(SkipStars(p[1..])));
      && Compile(p).end == one.end
      && (Matches(Compile(p).es, s) <==> Matches(one.es, s))
      && (Loses(Compile(p), s) <==> Loses(one, s))
    decreases |p|, |s|
  {
    var one := Then(Any, Compile(SkipStars(p[1..])));
    if p[1..] != "" && p[1] == '*' {
      assert p[1..][0] == '*' && p[1..][1..] == p[2..];
      assert SkipStars(p[1..]) == SkipStars(p[1..][1..]);
      StarsCollapse(p[1..], s);
      var pat := Compile(p);
      assert Tail(pat) == Compile(p[1..]);
      MatchesAny(pat.es, s);
      LosesAny(pat, s);
      MatchesAny(one.es, s);
      LosesAny(one, s);
      if s != "" { StarsCollapse(p, s[1..]); }
    } else {
      assert SkipStars(p[1..]) == p[1..];
    }
  }

  // ----- the theorem

  predicate Gone(rc: Rc) {
    rc == Hang || rc == Overrun
  }

  /** What the search gives for a pattern. The last clause is what backtracking needs. */
  ghost predicate Answers(rc: Rc, pat: Pattern, s: string) {
    && (rc == Match <==> Accepts(pat, s))
    && (Gone(rc) <==> !Accepts(pat, s) && Loses(pat, s))
    && (rc == Hang ==> pat.end == Hanging)
    && (Gone(rc) ==> forall k :: 0 <= k <= |s| ==> !Accepts(pat, s[k..]))
  }

  /** What `Past` gives for the rest of a pattern. */
  function PastEnd(pat: Pattern): Rc {
    if pat.es != [] then Overrun
    else
      match pat.end
      case Malformed => Fail
      case Hanging => Hang
      case _ => Overrun
  }

  lemma PastIs(p: string)
    requires NulFree(p)
    ensures Past(p) == PastEnd(Compile(p))
  {
    hide ScanSet, IsPrint;
  }

  /** One element that is no star has been compared. */
  lemma AnswerOne(rc: Rc, pat: Pattern, s: string)
    requires pat.es != [] && !pat.es[0].Any?
    requires Fits(pat.es[0], s) ==> Answers(rc, Tail(pat), s[1..])
    requires !Fits(pat.es[0], s) && s == "" && Negated(pat.es[0]) ==> rc == PastEnd(Tail(pat))
    requires !Fits(pat.es[0], s) && !(s == "" && Negated(pat.es[0])) ==> rc in {NoMatch, Fail}
    ensures Answers(rc, pat, s)
  {
    MatchesOne(pat.es, s);
    LosesOne(pat, s);
    hide Loses, Matches;
    if Gone(rc) {
      forall k | 0 <= k <= |s| ensures !Accepts(pat, s[k..]) {
        MatchesOne(pat.es, s[k..]);
        if k < |s| { assert s[k..][1..] == s[1..][k..]; }
      }
    }
  }

  /** The search behind a star: first with nothing eaten, then with one character less. */
  lemma AnswerAny(rc: Rc, now: Rc, later: Rc, pat: Pattern, s: string)
    requires pat.es != [] && pat.es[0].Any?
    requires Answers(now, Tail(pat), s)
    requires s != "" ==> Answers(later, pat, s[1..])
    requires rc == if now in {Match, Hang, Overrun} then now else if s == "" then NoMatch else later
    ensures Answers(rc, pat, s)
  {
    MatchesAny(pat.es, s);
    LosesAny(pat, s);
    hide Loses, Matches;
    if Gone(now) {
      forall k | 0 <= k <= |s| ensures !Accepts(pat, s[k..]) { NoLaterMatch(pat, s, k); }
      assert s[0..] == s;
    } else if Gone(rc) {
      forall k | 0 <= k <= |s| ensures !Accepts(pat, s[k..]) {
        if k == 0 { assert s[0..] == s; } else { assert s[k..] == s[1..][k - 1..]; }
      }
    }
  }

  lemma {:induction false} NoLaterMatch(pat: Pattern, s: string, k: nat)
    requires pat.es != [] && pat.es[0].Any? && k <= |s|
    requires forall j :: 0 <= j <= |s| ==> !Accepts(Tail(pat), s[j..])
    ensures !Accepts(pat, s[k..])
    decreases |s| - k
  {
    MatchesAny(pat.es, s[k..]);
    hide Matches;
    if k < |s| {
      NoLaterMatch(pat, s, k + 1);
      assert s[k..][1..] == s[k + 1..];
    }
  }

  /** No element can be read any more. */
  lemma AnswerEnd(rc: Rc, pat: Pattern, s: string)
    requires pat.es == []
    requires match pat.end
      case Done => rc == if s == "" then Match else NoMatch
      case Malformed => rc == Fail
      case Hanging => rc == Hang
      case Straying => rc == Overrun
    ensures Answers(rc, pat, s)
  {
    NothingMatches(s);
    NothingMatches(s[..0]);
  }

  lemma {:induction false} LoopAnswers(p: string, s: string)
    requires NulFree(p) && NulFree(s)
    ensures Answers(Loop(p, s), Compile(p), s)
    decreases |p|, |s|
  {
    hide ScanSet, InSet, IsPrint, Answers;
    var pat := Compile(p);
    if pat.es == [] {
      NoElements(p);
      AnswerEnd(Loop(p, s), pat, s);
    } else if p[0] == '*' {
      StarAnswers(p, s);
    } else {
      var rest := Behind(p);
      FirstElement(p, s);
      if Fits(pat.es[0], s) {
        LoopAnswers(rest, s[1..]);
      }
      PastIs(rest);
      AnswerOne(Loop(p, s), pat, s);
    }
  }

  lemma NoElements(p: string)
    requires NulFree(p) && Compile(p).es == []
    ensures p == "" ==> Compile(p).end == Done
    ensures p != "" ==> (p[0] == '\\' && !IsPrint(At(p, 1))) || (p[0] == '[' && !ScanSet(SCAN_START, p[1..]).Ok?)
  {
    hide ScanSet, IsPrint;
  }

  /** The pattern behind its first element. */
  function Behind(p: string): (r: string)
    requires NulFree(p) && Compile(p).es != []
    ensures |r| < |p| && NulFree(r)
  {
    if p[0] == '\\' then p[2..]
    else if p[0] == '[' then ScanSet(SCAN_START, p[1..]).rest[1..]
    else p[1..]
  }

  /** One turn of `loop` at an element that is no star. */
  lemma FirstElement(p: string, s: string)
    requires NulFree(p) && NulFree(s) && Compile(p).es != [] && p[0] != '*'
    ensures var e, rc := Compile(p).es[0], Loop(p, s);
      && !e.Any? && Tail(Compile(p)) == Compile(Behind(p))
      && (Fits(e, s) ==> rc == Loop(Behind(p), s[1..]))
      && (!Fits(e, s) && s == "" && Negated(e) ==> rc == Past(Behind(p)))
      && (!Fits(e, s) && !(s == "" && Negated(e)) ==> rc in {NoMatch, Fail})
  {
    if p[0] == '[' { TerminatorInSet(p[1..]); }
    assert !IsPrint(NUL);
    hide ScanSet, InSet, IsPrint, Past;
  }

  lemma {:induction false} StarAnswers(p: string, s: string)
    requires NulFree(p) && NulFree(s) && p != "" && p[0] == '*'
    ensures Answers(Loop(p, s), Compile(p), s)
    decreases |p|, |s|, 0
  {
    var rest := SkipStars(p[1..]);
    var one := Then(Any, Compile(rest));
    assert Tail(one) == Compile(rest);
    SameAnswers(p, s);
    LoopAnswers(rest, s);
    if s != "" {
      LoopAnswers(p, s[1..]);
      SameAnswers(p, s[1..]);
    }
    StarTurn(p, s);
    hide Answers;
    AnswerAny(Loop(p, s), Loop(rest, s), if s == "" then NoMatch else Loop(p, s[1..]), one, s);
  }

  lemma StarTurn(p: string, s: string)
    requires NulFree(p) && p != "" && p[0] == '*'
    ensures var now := Loop(SkipStars(p[1..]), s);
      Loop(p, s) == if now in {Match, Hang, Overrun} then now else if s == "" then NoMatch else Loop(p, s[1..])
  {
  }

  /** Whether a pattern begins with one star or with several, the answer is the same. */
  lemma SameAnswers(p: string, s: string)
    requires NulFree(p) && p != "" && p[0] == '*'
    ensures forall rc :: Answers(rc, Compile(p), s) <==> Answers(rc, Then(Any, Compile(SkipStars(p[1..]))), s)
  {
    StarsCollapse(p, s);
    forall k | 0 <= k <= |s|
      ensures Accepts(Compile(p), s[k..]) <==> Accepts(Then(Any, Compile(SkipStars(p[1..]))), s[k..])
    {
      StarsCollapse(p, s[k..]);
    }
    hide Matches, Loses, Compile, SkipStars;
  }

  /** For every pattern and string the matcher answers MATCH exactly when the pattern is well formed and the
      relation holds. */
  lemma MatchExact(p: string, s: string)
    requires NulFree(p) && NulFree(s)
    ensures Loop(p, s) == Match <==> Accepts(Compile(p), s)
  {
    LoopAnswers(p, s);
  }

  /** For every pattern and string the matcher hangs or reads out of bounds exactly when there is no match
      and some way of matching uses the string up in front of a negated set behind which nothing refuses
      the pattern at once, or comes to a set whose scan hangs or leaves the pattern. It hangs only at a
      set whose scan hangs. */
  lemma GoneExactly(p: string, s: string)
    requires NulFree(p) && NulFree(s)
    ensures Loop(p, s) in {Hang, Overrun} <==> !Accepts(Compile(p), s) && Loses(Compile(p), s)
    ensures Loop(p, s) == Hang ==> Compile(p).end == Hanging
  {
    LoopAnswers(p, s);
  }

  /** A well-formed pattern never hangs, and reads behind the string exactly when there is no match and
      some way of matching has used the string up in front of a negated set. */
  lemma OverrunExact(p: string, s: string)
    requires NulFree(p) && NulFree(s) && Compile(p).end == Done
    ensures Loop(p, s) == Overrun <==> !Matches(Compile(p).es, s) && Stranded(Compile(p), s)
    ensures Loop(p, s) != Hang
  {
    LoopAnswers(p, s);
  }

  /** Without negated sets, and without a set whose scan is lost, the matcher comes back with one of its three
      return codes. */
  lemma SafeWithoutNegation(p: string, s: string)
    requires NulFree(p) && NulFree(s) && Compile(p).end in {Done, Malformed}
    requires forall i :: 0 <= i < |Compile(p).es| ==> !Negated(Compile(p).es[i])
    ensures Loop(p, s) in {Match, NoMatch, Fail}
  {
    LoopAnswers(p, s);
  }

  /** A pattern with a bad escape or set matches nothing. */
  lemma MalformedNeverMatches(p: string, s: string)
    requires NulFree(p) && NulFree(s) && Compile(p).end != Done
    ensures Loop(p, s) != Match
  {
    LoopAnswers(p, s);
  }

  // ----- patterns without sets, without the compiler of patterns

  predicate Ordinary(p: string) {
    forall i :: 0 <= i < |p| ==> p[i] !in {'*', '?', '[', '\\', NUL}
  }

  /** Ordinary characters stand for themselves. */
  lemma {:induction false} OrdinaryMatches(p: string, s: string)
    requires Ordinary(p) && NulFree(s)
    ensures NulFree(p) && Loop(p, s) == if s == p then Match else NoMatch
    decreases |p|
  {
    hide ScanSet;
    if p != "" && s != "" {
      assert p == [p[0]] + p[1..] && s == [s[0]] + s[1..];
      if p[0] == s[0] { OrdinaryMatches(p[1..], s[1..]); }
    }
  }

  /** A question mark stands for one character whose code is printable in ASCII. */
  lemma QuestionMatches(c: char)
    requires c != NUL
    ensures Loop("?", [c]) == if 32 <= c as int <= 126 then Match else Fail
  {
    assert "?"[1..] == "" && [c][1..] == "" && Loop("", "") == Match;
    hide ScanSet;
  }

  /** A star between ordinary characters: what stands in front of it and behind it are the ends of the string,
      and they do not overlap. */
  lemma {:induction false} StarMatches(a: string, b: string, s: string)
    requires Ordinary(a) && Ordinary(b) && NulFree(s)
    ensures NulFree(a + ("*" + b))
    ensures Loop(a + ("*" + b), s) ==
      if |a| + |b| <= |s| && a <= s && s[|s| - |b|..] == b then Match else NoMatch
    decreases |a|
  {
    var p := a + ("*" + b);
    assert p[0] == if a == "" then '*' else a[0];
    if a == "" {
      assert p == "*" + b;
      StarInFront(b, s);
    } else if s != "" && a[0] == s[0] {
      assert p[1..] == a[1..] + ("*" + b);
      StarMatches(a[1..], b, s[1..]);
      assert a == [a[0]] + a[1..] && s == [s[0]] + s[1..];
      if |a| + |b| <= |s| { assert s[1..][|s| - 1 - |b|..] == s[|s| - |b|..]; }
    }
    hide ScanSet;
  }

  lemma {:induction false} StarInFront(b: string, s: string)
    requires Ordinary(b) && NulFree(s)
    ensures NulFree("*" + b) && Loop("*" + b, s) == if |b| <= |s| && s[|s| - |b|..] == b then Match else NoMatch
    decreases |s|
  {
    hide ScanSet;
    var p := "*" + b;
    assert p[1..] == b && SkipStars(b) == b;
    OrdinaryMatches(b, s);
    if |b| <= |s| { assert |b| == |s| ==> s[0..] == s; }
    if s != "" {
      StarInFront(b, s[1..]);
      if |b| < |s| { assert s[1..][|s| - 1 - |b|..] == s[|s| - |b|..]; }
    }
  }
}
