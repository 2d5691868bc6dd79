/** The glob matcher `curl_fnmatch`, and what it means for a pattern to match. */
module Glob {
  import opened CTypes
  import opened JsonValue
  import opened Sequences

  // ----- bracket sets

  datatype Class = Alnum | Alpha | Digit | XDigit | Print | Space | Upper | Lower | Blank | Graph

  predicate InClass(k: Class, c: char) {
    match k
    case Alnum => IsAlnum(c)
    case Alpha => IsAlpha(c)
    case Digit => IsDigit(c)
    case XDigit => IsXDigit(c)
    case Print => IsPrint(c)
    case Space => IsSpace(c)
    case Upper => IsUpper(c)
    case Lower => IsLower(c)
    case Blank => IsBlank(c)
    case Graph => IsGraph(c)
  }

  /** The charset array: the marked characters, the marked classes and the negation mark. */
  datatype CharSet = CharSet(chars: set<char>, classes: set<Class>, negate: bool)

  const NOTHING := CharSet({}, {}, false)

  /** The order in which `loop` asks for the classes; it looks at the first marked one only. */
  const ASKED: seq<Class> := [Alnum, Alpha, Digit, XDigit, Print, Space, Upper, Lower, Blank, Graph]

  function FirstAsked(classes: set<Class>, asked: seq<Class>): Option<Class> {
    if asked == [] then None
    else if asked[0] in classes then Some(asked[0])
    else FirstAsked(classes, asked[1..])
  }

  predicate InFirstAsked(classes: set<Class>, c: char) {
    match FirstAsked(classes, ASKED) case Some(k) => InClass(k, c) case None => false
  }

  /** What `loop` finds for a character, before the negation. */
  predicate Found(cs: CharSet, c: char) {
    c in cs.chars || InFirstAsked(cs.classes, c)
  }

  /** `parsekeyword`: the text behind `[:`; at most ten characters before the closing `]`. */
  function Keyword(p: string): Option<(Class, string)> {
    var n := LowerRun(p, 8);
    if At(p, n) == ':' && At(p, n + 1) == ']' then
      match ClassOf(p[..n])
      case Some(k) => Some((k, p[n + 2..]))
      case None => None
    else None
  }

  function LowerRun(p: string, max: nat): (n: nat)
    ensures n <= |p|
  {
    if max > 0 && p != "" && IsLower(p[0]) then 1 + LowerRun(p[1..], max - 1) else 0
  }

  function ClassOf(name: string): Option<Class> {
    if name == "digit" then Some(Digit)
    else if name == "alnum" then Some(Alnum)
    else if name == "alpha" then Some(Alpha)
    else if name == "xdigit" then Some(XDigit)
    else if name == "print" then Some(Print)
    else if name == "graph" then Some(Graph)
    else if name == "space" then Some(Space)
    else if name == "blank" then Some(Blank)
    else if name == "upper" then Some(Upper)
    else if name == "lower" then Some(Lower)
    else None
  }

  datatype ScanState = Default | MayRange | MayRange2 | RightBr | RightBrLeftBr

  /** `rest` begins with the closing bracket. `SetHang`: the loop goes round without moving. `SetOverrun`: it
      reads behind the terminator. */
  datatype SetResult = Ok(cs: CharSet, rest: string) | Bad | SetHang | SetOverrun

  datatype Scan = Scan(state: ScanState, rangeStart: char, found: bool, cs: CharSet)
  {
    function Mark(c: char): Scan {
      this.(cs := cs.(chars := cs.chars + {c}))
    }

    function To(s: ScanState): Scan {
      this.(state := s)
    }
  }

  const SCAN_START := Scan(Default, NUL, false, NOTHING)

  predicate SameKind(a: char, b: char) {
    (IsLower(a) && IsLower(b)) || (IsDigit(a) && IsDigit(b)) || (IsUpper(a) && IsUpper(b))
  }

  predicate Between(first: char, c: char, last: char) { first <= c <= last }

  function CharsUpTo(first: char, last: char): set<char> {
    set c: char | Between(first, c, last)
  }

  /** A range is complete: the provisional mark of `-` goes, whoever made it, and the variable that
      held the start has run two beyond the end. */
  function FillRange(z: Scan, last: char): Scan
    requires last <= 'z'
  {
    z.(state := Default, rangeStart := last + 2 as char,
       cs := z.cs.(chars := z.cs.chars - {'-'} + (CharsUpTo(z.rangeStart, last) - {z.rangeStart})))
  }

  /** What one turn of the loop of `setcharset` does: go on with `z` behind `skip` characters, or return. */
  datatype Turn = Go(z: Scan, skip: nat) | Return(r: SetResult)

  function InDefault(z: Scan, p: string): Turn {
    var c := At(p, 0);
    var seen := z.(found := true);
    if IsAlnum(c) then Go(seen.Mark(c).To(MayRange).(rangeStart := c), 1)
    else if c == ']' then if z.found then Return(Ok(z.cs, p)) else Go(seen.Mark(c).To(RightBr), 1)
    else if c == '[' && At(p, 1) == ':' then
      match Keyword(p[2..])
      case Some((k, rest)) => Go(seen.(cs := z.cs.(classes := z.cs.classes + {k})), |p| - |rest|)
      case None => Return(Bad)
    else if c == '^' || c == '!' then
      if z.found || z.cs.negate then Go(seen.Mark(c), 1) else Go(z.(cs := z.cs.(negate := true)), 1)
    else if c == '\\' then
      if IsPrint(At(p, 1)) then Go(seen.Mark(At(p, 1)).To(MayRange).(rangeStart := At(p, 1)), 2) else Return(Bad)
    else if c == NUL then Return(Bad)
    else Go(seen.Mark(c), 1)
  }

  function InMayRange(z: Scan, p: string): Turn {
    var c := At(p, 0);
    if c == '-' then Go(z.Mark(c).To(MayRange2), 1)
    else if c == '[' then Go(z.To(Default), 0)
    else if IsAlnum(c) then Go(z.Mark(c), 1)
    else if c == '\\' then if IsPrint(At(p, 1)) then Go(z.Mark(At(p, 1)), 2) else Return(Bad)
    else if c == ']' then Return(Ok(z.cs, p))
    else Return(Bad)
  }

  /** The end of a range: `c` is the character `skip` characters ahead. */
  function RangeEnd(z: Scan, p: string, c: char, skip: nat): Turn {
    if c >= z.rangeStart then
      if SameKind(c, z.rangeStart) then
        if skip + 1 > |p| then Return(SetOverrun) else Go(FillRange(z, c), skip + 1)
      else Return(Bad)
    else if z.state == MayRange2 then Return(SetHang)
    else Go(z, skip)
  }

  function InMayRange2(z: Scan, p: string): Turn {
    var escaped := At(p, 0) == '\\';
    var skip := if escaped then 1 else 0;
    var c := At(p, skip);
    if escaped && !IsPrint(c) then Return(Bad)
    else if c == ']' then Return(Ok(z.cs, p[skip..]))
    else if c == '\\' then
      if IsPrint(At(p, skip + 1)) then RangeEnd(z.Mark(At(p, skip + 1)).To(Default), p, At(p, skip + 1), skip + 2)
      else Return(Bad)
    else RangeEnd(z, p, c, skip)
  }

  function InRightBr(z: Scan, p: string): Turn {
    var c := At(p, 0);
    if z.state == RightBr then
      if c == '[' then Go(z.Mark(c).To(RightBrLeftBr), 1)
      else if c == ']' then Return(Ok(z.cs, p))
      else if IsPrint(c) then Go(z.Mark(c).To(Default), 1)
      else Return(Bad)
    else if c == ']' then Return(Ok(z.cs, p))
    else if c == NUL then Return(SetOverrun)
    else Go(z.Mark(c).To(Default), 1)
  }

  function SetTurn(z: Scan, p: string): (t: Turn)
    requires NulFree(p)
    ensures t.Go? ==> t.skip <= |p| && (t.skip == 0 ==> z.state == MayRange && t.z.state == Default)
    ensures t.Return? && t.r.Ok? ==>
      t.r.rest != "" && t.r.rest[0] == ']' && |t.r.rest| <= |p| && t.r.rest == p[|p| - |t.r.rest|..]
  {
    match z.state
    case Default => InDefault(z, p)
    case MayRange => InMayRange(z, p)
    case MayRange2 => InMayRange2(z, p)
    case _ => InRightBr(z, p)
  }

  /** All turns of `setcharset` on the text behind the opening bracket. */
  function ScanSet(z: Scan, p: string): (r: SetResult)
    requires NulFree(p)
    ensures r.Ok? ==> r.rest != "" && |r.rest| <= |p| && r.rest == p[|p| - |r.rest|..]
    decreases |p|, if z.state == MayRange then 1 else 0
  {
    match SetTurn(z, p)
    case Go(z', skip) => ScanSet(z', p[skip..])
    case Return(r) => r
  }

  // ----- the matcher

  /** `Hang` and `Overrun` are not return codes: they say that the call does not return, or reads behind a
      terminator. */
  datatype Rc = Match | NoMatch | Fail | Hang | Overrun

  function SkipStars(p: string): (r: string)
    ensures NulFree(p) ==> NulFree(r)
    ensures |r| <= |p|
  {
    if p != "" && p[0] == '*' then SkipStars(p[1..]) else p
  }

  /** `loop` with the string pointer behind the terminator: a bad escape and a refused set return before
      the next look at the string, and a scan that hangs comes before it. */
  function Past(p: string): Rc
    requires NulFree(p)
  {
    if At(p, 0) == '\\' && !IsPrint(At(p, 1)) then Fail
    else if At(p, 0) != '[' then Overrun
    else
      match ScanSet(SCAN_START, p[1..])
      case Bad => Fail
      case SetHang => Hang
      case _ => Overrun
  }

  /** `loop`: pattern `p` against string `s`. */
  function Loop(p: string, s: string): Rc
    requires NulFree(p)
    decreases |p|, |s|
  {
    var c := At(s, 0);
    if p == "" then if s == "" then Match else NoMatch
    else if p[0] == '*' then
      var rest := SkipStars(p[1..]);
      if s == "" && rest == "" then Match
      else
        var rc := Loop(rest, s);
        if rc in {Match, Hang, Overrun} then rc
        else if s == "" then NoMatch
        else Loop(p, s[1..])
    else if p[0] == '?' then
      if IsPrint(c) then Loop(p[1..], s[1..]) else if s == "" then NoMatch else Fail
    else if p[0] == '\\' then
      if !IsPrint(At(p, 1)) then Fail
      else if At(p, 1) == c then Loop(p[2..], s[1..])
      else NoMatch
    else if p[0] == '[' then
      match ScanSet(SCAN_START, p[1..])
      case Bad => Fail
      case SetHang => Hang
      case SetOverrun => Overrun
      case Ok(cs, rest) =>
        if !InSet(cs, c) then NoMatch
        else if s == "" then Past(rest[1..])
        else Loop(rest[1..], s[1..])
    else if p[0] == c then Loop(p[1..], s[1..])
    else NoMatch
  }

  /** Negation included. */
  predicate InSet(cs: CharSet, c: char) {
    Found(cs, c) != cs.negate
  }

  // ----- what a pattern means, without any search

  datatype Elem = Lit(c: char) | One | Any | Set(cs: CharSet)

  /** How a pattern ends: as a whole, at an escape or a set that is refused, or at a set whose scan
      hangs or leaves the pattern. */
  datatype End = Done | Malformed | Hanging | Straying

  datatype Pattern = Pattern(es: seq<Elem>, end: End)

  /** The elements of a pattern, up to its end. */
  function Compile(p: string): Pattern
    requires NulFree(p)
    decreases |p|
  {
    if p == "" then Pattern([], Done)
    else if p[0] == '*' then Then(Any, Compile(p[1..]))
    else if p[0] == '?' then Then(One, Compile(p[1..]))
    else if p[0] == '\\' then
      if IsPrint(At(p, 1)) then Then(Lit(p[1]), Compile(p[2..])) else Pattern([], Malformed)
    else if p[0] == '[' then
      match ScanSet(SCAN_START, p[1..])
      case Ok(cs, rest) => Then(Set(cs), Compile(rest[1..]))
      case Bad => Pattern([], Malformed)
      case SetHang => Pattern([], Hanging)
      case SetOverrun => Pattern([], Straying)
    else Then(Lit(p[0]), Compile(p[1..]))
  }

  function Then(e: Elem, pat: Pattern): Pattern {
    pat.(es := [e] + pat.es)
  }

  /** Element `e` stands for the text `t`. */
  predicate Spells(e: Elem, t: string) {
    match e
    case Any => true
    case Lit(c) => t == [c]
    case One => |t| == 1 && IsPrint(t[0])
    case Set(cs) => |t| == 1 && InSet(cs, t[0])
  }

  ghost predicate SplitsInto(es: seq<Elem>, parts: seq<string>, s: string) {
    |parts| == |es| && Concat(parts) == s && forall i :: 0 <= i < |es| ==> Spells(es[i], parts[i])
  }

  /** The string can be cut into as many parts as there are elements, each part spelled by its element. */
  ghost predicate Matches(es: seq<Elem>, s: string) {
    exists parts :: SplitsInto(es, parts, s)
  }

  predicate Negated(e: Elem) {
    e.Set? && e.cs.negate
  }

  /** Behind element `i` the search looks at the string, or is lost in a set, before it can be refused. */
  predicate LooksBehind(pat: Pattern, i: nat) {
    i + 1 < |pat.es| || pat.end != Malformed
  }

  /** Some way of matching uses up the whole string just in front of a negated set, which takes the string
      pointer behind the terminator, and the search does not end there. */
  ghost predicate Stranded(pat: Pattern, s: string) {
    exists i :: 0 <= i < |pat.es| && Negated(pat.es[i]) && LooksBehind(pat, i) && Matches(pat.es[..i], s)
  }

  /** Some way of matching comes to the end of the elements, with or without the rest of the string. */
  ghost predicate Reaches(es: seq<Elem>, s: string) {
    exists k :: 0 <= k <= |s| && Matches(es, s[..k])
  }

  ghost predicate Accepts(pat: Pattern, s: string) {
    pat.end == Done && Matches(pat.es, s)
  }

  /** Some way of matching goes on behind the string, or comes to a set whose scan is lost. */
  ghost predicate Loses(pat: Pattern, s: string) {
    Stranded(pat, s) || (pat.end in {Hanging, Straying} && Reaches(pat.es, s))
  }
}
