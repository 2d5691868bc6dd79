/**
 * The language of the parser: which texts it accepts, and what they mean. Each function reads one kind
 * of phrase from the front of a text. The differences from RFC 4627 are the code's: words in any case,
 * single quotes, a comma before a closing bracket, lower-case hexadecimal digits only, whatever `sscanf`
 * takes for a number, comments, and anything behind the value.
 */
module JsonGrammar {
  import opened CTypes
  import opened JsonValue
  import opened Decimal
  import opened Tokener

  /** `Cut`: the text ends inside a comment behind this value, and then this value is what is returned,
      whatever it is a part of. */
  datatype Reading<T> = Read(value: T, rest: string) | NotRead(err: Error) | Cut(value: T)

  // ----- white space and comments

  /** What begins at `rest` is neither; `Unended`: the text ends inside a comment; `Stray`: a slash begins no
      comment, and perhaps it is the last character. */
  datatype Blank = Upto(rest: string) | Unended | Stray(last: bool)

  /** The error when a token is to come. */
  function BlankError(b: Blank): Error {
    if b.Stray? && !b.last then BadComment else ParseEof
  }

  /** Behind the end of a block comment. A star is tried together with the character behind it, so `**`
      followed by a slash ends nothing. */
  function BlockEnd(s: string): (r: Option<string>)
    ensures r.Some? ==> |r.value| + 2 <= |s| && (NulFree(s) ==> NulFree(r.value))
    decreases |s|
  {
    if |s| < 2 then None
    else if s[0] != '*' then BlockEnd(s[1..])
    else if s[1] == '/' then Some(s[2..])
    else BlockEnd(s[2..])
  }

  function LineEnd(s: string): (r: Option<string>)
    ensures r.Some? ==> |r.value| < |s| && (NulFree(s) ==> NulFree(r.value))
  {
    if s == "" then None
    else if s[0] == '\n' then Some(s[1..])
    else LineEnd(s[1..])
  }

  /** A character that begins no white space and no comment, or the end. */
  predicate Solid(s: string) {
    !IsSpace(Front(s)) && Front(s) != '/'
  }

  function Skip(s: string): (b: Blank)
    ensures b.Upto? ==> |b.rest| <= |s| && (NulFree(s) ==> NulFree(b.rest)) && Solid(b.rest)
    decreases |s|
  {
    if IsSpace(Front(s)) then Skip(s[1..])
    else if Front(s) != '/' then Upto(s)
    else if At(s, 1) == '*' then Behind(s, BlockEnd(s[2..]))
    else if At(s, 1) == '/' then Behind(s, LineEnd(s[2..]))
    else Stray(At(s, 1) == NUL)
  }

  /** A comment at the front of `s` and what follows it. */
  function Behind(s: string, end: Option<string>): (b: Blank)
    requires end.Some? ==> |end.value| < |s| && (NulFree(s) ==> NulFree(end.value))
    ensures b.Upto? ==> |b.rest| <= |s| && (NulFree(s) ==> NulFree(b.rest)) && Solid(b.rest)
    decreases |s|, 0
  {
    match end
    case Some(rest) => Skip(rest)
    case None => Unended
  }

  // ----- words and numbers

  predicate Spelled(p: string, word: string) {
    |word| <= |p| && forall i :: 0 <= i < |word| ==> Lower(p[i]) == word[i]
  }

  /** The text ends inside the word, or spells another one. */
  function WordError(p: string, word: string): Error {
    if |p| < |word| && Spelled(p, word[..|p|]) then ParseEof
    else if word == "null" then NullExpected
    else BooleanExpected
  }

  function ReadWord(p: string, word: string, v: Json): (r: Reading<Json>)
    ensures r.Read? ==> |r.rest| <= |p| && (NulFree(p) ==> NulFree(r.rest))
    ensures !r.Cut?
  {
    if Spelled(p, word) then Read(v, p[|word|..]) else NotRead(WordError(p, word))
  }

  function NumberLen(p: string): (n: nat)
    ensures n <= |p| && (n < |p| ==> !IsNumberChar(p[n])) && forall i :: 0 <= i < n ==> IsNumberChar(p[i])
  {
    if p != "" && IsNumberChar(p[0]) then 1 + NumberLen(p[1..]) else 0
  }

  /** The longest run of number characters; what of it is a number is up to `sscanf`. */
  function ReadNumber(p: string): (r: Reading<Json>)
    ensures r.Read? ==> |r.rest| <= |p| && (NulFree(p) ==> NulFree(r.rest))
    ensures !r.Cut?
  {
    var n := NumberLen(p);
    match Numeric(p[..n], DoubleMark(p[..n]))
    case Some(v) => Read(v, p[n..])
    case None => NotRead(Fault(p[n..], NumberExpected))
  }

  // ----- strings

  predicate IsHex(c: char) {
    IsDigit(c) || 'a' <= c <= 'f'
  }

  predicate AllHex(s: string) {
    forall c :: c in s ==> IsHex(c)
  }

  /** What is wrong with the escape at the front of `s`. */
  function EscapeError(s: string): Error {
    if |s| < 2 || (s[1] == 'u' && |s| < 6 && AllHex(s[2..])) then ParseEof else BadString
  }

  /** The value of the digits from the `k`th of four on. */
  function HexValue(s: string, k: nat): (v: nat)
    requires k <= 4 && |s| == 4 - k && AllHex(s)
    ensures v < Power16(4 - k)
    decreases |s|
  {
    if k == 4 then 0
    else
      assert s[0] in s;
      assert IsHex(s[0]) && 0 <= HexDigit(s[0]) < 16;
      HexDigit(s[0]) * Power16(3 - k) + HexValue(s[1..], k + 1)
  }

  function Before(t: string, r: Reading<string>): (r': Reading<string>)
    ensures r'.Read? <==> r.Read?
    ensures r.Read? ==> r'.rest == r.rest && r'.value == t + r.value
    ensures !r.Read? ==> r' == r
  {
    if r.Read? then Read(t + r.value, r.rest) else r
  }

  /** The characters up to the closing quote `q`, and what they stand for. */
  function ReadText(s: string, q: char): (r: Reading<string>)
    ensures r.Read? ==> |r.rest| < |s| && (NulFree(s) ==> NulFree(r.rest))
    ensures !r.Cut?
    decreases |s|
  {
    if s == "" then NotRead(ParseEof)
    else if s[0] == q then Read("", s[1..])
    else if s[0] != '\\' then Before([s[0]], ReadText(s[1..], q))
    else if |s| >= 2 && SimpleEscape(s[1]).Some? then Before([SimpleEscape(s[1]).value], ReadText(s[2..], q))
    else if |s| >= 6 && s[1] == 'u' && AllHex(s[2..6]) then
      Before(Utf8(HexValue(s[2..6], 0)), ReadText(s[6..], q))
    else NotRead(EscapeError(s))
  }

  // ----- values

  predicate IsQuote(c: char) {
    c == '"' || c == '\''
  }

  /** A value, at nesting depth `d`. */
  function ReadValue(s: string, d: nat): (r: Reading<Json>)
    ensures r.Read? ==> |r.rest| <= |s| && (NulFree(s) ==> NulFree(r.rest))
    decreases |s|, 0
  {
    if !Skip(s).Upto? then NotRead(BlankError(Skip(s)))
    else
      var p := Skip(s).rest;
      var c := Front(p);
      if c == '{' then ReadMembers(p[1..], [], d)
      else if c == '[' then ReadItems(p[1..], [], d)
      else if IsQuote(c) then
        match ReadText(p[1..], c)
        case Read(buf, rest) => Read(Str(CString(buf)), rest)
        case NotRead(err) => NotRead(err)
      else if Lower(c) == 'n' then ReadWord(p, "null", Null)
      else if Lower(c) == 't' then ReadWord(p, "true", Bool(true))
      else if Lower(c) == 'f' then ReadWord(p, "false", Bool(false))
      else if IsDigit(c) || c == '-' then ReadNumber(p)
      else NotRead(Fault(p, Unexpected))
  }

  /** The rest of an array that holds `items`, behind its bracket or a comma. */
  function ReadItems(s: string, items: seq<Json>, d: nat): (r: Reading<Json>)
    ensures r.Read? ==> |r.rest| <= |s| && (NulFree(s) ==> NulFree(r.rest))
    decreases |s|, 1
  {
    if !Skip(s).Upto? then NotRead(BlankError(Skip(s)))
    else
      var p := Skip(s).rest;
      if Front(p) == ']' then Read(Arr(items), p[1..])
      else if d + 1 >= MAX_DEPTH then NotRead(Fault(p, TooDeep))
      else
        match ReadValue(p, d + 1)
        case Read(v, more) => MoreItems(more, items, v, d)
        case other => other
  }

  /** The rest of an array that holds `items`, behind the next item `v`. */
  function MoreItems(s: string, items: seq<Json>, v: Json, d: nat): (r: Reading<Json>)
    ensures r.Read? ==> |r.rest| <= |s| && (NulFree(s) ==> NulFree(r.rest))
    decreases |s|, 0
  {
    match Skip(s)
    case Upto(q) =>
      if Front(q) == ']' then Read(Arr(items + [v]), q[1..])
      else if Front(q) == ',' then ReadItems(q[1..], items + [v], d)
      else NotRead(Fault(q, ArraySeparator))
    case Unended => Cut(v)
    case Stray(_) => NotRead(BadComment)
  }

  /** The rest of an object that holds `members`, behind its bracket or a comma. */
  function ReadMembers(s: string, members: seq<Member>, d: nat): (r: Reading<Json>)
    ensures r.Read? ==> |r.rest| <= |s| && (NulFree(s) ==> NulFree(r.rest))
    decreases |s|, 1
  {
    if !Skip(s).Upto? then NotRead(BlankError(Skip(s)))
    else
      var p := Skip(s).rest;
      if Front(p) == '}' then Read(Obj(members), p[1..])
      else if !IsQuote(Front(p)) then NotRead(Fault(p, KeyName))
      else
        match ReadKey(p)
        case Read(key, more) => ReadField(more, members, key, d)
        case NotRead(err) => NotRead(err)
  }

  /** The value of the field `key`, and the rest of the object. */
  function ReadField(s: string, members: seq<Member>, key: string, d: nat): (r: Reading<Json>)
    ensures r.Read? ==> |r.rest| <= |s| && (NulFree(s) ==> NulFree(r.rest))
    decreases |s|, 2
  {
    if !Skip(s).Upto? then NotRead(BlankError(Skip(s)))
    else
      var p := Skip(s).rest;
      if d + 1 >= MAX_DEPTH then NotRead(Fault(p, TooDeep))
      else
        match ReadValue(p, d + 1)
        case Read(v, more) => MoreMembers(more, AddMember(members, key, v), v, d)
        case other => other
  }

  /** The rest of an object that holds `members`, behind the field with the value `v`. */
  function MoreMembers(s: string, members: seq<Member>, v: Json, d: nat): (r: Reading<Json>)
    ensures r.Read? ==> |r.rest| <= |s| && (NulFree(s) ==> NulFree(r.rest))
    decreases |s|, 0
  {
    match Skip(s)
    case Upto(q) =>
      if Front(q) == '}' then Read(Obj(members), q[1..])
      else if Front(q) == ',' then ReadMembers(q[1..], members, d)
      else NotRead(Fault(q, ValueSeparator))
    case Unended => Cut(v)
    case Stray(_) => NotRead(BadComment)
  }

  /** A key from its quote to behind its colon. */
  function ReadKey(p: string): (r: Reading<string>)
    requires p != ""
    ensures r.Read? ==> |r.rest| < |p| && (NulFree(p) ==> NulFree(r.rest))
    ensures !r.Cut?
  {
    match ReadText(p[1..], p[0])
    case Read(buf, more) =>
      if !Skip(more).Upto? then NotRead(BlankError(Skip(more)))
      else
        var q := Skip(more).rest;
        if Front(q) == ':' then Read(CString(buf), q[1..]) else NotRead(Fault(q, KeySeparator))
    case NotRead(err) => NotRead(err)
  }

  datatype Verdict = Valid(value: Json) | Invalid(err: Error)

  /** A whole text: a value, and whatever follows it but a slash that begins no comment. */
  function ReadJson(text: string): Verdict {
    match ReadValue(text, 0)
    case Read(v, rest) => if Skip(rest).Stray? then Invalid(BadComment) else Valid(v)
    case Cut(v) => Valid(v)
    case NotRead(err) => Invalid(err)
  }
}
