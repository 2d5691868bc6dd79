/**
 * The incremental JSON parser `json_tokener_parse_ex` as a state machine that looks at one
 * character at a time. `Dispatch` is one execution of the big `switch`; `Settle` repeats it on the
 * same character for as long as the source jumps to `redo_char`; `Run` feeds a whole text.
 */
module Tokener {
  import opened CTypes
  import opened JsonValue
  import opened Decimal

  const MAX_DEPTH: nat := 32

  datatype Error =
    | Success | Continue | TooDeep | ParseEof | Unexpected | NullExpected | BooleanExpected
    | NumberExpected | ArraySeparator | KeyName | KeySeparator | ValueSeparator | BadString | BadComment

  /** `enum json_tokener_state`; the enumerators keep their C values. */
  newtype State = n: int | 0 <= n < 22

  const Eatws: State := 0
  const Start: State := 1
  const Finish: State := 2
  const NullWord: State := 3
  const CommentStart: State := 4
  const Comment: State := 5
  const CommentEol: State := 6
  const CommentEnd: State := 7
  const String: State := 8
  const StringEscape: State := 9
  const EscapeUnicode: State := 10
  const Boolean: State := 11
  const Number: State := 12
  const Array: State := 13
  const ArrayAdd: State := 14
  const ArraySep: State := 15
  const ObjectFieldStart: State := 16
  const ObjectField: State := 17
  const ObjectFieldEnd: State := 18
  const ObjectValue: State := 19
  const ObjectValueAdd: State := 20
  const ObjectSep: State := 21

  /** One level of the explicit stack. */
  datatype Level = Level(state: State, saved: State, current: Json, field: Option<string>)

  const FRESH := Level(Eatws, Start, Null, None)

  /** The tokener: levels `0..depth-1` are `below`, level `depth` is `top`. `obj` is the local
      variable that carries a finished value from one level to the level below it. */
  datatype Tok = Tok(below: seq<Level>, top: Level, obj: Json, pb: string, stPos: nat,
                     ucs: nat, quote: char, isDouble: bool)
  {
    function Depth(): nat { |below| }

    function Goto(state: State): Tok {
      this.(top := top.(state := state))
    }

    /** Skip white space and comments, then go on in `state`. */
    function WaitFor(state: State): Tok {
      this.(top := top.(state := Eatws, saved := state))
    }

    function Append(s: string): Tok {
      this.(pb := pb + s)
    }
  }

  const NEW := Tok([], FRESH, Null, "", 0, 0, NUL, false)

  /** What one `switch` does to the json objects. */
  datatype Effect = Keep | Make(v: Json) | Push | Pop | AddItem | AddField

  datatype Move = Redo | Advance | Out(err: Error)

  /** `tok` has the new control state; `effect` is still to be applied to it. */
  datatype Result = Result(move: Move, tok: Tok, effect: Effect)

  // ----- character classes

  /** `strchr(json_hex_chars, c)` is not NULL: lower-case digits only, and also the terminator. */
  predicate IsHexChar(c: char) {
    IsDigit(c) || 'a' <= c <= 'f' || c == NUL
  }

  function HexDigit(c: char): int {
    if c <= '9' then c as int - '0' as int else c as int % 8 + 9
  }

  function Lower(c: char): char {
    if 'A' <= c <= 'Z' then (c as int + 32) as char else c
  }

  /** `strncasecmp(word, pb, min(stPos + 1, |word|)) == 0`. */
  predicate MatchesWord(word: string, pb: string, stPos: nat) {
    var n := if stPos + 1 < |word| then stPos + 1 else |word|;
    n <= |pb| && forall i :: 0 <= i < n ==> Lower(pb[i]) == word[i]
  }

  // ----- \u escapes

  function Power16(k: nat): nat {
    if k == 0 then 1 else 16 * Power16(k - 1)
  }

  /** `ucs_char += hexdigit(c) << ((3 - st_pos) * 4)` on a 32-bit unsigned. */
  function AddHexDigit(ucs: nat, c: char, stPos: nat): nat
    requires stPos < 4
  {
    (ucs + HexDigit(c) * Power16(3 - stPos)) % 0x1_0000_0000
  }

  /** The one to three bytes `utf_out` gets; each byte is cut to eight bits. */
  function Utf8(ucs: nat): string {
    if ucs < 0x80 then [ucs as char]
    else if ucs < 0x800 then [(0xc0 + ucs / 64) as char, (0x80 + ucs % 64) as char]
    else [(0xe0 + ucs / 4096 % 32) as char, (0x80 + ucs / 64 % 64) as char, (0x80 + ucs % 64) as char]
  }

  // ----- one execution of the switch

  function Fail(t: Tok, err: Error): Result {
    Result(Out(err), t, Keep)
  }

  function Next(t: Tok): Result {
    Result(Advance, t, Keep)
  }

  function Again(t: Tok): Result {
    Result(Redo, t, Keep)
  }

  function InStart(t: Tok, c: char): Result {
    if c == '{' then Result(Advance, t.WaitFor(ObjectFieldStart), Make(Obj([])))
    else if c == '[' then Result(Advance, t.WaitFor(Array), Make(Arr([])))
    else if c == 'N' || c == 'n' then Again(t.Goto(NullWord).(pb := "", stPos := 0))
    else if c == '"' || c == '\'' then Next(t.Goto(String).(pb := "", quote := c))
    else if c == 'T' || c == 't' || c == 'F' || c == 'f' then Again(t.Goto(Boolean).(pb := "", stPos := 0))
    else if IsDigit(c) || c == '-' then Again(t.Goto(Number).(pb := "", isDouble := false))
    else Fail(t, Unexpected)
  }

  function InNull(t: Tok, c: char): Result {
    var t' := t.Append([c]);
    if !MatchesWord("null", t'.pb, t.stPos) then Fail(t', NullExpected)
    else if t.stPos == 4 then Result(Redo, t'.WaitFor(Finish), Make(Null))
    else Next(t'.(stPos := t.stPos + 1))
  }

  function InBoolean(t: Tok, c: char): Result {
    var t' := t.Append([c]);
    if MatchesWord("true", t'.pb, t.stPos) then
      if t.stPos == 4 then Result(Redo, t'.WaitFor(Finish), Make(Bool(true)))
      else Next(t'.(stPos := t.stPos + 1))
    else if MatchesWord("false", t'.pb, t.stPos) then
      if t.stPos == 5 then Result(Redo, t'.WaitFor(Finish), Make(Bool(false)))
      else Next(t'.(stPos := t.stPos + 1))
    else Fail(t', BooleanExpected)
  }

  /** What `sscanf` makes of the collected characters of a number. */
  function Numeric(pb: string, isDouble: bool): Option<Json> {
    if isDouble then if ScansAsDouble(pb) then Some(Double(pb)) else None
    else match ScanInt(pb) case Some(n) => Some(Int(n)) case None => None
  }

  function InNumber(t: Tok, c: char): Result {
    if IsNumberChar(c) then Next(t.Append([c]).(isDouble := t.isDouble || c == '.' || c == 'e'))
    else match Numeric(t.pb, t.isDouble)
      case Some(v) => Result(Redo, t.WaitFor(Finish), Make(v))
      case None => Fail(t, NumberExpected)
  }

  function InString(t: Tok, c: char): Result {
    if c == t.quote then Result(Advance, t.WaitFor(Finish), Make(Str(CString(t.pb))))
    else if c == '\\' then Next(t.(top := t.top.(state := StringEscape, saved := String)))
    else Next(t.Append([c]))
  }

  /** The escapes that stand for one byte; "\\f" is not among them. */
  function SimpleEscape(c: char): Option<char> {
    if c == '"' || c == '\\' || c == '/' then Some(c)
    else if c == 'b' then Some(8 as char)
    else if c == 'n' then Some('\n')
    else if c == 'r' then Some('\r')
    else if c == 't' then Some('\t')
    else None
  }

  function InStringEscape(t: Tok, c: char): Result {
    if SimpleEscape(c).Some? then Next(t.Append([SimpleEscape(c).value]).Goto(t.top.saved))
    else if c == 'u' then Next(t.Goto(EscapeUnicode).(ucs := 0, stPos := 0))
    else Fail(t, BadString)
  }

  function InEscapeUnicode(t: Tok, c: char): Result {
    if t.stPos >= 4 || !IsHexChar(c) then Fail(t, BadString)
    else
      var t' := t.(ucs := AddHexDigit(t.ucs, c, t.stPos), stPos := t.stPos + 1);
      Next(if t'.stPos == 4 then t'.Append(Utf8(t'.ucs)).Goto(t.top.saved) else t')
  }

  function InComment(t: Tok, c: char): Result {
    match t.top.state
    case CommentStart =>
      if c == '*' then Next(t.Append([c]).Goto(Comment))
      else if c == '/' then Next(t.Append([c]).Goto(CommentEol))
      else Fail(t, BadComment)
    case Comment => Next(t.Append([c]).Goto(if c == '*' then CommentEnd else Comment))
    case CommentEol => Next(if c == '\n' then t.Goto(Eatws) else t.Append([c]))
    case _ => Next(t.Append([c]).Goto(if c == '/' then Eatws else Comment))
  }

  function InArray(t: Tok, c: char): Result {
    match t.top.state
    case Array =>
      if c == ']' then Next(t.WaitFor(Finish))
      else if t.Depth() >= MAX_DEPTH - 1 then Fail(t, TooDeep)
      else Result(Redo, t.Goto(ArrayAdd), Push)
    case ArrayAdd => Result(Redo, t.WaitFor(ArraySep), AddItem)
    case _ =>
      if c == ']' then Next(t.WaitFor(Finish))
      else if c == ',' then Next(t.WaitFor(Array))
      else Fail(t, ArraySeparator)
  }

  function InKey(t: Tok, c: char): Result {
    if t.top.state == ObjectFieldStart then
      if c == '}' then Next(t.WaitFor(Finish))
      else if c == '"' || c == '\'' then Next(t.Goto(ObjectField).(quote := c, pb := ""))
      else Fail(t, KeyName)
    else
      if c == t.quote then
        Next(t.(top := Level(Eatws, ObjectFieldEnd, t.top.current, Some(CString(t.pb)))))
      else if c == '\\' then Next(t.(top := t.top.(state := StringEscape, saved := ObjectField)))
      else Next(t.Append([c]))
  }

  function InValue(t: Tok, c: char): Result {
    match t.top.state
    case ObjectFieldEnd =>
      if c == ':' then Next(t.WaitFor(ObjectValue)) else Fail(t, KeySeparator)
    case ObjectValue =>
      if t.Depth() >= MAX_DEPTH - 1 then Fail(t, TooDeep) else Result(Redo, t.Goto(ObjectValueAdd), Push)
    case _ => Result(Redo, t.WaitFor(ObjectSep), AddField)
  }

  function InObjectSep(t: Tok, c: char): Result {
    if c == '}' then Next(t.WaitFor(Finish))
    else if c == ',' then Next(t.WaitFor(ObjectFieldStart))
    else Fail(t, ValueSeparator)
  }

  function Dispatch(t: Tok, c: char): Result {
    match t.top.state
    case Eatws =>
      if IsSpace(c) then Next(t)
      else if c == '/' then Next(t.Goto(CommentStart).(pb := [c]))
      else Again(t.Goto(t.top.saved))
    case Start => InStart(t, c)
    case Finish => if t.Depth() == 0 then Fail(t, Success) else Result(Redo, t, Pop)
    case NullWord => InNull(t, c)
    case Boolean => InBoolean(t, c)
    case Number => InNumber(t, c)
    case String => InString(t, c)
    case StringEscape => InStringEscape(t, c)
    case EscapeUnicode => InEscapeUnicode(t, c)
    case CommentStart | Comment | CommentEol | CommentEnd => InComment(t, c)
    case Array | ArrayAdd | ArraySep => InArray(t, c)
    case ObjectFieldStart | ObjectField => InKey(t, c)
    case ObjectFieldEnd | ObjectValue | ObjectValueAdd => InValue(t, c)
    case ObjectSep => InObjectSep(t, c)
  }

  // ----- the effect on the values

  function Apply(t: Tok, e: Effect): Tok {
    match e
    case Keep => t
    case Make(v) => t.(top := t.top.(current := v))
    case Push => t.(below := t.below + [t.top], top := FRESH)
    case Pop =>
      if t.below == [] then t
      else t.(below := t.below[..|t.below| - 1], top := t.below[|t.below| - 1], obj := t.top.current)
    case AddItem =>
      if t.top.current.Arr? then t.(top := t.top.(current := Arr(t.top.current.items + [t.obj]))) else t
    case AddField =>
      if t.top.current.Obj? && t.top.field.Some? then
        t.(top := t.top.(current := Obj(AddMember(t.top.current.members, t.top.field.value, t.obj)), field := None))
      else t
  }

  function Step(t: Tok, c: char): Tok {
    var r := Dispatch(t, c);
    Apply(r.tok, r.effect)
  }

  // ----- what holds between any two executions of the switch

  predicate OfArray(s: State) {
    s == Array || s == ArrayAdd || s == ArraySep
  }

  predicate BeforeKey(s: State) {
    s == ObjectFieldStart || s == ObjectSep
  }

  predicate AfterKey(s: State) {
    s == ObjectFieldEnd || s == ObjectValue || s == ObjectValueAdd
  }

  predicate Skipping(s: State) {
    s == Eatws || s == CommentStart || s == Comment || s == CommentEol || s == CommentEnd
  }

  /** What a level must hold to be handled in state `s`. */
  predicate Holds(s: State, l: Level) {
    && (s == Start || s == Finish || OfArray(s) || BeforeKey(s) || AfterKey(s))
    && (s == Start ==> l.current == Null)
    && (OfArray(s) ==> l.current.Arr?)
    && (BeforeKey(s) || AfterKey(s) ==> l.current.Obj?)
    && (AfterKey(s) <==> l.field.Some?)
  }

  /** Every level below the top waits to add the value of the level above it. */
  predicate Waiting(l: Level) {
    (l.state == ArrayAdd || l.state == ObjectValueAdd) && Holds(l.state, l)
  }

  /** The state in which the level goes on once the token it is in the middle of is over. */
  function Purpose(l: Level): State {
    if Skipping(l.state) then l.saved
    else if l.state == NullWord || l.state == Boolean || l.state == Number || l.state == String then Start
    else if l.state == ObjectField then ObjectFieldStart
    else if l.state == StringEscape || l.state == EscapeUnicode then
      if l.saved == String then Start else ObjectFieldStart
    else l.state
  }

  predicate TopHolds(t: Tok) {
    var l := t.top;
    && Holds(Purpose(l), l)
    && (Skipping(l.state) ==> l.saved != ArrayAdd && l.saved != ObjectValueAdd)
    && (l.state == NullWord ==> t.stPos <= |t.pb| && t.stPos <= 4)
    && (l.state == Boolean ==> t.stPos <= |t.pb| && t.stPos <= 5 && (t.stPos == 5 ==> Lower(t.pb[0]) == 'f'))
    && (l.state == EscapeUnicode ==> t.stPos < 4)
    && (l.state == StringEscape || l.state == EscapeUnicode ==> l.saved == String || l.saved == ObjectField)
  }

  predicate Inv(t: Tok) {
    |t.below| < MAX_DEPTH && TopHolds(t) && forall i :: 0 <= i < |t.below| ==> Waiting(t.below[i])
  }

  /** How many more times the switch can be entered on the same character. */
  function StateRank(s: State): nat {
    match s
    case Array | ObjectValue => 12
    case Start => 9
    case NullWord | Boolean | Number => 8
    case Finish => 6
    case ArrayAdd | ObjectValueAdd => 5
    case _ => 0
  }

  function Rank(t: Tok): nat {
    if t.top.state == Eatws then 1 + StateRank(t.top.saved) else StateRank(t.top.state)
  }

  /** Not between taking a value off one level and adding it to the level below: `obj` is dead. */
  predicate Quiet(t: Tok) {
    t.top.state != ArrayAdd && t.top.state != ObjectValueAdd
  }

  /** The stack discipline is kept, also when the call ends with an error, and a jump to `redo_char` lowers the rank. */
  predicate ResultOk(t: Tok, r: Result) {
    var t' := Apply(r.tok, r.effect);
    match r.move
    case Redo => Inv(t') && Rank(t') < Rank(t)
    case Advance => Inv(t') && Quiet(t')
    case Out(err) => Inv(t') && Quiet(t') && err != Continue && (err == Success ==> t' == t && t.top.state == Finish)
  }

  lemma {:induction false} FinishKeepsInv(t: Tok, c: char)
    requires Inv(t) && t.top.state == Finish
    ensures ResultOk(t, Dispatch(t, c))
  {
    if t.below != [] {
      assert Waiting(t.below[|t.below| - 1]);
    }
  }

  lemma {:induction false} EatwsKeepsInv(t: Tok, c: char)
    requires Inv(t) && t.top.state == Eatws
    ensures ResultOk(t, Dispatch(t, c))
  {
  }

  lemma {:induction false} CommentKeepsInv(t: Tok, c: char)
    requires Inv(t) && Skipping(t.top.state) && t.top.state != Eatws
    ensures ResultOk(t, InComment(t, c))
  {
    hide Rank, Waiting;
  }

  lemma {:induction false} ArrayKeepsInv(t: Tok, c: char)
    requires Inv(t) && OfArray(t.top.state)
    ensures ResultOk(t, InArray(t, c))
  {
  }

  predicate StartsWord(c: char) {
    c == 'N' || c == 'n' || c == 'T' || c == 't' || c == 'F' || c == 'f'
  }

  lemma {:induction false} StartWordKeepsInv(t: Tok, c: char)
    requires Inv(t) && t.top.state == Start && StartsWord(c)
    ensures ResultOk(t, InStart(t, c))
  {
  }

  lemma {:induction false} StartOtherKeepsInv(t: Tok, c: char)
    requires Inv(t) && t.top.state == Start && !StartsWord(c)
    ensures ResultOk(t, InStart(t, c))
  {
  }

  lemma {:induction false} NullKeepsInv(t: Tok, c: char)
    requires Inv(t) && t.top.state == NullWord
    ensures ResultOk(t, InNull(t, c))
  {
  }

  lemma {:induction false} BooleanKeepsInv(t: Tok, c: char)
    requires Inv(t) && t.top.state == Boolean
    ensures ResultOk(t, InBoolean(t, c))
  {
    var pb := t.pb + [c];
    assert MatchesWord("false", pb, t.stPos) ==> Lower(pb[0]) == "false"[0];
    assert MatchesWord("true", pb, t.stPos) ==> Lower(pb[0]) == "true"[0];
  }

  lemma {:induction false} NumberKeepsInv(t: Tok, c: char)
    requires Inv(t) && t.top.state == Number
    ensures ResultOk(t, InNumber(t, c))
  {
  }

  lemma {:induction false} StringKeepsInv(t: Tok, c: char)
    requires Inv(t) && t.top.state == String
    ensures ResultOk(t, InString(t, c))
  {
  }

  lemma {:induction false} StringEscapeKeepsInv(t: Tok, c: char)
    requires Inv(t) && t.top.state == StringEscape
    ensures ResultOk(t, InStringEscape(t, c))
  {
  }

  lemma {:induction false} EscapeUnicodeKeepsInv(t: Tok, c: char)
    requires Inv(t) && t.top.state == EscapeUnicode
    ensures ResultOk(t, InEscapeUnicode(t, c))
  {
  }

  lemma {:induction false} KeyKeepsInv(t: Tok, c: char)
    requires Inv(t) && (t.top.state == ObjectFieldStart || t.top.state == ObjectField)
    ensures ResultOk(t, InKey(t, c))
  {
  }

  lemma {:induction false} ValueKeepsInv(t: Tok, c: char)
    requires Inv(t) && AfterKey(t.top.state)
    ensures ResultOk(t, InValue(t, c))
  {
  }

  lemma {:induction false} ObjectSepKeepsInv(t: Tok, c: char)
    requires Inv(t) && t.top.state == ObjectSep
    ensures ResultOk(t, InObjectSep(t, c))
  {
  }

  /** Stack discipline and termination of the state machine, from every state it can be in. */
  lemma {:induction false} StepKeepsInv(t: Tok, c: char)
    requires Inv(t)
    ensures ResultOk(t, Dispatch(t, c))
  {
    match t.top.state
    case Start =>
      if StartsWord(c) {
        StartWordKeepsInv(t, c);
      } else {
        StartOtherKeepsInv(t, c);
      }
    case NullWord => NullKeepsInv(t, c);
    case Boolean => BooleanKeepsInv(t, c);
    case Number => NumberKeepsInv(t, c);
    case String => StringKeepsInv(t, c);
    case StringEscape => StringEscapeKeepsInv(t, c);
    case EscapeUnicode => EscapeUnicodeKeepsInv(t, c);
    case Array | ArrayAdd | ArraySep => ArrayKeepsInv(t, c);
    case ObjectFieldStart | ObjectField => KeyKeepsInv(t, c);
    case ObjectSep => ObjectSepKeepsInv(t, c);
    case ObjectFieldEnd | ObjectValue | ObjectValueAdd => ValueKeepsInv(t, c);
    case Finish => FinishKeepsInv(t, c);
    case Eatws => EatwsKeepsInv(t, c);
    case _ => CommentKeepsInv(t, c);
  }

  /** All executions of the switch on one character: the last one, and the tokener after it. */
  function Settle(t: Tok, c: char): (r: (Tok, Move))
    requires Inv(t)
    ensures !r.1.Redo?
    ensures Inv(r.0) && Quiet(r.0)
    ensures r.1 != Out(Continue)
    decreases Rank(t)
  {
    StepKeepsInv(t, c);
    var move := Dispatch(t, c).move;
    if move.Redo? then Settle(Step(t, c), c) else (Step(t, c), move)
  }

  // ----- whole texts

  /** `POP_CHAR` at the end of the text. */
  function EndOfText(t: Tok): Error {
    if t.below == [] && t.top.state == Eatws && t.top.saved == Finish then Success else Continue
  }

  /** The end-of-input test after the loop. */
  function CheckEof(t: Tok, c: char, err: Error): Error {
    if c == NUL && t.top.state != Finish && t.top.saved != Finish then ParseEof else err
  }

  /** The error at the front of `s`: the end of the text is reported as such. */
  function Fault(s: string, e: Error): Error {
    if Front(s) == NUL then ParseEof else e
  }

  /** `unread` counts the characters behind the one the call stopped at, and that one if it was not taken. */
  datatype Outcome = Outcome(tok: Tok, err: Error, unread: nat)

  function Run(t: Tok, text: string): (o: Outcome)
    requires Inv(t)
    ensures Inv(o.tok) && (Quiet(t) ==> Quiet(o.tok))
    ensures o.err == Continue ==> o.unread == 0
    ensures o.unread <= |text|
    decreases |text|
  {
    if text == "" then Outcome(t, EndOfText(t), 0)
    else
      var (t', move) := Settle(t, text[0]);
      match move
      case Advance =>
        if text[0] == NUL then Outcome(t', CheckEof(t', NUL, Success), |text| - 1)
        else Run(t', text[1..])
      case Out(err) => Outcome(t', CheckEof(t', text[0], err), |text|)
  }

  /** One call of `json_tokener_parse_ex`: the local `obj` starts as NULL and is forgotten. */
  function Feed(t: Tok, text: string): (o: Outcome)
    requires Inv(t)
    ensures Inv(o.tok) && (Quiet(t) ==> Quiet(o.tok))
  {
    var o := Run(t.(obj := Null), text);
    o.(tok := o.tok.(obj := Null))
  }

  function Value(o: Outcome): Json {
    if o.err == Success then o.tok.top.current else Null
  }

  /** `json_tokener_parse`: a new tokener reads the text and its terminator. */
  function Parse(text: string): Outcome {
    Feed(NEW, text + [NUL])
  }
}
